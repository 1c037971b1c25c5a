/**
 * The delta filter and the two-stage unpivot: wide `portal_live` rows become
 * one long row per (content id, category, tag).
 */
module Reshape {
  import opened Text
  import opened Tables

  function Ids(rows: seq<WideRow>): set<int> {
    set r | r in rows :: r.id
  }

  /** Keeps the wide rows whose id is not among the already converted ids, in order. */
  function DeltaFilter(rows: seq<WideRow>, converted: set<int>): (out: seq<WideRow>)
    ensures forall r :: r in out ==> r in rows && r.id !in converted
    ensures forall r :: r in rows && r.id !in converted ==> r in out
    ensures |out| <= |rows|
  {
    if rows == [] then []
    else (if rows[0].id in converted then [] else [rows[0]]) + DeltaFilter(rows[1..], converted)
  }

  /** Once the ids a run converted are added to the converted set, a second run on the same rows has nothing to do. */
  lemma DeltaFilterSecondRunEmpty(rows: seq<WideRow>, converted: set<int>)
    ensures DeltaFilter(rows, converted + Ids(DeltaFilter(rows, converted))) == []
  {
    var first := DeltaFilter(rows, converted);
    forall r | r in rows ensures r.id in converted + Ids(first) {
      if r.id !in converted {
        assert r in first;
      }
    }
    DeltaFilterAllConverted(rows, converted + Ids(first));
  }

  lemma {:induction false} DeltaFilterAllConverted(rows: seq<WideRow>, converted: set<int>)
    requires forall r :: r in rows ==> r.id in converted
    ensures DeltaFilter(rows, converted) == []
  {
    if rows != [] {
      assert rows[0] in rows;
      DeltaFilterAllConverted(rows[1..], converted);
    }
  }

  /** A melted cell survives the two filters: it is not null and not the empty string. */
  predicate Present(c: Cell) {
    c != Null && c != Str("")
  }

  /** The melt of one category column, rows in order, with absent cells dropped. */
  function MeltColumn(rows: seq<WideRow>, k: nat): (out: seq<MeltedRow>)
    requires k < |Categories| && WellFormed(rows)
    ensures forall m :: m in out ==>
              && Present(m.cell) && m.tagCat == Categories[k]
              && exists r :: r in rows && m == MeltedRow(r.id, Categories[k], r.cells[k])
    ensures forall r :: r in rows && Present(r.cells[k]) ==> MeltedRow(r.id, Categories[k], r.cells[k]) in out
  {
    if rows == [] then []
    else
      var r := rows[0];
      (if Present(r.cells[k]) then [MeltedRow(r.id, Categories[k], r.cells[k])] else [])
        + MeltColumn(rows[1..], k)
  }

  function MeltFrom(rows: seq<WideRow>, k: nat): (out: seq<MeltedRow>)
    requires k <= |Categories| && WellFormed(rows)
    ensures forall m :: m in out ==>
              && Present(m.cell)
              && exists r, j :: r in rows && k <= j < |Categories| && m == MeltedRow(r.id, Categories[j], r.cells[j])
    ensures forall r, j ::
              r in rows && k <= j < |Categories| && Present(r.cells[j]) ==>
                MeltedRow(r.id, Categories[j], r.cells[j]) in out
    decreases |Categories| - k
  {
    if k == |Categories| then []
    else
      var here := MeltColumn(rows, k);
      var later := MeltFrom(rows, k + 1);
      assert forall r, j :: r in rows && k <= j < |Categories| && Present(r.cells[j]) ==>
               MeltedRow(r.id, Categories[j], r.cells[j]) in here + later by {
        forall r, j | r in rows && k <= j < |Categories| && Present(r.cells[j])
          ensures MeltedRow(r.id, Categories[j], r.cells[j]) in here + later
        {
          if j == k {
            assert MeltedRow(r.id, Categories[j], r.cells[j]) in here;
          } else {
            assert MeltedRow(r.id, Categories[j], r.cells[j]) in later;
          }
        }
      }
      here + later
  }

  /**
   * The first melt and its filters: one row per (wide row, category) whose
   * cell is present, category by category, and nothing else.
   */
  function Unpivot(rows: seq<WideRow>): (out: seq<MeltedRow>)
    requires WellFormed(rows)
    ensures forall m :: m in out ==>
              && Present(m.cell)
              && exists r, j :: r in rows && 0 <= j < |Categories| && m == MeltedRow(r.id, Categories[j], r.cells[j])
    ensures forall r, j ::
              r in rows && 0 <= j < |Categories| && Present(r.cells[j]) ==>
                MeltedRow(r.id, Categories[j], r.cells[j]) in out
  {
    MeltFrom(rows, 0)
  }

  /** `str.split(",")` of a melted cell; a non-string cell splits to NaN and yields nothing. */
  function Pieces(c: Cell): seq<string> {
    match c
    case Str(s) => Split(s, ",")
    case _ => []
  }

  /** The number of columns `str.split(",", expand=True)` produces. */
  function MaxWidth(ms: seq<MeltedRow>): (w: nat)
    ensures forall m :: m in ms ==> |Pieces(m.cell)| <= w
  {
    if ms == [] then 0
    else
      var rest := MaxWidth(ms[1..]);
      if |Pieces(ms[0].cell)| > rest then |Pieces(ms[0].cell)| else rest
  }

  /** The second melt restricted to split column `p`, rows in order, empty and missing pieces dropped. */
  function AtPosition(ms: seq<MeltedRow>, p: nat): (out: seq<LongRow>)
    ensures forall l :: l in out ==>
              && l.tag != ""
              && exists m :: m in ms && m.id == l.contentId && m.tagCat == l.tagCat
                               && p < |Pieces(m.cell)| && Pieces(m.cell)[p] == l.tag
    ensures forall m ::
              m in ms && p < |Pieces(m.cell)| && Pieces(m.cell)[p] != "" ==>
                LongRow(m.id, m.tagCat, Pieces(m.cell)[p]) in out
  {
    if ms == [] then []
    else
      var m := ms[0];
      var pieces := Pieces(m.cell);
      (if p < |pieces| && pieces[p] != "" then [LongRow(m.id, m.tagCat, pieces[p])] else [])
        + AtPosition(ms[1..], p)
  }

  function Positions(ms: seq<MeltedRow>, p: nat): (out: seq<LongRow>)
    ensures forall l :: l in out ==>
              && l.tag != ""
              && exists m, q :: m in ms && m.id == l.contentId && m.tagCat == l.tagCat
                                  && p <= q < |Pieces(m.cell)| && Pieces(m.cell)[q] == l.tag
    ensures forall m, q ::
              m in ms && p <= q < |Pieces(m.cell)| && Pieces(m.cell)[q] != "" ==>
                LongRow(m.id, m.tagCat, Pieces(m.cell)[q]) in out
    decreases MaxWidth(ms) - p
  {
    if p >= MaxWidth(ms) then []
    else
      var here, later := AtPosition(ms, p), Positions(ms, p + 1);
      assert forall l :: l in here + later ==> l in here || l in later;
      assert forall m, q ::
          m in ms && p <= q < |Pieces(m.cell)| && Pieces(m.cell)[q] != "" ==>
            LongRow(m.id, m.tagCat, Pieces(m.cell)[q]) in here + later by {
        forall m, q | m in ms && p <= q < |Pieces(m.cell)| && Pieces(m.cell)[q] != ""
          ensures LongRow(m.id, m.tagCat, Pieces(m.cell)[q]) in here + later
        {
          if q == p {
            assert LongRow(m.id, m.tagCat, Pieces(m.cell)[q]) in here;
          } else {
            assert LongRow(m.id, m.tagCat, Pieces(m.cell)[q]) in later;
          }
        }
      }
      here + later
  }

  /**
   * The comma split and second melt: one long row per non-empty piece of a
   * present cell, split column by split column, with `id` renamed `content_id`.
   */
  function SplitTags(ms: seq<MeltedRow>): (out: seq<LongRow>)
    ensures forall l :: l in out ==>
              && l.tag != "" && ',' !in l.tag
              && exists m :: m in ms && m.id == l.contentId && m.tagCat == l.tagCat && l.tag in Pieces(m.cell)
    ensures forall m, x :: m in ms && x in Pieces(m.cell) && x != "" ==> LongRow(m.id, m.tagCat, x) in out
  {
    var out := Positions(ms, 0);
    assert forall l :: l in out ==> ',' !in l.tag by {
      forall l | l in out ensures ',' !in l.tag {
        var m, q :| m in ms && m.id == l.contentId && m.tagCat == l.tagCat
          && 0 <= q < |Pieces(m.cell)| && Pieces(m.cell)[q] == l.tag;
        assert l.tag in Split(m.cell.s, ",");
        NoCommaInPiece(l.tag);
      }
    }
    out
  }

  /** The non-empty pieces, in order. */
  function NonEmpty(xs: seq<string>): (ys: seq<string>)
    ensures forall y :: y in ys <==> y in xs && y != ""
  {
    if xs == [] then []
    else (if xs[0] != "" then [xs[0]] else []) + NonEmpty(xs[1..])
  }

  function TagRows(m: MeltedRow, tags: seq<string>): seq<LongRow> {
    if tags == [] then [] else [LongRow(m.id, m.tagCat, tags[0])] + TagRows(m, tags[1..])
  }

  lemma AtPositionOneCell(m: MeltedRow, p: nat)
    ensures AtPosition([m], p)
      == if p < |Pieces(m.cell)| && Pieces(m.cell)[p] != "" then [LongRow(m.id, m.tagCat, Pieces(m.cell)[p])] else []
  {
    assert [m][1..] == [];
  }

  lemma {:induction false} PositionsOneCell(m: MeltedRow, p: nat)
    requires p <= |Pieces(m.cell)|
    ensures Positions([m], p) == TagRows(m, NonEmpty(Pieces(m.cell)[p..]))
    decreases |Pieces(m.cell)| - p
  {
    var pieces := Pieces(m.cell);
    assert MaxWidth([m]) == |pieces| by { assert [m][1..] == []; }
    if p < |pieces| {
      var rest := NonEmpty(pieces[p + 1..]);
      assert Positions([m], p) == AtPosition([m], p) + Positions([m], p + 1);
      PositionsOneCell(m, p + 1);
      AtPositionOneCell(m, p);
      NonEmptyCons(pieces[p..]);
      assert pieces[p..][1..] == pieces[p + 1..];
      assert pieces[p..][0] == pieces[p];
      assert NonEmpty(pieces[p..]) == (if pieces[p] != "" then [pieces[p]] else []) + rest;
      if pieces[p] != "" {
        TagRowsCons(m, pieces[p], rest);
      } else {
        assert [] + rest == rest;
      }
    } else {
      assert pieces[p..] == [];
    }
  }

  lemma NonEmptyCons(xs: seq<string>)
    requires xs != []
    ensures NonEmpty(xs) == (if xs[0] != "" then [xs[0]] else []) + NonEmpty(xs[1..])
  {
  }

  /** Dropping empty pieces commutes with concatenation: the pieces kept stay in their order. */
  lemma {:induction false} NonEmptyConcat(a: seq<string>, b: seq<string>)
    ensures NonEmpty(a + b) == NonEmpty(a) + NonEmpty(b)
    decreases |a|
  {
    if a != [] {
      assert (a + b)[0] == a[0];
      assert (a + b)[1..] == a[1..] + b;
      NonEmptyConcat(a[1..], b);
    } else {
      assert a + b == b;
    }
  }

  lemma TagRowsCons(m: MeltedRow, x: string, rest: seq<string>)
    ensures TagRows(m, [x] + rest) == [LongRow(m.id, m.tagCat, x)] + TagRows(m, rest)
  {
    assert ([x] + rest)[1..] == rest;
  }

  /** One present cell yields its non-empty comma pieces, in order, each once. */
  lemma SplitOneCell(m: MeltedRow)
    ensures SplitTags([m]) == TagRows(m, NonEmpty(Pieces(m.cell)))
  {
    PositionsOneCell(m, 0);
    assert Pieces(m.cell)[0..] == Pieces(m.cell);
  }

  /** "a,,b" yields exactly the tags "a" and "b". */
  lemma SplitEmptyMiddle(id: int, cat: string)
    ensures SplitTags([MeltedRow(id, cat, Str("a,,b"))]) == [LongRow(id, cat, "a"), LongRow(id, cat, "b")]
  {
    var m := MeltedRow(id, cat, Str("a,,b"));
    EmptyMiddleTags(m);
    SplitOneCell(m);
    TagRowsCons(m, "a", ["b"]);
  }

  lemma EmptyMiddleTags(m: MeltedRow)
    requires m.cell == Str("a,,b")
    ensures NonEmpty(Pieces(m.cell)) == ["a", "b"]
  {
    SplitEmptyMiddleExample();
    NonEmptyExample();
  }

  lemma NonEmptyExample()
    ensures NonEmpty(["a", "", "b"]) == ["a", "b"]
  {
    NonEmptyCons(["a", "", "b"]);
    NonEmptyCons(["", "b"]);
    assert ["a", "", "b"][1..] == ["", "b"];
    assert ["", "b"][1..] == ["b"];
  }

  /** A cell of commas only, an empty cell and a non-string cell yield no tags. */
  lemma SplitNoTags(id: int, cat: string)
    ensures SplitTags([MeltedRow(id, cat, Str(",,,"))]) == []
    ensures SplitTags([MeltedRow(id, cat, Str(""))]) == []
    ensures SplitTags([MeltedRow(id, cat, NonText)]) == []
  {
    SplitOneCell(MeltedRow(id, cat, Str(",,,")));
    SplitCommasOnlyExample();
    assert NonEmpty(["", "", "", ""]) == [];
    SplitOneCell(MeltedRow(id, cat, Str("")));
    assert Split("", ",") == [""];
    SplitOneCell(MeltedRow(id, cat, NonText));
  }
}
