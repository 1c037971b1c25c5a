/**
 * Tag enrichment: the left merge with `ref_content_tags`, `drop_duplicates`
 * on (content_id, guid), and the outer merge with `tag_profiles` followed by
 * the drop of rows without a content id.
 */
module Enrich {
  import opened Wrappers
  import opened Tables

  // ------------------------------------------------------------ left merge

  function TagNames(lookup: seq<LookupRow>): set<string> {
    set l | l in lookup :: l.tag
  }

  /** The GUIDs of the lookup rows for `tag`, in lookup order. */
  function GuidsFor(lookup: seq<LookupRow>, tag: string): (gs: seq<string>)
    ensures forall g :: g in gs <==> LookupRow(tag, g) in lookup
    ensures gs == [] <==> tag !in TagNames(lookup)
  {
    if lookup == [] then []
    else (if lookup[0].tag == tag then [lookup[0].guid] else []) + GuidsFor(lookup[1..], tag)
  }

  /** The rows one long row contributes to a left merge: one per matching GUID, or one with no GUID. */
  function TagOne(r: LongRow, lookup: seq<LookupRow>): (out: seq<TaggedRow>)
    ensures forall t :: t in out ==> t.contentId == r.contentId && t.tagCat == r.tagCat && t.tag == r.tag
    ensures forall t :: t in out ==> (t.guid == None <==> r.tag !in TagNames(lookup))
    ensures forall t :: t in out && t.guid.Some? ==> LookupRow(r.tag, t.guid.value) in lookup
    ensures forall g :: LookupRow(r.tag, g) in lookup ==> TaggedRow(r.contentId, r.tagCat, r.tag, Some(g)) in out
    ensures r.tag !in TagNames(lookup) ==> out == [TaggedRow(r.contentId, r.tagCat, r.tag, None)]
  {
    var gs := GuidsFor(lookup, r.tag);
    if gs == [] then [TaggedRow(r.contentId, r.tagCat, r.tag, None)]
    else
      var out := seq(|gs|, i requires 0 <= i < |gs| => TaggedRow(r.contentId, r.tagCat, r.tag, Some(gs[i])));
      assert forall g :: g in gs ==> TaggedRow(r.contentId, r.tagCat, r.tag, Some(g)) in out by {
        forall g | g in gs ensures TaggedRow(r.contentId, r.tagCat, r.tag, Some(g)) in out {
          var i :| 0 <= i < |gs| && gs[i] == g;
          assert out[i] == TaggedRow(r.contentId, r.tagCat, r.tag, Some(g));
        }
      }
      out
  }

  /**
   * `pd.merge(long, lookup, how='left', on='tag')`: every long row is kept,
   * once per lookup row with its tag, or once with no GUID when there is none.
   */
  function LeftJoinGuid(rows: seq<LongRow>, lookup: seq<LookupRow>): (out: seq<TaggedRow>)
    ensures forall t :: t in out ==>
              && LongRow(t.contentId, t.tagCat, t.tag) in rows
              && (t.guid == None <==> t.tag !in TagNames(lookup))
              && (t.guid.Some? ==> LookupRow(t.tag, t.guid.value) in lookup)
    ensures forall r, g :: r in rows && LookupRow(r.tag, g) in lookup ==>
              TaggedRow(r.contentId, r.tagCat, r.tag, Some(g)) in out
    ensures forall r :: r in rows && r.tag !in TagNames(lookup) ==>
              TaggedRow(r.contentId, r.tagCat, r.tag, None) in out
  {
    if rows == [] then []
    else
      var first := TagOne(rows[0], lookup);
      assert forall t :: t in first ==> LongRow(t.contentId, t.tagCat, t.tag) == rows[0];
      first + LeftJoinGuid(rows[1..], lookup)
  }

  /** Tag names are a key of the lookup table. */
  predicate UniqueTags(lookup: seq<LookupRow>) {
    forall i, j :: 0 <= i < j < |lookup| ==> lookup[i].tag != lookup[j].tag
  }

  /** The GUID of `tag` in a lookup table, if it has one. */
  function GuidOf(lookup: seq<LookupRow>, tag: string): (g: Option<string>)
    ensures g == None <==> tag !in TagNames(lookup)
    ensures g.Some? ==> LookupRow(tag, g.value) in lookup
  {
    if lookup == [] then None
    else if lookup[0].tag == tag then Some(lookup[0].guid)
    else GuidOf(lookup[1..], tag)
  }

  lemma {:induction false} GuidsForUnique(lookup: seq<LookupRow>, tag: string)
    requires UniqueTags(lookup)
    ensures GuidsFor(lookup, tag) == if GuidOf(lookup, tag).Some? then [GuidOf(lookup, tag).value] else []
  {
    if lookup != [] {
      GuidsForUnique(lookup[1..], tag);
      if lookup[0].tag == tag {
        assert tag !in TagNames(lookup[1..]) by {
          forall l | l in lookup[1..] ensures l.tag != tag {
            var j :| 0 <= j < |lookup[1..]| && lookup[1..][j] == l;
            assert lookup[j + 1] == l;
          }
        }
      }
    }
  }

  /** With tag names unique in the lookup table, the left merge is row for row: each long row gets its GUID or none. */
  lemma {:induction false} LeftJoinRowForRow(rows: seq<LongRow>, lookup: seq<LookupRow>)
    requires UniqueTags(lookup)
    ensures |LeftJoinGuid(rows, lookup)| == |rows|
    ensures forall i :: 0 <= i < |rows| ==>
              LeftJoinGuid(rows, lookup)[i] == TaggedRow(rows[i].contentId, rows[i].tagCat, rows[i].tag, GuidOf(lookup, rows[i].tag))
  {
    if rows != [] {
      GuidsForUnique(lookup, rows[0].tag);
      LeftJoinRowForRow(rows[1..], lookup);
    }
  }

  // -------------------------------------------------------- drop_duplicates

  /** The deduplication key; a missing GUID compares equal to a missing GUID, as NaN does in pandas. */
  function Key(t: TaggedRow): (int, Option<string>) {
    (t.contentId, t.guid)
  }

  /** The first row of `rows` with key `k`. */
  function FirstWithKey(rows: seq<TaggedRow>, k: (int, Option<string>)): (t: TaggedRow)
    requires exists u :: u in rows && Key(u) == k
    ensures t in rows && Key(t) == k
  {
    if Key(rows[0]) == k then rows[0]
    else
      assert exists u :: u in rows[1..] && Key(u) == k by {
        var u :| u in rows && Key(u) == k;
        assert u != rows[0];
        assert u in rows[1..];
      }
      FirstWithKey(rows[1..], k)
  }

  lemma FirstWithKeySkip(rows: seq<TaggedRow>, k: (int, Option<string>))
    requires rows != [] && Key(rows[0]) != k
    requires exists u :: u in rows[1..] && Key(u) == k
    ensures FirstWithKey(rows, k) == FirstWithKey(rows[1..], k)
  {
  }

  function Keys(rows: seq<TaggedRow>): set<(int, Option<string>)> {
    set t | t in rows :: Key(t)
  }

  lemma KeysCons(t: TaggedRow, rows: seq<TaggedRow>)
    ensures Keys([t] + rows) == {Key(t)} + Keys(rows)
  {
    var all := [t] + rows;
    forall k | k in Keys(all) ensures k in {Key(t)} + Keys(rows) {
      var u :| u in all && Key(u) == k;
      if u != t { assert u in rows; }
    }
    forall k | k in Keys(rows) ensures k in Keys(all) {
      var u :| u in rows && Key(u) == k;
      assert u in all;
    }
  }

  /** No two rows share a key. */
  predicate UniqueKeys(rows: seq<TaggedRow>) {
    forall i, j :: 0 <= i < j < |rows| ==> Key(rows[i]) != Key(rows[j])
  }

  lemma UniqueKeysCons(t: TaggedRow, rows: seq<TaggedRow>)
    requires UniqueKeys(rows) && Key(t) !in Keys(rows)
    ensures UniqueKeys([t] + rows)
  {
    var all := [t] + rows;
    forall i, j | 0 <= i < j < |all| ensures Key(all[i]) != Key(all[j]) {
      assert all[j] == rows[j - 1] && all[j] in rows;
      if i > 0 {
        assert all[i] == rows[i - 1];
      }
    }
  }

  /** `drop_duplicates(keep='first')` on the rows whose key has not been seen yet. */
  function DedupFrom(rows: seq<TaggedRow>, seen: set<(int, Option<string>)>): (out: seq<TaggedRow>)
    ensures UniqueKeys(out)
    ensures forall t :: t in out ==> t in rows && Key(t) !in seen
    ensures Keys(out) == Keys(rows) - seen
  {
    if rows == [] then []
    else if Key(rows[0]) in seen then
      KeysCons(rows[0], rows[1..]);
      assert [rows[0]] + rows[1..] == rows;
      DedupFrom(rows[1..], seen)
    else
      var rest := DedupFrom(rows[1..], seen + {Key(rows[0])});
      var out := [rows[0]] + rest;
      KeysCons(rows[0], rows[1..]);
      assert [rows[0]] + rows[1..] == rows;
      KeysCons(rows[0], rest);
      UniqueKeysCons(rows[0], rest);
      out
  }

  lemma {:induction false} DedupFromKeepsFirst(rows: seq<TaggedRow>, seen: set<(int, Option<string>)>)
    ensures forall t :: t in DedupFrom(rows, seen) ==> t == FirstWithKey(rows, Key(t))
  {
    if rows != [] {
      var seen' := if Key(rows[0]) in seen then seen else seen + {Key(rows[0])};
      DedupFromKeepsFirst(rows[1..], seen');
      forall t | t in DedupFrom(rows[1..], seen') ensures t == FirstWithKey(rows, Key(t)) {
        FirstWithKeySkip(rows, Key(t));
      }
    }
  }

  /**
   * Line 69: keeps the first row of every (content_id, guid) pair.  No two
   * rows left share a pair (so at most one row without a GUID per content
   * id), every pair present before is present after, and the row kept is the
   * first one with its pair.
   */
  function DedupContentGuid(rows: seq<TaggedRow>): (out: seq<TaggedRow>)
    ensures UniqueKeys(out)
    ensures Keys(out) == Keys(rows)
    ensures forall t :: t in out ==> t in rows && t == FirstWithKey(rows, Key(t))
  {
    DedupFromKeepsFirst(rows, {});
    DedupFrom(rows, {})
  }

  // ------------------------------------------------------------ outer merge

  function LinkGuids(links: seq<ProfileLink>): set<Option<string>> {
    set p | p in links :: p.tagGuid
  }

  function RowGuids(rows: seq<TaggedRow>): set<Option<string>> {
    set r | r in rows :: r.guid
  }

  /** The rows one tag row contributes to the outer merge: one per profile with its GUID, or one without a profile. */
  function MergeOne(r: TaggedRow, links: seq<ProfileLink>): (out: seq<MergedRow>)
    ensures forall m :: m in out ==> m.left == Some(r)
    ensures forall m :: m in out && m.right.Some? ==> m.right.value in links && m.right.value.tagGuid == r.guid
    ensures forall m :: m in out && m.right == None ==> r.guid !in LinkGuids(links)
    ensures forall p :: p in links && p.tagGuid == r.guid ==> MergedRow(Some(r), Some(p)) in out
    ensures r.guid !in LinkGuids(links) ==> MergedRow(Some(r), None) in out
    decreases |links|
  {
    if links == [] then [MergedRow(Some(r), None)]
    else
      var rest := MergeOne(r, links[1..]);
      if links[0].tagGuid != r.guid then rest
      else if r.guid !in LinkGuids(links[1..]) then [MergedRow(Some(r), Some(links[0]))]
      else [MergedRow(Some(r), Some(links[0]))] + rest
  }

  function MergeLeft(rows: seq<TaggedRow>, links: seq<ProfileLink>): (out: seq<MergedRow>)
    ensures forall m :: m in out ==> m.left.Some? && m.left.value in rows
    ensures forall m :: m in out && m.right.Some? ==> m.right.value in links && m.right.value.tagGuid == m.left.value.guid
    ensures forall m :: m in out && m.right == None ==> m.left.value.guid !in LinkGuids(links)
    ensures forall r, p :: r in rows && p in links && p.tagGuid == r.guid ==> MergedRow(Some(r), Some(p)) in out
    ensures forall r :: r in rows && r.guid !in LinkGuids(links) ==> MergedRow(Some(r), None) in out
  {
    if rows == [] then [] else MergeOne(rows[0], links) + MergeLeft(rows[1..], links)
  }

  /** The profiles whose GUID no tag row has: the right-only rows of the outer merge. */
  function MergeRightOnly(rows: seq<TaggedRow>, links: seq<ProfileLink>): (out: seq<MergedRow>)
    ensures forall m :: m in out ==>
              m.left == None && m.right.Some? && m.right.value in links && m.right.value.tagGuid !in RowGuids(rows)
    ensures forall p :: p in links && p.tagGuid !in RowGuids(rows) ==> MergedRow(None, Some(p)) in out
  {
    if links == [] then []
    else
      (if links[0].tagGuid in RowGuids(rows) then [] else [MergedRow(None, Some(links[0]))])
        + MergeRightOnly(rows, links[1..])
  }

  /**
   * `pd.merge(rows, tag_profiles, how='outer', left_on='guid', right_on='tag_guid')`.
   * Missing keys match missing keys, as NaN does in pandas.  Row order is
   * left rows first, then the right-only rows.
   */
  function OuterMerge(rows: seq<TaggedRow>, links: seq<ProfileLink>): (out: seq<MergedRow>)
    ensures forall m :: m in out ==> m.left.Some? || m.right.Some?
    ensures forall m :: m in out && m.left.Some? && m.right.Some? ==> m.left.value.guid == m.right.value.tagGuid
    ensures forall r :: r in rows ==> exists m :: m in out && m.left == Some(r)
    ensures forall p :: p in links ==> exists m :: m in out && m.right == Some(p)
    ensures forall r, p :: r in rows && p in links && p.tagGuid == r.guid ==> MergedRow(Some(r), Some(p)) in out
    ensures forall m :: m in out && m.left.Some? && m.right == None ==> m.left.value.guid !in LinkGuids(links)
    ensures forall m :: m in out && m.left == None && m.right.Some? ==> m.right.value.tagGuid !in RowGuids(rows)
  {
    OuterMergeCovers(rows, links);
    MergeLeft(rows, links) + MergeRightOnly(rows, links)
  }

  /** Every tag row and every link has a row in the outer merge. */
  lemma OuterMergeCovers(rows: seq<TaggedRow>, links: seq<ProfileLink>)
    ensures var out := MergeLeft(rows, links) + MergeRightOnly(rows, links);
      && (forall r :: r in rows ==> exists m :: m in out && m.left == Some(r))
      && (forall p :: p in links ==> exists m :: m in out && m.right == Some(p))
  {
    var left: seq<MergedRow>, right: seq<MergedRow> := MergeLeft(rows, links), MergeRightOnly(rows, links);
    assert forall p :: p in links ==> exists m :: m in left + right && m.right == Some(p) by {
      forall p | p in links ensures exists m :: m in left + right && m.right == Some(p) {
        if p.tagGuid in RowGuids(rows) {
          var r :| r in rows && r.guid == p.tagGuid;
          assert MergedRow(Some(r), Some(p)) in left + right;
        } else {
          assert MergedRow(None, Some(p)) in left + right;
        }
      }
    }
    assert forall r :: r in rows ==> exists m :: m in left + right && m.left == Some(r) by {
      forall r | r in rows ensures exists m :: m in left + right && m.left == Some(r) {
        if r.guid in LinkGuids(links) {
          var p :| p in links && p.tagGuid == r.guid;
          assert MergedRow(Some(r), Some(p)) in left + right;
        } else {
          assert MergedRow(Some(r), None) in left + right;
        }
      }
    }
  }

  function CostOf(m: MergedRow): Option<string> {
    if m.right.Some? then Some(m.right.value.costCenter) else None
  }

  /** Lines 82 and 85: drops the rows without a content id (those with no left-hand part) and the `tag_guid` column. */
  function DropNullContent(merged: seq<MergedRow>): (out: seq<EnrichedRow>)
    ensures forall e :: e in out <==> exists m :: m in merged && m.left == Some(e.row) && e.costCenter == CostOf(m)
  {
    if merged == [] then []
    else
      var m := merged[0];
      var rest := DropNullContent(merged[1..]);
      var out := (if m.left.Some? then [EnrichedRow(m.left.value, CostOf(m))] else []) + rest;
      assert forall e :: e in out <==> exists m' :: m' in merged && m'.left == Some(e.row) && e.costCenter == CostOf(m') by {
        forall e ensures e in out <==> exists m' :: m' in merged && m'.left == Some(e.row) && e.costCenter == CostOf(m') {
          if e in rest {
            var m' :| m' in merged[1..] && m'.left == Some(e.row) && e.costCenter == CostOf(m');
            assert m' in merged;
          }
          if exists m' :: m' in merged && m'.left == Some(e.row) && e.costCenter == CostOf(m') {
            var m' :| m' in merged && m'.left == Some(e.row) && e.costCenter == CostOf(m');
            if m' != m {
              assert m' in merged[1..];
            }
          }
        }
      }
      out
  }

  /**
   * The outer merge with `tag_profiles` after the null-content drop: each
   * deduplicated row paired with every cost centre of its GUID, or with none
   * when its GUID has no profile; profiles matching no tag row leave nothing.
   */
  function OuterJoinCostCenter(rows: seq<TaggedRow>, links: seq<ProfileLink>): (out: seq<EnrichedRow>)
    ensures forall e :: e in out ==> e.row in rows
    ensures forall e :: e in out && e.costCenter.Some? ==> ProfileLink(e.costCenter.value, e.row.guid) in links
    ensures forall e :: e in out && e.costCenter == None ==> e.row.guid !in LinkGuids(links)
    ensures forall r, c :: r in rows && ProfileLink(c, r.guid) in links ==> EnrichedRow(r, Some(c)) in out
    ensures forall r :: r in rows && r.guid !in LinkGuids(links) ==> EnrichedRow(r, None) in out
  {
    DropNullOfOuterMerge(rows, links);
    LeftPartPairs(rows, links);
    DropNullContent(OuterMerge(rows, links))
  }

  /** What the left-hand part of the merge holds once the `tag_guid` column is dropped. */
  lemma LeftPartPairs(rows: seq<TaggedRow>, links: seq<ProfileLink>)
    ensures forall e :: e in DropNullContent(MergeLeft(rows, links)) ==> e.row in rows
    ensures forall e :: e in DropNullContent(MergeLeft(rows, links)) && e.costCenter.Some? ==>
              ProfileLink(e.costCenter.value, e.row.guid) in links
    ensures forall e :: e in DropNullContent(MergeLeft(rows, links)) && e.costCenter == None ==>
              e.row.guid !in LinkGuids(links)
    ensures forall r, c :: r in rows && ProfileLink(c, r.guid) in links ==>
              EnrichedRow(r, Some(c)) in DropNullContent(MergeLeft(rows, links))
    ensures forall r :: r in rows && r.guid !in LinkGuids(links) ==>
              EnrichedRow(r, None) in DropNullContent(MergeLeft(rows, links))
  {
    var left := MergeLeft(rows, links);
    var out := DropNullContent(left);
    forall e | e in out
      ensures e.row in rows
      ensures e.costCenter.Some? ==> ProfileLink(e.costCenter.value, e.row.guid) in links
      ensures e.costCenter == None ==> e.row.guid !in LinkGuids(links)
    {
      var m :| m in left && m.left == Some(e.row) && e.costCenter == CostOf(m);
      if m.right.Some? {
        assert m.right.value == ProfileLink(e.costCenter.value, e.row.guid);
      }
    }
    forall r, c | r in rows && ProfileLink(c, r.guid) in links ensures EnrichedRow(r, Some(c)) in out {
      assert MergedRow(Some(r), Some(ProfileLink(c, r.guid))) in left;
    }
    forall r | r in rows && r.guid !in LinkGuids(links) ensures EnrichedRow(r, None) in out {
      assert MergedRow(Some(r), None) in left;
    }
  }

  lemma {:induction false} DropNullContentAppend(a: seq<MergedRow>, b: seq<MergedRow>)
    ensures DropNullContent(a + b) == DropNullContent(a) + DropNullContent(b)
  {
    if a == [] {
      assert a + b == b;
    } else {
      assert (a + b)[0] == a[0];
      assert (a + b)[1..] == a[1..] + b;
      DropNullContentAppend(a[1..], b);
    }
  }

  lemma {:induction false} DropNullContentRightOnly(rows: seq<TaggedRow>, links: seq<ProfileLink>)
    ensures DropNullContent(MergeRightOnly(rows, links)) == []
  {
    if links != [] {
      DropNullContentRightOnly(rows, links[1..]);
      var head := if links[0].tagGuid in RowGuids(rows) then [] else [MergedRow(None, Some(links[0]))];
      DropNullContentAppend(head, MergeRightOnly(rows, links[1..]));
    }
  }

  /** The rows the null-content filter removes are exactly the profiles that matched no tag row. */
  lemma DropNullOfOuterMerge(rows: seq<TaggedRow>, links: seq<ProfileLink>)
    ensures DropNullContent(OuterMerge(rows, links)) == DropNullContent(MergeLeft(rows, links))
  {
    DropNullContentAppend(MergeLeft(rows, links), MergeRightOnly(rows, links));
    DropNullContentRightOnly(rows, links);
    assert DropNullContent(MergeLeft(rows, links)) + [] == DropNullContent(MergeLeft(rows, links));
  }
}
