/**
 * The cost-centre profiles: the enriched rows grouped by content id with their
 * cost centres joined into one string, the duplicate names removed, and the
 * resulting string cleaned by a fixed chain of substitutions.
 */
module Profiles {
  import opened Wrappers
  import opened Text
  import opened Rewrite
  import opened Tables
  import opened Cleanup

  // ------------------------------------------------------------ aggregation

  /** `astype(str)` on the cost-centre column: a missing cost centre becomes the text "nan". */
  function CostString(c: Option<string>): string {
    match c
    case Some(v) => v
    case None => "nan"
  }

  predicate Increasing(xs: seq<int>) {
    forall i, j :: 0 <= i < j < |xs| ==> xs[i] < xs[j]
  }

  /** Inserts `x` into a strictly increasing list, keeping it strictly increasing and without duplicates. */
  function Insert(xs: seq<int>, x: int): (r: seq<int>)
    requires Increasing(xs)
    ensures Increasing(r)
    ensures forall y :: y in r <==> y in xs || y == x
  {
    if xs == [] then [x]
    else if x < xs[0] then [x] + xs
    else if x == xs[0] then xs
    else
      var tail := Insert(xs[1..], x);
      assert forall y :: y in tail ==> xs[0] < y by {
        forall y | y in tail ensures xs[0] < y {
          if y in xs[1..] {
            var k :| 0 <= k < |xs[1..]| && xs[1..][k] == y;
            assert xs[k + 1] == y;
          }
        }
      }
      var r := [xs[0]] + tail;
      assert forall i, j :: 0 <= i < j < |r| ==> r[i] < r[j] by {
        forall i, j | 0 <= i < j < |r| ensures r[i] < r[j] {
          assert r[j] == tail[j - 1] && tail[j - 1] in tail;
          if i > 0 {
            assert r[i] == tail[i - 1];
          }
        }
      }
      r
  }

  /** The content ids present among the rows. */
  function ContentIds(rows: seq<EnrichedRow>): set<int> {
    set e | e in rows :: e.row.contentId
  }

  /** The group keys of `groupby('content_id')`: every content id once, in ascending order. */
  function SortedIds(rows: seq<EnrichedRow>): (ids: seq<int>)
    ensures Increasing(ids)
    ensures forall k :: k in ids <==> k in ContentIds(rows)
  {
    if rows == [] then []
    else
      var ids := Insert(SortedIds(rows[1..]), rows[0].row.contentId);
      assert forall k :: k in ids <==> k in ContentIds(rows) by {
        forall k ensures k in ids <==> k in ContentIds(rows) {
          if k in ContentIds(rows[1..]) {
            var e :| e in rows[1..] && e.row.contentId == k;
            assert e in rows;
          }
          if k in ContentIds(rows) && k != rows[0].row.contentId {
            var e :| e in rows && e.row.contentId == k;
            assert e in rows[1..];
          }
        }
      }
      ids
  }

  /** The cost-centre strings of the group of content id `k`, in row order. */
  function CostsOf(rows: seq<EnrichedRow>, k: int): (costs: seq<string>)
    ensures forall c :: c in costs <==> exists e :: e in rows && e.row.contentId == k && c == CostString(e.costCenter)
    ensures costs == [] <==> k !in ContentIds(rows)
  {
    if rows == [] then []
    else
      var rest := CostsOf(rows[1..], k);
      var costs := (if rows[0].row.contentId == k then [CostString(rows[0].costCenter)] else []) + rest;
      assert forall c :: c in costs <==> exists e :: e in rows && e.row.contentId == k && c == CostString(e.costCenter) by {
        forall c ensures c in costs <==> exists e :: e in rows && e.row.contentId == k && c == CostString(e.costCenter) {
          if c in rest {
            var e :| e in rows[1..] && e.row.contentId == k && c == CostString(e.costCenter);
            assert e in rows;
          }
          if exists e :: e in rows && e.row.contentId == k && c == CostString(e.costCenter) {
            var e :| e in rows && e.row.contentId == k && c == CostString(e.costCenter);
            if e != rows[0] {
              assert e in rows[1..];
            }
          }
        }
      }
      assert k in ContentIds(rows) ==> costs != [] by {
        if k in ContentIds(rows) {
          var e :| e in rows && e.row.contentId == k;
          assert CostString(e.costCenter) in costs;
        }
      }
      assert costs != [] ==> k in ContentIds(rows) by {
        if costs != [] {
          assert costs[0] in costs;
        }
      }
      costs
  }

  /**
   * Lines 91-92: one profile per content id, in ascending id order, whose
   * cost-centre string joins the group's cost centres (missing ones as "nan")
   * with ", ".
   */
  function AggregateCostCenters(rows: seq<EnrichedRow>): (profiles: seq<Profile>)
    ensures forall i, j :: 0 <= i < j < |profiles| ==> profiles[i].contentId < profiles[j].contentId
    ensures forall k :: (exists p :: p in profiles && p.contentId == k) <==> k in ContentIds(rows)
    ensures forall p :: p in profiles ==> p.costCenter == Join(CostsOf(rows, p.contentId), ", ")
  {
    var ids := SortedIds(rows);
    var profiles := seq(|ids|, i requires 0 <= i < |ids| => Profile(ids[i], Join(CostsOf(rows, ids[i]), ", ")));
    assert forall k :: (exists p :: p in profiles && p.contentId == k) <==> k in ids by {
      forall k ensures (exists p :: p in profiles && p.contentId == k) <==> k in ids {
        if k in ids {
          var i :| 0 <= i < |ids| && ids[i] == k;
          assert profiles[i] in profiles;
        }
      }
    }
    profiles
  }

  /**
   * Splitting a profile's string on ", " gives back its group's cost centres,
   * provided no cost-centre name itself holds ", ".
   */
  lemma AggregateRoundTrip(rows: seq<EnrichedRow>, p: Profile)
    requires p in AggregateCostCenters(rows)
    requires forall e :: e in rows && e.costCenter.Some? ==> NoOccurrence(e.costCenter.value, ", ")
    ensures Split(p.costCenter, ", ") == CostsOf(rows, p.contentId)
  {
    var costs := CostsOf(rows, p.contentId);
    assert p.contentId in ContentIds(rows);
    forall c | c in costs ensures NoOccurrence(c, ", ") {
      var e :| e in rows && e.row.contentId == p.contentId && c == CostString(e.costCenter);
      if e.costCenter == None {
        NanHoldsNoSeparator();
      }
    }
    JoinSplitCommaSpace(costs);
  }

  // ------------------------------------------------------------ set dedup

  /** No string occurs twice in `xs`. */
  predicate AllDifferent(xs: seq<string>) {
    forall i, j :: 0 <= i < j < |xs| ==> xs[i] != xs[j]
  }

  lemma AllDifferentCons(h: string, xs: seq<string>)
    requires AllDifferent(xs) && h !in xs
    ensures AllDifferent([h] + xs)
  {
    var all := [h] + xs;
    forall i, j | 0 <= i < j < |all| ensures all[i] != all[j] {
      assert all[j] == xs[j - 1] && xs[j - 1] in xs;
      if i > 0 {
        assert all[i] == xs[i - 1];
      }
    }
  }

  /** `order` lists every element of `segs` exactly once, in some order: one iteration order of `set(segs)`. */
  predicate IsEnumeration(order: seq<string>, segs: seq<string>) {
    && AllDifferent(order)
    && (forall y :: y in order ==> y in segs)
    && (forall y :: y in segs ==> y in order)
  }

  /** The distinct elements of `segs`, each where it last appears: one of the enumerations allowed. */
  function AnEnumeration(segs: seq<string>): (order: seq<string>)
    ensures IsEnumeration(order, segs)
  {
    if segs == [] then []
    else
      var rest := AnEnumeration(segs[1..]);
      if segs[0] in rest then rest
      else
        AllDifferentCons(segs[0], rest);
        [segs[0]] + rest
  }

  lemma {:induction false} DistinctCount(order: seq<string>, y: string)
    requires AllDifferent(order)
    ensures multiset(order)[y] == if y in order then 1 else 0
  {
    if order != [] {
      var tail := order[1..];
      assert order == [order[0]] + tail;
      assert order[0] !in tail;
      DistinctCount(tail, y);
    }
  }

  /** The set at line 95 fixes the result up to order: any two allowed enumerations are permutations of each other. */
  lemma EnumerationsArePermutations(o1: seq<string>, o2: seq<string>, segs: seq<string>)
    requires IsEnumeration(o1, segs) && IsEnumeration(o2, segs)
    ensures multiset(o1) == multiset(o2)
  {
    forall y ensures multiset(o1)[y] == multiset(o2)[y] {
      DistinctCount(o1, y);
      DistinctCount(o2, y);
    }
  }

  /** The ", "-separated segments of `r` are pairwise distinct and are exactly those of `x`. */
  predicate Deduped(r: string, x: string) {
    && AllDifferent(Split(r, ", "))
    && (forall y :: y in Split(r, ", ") ==> y in Split(x, ", "))
    && (forall y :: y in Split(x, ", ") ==> y in Split(r, ", "))
  }

  /**
   * Line 95: `', '.join(set(x.split(', ')))`, with the set's iteration order
   * given as `order`.  The ", "-separated segments of the result are pairwise
   * distinct and are exactly the segments of `x`.
   */
  function DedupSegments(x: string, order: seq<string>): (r: string)
    requires IsEnumeration(order, Split(x, ", "))
    ensures Deduped(r, x)
  {
    var segs := Split(x, ", ");
    assert segs[0] in order;
    JoinSplitCommaSpace(order);
    Join(order, ", ")
  }

  // ------------------------------------------------------------ per profile

  /** Line 95 on every profile; `pick` gives the iteration order Python's set has for each list of segments. */
  function DistinctCostCenters(profiles: seq<Profile>, pick: seq<string> -> seq<string>): (out: seq<Profile>)
    requires forall segs :: IsEnumeration(pick(segs), segs)
    ensures |out| == |profiles|
    ensures forall i :: 0 <= i < |out| ==> out[i].contentId == profiles[i].contentId
    ensures forall i :: 0 <= i < |out| ==> Deduped(out[i].costCenter, profiles[i].costCenter)
  {
    var out := seq(|profiles|, i requires 0 <= i < |profiles| =>
      Profile(profiles[i].contentId, DedupSegments(profiles[i].costCenter, pick(Split(profiles[i].costCenter, ", ")))));
    assert forall i :: 0 <= i < |out| ==> Deduped(out[i].costCenter, profiles[i].costCenter) by {
      forall i | 0 <= i < |out| ensures Deduped(out[i].costCenter, profiles[i].costCenter) {
        var x := profiles[i].costCenter;
        assert out[i].costCenter == DedupSegments(x, pick(Split(x, ", ")));
      }
    }
    out
  }

  /** Lines 98-126 on every profile. */
  function CleanProfiles(profiles: seq<Profile>): (out: seq<Profile>)
    ensures |out| == |profiles|
    ensures forall i :: 0 <= i < |out| ==> out[i].contentId == profiles[i].contentId && Tidy(out[i].costCenter)
  {
    seq(|profiles|, i requires 0 <= i < |profiles| => Profile(profiles[i].contentId, CleanCostCenter(profiles[i].costCenter)))
  }

  /** Lines 98-126 on every profile, with line 98 corrected (see `CleanCostCenterCorrected`). */
  function CleanProfilesCorrected(profiles: seq<Profile>): (out: seq<Profile>)
    ensures |out| == |profiles|
    ensures forall i :: 0 <= i < |out| ==> out[i].contentId == profiles[i].contentId && Tidy(out[i].costCenter)
  {
    seq(|profiles|, i requires 0 <= i < |profiles| => Profile(profiles[i].contentId, CleanCostCenterCorrected(profiles[i].costCenter)))
  }

  /** Line 129: keeps the profiles whose cost-centre string is not empty, in order. */
  function DropEmptyProfiles(profiles: seq<Profile>): (out: seq<Profile>)
    ensures forall p :: p in out <==> p in profiles && p.costCenter != ""
    ensures IdsIncreasing(profiles) ==> IdsIncreasing(out)
  {
    if profiles == [] then []
    else
      var rest := DropEmptyProfiles(profiles[1..]);
      var out := (if profiles[0].costCenter == "" then [] else [profiles[0]]) + rest;
      DropEmptyKeepsOrder(profiles, rest);
      out
  }

  predicate IdsIncreasing(profiles: seq<Profile>) {
    forall i, j :: 0 <= i < j < |profiles| ==> profiles[i].contentId < profiles[j].contentId
  }

  lemma DropEmptyKeepsOrder(profiles: seq<Profile>, rest: seq<Profile>)
    requires profiles != [] && forall q :: q in rest ==> q in profiles[1..]
    requires IdsIncreasing(profiles[1..]) ==> IdsIncreasing(rest)
    ensures IdsIncreasing(profiles) ==> IdsIncreasing((if profiles[0].costCenter == "" then [] else [profiles[0]]) + rest)
  {
    if !IdsIncreasing(profiles) {
      return;
    }
    assert IdsIncreasing(profiles[1..]);
    var out := (if profiles[0].costCenter == "" then [] else [profiles[0]]) + rest;
    forall q | q in rest ensures profiles[0].contentId < q.contentId {
      var j :| 0 <= j < |profiles[1..]| && profiles[1..][j] == q;
      assert profiles[j + 1] == q;
    }
    forall i, j | 0 <= i < j < |out| ensures out[i].contentId < out[j].contentId {
      if profiles[0].costCenter != "" {
        assert out[j] == rest[j - 1] && rest[j - 1] in rest;
        if i > 0 {
          assert out[i] == rest[i - 1];
        }
      }
    }
  }

  /**
   * Lines 91-129: the profiles built from the enriched rows.  At most one per
   * content id, in ascending id order, only for ids that occur in the rows, and
   * each with a non-empty tidy cost-centre string.
   */
  function BuildProfiles(rows: seq<EnrichedRow>, pick: seq<string> -> seq<string>): (out: seq<Profile>)
    requires forall segs :: IsEnumeration(pick(segs), segs)
    ensures IdsIncreasing(out)
    ensures forall p :: p in out ==> p.contentId in ContentIds(rows) && p.costCenter != "" && Tidy(p.costCenter)
  {
    var grouped := AggregateCostCenters(rows);
    var cleaned := CleanProfiles(DistinctCostCenters(grouped, pick));
    assert IdsIncreasing(cleaned);
    assert forall p :: p in cleaned ==> p.contentId in ContentIds(rows) by {
      forall p | p in cleaned ensures p.contentId in ContentIds(rows) {
        var i :| 0 <= i < |cleaned| && cleaned[i] == p;
        assert grouped[i] in grouped;
      }
    }
    DropEmptyProfiles(cleaned)
  }

  /** Lines 91-129 with line 98 corrected: the same guarantees as `BuildProfiles`. */
  function BuildProfilesCorrected(rows: seq<EnrichedRow>, pick: seq<string> -> seq<string>): (out: seq<Profile>)
    requires forall segs :: IsEnumeration(pick(segs), segs)
    ensures IdsIncreasing(out)
    ensures forall p :: p in out ==> p.contentId in ContentIds(rows) && p.costCenter != "" && Tidy(p.costCenter)
  {
    var grouped := AggregateCostCenters(rows);
    var cleaned := CleanProfilesCorrected(DistinctCostCenters(grouped, pick));
    assert IdsIncreasing(cleaned);
    assert forall p :: p in cleaned ==> p.contentId in ContentIds(rows) by {
      forall p | p in cleaned ensures p.contentId in ContentIds(rows) {
        var i :| 0 <= i < |cleaned| && cleaned[i] == p;
        assert grouped[i] in grouped;
      }
    }
    DropEmptyProfiles(cleaned)
  }

  // ------------------------------------------------------------ one group

  lemma {:induction false} DropMissingDifferent(xs: seq<string>)
    requires AllDifferent(xs)
    ensures AllDifferent(DropMissing(xs))
  {
    if xs != [] {
      var tail := xs[1..];
      assert xs == [xs[0]] + tail;
      assert xs[0] !in tail;
      DropMissingDifferent(tail);
      if xs[0] != "nan" {
        AllDifferentCons(xs[0], DropMissing(tail));
      }
    }
  }

  lemma SplitJoinCodes(codes: seq<string>)
    requires codes != [] && forall c :: c in codes ==> CleanCode(c)
    ensures Split(Join(codes, ", "), ", ") == codes
    ensures Join(codes, ", ") != ""
  {
    forall c | c in codes ensures NoOccurrence(c, ", ") {
      CleanCodeHoldsNoSeparator(c);
    }
    JoinSplitCommaSpace(codes);
    assert codes[0] in codes;
    if |codes| > 1 {
      assert Join(codes, ", ") == codes[0] + ", " + Join(codes[1..], ", ");
    }
  }

  /** A list of distinct segments holding "nan" is plain codes, "nan", plain codes. */
  lemma AroundMissing(order: seq<string>) returns (xs: seq<string>, ys: seq<string>)
    requires AllDifferent(order) && "nan" in order
    requires forall c :: c in order ==> c == "nan" || PlainCode(c)
    ensures order == xs + ["nan"] + ys && PlainCodes(xs) && PlainCodes(ys)
  {
    var k :| 0 <= k < |order| && order[k] == "nan";
    xs, ys := order[..k], order[k + 1..];
    assert order == xs + ["nan"] + ys;
    forall c | c in xs ensures PlainCode(c) {
      var j :| 0 <= j < k && order[j] == c;
    }
    forall c | c in ys ensures PlainCode(c) {
      var j :| k < j < |order| && order[j] == c;
    }
  }

  /**
   * Lines 98-126 as written, on a distinct list of plain codes and at most one
   * missing marker: the codes come out joined in the same order, and the
   * marker is gone.
   */
  lemma CleanEnumeration(order: seq<string>)
    requires AllDifferent(order)
    requires forall c :: c in order ==> c == "nan" || PlainCode(c)
    ensures CleanCostCenter(Join(order, ", ")) == Join(DropMissing(order), ", ")
  {
    if "nan" in order {
      var xs, ys := AroundMissing(order);
      CleanDropsMissingSegment(xs, ys);
      DropMissingAround(xs, ys);
    } else {
      DropMissingPlain(order);
      if order == [] {
        assert DeleteNan("") == "";
      } else {
        CleanKeepsCleanCodes(order);
      }
    }
  }

  /** The corrected lines 98-126 on codes and missing markers: the codes come out joined in order. */
  lemma CorrectedEnumeration(order: seq<string>)
    requires forall c :: c in order ==> c == "nan" || c == "" || CleanCode(c)
    ensures CleanCostCenterCorrected(Join(order, ", ")) == Join(DropMissing(order), ", ")
  {
    if order == [] {
      assert Split("", ", ") == [""];
      assert DropMissing([""]) == [];
      assert CleanFromLine101("") == "";
    } else {
      CorrectedKeepsCodes(order);
    }
  }

  /** On distinct plain codes and missing markers, the chain as written and the corrected one agree. */
  lemma WrittenAgreesOnPlainCodes(order: seq<string>)
    requires AllDifferent(order)
    requires forall c :: c in order ==> c == "nan" || PlainCode(c)
    ensures CleanCostCenter(Join(order, ", ")) == CleanCostCenterCorrected(Join(order, ", "))
  {
    CleanEnumeration(order);
    CorrectedEnumeration(order);
  }

  /** The ", "-join of a group's cost centres splits back into them, so line 95 sees exactly these segments. */
  lemma DedupOfGroup(costs: seq<string>, order: seq<string>)
    requires costs != []
    requires forall c :: c in costs ==> c == "nan" || CleanCode(c)
    requires IsEnumeration(order, Split(Join(costs, ", "), ", "))
    ensures IsEnumeration(order, costs)
    ensures DedupSegments(Join(costs, ", "), order) == Join(order, ", ")
  {
    forall c | c in costs ensures NoOccurrence(c, ", ") {
      if c == "nan" {
        NanHoldsNoSeparator();
      } else {
        CleanCodeHoldsNoSeparator(c);
      }
    }
    JoinSplitCommaSpace(costs);
  }

  /** Lines 98-126 on one enumeration of a group's cost centres. */
  lemma CleanOfEnumeration(costs: seq<string>, order: seq<string>)
    requires forall c :: c in costs ==> c == "nan" || PlainCode(c)
    requires IsEnumeration(order, costs)
    ensures CleanCostCenter(Join(order, ", ")) == "" <==> forall c :: c in costs ==> c == "nan"
    ensures CleanCostCenter(Join(order, ", ")) != "" ==>
              && AllDifferent(Split(CleanCostCenter(Join(order, ", ")), ", "))
              && forall c :: c in Split(CleanCostCenter(Join(order, ", ")), ", ") <==> c in costs && c != "nan"
  {
    CleanEnumeration(order);
    var kept := DropMissing(order);
    KeptCodes(costs, order);
    var r := Join(kept, ", ");
    assert CleanCostCenter(Join(order, ", ")) == r;
    if kept != [] {
      SplitJoinCodes(kept);
    }
  }

  /** The codes line 95 keeps once the missing marker is gone: distinct, clean, and exactly the present ones. */
  lemma KeptCodes(costs: seq<string>, order: seq<string>)
    requires forall c :: c in costs ==> c == "nan" || CleanCode(c)
    requires IsEnumeration(order, costs)
    ensures DropMissing(order) == [] <==> forall c :: c in costs ==> c == "nan"
    ensures AllDifferent(DropMissing(order))
    ensures forall c :: c in DropMissing(order) <==> c in costs && c != "nan"
    ensures forall c :: c in DropMissing(order) ==> CleanCode(c)
  {
    DropMissingDifferent(order);
    if DropMissing(order) != [] {
      assert DropMissing(order)[0] in DropMissing(order);
    }
  }

  /** Every cost centre present for content id `k` is a plain code. */
  predicate PlainGroup(rows: seq<EnrichedRow>, k: int) {
    forall e :: e in rows && e.row.contentId == k && e.costCenter.Some? ==> PlainCode(e.costCenter.value)
  }

  /** What the strings of one group say about its rows: "nan" marks exactly the missing cost centres. */
  lemma GroupCosts(rows: seq<EnrichedRow>, k: int)
    requires PlainGroup(rows, k)
    ensures forall c :: c in CostsOf(rows, k) ==> c == "nan" || PlainCode(c)
    ensures forall c :: c in CostsOf(rows, k) && c != "nan" <==>
              exists e :: e in rows && e.row.contentId == k && e.costCenter == Some(c)
    ensures (forall c :: c in CostsOf(rows, k) ==> c == "nan") <==>
              forall e :: e in rows && e.row.contentId == k ==> e.costCenter == None
  {
    var costs := CostsOf(rows, k);
    forall e | e in rows && e.row.contentId == k && e.costCenter.Some?
      ensures e.costCenter.value in costs && e.costCenter.value != "nan"
    {
      PlainIsNotNan(e.costCenter.value);
      assert CostString(e.costCenter) == e.costCenter.value;
    }
  }

  /** The position of content id `k`'s profile among the grouped profiles. */
  lemma GroupIndex(rows: seq<EnrichedRow>, k: int) returns (i: nat)
    requires k in ContentIds(rows)
    ensures i < |AggregateCostCenters(rows)| && AggregateCostCenters(rows)[i].contentId == k
  {
    var grouped := AggregateCostCenters(rows);
    var p :| p in grouped && p.contentId == k;
    var j :| 0 <= j < |grouped| && grouped[j] == p;
    i := j;
  }

  /** The cleaned cost-centre string of content id `k`, found at position `i` of the grouped profiles. */
  lemma GroupCleaned(rows: seq<EnrichedRow>, pick: seq<string> -> seq<string>, k: int, i: nat)
    requires forall segs :: IsEnumeration(pick(segs), segs)
    requires PlainGroup(rows, k)
    requires i < |AggregateCostCenters(rows)| && AggregateCostCenters(rows)[i].contentId == k
    ensures var r := CleanProfiles(DistinctCostCenters(AggregateCostCenters(rows), pick))[i].costCenter;
      && (r == "" <==> forall e :: e in rows && e.row.contentId == k ==> e.costCenter == None)
      && (r != "" ==> AllDifferent(Split(r, ", ")))
      && (r != "" ==> forall c :: c in Split(r, ", ") <==>
            exists e :: e in rows && e.row.contentId == k && e.costCenter == Some(c))
  {
    var order := GroupOrder(rows, pick, k, i);
    var distinct := DistinctCostCenters(AggregateCostCenters(rows), pick);
    CleanedAt(distinct, i);
    var r := CleanCostCenter(Join(order, ", "));
    assert CleanProfiles(distinct)[i].costCenter == r;
    GroupCosts(rows, k);
    CleanOfEnumeration(CostsOf(rows, k), order);
    GroupFacts(rows, k, r);
  }

  lemma CleanedAt(ps: seq<Profile>, i: nat)
    requires i < |ps|
    ensures CleanProfiles(ps)[i] == Profile(ps[i].contentId, CleanCostCenter(ps[i].costCenter))
    ensures CleanProfilesCorrected(ps)[i] == Profile(ps[i].contentId, CleanCostCenterCorrected(ps[i].costCenter))
  {
  }

  /** What a string built from the cost strings of content id `k` says about the rows of `k`. */
  lemma GroupFacts(rows: seq<EnrichedRow>, k: int, r: string)
    requires PlainGroup(rows, k)
    requires r == "" <==> forall c :: c in CostsOf(rows, k) ==> c == "nan"
    requires r != "" ==> AllDifferent(Split(r, ", "))
    requires r != "" ==> forall c :: c in Split(r, ", ") <==> c in CostsOf(rows, k) && c != "nan"
    ensures r == "" <==> forall e :: e in rows && e.row.contentId == k ==> e.costCenter == None
    ensures r != "" ==> forall c :: c in Split(r, ", ") <==>
              exists e :: e in rows && e.row.contentId == k && e.costCenter == Some(c)
  {
    GroupCosts(rows, k);
  }

  /** After line 95, the cost-centre string of content id `k` lists the group's cost strings in some order, each once. */
  lemma GroupOrder(rows: seq<EnrichedRow>, pick: seq<string> -> seq<string>, k: int, i: nat) returns (order: seq<string>)
    requires forall segs :: IsEnumeration(pick(segs), segs)
    requires PlainGroup(rows, k)
    requires i < |AggregateCostCenters(rows)| && AggregateCostCenters(rows)[i].contentId == k
    ensures IsEnumeration(order, CostsOf(rows, k))
    ensures DistinctCostCenters(AggregateCostCenters(rows), pick)[i].costCenter == Join(order, ", ")
  {
    var grouped := AggregateCostCenters(rows);
    var costs := CostsOf(rows, k);
    assert grouped[i] in grouped;
    var x := grouped[i].costCenter;
    order := pick(Split(x, ", "));
    GroupCosts(rows, k);
    DedupOfGroup(costs, order);
    assert DistinctCostCenters(grouped, pick)[i].costCenter == DedupSegments(x, order);
  }

  /**
   * For a content id whose cost centres are plain codes or missing, lines
   * 91-129 produce a profile exactly when at least one cost centre is present,
   * and its ", "-separated segments are then those cost centres, each once.
   */
  lemma ProfileOfGroup(rows: seq<EnrichedRow>, pick: seq<string> -> seq<string>, k: int)
    requires forall segs :: IsEnumeration(pick(segs), segs)
    requires PlainGroup(rows, k)
    ensures (exists p :: p in BuildProfiles(rows, pick) && p.contentId == k) <==>
              exists e :: e in rows && e.row.contentId == k && e.costCenter.Some?
    ensures forall p :: p in BuildProfiles(rows, pick) && p.contentId == k ==>
              && AllDifferent(Split(p.costCenter, ", "))
              && forall c :: c in Split(p.costCenter, ", ") <==>
                   exists e :: e in rows && e.row.contentId == k && e.costCenter == Some(c)
  {
    if k in ContentIds(rows) {
      var i := GroupIndex(rows, k);
      GroupCleaned(rows, pick, k, i);
      ProfileAt(rows, pick, k, i);
    } else {
      assert forall p :: p in BuildProfiles(rows, pick) ==> p.contentId != k;
    }
  }

  /** The only profile that lines 91-129 can keep for content id `k` is the cleaned one at `k`'s position. */
  lemma ProfileAt(rows: seq<EnrichedRow>, pick: seq<string> -> seq<string>, k: int, i: nat)
    requires forall segs :: IsEnumeration(pick(segs), segs)
    requires i < |AggregateCostCenters(rows)| && AggregateCostCenters(rows)[i].contentId == k
    ensures var p := CleanProfiles(DistinctCostCenters(AggregateCostCenters(rows), pick))[i];
      forall q :: q in BuildProfiles(rows, pick) && q.contentId == k <==> q == p && p.costCenter != ""
  {
    var cleaned := CleanProfiles(DistinctCostCenters(AggregateCostCenters(rows), pick));
    assert BuildProfiles(rows, pick) == DropEmptyProfiles(cleaned);
    assert IdsIncreasing(cleaned);
    KeptAt(cleaned, i);
  }

  /** With increasing ids, the profile at `i` is the only one that can be kept under its id. */
  lemma KeptAt(ps: seq<Profile>, i: nat)
    requires IdsIncreasing(ps) && i < |ps|
    ensures forall q :: q in DropEmptyProfiles(ps) && q.contentId == ps[i].contentId <==> q == ps[i] && ps[i].costCenter != ""
  {
    forall q | q in ps && q.contentId == ps[i].contentId ensures q == ps[i] {
      var j :| 0 <= j < |ps| && ps[j] == q;
    }
  }

  /** A content id whose cost centres are all missing gets no profile. */
  lemma AllMissingYieldsNoProfile(rows: seq<EnrichedRow>, pick: seq<string> -> seq<string>, k: int)
    requires forall segs :: IsEnumeration(pick(segs), segs)
    requires forall e :: e in rows && e.row.contentId == k ==> e.costCenter == None
    ensures forall p :: p in BuildProfiles(rows, pick) ==> p.contentId != k
  {
    ProfileOfGroup(rows, pick, k);
  }

  // ------------------------------------------------------------ the corrected line 98

  /** Every cost centre present in the enriched rows is a plain code. */
  predicate PlainCosts(rows: seq<EnrichedRow>) {
    forall e :: e in rows && e.costCenter.Some? ==> PlainCode(e.costCenter.value)
  }

  /**
   * When no cost centre has "nan" inside (nor a comma or whitespace), the
   * script's profiles and the profiles with line 98 corrected are the same.
   */
  lemma CorrectedProfilesAgree(rows: seq<EnrichedRow>, pick: seq<string> -> seq<string>)
    requires forall segs :: IsEnumeration(pick(segs), segs)
    requires PlainCosts(rows)
    ensures BuildProfilesCorrected(rows, pick) == BuildProfiles(rows, pick)
  {
    var distinct := DistinctCostCenters(AggregateCostCenters(rows), pick);
    forall i | 0 <= i < |distinct|
      ensures CleanProfilesCorrected(distinct)[i] == CleanProfiles(distinct)[i]
    {
      CleanedAgreesAt(rows, pick, i);
    }
    assert CleanProfilesCorrected(distinct) == CleanProfiles(distinct);
  }

  /** The two cleanups agree on the profile at position `i`. */
  lemma CleanedAgreesAt(rows: seq<EnrichedRow>, pick: seq<string> -> seq<string>, i: nat)
    requires forall segs :: IsEnumeration(pick(segs), segs)
    requires PlainCosts(rows)
    requires i < |AggregateCostCenters(rows)|
    ensures var distinct := DistinctCostCenters(AggregateCostCenters(rows), pick);
      CleanProfilesCorrected(distinct)[i] == CleanProfiles(distinct)[i]
  {
    var k := AggregateCostCenters(rows)[i].contentId;
    var order := GroupOrder(rows, pick, k, i);
    GroupCosts(rows, k);
    WrittenAgreesOnPlainCodes(order);
    CleanedAt(DistinctCostCenters(AggregateCostCenters(rows), pick), i);
  }
}
