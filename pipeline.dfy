/**
 * The transform of lines 40-133 end to end: from the `portal_live` rows, the
 * already converted content ids, `ref_content_tags` and `tag_profiles` to the
 * rows appended to `portal_content_tags` and the profiles written back to
 * `portal_live`.
 */
module Pipeline {
  import opened Wrappers
  import opened Text
  import opened Tables
  import opened Reshape
  import opened Enrich
  import opened Cleanup
  import opened Profiles

  /** What the transform hands to the writers: the long tag rows (line 141) and the profiles (lines 144-147). */
  datatype Output = Output(contentTags: seq<TaggedRow>, profiles: seq<Profile>)

  /** Line 135: the merged rows with the `cost_center` column dropped, in order. */
  function TagRowsOf(es: seq<EnrichedRow>): (rs: seq<TaggedRow>)
    ensures |rs| == |es|
    ensures forall i :: 0 <= i < |es| ==> rs[i] == es[i].row
  {
    seq(|es|, i requires 0 <= i < |es| => es[i].row)
  }

  /** The content ids of a sequence of long tag rows. */
  function TagIds(ts: seq<TaggedRow>): set<int> {
    set t | t in ts :: t.contentId
  }

  /** The enriched rows of lines 40-88. */
  function Enriched(wide: seq<WideRow>, converted: set<int>, lookup: seq<LookupRow>, links: seq<ProfileLink>): seq<EnrichedRow>
    requires WellFormed(wide)
  {
    OuterJoinCostCenter(TaggedRows(wide, converted, lookup), links)
  }

  /** A written tag row is a non-empty, comma-free piece of a category cell of a wide row not yet converted. */
  predicate FromWide(t: TaggedRow, wide: seq<WideRow>, converted: set<int>) {
    && t.contentId !in converted && t.tag != "" && ',' !in t.tag
    && exists r, j :: r in wide && 0 <= j < |Categories| && j < |r.cells| && r.id == t.contentId &&
                      t.tagCat == Categories[j] && t.tag in Pieces(r.cells[j])
  }

  /** A wide row holds at least one non-empty comma-separated piece in one of its category cells. */
  predicate HasTags(r: WideRow) {
    exists j, x :: 0 <= j < |r.cells| && x in Pieces(r.cells[j]) && x != ""
  }

  /** The deduplicated tag rows of lines 40-69, each with its GUID. */
  function TaggedRows(wide: seq<WideRow>, converted: set<int>, lookup: seq<LookupRow>): seq<TaggedRow>
    requires WellFormed(wide)
  {
    DedupContentGuid(LeftJoinGuid(SplitTags(Unpivot(DeltaFilter(wide, converted))), lookup))
  }

  /** Cost centre `c` is linked to the GUID of one of content id `k`'s tags. */
  predicate LinkedCost(tagged: seq<TaggedRow>, links: seq<ProfileLink>, k: int, c: string) {
    exists t :: t in tagged && t.contentId == k && ProfileLink(c, t.guid) in links
  }

  /**
   * Lines 40-135.  Every written tag row comes from a wide row that was not yet
   * converted, and every such wide row with a tag is written.  The profiles are
   * in ascending id order, so at most one per content id, only for content ids
   * that are written, each with a non-empty tidy cost-centre string.
   */
  function Transform(wide: seq<WideRow>, converted: set<int>, lookup: seq<LookupRow>,
                     links: seq<ProfileLink>, pick: seq<string> -> seq<string>): (out: Output)
    requires WellFormed(wide)
    requires forall segs :: IsEnumeration(pick(segs), segs)
    ensures forall t :: t in out.contentTags ==> FromWide(t, wide, converted)
    ensures forall r :: r in wide && r.id !in converted && HasTags(r) ==> r.id in TagIds(out.contentTags)
    ensures IdsIncreasing(out.profiles)
    ensures forall p :: p in out.profiles ==>
              p.contentId in TagIds(out.contentTags) && p.costCenter != "" && Tidy(p.costCenter)
  {
    var enriched := Enriched(wide, converted, lookup, links);
    TagRowsFromWide(wide, converted, lookup, links);
    WideRowsWritten(wide, converted, lookup, links);
    ProfilesWritten(enriched, pick);
    Output(TagRowsOf(enriched), BuildProfiles(enriched, pick))
  }

  /** Every written tag row comes from a wide row that was not yet converted. */
  lemma TagRowsFromWide(wide: seq<WideRow>, converted: set<int>, lookup: seq<LookupRow>, links: seq<ProfileLink>)
    requires WellFormed(wide)
    ensures forall t :: t in TagRowsOf(Enriched(wide, converted, lookup, links)) ==> FromWide(t, wide, converted)
  {
    var enriched := Enriched(wide, converted, lookup, links);
    forall t | t in TagRowsOf(enriched) ensures FromWide(t, wide, converted) {
      var i :| 0 <= i < |enriched| && TagRowsOf(enriched)[i] == t;
      RowOrigin(wide, converted, lookup, links, enriched[i]);
    }
  }

  /** Every wide row not yet converted that holds a tag is written. */
  lemma WideRowsWritten(wide: seq<WideRow>, converted: set<int>, lookup: seq<LookupRow>, links: seq<ProfileLink>)
    requires WellFormed(wide)
    ensures forall r :: r in wide && r.id !in converted && HasTags(r) ==>
              r.id in TagIds(TagRowsOf(Enriched(wide, converted, lookup, links)))
  {
    var enriched := Enriched(wide, converted, lookup, links);
    forall r | r in wide && r.id !in converted && HasTags(r) ensures r.id in TagIds(TagRowsOf(enriched)) {
      var j, x :| 0 <= j < |r.cells| && x in Pieces(r.cells[j]) && x != "";
      var e := RowReaches(wide, converted, lookup, links, r, j, x);
      WrittenId(enriched, e);
    }
  }

  /** Every profile belongs to a written content id. */
  lemma ProfilesWritten(enriched: seq<EnrichedRow>, pick: seq<string> -> seq<string>)
    requires forall segs :: IsEnumeration(pick(segs), segs)
    ensures forall p :: p in BuildProfiles(enriched, pick) ==> p.contentId in TagIds(TagRowsOf(enriched))
  {
    forall p | p in BuildProfiles(enriched, pick) ensures p.contentId in TagIds(TagRowsOf(enriched)) {
      var e :| e in enriched && e.row.contentId == p.contentId;
      WrittenId(enriched, e);
    }
  }

  /** The content id of an enriched row is written. */
  lemma WrittenId(enriched: seq<EnrichedRow>, e: EnrichedRow)
    requires e in enriched
    ensures e.row.contentId in TagIds(TagRowsOf(enriched))
  {
    var i :| 0 <= i < |enriched| && enriched[i] == e;
    assert TagRowsOf(enriched)[i] == e.row;
  }

  /** Where an enriched row comes from: back through the outer join, the dedup, the left join and the two melts. */
  lemma RowOrigin(wide: seq<WideRow>, converted: set<int>, lookup: seq<LookupRow>, links: seq<ProfileLink>, e: EnrichedRow)
    requires WellFormed(wide)
    requires e in Enriched(wide, converted, lookup, links)
    ensures FromWide(e.row, wide, converted)
  {
    var long := SplitTags(Unpivot(DeltaFilter(wide, converted)));
    var t := e.row;
    assert t in DedupContentGuid(LeftJoinGuid(long, lookup));
    LongOrigin(wide, converted, LongRow(t.contentId, t.tagCat, t.tag));
  }

  /** Where a row of the long table comes from: a non-empty piece of a cell of a wide row not yet converted. */
  lemma LongOrigin(wide: seq<WideRow>, converted: set<int>, l: LongRow)
    requires WellFormed(wide)
    requires l in SplitTags(Unpivot(DeltaFilter(wide, converted)))
    ensures l.contentId !in converted && l.tag != "" && ',' !in l.tag
    ensures exists r, j :: r in wide && 0 <= j < |Categories| && j < |r.cells| && r.id == l.contentId &&
                           l.tagCat == Categories[j] && l.tag in Pieces(r.cells[j])
  {
    var kept := DeltaFilter(wide, converted);
    var melted := Unpivot(kept);
    var m :| m in melted && m.id == l.contentId && m.tagCat == l.tagCat && l.tag in Pieces(m.cell);
    var r, j :| r in kept && 0 <= j < |Categories| && m == MeltedRow(r.id, Categories[j], r.cells[j]);
    assert r in wide && j < |r.cells| && l.tag in Pieces(r.cells[j]);
  }

  /** A wide row not yet converted with a non-empty piece `x` in category `j` reaches the enriched rows. */
  lemma RowReaches(wide: seq<WideRow>, converted: set<int>, lookup: seq<LookupRow>, links: seq<ProfileLink>,
                   r: WideRow, j: nat, x: string) returns (e: EnrichedRow)
    requires WellFormed(wide)
    requires r in wide && r.id !in converted && j < |r.cells| && x in Pieces(r.cells[j]) && x != ""
    ensures e in Enriched(wide, converted, lookup, links) && e.row.contentId == r.id
  {
    var long := SplitTags(Unpivot(DeltaFilter(wide, converted)));
    LongRowOf(wide, converted, r, j, x);
    var u := TaggedOf(long, lookup, LongRow(r.id, Categories[j], x));
    e := OuterJoinKeepsRow(DedupContentGuid(LeftJoinGuid(long, lookup)), links, u);
  }

  /** Lines 40-57 keep every non-empty piece of a cell of a wide row not yet converted. */
  lemma LongRowOf(wide: seq<WideRow>, converted: set<int>, r: WideRow, j: nat, x: string)
    requires WellFormed(wide)
    requires r in wide && r.id !in converted && j < |r.cells| && x in Pieces(r.cells[j]) && x != ""
    ensures LongRow(r.id, Categories[j], x) in SplitTags(Unpivot(DeltaFilter(wide, converted)))
  {
    var kept := DeltaFilter(wide, converted);
    assert r in kept;
    assert Present(r.cells[j]);
    assert MeltedRow(r.id, Categories[j], r.cells[j]) in Unpivot(kept);
  }

  /** Lines 66-69 keep, for every long row, a row with its content id. */
  lemma TaggedOf(long: seq<LongRow>, lookup: seq<LookupRow>, l: LongRow) returns (u: TaggedRow)
    requires l in long
    ensures u in DedupContentGuid(LeftJoinGuid(long, lookup)) && u.contentId == l.contentId
  {
    var joined := LeftJoinGuid(long, lookup);
    var t := TaggedRow(l.contentId, l.tagCat, l.tag, GuidOf(lookup, l.tag));
    assert t in joined;
    assert Key(t) in Keys(DedupContentGuid(joined));
    u :| u in DedupContentGuid(joined) && Key(u) == Key(t);
  }

  /** The outer join and the null-id drop keep every deduplicated row, with or without a cost centre. */
  lemma OuterJoinKeepsRow(rows: seq<TaggedRow>, links: seq<ProfileLink>, u: TaggedRow) returns (e: EnrichedRow)
    requires u in rows
    ensures e in OuterJoinCostCenter(rows, links) && e.row == u
  {
    if u.guid in LinkGuids(links) {
      var p :| p in links && p.tagGuid == u.guid;
      e := EnrichedRow(u, Some(p.costCenter));
    } else {
      e := EnrichedRow(u, None);
    }
  }

  /**
   * Line 40 with more ids marked as converted: the run writes tag rows for a
   * subset of the content ids it wrote before, none of them marked.
   */
  lemma RerunWritesSubset(wide: seq<WideRow>, converted: set<int>, converted2: set<int>, lookup: seq<LookupRow>,
                          links: seq<ProfileLink>, pick: seq<string> -> seq<string>)
    requires WellFormed(wide)
    requires forall segs :: IsEnumeration(pick(segs), segs)
    requires converted <= converted2
    ensures var first := Transform(wide, converted, lookup, links, pick);
      var second := Transform(wide, converted2, lookup, links, pick);
      TagIds(second.contentTags) <= TagIds(first.contentTags) && TagIds(second.contentTags) !! converted2
  {
    var first := Transform(wide, converted, lookup, links, pick);
    var second := Transform(wide, converted2, lookup, links, pick);
    forall k | k in TagIds(second.contentTags) ensures k in TagIds(first.contentTags) && k !in converted2 {
      var t :| t in second.contentTags && t.contentId == k;
      assert FromWide(t, wide, converted2);
      var r, j :| r in wide && 0 <= j < |Categories| && j < |r.cells| && r.id == t.contentId &&
                  t.tagCat == Categories[j] && t.tag in Pieces(r.cells[j]);
      assert HasTags(r);
    }
  }

  /**
   * Line 40 across two runs: once the tag rows of a first run are appended to
   * `portal_content_tags`, a second run over the same `portal_live` rows writes
   * no tag rows and no profiles.
   */
  lemma SecondRunWritesNothing(wide: seq<WideRow>, converted: set<int>, lookup: seq<LookupRow>,
                               links: seq<ProfileLink>, pick: seq<string> -> seq<string>)
    requires WellFormed(wide)
    requires forall segs :: IsEnumeration(pick(segs), segs)
    ensures var first := Transform(wide, converted, lookup, links, pick);
      var second := Transform(wide, converted + TagIds(first.contentTags), lookup, links, pick);
      second.contentTags == [] && second.profiles == []
  {
    var first := Transform(wide, converted, lookup, links, pick);
    var converted2 := converted + TagIds(first.contentTags);
    RerunWritesSubset(wide, converted, converted2, lookup, links, pick);
    NothingLeft(Transform(wide, converted2, lookup, links, pick), TagIds(first.contentTags), converted2);
  }

  /** An output whose content ids are all both marked and unmarked is empty. */
  lemma NothingLeft(out: Output, ids: set<int>, marked: set<int>)
    requires TagIds(out.contentTags) <= ids && TagIds(out.contentTags) !! marked && ids <= marked
    requires forall p :: p in out.profiles ==> p.contentId in TagIds(out.contentTags)
    ensures out.contentTags == [] && out.profiles == []
  {
    assert TagIds(out.contentTags) == {};
    NoIdsNoTags(out.contentTags);
    ProfilesNeedTags(out);
  }

  /** Every profile belongs to a written content id, so no tag rows means no profiles. */
  lemma ProfilesNeedTags(out: Output)
    requires forall p :: p in out.profiles ==> p.contentId in TagIds(out.contentTags)
    ensures out.contentTags == [] ==> out.profiles == []
  {
    if out.profiles != [] {
      assert out.profiles[0] in out.profiles;
    }
  }

  lemma NoIdsNoTags(ts: seq<TaggedRow>)
    ensures TagIds(ts) == {} ==> ts == []
  {
    if ts != [] {
      assert ts[0].contentId in TagIds(ts);
    }
  }

  /**
   * Lines 78-129 for one content id, when every cost centre in `tag_profiles`
   * is a plain code: the content gets a profile exactly when one of its tags'
   * GUIDs is linked to a cost centre, and the profile then lists each such cost
   * centre exactly once and nothing else.
   */
  lemma ProfileFromLinks(tagged: seq<TaggedRow>, links: seq<ProfileLink>, pick: seq<string> -> seq<string>, k: int)
    requires forall segs :: IsEnumeration(pick(segs), segs)
    requires forall l :: l in links ==> PlainCode(l.costCenter)
    ensures var profiles := BuildProfiles(OuterJoinCostCenter(tagged, links), pick);
      && ((exists p :: p in profiles && p.contentId == k) <==> exists c :: LinkedCost(tagged, links, k, c))
      && forall p :: p in profiles && p.contentId == k ==>
           && AllDifferent(Split(p.costCenter, ", "))
           && forall c :: c in Split(p.costCenter, ", ") <==> LinkedCost(tagged, links, k, c)
  {
    var enriched := OuterJoinCostCenter(tagged, links);
    EnrichedCosts(tagged, links, k);
    EnrichedPlain(tagged, links, k);
    ProfileOfGroup(enriched, pick, k);
  }

  /** After the outer join, the cost centres present for content id `k` are the ones linked to its tags' GUIDs. */
  lemma EnrichedCosts(tagged: seq<TaggedRow>, links: seq<ProfileLink>, k: int)
    ensures forall c :: (exists e :: e in OuterJoinCostCenter(tagged, links) && e.row.contentId == k && e.costCenter == Some(c))
                        <==> LinkedCost(tagged, links, k, c)
    ensures (exists e :: e in OuterJoinCostCenter(tagged, links) && e.row.contentId == k && e.costCenter.Some?) <==>
            exists c :: LinkedCost(tagged, links, k, c)
  {
    var enriched := OuterJoinCostCenter(tagged, links);
    if exists e :: e in enriched && e.row.contentId == k && e.costCenter.Some? {
      var e :| e in enriched && e.row.contentId == k && e.costCenter.Some?;
      assert LinkedCost(tagged, links, k, e.costCenter.value);
    }
    forall c ensures (exists e :: e in enriched && e.row.contentId == k && e.costCenter == Some(c))
                     <==> LinkedCost(tagged, links, k, c) {
      if LinkedCost(tagged, links, k, c) {
        var t :| t in tagged && t.contentId == k && ProfileLink(c, t.guid) in links;
        assert EnrichedRow(t, Some(c)) in enriched;
      }
    }
  }

  /** When every linked cost centre is a plain code, so is every cost centre of a group after the outer join. */
  lemma EnrichedPlain(tagged: seq<TaggedRow>, links: seq<ProfileLink>, k: int)
    requires forall l :: l in links ==> PlainCode(l.costCenter)
    ensures PlainGroup(OuterJoinCostCenter(tagged, links), k)
  {
  }

  // ------------------------------------------------------------ repeated tag rows

  /**
   * As written, line 141 appends the same `(content_id, tag_guid)` more than
   * once whenever two cost centres in `tag_profiles` share a tag's GUID: the
   * outer merge at line 78 repeats the row after line 69 de-duplicated it, and
   * line 135 only drops the cost-centre column.
   */
  lemma RepeatedTagRowWritten(tagged: seq<TaggedRow>, links: seq<ProfileLink>, t: TaggedRow, c1: string, c2: string)
    requires t in tagged && c1 != c2
    requires ProfileLink(c1, t.guid) in links && ProfileLink(c2, t.guid) in links
    ensures !UniqueKeys(TagRowsOf(OuterJoinCostCenter(tagged, links)))
  {
    var es := OuterJoinCostCenter(tagged, links);
    var i := IndexOfRow(es, EnrichedRow(t, Some(c1)));
    var j := IndexOfRow(es, EnrichedRow(t, Some(c2)));
    var w := TagRowsOf(es);
    assert w[i] == t && w[j] == t && i != j;
    if i < j {
      assert Key(w[i]) == Key(w[j]);
    } else {
      assert Key(w[j]) == Key(w[i]);
    }
  }

  lemma IndexOfRow(es: seq<EnrichedRow>, e: EnrichedRow) returns (i: nat)
    requires e in es
    ensures i < |es| && es[i] == e
  {
    i :| 0 <= i < |es| && es[i] == e;
  }

  /** The same for the whole transform: a de-duplicated tag row with two linked cost centres is written twice. */
  lemma TransformRepeatsTagRow(wide: seq<WideRow>, converted: set<int>, lookup: seq<LookupRow>,
                               links: seq<ProfileLink>, pick: seq<string> -> seq<string>,
                               t: TaggedRow, c1: string, c2: string)
    requires WellFormed(wide)
    requires forall segs :: IsEnumeration(pick(segs), segs)
    requires t in TaggedRows(wide, converted, lookup) && c1 != c2
    requires ProfileLink(c1, t.guid) in links && ProfileLink(c2, t.guid) in links
    ensures !UniqueKeys(Transform(wide, converted, lookup, links, pick).contentTags)
  {
    RepeatedTagRowWritten(TaggedRows(wide, converted, lookup), links, t, c1, c2);
  }

  /**
   * The rows line 141 evidently means to append: the written rows with the
   * `(content_id, tag_guid)` de-duplication of line 69 applied once more, so
   * that no pair is written twice and every pair written before still is.
   */
  function DistinctTagRows(es: seq<EnrichedRow>): (out: seq<TaggedRow>)
    ensures UniqueKeys(out)
    ensures Keys(out) == Keys(TagRowsOf(es))
    ensures forall t :: t in out ==> t in TagRowsOf(es)
  {
    DedupContentGuid(TagRowsOf(es))
  }

  /** The de-duplicated rows still cover every content id the written rows cover. */
  lemma DistinctTagRowsKeepIds(es: seq<EnrichedRow>)
    ensures TagIds(DistinctTagRows(es)) == TagIds(TagRowsOf(es))
  {
    var out := DistinctTagRows(es);
    forall k | k in TagIds(TagRowsOf(es)) ensures k in TagIds(out) {
      var t :| t in TagRowsOf(es) && t.contentId == k;
      assert Key(t) in Keys(TagRowsOf(es));
      var u :| u in out && Key(u) == Key(t);
      assert u.contentId == k;
    }
  }
}
