/**
 * The rows of the frames the transform passes from step to step.  Every
 * frame is a sequence of rows in pandas' row order; a pandas NaN/None cell is
 * `None` (or `Null` for the raw tag cells, which may also hold a non-string).
 */
module Tables {
  import opened Wrappers

  /** The tag-category columns selected from `portal_live`, in query order. */
  const Categories: seq<string> := [
    "adaptation", "behavior", "emissions", "environment", "finance", "geography", "industry",
    "intervention", "policy", "sector", "technology", "theory", "climate_events", "org_comp"
  ]

  /** A raw tag-category cell: NULL, a string of comma-separated tags, or a non-string value. */
  datatype Cell = Null | Str(s: string) | NonText

  /** A `portal_live` row: its id and one cell per entry of `Categories`. */
  datatype WideRow = WideRow(id: int, cells: seq<Cell>)

  predicate WellFormed(rows: seq<WideRow>) {
    forall r :: r in rows ==> |r.cells| == |Categories|
  }

  /** A row of the first melt: id, category name, and the raw cell. */
  datatype MeltedRow = MeltedRow(id: int, tagCat: string, cell: Cell)

  /** A row of the long table after the second melt. */
  datatype LongRow = LongRow(contentId: int, tagCat: string, tag: string)

  /** A row of `ref_content_tags`. */
  datatype LookupRow = LookupRow(tag: string, guid: string)

  /** A long row with the GUID found for its tag (`None` when the tag has no lookup entry). */
  datatype TaggedRow = TaggedRow(contentId: int, tagCat: string, tag: string, guid: Option<string>)

  /** A row of `tag_profiles`. */
  datatype ProfileLink = ProfileLink(costCenter: string, tagGuid: Option<string>)

  /**
   * A row of the outer merge with `tag_profiles`: the left-hand columns (absent
   * for a profile that matched no tag row) and the right-hand columns (absent
   * for a tag row that matched no profile).
   */
  datatype MergedRow = MergedRow(left: Option<TaggedRow>, right: Option<ProfileLink>)

  /** A merged row that has a content id, with `tag_guid` dropped: the tag row and its cost centre. */
  datatype EnrichedRow = EnrichedRow(row: TaggedRow, costCenter: Option<string>)

  /** A row of `tag_profiles` as built at the end: a content id and its cost-centre string. */
  datatype Profile = Profile(contentId: int, costCenter: string)
}
