# Tag transform: wide portal tags to long tag rows and cost-centre profiles

`sql_tag_transform.py` reads the wide `portal_live` table, which has one row per content
item and one comma-separated tag cell for each of 14 tag categories. It turns the rows not
yet converted into long `(content_id, tag_cat, tag, tag_guid)` rows for
`portal_content_tags`. It then builds, per content item, a cleaned, comma-separated string
of the cost centres linked to its tags (`tag_profiles`). This project models that transform
(lines 40-135) as pure functions over sequences of rows, and proves what each stage
promises and what the whole pipeline promises.

The modules follow the stages of the script:

- `Wrappers`: `Option`, which stands for a pandas NaN/None cell.
- `Text`: Python's `str.split` and `str.join`, Python's whitespace set (shared by `\s` and
  `str.strip`), and the split/join round trips.
- `Rewrite`: `re.sub` for the patterns the cleanup uses. A match is leftmost,
  non-overlapping and greedy. The patterns are fixed patterns, a lead followed by a
  repeated class, and a trim of `^[,\s]+|[,\s]+$`.
- `Tables`: the row types of each frame and the 14 tag categories.
- `Reshape`: the delta filter and the two melts.
- `Enrich`: the left merge with the GUID lookup, the `(content_id, guid)` de-duplication,
  the outer merge with `tag_profiles` and the null-id drop.
- `Cleanup`: the regular-expression chain applied to one cost-centre string, both as
  written and with line 98 corrected (see "Findings").
- `Profiles`: group-by-and-join, the set de-duplication, the cleanup per profile and the
  drop of empty profiles. `BuildProfiles` applies the cleanup as written, and
  `BuildProfilesCorrected` applies it with line 98 corrected. Suppose every cost centre is a
  plain code: non-empty, with no comma, no whitespace and no "nan" inside. Then
  `Profiles.CorrectedProfilesAgree` proves that both give the same profiles.
- `Pipeline`: the whole transform (`Transform`), its origin and coverage guarantees, and
  what a second run does.

Pandas behaviour the model follows:

- `melt` is column-major.
- A left merge keeps the left order and repeats a row once per match.
- `drop_duplicates` keeps the first row and treats two NaN keys as equal (`Option`
  equality).
- `groupby` lists the ids in ascending order.
- `astype(str)` prints a missing cost centre as `"nan"`.
- The iteration order of Python's `set` at line 95 is a parameter
  `pick: seq<string> -> seq<string>`. The only requirement on it is that `pick(segs)` lists
  every distinct segment of `segs` exactly once.

## Model

| member | source | states |
|---|---|---|
| Reshape.DeltaFilter | sql_tag_transform.py:40 | every kept wide row is an input row whose id is not converted; every input row whose id is not converted is kept unchanged |
| Reshape.DeltaFilterSecondRunEmpty | sql_tag_transform.py:40 | filtering again, after the ids just kept are marked converted, keeps nothing |
| Reshape.DeltaFilterAllConverted | sql_tag_transform.py:40 | when every id is already converted, nothing is kept |
| Reshape.MeltColumn | sql_tag_transform.py:43-45 | the melt of one category holds exactly the present (non-null, non-empty) cells of that category, each with its row id |
| Reshape.MeltFrom | sql_tag_transform.py:43-45 | the column-major melt of the categories from index k on holds exactly the present cells of those categories |
| Reshape.Unpivot | sql_tag_transform.py:43-45 | every melted row is a present cell of some input row and category, and every present cell of every row appears |
| Reshape.AtPosition | sql_tag_transform.py:48-55 | the rows melted from split position p are exactly the non-empty p-th pieces of the cells |
| Reshape.Positions | sql_tag_transform.py:48-55 | the rows melted from positions p onwards are exactly the non-empty pieces at those positions |
| Reshape.SplitTags | sql_tag_transform.py:48-57 | every long row has a non-empty tag without a comma, taken from a piece of a melted cell with the same id and category; every non-empty piece yields a long row |
| Reshape.PositionsOneCell | sql_tag_transform.py:48-57 | for a single cell, the position-major melt lists its non-empty pieces in order |
| Reshape.SplitOneCell | sql_tag_transform.py:48-57 | a single cell yields one long row per non-empty piece, in order |
| Reshape.SplitEmptyMiddle | sql_tag_transform.py:48-57 | the cell "a,,b" yields exactly the tags a and b |
| Reshape.SplitNoTags | sql_tag_transform.py:48-57 | the cells ",,,", "" and a non-string cell yield no tags |
| Reshape.NonEmpty | sql_tag_transform.py:54-55 | the pieces kept are exactly the non-empty ones |
| Reshape.NonEmptyConcat | sql_tag_transform.py:54-55 | dropping empty pieces commutes with concatenation, so the pieces kept stay in their order |
| Reshape.NonEmptyExample | sql_tag_transform.py:54-55 | on one example: ["a", "", "b"] keeps "a" and then "b" |
| Reshape.Present | sql_tag_transform.py:44-45 | a melted cell survives the `dropna` and the empty-string filter exactly when it is neither null nor "" (a definition, used by MeltColumn and Unpivot) |
| Reshape.Pieces | sql_tag_transform.py:48 | the `str.split(",")` of a string cell, and nothing for a non-string cell (a definition; Text.Split and Text.SplitJoin state its properties) |
| Reshape.MaxWidth | sql_tag_transform.py:48-53 | the number of split columns: no cell has more pieces |
| Text.IsSpace | sql_tag_transform.py:101-126 | Python's whitespace class, shared by `str.strip()` and `\s` (a definition over code points) |
| Text.Find | sql_tag_transform.py:48 | the index of the leftmost occurrence of the separator, or the length of the string when there is none |
| Text.Join | sql_tag_transform.py:92-95 | `sep.join(xs)` (a definition; Text.SplitJoin and Text.JoinSplitCommaSpace relate it to Split) |
| Text.Split | sql_tag_transform.py:48 | `str.split` gives at least one piece, and no piece contains the separator |
| Text.SplitJoin | sql_tag_transform.py:48 | joining the pieces of a split with the separator gives back the string |
| Text.JoinSplitCommaSpace | sql_tag_transform.py:92-95 | splitting on ", " a ", "-join of strings free of ", " gives back those strings |
| Text.SplitEmptyMiddleExample | sql_tag_transform.py:48 | "a,,b" splits into "a", "" and "b" |
| Text.SplitCommasOnlyExample | sql_tag_transform.py:48 | ",,," splits into four empty pieces |
| Enrich.GuidsFor | sql_tag_transform.py:66 | the GUIDs a tag matches are exactly its lookup entries, and there are none exactly when the tag is not in the lookup |
| Enrich.TagOne | sql_tag_transform.py:66 | one long row becomes one row per matching GUID, or a single row with a null GUID when the tag has no lookup entry |
| Enrich.LeftJoinGuid | sql_tag_transform.py:66 | every long row is kept; a matched tag gets each of its lookup GUIDs and an unmatched tag gets a null GUID, and no other rows appear |
| Enrich.LeftJoinRowForRow | sql_tag_transform.py:66 | with unique tag names in the lookup, the merge is row for row, and row i carries the GUID of its tag |
| Enrich.GuidOf | sql_tag_transform.py:66 | a tag's GUID is null exactly when the tag has no lookup entry, and otherwise it is one of its lookup entries |
| Enrich.DedupFrom | sql_tag_transform.py:69 | the kept rows have pairwise distinct (content_id, guid) keys, come from the input and cover every key not yet seen |
| Enrich.DedupFromKeepsFirst | sql_tag_transform.py:69 | each kept row is the first input row with its key |
| Enrich.DedupContentGuid | sql_tag_transform.py:69 | no two kept rows share (content_id, guid), with null GUIDs equal; every key present before is still present; each kept row is the first with its key |
| Enrich.MergeOne | sql_tag_transform.py:78 | a tag row pairs with every profile link that has its GUID, or with nothing when there is none |
| Enrich.MergeLeft | sql_tag_transform.py:78 | the left part of the outer merge pairs every tag row with each matching link, or with nothing |
| Enrich.MergeRightOnly | sql_tag_transform.py:78 | the right-only part holds exactly the links whose GUID no tag row has, with no tag row |
| Enrich.OuterMerge | sql_tag_transform.py:78 | every merged row has a tag row or a link, and paired rows share their GUID. Every tag row is paired with every link of its GUID. A tag row stands alone only when no link has its GUID, and a link only when no tag row has its GUID. Every tag row and every link appears |
| Enrich.OuterMergeCovers | sql_tag_transform.py:78 | the left part and the right-only part together hold every tag row and every link |
| Enrich.DropNullContent | sql_tag_transform.py:82-88 | keeps exactly the merged rows that have a content id, as a tag row and its cost centre |
| Enrich.DropNullOfOuterMerge | sql_tag_transform.py:78-82 | after the null-id drop, the right-only rows of the outer merge leave nothing behind |
| Enrich.OuterJoinCostCenter | sql_tag_transform.py:78-88 | every enriched row pairs a de-duplicated row with a link of its GUID, or with a null cost centre when no link has that GUID; every such pairing is present |
| Profiles.Insert | sql_tag_transform.py:92 | inserting an id into an ascending list keeps it ascending and adds exactly that id |
| Profiles.SortedIds | sql_tag_transform.py:92 | the group keys are the distinct content ids in ascending order |
| Profiles.CostsOf | sql_tag_transform.py:91-92 | a group's cost strings are exactly the `astype(str)` cost centres of its rows ("nan" for a missing one), and the list is empty only for an absent id |
| Profiles.AggregateCostCenters | sql_tag_transform.py:91-92 | one profile per distinct content id, in ascending id order, each holding the ", "-join of its group's cost strings |
| Profiles.AggregateRoundTrip | sql_tag_transform.py:92-95 | splitting an aggregated string on ", " gives back the group's cost strings when no cost centre contains ", " |
| Profiles.AnEnumeration | sql_tag_transform.py:95 | for every list of segments, some order lists each distinct segment exactly once |
| Profiles.EnumerationsArePermutations | sql_tag_transform.py:95 | any two such orders are permutations of each other |
| Profiles.DedupSegments | sql_tag_transform.py:95 | after the set de-duplication, the ", "-separated segments are pairwise distinct and are exactly the segments before it |
| Profiles.DistinctCostCenters | sql_tag_transform.py:95 | the de-duplication keeps the profiles and their ids, and de-duplicates every string |
| Profiles.DedupOfGroup | sql_tag_transform.py:92-95 | for a group's joined string, the de-duplication is the ", "-join of an order of the group's distinct cost strings |
| Profiles.CostString | sql_tag_transform.py:91 | `astype(str)` of a cost centre: the string itself, or "nan" when it is missing (a definition; Profiles.CostsOf states its use) |
| Profiles.CleanProfiles | sql_tag_transform.py:98-126 | the cleanup as written keeps each profile's id and makes each string tidy |
| Profiles.CleanProfilesCorrected | sql_tag_transform.py:98-126 | the same with line 98 corrected |
| Profiles.DropEmptyProfiles | sql_tag_transform.py:129 | keeps exactly the profiles with a non-empty string, in order |
| Profiles.BuildProfiles | sql_tag_transform.py:90-129 | as written, the output profiles are in ascending id order (so at most one per content id), come from ids of the enriched rows, and have a non-empty tidy cost-centre string |
| Profiles.BuildProfilesCorrected | sql_tag_transform.py:90-129 | with line 98 corrected, the output profiles are in ascending id order, come from ids of the enriched rows, and have a non-empty tidy cost-centre string |
| Profiles.CorrectedProfilesAgree | sql_tag_transform.py:90-129 | when every cost centre is a plain code (non-empty, with no comma, whitespace or "nan" inside), the profiles as written and as corrected are the same |
| Profiles.CleanedAgreesAt | sql_tag_transform.py:95-126 | the same for the profile at one position |
| Profiles.CleanEnumeration | sql_tag_transform.py:95-126 | as written, cleaning the ", "-join of pairwise distinct segments, each "nan" or a plain code (non-empty, with no comma, whitespace or "nan" inside), gives the join of the segments other than "nan", in order |
| Profiles.CorrectedEnumeration | sql_tag_transform.py:95-126 | the corrected cleanup of a ", "-join of segments, each a non-empty code without comma or whitespace, "nan" or the empty string, is the join of the codes, in order |
| Profiles.WrittenAgreesOnPlainCodes | sql_tag_transform.py:95-126 | take one ", "-join of pairwise distinct segments, each "nan" or a plain code (non-empty, with no comma, whitespace or "nan" inside). On it, the cleanup as written and the corrected one give the same string |
| Profiles.CleanOfEnumeration | sql_tag_transform.py:95-126 | for cost strings that are "nan" or plain codes (non-empty, with no comma, whitespace or "nan" inside), the string cleaned as written is empty exactly when every cost string is "nan"; otherwise its segments are distinct and are exactly the non-"nan" cost strings |
| Profiles.GroupCleaned | sql_tag_transform.py:90-126 | for a group whose cost centres are plain codes (non-empty, with no comma, whitespace or "nan" inside), a content id's string cleaned as written is empty exactly when all its cost centres are missing; otherwise its segments are distinct and are exactly its cost centres |
| Profiles.ProfileOfGroup | sql_tag_transform.py:90-129 | as written, and when the group's cost centres are plain codes (non-empty, with no comma, whitespace or "nan" inside), a content id gets a profile exactly when one of its rows has a cost centre, and that profile lists each of its cost centres exactly once |
| Profiles.AllMissingYieldsNoProfile | sql_tag_transform.py:90-129 | as written, a content id whose cost centres are all missing gets no profile |
| Rewrite.RunLen | sql_tag_transform.py:104-126 | the length of the longest leading run of a character class |
| Rewrite.ReplaceFixed | sql_tag_transform.py:98-123 | leftmost, non-overlapping substitution of a fixed pattern; it never lengthens the string when the replacement is no longer than the pattern |
| Rewrite.CollapseRun | sql_tag_transform.py:104-120 | greedy substitution of a lead followed by a run of at least `min` class characters; it never lengthens the string when the replacement is no longer than the shortest match |
| Rewrite.TrimEnd | sql_tag_transform.py:125-126 | the result is a prefix of the string; everything removed is in the class, and the last character kept is not |
| Rewrite.Trim | sql_tag_transform.py:101-126 | the result is the string minus its leading run of class characters and a trailing run; everything removed at either end is in the class, and neither end of the result is |
| Rewrite.ReplaceFixedIdentity | sql_tag_transform.py:98-123 | a fixed-pattern substitution changes nothing when the pattern matches nowhere |
| Rewrite.ReplaceFixedKeepsNoAdjacent | sql_tag_transform.py:111-123 | a fixed-pattern substitution keeps "no two adjacent characters of the class" under the stated conditions on the replacement |
| Rewrite.CollapseRunEstablishes | sql_tag_transform.py:104-109 | collapsing runs of two or more to one character leaves no two adjacent characters of the class |
| Rewrite.CollapseRunKeepsNoAdjacent | sql_tag_transform.py:104-120 | collapsing runs of one class keeps another class free of adjacent pairs |
| Rewrite.CollapseRunIdentity | sql_tag_transform.py:115-120 | collapsing runs of length two or more changes nothing when no two adjacent characters are in the class |
| Cleanup.DeleteNan | sql_tag_transform.py:98 | `str.replace('nan', '')`; never lengthens the string (Cleanup.NanInsideCodeIsDeleted shows what it does to codes) |
| Cleanup.StripSpaces | sql_tag_transform.py:101 | `str.strip()`; never lengthens the string (Rewrite.Trim states what is removed) |
| Cleanup.CollapseSpaces | sql_tag_transform.py:104-105 | `\s{2,}` to one space; never lengthens the string |
| Cleanup.CollapseCommas | sql_tag_transform.py:108-109 | `,{2,}` to one comma; never lengthens the string |
| Cleanup.MergeCommaPairs | sql_tag_transform.py:111-112 | `,\s,\s` to ", "; never lengthens the string |
| Cleanup.CollapseCommaTriples | sql_tag_transform.py:115-116 | `,{3,}` to one comma; never lengthens the string |
| Cleanup.CollapseCommaSpaceRuns | sql_tag_transform.py:119-120 | `,\s{3,}` to ", "; never lengthens the string |
| Cleanup.MergeCommaTriples | sql_tag_transform.py:122-123 | `,\s,\s,\s` to ", "; never lengthens the string |
| Cleanup.StripCommasAndSpaces | sql_tag_transform.py:125-126 | the leading and the trailing `[,\s]+` removed; never lengthens the string |
| Cleanup.CollapseSpacesSeparates | sql_tag_transform.py:104-105 | after `\s{2,}` the string has no two adjacent whitespace characters |
| Cleanup.CollapseCommasSeparates | sql_tag_transform.py:108-109 | after `,{2,}` the string has no two consecutive commas and still no two adjacent spaces |
| Cleanup.MergeCommaPairsKeepsSeparated | sql_tag_transform.py:111-112 | the `,\s,\s` pass keeps both properties |
| Cleanup.CollapseCommaTriplesNoOp | sql_tag_transform.py:115-116 | the `,{3,}` pass changes nothing once no two commas are adjacent |
| Cleanup.CollapseCommaSpaceRunsNoOp | sql_tag_transform.py:119-120 | the `,\s{3,}` pass changes nothing once no two whitespace characters are adjacent |
| Cleanup.MergeCommaTriplesKeepsSeparated | sql_tag_transform.py:122-123 | the `,\s,\s,\s` pass keeps both properties |
| Cleanup.StripKeepsSeparated | sql_tag_transform.py:125-126 | the final trim keeps both properties |
| Cleanup.CleanLines101To111 | sql_tag_transform.py:101-112 | after line 111 the string has no two consecutive commas and no two adjacent whitespace characters |
| Cleanup.LateCollapsesAreNoOps | sql_tag_transform.py:114-120 | on the output of lines 101-112, the passes at lines 115 and 119 change nothing |
| Cleanup.CleanFromLine101 | sql_tag_transform.py:101-126 | the result is tidy: no two consecutive commas, no two adjacent whitespace characters, and no comma or whitespace at either end |
| Cleanup.CleanCostCenter | sql_tag_transform.py:98-126 | the whole chain yields a tidy string |
| Cleanup.CleanNanIsEmpty | sql_tag_transform.py:98-126 | a lone "nan" cleans to the empty string |
| Cleanup.CleanKeepsCleanCodes | sql_tag_transform.py:98-126 | the ", "-join of non-empty codes with no comma, whitespace or "nan" inside comes through unchanged |
| Cleanup.CleanDropsMissingSegment | sql_tag_transform.py:98-126 | a "nan" segment between, before or after such codes is removed with its separator |
| Cleanup.NanInsideCodeIsDeleted | sql_tag_transform.py:98 | as written, the chain turns "Finance" into "Fice" |
| Cleanup.DropMissing | sql_tag_transform.py:98 | the segments kept are exactly those other than "nan" and the empty string, and there are no more of them than before |
| Cleanup.CleanCostCenterCorrected | sql_tag_transform.py:98-126 | the corrected chain, which drops whole "nan" segments and empty segments, yields a tidy string |
| Cleanup.CorrectedKeepsCodes | sql_tag_transform.py:98-126 | the corrected chain maps the ", "-join of non-empty codes without comma or whitespace, "nan"s and empty strings to the join of the codes, whatever letters the codes hold |
| Cleanup.CorrectedAgreesOnPlainCodes | sql_tag_transform.py:98-126 | for one missing ("nan") segment among plain codes (non-empty, with no comma, whitespace or "nan" inside), that is on `Join(xs + ["nan"] + ys, ", ")`, the written and the corrected chain agree |
| Cleanup.EmptyBesideMissingSurvives | sql_tag_transform.py:98-126 | as written, an empty cost centre next to a missing one leaves an empty segment: for non-empty lists of plain codes xs and ys, `Join(xs + ["nan", ""] + ys, ", ")` cleans to the join of xs, then ", , ", then the join of ys |
| Cleanup.CorrectedDropsEmptyBesideMissing | sql_tag_transform.py:98-126 | with line 98 corrected, the same string cleans to the join of the codes `xs + ys`: the missing and the empty segment both go |
| Cleanup.DeleteNanBeforeEmpty | sql_tag_transform.py:98 | line 98 turns ", nan, , " between two strings without "nan" into three separators in a row |
| Cleanup.MergeTripleSeparator | sql_tag_transform.py:111-112 | line 111 merges the first two of three separators between two ", "-joins of clean codes and leaves the third |
| Cleanup.CleanTripleSeparator | sql_tag_transform.py:101-126 | lines 101-126 turn three separators between two ", "-joins of clean codes into two, not one |
| Pipeline.TaggedRows | sql_tag_transform.py:40-69 | the stages from the delta filter to the de-duplication (a composition; Pipeline.LongOrigin and Pipeline.TaggedOf state what it keeps) |
| Pipeline.Enriched | sql_tag_transform.py:40-88 | the stages up to the null-id drop (a composition; Pipeline.TagRowsFromWide and Pipeline.WideRowsWritten state what it keeps) |
| Pipeline.TagRowsOf | sql_tag_transform.py:135 | the written tag rows are the enriched rows without their cost centre, row for row |
| Pipeline.Transform | sql_tag_transform.py:40-135 | as written: every written tag row comes from a non-empty, comma-free piece of a cell of a wide row not yet converted; every such wide row with a tag is written; the profiles are in ascending id order, only for written ids, with non-empty tidy strings |
| Pipeline.TagRowsFromWide | sql_tag_transform.py:40-88 | every enriched row traces back to a piece of a cell of an unconverted wide row |
| Pipeline.WideRowsWritten | sql_tag_transform.py:40-88 | every unconverted wide row with a non-empty piece reaches the written rows |
| Pipeline.ProfilesWritten | sql_tag_transform.py:90-135 | every profile's id is among the written tag rows |
| Pipeline.LongOrigin | sql_tag_transform.py:40-57 | every long row has a non-empty comma-free tag that is a piece of its category's cell in an unconverted wide row with its id |
| Pipeline.LongRowOf | sql_tag_transform.py:40-57 | every non-empty piece of an unconverted wide row becomes a long row |
| Pipeline.TaggedOf | sql_tag_transform.py:66-69 | the merge and de-duplication keep a row for the content id of every long row |
| Pipeline.OuterJoinKeepsRow | sql_tag_transform.py:78-88 | every de-duplicated row survives the outer merge and the null-id drop |
| Pipeline.RerunWritesSubset | sql_tag_transform.py:40-135 | a run with more ids marked converted writes a subset of the content ids, and none of the marked ones |
| Pipeline.SecondRunWritesNothing | sql_tag_transform.py:40-135 | once the written content ids are recorded as converted, a second run writes no tag rows and no profiles |
| Pipeline.ProfileFromLinks | sql_tag_transform.py:78-129 | as written, and when every linked cost centre is a plain code (non-empty, with no comma, whitespace or "nan" inside), a content id gets a profile exactly when a profile link matches one of its tag GUIDs, and that profile lists each linked cost centre exactly once |
| Pipeline.EnrichedCosts | sql_tag_transform.py:78-91 | for any cost-centre strings, the cost centres of a content id after the outer merge are exactly the links matching its tag GUIDs, and it has one exactly when such a link exists |
| Pipeline.EnrichedPlain | sql_tag_transform.py:78-91 | when every linked cost centre is a plain code (non-empty, with no comma, whitespace or "nan" inside), so is every cost centre of a group after the outer merge |
| Pipeline.RepeatedTagRowWritten | sql_tag_transform.py:69-141 | as written, a tag row whose GUID is linked to two different cost centres is written twice, so the written rows repeat a `(content_id, tag_guid)` pair |
| Pipeline.TransformRepeatsTagRow | sql_tag_transform.py:40-141 | the same for the whole transform: its written tag rows are then not unique on `(content_id, tag_guid)` |
| Pipeline.IndexOfRow | sql_tag_transform.py:78-88 | a row of the enriched frame has a position in it |
| Pipeline.DistinctTagRows | sql_tag_transform.py:69-141 | corrected: the written rows de-duplicated on `(content_id, tag_guid)`; no pair appears twice, every pair written before still appears, and no other row appears |
| Pipeline.DistinctTagRowsKeepIds | sql_tag_transform.py:69-141 | the de-duplicated rows cover exactly the content ids of the rows as written |

## Left out

- The credential loading, the engine, the four SQL reads, the Excel backup, the `to_sql` append, the per-row UPDATE loop and the connection teardown (lines 1-37, 60-75 and 137-152). These are I/O. The tables read are parameters of `Pipeline.Transform`, and its result is what would be written.
- Pandas dtypes. `content_id` becomes a float after the outer merge and an int again at line 133. Ids are `int` throughout, and missing values are `Option`.
- The row order of the outer merge. Pandas may sort the join keys; the model lists the left rows first, in order, then the right-only rows. The contracts about profiles hold whatever that order is. The right-only rows are dropped at line 82. The ", "-join at line 92 follows the row order, but the `set` at line 95 is enumerated in the order `pick` gives, and every result is proved for any order `pick` can give. The tag rows written at lines 138 and 141 do depend on it. `Pipeline.Transform` lists them in the model's order, not in pandas' merge order; its contract speaks of which rows are written, not of their order.
- A NULL `guid` in `ref_content_tags`. `LookupRow.guid` is a string, so it cannot be represented. pandas would carry a NaN GUID through the left merge at line 66, and then treat it like an unmatched tag at lines 69 and 78.
- A NULL `cost_center` stored in `tag_profiles`. pandas would print it as "None", not "nan". The model assumes cost centres read from the database are strings.
- Pandas 3 copy-on-write, which turns the chained `inplace=True` replaces at lines 105-126 into no-ops. The model follows earlier pandas, where they take effect.
- The `value_vars` arguments at lines 43 and 53 slice rows of the frame, not columns. In practice they name all the columns, so the melts run over the 14 categories and over every split position.
- The concrete iteration order of Python's `set` at line 95. It is the parameter `pick`; every result is proved for any order.
- Profiles.AggregateRoundTrip: requires that no cost centre contains ", ". For a centre that does, the split at line 95 breaks it into several segments.
- Pipeline.Transform: does not state that the written tag rows are free of duplicates, because as written they are not. The outer merge at line 78 repeats a tag row once per matching cost centre, and line 135 only drops the cost-centre column (see "Findings").
- Pipeline.ProfileFromLinks: requires every linked cost centre to be a plain code: non-empty, with no comma, no whitespace and no "nan" inside. Line 98 mangles a code with "nan" inside (see "Findings"). The cleanup at lines 101-126 rewrites commas and runs of whitespace inside a code; single interior spaces, as in "North America", would survive it, but the proofs are stated for codes without any whitespace. A code "nan" cannot be told apart from a missing one. An empty cost centre is not a plain code either: beside a missing one it leaves an empty segment in the profile (see "Findings").
- Profiles.ProfileOfGroup: has the same requirement on the cost centres of the group, for the same reason; so do Profiles.GroupCleaned, Profiles.CleanOfEnumeration and Pipeline.EnrichedPlain, whose only statement it is.
- Profiles.BuildProfilesCorrected: its profile-by-profile content is stated only through Profiles.CorrectedProfilesAgree, that is for plain codes. The string-level properties of the corrected chain for any codes are Cleanup.CorrectedKeepsCodes.

## Findings

| source | as written | input that shows it | evidently intended | confidence | as-written member | corrected member |
|---|---|---|---|---|---|---|
| sql_tag_transform.py:98 | `str.replace('nan', '')` deletes every occurrence of "nan", including inside cost-centre codes | the cost centre "Finance" becomes "Fice" | remove only whole segments that stand for no cost centre ("nan" and empty ones) | not executed | Cleanup.NanInsideCodeIsDeleted | Cleanup.CleanCostCenterCorrected |
| sql_tag_transform.py:78-141 | the outer merge repeats a tag row once per linked cost centre after line 69 de-duplicated `(content_id, guid)`, and line 141 appends the repeats | one tag row whose GUID has two cost centres in `tag_profiles` | append each `(content_id, tag_guid)` once, as the de-duplication at line 69 intends | not executed | Pipeline.RepeatedTagRowWritten | Pipeline.DistinctTagRows |
| sql_tag_transform.py:98-112 | with an empty cost centre beside a missing one, line 98 leaves three separators in a row, and line 111 merges only two of them, so an empty segment survives | cost centres A and B plus a missing and an empty one, met by the `set` in the order A, nan, "", B: the profile is "A, , B" | drop every segment that stands for no cost centre, giving "A, B" | not executed | Cleanup.EmptyBesideMissingSurvives | Cleanup.CorrectedDropsEmptyBesideMissing |
