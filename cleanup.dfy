/**
 * The cleanup of a profile's cost-centre string, lines 98-126 of
 * sql_tag_transform.py: nine substitutions applied one after the other.
 */
module Cleanup {
  import opened Text
  import opened Rewrite

  const NanPattern: seq<Atom> := [Lit('n'), Lit('a'), Lit('n')]
  /** `,\s,\s` */
  const PairPattern: seq<Atom> := [Lit(','), Space, Lit(','), Space]
  /** `,\s,\s,\s` */
  const TriplePattern: seq<Atom> := [Lit(','), Space, Lit(','), Space, Lit(','), Space]

  /** Line 98: `str.replace('nan', '')`. */
  function DeleteNan(s: string): (r: string)
    ensures |r| <= |s|
  {
    ReplaceFixed(s, NanPattern, "")
  }

  /** Line 101: `str.strip()`. */
  function StripSpaces(s: string): (r: string)
    ensures |r| <= |s|
  {
    Trim(s, Space)
  }

  /** Line 104: `\s{2,}` becomes " ". */
  function CollapseSpaces(s: string): (r: string)
    ensures |r| <= |s|
  {
    CollapseRun(s, [], Space, 2, " ")
  }

  /** Line 108: `,{2,}` becomes ",". */
  function CollapseCommas(s: string): (r: string)
    ensures |r| <= |s|
  {
    CollapseRun(s, [], Lit(','), 2, ",")
  }

  /** Line 111: `,\s,\s` becomes ", ". */
  function MergeCommaPairs(s: string): (r: string)
    ensures |r| <= |s|
  {
    ReplaceFixed(s, PairPattern, ", ")
  }

  /** Line 115: `,{3,}` becomes ",". */
  function CollapseCommaTriples(s: string): (r: string)
    ensures |r| <= |s|
  {
    CollapseRun(s, [], Lit(','), 3, ",")
  }

  /** Line 119: `,\s{3,}` becomes ", ". */
  function CollapseCommaSpaceRuns(s: string): (r: string)
    ensures |r| <= |s|
  {
    CollapseRun(s, [Lit(',')], Space, 3, ", ")
  }

  /** Line 122: `,\s,\s,\s` becomes ", ". */
  function MergeCommaTriples(s: string): (r: string)
    ensures |r| <= |s|
  {
    ReplaceFixed(s, TriplePattern, ", ")
  }

  /** Line 125: `(^[,\s]+)|([,\s]+$)` becomes "": the leading and trailing runs of commas and whitespace go. */
  function StripCommasAndSpaces(s: string): (r: string)
    ensures |r| <= |s|
  {
    Trim(s, CommaOrSpace)
  }

  /** Neither two commas nor two whitespace characters stand next to each other. */
  predicate Separated(s: string) {
    NoAdjacent(s, Lit(',')) && NoAdjacent(s, Space)
  }

  /** What the cleanup guarantees: separated, and empty or without a comma or whitespace at either end. */
  predicate Tidy(s: string) {
    Separated(s) && (s == [] || (!Matches(CommaOrSpace, s[0]) && !Matches(CommaOrSpace, s[|s| - 1])))
  }

  // ------------------------------------------------ one lemma per pass

  lemma CollapseSpacesSeparates(s: string)
    ensures NoAdjacent(CollapseSpaces(s), Space)
  {
    CollapseRunEstablishes(s, Space, ' ');
  }

  /** After line 108 no two commas are adjacent, and whitespace that was kept apart stays apart. */
  lemma CollapseCommasSeparates(s: string)
    ensures NoAdjacent(CollapseCommas(s), Lit(','))
    ensures NoAdjacent(s, Space) ==> NoAdjacent(CollapseCommas(s), Space)
  {
    CollapseRunEstablishes(s, Lit(','), ',');
    if NoAdjacent(s, Space) {
      CollapseRunKeepsNoAdjacent(s, Lit(','), 2, ',', Space);
    }
  }

  lemma MergeCommaPairsKeepsSeparated(s: string)
    requires Separated(s)
    ensures Separated(MergeCommaPairs(s))
  {
    ReplaceFixedKeepsNoAdjacent(s, PairPattern, ", ", Lit(','));
    ReplaceFixedKeepsNoAdjacent(s, PairPattern, ", ", Space);
  }

  /** Line 115 changes nothing once no two commas are adjacent. */
  lemma CollapseCommaTriplesNoOp(s: string)
    requires NoAdjacent(s, Lit(','))
    ensures CollapseCommaTriples(s) == s
  {
    CollapseRunIdentity(s, [], Lit(','), 3, ",");
  }

  /** Line 119 changes nothing once no two whitespace characters are adjacent. */
  lemma CollapseCommaSpaceRunsNoOp(s: string)
    requires NoAdjacent(s, Space)
    ensures CollapseCommaSpaceRuns(s) == s
  {
    CollapseRunIdentity(s, [Lit(',')], Space, 3, ", ");
  }

  lemma MergeCommaTriplesKeepsSeparated(s: string)
    requires Separated(s)
    ensures Separated(MergeCommaTriples(s))
  {
    ReplaceFixedKeepsNoAdjacent(s, TriplePattern, ", ", Lit(','));
    ReplaceFixedKeepsNoAdjacent(s, TriplePattern, ", ", Space);
  }

  lemma StripKeepsSeparated(s: string)
    requires Separated(s)
    ensures Separated(StripCommasAndSpaces(s))
  {
    TrimKeepsNoAdjacent(s, CommaOrSpace, Lit(','));
    TrimKeepsNoAdjacent(s, CommaOrSpace, Space);
  }

  // ------------------------------------------------ the chain

  /** Lines 101-111: the passes after the "nan" deletion and before the first one that can no longer change anything. */
  function CleanLines101To111(t: string): (r: string)
    ensures Separated(r)
  {
    var spaced := CollapseSpaces(StripSpaces(t));
    CollapseSpacesSeparates(StripSpaces(t));
    CollapseCommasSeparates(spaced);
    MergeCommaPairsKeepsSeparated(CollapseCommas(spaced));
    MergeCommaPairs(CollapseCommas(spaced))
  }

  /** Lines 115-125, the last four passes. */
  function CleanLines115To125(u: string): string {
    StripCommasAndSpaces(MergeCommaTriples(CollapseCommaSpaceRuns(CollapseCommaTriples(u))))
  }

  /** Lines 101-126: every pass after the "nan" deletion. */
  function CleanFromLine101(t: string): (r: string)
    ensures Tidy(r)
  {
    var u := CleanLines101To111(t);
    CollapseCommaTriplesNoOp(u);
    CollapseCommaSpaceRunsNoOp(u);
    MergeCommaTriplesKeepsSeparated(u);
    StripKeepsSeparated(MergeCommaTriples(u));
    CleanLines115To125(u)
  }

  /**
   * Lines 98-126, all nine passes in order.  The result has no two adjacent
   * commas, no two adjacent whitespace characters, and is either empty or
   * starts and ends with a character that is neither a comma nor whitespace.
   */
  function CleanCostCenter(s: string): (r: string)
    ensures Tidy(r)
  {
    CleanFromLine101(DeleteNan(s))
  }

  /**
   * The passes at lines 115 and 119 never change the string they receive:
   * the chain is the same without them.
   */
  lemma LateCollapsesAreNoOps(t: string)
    ensures CollapseCommaTriples(CleanLines101To111(t)) == CleanLines101To111(t)
    ensures CollapseCommaSpaceRuns(CleanLines101To111(t)) == CleanLines101To111(t)
    ensures CleanFromLine101(t) == StripCommasAndSpaces(MergeCommaTriples(CleanLines101To111(t)))
  {
    CollapseCommaTriplesNoOp(CleanLines101To111(t));
    CollapseCommaSpaceRunsNoOp(CleanLines101To111(t));
  }

  /** A cost-centre string consisting only of the missing-value text is cleaned to nothing. */
  lemma CleanNanIsEmpty()
    ensures CleanCostCenter("nan") == ""
  {
    assert MatchesAt("nan", NanPattern);
    assert "nan"[3..] == "";
    assert DeleteNan("nan") == "";
  }

  // ------------------------------------------------ strings already clean

  /**
   * The shape of a ", "-join of clean codes: non-empty, no comma or whitespace
   * at either end, every comma followed by one space and then a character that
   * is neither, and every whitespace character a space right after a comma.
   */
  predicate JoinShaped(s: string) {
    && s != []
    && !Matches(CommaOrSpace, s[0]) && !Matches(CommaOrSpace, s[|s| - 1])
    && (forall i :: 0 <= i < |s| && s[i] == ',' ==> i + 2 < |s| && s[i + 1] == ' ' && !Matches(CommaOrSpace, s[i + 2]))
    && (forall i :: 0 <= i < |s| && IsSpace(s[i]) ==> 0 < i && s[i - 1] == ',')
  }

  /** A cost-centre code that survives the cleanup: non-empty, with no comma and no whitespace. */
  predicate CleanCode(c: string) {
    c != [] && forall k :: 0 <= k < |c| ==> !Matches(CommaOrSpace, c[k])
  }

  lemma JoinShapedSeparated(s: string)
    requires JoinShaped(s)
    ensures Separated(s)
  {
    forall i | 0 <= i < |s| - 1 ensures !(s[i] == ',' && s[i + 1] == ',') {
      if s[i] == ',' {
        assert s[i + 1] == ' ';
      }
    }
    forall i | 0 <= i < |s| - 1 ensures !(IsSpace(s[i]) && IsSpace(s[i + 1])) {
      if IsSpace(s[i + 1]) {
        assert s[i] == ',';
      }
    }
  }

  lemma JoinShapedNoPairs(s: string, pat: seq<Atom>)
    requires JoinShaped(s) && |pat| >= 3 && pat[0] == Lit(',') && pat[2] == Lit(',')
    ensures NowhereMatches(s, pat)
  {
    forall i | 0 <= i < |s| ensures !MatchesAt(s[i..], pat) {
      if s[i] == ',' && i + 2 < |s| {
        assert s[i..][2] == s[i + 2];
      }
    }
  }

  lemma Lines101To111Identity(t: string)
    requires JoinShaped(t)
    ensures CleanLines101To111(t) == t
  {
    JoinShapedSeparated(t);
    TrimIdentity(t, Space);
    CollapseRunIdentity(t, [], Space, 2, " ");
    CollapseRunIdentity(t, [], Lit(','), 2, ",");
    JoinShapedNoPairs(t, PairPattern);
    ReplaceFixedIdentity(t, PairPattern, ", ");
  }

  lemma Lines115To125Identity(u: string)
    requires JoinShaped(u)
    ensures CleanLines115To125(u) == u
  {
    JoinShapedSeparated(u);
    CollapseCommaTriplesNoOp(u);
    CollapseCommaSpaceRunsNoOp(u);
    JoinShapedNoPairs(u, TriplePattern);
    ReplaceFixedIdentity(u, TriplePattern, ", ");
    TrimIdentity(u, CommaOrSpace);
  }

  /** Every pass after the "nan" deletion leaves a ", "-join of clean codes as it is. */
  lemma CleanFromLine101Identity(t: string)
    requires JoinShaped(t)
    ensures CleanFromLine101(t) == t
  {
    Lines101To111Identity(t);
    Lines115To125Identity(t);
  }

  /** Joining clean codes with ", " gives a string of that shape. */
  lemma {:induction false} JoinOfCleanCodes(codes: seq<string>)
    requires codes != [] && forall c :: c in codes ==> CleanCode(c)
    ensures JoinShaped(Join(codes, ", "))
    decreases |codes|
  {
    var c := codes[0];
    assert c in codes;
    if |codes| == 1 {
      assert Join(codes, ", ") == c;
    } else {
      var rest := Join(codes[1..], ", ");
      JoinOfCleanCodes(codes[1..]);
      var s := Join(codes, ", ");
      assert s == c + ", " + rest;
      assert s[|c|] == ',' && s[|c| + 1] == ' ' && s[|c| + 2] == rest[0];
      forall i | 0 <= i < |s| && s[i] == ',' ensures i + 2 < |s| && s[i + 1] == ' ' && !Matches(CommaOrSpace, s[i + 2]) {
        if i > |c| + 1 {
          assert s[i] == rest[i - |c| - 2] && s[i + 1] == rest[i + 1 - |c| - 2] && s[i + 2] == rest[i + 2 - |c| - 2];
        }
      }
      forall i | 0 <= i < |s| && IsSpace(s[i]) ensures 0 < i && s[i - 1] == ',' {
        if i > |c| + 2 {
          assert s[i] == rest[i - |c| - 2] && s[i - 1] == rest[i - 1 - |c| - 2];
        }
      }
      assert s[|s| - 1] == rest[|rest| - 1];
    }
  }

  /** No "nan" appears in a ", "-join of clean codes none of which holds "nan": it cannot straddle a separator. */
  lemma {:induction false} NoNanInJoin(codes: seq<string>)
    requires codes != []
    requires forall c :: c in codes ==> CleanCode(c) && NowhereMatches(c, NanPattern)
    ensures NowhereMatches(Join(codes, ", "), NanPattern)
    decreases |codes|
  {
    var c := codes[0];
    assert c in codes;
    if |codes| > 1 {
      var rest := Join(codes[1..], ", ");
      NoNanInJoin(codes[1..]);
      var s := Join(codes, ", ");
      assert s == c + ", " + rest;
      forall i | 0 <= i < |s| ensures !MatchesAt(s[i..], NanPattern) {
        if i + 3 <= |c| {
          assert forall k :: 0 <= k < 3 ==> s[i..][k] == c[i..][k];
        } else if i >= |c| + 2 {
          assert s[i..] == rest[i - |c| - 2..];
        } else if i < |c| {
          assert s[i..][|c| - i] == ',';
        } else {
          assert s[i] == ',' || s[i] == ' ';
        }
      }
    }
  }

  /** The cleanup leaves a ", "-join of clean codes holding no "nan" exactly as it is. */
  lemma CleanKeepsCleanCodes(codes: seq<string>)
    requires codes != []
    requires forall c :: c in codes ==> CleanCode(c) && NowhereMatches(c, NanPattern)
    ensures CleanCostCenter(Join(codes, ", ")) == Join(codes, ", ")
  {
    var s := Join(codes, ", ");
    NoNanInJoin(codes);
    ReplaceFixedIdentity(s, NanPattern, "");
    JoinOfCleanCodes(codes);
    CleanFromLine101Identity(s);
  }

  // ------------------------------------------------ a missing cost centre

  /** Cost-centre codes the cleanup keeps whole: clean, and none holding "nan". */
  predicate PlainCode(c: string) {
    CleanCode(c) && NowhereMatches(c, NanPattern)
  }

  predicate PlainCodes(codes: seq<string>) {
    forall c :: c in codes ==> PlainCode(c)
  }

  lemma PlainIsNotNan(c: string)
    requires PlainCode(c)
    ensures c != "nan"
  {
    assert c[0..] == c && !MatchesAt(c[0..], NanPattern);
    assert MatchesAt("nan", NanPattern);
  }

  /** "nan" starts neither inside `x` nor in the ", " that follows it. */
  lemma NoNanBeforeSeparator(x: string, tail: string)
    requires NowhereMatches(x, NanPattern) && |tail| >= 2 && tail[0] == ',' && tail[1] == ' '
    ensures forall i :: 0 <= i < |x| + 2 ==> !MatchesAt((x + tail)[i..], NanPattern)
  {
    var s := x + tail;
    forall i | 0 <= i < |x| + 2 ensures !MatchesAt(s[i..], NanPattern) {
      if i + 3 <= |x| {
        assert forall k :: 0 <= k < 3 ==> s[i..][k] == x[i..][k];
      } else if i < |x| {
        assert s[i..][|x| - i] == ',';
      } else {
        assert s[i..][0] == tail[i - |x|];
      }
    }
  }

  /** Deleting "nan" from "nan, " followed by a string holding no "nan" leaves the separator and that string. */
  lemma DeleteNanLeading(y: string)
    requires NowhereMatches(y, NanPattern)
    ensures DeleteNan("nan" + ", " + y) == ", " + y
  {
    var s := "nan" + ", " + y;
    assert MatchesAt(s, NanPattern);
    assert s[3..] == ", " + y;
    var t := ", " + y;
    assert t[0..][0] == ',' && t[1..][0] == ' ';
    ReplaceFixedSkip(", ", y, NanPattern, "");
    ReplaceFixedIdentity(y, NanPattern, "");
  }

  /** Pairs of separators cannot start inside a ", "-join of clean codes, whatever follows it. */
  lemma NoPairsInPrefix(x: string, tail: string, pat: seq<Atom>)
    requires JoinShaped(x) && |pat| >= 3 && pat[0] == Lit(',') && pat[2] == Lit(',')
    ensures forall i :: 0 <= i < |x| ==> !MatchesAt((x + tail)[i..], pat)
  {
    var s := x + tail;
    forall i | 0 <= i < |x| ensures !MatchesAt(s[i..], pat) {
      if x[i] == ',' {
        assert s[i..][2] == x[i + 2];
      } else {
        assert s[i..][0] == x[i];
      }
    }
  }

  /** Lines 104-111 change nothing in a separated string in which `,\s,\s` matches nowhere. */
  lemma Lines104To111Unchanged(t: string)
    requires Separated(t) && NowhereMatches(t, PairPattern)
    ensures MergeCommaPairs(CollapseCommas(CollapseSpaces(t))) == t
  {
    CollapseRunIdentity(t, [], Space, 2, " ");
    CollapseRunIdentity(t, [], Lit(','), 2, ",");
    ReplaceFixedIdentity(t, PairPattern, ", ");
  }

  /** Lines 115-122 change nothing in a separated string in which `,\s,\s,\s` matches nowhere; only line 125 acts. */
  lemma Lines115To125Strips(u: string)
    requires Separated(u) && NowhereMatches(u, TriplePattern)
    ensures CleanLines115To125(u) == StripCommasAndSpaces(u)
  {
    CollapseCommaTriplesNoOp(u);
    CollapseCommaSpaceRunsNoOp(u);
    ReplaceFixedIdentity(u, TriplePattern, ", ");
  }

  lemma LeadingSeparatorShape(y: string)
    requires JoinShaped(y)
    ensures Separated(", " + y)
    ensures NowhereMatches(", " + y, PairPattern) && NowhereMatches(", " + y, TriplePattern)
  {
    var t := ", " + y;
    JoinShapedSeparated(y);
    NoAdjacentConcat(", ", y, Space);
    NoAdjacentConcat(", ", y, Lit(','));
    forall pat | pat == PairPattern || pat == TriplePattern ensures NowhereMatches(t, pat) {
      JoinShapedNoPairs(y, pat);
      forall i | 0 <= i < |t| ensures !MatchesAt(t[i..], pat) {
        if i >= 2 {
          assert t[i..] == y[i - 2..];
        } else {
          assert t[i..][2 - i] == y[0];
        }
      }
    }
  }

  lemma StripLeadingSeparator(y: string)
    requires JoinShaped(y)
    ensures StripCommasAndSpaces(", " + y) == y
  {
    var t := ", " + y;
    assert t[1..] == " " + y && t[1..][1..] == y;
    assert RunLen(t, CommaOrSpace) == 2;
    assert t[2..] == y;
  }

  /** A missing cost centre at the front: lines 101-126 drop the ", " it leaves behind. */
  lemma CleanAfterLeadingSeparator(y: string)
    requires JoinShaped(y)
    ensures CleanFromLine101(", " + y) == y
  {
    var t := ", " + y;
    LeadingSeparatorShape(y);
    assert t[|t| - 1] == y[|y| - 1];
    TrimIdentity(t, Space);
    Lines104To111Unchanged(t);
    Lines115To125Strips(t);
    StripLeadingSeparator(y);
  }

  lemma TrailingCommaShape(x: string)
    requires JoinShaped(x)
    ensures Separated(x + ",")
    ensures NowhereMatches(x + ",", PairPattern) && NowhereMatches(x + ",", TriplePattern)
  {
    var u := x + ",";
    JoinShapedSeparated(x);
    NoAdjacentConcat(x, ",", Space);
    NoAdjacentConcat(x, ",", Lit(','));
    forall pat | pat == PairPattern || pat == TriplePattern ensures NowhereMatches(u, pat) {
      NoPairsInPrefix(x, ",", pat);
      assert |u[|x|..]| == 1;
    }
  }

  lemma StripSpacesTrailing(x: string)
    requires JoinShaped(x)
    ensures StripSpaces(x + ", ") == x + ","
  {
    var t := x + ", ";
    var u := x + ",";
    assert t[0] == x[0];
    assert RunLen(t, Space) == 0;
    assert t[0..] == t;
    assert t[..|t| - 1] == u;
    assert TrimEnd(u, Space) == u;
  }

  lemma StripTrailingComma(x: string)
    requires JoinShaped(x)
    ensures StripCommasAndSpaces(x + ",") == x
  {
    var u := x + ",";
    assert u[0] == x[0];
    assert RunLen(u, CommaOrSpace) == 0;
    assert u[0..] == u;
    assert u[..|u| - 1] == x;
    assert TrimEnd(x, CommaOrSpace) == x;
  }

  /** A missing cost centre at the back: lines 101-126 drop the ", " it leaves behind. */
  lemma CleanBeforeTrailingSeparator(x: string)
    requires JoinShaped(x)
    ensures CleanFromLine101(x + ", ") == x
  {
    StripSpacesTrailing(x);
    TrailingCommaShape(x);
    Lines104To111Unchanged(x + ",");
    Lines115To125Strips(x + ",");
    StripTrailingComma(x);
  }

  lemma DoubleSeparatorShape(x: string, y: string)
    requires JoinShaped(x) && JoinShaped(y)
    ensures Separated(x + ", , " + y)
    ensures StripSpaces(x + ", , " + y) == x + ", , " + y
  {
    var mid := ", , " + y;
    var t := x + mid;
    assert x + ", , " + y == t;
    JoinShapedSeparated(x);
    JoinShapedSeparated(y);
    NoAdjacentConcat(", , ", y, Space);
    NoAdjacentConcat(", , ", y, Lit(','));
    NoAdjacentConcat(x, mid, Space);
    NoAdjacentConcat(x, mid, Lit(','));
    assert t[0] == x[0] && t[|t| - 1] == y[|y| - 1];
    TrimIdentity(t, Space);
  }

  /** Line 111 turns the two separators a missing middle segment leaves into one. */
  lemma MergeDoubleSeparator(x: string, y: string)
    requires JoinShaped(x) && JoinShaped(y)
    ensures MergeCommaPairs(x + ", , " + y) == x + ", " + y
  {
    var mid := ", , " + y;
    assert x + ", , " + y == x + mid;
    NoPairsInPrefix(x, mid, PairPattern);
    ReplaceFixedSkip(x, mid, PairPattern, ", ");
    MergePairAtFront(y);
    assert x + (", " + y) == x + ", " + y;
  }

  lemma MergePairAtFront(y: string)
    requires JoinShaped(y)
    ensures MergeCommaPairs(", , " + y) == ", " + y
  {
    var mid := ", , " + y;
    assert MatchesAt(mid, PairPattern);
    assert mid[4..] == y;
    JoinShapedNoPairs(y, PairPattern);
    ReplaceFixedIdentity(y, PairPattern, ", ");
  }

  /** A missing cost centre between two codes: line 111 merges the two separators it leaves into one. */
  lemma CleanDoubleSeparator(x: string, y: string)
    requires JoinShaped(x) && JoinShaped(y) && JoinShaped(x + ", " + y)
    ensures CleanFromLine101(x + ", , " + y) == x + ", " + y
  {
    var t := x + ", , " + y;
    DoubleSeparatorShape(x, y);
    CollapseRunIdentity(t, [], Space, 2, " ");
    CollapseRunIdentity(t, [], Lit(','), 2, ",");
    MergeDoubleSeparator(x, y);
    Lines115To125Identity(x + ", " + y);
  }

  /** Deleting "nan" from a trailing ", nan" after a string holding no "nan". */
  lemma DeleteNanTrailing(x: string)
    requires NowhereMatches(x, NanPattern)
    ensures DeleteNan(x + ", nan") == x + ", "
  {
    NoNanBeforeSeparator(x, ", nan");
    assert x + ", nan" == (x + ", ") + "nan";
    ReplaceFixedSkip(x + ", ", "nan", NanPattern, "");
    assert MatchesAt("nan", NanPattern) && "nan"[3..] == "";
  }

  /** Deleting "nan" from a middle ", nan, " between two strings holding no "nan". */
  lemma DeleteNanMiddle(x: string, y: string)
    requires NowhereMatches(x, NanPattern) && NowhereMatches(y, NanPattern)
    ensures DeleteNan(x + ", nan, " + y) == x + ", , " + y
  {
    var rest := "nan" + ", " + y;
    NoNanBeforeSeparator(x, ", " + rest);
    assert x + (", " + rest) == (x + ", ") + rest;
    assert x + ", nan, " + y == (x + ", ") + rest;
    ReplaceFixedSkip(x + ", ", rest, NanPattern, "");
    DeleteNanLeading(y);
    assert (x + ", ") + (", " + y) == x + ", , " + y;
  }

  lemma CleanDropsLeadingMissing(ys: seq<string>)
    requires ys != [] && PlainCodes(ys)
    ensures CleanCostCenter(Join(["nan"] + ys, ", ")) == Join(ys, ", ")
  {
    var y := Join(ys, ", ");
    JoinCons("nan", ys, ", ");
    NoNanInJoin(ys);
    DeleteNanLeading(y);
    JoinOfCleanCodes(ys);
    CleanAfterLeadingSeparator(y);
  }

  lemma CleanDropsTrailingMissing(xs: seq<string>)
    requires xs != [] && PlainCodes(xs)
    ensures CleanCostCenter(Join(xs + ["nan"], ", ")) == Join(xs, ", ")
  {
    var x := Join(xs, ", ");
    JoinConcat(xs, ["nan"], ", ");
    assert Join(["nan"], ", ") == "nan";
    assert x + ", " + "nan" == x + ", nan";
    NoNanInJoin(xs);
    DeleteNanTrailing(x);
    JoinOfCleanCodes(xs);
    CleanBeforeTrailingSeparator(x);
  }

  lemma CleanDropsMiddleMissing(xs: seq<string>, ys: seq<string>)
    requires xs != [] && ys != [] && PlainCodes(xs) && PlainCodes(ys)
    ensures CleanCostCenter(Join(xs + ["nan"] + ys, ", ")) == Join(xs + ys, ", ")
  {
    var x, y := Join(xs, ", "), Join(ys, ", ");
    assert xs + ["nan"] + ys == xs + (["nan"] + ys);
    JoinConcat(xs, ["nan"] + ys, ", ");
    JoinCons("nan", ys, ", ");
    assert x + ", " + ("nan" + ", " + y) == x + ", nan, " + y;
    JoinConcat(xs, ys, ", ");
    NoNanInJoin(xs);
    NoNanInJoin(ys);
    DeleteNanMiddle(x, y);
    JoinOfCleanCodes(xs);
    JoinOfCleanCodes(ys);
    JoinOfCleanCodes(xs + ys);
    CleanDoubleSeparator(x, y);
  }

  /**
   * A missing cost centre, which reaches the cleanup as the segment "nan", is
   * removed together with one separator wherever it stands, and the codes
   * around it come out exactly as they went in.
   */
  lemma CleanDropsMissingSegment(xs: seq<string>, ys: seq<string>)
    requires PlainCodes(xs) && PlainCodes(ys)
    ensures CleanCostCenter(Join(xs + ["nan"] + ys, ", ")) == Join(xs + ys, ", ")
  {
    if xs == [] && ys == [] {
      assert xs + ["nan"] + ys == ["nan"];
      CleanNanIsEmpty();
    } else if xs == [] {
      assert xs + ["nan"] + ys == ["nan"] + ys && xs + ys == ys;
      CleanDropsLeadingMissing(ys);
    } else if ys == [] {
      assert xs + ["nan"] + ys == xs + ["nan"] && xs + ys == xs;
      CleanDropsTrailingMissing(xs);
    } else {
      CleanDropsMiddleMissing(xs, ys);
    }
  }

  // ------------------------------------------------ "nan" inside a code

  lemma DeleteNanInFinance()
    ensures DeleteNan("Finance") == "Fice"
  {
    var a, b := "Fi", "nance";
    assert a + b == "Finance";
    forall i | 0 <= i < |a| ensures !MatchesAt((a + b)[i..], NanPattern) {
      assert (a + b)[i..][0] == a[i];
    }
    ReplaceFixedSkip(a, b, NanPattern, "");
    DeleteNanInNance();
    assert a + "ce" == "Fice";
  }

  lemma DeleteNanInNance()
    ensures ReplaceFixed("nance", NanPattern, "") == "ce"
  {
    var b := "nance";
    assert MatchesAt(b, NanPattern);
    assert b[3..] == "ce";
    NoNanInCe();
  }

  lemma NoNanInCe()
    ensures ReplaceFixed("ce", NanPattern, "") == "ce"
  {
    assert ("ce" + "")[0..][0] == 'c' && ("ce" + "")[1..][0] == 'e';
    ReplaceFixedSkip("ce", "", NanPattern, "");
    assert "ce" + "" == "ce";
  }

  /** Line 98 deletes "nan" wherever it occurs, also inside a real cost-centre name. */
  lemma NanInsideCodeIsDeleted()
    ensures CleanCostCenter("Finance") == "Fice"
  {
    DeleteNanInFinance();
    assert CleanCode("Fice");
    JoinOfCleanCodes(["Fice"]);
    assert Join(["Fice"], ", ") == "Fice";
    CleanFromLine101Identity("Fice");
  }

  /** The segments that name a cost centre: neither the missing-value text "nan" nor empty. */
  function DropMissing(segs: seq<string>): (r: seq<string>)
    ensures forall c :: c in r <==> c in segs && c != "nan" && c != ""
    ensures |r| <= |segs|
  {
    if segs == [] then []
    else (if segs[0] == "nan" || segs[0] == "" then [] else [segs[0]]) + DropMissing(segs[1..])
  }

  /**
   * Lines 98-126 with line 98 removing the segments of the ", "-joined string
   * that stand for no cost centre ("nan" and empty ones) instead of every
   * occurrence of the three letters.
   */
  function CleanCostCenterCorrected(s: string): (r: string)
    ensures Tidy(r)
  {
    CleanFromLine101(Join(DropMissing(Split(s, ", ")), ", "))
  }

  lemma CleanCodeHoldsNoSeparator(c: string)
    requires CleanCode(c)
    ensures NoOccurrence(c, ", ")
  {
    forall i | 0 <= i <= |c| ensures !OccursAt(c, ", ", i) {
      if i + 2 <= |c| {
        assert c[i..i + 2][1] == c[i + 1];
      }
    }
  }

  /**
   * The corrected cleanup lists exactly the codes that are neither missing nor
   * empty, in order, whatever letters they contain, and gives "" when there
   * are none.
   */
  lemma CorrectedKeepsCodes(codes: seq<string>)
    requires codes != []
    requires forall c :: c in codes ==> c == "nan" || c == "" || CleanCode(c)
    ensures CleanCostCenterCorrected(Join(codes, ", ")) == Join(DropMissing(codes), ", ")
  {
    forall c | c in codes ensures NoOccurrence(c, ", ") {
      if CleanCode(c) {
        CleanCodeHoldsNoSeparator(c);
      } else if c == "nan" {
        NanHoldsNoSeparator();
      }
    }
    JoinSplitCommaSpace(codes);
    var kept := DropMissing(codes);
    if kept != [] {
      JoinOfCleanCodes(kept);
      CleanFromLine101Identity(Join(kept, ", "));
    }
  }

  lemma NanHoldsNoSeparator()
    ensures NoOccurrence("nan", ", ")
  {
    forall i | 0 <= i <= 3 ensures !OccursAt("nan", ", ", i) {
      if i + 2 <= 3 {
        assert "nan"[i..i + 2][0] != ',';
      }
    }
  }

  /** On codes that hold no "nan", the cleanup as written and the corrected one agree. */
  lemma CorrectedAgreesOnPlainCodes(xs: seq<string>, ys: seq<string>)
    requires PlainCodes(xs) && PlainCodes(ys)
    ensures CleanCostCenter(Join(xs + ["nan"] + ys, ", ")) == CleanCostCenterCorrected(Join(xs + ["nan"] + ys, ", "))
  {
    var all := xs + ["nan"] + ys;
    CleanDropsMissingSegment(xs, ys);
    MissingAmongClean(xs, ys);
    CorrectedKeepsCodes(all);
    DropMissingAround(xs, ys);
  }

  lemma MissingAmongClean(xs: seq<string>, ys: seq<string>)
    requires PlainCodes(xs) && PlainCodes(ys)
    ensures forall c :: c in xs + ["nan"] + ys ==> c == "nan" || CleanCode(c)
  {
  }

  lemma DropMissingAround(xs: seq<string>, ys: seq<string>)
    requires PlainCodes(xs) && PlainCodes(ys)
    ensures DropMissing(xs + ["nan"] + ys) == xs + ys
  {
    DropMissingPlain(xs);
    DropMissingPlain(ys);
    assert DropMissing(["nan"]) == [] by {
      assert ["nan"][1..] == [];
    }
    DropMissingBetween(xs, ["nan"], ys);
  }

  /** Segments kept whole on both sides of a run that is dropped entirely. */
  lemma DropMissingBetween(xs: seq<string>, mid: seq<string>, ys: seq<string>)
    requires DropMissing(xs) == xs && DropMissing(mid) == [] && DropMissing(ys) == ys
    ensures DropMissing(xs + mid + ys) == xs + ys
  {
    var left := xs + mid;
    DropMissingAppend(xs, mid);
    assert xs + [] == xs;
    assert DropMissing(left) == xs;
    DropMissingAppend(left, ys);
    assert xs + mid + ys == left + ys;
  }

  lemma {:induction false} DropMissingAppend(a: seq<string>, b: seq<string>)
    ensures DropMissing(a + b) == DropMissing(a) + DropMissing(b)
  {
    if a == [] {
      assert a + b == b;
    } else {
      var head: seq<string> := if a[0] == "nan" || a[0] == "" then [] else [a[0]];
      assert (a + b)[0] == a[0] && (a + b)[1..] == a[1..] + b;
      assert DropMissing(a + b) == head + DropMissing(a[1..] + b);
      assert DropMissing(a) == head + DropMissing(a[1..]);
      DropMissingAppend(a[1..], b);
    }
  }

  lemma {:induction false} DropMissingPlain(codes: seq<string>)
    requires PlainCodes(codes)
    ensures DropMissing(codes) == codes
  {
    if codes != [] {
      assert codes[0] in codes;
      PlainIsNotNan(codes[0]);
      DropMissingPlain(codes[1..]);
    }
  }

  // ------------------------------------------------ an empty cost centre beside a missing one

  /**
   * As written, an empty cost centre next to a missing one leaves an empty
   * segment: line 98 turns ", nan, , " into three separators in a row, and
   * line 111 merges only the first two of them.
   */
  lemma EmptyBesideMissingSurvives(xs: seq<string>, ys: seq<string>)
    requires xs != [] && ys != [] && PlainCodes(xs) && PlainCodes(ys)
    ensures CleanCostCenter(Join(xs + ["nan", ""] + ys, ", ")) == Join(xs, ", ") + ", , " + Join(ys, ", ")
  {
    var x, y := Join(xs, ", "), Join(ys, ", ");
    assert xs + ["nan", ""] + ys == xs + (["nan", ""] + ys);
    assert ["nan", ""] + ys == ["nan"] + ([""] + ys);
    JoinConcat(xs, ["nan", ""] + ys, ", ");
    JoinCons("nan", [""] + ys, ", ");
    JoinCons("", ys, ", ");
    assert x + ", " + ("nan" + ", " + ("" + ", " + y)) == x + ", nan, , " + y;
    NoNanInJoin(xs);
    NoNanInJoin(ys);
    JoinOfCleanCodes(xs);
    JoinOfCleanCodes(ys);
    DeleteNanBeforeEmpty(x, y);
    CleanTripleSeparator(x, y);
  }

  /** With line 98 corrected, the empty and the missing segment both go, and the codes around them stay. */
  lemma CorrectedDropsEmptyBesideMissing(xs: seq<string>, ys: seq<string>)
    requires PlainCodes(xs) && PlainCodes(ys)
    ensures CleanCostCenterCorrected(Join(xs + ["nan", ""] + ys, ", ")) == Join(xs + ys, ", ")
  {
    var all := xs + ["nan", ""] + ys;
    BlankAmongClean(xs, ys);
    CorrectedKeepsCodes(all);
    DropMissingAroundBlank(xs, ys);
  }

  lemma BlankAmongClean(xs: seq<string>, ys: seq<string>)
    requires PlainCodes(xs) && PlainCodes(ys)
    ensures forall c :: c in xs + ["nan", ""] + ys ==> c == "nan" || c == "" || CleanCode(c)
  {
  }

  lemma DropMissingAroundBlank(xs: seq<string>, ys: seq<string>)
    requires PlainCodes(xs) && PlainCodes(ys)
    ensures DropMissing(xs + ["nan", ""] + ys) == xs + ys
  {
    DropMissingPlain(xs);
    DropMissingPlain(ys);
    var blank: seq<string> := ["nan", ""];
    assert DropMissing(blank) == [] by {
      assert blank[1..] == [""] && [""][1..] == [];
      assert DropMissing([""]) == [];
    }
    DropMissingBetween(xs, blank, ys);
  }

  lemma NoNanAfterSeparator(y: string)
    requires NowhereMatches(y, NanPattern)
    ensures NowhereMatches(", " + y, NanPattern)
  {
    var s := ", " + y;
    forall i | 0 <= i < |s| ensures !MatchesAt(s[i..], NanPattern) {
      if i < 2 {
        assert s[i..][0] == s[i];
      } else {
        assert s[i..] == y[i - 2..];
      }
    }
  }

  /** Deleting "nan" from ", nan, , " between two strings holding no "nan" leaves three separators. */
  lemma DeleteNanBeforeEmpty(x: string, y: string)
    requires NowhereMatches(x, NanPattern) && NowhereMatches(y, NanPattern)
    ensures DeleteNan(x + ", nan, , " + y) == x + ", , , " + y
  {
    NoNanAfterSeparator(y);
    DeleteNanMiddle(x, ", " + y);
    assert x + ", nan, " + (", " + y) == x + ", nan, , " + y;
    assert x + ", , " + (", " + y) == x + ", , , " + y;
  }

  /** `pat`, which has commas at 0 and 2, matches nowhere in ", " followed by a ", "-join of clean codes. */
  lemma NoPairAfterSeparator(y: string, pat: seq<Atom>)
    requires JoinShaped(y) && |pat| >= 3 && pat[0] == Lit(',') && pat[2] == Lit(',')
    ensures NowhereMatches(", " + y, pat)
  {
    var s := ", " + y;
    JoinShapedNoPairs(y, pat);
    forall i | 0 <= i < |s| ensures !MatchesAt(s[i..], pat) {
      if i == 0 {
        assert s[i..][2] == y[0];
      } else if i == 1 {
        assert s[i..][0] == ' ';
      } else {
        assert s[i..] == y[i - 2..];
      }
    }
  }

  lemma TripleSeparatorShape(x: string, y: string)
    requires JoinShaped(x) && JoinShaped(y)
    ensures Separated(x + ", , , " + y)
    ensures StripSpaces(x + ", , , " + y) == x + ", , , " + y
  {
    var mid := ", , , " + y;
    var t := x + mid;
    assert x + ", , , " + y == t;
    JoinShapedSeparated(x);
    JoinShapedSeparated(y);
    NoAdjacentConcat(", , , ", y, Space);
    NoAdjacentConcat(", , , ", y, Lit(','));
    NoAdjacentConcat(x, mid, Space);
    NoAdjacentConcat(x, mid, Lit(','));
    assert t[0] == x[0] && t[|t| - 1] == y[|y| - 1];
    TrimIdentity(t, Space);
  }

  /** Line 111 merges the first two of three separators and leaves the third. */
  lemma MergeTripleSeparator(x: string, y: string)
    requires JoinShaped(x) && JoinShaped(y)
    ensures MergeCommaPairs(x + ", , , " + y) == x + ", , " + y
  {
    TripleRegrouped(x, y);
    NoPairAfterSeparator(y, PairPattern);
    MergePairAfterJoin(x, ", " + y);
    DoubleRegrouped(x, y);
  }

  lemma TripleRegrouped(x: string, y: string)
    ensures x + ", , , " + y == x + (", , " + (", " + y))
  {
    assert ", , , " + y == ", , " + (", " + y);
  }

  lemma DoubleRegrouped(x: string, y: string)
    ensures x + (", " + (", " + y)) == x + ", , " + y
  {
    assert ", " + (", " + y) == ", , " + y;
  }

  /** Line 111 leaves a ", "-join of clean codes alone and merges the ", , " right after it. */
  lemma MergePairAfterJoin(x: string, z: string)
    requires JoinShaped(x) && NowhereMatches(z, PairPattern)
    ensures MergeCommaPairs(x + (", , " + z)) == x + (", " + z)
  {
    NoPairsInPrefix(x, ", , " + z, PairPattern);
    ReplaceFixedSkip(x, ", , " + z, PairPattern, ", ");
    MergePairBefore(z);
  }

  /** Line 111 merges a leading ", , " into ", " when no further pair follows. */
  lemma MergePairBefore(z: string)
    requires NowhereMatches(z, PairPattern)
    ensures MergeCommaPairs(", , " + z) == ", " + z
  {
    var mid := ", , " + z;
    assert MatchesAt(mid, PairPattern);
    assert mid[4..] == z;
    ReplaceFixedIdentity(z, PairPattern, ", ");
  }

  /** `,\s,\s,\s` matches nowhere across two separators between two ", "-joins of clean codes. */
  lemma NoTriplesAcrossDouble(x: string, y: string)
    requires JoinShaped(x) && JoinShaped(y)
    ensures NowhereMatches(x + ", , " + y, TriplePattern)
  {
    var mid := ", , " + y;
    var s := x + mid;
    assert x + ", , " + y == s;
    NoPairsInPrefix(x, mid, TriplePattern);
    NoPairAfterSeparator(y, TriplePattern);
    forall i | |x| <= i < |s| ensures !MatchesAt(s[i..], TriplePattern) {
      var j := i - |x|;
      if j == 0 {
        assert s[i..][4] == y[0];
      } else if j == 1 || j == 3 {
        assert s[i..][0] == ' ';
      } else {
        assert s[i..] == (", " + y)[j - 2..];
      }
    }
  }

  /** Lines 101-126 on three separators between two ", "-joins of clean codes: one empty segment is left. */
  lemma CleanTripleSeparator(x: string, y: string)
    requires JoinShaped(x) && JoinShaped(y)
    ensures CleanFromLine101(x + ", , , " + y) == x + ", , " + y
  {
    Lines101To111OnTriple(x, y);
    Lines115To125OnDouble(x, y);
  }

  /** Lines 101-111 on three separators: the spaces and commas are already single, and two separators merge. */
  lemma Lines101To111OnTriple(x: string, y: string)
    requires JoinShaped(x) && JoinShaped(y)
    ensures CleanLines101To111(x + ", , , " + y) == x + ", , " + y
  {
    var t := x + ", , , " + y;
    TripleSeparatorShape(x, y);
    CollapseRunIdentity(t, [], Space, 2, " ");
    CollapseRunIdentity(t, [], Lit(','), 2, ",");
    MergeTripleSeparator(x, y);
  }

  /** Lines 115-125 leave two separators between two ", "-joins of clean codes as they are. */
  lemma Lines115To125OnDouble(x: string, y: string)
    requires JoinShaped(x) && JoinShaped(y)
    ensures CleanLines115To125(x + ", , " + y) == x + ", , " + y
  {
    var u := x + ", , " + y;
    DoubleSeparatorShape(x, y);
    NoTriplesAcrossDouble(x, y);
    Lines115To125Strips(u);
    assert u[0] == x[0] && u[|u| - 1] == y[|y| - 1];
    TrimIdentity(u, CommaOrSpace);
  }

}
