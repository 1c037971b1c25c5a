/**
 * The regular-expression substitutions of the cost-centre cleanup, written as
 * recursive string functions.  Every pattern used there either has a fixed
 * length (`,\s,\s`, the literal "nan") or is a fixed lead followed by a
 * repeated class (`\s{2,}`, `,{2,}`, `,\s{3,}`).  `re.sub` scans left to right,
 * replaces the leftmost match, resumes after it, and a greedy repetition at
 * the end of a pattern takes the whole run; the functions below do exactly that.
 */
module Rewrite {
  import opened Text

  /** One position of a pattern: a literal character, `\s`, or `[,\s]`. */
  datatype Atom = Lit(c: char) | Space | CommaOrSpace

  predicate Matches(a: Atom, c: char) {
    match a
    case Lit(d) => c == d
    case Space => IsSpace(c)
    case CommaOrSpace => c == ',' || IsSpace(c)
  }

  /** The fixed pattern `pat` matches at the start of `s`. */
  predicate MatchesAt(s: string, pat: seq<Atom>) {
    |pat| <= |s| && forall k :: 0 <= k < |pat| ==> Matches(pat[k], s[k])
  }

  /** No two neighbouring characters of `s` both belong to class `a`. */
  predicate NoAdjacent(s: string, a: Atom) {
    forall i :: 0 <= i < |s| - 1 ==> !(Matches(a, s[i]) && Matches(a, s[i + 1]))
  }

  /** `pat` matches nowhere in `s`. */
  predicate NowhereMatches(s: string, pat: seq<Atom>) {
    forall i :: 0 <= i < |s| ==> !MatchesAt(s[i..], pat)
  }

  /** `re.sub(pat, rep, s)` (or `s.replace(lit, rep)`) for a fixed-length pattern. */
  function ReplaceFixed(s: string, pat: seq<Atom>, rep: string): (r: string)
    requires pat != []
    ensures |rep| <= |pat| ==> |r| <= |s|
    decreases |s|
  {
    if s == [] then []
    else if MatchesAt(s, pat) then rep + ReplaceFixed(s[|pat|..], pat, rep)
    else [s[0]] + ReplaceFixed(s[1..], pat, rep)
  }

  /** Length of the run of class-`a` characters that starts `s`. */
  function RunLen(s: string, a: Atom): (n: nat)
    ensures n <= |s|
    ensures forall k :: 0 <= k < n ==> Matches(a, s[k])
    ensures n < |s| ==> !Matches(a, s[n])
  {
    if s != [] && Matches(a, s[0]) then 1 + RunLen(s[1..], a) else 0
  }

  /** `re.sub(lead + a + "{min,}", rep, s)`: the greedy run after the lead is replaced whole. */
  function CollapseRun(s: string, lead: seq<Atom>, a: Atom, min: nat, rep: string): (r: string)
    requires |lead| + min > 0
    ensures |rep| <= |lead| + min ==> |r| <= |s|
    decreases |s|
  {
    if s == [] then []
    else if MatchesAt(s, lead) && RunLen(s[|lead|..], a) >= min then
      rep + CollapseRun(s[|lead| + RunLen(s[|lead|..], a)..], lead, a, min, rep)
    else [s[0]] + CollapseRun(s[1..], lead, a, min, rep)
  }

  /** Drops the trailing run of class-`a` characters. */
  function TrimEnd(s: string, a: Atom): (r: string)
    ensures |r| <= |s| && r == s[..|r|]
    ensures forall k :: |r| <= k < |s| ==> Matches(a, s[k])
    ensures r == [] || !Matches(a, r[|r| - 1])
  {
    if s != [] && Matches(a, s[|s| - 1]) then TrimEnd(s[..|s| - 1], a) else s
  }

  /** Drops the leading and the trailing run of class-`a` characters. */
  function Trim(s: string, a: Atom): (r: string)
    ensures RunLen(s, a) + |r| <= |s| && r == s[RunLen(s, a)..RunLen(s, a) + |r|]
    ensures forall k :: 0 <= k < RunLen(s, a) ==> Matches(a, s[k])
    ensures forall k :: RunLen(s, a) + |r| <= k < |s| ==> Matches(a, s[k])
    ensures r == [] || (!Matches(a, r[0]) && !Matches(a, r[|r| - 1]))
  {
    var t := s[RunLen(s, a)..];
    var r := TrimEnd(t, a);
    assert r != [] ==> r[0] == t[0];
    r
  }

  // ---------------------------------------------------------------- lemmas

  lemma NoAdjacentConcat(x: string, y: string, a: Atom)
    requires NoAdjacent(x, a) && NoAdjacent(y, a)
    requires x != [] && y != [] ==> !(Matches(a, x[|x| - 1]) && Matches(a, y[0]))
    ensures NoAdjacent(x + y, a)
  {
    var s := x + y;
    forall i | 0 <= i < |s| - 1 ensures !(Matches(a, s[i]) && Matches(a, s[i + 1])) {
      if i + 1 < |x| {
        assert s[i] == x[i] && s[i + 1] == x[i + 1];
      } else if i >= |x| {
        assert s[i] == y[i - |x|] && s[i + 1] == y[i - |x| + 1];
      }
    }
  }

  lemma NoAdjacentSlice(s: string, a: Atom, i: nat, j: nat)
    requires i <= j <= |s| && NoAdjacent(s, a)
    ensures NoAdjacent(s[i..j], a)
  {
    var t := s[i..j];
    forall k | 0 <= k < |t| - 1 ensures !(Matches(a, t[k]) && Matches(a, t[k + 1])) {
      assert t[k] == s[i + k] && t[k + 1] == s[i + k + 1];
    }
  }

  /** Trimming keeps a string free of neighbouring class-`b` characters. */
  lemma TrimKeepsNoAdjacent(s: string, a: Atom, b: Atom)
    requires NoAdjacent(s, b)
    ensures NoAdjacent(Trim(s, a), b)
  {
    var t := s[RunLen(s, a)..];
    NoAdjacentSlice(s, b, RunLen(s, a), |s|);
    var r := TrimEnd(t, a);
    NoAdjacentSlice(t, b, 0, |r|);
  }

  /** Trimming leaves a string alone when neither end is in the trimmed class. */
  lemma TrimIdentity(s: string, a: Atom)
    requires s != [] ==> !Matches(a, s[0]) && !Matches(a, s[|s| - 1])
    ensures Trim(s, a) == s
  {
  }

  /** A substitution whose pattern matches nowhere changes nothing. */
  lemma {:induction false} ReplaceFixedIdentity(s: string, pat: seq<Atom>, rep: string)
    requires pat != [] && NowhereMatches(s, pat)
    ensures ReplaceFixed(s, pat, rep) == s
    decreases |s|
  {
    if s != [] {
      assert s[0..] == s;
      assert NowhereMatches(s[1..], pat) by {
        forall i | 0 <= i < |s[1..]| ensures !MatchesAt(s[1..][i..], pat) {
          assert s[1..][i..] == s[i + 1..];
        }
      }
      ReplaceFixedIdentity(s[1..], pat, rep);
    }
  }

  /** A prefix at none of whose positions the pattern matches is copied through unchanged. */
  lemma {:induction false} ReplaceFixedSkip(a: string, b: string, pat: seq<Atom>, rep: string)
    requires pat != []
    requires forall i :: 0 <= i < |a| ==> !MatchesAt((a + b)[i..], pat)
    ensures ReplaceFixed(a + b, pat, rep) == a + ReplaceFixed(b, pat, rep)
    decreases |a|
  {
    var s := a + b;
    if a == [] {
      assert s == b;
    } else {
      assert s[0..] == s;
      assert s[1..] == a[1..] + b;
      forall i | 0 <= i < |a[1..]| ensures !MatchesAt((a[1..] + b)[i..], pat) {
        assert (a[1..] + b)[i..] == s[i + 1..];
      }
      ReplaceFixedSkip(a[1..], b, pat, rep);
      assert a == [a[0]] + a[1..];
    }
  }

  /** When the replacement starts with the pattern's first literal, the first character survives. */
  lemma ReplaceFixedHead(s: string, pat: seq<Atom>, rep: string)
    requires pat != [] && rep != [] && pat[0] == Lit(rep[0])
    ensures ReplaceFixed(s, pat, rep) == [] <==> s == []
    ensures s != [] ==> ReplaceFixed(s, pat, rep)[0] == s[0]
  {
  }

  /**
   * A fixed substitution keeps a string free of neighbouring class-`a`
   * characters, provided the replacement is, its first character is the
   * pattern's, and a class-`a` last character of the replacement stands for
   * a class-`a` last character of the match.
   */
  lemma {:induction false} ReplaceFixedKeepsNoAdjacent(s: string, pat: seq<Atom>, rep: string, a: Atom)
    requires pat != [] && rep != [] && pat[0] == Lit(rep[0])
    requires NoAdjacent(rep, a)
    requires Matches(a, rep[|rep| - 1]) ==> forall c :: Matches(pat[|pat| - 1], c) ==> Matches(a, c)
    requires NoAdjacent(s, a)
    ensures NoAdjacent(ReplaceFixed(s, pat, rep), a)
    decreases |s|
  {
    if s != [] {
      if MatchesAt(s, pat) {
        var t := s[|pat|..];
        NoAdjacentSlice(s, a, |pat|, |s|);
        ReplaceFixedKeepsNoAdjacent(t, pat, rep, a);
        ReplaceFixedHead(t, pat, rep);
        if t != [] && Matches(a, rep[|rep| - 1]) {
          assert Matches(pat[|pat| - 1], s[|pat| - 1]);
          assert s[|pat|] == t[0];
        }
        NoAdjacentConcat(rep, ReplaceFixed(t, pat, rep), a);
      } else {
        var t := s[1..];
        NoAdjacentSlice(s, a, 1, |s|);
        ReplaceFixedKeepsNoAdjacent(t, pat, rep, a);
        ReplaceFixedHead(t, pat, rep);
        NoAdjacentConcat([s[0]], ReplaceFixed(t, pat, rep), a);
      }
    }
  }

  lemma RunLenAtMostOne(s: string, a: Atom)
    requires NoAdjacent(s, a)
    ensures RunLen(s, a) <= 1
  {
    if |s| >= 2 && Matches(a, s[0]) {
      assert !Matches(a, s[1]);
    }
  }

  /** A run collapse that needs two or more neighbouring class characters changes nothing where there are none. */
  lemma {:induction false} CollapseRunIdentity(s: string, lead: seq<Atom>, a: Atom, min: nat, rep: string)
    requires min >= 2 && NoAdjacent(s, a)
    ensures CollapseRun(s, lead, a, min, rep) == s
    decreases |s|
  {
    if s != [] {
      if MatchesAt(s, lead) {
        NoAdjacentSlice(s, a, |lead|, |s|);
        RunLenAtMostOne(s[|lead|..], a);
      }
      NoAdjacentSlice(s, a, 1, |s|);
      CollapseRunIdentity(s[1..], lead, a, min, rep);
    }
  }

  /** With no lead and a one-character replacement, the first output character is the input's or the replacement. */
  lemma CollapseRunHead(s: string, a: Atom, min: nat, c: char)
    requires min > 0
    ensures CollapseRun(s, [], a, min, [c]) == [] <==> s == []
    ensures s != [] ==>
              (CollapseRun(s, [], a, min, [c])[0] == s[0] || (CollapseRun(s, [], a, min, [c])[0] == c && Matches(a, s[0])))
  {
  }

  /** Collapsing every run of two or more class-`a` characters into one leaves no two neighbours of class `a`. */
  lemma {:induction false} CollapseRunEstablishes(s: string, a: Atom, c: char)
    requires Matches(a, c)
    ensures NoAdjacent(CollapseRun(s, [], a, 2, [c]), a)
    decreases |s|
  {
    if s != [] {
      var n := RunLen(s, a);
      if n >= 2 {
        var t := s[n..];
        CollapseRunEstablishes(t, a, c);
        CollapseRunHead(t, a, 2, c);
        if t != [] {
          assert t[0] == s[n];
        }
        NoAdjacentConcat([c], CollapseRun(t, [], a, 2, [c]), a);
      } else {
        var t := s[1..];
        CollapseRunEstablishes(t, a, c);
        CollapseRunHead(t, a, 2, c);
        if t != [] && Matches(a, s[0]) {
          assert n == 1 && t[0] == s[1];
        }
        NoAdjacentConcat([s[0]], CollapseRun(t, [], a, 2, [c]), a);
      }
    }
  }

  /** Collapsing runs of class `a` into a character outside class `b` keeps class-`b` characters apart. */
  lemma {:induction false} CollapseRunKeepsNoAdjacent(s: string, a: Atom, min: nat, c: char, b: Atom)
    requires min > 0 && !Matches(b, c) && NoAdjacent(s, b)
    ensures NoAdjacent(CollapseRun(s, [], a, min, [c]), b)
    decreases |s|
  {
    if s != [] {
      var n := RunLen(s, a);
      if n >= min {
        NoAdjacentSlice(s, b, n, |s|);
        CollapseRunKeepsNoAdjacent(s[n..], a, min, c, b);
        NoAdjacentAfterRun(s, a, min, c, b);
      } else {
        NoAdjacentSlice(s, b, 1, |s|);
        CollapseRunKeepsNoAdjacent(s[1..], a, min, c, b);
        NoAdjacentAfterChar(s, a, min, c, b);
      }
    }
  }

  /** A collapsed run puts `c` in front of the collapsed rest. */
  lemma NoAdjacentAfterRun(s: string, a: Atom, min: nat, c: char, b: Atom)
    requires min > 0 && !Matches(b, c) && s != [] && RunLen(s, a) >= min
    requires NoAdjacent(CollapseRun(s[RunLen(s, a)..], [], a, min, [c]), b)
    ensures NoAdjacent(CollapseRun(s, [], a, min, [c]), b)
  {
    var t := s[RunLen(s, a)..];
    assert CollapseRun(s, [], a, min, [c]) == [c] + CollapseRun(t, [], a, min, [c]);
    NoAdjacentConcat([c], CollapseRun(t, [], a, min, [c]), b);
  }

  /** A character outside a long enough run is kept in front of the collapsed rest. */
  lemma NoAdjacentAfterChar(s: string, a: Atom, min: nat, c: char, b: Atom)
    requires min > 0 && !Matches(b, c) && s != [] && RunLen(s, a) < min && NoAdjacent(s, b)
    requires NoAdjacent(CollapseRun(s[1..], [], a, min, [c]), b)
    ensures NoAdjacent(CollapseRun(s, [], a, min, [c]), b)
  {
    var t := s[1..];
    assert CollapseRun(s, [], a, min, [c]) == [s[0]] + CollapseRun(t, [], a, min, [c]);
    CollapseRunHead(t, a, min, c);
    if t != [] {
      assert t[0] == s[1];
    }
    NoAdjacentConcat([s[0]], CollapseRun(t, [], a, min, [c]), b);
  }
}
