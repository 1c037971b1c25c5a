/**
 * Python string primitives used by the transform: the whitespace class shared by
 * `str.strip()` and the `\s` of `re`, `str.split(sep)` and `sep.join(xs)`.
 */
module Text {

  /** Python's `str.isspace()` on one character; `re`'s `\s` on str patterns is the same class. */
  predicate IsSpace(c: char) {
    var n := c as int;
    || 9 <= n <= 13
    || 28 <= n <= 32
    || n == 0x85 || n == 0xA0 || n == 0x1680
    || 0x2000 <= n <= 0x200A
    || n == 0x2028 || n == 0x2029 || n == 0x202F || n == 0x205F || n == 0x3000
  }

  /** `sep` occurs in `s` starting at index `i`. */
  predicate OccursAt(s: string, sep: string, i: int) {
    0 <= i && i + |sep| <= |s| && s[i..i + |sep|] == sep
  }

  predicate NoOccurrence(s: string, sep: string) {
    forall i | 0 <= i <= |s| :: !OccursAt(s, sep, i)
  }

  lemma OccursShift(s: string, sep: string, j: int)
    requires |s| > 0 && 0 <= j
    ensures OccursAt(s, sep, j + 1) <==> OccursAt(s[1..], sep, j)
  {
    if j + 1 + |sep| <= |s| {
      assert s[1..][j..j + |sep|] == s[j + 1..j + 1 + |sep|];
    }
  }

  lemma OccursInPrefix(s: string, sep: string, i: nat, j: int)
    requires i <= |s|
    ensures OccursAt(s[..i], sep, j) ==> OccursAt(s, sep, j)
  {
    if OccursAt(s[..i], sep, j) {
      assert s[..i][j..j + |sep|] == s[j..j + |sep|];
    }
  }

  /** Index of the leftmost occurrence of `sep` in `s`, or `|s|` when there is none. */
  function Find(s: string, sep: string): (i: nat)
    requires sep != []
    ensures i <= |s|
    ensures i < |s| ==> OccursAt(s, sep, i)
    ensures forall j :: 0 <= j < i ==> !OccursAt(s, sep, j)
    ensures i == |s| ==> NoOccurrence(s, sep)
    decreases |s|
  {
    if |s| < |sep| then |s|
    else if s[..|sep|] == sep then 0
    else
      var k := Find(s[1..], sep);
      assert forall j :: 0 <= j < 1 + k ==> !OccursAt(s, sep, j) by {
        forall j | 0 <= j < 1 + k ensures !OccursAt(s, sep, j) {
          if j > 0 { OccursShift(s, sep, j - 1); }
        }
      }
      assert 1 + k < |s| ==> OccursAt(s, sep, 1 + k) by { OccursShift(s, sep, k); }
      1 + k
  }

  /** Python's `s.split(sep)`: the pieces between leftmost, non-overlapping occurrences of `sep`. */
  function Split(s: string, sep: string): (r: seq<string>)
    requires sep != []
    ensures r != []
    ensures forall x :: x in r ==> NoOccurrence(x, sep)
    decreases |s|
  {
    var i := Find(s, sep);
    if i == |s| then [s]
    else
      assert NoOccurrence(s[..i], sep) by {
        forall j ensures !OccursAt(s[..i], sep, j) { OccursInPrefix(s, sep, i, j); }
      }
      [s[..i]] + Split(s[i + |sep|..], sep)
  }

  /** Python's `sep.join(xs)`. */
  function Join(xs: seq<string>, sep: string): string {
    if xs == [] then ""
    else if |xs| == 1 then xs[0]
    else xs[0] + sep + Join(xs[1..], sep)
  }

  /** Joining the pieces of a split restores the string. */
  lemma {:induction false} SplitJoin(s: string, sep: string)
    requires sep != []
    ensures Join(Split(s, sep), sep) == s
    decreases |s|
  {
    var i := Find(s, sep);
    if i < |s| {
      var rest := s[i + |sep|..];
      var tail := Split(rest, sep);
      SplitJoin(rest, sep);
      assert Split(s, sep) == [s[..i]] + tail;
      JoinCons(s[..i], tail, sep);
      assert s[..i] + sep + rest == s by { assert s[i..i + |sep|] == sep; }
    }
  }

  lemma JoinCons(x: string, ys: seq<string>, sep: string)
    requires ys != []
    ensures Join([x] + ys, sep) == x + sep + Join(ys, sep)
  {
    assert ([x] + ys)[1..] == ys;
  }

  /** Joining two non-empty lists is joining each and putting one separator between. */
  lemma {:induction false} JoinConcat(a: seq<string>, b: seq<string>, sep: string)
    requires a != [] && b != []
    ensures Join(a + b, sep) == Join(a, sep) + sep + Join(b, sep)
    decreases |a|
  {
    if |a| == 1 {
      assert a + b == [a[0]] + b;
      JoinCons(a[0], b, sep);
    } else {
      JoinConcat(a[1..], b, sep);
      assert a + b == [a[0]] + (a[1..] + b);
      JoinCons(a[0], a[1..] + b, sep);
      assert a == [a[0]] + a[1..];
      JoinCons(a[0], a[1..], sep);
    }
  }

  /** A piece of a split on "," holds no comma. */
  lemma NoCommaInPiece(x: string)
    requires NoOccurrence(x, ",")
    ensures ',' !in x
  {
    if ',' in x {
      var i :| 0 <= i < |x| && x[i] == ',';
      assert x[i..i + 1] == ",";
      assert OccursAt(x, ",", i);
    }
  }

  /**
   * Splitting a ", "-join gives back the pieces, provided no piece holds ", ":
   * a piece's last character followed by the separator's ',' can never spell ", ".
   */
  lemma {:induction false} JoinSplitCommaSpace(xs: seq<string>)
    requires xs != []
    requires forall x :: x in xs ==> NoOccurrence(x, ", ")
    ensures Split(Join(xs, ", "), ", ") == xs
    decreases |xs|
  {
    var sep := ", ";
    var j := Join(xs, sep);
    if |xs| == 1 {
      assert NoOccurrence(j, sep);
      assert Find(j, sep) == |j|;
    } else {
      assert xs[0] in xs;
      assert j == xs[0] + sep + Join(xs[1..], sep);
      SplitAfterPiece(xs[0], Join(xs[1..], sep));
      JoinSplitCommaSpace(xs[1..]);
    }
  }

  /** A piece without ", " followed by ", " is the first piece of the split. */
  lemma SplitAfterPiece(x: string, rest: string)
    requires NoOccurrence(x, ", ")
    ensures Split(x + ", " + rest, ", ") == [x] + Split(rest, ", ")
  {
    var sep := ", ";
    var j := x + sep + rest;
    assert OccursAt(j, sep, |x|) by { assert j[|x|..|x| + 2] == sep; }
    forall k | 0 <= k < |x| ensures !OccursAt(j, sep, k) {
      NoSeparatorBefore(x, rest, k);
    }
    var i := Find(j, sep);
    assert i == |x|;
    assert j[..i] == x;
    assert j[i + 2..] == rest;
  }

  lemma NoSeparatorBefore(x: string, rest: string, k: nat)
    requires NoOccurrence(x, ", ") && k < |x|
    ensures !OccursAt(x + ", " + rest, ", ", k)
  {
    var j := x + ", " + rest;
    if k + 2 <= |x| {
      assert j[k..k + 2] == x[k..k + 2];
      assert !OccursAt(x, ", ", k);
    } else {
      assert j[k..k + 2][1] == j[|x|] == ',';
    }
  }

  lemma FindHere(s: string, sep: string)
    requires sep != [] && |s| >= |sep| && s[..|sep|] == sep
    ensures Find(s, sep) == 0
  {
  }

  lemma FindSkip(s: string, sep: string)
    requires sep != [] && |s| >= |sep| && s[..|sep|] != sep
    ensures Find(s, sep) == 1 + Find(s[1..], sep)
  {
  }

  /** A string without the separator splits to itself. */
  lemma SplitWhole(s: string, sep: string)
    requires sep != [] && NoOccurrence(s, sep)
    ensures Split(s, sep) == [s]
  {
    assert Find(s, sep) == |s|;
  }

  /** A one-character string other than "," holds no ",". */
  lemma NoCommaInChar(c: char)
    requires c != ','
    ensures NoOccurrence([c], ",")
  {
    forall i | 0 <= i <= 1 ensures !OccursAt([c], ",", i) {
      if i == 0 {
        assert [c][0..1][0] == c;
      }
    }
  }

  /** A one-character piece before a ",": `(c + "," + t).split(",")` is `[c]` followed by the split of `t`. */
  lemma SplitCharComma(c: char, t: string)
    requires c != ','
    ensures Split([c, ','] + t, ",") == [[c]] + Split(t, ",")
  {
    var s := [c, ','] + t;
    assert s[..1] != "," by { assert s[..1][0] == c; }
    FindSkip(s, ",");
    assert s[1..] == [','] + t;
    assert s[1..][..1] == ",";
    FindHere(s[1..], ",");
    assert Find(s, ",") == 1;
    assert Split(s, ",") == [s[..1]] + Split(s[2..], ",");
    assert s[..1] == [c];
    assert s[2..] == t;
  }

  /** `"a,,b".split(",")` keeps the empty middle piece. */
  lemma SplitEmptyMiddleExample()
    ensures Split("a,,b", ",") == ["a", "", "b"]
  {
    NoCommaInChar('b');
    SplitWhole("b", ",");
    SplitLeadingComma("b");
    assert [','] + "b" == ",b";
    SplitCharComma('a', ",b");
    assert ['a', ','] + ",b" == "a,,b";
  }

  lemma SplitLeadingComma(t: string)
    ensures Split([','] + t, ",") == [""] + Split(t, ",")
  {
    var s := [','] + t;
    assert s[..1] == ",";
    FindHere(s, ",");
    assert Split(s, ",") == [s[..0]] + Split(s[1..], ",");
    assert s[1..] == t;
  }

  /** `",,,".split(",")` is four empty pieces. */
  lemma SplitCommasOnlyExample()
    ensures Split(",,,", ",") == ["", "", "", ""]
  {
    var e: string := "";
    SplitWhole(e, ",");
    SplitLeadingComma(e);
    var s1 := [','] + e;
    SplitLeadingComma(s1);
    var s2 := [','] + s1;
    SplitLeadingComma(s2);
    assert [','] + s2 == ",,,";
  }
}
