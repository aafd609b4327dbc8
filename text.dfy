/// The JavaScript string primitives the core relies on: the regular-expression
/// class `\s`, `String.prototype.trim`, prefix tests and occurrence of one
/// string inside another. Strings are sequences of characters.
module Text {

  /** ECMAScript WhiteSpace and LineTerminator code points. Both the regular
      expression class `\s` and `trim` use exactly this set. */
  predicate IsSpace(c: char) {
    || c == '\t' || c == '\n' || c == '\U{000B}' || c == '\U{000C}' || c == '\r'
    || c == ' ' || c == '\U{00A0}' || c == '\U{1680}'
    || ('\U{2000}' <= c <= '\U{200A}')
    || c == '\U{2028}' || c == '\U{2029}' || c == '\U{202F}' || c == '\U{205F}'
    || c == '\U{3000}' || c == '\U{FEFF}'
  }

  predicate AllSpace(s: string) {
    forall i :: 0 <= i < |s| ==> IsSpace(s[i])
  }

  /** The shape `trim` leaves: no whitespace at either end. */
  predicate NoEdgeSpace(s: string) {
    s == [] || (!IsSpace(s[0]) && !IsSpace(s[|s| - 1]))
  }

  predicate StartsWith(s: string, prefix: string) {
    |prefix| <= |s| && s[..|prefix|] == prefix
  }

  /** `p` occurs in `s` starting at index `i`. */
  predicate OccursAt(s: string, p: string, i: int) {
    0 <= i && i + |p| <= |s| && s[i..i + |p|] == p
  }

  ghost predicate Contains(s: string, p: string) {
    exists i :: OccursAt(s, p, i)
  }

  /** `s[i..j]` is a (possibly empty) run of whitespace. */
  ghost predicate SpaceRun(s: string, i: int, j: int) {
    0 <= i <= j <= |s| && AllSpace(s[i..j])
  }

  /** The end of the longest whitespace run starting at `i`: what a greedy
      `\s*` consumes from `i`. */
  function SkipSpace(s: string, i: nat): (j: nat)
    requires i <= |s|
    ensures SpaceRun(s, i, j)
    ensures j == |s| || !IsSpace(s[j])
    decreases |s| - i
  {
    if i < |s| && IsSpace(s[i]) then
      var j := SkipSpace(s, i + 1);
      assert s[i..j] == [s[i]] + s[i + 1..j];
      j
    else i
  }

  /** The start of the longest whitespace run ending at `j`. */
  function SkipSpaceBack(s: string, j: nat): (i: nat)
    requires j <= |s|
    ensures SpaceRun(s, i, j)
    ensures i == 0 || !IsSpace(s[i - 1])
  {
    if 0 < j && IsSpace(s[j - 1]) then
      var i := SkipSpaceBack(s, j - 1);
      assert s[i..j] == s[i..j - 1] + [s[j - 1]];
      i
    else j
  }

  /** The first index at or after `i` holding `c`, or `|s|` when there is none. */
  function IndexOf(s: string, c: char, i: nat): (k: nat)
    requires i <= |s|
    ensures i <= k <= |s|
    ensures k < |s| ==> s[k] == c
    ensures forall m :: i <= m < k ==> s[m] != c
    decreases |s| - i
  {
    if i == |s| || s[i] == c then i else IndexOf(s, c, i + 1)
  }

  /** `String.prototype.trim`: drop the leading, then the trailing whitespace. */
  function Trim(s: string): (r: string)
    ensures NoEdgeSpace(r)
    ensures exists a :: SpaceRun(s, 0, a) && OccursAt(s, r, a) && SpaceRun(s, a + |r|, |s|)
  {
    var a := SkipSpace(s, 0);
    var u := s[a..];
    var b := SkipSpaceBack(u, |u|);
    assert u[b..|u|] == s[a + b..|s|];
    assert b > 0 ==> u[b - 1] == s[a + b - 1];
    assert u[..b] == s[a..a + b];
    u[..b]
  }

  /** Every character of a whitespace run is whitespace. */
  lemma SpaceRunMember(s: string, i: int, j: int, k: int)
    ensures SpaceRun(s, i, j) && i <= k < j ==> IsSpace(s[k])
  {
    if SpaceRun(s, i, j) && i <= k < j {
      assert s[k] == s[i..j][k - i];
    }
  }

  /** Any run ending at a non-space character (or at the end) is the run
      `SkipSpace` finds. */
  lemma {:induction false} SkipSpaceIsMaximalRun(s: string, i: nat, k: nat)
    requires SpaceRun(s, i, k)
    requires k == |s| || !IsSpace(s[k])
    ensures SkipSpace(s, i) == k
    decreases k - i
  {
    if i < k {
      assert s[i] == s[i..k][0];
      assert s[i + 1..k] == s[i..k][1..];
      SkipSpaceIsMaximalRun(s, i + 1, k);
    }
  }

  lemma {:induction false} SkipSpaceBackIsMaximalRun(s: string, j: nat, k: nat)
    requires SpaceRun(s, k, j)
    requires k == 0 || !IsSpace(s[k - 1])
    ensures SkipSpaceBack(s, j) == k
    decreases j - k
  {
    if k < j {
      assert s[j - 1] == s[k..j][j - 1 - k];
      assert s[k..j - 1] == s[k..j][..j - 1 - k];
      SkipSpaceBackIsMaximalRun(s, j - 1, k);
    }
  }

  /** `trim` is characterised by its result: whatever core `r` a string has
      between two whitespace runs, when `r` has no whitespace at its ends,
      `trim` returns exactly `r`. */
  lemma TrimUnique(p: string, r: string, q: string)
    requires AllSpace(p) && AllSpace(q) && NoEdgeSpace(r)
    ensures Trim(p + r + q) == r
  {
    var s := p + r + q;
    if r == [] {
      assert s == p + q;
      assert AllSpace(s) by {
        forall m | 0 <= m < |s| ensures IsSpace(s[m]) {
          if m < |p| { assert s[m] == p[m]; } else { assert s[m] == q[m - |p|]; }
        }
      }
      assert s[0..|s|] == s;
      SkipSpaceIsMaximalRun(s, 0, |s|);
      var t := s[|s|..];
      assert t == [];
    } else {
      assert s[0..|p|] == p;
      assert s[|p|] == r[0];
      SkipSpaceIsMaximalRun(s, 0, |p|);
      var t := s[|p|..];
      assert t == r + q;
      assert t[|r|..|t|] == q;
      assert t[|r| - 1] == r[|r| - 1];
      SkipSpaceBackIsMaximalRun(t, |t|, |r|);
      assert t[..|r|] == r;
    }
  }

  /** Trimming twice is trimming once. */
  lemma {:induction false} TrimIdempotent(s: string)
    ensures Trim(Trim(s)) == Trim(s)
  {
    var r := Trim(s);
    assert [] + r + [] == r;
    TrimUnique([], r, []);
  }

  /** Dropping part of the leading whitespace does not change what `trim`
      returns. */
  lemma TrimDropsLeadingSpace(s: string, c: nat)
    requires SpaceRun(s, 0, c)
    ensures Trim(s[c..]) == Trim(s)
  {
    var a := SkipSpace(s, 0);
    SpaceRunMember(s, 0, c, a);
    assert c <= a;
    var t := s[c..];
    forall m | 0 <= m < a - c ensures IsSpace(s[c..a][m]) {
      assert s[c..a][m] == s[0..a][c + m];
    }
    assert t[0..a - c] == s[c..a];
    assert a - c < |t| ==> t[a - c] == s[a];
    SkipSpaceIsMaximalRun(t, 0, a - c);
    assert t[a - c..] == s[a..];
  }

  /** Slicing a joined text inside its middle part gives that part's slice. */
  lemma SliceShift(p: string, t: string, q: string, a: int, b: int)
    requires 0 <= a <= b <= |t|
    ensures (p + t + q)[|p| + a..|p| + b] == t[a..b]
  {
    var u := p + t + q;
    forall m | 0 <= m < b - a ensures u[|p| + a..|p| + b][m] == t[a..b][m] {
      assert u[|p| + a + m] == t[a + m];
    }
  }

  /** A character of a joined text comes from one of its three parts. */
  lemma JoinIndex(p: string, t: string, q: string, m: int)
    requires 0 <= m < |p + t + q|
    ensures (p + t + q)[m] == if m < |p| then p[m] else if m < |p| + |t| then t[m - |p|] else q[m - |p| - |t|]
  {
  }

  /** What follows a position inside the middle part of a joined text. */
  lemma JoinSuffix(p: string, t: string, q: string, c: int)
    requires 0 <= c <= |t|
    ensures (p + t + q)[|p| + c..] == t[c..] + q
  {
  }

  /** A literal piece of a text occurs where it was put. */
  lemma OccursInMiddle(p: string, t: string, q: string)
    ensures OccursAt(p + t + q, t, |p|)
  {
    SliceShift(p, t, q, 0, |t|);
  }

  /** An occurrence inside an occurrence is an occurrence. */
  lemma OccursTransitive(s: string, t: string, u: string, i: int, j: int)
    requires OccursAt(s, t, i) && OccursAt(t, u, j)
    ensures OccursAt(s, u, i + j)
  {
    forall m | 0 <= m < |u| ensures s[i + j..i + j + |u|][m] == u[m] {
      assert s[i + j + m] == s[i..i + |t|][j + m] == t[j + m] == t[j..j + |u|][m];
    }
  }
}
