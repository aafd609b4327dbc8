/// The contract editor (components/contract-input.tsx): the heuristic gate
/// `isValidSolidityContract`, which looks for an SPDX licence comment and a
/// `pragma solidity` directive, and the two handlers that use or change the
/// contract text.
module ContractInput {
  import opened Text
  import opened Options

  const SpdxTag := "SPDX-License-Identifier:"

  /** The text of the alert `handleAnalyze` shows when the gate rejects. */
  const InvalidContractMessage := "The provided code does not appear to be a valid Solidity smart contract. Make sure it starts with the SPDX license identifier and the 'pragma' directive."

  // What the two regular expressions accept, read off their structure. A
  // match is a choice of split points; `\s*` and `\s+` are whitespace runs.

  /** `/\/\/\s*SPDX-License-Identifier:\s*[^\s]+/` matches at `i`: "//", a
      whitespace run, the tag, a whitespace run, then a non-space character
      (one suffices for `[^\s]+`, since nothing follows it in the pattern). */
  ghost predicate SpdxMatchAt(s: string, i: int) {
    OccursAt(s, "//", i) && exists j :: SpaceRun(s, i + 2, j) && SpdxTagThenValue(s, j)
  }

  ghost predicate SpdxTagThenValue(s: string, j: int) {
    OccursAt(s, SpdxTag, j) &&
    exists k :: SpaceRun(s, j + |SpdxTag|, k) && k < |s| && !IsSpace(s[k])
  }

  /** `/pragma\s+solidity\s+[^;]+;/` matches at `i`. */
  ghost predicate PragmaMatchAt(s: string, i: int) {
    OccursAt(s, "pragma", i) && exists j :: i + 6 < j && SpaceRun(s, i + 6, j) && SolidityThenVersion(s, j)
  }

  ghost predicate SolidityThenVersion(s: string, j: int) {
    OccursAt(s, "solidity", j) && exists k :: j + 8 < k && SpaceRun(s, j + 8, k) && VersionThenSemicolon(s, k)
  }

  /** `[^;]+;` matches at `k`: at least one character other than ';', then ';'. */
  ghost predicate VersionThenSemicolon(s: string, k: int) {
    exists l :: 0 <= k < l < |s| && s[l] == ';' && forall m :: k <= m < l ==> s[m] != ';'
  }

  /** `RegExp.prototype.test` on an unanchored pattern: a match at some index. */
  ghost predicate SpdxOccurs(s: string) {
    exists i :: SpdxMatchAt(s, i)
  }

  ghost predicate PragmaOccurs(s: string) {
    exists i :: PragmaMatchAt(s, i)
  }

  // The matchers. Each `\s*` or `\s+` in front of a literal that starts with
  // a non-space character must consume the whole whitespace run, so each
  // pattern can be matched at a given index without backtracking.

  predicate SpdxAt(s: string, i: nat) {
    OccursAt(s, "//", i) &&
    var j := SkipSpace(s, i + 2);
    OccursAt(s, SpdxTag, j) && SkipSpace(s, j + |SpdxTag|) < |s|
  }

  predicate PragmaAt(s: string, i: nat) {
    OccursAt(s, "pragma", i) && i + 6 < |s| && IsSpace(s[i + 6]) &&
    var j := SkipSpace(s, i + 6);
    OccursAt(s, "solidity", j) && j + 8 < |s| && IsSpace(s[j + 8]) &&
    var l := IndexOf(s, ';', j + 8);
    j + 10 <= l < |s|
  }

  /** `isValidSolidityContract`: both unanchored tests succeed. */
  predicate IsValidSolidityContract(code: string) {
    && (exists i | 0 <= i < |code| :: SpdxAt(code, i))
    && (exists i | 0 <= i < |code| :: PragmaAt(code, i))
  }

  lemma SpdxAtMatches(s: string, i: nat)
    requires SpdxAt(s, i)
    ensures SpdxMatchAt(s, i)
  {
    var j := SkipSpace(s, i + 2);
    var k := SkipSpace(s, j + |SpdxTag|);
    assert SpdxTagThenValue(s, j);
  }

  lemma SpdxMatchIsFound(s: string, i: nat)
    requires SpdxMatchAt(s, i)
    ensures SpdxAt(s, i)
  {
    var j :| SpaceRun(s, i + 2, j) && SpdxTagThenValue(s, j);
    assert |SpdxTag| == 24 && SpdxTag[0] == 'S';
    assert s[j] == s[j..j + |SpdxTag|][0];
    SkipSpaceIsMaximalRun(s, i + 2, j);
    var k :| SpaceRun(s, j + |SpdxTag|, k) && k < |s| && !IsSpace(s[k]);
    SkipSpaceIsMaximalRun(s, j + |SpdxTag|, k);
  }

  lemma SpdxAtIsRegexMatch(s: string, i: nat)
    ensures SpdxAt(s, i) <==> SpdxMatchAt(s, i)
  {
    if SpdxAt(s, i) {
      SpdxAtMatches(s, i);
    }
    if SpdxMatchAt(s, i) {
      SpdxMatchIsFound(s, i);
    }
  }

  /** Behind a whitespace run that starts at `a`, the first ';' is the one
      that ends the `[^;]+` part starting at `k`. */
  lemma FirstSemicolonAfterRun(s: string, a: int, k: int, l: int)
    requires SpaceRun(s, a, k) && 0 <= k < l < |s| && s[l] == ';'
    requires forall m :: k <= m < l ==> s[m] != ';'
    ensures IndexOf(s, ';', a) == l
  {
    var x := IndexOf(s, ';', a);
    assert !IsSpace(';');
  }

  lemma PragmaAtMatches(s: string, i: nat)
    requires PragmaAt(s, i)
    ensures PragmaMatchAt(s, i)
  {
    var j := SkipSpace(s, i + 6);
    var l := IndexOf(s, ';', j + 8);
    assert s[j + 8..j + 9] == [s[j + 8]];
    assert VersionThenSemicolon(s, j + 9);
    assert SolidityThenVersion(s, j);
  }

  /** A whitespace run that ends where a word starting with a non-space
      character begins is the run `SkipSpace` finds. */
  lemma RunBeforeWord(s: string, a: int, j: int, w: string)
    requires a < j && SpaceRun(s, a, j) && OccursAt(s, w, j)
    requires w != [] && !IsSpace(w[0])
    ensures a < |s| && IsSpace(s[a]) && SkipSpace(s, a) == j
  {
    SpaceRunMember(s, a, j, a);
    assert s[j] == s[j..j + |w|][0];
    SkipSpaceIsMaximalRun(s, a, j);
  }

  /** `\s+[^;]+;` matched from `a`, splitting at `k`: the first ';' from
      `a` lies at least two characters on. */
  lemma VersionFound(s: string, a: int, k: int)
    requires a < k && SpaceRun(s, a, k) && VersionThenSemicolon(s, k)
    ensures a < |s| && IsSpace(s[a]) && a + 2 <= IndexOf(s, ';', a) < |s|
  {
    SpaceRunMember(s, a, k, a);
    var l :| 0 <= k < l < |s| && s[l] == ';' && forall m :: k <= m < l ==> s[m] != ';';
    FirstSemicolonAfterRun(s, a, k, l);
  }

  lemma PragmaMatchIsFound(s: string, i: nat)
    requires PragmaMatchAt(s, i)
    ensures PragmaAt(s, i)
  {
    var j :| i + 6 < j && SpaceRun(s, i + 6, j) && SolidityThenVersion(s, j);
    RunBeforeWord(s, i + 6, j, "solidity");
    var k :| j + 8 < k && SpaceRun(s, j + 8, k) && VersionThenSemicolon(s, k);
    VersionFound(s, j + 8, k);
  }

  lemma PragmaAtIsRegexMatch(s: string, i: nat)
    ensures PragmaAt(s, i) <==> PragmaMatchAt(s, i)
  {
    if PragmaAt(s, i) {
      PragmaAtMatches(s, i);
    }
    if PragmaMatchAt(s, i) {
      PragmaMatchIsFound(s, i);
    }
  }

  lemma GateFindsMatches(code: string)
    requires IsValidSolidityContract(code)
    ensures SpdxOccurs(code) && PragmaOccurs(code)
  {
    var i :| 0 <= i < |code| && SpdxAt(code, i);
    SpdxAtMatches(code, i);
    var i' :| 0 <= i' < |code| && PragmaAt(code, i');
    PragmaAtMatches(code, i');
  }

  /** The gate accepts a text as soon as both patterns match somewhere in it. */
  lemma GateAcceptsMatches(s: string, i: int, i': int)
    requires SpdxMatchAt(s, i) && PragmaMatchAt(s, i')
    ensures IsValidSolidityContract(s)
  {
    SpdxMatchIsFound(s, i);
    PragmaMatchIsFound(s, i');
  }

  lemma GateAcceptsOccurrences(code: string)
    requires SpdxOccurs(code) && PragmaOccurs(code)
    ensures IsValidSolidityContract(code)
  {
    var i :| SpdxMatchAt(code, i);
    var i' :| PragmaMatchAt(code, i');
    GateAcceptsMatches(code, i, i');
  }

  /** The gate accepts exactly the texts in which both regular expressions
      find a match, anywhere and in either order. */
  lemma GateMeaning(code: string)
    ensures IsValidSolidityContract(code) <==> SpdxOccurs(code) && PragmaOccurs(code)
  {
    if IsValidSolidityContract(code) {
      GateFindsMatches(code);
    }
    if SpdxOccurs(code) && PragmaOccurs(code) {
      GateAcceptsOccurrences(code);
    }
  }

  lemma OccursShifts(p: string, t: string, q: string, w: string, i: int)
    requires OccursAt(t, w, i)
    ensures OccursAt(p + t + q, w, |p| + i)
  {
    SliceShift(p, t, q, i, i + |w|);
  }

  lemma SpaceRunShifts(p: string, t: string, q: string, a: int, b: int)
    requires SpaceRun(t, a, b)
    ensures SpaceRun(p + t + q, |p| + a, |p| + b)
  {
    SliceShift(p, t, q, a, b);
  }

  lemma SpdxTagThenValueShifts(p: string, t: string, q: string, j: int)
    requires SpdxTagThenValue(t, j)
    ensures SpdxTagThenValue(p + t + q, |p| + j)
  {
    var k :| SpaceRun(t, j + |SpdxTag|, k) && k < |t| && !IsSpace(t[k]);
    OccursShifts(p, t, q, SpdxTag, j);
    SpaceRunShifts(p, t, q, j + |SpdxTag|, k);
    assert (p + t + q)[|p| + k] == t[k];
  }

  lemma SpdxMatchShifts(p: string, t: string, q: string, i: int)
    requires SpdxMatchAt(t, i)
    ensures SpdxMatchAt(p + t + q, |p| + i)
  {
    var j :| SpaceRun(t, i + 2, j) && SpdxTagThenValue(t, j);
    OccursShifts(p, t, q, "//", i);
    SpaceRunShifts(p, t, q, i + 2, j);
    SpdxTagThenValueShifts(p, t, q, j);
  }

  lemma VersionThenSemicolonShifts(p: string, t: string, q: string, k: int)
    requires VersionThenSemicolon(t, k)
    ensures VersionThenSemicolon(p + t + q, |p| + k)
  {
    var u := p + t + q;
    var l :| 0 <= k < l < |t| && t[l] == ';' && forall m :: k <= m < l ==> t[m] != ';';
    assert u[|p| + l] == t[l];
    forall m | |p| + k <= m < |p| + l ensures u[m] != ';' {
      assert u[m] == t[m - |p|];
    }
  }

  lemma SolidityThenVersionShifts(p: string, t: string, q: string, j: int)
    requires SolidityThenVersion(t, j)
    ensures SolidityThenVersion(p + t + q, |p| + j)
  {
    var k :| j + 8 < k && SpaceRun(t, j + 8, k) && VersionThenSemicolon(t, k);
    OccursShifts(p, t, q, "solidity", j);
    SpaceRunShifts(p, t, q, j + 8, k);
    VersionThenSemicolonShifts(p, t, q, k);
  }

  lemma PragmaMatchShifts(p: string, t: string, q: string, i: int)
    requires PragmaMatchAt(t, i)
    ensures PragmaMatchAt(p + t + q, |p| + i)
  {
    var j :| i + 6 < j && SpaceRun(t, i + 6, j) && SolidityThenVersion(t, j);
    OccursShifts(p, t, q, "pragma", i);
    SpaceRunShifts(p, t, q, i + 6, j);
    SolidityThenVersionShifts(p, t, q, j);
  }

  lemma SpdxOccursAround(p: string, t: string, q: string)
    requires SpdxOccurs(t)
    ensures SpdxOccurs(p + t + q)
  {
    var i :| SpdxMatchAt(t, i);
    SpdxMatchShifts(p, t, q, i);
  }

  lemma PragmaOccursAround(p: string, t: string, q: string)
    requires PragmaOccurs(t)
    ensures PragmaOccurs(p + t + q)
  {
    var i :| PragmaMatchAt(t, i);
    PragmaMatchShifts(p, t, q, i);
  }

  /** Monotonicity: text around an accepted contract never makes it rejected. */
  lemma GateMonotone(p: string, t: string, q: string)
    requires IsValidSolidityContract(t)
    ensures IsValidSolidityContract(p + t + q)
  {
    GateFindsMatches(t);
    SpdxOccursAround(p, t, q);
    PragmaOccursAround(p, t, q);
    GateAcceptsOccurrences(p + t + q);
  }

  lemma JoinWithEmpty(a: string, b: string)
    ensures [] + a + b == a + b && a + b + [] == a + b
  {
  }

  /** Each pattern still matches once text is joined on either side. */
  lemma SpdxOccursInJoin(a: string, b: string)
    requires SpdxOccurs(a) || SpdxOccurs(b)
    ensures SpdxOccurs(a + b)
  {
    JoinWithEmpty(a, b);
    if SpdxOccurs(a) {
      SpdxOccursAround([], a, b);
    } else {
      SpdxOccursAround(a, b, []);
    }
  }

  lemma PragmaOccursInJoin(a: string, b: string)
    requires PragmaOccurs(a) || PragmaOccurs(b)
    ensures PragmaOccurs(a + b)
  {
    JoinWithEmpty(a, b);
    if PragmaOccurs(a) {
      PragmaOccursAround([], a, b);
    } else {
      PragmaOccursAround(a, b, []);
    }
  }

  /** Neither pattern is anchored: the licence comment and the pragma may
      come in either order. */
  lemma GateIgnoresOrder(x: string, y: string)
    requires SpdxOccurs(x) && PragmaOccurs(y)
    ensures IsValidSolidityContract(x + y) && IsValidSolidityContract(y + x)
  {
    SpdxOccursInJoin(x, y);
    PragmaOccursInJoin(x, y);
    GateMeaning(x + y);
    SpdxOccursInJoin(y, x);
    PragmaOccursInJoin(y, x);
    GateMeaning(y + x);
  }

  lemma EmptyRejected()
    ensures !IsValidSolidityContract("")
  {
  }

  /** A version for `[^;]+`: at least one character, none of them ';'. */
  predicate IsVersion(v: string) {
    v != [] && forall m :: 0 <= m < |v| ==> v[m] != ';'
  }

  /** A pragma line with one space on each side of "solidity" matches at its
      start. */
  lemma PragmaLineMatches(v: string)
    requires IsVersion(v)
    ensures PragmaMatchAt("pragma solidity " + v + ";", 0)
  {
    var s := "pragma solidity " + v + ";";
    assert s[0..6] == "pragma";
    assert s[6..7] == " " && s[7..15] == "solidity" && s[15..16] == " ";
    assert VersionThenSemicolon(s, 16) by {
      var l := 16 + |v|;
      assert s[l] == ';';
      forall m | 16 <= m < l ensures s[m] != ';' {
        assert s[m] == v[m - 16];
      }
    }
    assert SolidityThenVersion(s, 7);
  }

  lemma SpdxLineMatches()
    ensures SpdxMatchAt("// " + SpdxTag + " MIT", 0)
  {
    var s := "// " + SpdxTag + " MIT";
    OccursInMiddle("// ", SpdxTag, " MIT");
    assert s[2..3] == [s[2]] && s[27..28] == [s[27]];
    assert SpaceRun(s, 2, 3) && SpaceRun(s, 27, 28) && s[28] == 'M';
    assert SpdxTagThenValue(s, 3);
  }

  /** The alert says a contract must start with the licence comment and the
      pragma, yet a text whose first line is the pragma is accepted. */
  lemma HeaderNeedNotComeFirst(v: string, code: string)
    requires IsVersion(v)
    requires code == ("pragma solidity " + v + ";" + "\n") + ("// " + SpdxTag + " MIT")
    ensures IsValidSolidityContract(code) && !StartsWith(code, "//")
  {
    assert code[0] == 'p';
    assert code[..2][0] == code[0];
    var pragmaLine := "pragma solidity " + v + ";";
    var spdxLine := "// " + SpdxTag + " MIT";
    PragmaLineMatches(v);
    assert PragmaOccurs(pragmaLine);
    PragmaOccursInJoin(pragmaLine, "\n");
    SpdxLineMatches();
    assert SpdxOccurs(spdxLine);
    GateIgnoresOrder(spdxLine, pragmaLine + "\n");
  }

  /** `\s*` crosses a line break, so the first word of the next line is
      taken as the licence identifier. */
  lemma SpdxValueAfterLineBreak(rest: string)
    requires rest != [] && !IsSpace(rest[0])
    ensures SpdxMatchAt("// " + SpdxTag + "\n" + rest, 0)
  {
    var s := "// " + SpdxTag + "\n" + rest;
    OccursInMiddle("// ", SpdxTag, "\n" + rest);
    assert "// " + SpdxTag + ("\n" + rest) == s;
    assert s[2..3] == [s[2]] && s[27..28] == [s[27]];
    assert SpaceRun(s, 2, 3) && SpaceRun(s, 27, 28) && s[28] == rest[0];
    assert SpdxTagThenValue(s, 3);
  }

  /** So a contract whose licence line has no identifier is still accepted
      when a pragma follows on the next line. */
  lemma EmptyLicenceAccepted(v: string)
    requires IsVersion(v)
    ensures IsValidSolidityContract("// " + SpdxTag + "\n" + ("pragma solidity " + v + ";"))
  {
    var rest := "pragma solidity " + v + ";";
    SpdxValueAfterLineBreak(rest);
    PragmaLineMatches(v);
    PragmaOccursInJoin("// " + SpdxTag + "\n", rest);
    GateMeaning("// " + SpdxTag + "\n" + rest);
  }

  lemma BareSpdxTagNoMatchAt(w: string, i: nat)
    requires AllSpace(w) && i < |"// " + SpdxTag + w|
    ensures !SpdxAt("// " + SpdxTag + w, i)
  {
    var s := "// " + SpdxTag + w;
    if i == 0 {
      OccursInMiddle("// ", SpdxTag, w);
      assert s[2..3] == [s[2]] && s[3] == 'S';
      SkipSpaceIsMaximalRun(s, 2, 3);
      assert s[27..] == w;
      SkipSpaceIsMaximalRun(s, 27, |s|);
    } else if OccursAt(s, "//", i) {
      assert s[i + 1] == s[i..i + 2][1] == '/';
    }
  }

  /** A licence tag followed by nothing but whitespace does not match. */
  lemma BareSpdxTagRejected(w: string)
    requires AllSpace(w)
    ensures !SpdxOccurs("// " + SpdxTag + w)
  {
    var s := "// " + SpdxTag + w;
    forall i ensures !SpdxMatchAt(s, i) {
      if 0 <= i < |s| {
        SpdxAtIsRegexMatch(s, i);
        BareSpdxTagNoMatchAt(w, i);
      }
    }
  }

  /** In "pragma solidity" followed by whitespace and ';', the word
      "pragma" occurs only at the start. */
  lemma PragmaWordOnlyAtStart(w: string, i: int)
    requires AllSpace(w) && OccursAt("pragma solidity" + w + ";", "pragma", i)
    ensures i == 0
  {
    var h := "pragma solidity";
    var s := h + w + ";";
    assert s[i] == s[i..i + 6][0] == 'p';
    assert i + 6 <= |s|;
    JoinIndex(h, w, ";", i);
    assert !IsSpace(';');
    assert IndexOf(h, 'p', 1) == |h|;
  }

  /** With at least two whitespace characters the pragma matches: one for
      `\s+`, the rest for `[^;]+`. */
  lemma PragmaWithTwoSpacesMatches(w: string)
    requires AllSpace(w) && |w| >= 2
    ensures PragmaMatchAt("pragma solidity" + w + ";", 0)
  {
    var h := "pragma solidity";
    var s := h + w + ";";
    assert s[0..6] == "pragma" && s[7..15] == "solidity";
    assert s[6..7] == " ";
    assert s[15..16] == w[..1];
    assert SpaceRun(s, 15, 16);
    assert !IsSpace(';');
    assert VersionThenSemicolon(s, 16) by {
      assert s[|s| - 1] == ';';
      forall m | 16 <= m < |s| - 1 ensures s[m] != ';' {
        assert s[m] == w[m - 15];
      }
    }
    assert SolidityThenVersion(s, 7);
  }

  /** A match needs a whitespace character after "solidity" and another
      character before the ';', and only whitespace stands there. */
  lemma PragmaMatchNeedsTwoSpaces(w: string, i: int)
    requires AllSpace(w) && PragmaMatchAt("pragma solidity" + w + ";", i)
    ensures |w| >= 2
  {
    var h := "pragma solidity";
    var s := h + w + ";";
    PragmaWordOnlyAtStart(w, i);
    var j :| i + 6 < j && SpaceRun(s, i + 6, j) && SolidityThenVersion(s, j);
    assert s[7] == 's';
    SpaceRunMember(s, 6, j, 7);
    assert j == 7;
    var k :| j + 8 < k && SpaceRun(s, j + 8, k) && VersionThenSemicolon(s, k);
    var l :| 0 <= k < l < |s| && s[l] == ';' && forall m :: k <= m < l ==> s[m] != ';';
    assert !IsSpace(';');
    JoinIndex(h, w, ";", l);
  }

  /** `\s+` and `[^;]+` each need a character of their own: with only
      whitespace between "solidity" and ';', the pragma matches exactly when
      there are at least two whitespace characters. */
  lemma PragmaVersionNeedsACharacter(w: string)
    requires AllSpace(w)
    ensures PragmaOccurs("pragma solidity" + w + ";") <==> |w| >= 2
  {
    var s := "pragma solidity" + w + ";";
    if PragmaOccurs(s) {
      var i :| PragmaMatchAt(s, i);
      PragmaMatchNeedsTwoSpaces(w, i);
    }
    if |w| >= 2 {
      PragmaWithTwoSpacesMatches(w);
    }
  }

  /** The component's view of the page: the contract text it edits, the
      alerts it has shown and how many times it has called `analyze`. */
  class CustomCodeEditor {
    var contract: string
    var alerts: seq<string>
    var analyzeCalls: nat

    constructor(initial: string)
      ensures contract == initial && alerts == [] && analyzeCalls == 0
    {
      contract := initial;
      alerts := [];
      analyzeCalls := 0;
    }

    /** `handleAnalyze`: alert and stop when the gate rejects, call `analyze`
        once when it accepts; the contract text is never changed. */
    method HandleAnalyze()
      modifies this
      ensures contract == old(contract)
      ensures IsValidSolidityContract(contract) ==>
        analyzeCalls == old(analyzeCalls) + 1 && alerts == old(alerts)
      ensures !IsValidSolidityContract(contract) ==>
        analyzeCalls == old(analyzeCalls) && alerts == old(alerts) + [InvalidContractMessage]
    {
      if !IsValidSolidityContract(contract) {
        alerts := alerts + [InvalidContractMessage];
        return;
      }
      analyzeCalls := analyzeCalls + 1;
    }

    /** The editor's `onValueChange`: the typed text becomes the contract. */
    method Edit(code: string)
      modifies this
      ensures contract == code
      ensures alerts == old(alerts) && analyzeCalls == old(analyzeCalls)
    {
      contract := code;
    }

    /** `handleFileUpload` once the reader has loaded: the first selected
        file's text replaces the contract; with no file nothing changes. */
    method HandleFileUpload(file: Option<string>)
      modifies this
      ensures file.Some? ==> contract == file.value
      ensures file.None? ==> contract == old(contract)
      ensures alerts == old(alerts) && analyzeCalls == old(analyzeCalls)
    {
      if file.Some? {
        contract := file.value;
      }
    }
  }
}
