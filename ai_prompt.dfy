/// The audit request and the clean-up of the model's reply (utils/ai-prompt.ts):
/// the two prompt templates, the two code-fence strippers and the sequence of
/// state updates `analyzeContract` and `fixIssues` perform.
module AiPrompt {
  import opened Text
  import opened Options

  const Fence := "```"
  const JsonOpener := "```json"

  // ---------------------------------------------------------------------
  // Prompt templates

  const AuditPromptHead := "You are an AI Smart Contract Auditor. Analyze this smart contract and provide a PRECISE JSON response. Remove any code blocks or extra formatting.\n\n    Smart Contract: "
  const AuditPromptTail :=
    "\n    \n    Respond EXACTLY in this JSON format, with no additional text:\n    [\n"
    + "      {\n        \"section\": \"Audit Report\",\n"
    + "        \"details\": \"Detailed audit report covering security, performance, and key aspects\"\n      },\n"
    + "      {\n        \"section\": \"Metric Scores\",\n        \"details\": [\n"
    + "          {\"metric\": \"Security\", \"score\": 7},\n"
    + "          {\"metric\": \"Performance\", \"score\": 6},\n"
    + "          {\"metric\": \"Other Key Areas\", \"score\": 5},\n"
    + "          {\"metric\": \"Gas Efficiency\", \"score\": 4},\n"
    + "          {\"metric\": \"Code Quality\", \"score\": 6},\n"
    + "          {\"metric\": \"Documentation\", \"score\": 3}\n        ]\n      },\n"
    + "      {\n        \"section\": \"Suggestions for Improvement\",\n"
    + "        \"details\": \"Key recommendations for enhancing the smart contract\"\n      }\n    ]"

  const FixPromptHead := "Fix this smart contract addressing these specific issues: "
  const FixPromptMiddle := "\n\n    Original Contract:\n    "
  const FixPromptTail := "\n    \n    Provide ONLY the corrected smart contract code. No additional explanation."

  /** The prompt of `analyzeContract`: the contract text is spliced, unescaped,
      between the fixed instructions and the fixed answer format. */
  function AuditPrompt(contract: string): string {
    AuditPromptHead + contract + AuditPromptTail
  }

  /** The contract appears verbatim in the audit prompt, right after the
      instructions, and the prompt is the template plus the contract's length. */
  lemma AuditPromptEmbedsContract(contract: string)
    ensures OccursAt(AuditPrompt(contract), contract, |AuditPromptHead|)
    ensures |AuditPrompt(contract)| == |AuditPromptHead| + |contract| + |AuditPromptTail|
  {
    OccursInMiddle(AuditPromptHead, contract, AuditPromptTail);
  }

  /** Different contracts give different prompts: the contract can be read
      back from the prompt, since the template around it has a fixed length. */
  lemma AuditPromptInjective(a: string, b: string)
    requires AuditPrompt(a) == AuditPrompt(b)
    ensures a == b
  {
    AuditPromptEmbedsContract(a);
    AuditPromptEmbedsContract(b);
  }

  /** The prompt of `fixIssues`: the suggestions, then the contract. */
  function FixPrompt(contract: string, suggestions: string): string {
    FixPromptHead + suggestions + FixPromptMiddle + contract + FixPromptTail
  }

  /** Both the suggestions and the contract appear verbatim in the fix prompt. */
  lemma FixPromptEmbedsBoth(contract: string, suggestions: string)
    ensures OccursAt(FixPrompt(contract, suggestions), suggestions, |FixPromptHead|)
    ensures OccursAt(FixPrompt(contract, suggestions), contract, |FixPromptHead| + |suggestions| + |FixPromptMiddle|)
  {
    var front := FixPromptHead + suggestions + FixPromptMiddle;
    var back := FixPromptMiddle + contract + FixPromptTail;
    assert FixPrompt(contract, suggestions) == FixPromptHead + suggestions + back;
    assert FixPrompt(contract, suggestions) == front + contract + FixPromptTail;
    OccursInMiddle(FixPromptHead, suggestions, back);
    OccursInMiddle(front, contract, FixPromptTail);
  }

  /** Nothing marks where the suggestions end and the contract begins: a
      suggestion that contains the template's own "Original Contract:" line
      yields the same prompt as a different split. */
  lemma FixPromptAmbiguous(x: string, y: string, z: string)
    ensures FixPrompt(y + FixPromptMiddle + z, x) == FixPrompt(z, x + FixPromptMiddle + y)
  {
    ShiftSplit(FixPromptHead, x, FixPromptMiddle, y, z, FixPromptTail);
  }

  lemma ShiftSplit(h: string, x: string, m: string, y: string, z: string, t: string)
    ensures h + x + m + (y + m + z) + t == h + (x + m + y) + m + z + t
  {
  }

  // ---------------------------------------------------------------------
  // Code-fence stripping

  /** `.replace(/^```json\s*\/, '')`: the lower-case opener and the whitespace
      after it are removed, and only at the very start of the reply. */
  function StripJsonOpener(reply: string): (r: string)
    ensures |r| <= |reply| && r == reply[|reply| - |r|..]
    ensures !StartsWith(reply, JsonOpener) ==> r == reply
    ensures StartsWith(reply, JsonOpener) ==>
      SpaceRun(reply, |JsonOpener|, |reply| - |r|) && (r == [] || !IsSpace(r[0]))
  {
    if StartsWith(reply, JsonOpener) then reply[SkipSpace(reply, |JsonOpener|)..] else reply
  }

  predicate IsLower(c: char) {
    'a' <= c <= 'z'
  }

  /** `s[i..j]` is a (possibly empty) run of lower-case letters. */
  ghost predicate LowerRun(s: string, i: int, j: int) {
    0 <= i <= j <= |s| && forall m :: i <= m < j ==> IsLower(s[m])
  }

  /** The end of the longest run of lower-case letters from `i`: what a
      greedy `[a-z]*` consumes. */
  function SkipLower(s: string, i: nat): (j: nat)
    requires i <= |s|
    ensures LowerRun(s, i, j)
    ensures j == |s| || !IsLower(s[j])
    decreases |s| - i
  {
    if i < |s| && IsLower(s[i]) then SkipLower(s, i + 1) else i
  }

  /** `.replace(/^```[a-z]*\s*\/, '')`: a fence with any lower-case language
      tag, and the whitespace after it, at the very start of the reply. */
  function StripCodeOpener(reply: string): (r: string)
    ensures |r| <= |reply| && r == reply[|reply| - |r|..]
    ensures !StartsWith(reply, Fence) ==> r == reply
    ensures StartsWith(reply, Fence) ==> |r| <= |reply| - |Fence| && (r == [] || !IsSpace(r[0]))
    ensures StartsWith(reply, Fence) ==>
      exists t :: LowerRun(reply, |Fence|, t) && (t == |reply| || !IsLower(reply[t]))
        && SpaceRun(reply, t, |reply| - |r|)
  {
    if StartsWith(reply, Fence) then reply[SkipSpace(reply, SkipLower(reply, |Fence|))..] else reply
  }

  /** The pattern /```\s*$/ matches at `i`: a fence followed by nothing but
      whitespace up to the end of the text. */
  predicate FenceEndsAt(s: string, i: int) {
    OccursAt(s, Fence, i) && AllSpace(s[i + |Fence|..])
  }

  /** Searching from `from` for a position where /```\s*$/ matches. */
  function FindTrailingFence(s: string, from: nat): (r: Option<nat>)
    requires from <= |s|
    ensures r.Some? ==> from <= r.value && FenceEndsAt(s, r.value)
    ensures r.None? ==> forall i :: from <= i ==> !FenceEndsAt(s, i)
    decreases |s| - from
  {
    if from + |Fence| > |s| then None
    else if FenceEndsAt(s, from) then Some(from)
    else FindTrailingFence(s, from + 1)
  }

  /** /```\s*$/ can match at one position at most: a second fence would lie
      in the whitespace that must follow the first. */
  lemma TrailingFenceUnique(s: string, i: int, j: int)
    requires FenceEndsAt(s, i) && FenceEndsAt(s, j)
    ensures i == j
  {
    assert s[i..i + 3][2] == s[i + 2];
    assert s[j..j + 3][2] == s[j + 2];
    assert s[i + 3..] == s[i + 3..|s|];
    assert s[j + 3..] == s[j + 3..|s|];
    SpaceRunMember(s, i + 3, |s|, j + 2);
    SpaceRunMember(s, j + 3, |s|, i + 2);
  }

  /** `.replace(/```\s*$/, '')`: without the `g` flag the first match is
      replaced, and there is at most one. */
  function StripTrailingFence(s: string): (r: string)
    ensures |r| <= |s| && r == s[..|r|]
    ensures (forall i :: !FenceEndsAt(s, i)) ==> r == s
    ensures (exists i :: FenceEndsAt(s, i)) ==> FenceEndsAt(s, |r|)
  {
    match FindTrailingFence(s, 0)
    case None => s
    case Some(i) => s[..i]
  }

  /** The fence that is removed is the one after which only whitespace
      follows; nothing before it is touched. */
  lemma StripTrailingFenceAt(s: string, i: int)
    requires FenceEndsAt(s, i)
    ensures StripTrailingFence(s) == s[..i]
  {
    TrailingFenceUnique(s, i, |StripTrailingFence(s)|);
  }

  /** The clean-up in `analyzeContract`: opener, trailing fence, `trim`. The
      result has no whitespace at its ends and is a piece of the reply. */
  function CleanJsonReply(reply: string): (cleaned: string)
    ensures NoEdgeSpace(cleaned)
    ensures Contains(reply, cleaned)
  {
    var r1 := StripJsonOpener(reply);
    var r2 := StripTrailingFence(r1);
    var r3 := Trim(r2);
    PieceOfPiece(reply, r1, r2, r3);
    r3
  }

  /** The clean-up in `fixIssues`: any lower-case tag after the opener. */
  function CleanCodeReply(reply: string): (cleaned: string)
    ensures NoEdgeSpace(cleaned)
    ensures Contains(reply, cleaned)
  {
    var r1 := StripCodeOpener(reply);
    var r2 := StripTrailingFence(r1);
    var r3 := Trim(r2);
    PieceOfPiece(reply, r1, r2, r3);
    r3
  }

  /** A suffix, then a prefix of it, then a `trim` of that, is a piece of
      the original text. */
  lemma PieceOfPiece(s: string, r1: string, r2: string, r3: string)
    requires |r1| <= |s| && r1 == s[|s| - |r1|..]
    requires |r2| <= |r1| && r2 == r1[..|r2|]
    requires r3 == Trim(r2)
    ensures Contains(s, r3)
  {
    assert OccursAt(s, r1, |s| - |r1|);
    assert OccursAt(r1, r2, 0);
    OccursTransitive(s, r1, r2, |s| - |r1|, 0);
    var a :| SpaceRun(r2, 0, a) && OccursAt(r2, r3, a) && SpaceRun(r2, a + |r3|, |r2|);
    OccursTransitive(s, r2, r3, |s| - |r1|, a);
  }

  /** Once the opener and its whitespace are gone, removing the fence and
      trimming leave the trimmed body. */
  lemma BodyThenFence(x: string, w: string)
    requires AllSpace(w)
    ensures Trim(StripTrailingFence(x[SkipSpace(x, 0)..] + Fence + w)) == Trim(x)
  {
    var c := SkipSpace(x, 0);
    var body := x[c..];
    var r := body + Fence + w;
    OccursInMiddle(body, Fence, w);
    assert r[|body| + |Fence|..] == w;
    StripTrailingFenceAt(r, |body|);
    assert r[..|body|] == body;
    TrimDropsLeadingSpace(x, c);
  }

  /** After an opener, the greedy `\s*` stops at the body's first
      non-space character, or at whatever follows an all-space body. */
  lemma SkipIntoBody(pre: string, x: string, rest: string)
    requires |rest| > 0 && !IsSpace(rest[0])
    ensures SkipSpace(pre + x + rest, |pre|) == |pre| + SkipSpace(x, 0)
    ensures (pre + x + rest)[|pre| + SkipSpace(x, 0)..] == x[SkipSpace(x, 0)..] + rest
  {
    var s := pre + x + rest;
    var c := SkipSpace(x, 0);
    assert SpaceRun(s, |pre|, |pre| + c) by {
      SliceShift(pre, x, rest, 0, c);
    }
    assert !IsSpace(s[|pre| + c]) by {
      JoinIndex(pre, x, rest, |pre| + c);
    }
    SkipSpaceIsMaximalRun(s, |pre|, |pre| + c);
    JoinSuffix(pre, x, rest, c);
  }

  lemma SkipLowerIsMaximalRun(s: string, i: nat, k: nat)
    requires LowerRun(s, i, k)
    requires k == |s| || !IsLower(s[k])
    ensures SkipLower(s, i) == k
  {
    var j := SkipLower(s, i);
  }

  /** The opener "```json" and the whitespace after it are removed. */
  lemma JsonOpenerOf(x: string, rest: string)
    requires |rest| > 0 && !IsSpace(rest[0])
    ensures StripJsonOpener(JsonOpener + x + rest) == x[SkipSpace(x, 0)..] + rest
  {
    var s := JsonOpener + x + rest;
    assert s[..|JsonOpener|] == JsonOpener;
    SkipIntoBody(JsonOpener, x, rest);
  }

  /** A reply fenced as "```json" + x + "```", with any whitespace after the
      closing fence, cleans to `trim(x)`: no fence marker is left and
      nothing is added. */
  lemma JsonFenceRoundTrip(x: string, w: string)
    requires AllSpace(w)
    ensures CleanJsonReply(JsonOpener + x + Fence + w) == Trim(x)
  {
    assert JsonOpener + x + (Fence + w) == JsonOpener + x + Fence + w;
    JsonOpenerOf(x, Fence + w);
    assert x[SkipSpace(x, 0)..] + (Fence + w) == x[SkipSpace(x, 0)..] + Fence + w;
    BodyThenFence(x, w);
  }

  /** The opener "```" + a lower-case tag, and the whitespace after it, are
      removed, when the body does not continue the tag. */
  lemma CodeOpenerOf(tag: string, x: string, rest: string)
    requires forall m :: 0 <= m < |tag| ==> IsLower(tag[m])
    requires x == [] || !IsLower(x[0])
    requires |rest| > 0 && !IsSpace(rest[0]) && !IsLower(rest[0])
    ensures StripCodeOpener(Fence + tag + x + rest) == x[SkipSpace(x, 0)..] + rest
  {
    var pre := Fence + tag;
    var s := pre + x + rest;
    assert s[..|Fence|] == Fence;
    forall m | |Fence| <= m < |pre| ensures IsLower(s[m]) {
      assert s[m] == tag[m - |Fence|];
    }
    assert s[|pre|] == if x == [] then rest[0] else x[0];
    SkipLowerIsMaximalRun(s, |Fence|, |pre|);
    SkipIntoBody(pre, x, rest);
  }

  /** The same for `fixIssues`: "```" + a lower-case tag + x + "```" cleans to
      `trim(x)`, as long as x does not itself start with a lower-case letter
      (a letter there would be taken as part of the tag). */
  lemma CodeFenceRoundTrip(tag: string, x: string, w: string)
    requires forall m :: 0 <= m < |tag| ==> IsLower(tag[m])
    requires x == [] || !IsLower(x[0])
    requires AllSpace(w)
    ensures CleanCodeReply(Fence + tag + x + Fence + w) == Trim(x)
  {
    var s := Fence + tag + x + (Fence + w);
    assert s == Fence + tag + x + Fence + w;
    CodeOpenerOf(tag, x, Fence + w);
    var r1 := StripCodeOpener(s);
    assert r1 == x[SkipSpace(x, 0)..] + Fence + w;
    BodyThenFence(x, w);
    assert Trim(StripTrailingFence(r1)) == Trim(x);
  }

  /** A reply with neither the opener nor a trailing fence is only trimmed. */
  lemma UnfencedReplyIsTrimmed(reply: string)
    requires !StartsWith(reply, JsonOpener)
    requires forall i :: !FenceEndsAt(reply, i)
    ensures CleanJsonReply(reply) == Trim(reply)
  {
  }

  /** Only "```json", in lower case, is taken as the opener: after "```JSON",
      a bare "```" or any other text not starting with `j`, the fence stays at
      the front of the cleaned text, which `JSON.parse` then rejects. */
  lemma OtherOpenerKept(x: string, w: string)
    requires x == [] || x[0] != 'j'
    requires AllSpace(w)
    ensures CleanJsonReply(Fence + x + Fence + w) == Trim(Fence + x)
    ensures StartsWith(CleanJsonReply(Fence + x + Fence + w), Fence)
  {
    var s := Fence + x + Fence + w;
    var front := Fence + x;
    assert s == front + Fence + w;
    assert s[3] == if x == [] then '`' else x[0];
    assert |s| >= |JsonOpener| ==> s[..|JsonOpener|][3] == s[3];
    assert !StartsWith(s, JsonOpener);
    OccursInMiddle(front, Fence, w);
    assert s[|front| + |Fence|..] == w;
    StripTrailingFenceAt(s, |front|);
    assert s[..|front|] == front;
    TrimKeepsFence(front);
  }

  /** `trim` never cuts into a leading fence: its backticks are not whitespace. */
  lemma TrimKeepsFence(front: string)
    requires StartsWith(front, Fence)
    ensures StartsWith(Trim(front), Fence)
  {
    var r := Trim(front);
    var a :| SpaceRun(front, 0, a) && OccursAt(front, r, a) && SpaceRun(front, a + |r|, |front|);
    assert front[..3][0] == front[0] && front[..3][2] == front[2];
    SpaceRunMember(front, 0, a, 0);
    SpaceRunMember(front, a + |r|, |front|, 2);
    assert r == front[0..|r|];
    assert r[..|Fence|] == front[..|Fence|];
  }

  /** With no `g` flag only one trailing fence goes: a reply ending in two
      fences keeps the first, and what is left ends in a fence again. */
  lemma OnlyOneTrailingFenceRemoved(x: string, w: string)
    requires AllSpace(w)
    ensures StripTrailingFence(x + Fence + "\n" + Fence + w) == x + Fence + "\n"
    ensures FenceEndsAt(x + Fence + "\n", |x|)
  {
    var front := x + Fence + "\n";
    var s := front + Fence + w;
    OccursInMiddle(front, Fence, w);
    assert s[|front| + |Fence|..] == w;
    StripTrailingFenceAt(s, |front|);
    assert s[..|front|] == front;
    OccursInMiddle(x, Fence, "\n");
    assert front[|x| + |Fence|..] == "\n";
  }

  // ---------------------------------------------------------------------
  // The requests' state updates

  /** What `generateContent` gave for the prompt: the reply's text, or an
      exception. */
  datatype Reply = Replied(text: string) | Failed

  /** One call of a state setter. */
  datatype Effect<R> =
    | SetLoading(on: bool)
    | SetResults(value: R)
    | SetContract(text: string)

  /** The page state the setters change. */
  datatype PageState<R> = PageState(loading: bool, results: Option<R>, contract: string)

  function Apply<R>(st: PageState<R>, e: Effect<R>): PageState<R> {
    match e
    case SetLoading(on) => st.(loading := on)
    case SetResults(v) => st.(results := Some(v))
    case SetContract(t) => st.(contract := t)
  }

  /** The state after a sequence of setter calls, made in order. */
  function Replay<R>(st: PageState<R>, es: seq<Effect<R>>): PageState<R>
    decreases |es|
  {
    if es == [] then st else Replay(Apply(st, es[0]), es[1..])
  }

  /** Replaying two sequences one after the other is replaying their join. */
  lemma {:induction false} ReplayAppend<R>(st: PageState<R>, a: seq<Effect<R>>, b: seq<Effect<R>>)
    ensures Replay(st, a + b) == Replay(Replay(st, a), b)
    decreases |a|
  {
    if a == [] {
      assert a + b == b;
    } else {
      assert (a + b)[0] == a[0];
      assert (a + b)[1..] == a[1..] + b;
      ReplayAppend(Apply(st, a[0]), a[1..], b);
    }
  }

  lemma ReplayOne<R>(st: PageState<R>, e: Effect<R>)
    ensures Replay(st, [e]) == Apply(st, e)
  {
    assert [e][1..] == [];
  }

  /** The setter call in the `try` block that stores the outcome, when the
      block gets that far. */
  function Store<R>(stored: Option<Effect<R>>): seq<Effect<R>> {
    match stored
    case None => []
    case Some(e) => [e]
  }

  /** The setter calls of both requests, in order: loading on before the
      model is asked, the store of the outcome when the `try` block reaches
      it, and loading off, from the `try` block or from the `catch` block. */
  function SetterCalls<R>(stored: Option<Effect<R>>): seq<Effect<R>> {
    [SetLoading(true)] + Store(stored) + [SetLoading(false)]
  }

  /** The stored outcome of both requests sets the results or the contract,
      never the loading flag. */
  predicate LeavesLoading<R>(stored: Option<Effect<R>>) {
    stored.None? || !stored.value.SetLoading?
  }

  /** Loading is on after every setter call but the last, and off after the
      last: the page shows the request as running from its first statement
      until it settles, on success and on failure. */
  lemma LoadingOnUntilSettled<R>(st: PageState<R>, stored: Option<Effect<R>>, k: nat)
    requires LeavesLoading(stored)
    requires 1 <= k <= |SetterCalls(stored)|
    ensures Replay(st, SetterCalls(stored)[..k]).loading <==> k < |SetterCalls(stored)|
  {
    var es := SetterCalls(stored);
    var on := [SetLoading(true)];
    assert es[..1] == on;
    ReplayOne(st, SetLoading(true));
    if k == |es| {
      assert es[..k] == es;
      SetterCallsOutcome(st, stored);
    } else if k == 2 {
      assert es[..2] == on + [stored.value];
      ReplayAppend(st, on, [stored.value]);
      ReplayOne(st.(loading := true), stored.value);
    }
  }

  /** Replaying the setter calls leaves loading off and applies the stored
      outcome, if any, to the state the request started from. */
  lemma SetterCallsOutcome<R>(st: PageState<R>, stored: Option<Effect<R>>)
    ensures Replay(st, SetterCalls(stored))
      == (if stored.Some? then Apply(st, stored.value) else st).(loading := false)
  {
    var on := [SetLoading(true)];
    var mid := Store(stored);
    ReplayAppend(st, on + mid, [SetLoading(false)]);
    ReplayAppend(st, on, mid);
    ReplayOne(st, SetLoading(true));
    if stored.Some? {
      ReplayOne(st.(loading := true), stored.value);
    }
    ReplayOne(Replay(st, on + mid), SetLoading(false));
  }

  /** The first setter call alone switches loading on. */
  lemma FirstSetterCall<R>(st: PageState<R>, stored: Option<Effect<R>>)
    ensures Replay(st, SetterCalls(stored)[..1]) == st.(loading := true)
  {
    assert SetterCalls(stored)[..1] == [SetLoading(true)];
    ReplayOne(st, SetLoading(true));
  }

  /** What `JSON.parse` returns for the cleaned reply, or None when the model
      call or the parse throws. `parse` stands for `JSON.parse`. */
  function ParsedAudit<R>(reply: Reply, parse: string -> Option<R>): Option<R> {
    match reply
    case Failed => None
    case Replied(text) => parse(CleanJsonReply(text))
  }

  /** The setter call `analyzeContract` makes with its outcome: `setResults`
      with the parsed audit, when the parse succeeds. */
  function AuditStore<R>(parsed: Option<R>): (stored: Option<Effect<R>>)
    ensures LeavesLoading(stored)
    ensures stored.Some? <==> parsed.Some?
  {
    match parsed
    case None => None
    case Some(v) => Some(SetResults(v))
  }

  /** After `analyzeContract` loading is off, the contract is untouched, and
      the results are the parsed reply or, when anything failed, what they
      were before. */
  lemma AnalyzeOutcome<R>(st: PageState<R>, parsed: Option<R>)
    ensures Replay(st, SetterCalls(AuditStore(parsed)))
      == st.(loading := false, results := if parsed.Some? then parsed else st.results)
  {
    SetterCallsOutcome(st, AuditStore(parsed));
  }

  /** The setter call `fixIssues` makes with its outcome: `setContract` with
      the cleaned reply, when the model answered. */
  function FixStore<R>(reply: Reply): (stored: Option<Effect<R>>)
    ensures LeavesLoading(stored)
    ensures stored.Some? <==> reply.Replied?
  {
    match reply
    case Failed => None
    case Replied(text) => Some(SetContract(CleanCodeReply(text)))
  }

  /** After `fixIssues` loading is off, the results are untouched, and the
      contract is the cleaned reply or, when the call failed, what it was. */
  lemma FixOutcome<R>(st: PageState<R>, reply: Reply)
    ensures Replay(st, SetterCalls(FixStore<R>(reply)))
      == st.(loading := false, contract := if reply.Replied? then CleanCodeReply(reply.text) else st.contract)
  {
    SetterCallsOutcome(st, FixStore<R>(reply));
  }

  /** The page state `analyzeContract` and `fixIssues` write through their
      setter arguments. */
  class Session<R> {
    var loading: bool
    var results: Option<R>
    var contract: string

    function State(): PageState<R>
      reads this
    {
      PageState(loading, results, contract)
    }

    /** The page's initial state: not loading, no results, empty contract. */
    constructor()
      ensures State() == PageState(false, None, "")
    {
      loading := false;
      results := None;
      contract := "";
    }

    /** `analyzeContract(contract, setResults, setLoading)`, given what the
        model replied to `AuditPrompt(contract)` and `JSON.parse`. `awaiting`
        is the page state while `generateContent` is awaited. Both the `try`
        and the `catch` block end with `setLoading(false)`. */
    method AnalyzeContract(reply: Reply, parse: string -> Option<R>) returns (ghost awaiting: PageState<R>)
      modifies this
      ensures awaiting == old(State()).(loading := true)
      ensures awaiting == Replay(old(State()), SetterCalls(AuditStore(ParsedAudit(reply, parse)))[..1])
      ensures State() == Replay(old(State()), SetterCalls(AuditStore(ParsedAudit(reply, parse))))
      ensures !loading && contract == old(contract)
      ensures results == if ParsedAudit(reply, parse).Some? then ParsedAudit(reply, parse) else old(results)
    {
      loading := true;
      awaiting := State();
      var parsed: Option<R> := None;
      if reply.Replied? {
        parsed := parse(CleanJsonReply(reply.text));
      }
      if parsed.Some? {
        results := parsed;
      }
      loading := false;
      AnalyzeOutcome(old(State()), parsed);
      FirstSetterCall(old(State()), AuditStore(parsed));
    }

    /** `fixIssues(contract, suggestions, setContract, setLoading)`, given
        what the model replied to `FixPrompt(contract, suggestions)`. */
    method FixIssues(reply: Reply) returns (ghost awaiting: PageState<R>)
      modifies this
      ensures awaiting == old(State()).(loading := true)
      ensures awaiting == Replay(old(State()), SetterCalls(FixStore(reply))[..1])
      ensures State() == Replay(old(State()), SetterCalls(FixStore(reply)))
      ensures !loading && results == old(results)
      ensures contract == if reply.Replied? then CleanCodeReply(reply.text) else old(contract)
    {
      loading := true;
      awaiting := State();
      if reply.Replied? {
        var fixedContract := CleanCodeReply(reply.text);
        contract := fixedContract;
      }
      loading := false;
      FixOutcome(old(State()), reply);
      FirstSetterCall(old(State()), FixStore<R>(reply));
    }
  }
}
