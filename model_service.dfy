/** `ModelService`: the chat-message framing around the language model, the
    completion extraction and de-duplication, and the analysis prompts. The
    model itself is an oracle: a `Sampler` maps a generation request to the
    decoded text of the new tokens, or to the message of the exception it raised. */
module Models {
  import opened Wrappers
  import opened PyStr

  const NotInitialized: string := "Model not initialized"
  const SystemPrompt: string := "You are Qwen, created by Alibaba Cloud. You are a helpful coding assistant."
  const Fence: string := "```"
  const CompletionTokens: int := 50
  const AnalysisTokens: int := 1024

  datatype ChatMessage = ChatMessage(role: string, content: string)

  /** One call of the model: the chat messages, the token budget, streaming, and
      which sample this is (successive samples of one prompt may differ). */
  datatype GenRequest = GenRequest(messages: seq<ChatMessage>, maxNewTokens: int, stream: bool, draw: int)

  type Sampler = GenRequest -> Result<string, string>

  /** What loading the tokenizer and then the model does. */
  datatype LoadOutcome = LoadOk | TokenizerLoadFailed(message: string) | ModelLoadFailed(message: string)

  /** The state of the `model` / `tokenizer` attributes: None, an object, or removed by `del`. */
  datatype Slot = Unset | Loaded | Deleted

  /** The cursor: `position.get('line', 0)` and `position.get('column', 0)`. */
  datatype Position = Position(line: Option<int>, column: Option<int>)

  /** The dictionary `analyze_code` returns. */
  datatype Analysis = Analysis(kind: string, analysis: string, code: string)

  /** The messages handed to the chat template: the system prompt, the context, then the user's prompt. */
  function BuildMessages(prompt: string, context: seq<ChatMessage>): (r: seq<ChatMessage>)
    ensures |r| == |context| + 2
    ensures r[0] == ChatMessage("system", SystemPrompt)
    ensures r[1..|r| - 1] == context
    ensures r[|r| - 1] == ChatMessage("user", prompt)
  {
    [ChatMessage("system", SystemPrompt)] + context + [ChatMessage("user", prompt)]
  }

  /** The code up to the cursor: the lines above it joined by newlines and, when
      the cursor line exists, a newline and that line up to the column. None
      stands for the `IndexError` of a line number below `-len(lines)`. */
  function CodeBefore(code: string, position: Position): (r: Option<string>)
    // only a line number further back than the first line raises
    ensures r.None? <==> position.line.GetOr(0) < -|Split(code, '\n')|
    // a cursor below the last line sees the whole code
    ensures position.line.GetOr(0) >= |Split(code, '\n')| ==> r == Some(code)
  {
    JoinSplit(code, '\n');
    var lines := Split(code, '\n');
    var line := position.line.GetOr(0);
    var col := position.column.GetOr(0);
    var head := Join(Take(lines, line), "\n");
    if line < |lines| then
      match At(lines, line)
      case None => None
      case Some(l) => Some(head + "\n" + Take(l, col))
    else
      assert Take(lines, line) == lines;
      Some(head)
  }

  /** A cursor on a line after the first yields a prefix of the code. */
  lemma CodeBeforeIsPrefix(code: string, position: Position)
    requires 1 <= position.line.GetOr(0) < |Split(code, '\n')|
    ensures CodeBefore(code, position).Some?
    ensures IsPrefix(CodeBefore(code, position).value, code)
  {
    var lines := Split(code, '\n');
    var line := position.line.GetOr(0);
    var l := lines[line];
    var col := position.column.GetOr(0);
    assert lines == lines[..line] + lines[line..];
    JoinAppend(lines[..line], lines[line..], "\n");
    JoinSplit(code, '\n');
    JoinStartsWithFirst(lines[line..], "\n");
    var head := Join(lines[..line], "\n");
    var tail := Join(lines[line..], "\n");
    assert code == head + "\n" + tail;
    assert IsPrefix(l, tail);
    var cut := Take(l, col);
    assert IsPrefix(cut, l);
    assert code[..|head| + 1 + |cut|] == head + "\n" + cut by {
      assert (head + "\n" + tail)[..|head| + 1 + |cut|] == head + "\n" + tail[..|cut|];
      assert tail[..|cut|] == l[..|cut|];
    }
  }

  /** A cursor on the first line gives a leading newline, so the result is not a prefix of the code. */
  lemma CodeBeforeFirstLine(code: string, position: Position)
    requires position.line.GetOr(0) == 0
    ensures CodeBefore(code, position) == Some("\n" + Take(Split(code, '\n')[0], position.column.GetOr(0)))
  {
    var lines := Split(code, '\n');
    assert Take(lines, 0) == [];
    assert Join(Take(lines, 0), "\n") == "";
    var cut := Take(lines[0], position.column.GetOr(0));
    assert "" + "\n" + cut == "\n" + cut;
  }

  function CompletionPrompt(codeBefore: string): string {
    "Complete the following code:\n\n```python\n" + codeBefore
  }

  /** The request `generate_response` hands to the model. */
  function ChatRequest(prompt: string, context: seq<ChatMessage>, stream: bool, maxNewTokens: int, draw: int): GenRequest {
    GenRequest(BuildMessages(prompt, context), maxNewTokens, stream, draw)
  }

  /** The request `get_code_completions` makes for its `draw`-th sample. */
  function CompletionRequest(codeBefore: string, draw: int): GenRequest {
    ChatRequest(CompletionPrompt(codeBefore), [], false, CompletionTokens, draw)
  }

  /** The completion part of a response: the text before the first fence, stripped. */
  function Completion(response: string): (c: string)
    ensures c == Strip(BeforeFirst(response, Fence))
  {
    if Contains(response, Fence) then Strip(BeforeFirst(response, Fence)) else
      BeforeFirstAbsent(response, Fence);
      Strip(response)
  }

  /** A substring of a text without `p` has no `p` either. */
  lemma NoPatternInPart(s: string, c: string, lo: int, p: string)
    requires OccursAt(s, c, lo) && !Contains(s, p)
    ensures !Contains(c, p)
  {
    if Contains(c, p) {
      assert s[lo..lo + |c|] == c;
      ContainsInSlice(s, lo, lo + |c|, p);
    }
  }

  /** A completion never contains a fence. */
  lemma CompletionHasNoFence(response: string)
    ensures !Contains(Completion(response), Fence)
  {
    var s := BeforeFirst(response, Fence);
    var c := Strip(s);
    BeforeFirstHasNoPattern(response, Fence);
    NoPatternInPart(s, c, LeadingSpace(s), Fence);
  }

  /** The suggestion a sample contributes; a failed sample contributes nothing here. */
  function CompletionOf(sample: Result<string, string>): string {
    if sample.Success? then Completion(sample.value) else ""
  }

  /** The suggestions of the first `n` samples, one per sample. */
  function Suggestions(sampler: Sampler, codeBefore: string, n: nat): (r: seq<string>)
    ensures |r| == n
  {
    if n == 0 then [] else Suggestions(sampler, codeBefore, n - 1) + [CompletionOf(sampler(CompletionRequest(codeBefore, n - 1)))]
  }

  /** Entry `k` of the suggestions is the completion of sample `k`. */
  lemma {:induction false} SuggestionAt(sampler: Sampler, codeBefore: string, n: nat, k: nat)
    requires k < n
    ensures Suggestions(sampler, codeBefore, n)[k] == CompletionOf(sampler(CompletionRequest(codeBefore, k)))
    decreases n
  {
    if k < n - 1 {
      SuggestionAt(sampler, codeBefore, n - 1, k);
    }
  }

  /** Every entry of the suggestions is the completion of its own sample. */
  lemma SuggestionsAt(sampler: Sampler, codeBefore: string, n: nat)
    ensures forall k :: 0 <= k < n ==>
              Suggestions(sampler, codeBefore, n)[k] == CompletionOf(sampler(CompletionRequest(codeBefore, k)))
  {
    forall k | 0 <= k < n
      ensures Suggestions(sampler, codeBefore, n)[k] == CompletionOf(sampler(CompletionRequest(codeBefore, k)))
    {
      SuggestionAt(sampler, codeBefore, n, k);
    }
  }

  /** Every one of the first `n` samples succeeds. */
  predicate AllSampled(sampler: Sampler, codeBefore: string, n: nat) {
    n == 0 || (AllSampled(sampler, codeBefore, n - 1) && sampler(CompletionRequest(codeBefore, n - 1)).Success?)
  }

  lemma {:induction false} AllSampledIff(sampler: Sampler, codeBefore: string, n: nat)
    ensures AllSampled(sampler, codeBefore, n) <==> forall k :: 0 <= k < n ==> sampler(CompletionRequest(codeBefore, k)).Success?
  {
    if n > 0 {
      AllSampledIff(sampler, codeBefore, n - 1);
    }
  }

  /** The suggestions `get_code_completions` returns once the model is loaded:
      the collected completions of `n` samples, or the empty list when the
      cursor line is out of range or any sample fails. */
  function Completions(code: string, position: Position, numSuggestions: int, sampler: Sampler): (r: seq<string>)
    ensures |r| <= (if numSuggestions < 0 then 0 else numSuggestions)
    ensures CodeBefore(code, position).None? ==> r == []
    ensures forall x :: x in r ==> x != ""
    ensures forall i, j :: 0 <= i < j < |r| ==> r[i] != r[j]
  {
    var n: nat := if numSuggestions < 0 then 0 else numSuggestions;
    match CodeBefore(code, position)
    case None => []
    case Some(cb) =>
      if AllSampled(sampler, cb, n) then
        CollectMembers(Suggestions(sampler, cb, n));
        Collect(Suggestions(sampler, cb, n))
      else []
  }

  /** A suggestion in the reply is exactly a non-empty completion of one of
      the `n` samples, when the cursor line exists and every sample
      succeeded; and no suggestion contains a code fence. */
  lemma CompletionsMembers(code: string, position: Position, numSuggestions: int, sampler: Sampler)
    ensures var n := if numSuggestions < 0 then 0 else numSuggestions;
            var before := CodeBefore(code, position);
            forall x :: x in Completions(code, position, numSuggestions, sampler) <==>
              && before.Some? && AllSampled(sampler, before.value, n) && x != ""
              && exists k :: 0 <= k < n && sampler(CompletionRequest(before.value, k)).Success?
                                  && x == Completion(sampler(CompletionRequest(before.value, k)).value)
    ensures forall x :: x in Completions(code, position, numSuggestions, sampler) ==> !Contains(x, Fence)
  {
    var n: nat := if numSuggestions < 0 then 0 else numSuggestions;
    var before := CodeBefore(code, position);
    if before.Some? && AllSampled(sampler, before.value, n) {
      var cb := before.value;
      var cs := Suggestions(sampler, cb, n);
      AllSampledIff(sampler, cb, n);
      SuggestionsAt(sampler, cb, n);
      CollectMembers(cs);
      assert Completions(code, position, numSuggestions, sampler) == Collect(cs);
      forall k | 0 <= k < n
        ensures cs[k] == Completion(sampler(CompletionRequest(cb, k)).value)
        ensures !Contains(cs[k], Fence)
      {
        CompletionHasNoFence(sampler(CompletionRequest(cb, k)).value);
      }
      forall x
        ensures x in cs <==> exists k :: 0 <= k < n && x == Completion(sampler(CompletionRequest(cb, k)).value)
      {
        if x in cs {
          var k :| 0 <= k < |cs| && cs[k] == x;
        }
      }
    }
  }

  /** The list `get_code_completions` builds: non-empty completions, each kept the first time it appears. */
  function Collect(cs: seq<string>): (r: seq<string>)
    ensures |r| <= |cs|
  {
    if |cs| == 0 then []
    else
      var init := Collect(cs[..|cs| - 1]);
      var c := cs[|cs| - 1];
      if c != "" && c !in init then init + [c] else init
  }

  /** The collected list holds exactly the non-empty completions, each once. */
  lemma {:induction false} CollectMembers(cs: seq<string>)
    ensures forall x :: x in Collect(cs) <==> x in cs && x != ""
    ensures forall i, j :: 0 <= i < j < |Collect(cs)| ==> Collect(cs)[i] != Collect(cs)[j]
    decreases |cs|
  {
    if |cs| > 0 {
      var c := cs[|cs| - 1];
      CollectMembers(cs[..|cs| - 1]);
      assert cs == cs[..|cs| - 1] + [c];
    }
  }

  /** Collecting one more completion appends it when it is new and non-empty. */
  lemma CollectStep(cs: seq<string>, c: string)
    ensures Collect(cs + [c]) == if c != "" && c !in Collect(cs) then Collect(cs) + [c] else Collect(cs)
  {
    assert (cs + [c])[..|cs|] == cs;
  }

  /** The suggestion list after one more successful sample. */
  lemma CollectNextSample(sampler: Sampler, codeBefore: string, i: nat)
    requires sampler(CompletionRequest(codeBefore, i)).Success?
    ensures var prev := Collect(Suggestions(sampler, codeBefore, i));
            var c := Completion(sampler(CompletionRequest(codeBefore, i)).value);
            Collect(Suggestions(sampler, codeBefore, i + 1)) == if c != "" && c !in prev then prev + [c] else prev
  {
    var c := Completion(sampler(CompletionRequest(codeBefore, i)).value);
    assert Suggestions(sampler, codeBefore, i + 1) == Suggestions(sampler, codeBefore, i) + [c];
    CollectStep(Suggestions(sampler, codeBefore, i), c);
  }

  /** Collecting keeps first appearances in order: a suggestion that appears
      before another in the result first appeared before it in the samples. */
  lemma {:induction false} CollectKeepsOrder(cs: seq<string>, i: int, j: int)
    requires 0 <= i < j < |Collect(cs)|
    ensures exists a, b :: 0 <= a < b < |cs| && cs[a] == Collect(cs)[i] && cs[b] == Collect(cs)[j]
                           && Collect(cs)[i] !in cs[..a] && Collect(cs)[j] !in cs[..b]
    decreases |cs|
  {
    var init := Collect(cs[..|cs| - 1]);
    var pre := cs[..|cs| - 1];
    var r := Collect(cs);
    CollectMembers(cs);
    CollectMembers(pre);
    assert r[i] in r;
    FirstIndex(cs, r[i]);
    var a :| 0 <= a < |cs| && cs[a] == r[i] && r[i] !in cs[..a];
    if j < |init| {
      assert r[i] == init[i] && r[j] == init[j];
      CollectKeepsOrder(pre, i, j);
      var a', b' :| 0 <= a' < b' < |pre| && pre[a'] == init[i] && pre[b'] == init[j]
                    && init[i] !in pre[..a'] && init[j] !in pre[..b'];
      assert cs[..a'] == pre[..a'] && cs[..b'] == pre[..b'];
    } else {
      assert r == init + [cs[|cs| - 1]] && j == |init|;
      var last := cs[|cs| - 1];
      assert last !in init && last != "";
      assert last !in pre;
      assert pre == cs[..|cs| - 1];
      assert r[i] in init;
      assert r[i] in pre;
      var a' :| 0 <= a' < |pre| && pre[a'] == r[i];
      FirstIndex(pre, r[i]);
      var a'' :| 0 <= a'' < |pre| && pre[a''] == r[i] && r[i] !in pre[..a''];
      assert cs[..a''] == pre[..a''];
      assert cs[..|cs| - 1] == pre;
    }
  }

  /** Every element of a sequence has a first position. */
  lemma {:induction false} FirstIndex(cs: seq<string>, x: string)
    requires x in cs
    ensures exists a :: 0 <= a < |cs| && cs[a] == x && x !in cs[..a]
    decreases |cs|
  {
    if cs[0] == x {
      assert cs[..0] == [];
    } else {
      FirstIndex(cs[1..], x);
      var a :| 0 <= a < |cs[1..]| && cs[1..][a] == x && x !in cs[1..][..a];
      assert cs[..a + 1] == [cs[0]] + cs[1..][..a];
    }
  }

  const ReviewLead: string := "Review this code and provide feedback on improvements"

  /** A lead sentence followed by the code in a fenced block. */
  function Framed(lead: string, code: string): string {
    lead + ":\n\n```\n" + code + "\n```"
  }

  /** The prompt for each analysis kind; an unknown kind gets the review prompt. */
  function AnalysisPrompt(code: string, kind: string): (p: string)
    ensures kind !in {"explain", "optimize", "debug"} ==> p == Framed(ReviewLead, code)
    ensures kind in {"explain", "optimize", "debug"} ==> p != Framed(ReviewLead, code)
  {
    if kind == "explain" then Framed("Explain what this code does", code)
    else if kind == "optimize" then Framed("Suggest optimizations for this code", code)
    else if kind == "debug" then Framed("Find potential bugs in this code", code)
    else Framed(ReviewLead, code)
  }

  class ModelService {
    var ready: bool
    var model: Slot
    var tokenizer: Slot

    constructor ()
      ensures !ready && model == Unset && tokenizer == Unset
    {
      ready := false;
      model := Unset;
      tokenizer := Unset;
    }

    /** `initialize`: the tokenizer is loaded, then the model; the service is ready
        only when both load, and a failure is re-raised (`error` is its message). */
    method Initialize(outcome: LoadOutcome) returns (error: Option<string>)
      modifies this
      ensures outcome == LoadOk ==> error == None && ready && model == Loaded && tokenizer == Loaded
      ensures outcome.TokenizerLoadFailed? ==>
                error == Some(outcome.message) && ready == old(ready) && model == old(model) && tokenizer == old(tokenizer)
      ensures outcome.ModelLoadFailed? ==>
                error == Some(outcome.message) && ready == old(ready) && model == old(model) && tokenizer == Loaded
    {
      match outcome
      case TokenizerLoadFailed(m) =>
        return Some(m);
      case ModelLoadFailed(m) =>
        tokenizer := Loaded;
        return Some(m);
      case LoadOk =>
        tokenizer := Loaded;
        model := Loaded;
        ready := true;
        return None;
    }

    /** `is_ready` */
    function IsReady(): (r: bool)
      reads this
      ensures r <==> ready
    {
      ready
    }

    /** `generate_response`: refused before initialisation; in streaming mode the
        text goes to the console and the result is the empty string. */
    method GenerateResponse(prompt: string, context: seq<ChatMessage>, stream: bool, maxNewTokens: int,
                            sampler: Sampler, draw: int) returns (r: Result<string, string>)
      ensures !ready ==> r == Failure(NotInitialized)
      ensures ready ==>
                var out := sampler(ChatRequest(prompt, context, stream, maxNewTokens, draw));
                && (r.Success? <==> out.Success?)
                && (out.Failure? ==> r == out)
                && (out.Success? ==> r.value == if stream then "" else out.value)
    {
      if !ready {
        return Failure(NotInitialized);
      }
      var out := sampler(ChatRequest(prompt, context, stream, maxNewTokens, draw));
      if out.Failure? {
        return out;
      }
      r := if stream then Success("") else out;
    }

    /** The sampling loop of `get_code_completions`: None as soon as a sample fails. */
    method SampleCompletions(cb: string, n: nat, sampler: Sampler) returns (r: Option<seq<string>>)
      requires ready
      ensures (forall k :: 0 <= k < n ==> sampler(CompletionRequest(cb, k)).Success?) ==>
                r == Some(Collect(Suggestions(sampler, cb, n)))
      ensures (exists k :: 0 <= k < n && sampler(CompletionRequest(cb, k)).Failure?) ==> r == None
    {
      var suggestions: seq<string> := [];
      var i := 0;
      while i < n
        invariant 0 <= i <= n
        invariant AllSampled(sampler, cb, i)
        invariant suggestions == Collect(Suggestions(sampler, cb, i))
      {
        var response := GenerateResponse(CompletionPrompt(cb), [], false, CompletionTokens, sampler, i);
        assert CompletionRequest(cb, i) == ChatRequest(CompletionPrompt(cb), [], false, CompletionTokens, i);
        if response.Failure? {
          assert sampler(CompletionRequest(cb, i)).Failure?;
          return None;
        }
        var completion := Completion(response.value);
        assert response.value == sampler(CompletionRequest(cb, i)).value;
        CollectNextSample(sampler, cb, i);
        if completion != "" && completion !in suggestions {
          suggestions := suggestions + [completion];
        }
        assert suggestions == Collect(Suggestions(sampler, cb, i + 1));
        i := i + 1;
      }
      AllSampledIff(sampler, cb, n);
      r := Some(suggestions);
    }

    /** `get_code_completions`: one sample per requested suggestion, each cut at its
        first fence and stripped, empties and repeats dropped. A failed sample or a
        cursor line out of range yields the empty list. */
    method GetCodeCompletions(code: string, position: Position, numSuggestions: int, sampler: Sampler)
      returns (r: Result<seq<string>, string>)
      ensures !ready ==> r == Failure(NotInitialized)
      ensures ready && CodeBefore(code, position).None? ==> r == Success([])
      ensures ready && CodeBefore(code, position).Some? ==>
                var cb := CodeBefore(code, position).value;
                var n := if numSuggestions < 0 then 0 else numSuggestions;
                && ((forall k :: 0 <= k < n ==> sampler(CompletionRequest(cb, k)).Success?) ==>
                      r == Success(Collect(Suggestions(sampler, cb, n))))
                && ((exists k :: 0 <= k < n && sampler(CompletionRequest(cb, k)).Failure?) ==>
                      r == Success([]))
      ensures r.Success? ==> |r.value| <= (if numSuggestions < 0 then 0 else numSuggestions)
      ensures ready ==> r == Success(Completions(code, position, numSuggestions, sampler))
    {
      if !ready {
        return Failure(NotInitialized);
      }
      var before := CodeBefore(code, position);
      if before.None? {
        return Success([]);
      }
      var n: nat := if numSuggestions < 0 then 0 else numSuggestions;
      var sampled := SampleCompletions(before.value, n, sampler);
      AllSampledIff(sampler, before.value, n);
      if sampled.None? {
        return Success([]);
      }
      var suggestions := sampled.value;
      assert |Suggestions(sampler, before.value, n)| == n;
      assert |suggestions| <= n;
      assert Take(suggestions, numSuggestions) == suggestions[..|suggestions|] == suggestions;
      r := Success(Take(suggestions, numSuggestions));
    }

    /** `analyze_code`: the result reports the requested kind even when an
        unknown kind fell back to the review prompt. */
    method AnalyzeCode(code: string, kind: string, sampler: Sampler, draw: int) returns (r: Result<Analysis, string>)
      ensures !ready ==> r == Failure(NotInitialized)
      ensures ready ==>
                var out := sampler(ChatRequest(AnalysisPrompt(code, kind), [], false, AnalysisTokens, draw));
                && (out.Success? ==> r == Success(Analysis(kind, out.value, code)))
                && (out.Failure? ==> r == Failure(out.error))
    {
      if !ready {
        return Failure(NotInitialized);
      }
      var response := GenerateResponse(AnalysisPrompt(code, kind), [], false, AnalysisTokens, sampler, draw);
      if response.Failure? {
        return Failure(response.error);
      }
      r := Success(Analysis(kind, response.value, code));
    }

    /** `cleanup`: each attribute holding an object is deleted. Reading an
        attribute an earlier cleanup deleted raises `AttributeError` (`ok` is
        false) and stops the cleanup there. */
    method Cleanup() returns (ok: bool)
      modifies this
      ensures old(model) == Deleted ==> !ok && model == old(model) && tokenizer == old(tokenizer) && ready == old(ready)
      ensures old(model) != Deleted ==> model == (if old(model) == Loaded then Deleted else Unset)
      ensures old(model) != Deleted && old(tokenizer) == Deleted ==> !ok && tokenizer == Deleted && ready == old(ready)
      ensures old(model) != Deleted && old(tokenizer) != Deleted ==>
                ok && !ready && tokenizer == (if old(tokenizer) == Loaded then Deleted else Unset)
    {
      if model == Deleted {
        return false;
      }
      if model == Loaded {
        model := Deleted;
      }
      if tokenizer == Deleted {
        return false;
      }
      if tokenizer == Loaded {
        tokenizer := Deleted;
      }
      ready := false;
      ok := true;
    }
  }
}
