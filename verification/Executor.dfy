/** How an execution turns model output into callbacks, content and counts
    (src/executor/executor.ts: the token loop, race and fanout). */
module Executor {
  import opened Prelude
  import opened KeyOrder
  import opened Json
  import opened JsonText
  import opened JsonReader

  datatype StreamEvent = Token(value: Text) | Other

  datatype Callback = FirstToken | OnToken(value: Text)

  /** The non-empty tokens of a stream, in order. */
  function Tokens(events: seq<StreamEvent>): seq<Text> {
    if events == [] then []
    else
      var before := Tokens(Front(events));
      if Last(events).Token? && Last(events).value != [] then before + [Last(events).value] else before
  }

  function Concat(tokens: seq<Text>): Text {
    if tokens == [] then [] else Concat(Front(tokens)) + Last(tokens)
  }

  /** FirstToken once, just before the first token, if there is any. */
  function CallbacksFor(tokens: seq<Text>): seq<Callback> {
    if tokens == [] then []
    else [FirstToken] + OnTokens(tokens)
  }

  function OnTokens(tokens: seq<Text>): seq<Callback> {
    seq(|tokens|, i requires 0 <= i < |tokens| => OnToken(tokens[i]))
  }

  method ConsumeStream(events: seq<StreamEvent>) returns (content: Text, tokenCount: nat, callbacks: seq<Callback>)
    ensures content == Concat(Tokens(events)) && tokenCount == |Tokens(events)|
    ensures callbacks == CallbacksFor(Tokens(events))
  {
    var firstTokenEmitted := false;
    content, tokenCount, callbacks := [], 0, [];
    for i := 0 to |events|
      invariant content == Concat(Tokens(events[..i])) && tokenCount == |Tokens(events[..i])|
      invariant firstTokenEmitted <==> tokenCount > 0
      invariant callbacks == CallbacksFor(Tokens(events[..i]))
    {
      assert Front(events[..i + 1]) == events[..i];
      var event := events[i];
      if event.Token? && event.value != [] {
        ghost var tokens := Tokens(events[..i]);
        assert Front(tokens + [event.value]) == tokens;
        if !firstTokenEmitted {
          firstTokenEmitted := true;
          callbacks := callbacks + [FirstToken];
        }
        content := content + event.value;
        tokenCount := tokenCount + 1;
        callbacks := callbacks + [OnToken(event.value)];
      }
    }
    assert events[..|events|] == events;
  }

  // ---- order ----

  lemma {:induction false} TokensSplit(a: seq<StreamEvent>, b: seq<StreamEvent>)
    ensures Tokens(a + b) == Tokens(a) + Tokens(b)
    decreases |b|
  {
    if b == [] {
      assert a + b == a;
    } else {
      assert Front(a + b) == a + Front(b);
      TokensSplit(a, Front(b));
    }
  }

  lemma {:induction false} ConcatSplits(x: seq<Text>, y: seq<Text>)
    ensures Concat(x + y) == Concat(x) + Concat(y)
    decreases |y|
  {
    if y == [] {
      assert x + y == x;
    } else {
      assert Front(x + y) == x + Front(y);
      ConcatSplits(x, Front(y));
    }
  }

  /** However a stream is cut in two, its content is that of the first part and
      then that of the second, and the counts add up. */
  lemma ContentSplits(a: seq<StreamEvent>, b: seq<StreamEvent>)
    ensures Concat(Tokens(a + b)) == Concat(Tokens(a)) + Concat(Tokens(b))
    ensures |Tokens(a + b)| == |Tokens(a)| + |Tokens(b)|
  {
    TokensSplit(a, b);
    ConcatSplits(Tokens(a), Tokens(b));
  }

  /** One event gives its token as content, counted unless it is empty. */
  lemma ContentOfOne(e: StreamEvent)
    ensures Concat(Tokens([e])) == if e.Token? then e.value else []
    ensures |Tokens([e])| == if e.Token? && |e.value| > 0 then 1 else 0
  {
    assert Front([e]) == [] && Last([e]) == e;
    if e.Token? && e.value != [] {
      assert Tokens([e]) == [] + [e.value];
      assert Front([e.value]) == [] && Last([e.value]) == e.value;
    }
  }

  /** So every token stands in the content where the content before it ends. */
  lemma TokenStandsAt(a: seq<StreamEvent>, value: Text, b: seq<StreamEvent>)
    ensures var content := Concat(Tokens(a + [Token(value)] + b));
            var start := |Concat(Tokens(a))|;
            start + |value| <= |content| && content[start..start + |value|] == value
            && content[..start] == Concat(Tokens(a))
  {
    ContentSplits(a, [Token(value)]);
    ContentSplits(a + [Token(value)], b);
    ContentOfOne(Token(value));
  }

  /** The callbacks of a stream are those of its first part and then those of
      the second, less its first-token callback if the first part had one. */
  lemma CallbacksSplit(a: seq<StreamEvent>, b: seq<StreamEvent>)
    ensures var x, y := CallbacksFor(Tokens(a)), CallbacksFor(Tokens(b));
            CallbacksFor(Tokens(a + b)) == if x == [] then y else if y == [] then x else x + y[1..]
  {
    TokensSplit(a, b);
    var s, t := Tokens(a), Tokens(b);
    if s == [] {
      assert s + t == t;
    } else if t == [] {
      assert s + t == s;
    } else {
      CallbacksJoin(s, t);
    }
  }

  lemma CallbacksJoin(s: seq<Text>, t: seq<Text>)
    requires s != [] && t != []
    ensures CallbacksFor(s + t) == CallbacksFor(s) + CallbacksFor(t)[1..]
  {
    OnTokensJoin(s, t);
    assert CallbacksFor(t)[1..] == OnTokens(t);
    assert [FirstToken] + (OnTokens(s) + OnTokens(t)) == [FirstToken] + OnTokens(s) + OnTokens(t);
  }

  lemma OnTokensJoin(s: seq<Text>, t: seq<Text>)
    ensures OnTokens(s + t) == OnTokens(s) + OnTokens(t)
  {
    var whole, parts := OnTokens(s + t), OnTokens(s) + OnTokens(t);
    forall i | 0 <= i < |s| + |t| ensures whole[i] == parts[i] {
      assert (s + t)[i] == if i < |s| then s[i] else t[i - |s|];
    }
  }

  lemma CallbacksOfOne(e: StreamEvent)
    ensures CallbacksFor(Tokens([e])) == if e.Token? && |e.value| > 0 then [FirstToken, OnToken(e.value)] else []
  {
    assert Front([e]) == [] && Last([e]) == e;
    assert Tokens([e]) == if e.Token? && e.value != [] then [] + [e.value] else [];
  }

  /** A stream reports its first token exactly when it ends with some content. */
  lemma FirstTokenIffContent(events: seq<StreamEvent>)
    ensures FirstToken in CallbacksFor(Tokens(events)) <==> Concat(Tokens(events)) != []
  {
    TokensAreNonEmpty(events);
    if Tokens(events) != [] {
      assert Last(Tokens(events)) != [];
      assert CallbacksFor(Tokens(events))[0] == FirstToken;
    }
  }

  lemma {:induction false} TokensAreNonEmpty(events: seq<StreamEvent>)
    ensures forall i :: 0 <= i < |Tokens(events)| ==> Tokens(events)[i] != []
    decreases |events|
  {
    if events != [] {
      TokensAreNonEmpty(Front(events));
    }
  }

  // ---- race and fanout ----

  /** The state a race's winner or a fanout's branch ends in; what it does not
      know is None. */
  datatype Branch = Branch(
    content: Option<Text>,
    tokenCount: Option<nat>,
    inputTokens: Option<nat>,
    outputTokens: Option<nat>)

  datatype Usage = Usage(tokenCount: nat, inputTokens: nat, outputTokens: nat)

  function OrElse<T>(o: Option<T>, default: T): T {
    if o.Some? then o.value else default
  }

  /** Output tokens default to the token count, the rest to 0. */
  function UsageOf(branch: Branch): Usage {
    var count := OrElse(branch.tokenCount, 0);
    Usage(count, OrElse(branch.inputTokens, 0), OrElse(branch.outputTokens, count))
  }

  function RaceCallbacks(content: Text): seq<Callback> {
    if |content| > 0 then [FirstToken] else []
  }

  /** The race branch: the winner's stream has been consumed, so all it can
      report of the tokens is that there was a first one. */
  method RaceResult(winner: Branch) returns (content: Text, usage: Usage, callbacks: seq<Callback>)
    ensures content == (match winner.content case Some(text) => text case None => [])
    ensures usage.tokenCount == (match winner.tokenCount case Some(n) => n case None => 0)
    ensures usage.inputTokens == (match winner.inputTokens case Some(n) => n case None => 0)
    ensures usage.outputTokens == (match winner.outputTokens case Some(n) => n case None => usage.tokenCount)
    ensures callbacks == RaceCallbacks(content)
  {
    content := OrElse(winner.content, []);
    var tokenCount := OrElse(winner.tokenCount, 0);
    callbacks := [];
    if |content| > 0 {
      callbacks := [FirstToken];
    }
    usage := Usage(tokenCount, OrElse(winner.inputTokens, 0), OrElse(winner.outputTokens, tokenCount));
  }

  /** The callbacks that reach the task's history: OnToken is not among them. */
  function Milestones(callbacks: seq<Callback>): seq<Callback> {
    if callbacks == [] then []
    else Milestones(Front(callbacks)) + if Last(callbacks) == FirstToken then [FirstToken] else []
  }

  lemma {:induction false} TokensAreNoMilestones(tokens: seq<Text>)
    ensures Milestones(CallbacksFor(tokens)) == if tokens == [] then [] else [FirstToken]
    decreases |tokens|
  {
    if |tokens| == 1 {
      assert Front(CallbacksFor(tokens)) == [FirstToken];
      assert Milestones(Front([FirstToken])) == [];
    } else if |tokens| > 1 {
      assert Front(CallbacksFor(tokens)) == CallbacksFor(Front(tokens));
      TokensAreNoMilestones(Front(tokens));
    }
  }

  /** Racing a model and consuming its stream put the same milestones into the
      task's history whenever they end in the same content. */
  lemma RaceAgreesWithLoop(winner: Branch, events: seq<StreamEvent>)
    requires OrElse(winner.content, []) == Concat(Tokens(events))
    ensures RaceCallbacks(OrElse(winner.content, [])) == Milestones(CallbacksFor(Tokens(events)))
  {
    FirstTokenIffContent(events);
    TokensAreNoMilestones(Tokens(events));
  }

  function OutputOf(result: Option<Branch>): Text {
    if result.Some? then OrElse(result.value.content, []) else []
  }

  function Outputs(results: seq<Option<Branch>>): seq<Text> {
    seq(|results|, i requires 0 <= i < |results| => OutputOf(results[i]))
  }

  function TotalUsage(results: seq<Option<Branch>>): Usage {
    if results == [] then Usage(0, 0, 0)
    else
      var before := TotalUsage(Front(results));
      if Last(results).None? then before
      else
        var more := UsageOf(Last(results).value);
        Usage(before.tokenCount + more.tokenCount, before.inputTokens + more.inputTokens,
              before.outputTokens + more.outputTokens)
  }

  /** The totals of one branch alone: its own counts, with output tokens taken
      as its token count where unknown. */
  lemma UsageOfOne(result: Option<Branch>)
    ensures var usage := TotalUsage([result]);
            match result
            case None => usage == Usage(0, 0, 0)
            case Some(Branch(_, tokenCount, inputTokens, outputTokens)) =>
              && (tokenCount.Some? ==> usage.tokenCount == tokenCount.value)
              && (tokenCount.None? ==> usage.tokenCount == 0)
              && (inputTokens.Some? ==> usage.inputTokens == inputTokens.value)
              && (inputTokens.None? ==> usage.inputTokens == 0)
              && (outputTokens.Some? ==> usage.outputTokens == outputTokens.value)
              && (outputTokens.None? ==> usage.outputTokens == usage.tokenCount)
  {
    assert Front([result]) == [] && Last([result]) == result;
    assert TotalUsage([]) == Usage(0, 0, 0);
  }

  /** And the totals of more are the sums, count by count. */
  lemma {:induction false} UsageAdds(a: seq<Option<Branch>>, b: seq<Option<Branch>>)
    ensures var x, y, z := TotalUsage(a), TotalUsage(b), TotalUsage(a + b);
            && z.tokenCount == x.tokenCount + y.tokenCount
            && z.inputTokens == x.inputTokens + y.inputTokens
            && z.outputTokens == x.outputTokens + y.outputTokens
    decreases |b|
  {
    if b == [] {
      assert a + b == a;
    } else {
      assert Front(a + b) == a + Front(b);
      UsageAdds(a, Front(b));
    }
  }

  function AsArray(outputs: seq<Text>): Json {
    Arr(seq(|outputs|, i requires 0 <= i < |outputs| => Str(outputs[i])))
  }

  /** A branch without a result contributes an empty output and no tokens. */
  method AggregateFanout(results: seq<Option<Branch>>) returns (content: Text, usage: Usage)
    ensures content == Stringify(AsArray(Outputs(results))) && usage == TotalUsage(results)
  {
    var outputs: seq<Text> := [];
    var totalTokens, totalInput, totalOutput := 0, 0, 0;
    for i := 0 to |results|
      invariant outputs == Outputs(results[..i])
      invariant Usage(totalTokens, totalInput, totalOutput) == TotalUsage(results[..i])
    {
      assert Front(results[..i + 1]) == results[..i];
      if results[i].None? {
        outputs := outputs + [[]];
        continue;
      }
      var state := results[i].value;
      var count := OrElse(state.tokenCount, 0);
      outputs := outputs + [OrElse(state.content, [])];
      totalTokens := totalTokens + count;
      totalInput := totalInput + OrElse(state.inputTokens, 0);
      totalOutput := totalOutput + OrElse(state.outputTokens, count);
    }
    assert results[..|results|] == results;
    content := Stringify(AsArray(outputs));
    usage := Usage(totalTokens, totalInput, totalOutput);
  }

  /** The content is JSON text of an array of strings, one for each branch in
      order: its content, or nothing. */
  lemma FanoutReadsBack(results: seq<Option<Branch>>)
    ensures var read := ReadJson(Stringify(AsArray(Outputs(results))));
            && read.Some? && read.value.Arr? && |read.value.items| == |results|
            && forall i :: 0 <= i < |results| ==>
                 read.value.items[i] ==
                   match results[i]
                   case Some(branch) => Str(if branch.content.Some? then branch.content.value else [])
                   case None => Str([])
  {
    StringifyIsJson(AsArray(Outputs(results)));
    assert Printed(AsArray(Outputs(results))) == AsArray(Outputs(results));
  }

  /** Aggregation loses nothing: the content, and so its hash up to collisions,
      determines how many branches there were and what each one said. */
  lemma FanoutContentDeterminesOutputs(a: seq<Option<Branch>>, b: seq<Option<Branch>>)
    requires Stringify(AsArray(Outputs(a))) == Stringify(AsArray(Outputs(b)))
    ensures Outputs(a) == Outputs(b)
  {
    FanoutReadsBack(a);
    FanoutReadsBack(b);
    var x, y := ReadJson(Stringify(AsArray(Outputs(a)))).value.items, ReadJson(Stringify(AsArray(Outputs(b)))).value.items;
    forall i | 0 <= i < |a| ensures Outputs(a)[i] == Outputs(b)[i] {
      assert x[i] == y[i];
    }
  }
}
