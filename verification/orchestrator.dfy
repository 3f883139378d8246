/** `ChatGPT.run_all_gpt`: request preparation, the fast mode's official
    phase and the all mode's filtering and joining of answers. Backends are
    oracles: `official(useApiKey, credential, messages)` is the reply of an
    official path, `community[k](messages)` the reply of the k-th community
    provider. */
module Orchestrator {
  import opened Base
  import opened Text
  import opened History
  import opened Backends
  import Fence

  /** `ChatGPT_Mode.fast`, `ChatGPT_Mode.all`, or any other value. */
  datatype Mode = Fast | All | Unknown

  /** An official backend: its reply to a call on one path (`key_gpt`), with
      one credential, for one message window. */
  type OfficialBackend = (bool, string, seq<Turn>) -> Reply

  /** A community provider: its reply for one message window. */
  type Provider = seq<Turn> -> Reply

  const EmptyRequest := "Пустой запрос"
  const MaxPromptLength := 4000
  const AnswerSeparator := "\n\n==Другой ответ==\n\n"
  const NoModeMessage := "Не выбран режим GPT"

  /** The orchestrator's mutable state: credential pools and saved histories. */
  datatype State = State(pools: Pools, store: Store)

  datatype Outcome =
    | Returned(text: string)
    | RaceStarted(messages: seq<Turn>)   // the community race takes over from here
    | Raised(error: Exception)

  datatype Run = Run(outcome: Outcome, state: State)

  /** A missing prompt or the empty string; a prompt of spaces is not empty. */
  predicate IsEmptyPrompt(prompt: Option<string>) {
    prompt == None || prompt == Some("")
  }

  /** The prompt cut to its first 4000 characters. */
  function CutPrompt(prompt: string): (r: string)
    ensures |r| == Min(|prompt|, MaxPromptLength)
    ensures r == prompt[..|r|]
  {
    if |prompt| > MaxPromptLength then prompt[..MaxPromptLength] else prompt
  }

  /** The cut prompt, the trimmed history ending in the user turn, and the
      message window sent to the backends. */
  datatype Exchange = Exchange(prompt: string, history: seq<Turn>, messages: seq<Turn>)

  /** The window kept after appending the user's turn to the loaded
      history: a non-empty suffix that ends with that turn and fits the limit.
      When the history and the prompt fit together, nothing is dropped. */
  function Window(past: seq<Turn>, cut: string): (h: seq<Turn>)
    requires |cut| <= MaxHistoryLength
    ensures var full := past + [Turn(User, cut)];
      0 < |h| <= |full| && h == full[|full| - |h|..]
    ensures h[|h| - 1] == Turn(User, cut)
    ensures TotalLength(h) <= MaxHistoryLength
    ensures h == Trim(past + [Turn(User, cut)], MaxHistoryLength)
    ensures TotalLength(past) + |cut| <= MaxHistoryLength ==> h == past + [Turn(User, cut)]
  {
    var full := past + [Turn(User, cut)];
    TrimKeepsLastTurn(full, MaxHistoryLength);
    TotalLengthAppend(past, [Turn(User, cut)]);
    assert TotalLength([Turn(User, cut)]) == |cut| + TotalLength([]);
    Trim(full, MaxHistoryLength)
  }

  /** The message window: the system prompt, then the history. */
  function WithSysPrompt(userId: Option<int>, gptRole: Option<string>, history: seq<Turn>): seq<Turn> {
    SysPrompt(userId, gptRole) + history
  }

  lemma SysPromptInFront(userId: Option<int>, gptRole: Option<string>, history: seq<Turn>)
    ensures var m := WithSysPrompt(userId, gptRole, history);
      |m| == |history| + 1 && m[0] == SysPrompt(userId, gptRole)[0] && m[1..] == history
  {
    assert WithSysPrompt(userId, gptRole, history)[1..] == history;
  }

  /** The preparation of a non-empty prompt: cut it, append it as a user turn
      to the loaded history, trim, and put the system prompt in front. */
  function Prepare(store: Store, prompt: string, userId: Option<int>, gptRole: Option<string>): (e: Exchange)
    requires prompt != ""
    ensures e.prompt == CutPrompt(prompt) && e.prompt != ""
    ensures var full := Load(store, userId) + [Turn(User, e.prompt)];
      0 < |e.history| <= |full| && e.history == full[|full| - |e.history|..]
    ensures e.history[|e.history| - 1] == Turn(User, e.prompt)
    ensures TotalLength(e.history) <= MaxHistoryLength
    ensures e.history == Trim(Load(store, userId) + [Turn(User, e.prompt)], MaxHistoryLength)
    ensures |e.messages| == |e.history| + 1
    ensures e.messages[0] == SysPrompt(userId, gptRole)[0] && e.messages[1..] == e.history
  {
    var cut := CutPrompt(prompt);
    var history := Window(Load(store, userId), cut);
    SysPromptInFront(userId, gptRole, history);
    Exchange(cut, history, WithSysPrompt(userId, gptRole, history))
  }

  /** The fast mode takes an answer when there is one, it is not empty, and
      the prompt does not occur in it. A reply that echoes the prompt is never
      taken, and an empty prompt would rule out every answer. */
  predicate Acceptable(answer: Option<string>, prompt: string)
    ensures answer == Some(prompt) ==> !Acceptable(answer, prompt)
    ensures Acceptable(answer, prompt) ==> prompt != ""
  {
    if answer.Some? then
      assert OccursAt(answer.value, "", 0);
      assert answer.value == prompt ==> OccursAt(answer.value, prompt, 0);
      answer.value != "" && !Contains(answer.value, prompt)
    else false
  }

  /** A reply that quotes the prompt anywhere, between any text before and
      after it, is not taken. */
  lemma EchoIsRejected(before: string, prompt: string, after: string)
    ensures !Acceptable(Some(before + prompt + after), prompt)
  {
    var s := before + prompt + after;
    assert s[|before|..|before| + |prompt|] == prompt;
    assert OccursAt(s, prompt, |before|);
  }

  /** The `key_gpt` values tried, in order: the token path (`false`), then,
      unless limited, the API-key path (`true`). */
  function Paths(limited: bool): (r: seq<bool>)
    ensures |r| > 0 && r[0] == false
    ensures limited <==> |r| == 1
    ensures !limited ==> |r| == 2 && r[1] == true
  {
    if limited then [false] else [false, true]
  }

  /** The backend of one path, for one message window, as a function of the
      credential. */
  function PathReply(official: OfficialBackend, useApiKey: bool, messages: seq<Turn>): string -> Reply {
    c => official(useApiKey, c, messages)
  }

  /** The official paths run one after another, each on the pools the one
      before it left, whatever they answer. */
  function Chain(pools: Pools, paths: seq<bool>, official: OfficialBackend, messages: seq<Turn>): (runs: seq<OfficialRun>)
    ensures |runs| == |paths|
    decreases |paths|
  {
    if |paths| == 0 then []
    else
      var run := RunOfficial(pools, paths[0], PathReply(official, paths[0], messages));
      [run] + Chain(run.pools, paths[1..], official, messages)
  }

  /** Run k of a chain calls path k with the window, on the pools run k - 1
      left (the initial pools for the first). */
  lemma {:induction false} ChainSteps(pools: Pools, paths: seq<bool>, official: OfficialBackend, messages: seq<Turn>)
    ensures var runs := Chain(pools, paths, official, messages);
      && (|paths| > 0 ==> runs[0] == RunOfficial(pools, paths[0], PathReply(official, paths[0], messages)))
      && (forall k :: 0 <= k < |paths| - 1 ==>
            runs[k + 1] == RunOfficial(runs[k].pools, paths[k + 1], PathReply(official, paths[k + 1], messages)))
    decreases |paths|
  {
    if |paths| > 0 {
      var run := RunOfficial(pools, paths[0], PathReply(official, paths[0], messages));
      var tail := Chain(run.pools, paths[1..], official, messages);
      ChainSteps(run.pools, paths[1..], official, messages);
      var runs := Chain(pools, paths, official, messages);
      assert runs == [run] + tail;
      forall k | 0 <= k < |paths| - 1
        ensures runs[k + 1] == RunOfficial(runs[k].pools, paths[k + 1], PathReply(official, paths[k + 1], messages))
      {
        assert runs[k + 1] == tail[k] && paths[k + 1] == paths[1..][k];
        if k > 0 {
          assert runs[k] == tail[k - 1];
        }
      }
    }
  }

  /** A run that returned an answer the fast mode does not accept: `answer`
      is falsy or contains the prompt. */
  predicate Declines(run: OfficialRun, prompt: string) {
    run.outcome.Answer? && !Acceptable(run.outcome.text, prompt)
  }

  /** The first `n` runs all decline. */
  predicate AllDecline(runs: seq<OfficialRun>, n: nat, prompt: string)
    requires n <= |runs|
  {
    forall k :: 0 <= k < n ==> Declines(runs[k], prompt)
  }

  lemma DeclineCons(run: OfficialRun, tail: seq<OfficialRun>, n: nat, prompt: string)
    requires n <= |tail|
    ensures AllDecline([run] + tail, n + 1, prompt) <==> Declines(run, prompt) && AllDecline(tail, n, prompt)
  {
    var runs := [run] + tail;
    if Declines(run, prompt) && AllDecline(tail, n, prompt) {
      forall k | 0 <= k < n + 1 ensures Declines(runs[k], prompt) {
        if k > 0 {
          assert runs[k] == tail[k - 1];
        }
      }
    }
    if AllDecline(runs, n + 1, prompt) {
      assert runs[0] == run;
      forall k | 0 <= k < n ensures Declines(tail[k], prompt) {
        assert tail[k] == runs[k + 1];
      }
    }
  }

  datatype Phase =
    | Accepted(answer: string, pools: Pools)
    | Declined(pools: Pools)
    | Crashed(error: Exception, pools: Pools)

  /** The fast mode's official phase: the paths are tried in order and the
      first acceptable answer wins; an attempt that raises ends the run. */
  function OfficialPhase(pools: Pools, paths: seq<bool>, prompt: string,
                         official: OfficialBackend, messages: seq<Turn>): (r: Phase)
    ensures r.pools.queue == pools.queue
    ensures r.Accepted? ==> Acceptable(Some(r.answer), prompt)
    ensures r.Accepted? ==> exists k, c :: 0 <= k < |paths| && official(paths[k], c, messages) == Completed(Some(r.answer))
    decreases |paths|
  {
    if |paths| == 0 then Declined(pools)
    else
      var run := RunOfficial(pools, paths[0], PathReply(official, paths[0], messages));
      RunOfficialOutcome(pools, paths[0], PathReply(official, paths[0], messages));
      match run.outcome
      case Threw(e) => Crashed(e, run.pools)
      case Answer(a) =>
        if Acceptable(a, prompt) then Accepted(a.value, run.pools)
        else
          var r := OfficialPhase(run.pools, paths[1..], prompt, official, messages);
          assert r.Accepted? ==> exists k, c :: 1 <= k < |paths| && official(paths[k], c, messages) == Completed(Some(r.answer)) by {
            if r.Accepted? {
              var k, c :| 0 <= k < |paths[1..]| && official(paths[1..][k], c, messages) == Completed(Some(r.answer));
              assert official(paths[k + 1], c, messages) == Completed(Some(r.answer));
            }
          }
          r
  }

  /** The official phase stops at the first run of the chain that does not
      decline: accepted when that run answered acceptably, crashed when it
      raised; it declines exactly when every run declines. */
  lemma {:induction false} OfficialPhaseTakesFirst(pools: Pools, paths: seq<bool>, prompt: string,
                                                   official: OfficialBackend, messages: seq<Turn>)
    returns (i: nat)
    ensures var runs := Chain(pools, paths, official, messages);
      var r := OfficialPhase(pools, paths, prompt, official, messages);
      && (r.Declined? <==> AllDecline(runs, |runs|, prompt))
      && (!r.Declined? ==> i < |runs| && AllDecline(runs, i, prompt) && r.pools == runs[i].pools)
      && (r.Accepted? ==> runs[i].outcome == Answer(Some(r.answer)))
      && (r.Crashed? ==> runs[i].outcome == Threw(r.error))
    decreases |paths|
  {
    if |paths| == 0 {
      i := 0;
    } else {
      var run := RunOfficial(pools, paths[0], PathReply(official, paths[0], messages));
      var tail := Chain(run.pools, paths[1..], official, messages);
      var runs := Chain(pools, paths, official, messages);
      assert runs == [run] + tail;
      var r := OfficialPhase(pools, paths, prompt, official, messages);
      if Declines(run, prompt) {
        var j := OfficialPhaseTakesFirst(run.pools, paths[1..], prompt, official, messages);
        i := j + 1;
        assert r == OfficialPhase(run.pools, paths[1..], prompt, official, messages);
        DeclineCons(run, tail, |tail|, prompt);
        if !r.Declined? {
          DeclineCons(run, tail, j, prompt);
          assert runs[i] == tail[j];
        }
      } else {
        i := 0;
        assert !r.Declined?;
        assert !Declines(runs[0], prompt);
      }
    }
  }

  /** The result of an `asyncio.gather`: every answer, in order, and the
      exception raised, if any (which the gather re-raises). */
  datatype Gathered = Gathered(answers: seq<Option<string>>, pools: Pools, error: Option<Exception>)

  /** All official paths run to completion, each on the pools the previous
      one left (the two paths own disjoint pools, so the order is immaterial). */
  function GatherOfficial(pools: Pools, paths: seq<bool>, official: OfficialBackend, messages: seq<Turn>): (g: Gathered)
    ensures |g.answers| == |paths|
    ensures g.pools.queue == pools.queue
    decreases |paths|
  {
    if |paths| == 0 then Gathered([], pools, None)
    else
      var run := RunOfficial(pools, paths[0], PathReply(official, paths[0], messages));
      RunOfficialOutcome(pools, paths[0], PathReply(official, paths[0], messages));
      var rest := GatherOfficial(run.pools, paths[1..], official, messages);
      match run.outcome
      case Threw(e) => Gathered([None] + rest.answers, rest.pools, Some(e))
      case Answer(a) => Gathered([a] + rest.answers, rest.pools, rest.error)
  }

  /** The answer a run contributes to a gather: none when it raised. */
  function AnswerOf(run: OfficialRun): Option<string> {
    if run.outcome.Answer? then run.outcome.text else None
  }

  /** `answers[k]` is what run k contributes, for every k. */
  predicate Contributed(answers: seq<Option<string>>, runs: seq<OfficialRun>)
    requires |answers| == |runs|
  {
    forall k :: 0 <= k < |runs| ==> answers[k] == AnswerOf(runs[k])
  }

  /** None of the first `n` runs raised. */
  predicate NoneThrew(runs: seq<OfficialRun>, n: nat)
    requires n <= |runs|
  {
    forall k :: 0 <= k < n ==> runs[k].outcome.Answer?
  }

  lemma ContributedCons(answer: Option<string>, answers: seq<Option<string>>, run: OfficialRun, tail: seq<OfficialRun>)
    requires |answers| == |tail| && answer == AnswerOf(run) && Contributed(answers, tail)
    ensures Contributed([answer] + answers, [run] + tail)
  {
    var all := [answer] + answers;
    var runs := [run] + tail;
    forall k | 0 <= k < |runs| ensures all[k] == AnswerOf(runs[k]) {
      if k > 0 {
        assert all[k] == answers[k - 1] && runs[k] == tail[k - 1];
      }
    }
  }

  lemma NoneThrewCons(run: OfficialRun, tail: seq<OfficialRun>, n: nat)
    requires n <= |tail|
    ensures NoneThrew([run] + tail, n + 1) <==> run.outcome.Answer? && NoneThrew(tail, n)
  {
    var runs := [run] + tail;
    if run.outcome.Answer? && NoneThrew(tail, n) {
      forall k | 0 <= k < n + 1 ensures runs[k].outcome.Answer? {
        if k > 0 {
          assert runs[k] == tail[k - 1];
        }
      }
    }
    if NoneThrew(runs, n + 1) {
      assert runs[0] == run;
      forall k | 0 <= k < n ensures tail[k].outcome.Answer? {
        assert tail[k] == runs[k + 1];
      }
    }
  }

  /** A gather collects, in path order, what each run of the chain answered,
      and re-raises the error of the first run that raised, if any did. */
  lemma {:induction false} GatherFollowsChain(pools: Pools, paths: seq<bool>, official: OfficialBackend,
                                              messages: seq<Turn>)
    returns (i: nat)
    ensures var runs := Chain(pools, paths, official, messages);
      var g := GatherOfficial(pools, paths, official, messages);
      && Contributed(g.answers, runs)
      && (g.error.None? <==> NoneThrew(runs, |runs|))
      && (g.error.Some? ==> i < |runs| && runs[i].outcome == Threw(g.error.value) && NoneThrew(runs, i))
    decreases |paths|
  {
    if |paths| == 0 {
      i := 0;
    } else {
      var run := RunOfficial(pools, paths[0], PathReply(official, paths[0], messages));
      var tail := Chain(run.pools, paths[1..], official, messages);
      var runs := Chain(pools, paths, official, messages);
      assert runs == [run] + tail;
      var j := GatherFollowsChain(run.pools, paths[1..], official, messages);
      var g := GatherOfficial(pools, paths, official, messages);
      var rest := GatherOfficial(run.pools, paths[1..], official, messages);
      ContributedCons(AnswerOf(run), rest.answers, run, tail);
      NoneThrewCons(run, tail, |tail|);
      if run.outcome.Threw? {
        i := 0;
        assert g == Gathered([None] + rest.answers, rest.pools, Some(run.outcome.error));
      } else {
        i := j + 1;
        assert g == Gathered([run.outcome.text] + rest.answers, rest.pools, rest.error);
        if g.error.Some? {
          NoneThrewCons(run, tail, j);
          assert runs[i] == tail[j];
        }
      }
    }
  }

  /** The all mode keeps a result that is present, not empty, and not made
      of spaces and newlines only. */
  predicate Survives(result: Option<string>) {
    result.Some? && result.value != "" && !IsBlank(result.value)
  }

  /** Every community result survives the all mode's filter: only providers
      that gave nothing, and empty or blank official answers, are dropped. */
  lemma CommunityResultSurvives(reply: Reply)
    ensures Survives(ProviderResult(reply)) <==> ProviderResult(reply).Some?
  {
    ProviderResultIsNeverBlank(reply);
  }

  /** The all mode's `new_results`: the surviving answers, in order. */
  function Survivors(results: seq<Option<string>>): (r: seq<string>)
    ensures |r| <= |results|
    ensures forall k :: 0 <= k < |r| ==> r[k] != "" && !IsBlank(r[k])
    decreases |results|
  {
    if |results| == 0 then []
    else
      var rest := Survivors(results[1..]);
      if Survives(results[0]) then [results[0].value] + rest else rest
  }

  /** `results[i]` survives and nothing before it does. */
  predicate FirstSurvivorAt(results: seq<Option<string>>, i: nat) {
    i < |results| && Survives(results[i]) && forall j :: 0 <= j < i ==> !Survives(results[j])
  }

  /** Every survivor is one of the results, and every result that survives
      is among the survivors. */
  lemma {:induction false} SurvivorsAreTheSurvivingResults(results: seq<Option<string>>)
    ensures forall k :: 0 <= k < |Survivors(results)| ==> Some(Survivors(results)[k]) in results
    ensures forall k :: 0 <= k < |results| && Survives(results[k]) ==> results[k].value in Survivors(results)
    decreases |results|
  {
    if |results| > 0 {
      SurvivorsAreTheSurvivingResults(results[1..]);
      assert forall k :: 1 <= k < |results| ==> results[k] == results[1..][k - 1];
    }
  }

  /** There are no survivors exactly when no result survives. */
  lemma {:induction false} NoSurvivors(results: seq<Option<string>>)
    ensures |Survivors(results)| == 0 <==> forall k :: 0 <= k < |results| ==> !Survives(results[k])
    decreases |results|
  {
    if |results| > 0 {
      NoSurvivors(results[1..]);
      assert forall k :: 1 <= k < |results| ==> results[k] == results[1..][k - 1];
    }
  }

  /** The first survivor is the first result that survives. */
  lemma {:induction false} FirstSurvivor(results: seq<Option<string>>) returns (i: nat)
    requires |Survivors(results)| > 0
    ensures FirstSurvivorAt(results, i) && results[i] == Some(Survivors(results)[0])
    decreases |results|
  {
    if Survives(results[0]) {
      i := 0;
    } else {
      var j := FirstSurvivor(results[1..]);
      i := j + 1;
      forall k | 0 <= k < i ensures !Survives(results[k]) {
        if k > 0 {
          assert results[k] == results[1..][k - 1];
        }
      }
    }
  }

  /** Survivors keep their order: the survivors of a concatenation are the
      survivors of each part, one after the other. */
  lemma {:induction false} SurvivorsAppend(a: seq<Option<string>>, b: seq<Option<string>>)
    ensures Survivors(a + b) == Survivors(a) + Survivors(b)
    decreases |a|
  {
    if |a| == 0 {
      assert a + b == b;
    } else {
      assert (a + b)[1..] == a[1..] + b;
      SurvivorsAppend(a[1..], b);
    }
  }

  /** The community providers' normalised results, in provider order: a
      provider's result is present exactly when its reply to the window is
      usable, and it is then the repaired reply, which survives the all
      mode's filter. */
  function CommunityResults(community: seq<Provider>, messages: seq<Turn>): (r: seq<Option<string>>)
    ensures |r| == |community|
    ensures forall k :: 0 <= k < |r| ==>
      var reply := community[k](messages);
      && (r[k].Some? <==> reply.Completed? && reply.content.Some? && !LooksBroken(reply.content.value))
      && (r[k].Some? ==> Survives(r[k])
                         && r[k].value == Fence.RemoveLastFormatSymbols(reply.content.value, Fence.Backticks))
  {
    var r := seq(|community|, k requires 0 <= k < |community| => ProviderResult(community[k](messages)));
    NormalisedResultsSurvive(community, messages, r);
    r
  }

  lemma NormalisedResultsSurvive(community: seq<Provider>, messages: seq<Turn>, r: seq<Option<string>>)
    requires |r| == |community|
    requires forall k :: 0 <= k < |r| ==> r[k] == ProviderResult(community[k](messages))
    ensures forall k :: 0 <= k < |r| ==> (Survives(r[k]) <==> r[k].Some?)
  {
    forall k | 0 <= k < |r| ensures Survives(r[k]) <==> r[k].Some? {
      CommunityResultSurvives(community[k](messages));
    }
  }

  /** The fast mode after preparation: the official phase, and the
      community race when it declines. */
  function FastMode(st: State, e: Exchange, limited: bool, userId: Option<int>,
                    official: OfficialBackend): (r: Run)
    ensures r.state.pools.queue == st.pools.queue
    ensures !r.outcome.Returned? ==> r.state.store == st.store
    ensures r.outcome.Returned? ==>
      && Acceptable(Some(r.outcome.text), e.prompt)
      && r.state.store == Save(st.store, e.history + [Turn(Assistant, r.outcome.text)], userId)
    ensures r.outcome.RaceStarted? ==> r.outcome.messages == e.messages
  {
    match OfficialPhase(st.pools, Paths(limited), e.prompt, official, e.messages)
    case Accepted(answer, pools) =>
      Run(Returned(answer), State(pools, Save(st.store, e.history + [Turn(Assistant, answer)], userId)))
    case Declined(pools) => Run(RaceStarted(e.messages), State(pools, st.store))
    case Crashed(err, pools) => Run(Raised(err), State(pools, st.store))
  }

  /** The all mode after preparation: every backend answers, the surviving
      answers are joined, and the first of them is saved. */
  function AllMode(st: State, e: Exchange, limited: bool, userId: Option<int>,
                   official: OfficialBackend, community: seq<Provider>): (r: Run)
    ensures r.state.pools.queue == st.pools.queue
    ensures !r.outcome.Returned? ==> r.state.store == st.store
    ensures r.outcome.Returned? ==> exists answer ::
      && answer != "" && !IsBlank(answer) && StartsWith(r.outcome.text, answer)
      && r.state.store == Save(st.store, e.history + [Turn(Assistant, answer)], userId)
  {
    var g := GatherOfficial(st.pools, Paths(limited), official, e.messages);
    if g.error.Some? then Run(Raised(g.error.value), State(g.pools, st.store))
    else
      var kept := Survivors(CommunityResults(community, e.messages) + g.answers);
      if |kept| == 0 then Run(Raised(IndexError), State(g.pools, st.store))
      else
        var text := Join(kept, AnswerSeparator);
        JoinStartsWithFirst(kept, AnswerSeparator);
        Run(Returned(text), State(g.pools, Save(st.store, e.history + [Turn(Assistant, kept[0])], userId)))
  }

  /** `run_all_gpt`. Histories are saved only after an answer is chosen; the
      fast mode's community race is where this model hands over. */
  function RunAllGpt(st: State, prompt: Option<string>, mode: Mode, userId: Option<int>,
                     gptRole: Option<string>, limited: bool,
                     official: OfficialBackend, community: seq<Provider>): (r: Run)
    ensures IsEmptyPrompt(prompt) ==> r == Run(Returned(EmptyRequest), st)
    ensures !IsEmptyPrompt(prompt) && mode == Unknown ==> r == Run(Raised(ModeError(NoModeMessage)), st)
    ensures r.state.pools.queue == st.pools.queue
    ensures !r.outcome.Returned? ==> r.state.store == st.store
    ensures !IsEmptyPrompt(prompt) && mode == Fast && r.outcome.Returned? ==>
      r.outcome.text != "" && !Contains(r.outcome.text, CutPrompt(prompt.value))
  {
    if IsEmptyPrompt(prompt) then Run(Returned(EmptyRequest), st)
    else
      var e := Prepare(st.store, prompt.value, userId, gptRole);
      match mode
      case Fast => FastMode(st, e, limited, userId, official)
      case All => AllMode(st, e, limited, userId, official, community)
      case Unknown => Run(Raised(ModeError(NoModeMessage)), st)
  }

  /** The loaded history followed by the cut prompt, trimmed to the limit. */
  function TrimmedHistory(store: Store, prompt: string, userId: Option<int>): seq<Turn> {
    Trim(Load(store, userId) + [Turn(User, CutPrompt(prompt))], MaxHistoryLength)
  }

  /** What the backends are sent: the system prompt, then the trimmed history. */
  function MessageWindow(store: Store, prompt: string, userId: Option<int>, gptRole: Option<string>): seq<Turn> {
    WithSysPrompt(userId, gptRole, TrimmedHistory(store, prompt, userId))
  }

  /** The exchange a non-empty prompt is prepared into, spelled out. */
  lemma PreparedWindow(store: Store, prompt: string, userId: Option<int>, gptRole: Option<string>)
    returns (e: Exchange)
    requires prompt != ""
    ensures e == Prepare(store, prompt, userId, gptRole)
    ensures e == Exchange(CutPrompt(prompt), TrimmedHistory(store, prompt, userId),
                          MessageWindow(store, prompt, userId, gptRole))
  {
    e := Prepare(store, prompt, userId, gptRole);
  }

  /** For a non-empty prompt in the fast mode, `run_all_gpt` sends the system
      prompt and the loaded history plus the cut prompt, trimmed, down the
      chain of official paths `limited` allows: it answers with the first run
      that does not decline and saves that answer after the trimmed history,
      raises when that run raised, and hands exactly that window to the
      community race when every run declines. */
  lemma RunAllGptFast(st: State, prompt: string, userId: Option<int>, gptRole: Option<string>,
                      limited: bool, official: OfficialBackend, community: seq<Provider>)
    returns (i: nat)
    requires prompt != ""
    ensures var cut := CutPrompt(prompt);
      var h := TrimmedHistory(st.store, prompt, userId);
      var w := MessageWindow(st.store, prompt, userId, gptRole);
      var runs := Chain(st.pools, Paths(limited), official, w);
      var r := RunAllGpt(st, Some(prompt), Fast, userId, gptRole, limited, official, community);
      && (r.outcome.RaceStarted? <==> AllDecline(runs, |runs|, cut))
      && (r.outcome.RaceStarted? ==> r.outcome.messages == w && r.state.store == st.store)
      && (!r.outcome.RaceStarted? ==> i < |runs| && AllDecline(runs, i, cut) && r.state.pools == runs[i].pools)
      && (r.outcome.Returned? ==>
            && runs[i].outcome == Answer(Some(r.outcome.text))
            && r.state.store == Save(st.store, h + [Turn(Assistant, r.outcome.text)], userId))
      && (r.outcome.Raised? ==> runs[i].outcome == Threw(r.outcome.error))
  {
    var e := PreparedWindow(st.store, prompt, userId, gptRole);
    DispatchFast(st, prompt, userId, gptRole, limited, official, community);
    i := FastModeTakesFirstAcceptable(st, e, limited, userId, official);
  }

  /** For a non-empty prompt in the all mode, `run_all_gpt` sends that same
      window to every community provider and every official path `limited`
      allows; it re-raises a path's error, raises `IndexError` when nothing
      survives, and otherwise returns the survivors joined by the separator
      and saves the first of them after the trimmed history. */
  lemma RunAllGptAll(st: State, prompt: string, userId: Option<int>, gptRole: Option<string>,
                     limited: bool, official: OfficialBackend, community: seq<Provider>)
    requires prompt != ""
    ensures var h := TrimmedHistory(st.store, prompt, userId);
      var w := MessageWindow(st.store, prompt, userId, gptRole);
      var g := GatherOfficial(st.pools, Paths(limited), official, w);
      var kept := Survivors(CommunityResults(community, w) + g.answers);
      var r := RunAllGpt(st, Some(prompt), All, userId, gptRole, limited, official, community);
      && r.state.pools == g.pools
      && (g.error.Some? ==> r == Run(Raised(g.error.value), State(g.pools, st.store)))
      && (g.error.None? && |kept| == 0 ==> r == Run(Raised(IndexError), State(g.pools, st.store)))
      && (g.error.None? && |kept| > 0 ==>
            r == Run(Returned(Join(kept, AnswerSeparator)),
                     State(g.pools, Save(st.store, h + [Turn(Assistant, kept[0])], userId))))
  {
    var e := PreparedWindow(st.store, prompt, userId, gptRole);
    DispatchAll(st, prompt, userId, gptRole, limited, official, community);
    AllModeCases(st, e, limited, userId, official, community);
  }

  /** A non-empty prompt is prepared and handed to the fast mode. */
  lemma DispatchFast(st: State, prompt: string, userId: Option<int>, gptRole: Option<string>,
                     limited: bool, official: OfficialBackend, community: seq<Provider>)
    requires prompt != ""
    ensures RunAllGpt(st, Some(prompt), Fast, userId, gptRole, limited, official, community)
         == FastMode(st, Prepare(st.store, prompt, userId, gptRole), limited, userId, official)
  {
  }

  /** A non-empty prompt is prepared and handed to the all mode. */
  lemma DispatchAll(st: State, prompt: string, userId: Option<int>, gptRole: Option<string>,
                    limited: bool, official: OfficialBackend, community: seq<Provider>)
    requires prompt != ""
    ensures RunAllGpt(st, Some(prompt), All, userId, gptRole, limited, official, community)
         == AllMode(st, Prepare(st.store, prompt, userId, gptRole), limited, userId, official, community)
  {
  }

  /** The three ways the all mode ends, for a prepared exchange. */
  lemma AllModeCases(st: State, e: Exchange, limited: bool, userId: Option<int>,
                     official: OfficialBackend, community: seq<Provider>)
    ensures var g := GatherOfficial(st.pools, Paths(limited), official, e.messages);
      var kept := Survivors(CommunityResults(community, e.messages) + g.answers);
      var r := AllMode(st, e, limited, userId, official, community);
      && r.state.pools == g.pools
      && (g.error.Some? ==> r == Run(Raised(g.error.value), State(g.pools, st.store)))
      && (g.error.None? && |kept| == 0 ==> r == Run(Raised(IndexError), State(g.pools, st.store)))
      && (g.error.None? && |kept| > 0 ==>
            r == Run(Returned(Join(kept, AnswerSeparator)),
                     State(g.pools, Save(st.store, e.history + [Turn(Assistant, kept[0])], userId))))
  {
  }

  /** The auth-token path is asked first: when its selected token yields an
      acceptable answer, that answer is returned, whatever the API-key path
      would have said, and the pools are left as they were. */
  lemma TokenPathComesFirst(st: State, e: Exchange, limited: bool, userId: Option<int>,
                            official: OfficialBackend, answer: string)
    requires |st.pools.authTokens| > 0
    requires official(false, Selected(st.pools.authTokens, st.pools.queue), e.messages) == Completed(Some(answer))
    requires Acceptable(Some(answer), e.prompt)
    ensures var r := FastMode(st, e, limited, userId, official);
      r.outcome == Returned(answer) && r.state.pools == st.pools
  {
    var paths := Paths(limited);
    RunOfficialOutcome(st.pools, paths[0], PathReply(official, paths[0], e.messages));
  }

  /** The fast mode answers with the first acceptable answer of the chain of
      official runs, provided every run before it declined; it ends with the
      first run that raises; it hands over to the race exactly when every
      run declines. */
  lemma FastModeTakesFirstAcceptable(st: State, e: Exchange, limited: bool, userId: Option<int>,
                                     official: OfficialBackend)
    returns (i: nat)
    ensures var runs := Chain(st.pools, Paths(limited), official, e.messages);
      var r := FastMode(st, e, limited, userId, official);
      && (r.outcome.RaceStarted? <==> AllDecline(runs, |runs|, e.prompt))
      && (!r.outcome.RaceStarted? ==> i < |runs| && AllDecline(runs, i, e.prompt) && r.state.pools == runs[i].pools)
      && (r.outcome.Returned? ==> runs[i].outcome == Answer(Some(r.outcome.text)))
      && (r.outcome.Raised? ==> runs[i].outcome == Threw(r.outcome.error))
  {
    i := OfficialPhaseTakesFirst(st.pools, Paths(limited), e.prompt, official, e.messages);
  }

  /** In the all mode the run returns exactly when no official path raised
      and some result survives; without a survivor it raises `IndexError`. */
  lemma AllModeReturns(st: State, e: Exchange, limited: bool, userId: Option<int>,
                       official: OfficialBackend, community: seq<Provider>)
    ensures var r := AllMode(st, e, limited, userId, official, community);
      var g := GatherOfficial(st.pools, Paths(limited), official, e.messages);
      var results := CommunityResults(community, e.messages) + g.answers;
      && (r.outcome.Returned? <==> g.error.None? && exists k :: 0 <= k < |results| && Survives(results[k]))
      && (r.outcome.Returned? ==> r.outcome.text == Join(Survivors(results), AnswerSeparator))
      && (g.error.Some? ==> r.outcome == Raised(g.error.value))
      && (g.error.None? && (forall k :: 0 <= k < |results| ==> !Survives(results[k])) ==>
            r.outcome == Raised(IndexError))
  {
    var g := GatherOfficial(st.pools, Paths(limited), official, e.messages);
    NoSurvivors(CommunityResults(community, e.messages) + g.answers);
  }

  /** The all mode saves the first surviving result, in provider order with
      the community providers before the official paths, and the returned
      text starts with it. */
  lemma AllModeSavesFirstSurvivor(st: State, e: Exchange, limited: bool, userId: Option<int>,
                                  official: OfficialBackend, community: seq<Provider>)
    returns (i: nat)
    ensures var r := AllMode(st, e, limited, userId, official, community);
      var g := GatherOfficial(st.pools, Paths(limited), official, e.messages);
      var results := CommunityResults(community, e.messages) + g.answers;
      r.outcome.Returned? ==>
        && FirstSurvivorAt(results, i)
        && StartsWith(r.outcome.text, results[i].value)
        && r.state.store == Save(st.store, e.history + [Turn(Assistant, results[i].value)], userId)
  {
    var g := GatherOfficial(st.pools, Paths(limited), official, e.messages);
    var results := CommunityResults(community, e.messages) + g.answers;
    var kept := Survivors(results);
    if g.error.None? && |kept| > 0 {
      JoinStartsWithFirst(kept, AnswerSeparator);
      i := FirstSurvivor(results);
    } else {
      i := 0;
    }
  }
}
