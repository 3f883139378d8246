/** One call to a chat backend: the normalisation applied to a community
    provider's reply (`one_gpt_run`) and the credential handling of the two
    official paths (`run_official_gpt`). The network call itself is an
    oracle: a `Reply` is what the backend answered, or the text of the
    exception it raised. */
module Backends {
  import opened Base
  import opened Text
  import Fence

  datatype Reply =
    | Completed(content: Option<string>)   // the call returned (possibly `None`)
    | Failed(message: string)              // the call raised; `str(e)`

  /** A string made of spaces and newlines only, the empty string included:
      what is left empty once both characters are removed. */
  predicate IsBlank(s: string) {
    forall k :: 0 <= k < |s| ==> s[k] == ' ' || s[k] == '\n'
  }

  /** The markers of a reply from a broken or mocked provider. */
  predicate LooksBroken(s: string) {
    IsBlank(s) || s == "None" || Contains(s, "!DOCTYPE") || Contains(s, "https://gptgo.ai")
  }

  /** `one_gpt_run` after its provider call: an exception, `None` or a broken
      reply yields `None`; anything else is returned after fence repair. */
  function ProviderResult(reply: Reply): (r: Option<string>)
    ensures r.Some? ==> && reply.Completed? && reply.content.Some?
                        && r.value == Fence.RemoveLastFormatSymbols(reply.content.value, Fence.Backticks)
  {
    match reply
    case Failed(_) => None
    case Completed(None) => None
    case Completed(Some(text)) =>
      if LooksBroken(text) then None
      else Some(Fence.RemoveLastFormatSymbols(text, Fence.Backticks))
  }

  /** A community provider never hands on a blank answer, and hands on every
      usable reply (repaired). */
  lemma ProviderResultIsNeverBlank(reply: Reply)
    ensures var r := ProviderResult(reply);
      && (r.Some? <==> reply.Completed? && reply.content.Some? && !LooksBroken(reply.content.value))
      && (r.Some? ==> r.value != "" && !IsBlank(r.value))
  {
    var r := ProviderResult(reply);
    if r.Some? {
      var text := reply.content.value;
      if |Split(text, Fence.Backticks)| == 4 {
        // two of the three fences survive the repair, so a backtick remains
        var p := Split(text, Fence.Backticks);
        Fence.RepairedPieces(text, Fence.Backticks);
        HoldsBacktick(p[0], p[1] + Fence.Backticks + (p[2] + p[3]));
      }
    }
  }

  /** A string with a fence in it is not blank. */
  lemma HoldsBacktick(pre: string, post: string)
    ensures !IsBlank(pre + Fence.Backticks + post)
  {
    assert (pre + Fence.Backticks + post)[|pre|] == '`';
  }

  /** The credential pools of the orchestrator and its (never advanced)
      round-robin counter `gpt_queue`. */
  datatype Pools = Pools(apiKeys: seq<string>, authTokens: seq<string>, queue: nat)

  /** What one official call yields: an answer (maybe `None`), or the
      `NameError` its retry branch raises, since that branch refers to a
      `chat_history` that does not exist in its scope. */
  datatype Official = Answer(text: Option<string>) | Threw(error: Exception)

  datatype OfficialRun = OfficialRun(outcome: Official, pools: Pools)

  const RetryVariable := "chat_history"
  const BadKeyMessage := "Incorrect API key provided"

  /** The pool without its first credential; an empty pool stays empty. */
  function DropFirst(keys: seq<string>): (r: seq<string>)
    ensures |r| == Max(|keys| - 1, 0) && r == keys[|keys| - |r|..]
  {
    if |keys| == 0 then [] else keys[1..]
  }

  /** API-key pool after a failed call: the FIRST key is dropped when the
      error reports an incorrect key, whichever key was used. */
  function KeysAfterFailure(keys: seq<string>, message: string): (r: seq<string>)
    ensures |keys| - 1 <= |r| <= |keys| && r == keys[|keys| - |r|..]
    ensures |r| < |keys| <==> |keys| > 0 && Contains(message, BadKeyMessage)
  {
    if Contains(message, BadKeyMessage) then DropFirst(keys) else keys
  }

  /** Auth-token pool after a failed call. The guard is a bare (non-empty)
      string literal, so it is always true: every failure drops the first
      token, whatever the error was. */
  function TokensAfterFailure(tokens: seq<string>, message: string): (r: seq<string>)
    ensures r == DropFirst(tokens)
  {
    var guard := "Could not parse your authentication token";
    if guard != "" then DropFirst(tokens) else tokens
  }

  /** The round-robin credential an attempt uses: the one at the counter's
      position modulo the pool size. The moderation keys are picked the same
      way. */
  function Selected(pool: seq<string>, queue: nat): (c: string)
    requires |pool| > 0
    ensures c in pool
  {
    pool[queue % |pool|]
  }

  /** The pool of one path after a failed call on it. */
  function PoolAfterFailure(useApiKey: bool, pool: seq<string>, message: string): seq<string> {
    if useApiKey then KeysAfterFailure(pool, message) else TokensAfterFailure(pool, message)
  }

  /** `run_official_gpt` for one path: `useApiKey` is its `key_gpt` flag and
      `reply(c)` the backend's answer when called with credential `c`. An
      empty pool makes the index computation fail, which the handler
      swallows, so no call is made and the result is `None`. */
  function RunOfficial(pools: Pools, useApiKey: bool, reply: string -> Reply): (r: OfficialRun)
    ensures r.pools.queue == pools.queue
    ensures useApiKey ==> r.pools.authTokens == pools.authTokens
    ensures !useApiKey ==> r.pools.apiKeys == pools.apiKeys
  {
    var pool := if useApiKey then pools.apiKeys else pools.authTokens;
    if |pool| == 0 then OfficialRun(Answer(None), pools)
    else
      match reply(Selected(pool, pools.queue))
      case Completed(content) => OfficialRun(Answer(content), pools)
      case Failed(message) =>
        var left := PoolAfterFailure(useApiKey, pool, message);
        var pools' := if useApiKey then pools.(apiKeys := left) else pools.(authTokens := left);
        if |left| > 0 then OfficialRun(Threw(NameError(RetryVariable)), pools')
        else OfficialRun(Answer(None), pools')
  }

  /** What an official call does, stated without its code: an answer comes
      from the selected credential's reply; a failure shrinks only the
      path's own pool, and raises exactly when credentials remain. A failure
      on the token path always drops the first token; on the API-key path it
      drops the first key exactly when the message reports an incorrect key. */
  lemma RunOfficialOutcome(pools: Pools, useApiKey: bool, reply: string -> Reply)
    ensures var r := RunOfficial(pools, useApiKey, reply);
      var pool := if useApiKey then pools.apiKeys else pools.authTokens;
      var pool' := if useApiKey then r.pools.apiKeys else r.pools.authTokens;
      && r.pools.queue == pools.queue
      && (useApiKey ==> r.pools.authTokens == pools.authTokens)
      && (!useApiKey ==> r.pools.apiKeys == pools.apiKeys)
      && (|pool| == 0 ==> r == OfficialRun(Answer(None), pools))
      && (|pool| > 0 && reply(Selected(pool, pools.queue)).Completed? ==>
            r == OfficialRun(Answer(reply(Selected(pool, pools.queue)).content), pools))
      && (|pool| > 0 && reply(Selected(pool, pools.queue)).Failed? ==>
            && pool' == pool[|pool| - |pool'|..]
            && |pool| - 1 <= |pool'|
            && (r.outcome.Threw? <==> |pool'| > 0)
            && (r.outcome.Answer? ==> r.outcome.text == None)
            && (!useApiKey ==> pool' == pool[1..])
            && (useApiKey ==> (pool' == pool[1..] <==> Contains(reply(Selected(pool, pools.queue)).message, BadKeyMessage))))
      && (r.outcome.Answer? && r.outcome.text.Some? ==>
            |pool| > 0 && reply(Selected(pool, pools.queue)) == Completed(r.outcome.text))
  {
  }

  /** A failure on the token path drops a token even when the error has
      nothing to do with authentication. */
  lemma AnyTokenFailureEvicts(tokens: seq<string>, message: string)
    requires |tokens| > 0
    ensures |TokensAfterFailure(tokens, message)| == |tokens| - 1
    ensures !Contains(message, "Could not parse your authentication token") ==>
      TokensAfterFailure(tokens, message) == tokens[1..]
  {
  }

  /** Eviction removes the first credential, not the selected one: on the
      token path, or on the API-key path for an incorrect-key message, with a
      counter that does not point at index 0 and distinct credentials, the
      credential that failed is still in the pool and the first one is gone. */
  lemma EvictionIgnoresSelectedCredential(useApiKey: bool, pool: seq<string>, queue: nat, message: string)
    requires |pool| > 0 && queue % |pool| != 0
    requires forall a, b :: 0 <= a < b < |pool| ==> pool[a] != pool[b]
    requires useApiKey ==> Contains(message, BadKeyMessage)
    ensures Selected(pool, queue) in PoolAfterFailure(useApiKey, pool, message)
    ensures pool[0] !in PoolAfterFailure(useApiKey, pool, message)
  {
    var left := PoolAfterFailure(useApiKey, pool, message);
    assert left == pool[1..];
    assert left[queue % |pool| - 1] == Selected(pool, queue);
  }

  /** With the counter at 0, as it always is because nothing advances it, the
      credential an eviction removes is the one that failed and, credentials
      being distinct, no round-robin index ever selects it again. */
  lemma EvictedCredentialNeverReselected(useApiKey: bool, pool: seq<string>, queue: nat, message: string)
    requires |pool| > 1 && queue % |pool| == 0
    requires forall a, b :: 0 <= a < b < |pool| ==> pool[a] != pool[b]
    requires useApiKey ==> Contains(message, BadKeyMessage)
    ensures PoolAfterFailure(useApiKey, pool, message)[0] != Selected(pool, queue)
    ensures forall q: nat :: Selected(PoolAfterFailure(useApiKey, pool, message), q) != Selected(pool, queue)
  {
    var left := PoolAfterFailure(useApiKey, pool, message);
    assert left == pool[1..];
    forall q: nat ensures Selected(left, q) != Selected(pool, queue) {
      assert left[q % |left|] == pool[q % |left| + 1];
    }
  }
}
