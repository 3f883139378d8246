/** `ChatGPT.moderation_request`: a per-text verdict cache in front of the
    moderation endpoint, with round-robin key selection and up to twenty
    retries. The endpoint is an oracle: `post(attempt, request)` is the
    reply to the `attempt`-th request of one call (counting from 0). */
module Moderation {
  import opened Text
  import opened Backends

  /** What a check reports: `(False, "")`, `(True, categories)` or
      `(None, message)`. */
  datatype Verdict =
    | Clean
    | Flagged(categories: seq<string>)
    | Degraded(message: string)

  /** The part of an HTTP reply the code reads: its status and, on 200, the
      first result's `flagged` flag and its category map in order. */
  datatype HttpReply = HttpReply(status: nat, flagged: bool, categories: seq<(string, bool)>)

  /** What goes over the wire: the key (sent as a bearer token) and the
      input text. */
  datatype Request = Request(key: string, input: string)

  /** The cache `previous_requests_moderation` and the counter
      `moderation_queue`. */
  datatype State = State(cache: map<string, Verdict>, queue: nat)

  /** The cache remembers only verdicts the endpoint gave, never a failure;
      it starts empty, so every reachable state satisfies this. */
  predicate Remembers(st: State) {
    forall t :: t in st.cache ==> !st.cache[t].Degraded?
  }

  /** `after` keeps every entry of `before` and adds at most one, for `text`. */
  predicate OnlyAdds(before: map<string, Verdict>, after: map<string, Verdict>, text: string) {
    && (forall t :: t in before ==> t in after && after[t] == before[t])
    && (forall t :: t in after && t != text ==> t in before)
  }

  /** The requests carry `text` and take their keys round-robin, starting at
      position `queue` of the pool. */
  predicate RoundRobin(sent: seq<Request>, keys: seq<string>, queue: nat, text: string)
    requires |keys| > 0
  {
    forall k :: 0 <= k < |sent| ==> sent[k] == Request(keys[(queue + k) % |keys|], text)
  }

  /** A verdict, the state after the call, and the requests sent, in order. */
  datatype Check = Check(verdict: Verdict, state: State, sent: seq<Request>)

  /** The retry budget: the call with `error == 20` does not retry. */
  const MaxRetries: nat := 20
  /** Texts shorter than this are not checked. */
  const MinLength := 3
  const FailurePrefix := "Request failed with status code: "
  const StatusOk := 200

  /** Python's `str(n)` for a natural number. */
  function DecimalString(n: nat): (s: string)
    ensures |s| > 0 && forall k :: 0 <= k < |s| ==> '0' <= s[k] <= '9'
    decreases n
  {
    if n < 10 then [Digit(n)] else DecimalString(n / 10) + [Digit(n % 10)]
  }

  function Digit(d: nat): (c: char)
    requires d < 10
    ensures '0' <= c <= '9' && c as int - '0' as int == d
  {
    ('0' as int + d) as char
  }

  /** The number a string of decimal digits denotes. */
  function DecimalValue(s: string): nat
    requires forall k :: 0 <= k < |s| ==> '0' <= s[k] <= '9'
  {
    if |s| == 0 then 0 else 10 * DecimalValue(s[..|s| - 1]) + (s[|s| - 1] as int - '0' as int)
  }

  /** The status in a failure message reads back as the status received. */
  lemma {:induction false} DecimalRoundTrip(n: nat)
    ensures DecimalValue(DecimalString(n)) == n
    decreases n
  {
    if n >= 10 {
      var s := DecimalString(n);
      assert s[..|s| - 1] == DecimalString(n / 10);
      DecimalRoundTrip(n / 10);
    }
  }

  /** The names of the categories whose value is true, in the reply's order. */
  function ViolatedCategories(categories: seq<(string, bool)>): (r: seq<string>)
    ensures |r| <= |categories|
    ensures forall c :: c in r <==> (c, true) in categories
    decreases |categories|
  {
    if |categories| == 0 then []
    else
      var rest := ViolatedCategories(categories[1..]);
      assert forall c :: (c, true) in categories <==> categories[0] == (c, true) || (c, true) in categories[1..];
      if categories[0].1 then [categories[0].0] + rest else rest
  }

  /** The categories are listed in the reply's order: the violated categories
      of two consecutive parts of the map are those of the first part, then
      those of the second. */
  lemma {:induction false} ViolatedCategoriesAppend(a: seq<(string, bool)>, b: seq<(string, bool)>)
    ensures ViolatedCategories(a + b) == ViolatedCategories(a) + ViolatedCategories(b)
    decreases |a|
  {
    if |a| == 0 {
      assert a + b == b;
    } else {
      assert (a + b)[0] == a[0] && (a + b)[1..] == a[1..] + b;
      ViolatedCategoriesAppend(a[1..], b);
    }
  }

  /** The verdict a 200 reply stands for. */
  function VerdictOf(reply: HttpReply): (v: Verdict)
    ensures reply.flagged <==> v.Flagged?
    ensures v.Flagged? ==> forall c :: c in v.categories <==> (c, true) in reply.categories
    ensures !v.Degraded?
  {
    if reply.flagged then Flagged(ViolatedCategories(reply.categories)) else Clean
  }

  /** The verdict after the last retry failed with `status`. */
  function Failure(status: nat): (v: Verdict)
    ensures v.Degraded? && StartsWith(v.message, FailurePrefix)
    ensures var digits := v.message[|FailurePrefix|..];
      && (forall k :: 0 <= k < |digits| ==> '0' <= digits[k] <= '9')
      && DecimalValue(digits) == status
  {
    var message := FailurePrefix + DecimalString(status);
    assert message[|FailurePrefix|..] == DecimalString(status);
    DecimalRoundTrip(status);
    Degraded(message)
  }

  /** The state with `v` stored for `text`. */
  function Remember(st: State, text: string, v: Verdict): (st': State)
    ensures st'.queue == st.queue && text in st'.cache && st'.cache[text] == v
    ensures forall t :: t in st'.cache && t != text ==> t in st.cache && st'.cache[t] == st.cache[t]
    ensures forall t :: t in st.cache ==> t in st'.cache
  {
    st.(cache := st.cache[text := v])
  }

  /** One attempt of `moderation_request` and, on a non-200 reply, the retries
      that follow it; `error` is the number of attempts already made. */
  function Attempt(st: State, keys: seq<string>, text: string, error: nat,
                   post: (nat, Request) -> HttpReply): (c: Check)
    requires |keys| > 0 && error <= MaxRetries
    ensures |c.sent| <= MaxRetries + 1 - error
    ensures c.state.queue == st.queue + |c.sent|
    ensures text in st.cache ==> c == Check(st.cache[text], st, [])
    ensures text !in st.cache ==> |c.sent| > 0
    decreases MaxRetries - error
  {
    if text in st.cache then Check(st.cache[text], st, [])
    else
      var request := Request(Selected(keys, st.queue), text);
      var reply := post(error, request);
      var st1 := st.(queue := st.queue + 1);
      if reply.status == StatusOk then
        var v := VerdictOf(reply);
        Check(v, Remember(st1, text, v), [request])
      else if error == MaxRetries then
        Check(Failure(reply.status), st1, [request])
      else
        var rest := Attempt(st1, keys, text, error + 1, post);
        Check(rest.verdict, rest.state, [request] + rest.sent)
  }

  /** The requests of one check take their keys round-robin from the
      counter's position on. */
  lemma {:induction false} AttemptRoundRobin(st: State, keys: seq<string>, text: string, error: nat,
                                             post: (nat, Request) -> HttpReply)
    requires |keys| > 0 && error <= MaxRetries
    ensures RoundRobin(Attempt(st, keys, text, error, post).sent, keys, st.queue, text)
    decreases MaxRetries - error
  {
    if text !in st.cache {
      var request := Request(Selected(keys, st.queue), text);
      if post(error, request).status != StatusOk && error < MaxRetries {
        var st1 := st.(queue := st.queue + 1);
        var rest := Attempt(st1, keys, text, error + 1, post);
        AttemptRoundRobin(st1, keys, text, error + 1, post);
        assert Attempt(st, keys, text, error, post) == Check(rest.verdict, rest.state, [request] + rest.sent);
        RoundRobinCons(request, rest.sent, keys, st.queue, text);
      }
    }
  }

  /** A request with the key at `queue` in front of round-robin requests
      starting one position on gives round-robin requests from `queue`. */
  lemma RoundRobinCons(request: Request, sent: seq<Request>, keys: seq<string>, queue: nat, text: string)
    requires |keys| > 0 && request == Request(Selected(keys, queue), text)
    requires RoundRobin(sent, keys, queue + 1, text)
    ensures RoundRobin([request] + sent, keys, queue, text)
  {
    var all := [request] + sent;
    forall k | 0 <= k < |all| ensures all[k] == Request(keys[(queue + k) % |keys|], text) {
      if k > 0 {
        assert all[k] == sent[k - 1];
        assert queue + 1 + (k - 1) == queue + k;
      }
    }
  }

  /** The cache only grows, by the checked text and its verdict, which is
      stored exactly when the endpoint answered; a failure is never stored. */
  lemma {:induction false} AttemptCache(st: State, keys: seq<string>, text: string, error: nat,
                                        post: (nat, Request) -> HttpReply)
    requires |keys| > 0 && error <= MaxRetries
    ensures var c := Attempt(st, keys, text, error, post);
      && OnlyAdds(st.cache, c.state.cache, text)
      && (text !in st.cache ==> (c.verdict.Degraded? <==> text !in c.state.cache))
      && (text in c.state.cache ==> c.state.cache[text] == c.verdict)
      && (Remembers(st) ==> Remembers(c.state))
    decreases MaxRetries - error
  {
    if text !in st.cache {
      var request := Request(Selected(keys, st.queue), text);
      if post(error, request).status != StatusOk && error < MaxRetries {
        AttemptCache(st.(queue := st.queue + 1), keys, text, error + 1, post);
      }
    }
  }

  /** `moderation_request(text)`: no keys or a text shorter than three
      characters is clean without a request; otherwise the cached verdict or
      the endpoint's answer. */
  function Moderate(st: State, keys: seq<string>, text: string,
                    post: (nat, Request) -> HttpReply): (c: Check)
    ensures |keys| == 0 || |text| < MinLength ==> c == Check(Clean, st, [])
    ensures |c.sent| <= MaxRetries + 1
    ensures c.state.queue == st.queue + |c.sent|
    ensures |keys| > 0 && |text| >= MinLength && text in st.cache ==> c == Check(st.cache[text], st, [])
    ensures |keys| > 0 && |text| >= MinLength && text !in st.cache ==> |c.sent| > 0
  {
    if |keys| == 0 || |text| < MinLength then Check(Clean, st, [])
    else Attempt(st, keys, text, 0, post)
  }

  /** What one check does to the cache and which keys it uses. */
  lemma ModerateCache(st: State, keys: seq<string>, text: string, post: (nat, Request) -> HttpReply)
    ensures var c := Moderate(st, keys, text, post);
      && OnlyAdds(st.cache, c.state.cache, text)
      && (|keys| > 0 ==> RoundRobin(c.sent, keys, st.queue, text))
      && (|keys| > 0 && |text| >= MinLength && text !in st.cache ==>
            (c.verdict.Degraded? <==> text !in c.state.cache))
      && (text in c.state.cache ==> c.state.cache[text] == c.verdict || c.sent == [])
      && (Remembers(st) ==> Remembers(c.state))
  {
    if |keys| > 0 && |text| >= MinLength {
      AttemptCache(st, keys, text, 0, post);
      AttemptRoundRobin(st, keys, text, 0, post);
    }
  }

  /** Every request in `sent`, the first of them being attempt `first`, was
      answered with a status other than 200. */
  predicate AllFailed(sent: seq<Request>, first: nat, post: (nat, Request) -> HttpReply) {
    forall k :: 0 <= k < |sent| ==> post(first + k, sent[k]).status != StatusOk
  }

  /** The check's requests, the first being attempt `first` and using the
      key at position `queue`, all got a status other than 200 except the
      last, which got a 200 whose verdict the check reports. */
  predicate AnsweredLast(c: Check, keys: seq<string>, text: string, queue: nat, first: nat,
                         post: (nat, Request) -> HttpReply)
    requires |keys| > 0
  {
    var n := |c.sent|;
    && n > 0
    && AllFailed(c.sent[..n - 1], first, post)
    && post(first + n - 1, Request(Selected(keys, queue + n - 1), text)).status == StatusOk
    && c.verdict == VerdictOf(post(first + n - 1, Request(Selected(keys, queue + n - 1), text)))
  }

  /** A failed request in front of an answered run gives an answered run. */
  lemma AnsweredLastShift(request: Request, rest: Check, c: Check, keys: seq<string>, text: string,
                          queue: nat, error: nat, post: (nat, Request) -> HttpReply)
    requires |keys| > 0 && AnsweredLast(rest, keys, text, queue + 1, error + 1, post)
    requires post(error, request).status != StatusOk
    requires c.sent == [request] + rest.sent && c.verdict == rest.verdict
    ensures AnsweredLast(c, keys, text, queue, error, post)
  {
    var m := |rest.sent|;
    assert c.sent[..m] == [request] + rest.sent[..m - 1];
    Shift(request, rest.sent[..m - 1], error, post);
  }

  /** A verdict that is not a failure is the endpoint's answer to the last
      request: that request got a 200, every request before it got another
      status, and the verdict is what the 200 reply says. */
  lemma {:induction false} AnsweredByLastRequest(st: State, keys: seq<string>, text: string, error: nat,
                                                 post: (nat, Request) -> HttpReply)
    requires |keys| > 0 && error <= MaxRetries
    ensures var c := Attempt(st, keys, text, error, post);
      text !in st.cache && !c.verdict.Degraded? ==> AnsweredLast(c, keys, text, st.queue, error, post)
    decreases MaxRetries - error
  {
    if text !in st.cache {
      var request := Request(Selected(keys, st.queue), text);
      if post(error, request).status != StatusOk && error < MaxRetries {
        var st1 := st.(queue := st.queue + 1);
        var rest := Attempt(st1, keys, text, error + 1, post);
        AnsweredByLastRequest(st1, keys, text, error + 1, post);
        var c := Attempt(st, keys, text, error, post);
        assert c == Check(rest.verdict, rest.state, [request] + rest.sent);
        if !c.verdict.Degraded? {
          AnsweredLastShift(request, rest, c, keys, text, st.queue, error, post);
        }
      }
    }
  }

  /** The same for a whole check: a text that is long enough, not cached and
      not degraded gets the verdict of the first 200 reply. */
  lemma ModerateAnswers(st: State, keys: seq<string>, text: string, post: (nat, Request) -> HttpReply)
    ensures var c := Moderate(st, keys, text, post);
      |keys| > 0 && |text| >= MinLength && text !in st.cache && !c.verdict.Degraded? ==>
        AnsweredLast(c, keys, text, st.queue, 0, post)
  {
    if |keys| > 0 && |text| >= MinLength {
      assert Moderate(st, keys, text, post) == Attempt(st, keys, text, 0, post);
      AnsweredByLastRequest(st, keys, text, 0, post);
    }
  }

  /** Only a run of failed requests that uses up the retries degrades. */
  lemma {:induction false} DegradedAfterEveryRetry(st: State, keys: seq<string>, text: string, error: nat,
                                                   post: (nat, Request) -> HttpReply)
    requires |keys| > 0 && error <= MaxRetries && Remembers(st)
    ensures var c := Attempt(st, keys, text, error, post);
      c.verdict.Degraded? ==> |c.sent| == MaxRetries + 1 - error && AllFailed(c.sent, error, post)
    decreases MaxRetries - error
  {
    if text !in st.cache {
      var request := Request(Selected(keys, st.queue), text);
      if post(error, request).status != StatusOk && error < MaxRetries {
        var st1 := st.(queue := st.queue + 1);
        var rest := Attempt(st1, keys, text, error + 1, post);
        DegradedAfterEveryRetry(st1, keys, text, error + 1, post);
        if rest.verdict.Degraded? {
          Shift(request, rest.sent, error, post);
        }
      }
    }
  }

  /** The degraded message carries the status of the last request, the one
      made with the key `MaxRetries - error` positions further on. */
  lemma {:induction false} DegradedMessage(st: State, keys: seq<string>, text: string, error: nat,
                                           post: (nat, Request) -> HttpReply)
    requires |keys| > 0 && error <= MaxRetries && Remembers(st)
    ensures var c := Attempt(st, keys, text, error, post);
      var last := Request(Selected(keys, st.queue + (MaxRetries - error)), text);
      c.verdict.Degraded? ==> c.verdict == Failure(post(MaxRetries, last).status)
    decreases MaxRetries - error
  {
    if text !in st.cache {
      var request := Request(Selected(keys, st.queue), text);
      if post(error, request).status != StatusOk && error < MaxRetries {
        DegradedMessage(st.(queue := st.queue + 1), keys, text, error + 1, post);
      }
    }
  }

  /** The `j`-th retry of a check whose first request uses the key at
      position `queue`. */
  function RetryRequest(keys: seq<string>, text: string, queue: nat, j: nat): Request
    requires |keys| > 0
  {
    Request(Selected(keys, queue + j), text)
  }

  /** Every request from attempt `first` up to the last allowed one, each
      with the next key in turn, gets a status other than 200. */
  predicate RetriesFail(keys: seq<string>, text: string, queue: nat, first: nat,
                        post: (nat, Request) -> HttpReply)
    requires |keys| > 0 && first <= MaxRetries
  {
    forall j: nat :: j <= MaxRetries - first ==> post(first + j, RetryRequest(keys, text, queue, j)).status != StatusOk
  }

  /** The retries from `first` on fail exactly when the request at `first`
      fails and so do the retries after it. */
  lemma RetriesFailCons(keys: seq<string>, text: string, queue: nat, first: nat,
                        post: (nat, Request) -> HttpReply)
    requires |keys| > 0 && first < MaxRetries
    ensures RetriesFail(keys, text, queue, first, post) <==>
      post(first, RetryRequest(keys, text, queue, 0)).status != StatusOk
      && RetriesFail(keys, text, queue + 1, first + 1, post)
  {
    var queue1, first1 := queue + 1, first + 1;
    if post(first, RetryRequest(keys, text, queue, 0)).status != StatusOk
       && RetriesFail(keys, text, queue1, first1, post) {
      forall j: nat | j <= MaxRetries - first
        ensures post(first + j, RetryRequest(keys, text, queue, j)).status != StatusOk
      {
        if j > 0 {
          assert RetryRequest(keys, text, queue1, j - 1) == RetryRequest(keys, text, queue, j);
          assert post(first1 + (j - 1), RetryRequest(keys, text, queue1, j - 1)).status != StatusOk;
        }
      }
    }
    if RetriesFail(keys, text, queue, first, post) {
      forall j: nat | j <= MaxRetries - first1
        ensures post(first1 + j, RetryRequest(keys, text, queue1, j)).status != StatusOk
      {
        assert RetryRequest(keys, text, queue1, j) == RetryRequest(keys, text, queue, j + 1);
        assert post(first + (j + 1), RetryRequest(keys, text, queue, j + 1)).status != StatusOk;
      }
    }
  }

  /** An uncached text degrades exactly when every remaining attempt fails. */
  lemma {:induction false} AttemptDegrades(st: State, keys: seq<string>, text: string, error: nat,
                                           post: (nat, Request) -> HttpReply)
    requires |keys| > 0 && error <= MaxRetries && text !in st.cache
    ensures Attempt(st, keys, text, error, post).verdict.Degraded? <==> RetriesFail(keys, text, st.queue, error, post)
    decreases MaxRetries - error
  {
    var request := Request(Selected(keys, st.queue), text);
    assert request == RetryRequest(keys, text, st.queue, 0);
    var c := Attempt(st, keys, text, error, post);
    var reply := post(error, request);
    if reply.status == StatusOk {
      assert c.verdict == VerdictOf(reply);
    } else if error == MaxRetries {
      assert c.verdict == Failure(reply.status);
    } else {
      var st1 := st.(queue := st.queue + 1);
      var rest := Attempt(st1, keys, text, error + 1, post);
      assert c.verdict == rest.verdict;
      AttemptDegrades(st1, keys, text, error + 1, post);
      RetriesFailCons(keys, text, st.queue, error, post);
    }
  }

  /** An uncached text that degrades reports the status of the last retry. */
  lemma {:induction false} AttemptFailureStatus(st: State, keys: seq<string>, text: string, error: nat,
                                                post: (nat, Request) -> HttpReply)
    requires |keys| > 0 && error <= MaxRetries && text !in st.cache
    ensures var c := Attempt(st, keys, text, error, post);
      c.verdict.Degraded? ==>
        c.verdict == Failure(post(MaxRetries, RetryRequest(keys, text, st.queue, MaxRetries - error)).status)
    decreases MaxRetries - error
  {
    var request := Request(Selected(keys, st.queue), text);
    assert request == RetryRequest(keys, text, st.queue, 0);
    var c := Attempt(st, keys, text, error, post);
    var reply := post(error, request);
    if reply.status == StatusOk {
      assert c.verdict == VerdictOf(reply);
    } else if error == MaxRetries {
      assert c.verdict == Failure(reply.status);
    } else {
      var st1 := st.(queue := st.queue + 1);
      var rest := Attempt(st1, keys, text, error + 1, post);
      assert c.verdict == rest.verdict;
      AttemptFailureStatus(st1, keys, text, error + 1, post);
      assert RetryRequest(keys, text, st1.queue, MaxRetries - (error + 1))
          == RetryRequest(keys, text, st.queue, MaxRetries - error);
    }
  }

  /** A whole check of a long enough, uncached text degrades exactly when all
      21 requests, with the keys taken in turn, get a status other than 200;
      the message then carries the status of the last. */
  lemma ModerateDegrades(st: State, keys: seq<string>, text: string, post: (nat, Request) -> HttpReply)
    ensures var c := Moderate(st, keys, text, post);
      |keys| > 0 && |text| >= MinLength && text !in st.cache ==>
        && (c.verdict.Degraded? <==> RetriesFail(keys, text, st.queue, 0, post))
        && (c.verdict.Degraded? ==>
              c.verdict == Failure(post(MaxRetries, RetryRequest(keys, text, st.queue, MaxRetries)).status))
  {
    if |keys| > 0 && |text| >= MinLength && text !in st.cache {
      assert Moderate(st, keys, text, post) == Attempt(st, keys, text, 0, post);
      AttemptDegrades(st, keys, text, 0, post);
      AttemptFailureStatus(st, keys, text, 0, post);
    }
  }

  lemma Shift(request: Request, sent: seq<Request>, error: nat, post: (nat, Request) -> HttpReply)
    requires post(error, request).status != StatusOk && AllFailed(sent, error + 1, post)
    ensures AllFailed([request] + sent, error, post)
  {
    var all := [request] + sent;
    forall k | 0 <= k < |all| ensures post(error + k, all[k]).status != StatusOk {
      if k > 0 {
        assert all[k] == sent[k - 1];
      }
    }
  }

  /** A checked text that was not degraded is answered from the cache the
      next time: the same verdict, no request, no change of state. */
  lemma SecondCheckIsCached(st: State, keys: seq<string>, text: string,
                            post: (nat, Request) -> HttpReply, post': (nat, Request) -> HttpReply)
    ensures var first := Moderate(st, keys, text, post);
      var second := Moderate(first.state, keys, text, post');
      !first.verdict.Degraded? ==> second == Check(first.verdict, first.state, [])
  {
    ModerateCache(st, keys, text, post);
  }

  /** A degraded check is not remembered, so the next check asks again. */
  lemma DegradedIsNotCached(st: State, keys: seq<string>, text: string,
                            post: (nat, Request) -> HttpReply)
    requires Remembers(st)
    ensures var c := Moderate(st, keys, text, post);
      c.verdict.Degraded? ==> text !in c.state.cache && c.state.cache == st.cache
  {
    ModerateCache(st, keys, text, post);
  }
}
