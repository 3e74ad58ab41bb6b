/** `WebRequestAPI` and `WebRequestBatch`: the in-flight counter per API path,
    the completion state of one request, and the batch that waits for several
    requests with "first failure wins, otherwise all succeed". JSON objects
    are opaque tokens; the transport, the clock and the handler delegates are
    outside the model (the handlers are counted, not run). */
module Network {
  import opened Wrappers

  /** A `JObject` reference: `JNull` or an opaque object. */
  datatype Json = JNull | JObj(id: nat)

  // ---------------------------------------------------------------------
  // The static API_POST_COUNT_DICTIONARY
  // ---------------------------------------------------------------------

  /** `IncrementPostCount` on the dictionary. */
  function IncrementPost(m: map<string, int>, api: string): (r: map<string, int>)
    ensures r.Keys == m.Keys + {api}
    ensures r[api] == (if api in m then m[api] + 1 else 1)
    ensures forall k :: k in m && k != api ==> r[k] == m[k]
  {
    if api !in m then m[api := 1] else m[api := m[api] + 1]
  }

  /** `DecrementPostCount` on the dictionary. */
  function DecrementPost(m: map<string, int>, api: string): (r: map<string, int>)
    ensures api !in m ==> r == m
    ensures api in m && m[api] <= 1 ==> r == m - {api}
    ensures api in m && m[api] > 1 ==> r == m[api := m[api] - 1]
  {
    if api !in m then m
    else if m[api] <= 1 then m - {api}
    else m[api := m[api] - 1]
  }

  ghost predicate PositiveCounts(m: map<string, int>) {
    forall k :: k in m ==> m[k] >= 1
  }

  /** `GetAPIPostCount`: 0 for an API with nothing in flight. */
  function PostCount(m: map<string, int>, api: string): (n: int)
    ensures api !in m ==> n == 0
  {
    if api in m then m[api] else 0
  }

  /** Starting a post and completing it gives back the counter as it was, and
      the counts stay positive through both. */
  lemma IncrementThenDecrement(m: map<string, int>, api: string)
    requires PositiveCounts(m)
    ensures PositiveCounts(IncrementPost(m, api))
    ensures DecrementPost(IncrementPost(m, api), api) == m
    ensures PostCount(IncrementPost(m, api), api) == PostCount(m, api) + 1
  {
    if api in m {
      assert IncrementPost(m, api)[api := m[api]] == m;
    } else {
      assert m[api := 1] - {api} == m;
    }
  }

  /** Completing a post never makes a count non-positive. */
  lemma DecrementKeepsPositive(m: map<string, int>, api: string)
    requires PositiveCounts(m)
    ensures PositiveCounts(DecrementPost(m, api))
    ensures PostCount(DecrementPost(m, api), api) == if PostCount(m, api) <= 1 then 0 else PostCount(m, api) - 1
  {
  }

  /** The static post counter, as an object. */
  class PostCounter {
    var counts: map<string, int>

    ghost predicate Valid()
      reads this
    {
      PositiveCounts(counts)
    }

    constructor()
      ensures Valid() && counts == map[]
    {
      counts := map[];
    }

    /** `WaitingForResponse()`. */
    predicate WaitingForResponse()
      reads this
    {
      |counts| > 0
    }

    /** Some post is in flight exactly when some API has a positive count. */
    lemma WaitingMeansSomeCount()
      requires Valid()
      ensures WaitingForResponse() <==> exists api :: PostCount(counts, api) > 0
    {
      if WaitingForResponse() {
        var api :| api in counts;
        assert PostCount(counts, api) > 0;
      }
    }

    method Increment(api: string)
      requires Valid()
      modifies this
      ensures Valid() && counts == IncrementPost(old(counts), api) && WaitingForResponse()
    {
      if api !in counts {
        counts := counts[api := 1];
      } else {
        counts := counts[api := counts[api] + 1];
      }
    }

    method Decrement(api: string)
      requires Valid()
      modifies this
      ensures Valid() && counts == DecrementPost(old(counts), api)
    {
      if api !in counts { return; }
      if counts[api] <= 1 {
        counts := counts - {api};
      } else {
        counts := counts[api := counts[api] - 1];
      }
    }
  }

  // ---------------------------------------------------------------------
  // One request
  // ---------------------------------------------------------------------

  /** The server's reply as `ParseResponse` reads it: `result` is `None` when
      the reply has no "result" member; `Malformed` is a reply on which one of
      the typed reads throws. A null "errorCode" reads as "". */
  datatype Response =
    | Reply(success: bool, code: int, errorCode: string, result: Option<Json>)
    | Malformed

  /** The arguments passed to the completion callback. */
  datatype Report = Report(transportSuccess: bool, statusCode: int, errorCode: string, result: Json)

  class WebRequestAPI {
    const baseUrl: string
    var api: string
    var completed: bool
    var statusCode: int
    var transportSuccess: bool
    var errorCode: string
    var result: Json
    var hasCallback: bool
    /** Every invocation of the completion callback, in order. */
    var callbackCalls: seq<Report>
    /** How often the transport-success and request-error handlers were reached. */
    var transportSuccessEvents: nat
    var requestErrorEvents: nat

    constructor(baseUrl: string, api: string)
      ensures this.baseUrl == baseUrl && this.api == api
      ensures !completed && !transportSuccess && errorCode == "" && result == JNull
      ensures !hasCallback && callbackCalls == [] && transportSuccessEvents == 0 && requestErrorEvents == 0
    {
      this.baseUrl := baseUrl;
      this.api := api;
      completed := false;
      statusCode := 0;
      transportSuccess := false;
      errorCode := "";
      result := JNull;
      hasCallback := false;
      callbackCalls := [];
      transportSuccessEvents := 0;
      requestErrorEvents := 0;
    }

    /** `URL`: the base URL followed by the API path. */
    function URL(): (u: string)
      reads this
      ensures |u| == |baseUrl| + |api| && u[..|baseUrl|] == baseUrl && u[|baseUrl|..] == api
    {
      baseUrl + api
    }

    /** `IsError`. */
    predicate IsError()
      reads this
    {
      errorCode != ""
    }

    /** `RequestSuccess`. */
    predicate RequestSuccess()
      reads this
      ensures RequestSuccess() <==> transportSuccess && errorCode == ""
    {
      transportSuccess && !IsError()
    }

    /** `keepWaiting`. */
    predicate KeepWaiting()
      reads this
    {
      !completed
    }

    method SetAPI(newApi: string)
      modifies this
      ensures api == newApi && completed == old(completed) && callbackCalls == old(callbackCalls)
    {
      api := newApi;
    }

    method SetCallback(present: bool)
      modifies this
      ensures hasCallback == present && api == old(api) && callbackCalls == old(callbackCalls)
    {
      hasCallback := present;
    }

    method PostStart(counter: PostCounter)
      requires counter.Valid()
      modifies this, counter
      ensures counter.Valid() && counter.counts == IncrementPost(old(counter.counts), api)
      ensures !completed && api == old(api) && callbackCalls == old(callbackCalls) && hasCallback == old(hasCallback)
      ensures PostCount(counter.counts, api) == PostCount(old(counter.counts), api) + 1
    {
      IncrementThenDecrement(counter.counts, api);
      counter.Increment(api);
      completed := false;
    }

    /** `PostComplete(response)`: count the post as finished, read the reply
        (a reply that cannot be read counts as a transport failure), notify the
        handlers and invoke the callback once. */
    method PostComplete(counter: PostCounter, response: Response)
      requires counter.Valid()
      modifies this, counter
      ensures counter.Valid() && counter.counts == DecrementPost(old(counter.counts), api) && api == old(api)
      ensures completed
      ensures response.Malformed? ==>
                !transportSuccess && statusCode == -1 && errorCode == "ParsingError" && result == JNull
      ensures response.Reply? ==>
                transportSuccess == response.success && statusCode == response.code
                && errorCode == response.errorCode
                && result == (if response.result.Some? then response.result.value else old(result))
      ensures callbackCalls == old(callbackCalls)
                + (if hasCallback then [Report(transportSuccess, statusCode, errorCode, result)] else [])
      ensures transportSuccessEvents == old(transportSuccessEvents) + (if transportSuccess then 1 else 0)
      ensures requestErrorEvents == old(requestErrorEvents) + (if RequestSuccess() then 0 else 1)
      ensures hasCallback == old(hasCallback)
    {
      counter.Decrement(api);
      match response {
        case Malformed =>
          transportSuccess := false;
          statusCode := -1;
          errorCode := "ParsingError";
          result := JNull;
        case Reply(success, code, err, res) =>
          transportSuccess := success;
          statusCode := code;
          errorCode := err;
          if res.Some? {
            result := res.value;
          }
      }
      FinishPost();
    }

    method FinishPost()
      modifies this
      ensures completed
      ensures transportSuccess == old(transportSuccess) && statusCode == old(statusCode)
      ensures errorCode == old(errorCode) && result == old(result) && api == old(api)
      ensures hasCallback == old(hasCallback)
      ensures callbackCalls == old(callbackCalls)
                + (if hasCallback then [Report(transportSuccess, statusCode, errorCode, result)] else [])
      ensures transportSuccessEvents == old(transportSuccessEvents) + (if transportSuccess then 1 else 0)
      ensures requestErrorEvents == old(requestErrorEvents) + (if RequestSuccess() then 0 else 1)
    {
      if transportSuccess {
        transportSuccessEvents := transportSuccessEvents + 1;
      }
      if !RequestSuccess() {
        requestErrorEvents := requestErrorEvents + 1;
      }
      completed := true;
      if hasCallback {
        callbackCalls := callbackCalls + [Report(transportSuccess, statusCode, errorCode, result)];
      }
    }

    /** The outcome a batch reads from a finished request. */
    function Outcome(): (o: ApiOutcome)
      reads this
      ensures o.requestSuccess <==> RequestSuccess()
    {
      ApiOutcome(RequestSuccess(), statusCode, errorCode, result)
    }
  }

  /** A post followed by its completion leaves the counter as it was and
      invokes a set callback exactly once with the final state. */
  method PostRoundTrip(request: WebRequestAPI, counter: PostCounter, response: Response)
    requires counter.Valid() && request.hasCallback
    modifies request, counter
    ensures counter.Valid() && counter.counts == old(counter.counts)
    ensures request.completed && |request.callbackCalls| == |old(request.callbackCalls)| + 1
    ensures request.callbackCalls[|request.callbackCalls| - 1]
         == Report(request.transportSuccess, request.statusCode, request.errorCode, request.result)
  {
    IncrementThenDecrement(counter.counts, request.api);
    request.PostStart(counter);
    request.PostComplete(counter, response);
  }

  // ---------------------------------------------------------------------
  // WebRequestBatch
  // ---------------------------------------------------------------------

  /** What the batch reads from one finished request. */
  datatype ApiOutcome = ApiOutcome(requestSuccess: bool, statusCode: int, errorCode: string, result: Json)

  /** The batch's fields; `completions` counts the invocations of `onComplete`
      (only counted when one was supplied). */
  datatype BatchState = BatchState(
    remaining: int, isDone: bool, earlyFailed: bool, hasOnComplete: bool,
    transportSuccess: bool, code: int, errorMsg: string, result: Json,
    completions: nat)
  {
    /** `RequestSuccess` of the batch. */
    predicate RequestSuccess() { transportSuccess && errorMsg == "" }

    /** The fields of the "all succeeded" result. */
    predicate AllSucceededResult() {
      transportSuccess && code == 0 && errorMsg == "" && result == JNull
    }
  }

  function InitialBatch(count: nat, hasOnComplete: bool): (s: BatchState)
    ensures !s.isDone && !s.earlyFailed && s.remaining == count && s.completions == 0
  {
    BatchState(count, false, false, hasOnComplete, true, 0, "", JNull, 0)
  }

  /** `CheckIfAllDone`. */
  function CheckIfAllDone(s: BatchState): (r: BatchState)
    ensures !s.earlyFailed && s.remaining <= 0 ==>
              r.isDone && r.AllSucceededResult()
              && r.completions == s.completions + (if s.hasOnComplete then 1 else 0)
    ensures !(!s.earlyFailed && s.remaining <= 0) ==> r == s
    ensures r.remaining == s.remaining && r.earlyFailed == s.earlyFailed && r.hasOnComplete == s.hasOnComplete
  {
    if !s.earlyFailed && s.remaining <= 0 then
      s.(transportSuccess := true, code := 0, errorMsg := "", result := JNull, isDone := true,
         completions := s.completions + (if s.hasOnComplete then 1 else 0))
    else s
  }

  /** `HandleResult(api)`. */
  function HandleResult(s: BatchState, o: ApiOutcome): (r: BatchState)
    ensures s.isDone ==> r == s
    ensures !s.isDone && !o.requestSuccess ==>
              r == s.(earlyFailed := true, transportSuccess := false, code := o.statusCode,
                      errorMsg := o.errorCode, result := o.result, isDone := true)
    ensures !s.isDone && o.requestSuccess ==> r == CheckIfAllDone(s.(remaining := s.remaining - 1))
  {
    if s.isDone then s
    else if !o.requestSuccess then
      s.(earlyFailed := true, transportSuccess := false, code := o.statusCode,
         errorMsg := o.errorCode, result := o.result, isDone := true)
    else CheckIfAllDone(s.(remaining := s.remaining - 1))
  }

  /** Results delivered one after another. */
  function HandleAll(s: BatchState, os: seq<ApiOutcome>): BatchState
    decreases |os|
  {
    if os == [] then s else HandleAll(HandleResult(s, os[0]), os[1..])
  }

  /** The constructor's loop: a request already completed is handled at once
      (`Some`); the others get the batch's callback (`None`). */
  function RegisterAll(s: BatchState, pre: seq<Option<ApiOutcome>>): BatchState
    decreases |pre|
  {
    if pre == [] then s
    else RegisterAll(if pre[0].Some? then HandleResult(s, pre[0].value) else s, pre[1..])
  }

  /** The completed requests among `pre`, in order. */
  function Finished(pre: seq<Option<ApiOutcome>>): (r: seq<ApiOutcome>)
    ensures |r| <= |pre|
  {
    if pre == [] then [] else (if pre[0].Some? then [pre[0].value] else []) + Finished(pre[1..])
  }

  /** The constructor as written: the loop, then one more `CheckIfAllDone`. */
  function BatchStartAsWritten(pre: seq<Option<ApiOutcome>>, hasOnComplete: bool): BatchState {
    CheckIfAllDone(RegisterAll(InitialBatch(|pre|, hasOnComplete), pre))
  }

  /** The constructor with its final check skipped once the batch is done. */
  function BatchStart(pre: seq<Option<ApiOutcome>>, hasOnComplete: bool): (s: BatchState)
  {
    var s := RegisterAll(InitialBatch(|pre|, hasOnComplete), pre);
    if s.isDone then s else CheckIfAllDone(s)
  }

  predicate AllSucceed(os: seq<ApiOutcome>) {
    forall i :: 0 <= i < |os| ==> os[i].requestSuccess
  }

  /** The index of the first failing outcome, if any. */
  function FirstFailure(os: seq<ApiOutcome>): (r: Option<nat>)
    ensures r.None? <==> AllSucceed(os)
    ensures r.Some? ==> r.value < |os| && !os[r.value].requestSuccess && AllSucceed(os[..r.value])
  {
    if os == [] then None
    else if !os[0].requestSuccess then Some(0)
    else match FirstFailure(os[1..])
      case None => None
      case Some(i) =>
        assert os[..i + 1] == [os[0]] + os[1..][..i];
        Some(i + 1)
  }

  lemma RegisterAllIsHandleAll(s: BatchState, pre: seq<Option<ApiOutcome>>)
    ensures RegisterAll(s, pre) == HandleAll(s, Finished(pre))
    decreases |pre|
  {
    if pre != [] {
      RegisterAllIsHandleAll(if pre[0].Some? then HandleResult(s, pre[0].value) else s, pre[1..]);
      if pre[0].Some? {
        assert ([pre[0].value] + Finished(pre[1..]))[1..] == Finished(pre[1..]);
      } else {
        assert Finished(pre) == Finished(pre[1..]);
      }
    }
  }

  lemma {:induction false} HandleAllAppend(s: BatchState, a: seq<ApiOutcome>, b: seq<ApiOutcome>)
    ensures HandleAll(s, a + b) == HandleAll(HandleAll(s, a), b)
    decreases |a|
  {
    if a == [] {
      assert a + b == b;
    } else {
      assert (a + b)[0] == a[0] && (a + b)[1..] == a[1..] + b;
      HandleAllAppend(HandleResult(s, a[0]), a[1..], b);
    }
  }

  /** A batch that is done ignores every later result. */
  lemma {:induction false} DoneIgnoresResults(s: BatchState, os: seq<ApiOutcome>)
    requires s.isDone
    ensures HandleAll(s, os) == s
    decreases |os|
  {
    if os != [] {
      DoneIgnoresResults(HandleResult(s, os[0]), os[1..]);
    }
  }

  /** A pending batch, fed successes that do not exhaust `remaining`, only counts down. */
  lemma {:induction false} SuccessesCountDown(s: BatchState, os: seq<ApiOutcome>)
    requires !s.isDone && !s.earlyFailed && AllSucceed(os) && s.remaining > |os|
    ensures HandleAll(s, os) == s.(remaining := s.remaining - |os|)
    decreases |os|
  {
    if os != [] {
      SuccessesCountDown(s.(remaining := s.remaining - 1), os[1..]);
    }
  }

  /** Fed exactly `remaining` successes, a pending batch completes once. */
  lemma LastSuccessCompletes(s: BatchState, os: seq<ApiOutcome>)
    requires !s.isDone && !s.earlyFailed && AllSucceed(os) && os != [] && s.remaining == |os|
    ensures var r := HandleAll(s, os);
      r.isDone && !r.earlyFailed && r.AllSucceededResult()
      && r.completions == s.completions + (if s.hasOnComplete then 1 else 0)
  {
    var n := |os| - 1;
    assert os == os[..n] + [os[n]];
    HandleAllAppend(s, os[..n], [os[n]]);
    SuccessesCountDown(s, os[..n]);
  }

  /** The first failure ends the batch with that request's status, and no
      `onComplete` is invoked. */
  lemma FirstFailureWins(s: BatchState, os: seq<ApiOutcome>)
    requires !s.isDone && !s.earlyFailed && FirstFailure(os).Some? && s.remaining > FirstFailure(os).value
    ensures var i := FirstFailure(os).value; var r := HandleAll(s, os);
      r.isDone && r.earlyFailed && !r.transportSuccess
      && r.code == os[i].statusCode && r.errorMsg == os[i].errorCode && r.result == os[i].result
      && r.completions == s.completions
  {
    var i := FirstFailure(os).value;
    assert os == os[..i] + ([os[i]] + os[i + 1..]);
    HandleAllAppend(s, os[..i], [os[i]] + os[i + 1..]);
    SuccessesCountDown(s, os[..i]);
    var t := HandleAll(s, os[..i]);
    assert HandleAll(t, [os[i]] + os[i + 1..]) == HandleAll(HandleResult(t, os[i]), os[i + 1..]);
    DoneIgnoresResults(HandleResult(t, os[i]), os[i + 1..]);
  }

  /** The batch over `pre`, then each pending request reporting once with the
      outcomes `later`: it ends done; with every request successful, with the
      "all succeeded" fields and one `onComplete` call (when one was given);
      otherwise with the first failure's status and no call. */
  lemma BatchCompletesIffAllSucceed(pre: seq<Option<ApiOutcome>>, later: seq<ApiOutcome>, hasOnComplete: bool)
    requires |Finished(pre)| + |later| == |pre|
    ensures var all := Finished(pre) + later; var r := HandleAll(BatchStart(pre, hasOnComplete), later);
      && r.isDone
      && (AllSucceed(all) ==>
            !r.earlyFailed && r.AllSucceededResult() && r.completions == (if hasOnComplete then 1 else 0))
      && (!AllSucceed(all) ==>
            var i := FirstFailure(all).value;
            r.earlyFailed && r.code == all[i].statusCode && r.errorMsg == all[i].errorCode
            && r.result == all[i].result && r.completions == 0)
  {
    var s0 := InitialBatch(|pre|, hasOnComplete);
    var done := Finished(pre);
    var all := done + later;
    RegisterAllIsHandleAll(s0, pre);
    var s1 := HandleAll(s0, done);
    HandleAllAppend(s0, done, later);
    if |pre| == 0 {
      assert done == [] && later == [] && all == [];
    } else if AllSucceed(all) {
      LastSuccessCompletes(s0, all);
      if later == [] {
        assert all == done;
      } else {
        assert all[..|done|] == done;
        SuccessesCountDown(s0, done);
      }
    } else {
      FirstFailureWins(s0, all);
      var i := FirstFailure(all).value;
      if i < |done| {
        assert all[..i + 1] == done[..i + 1];
        assert FirstFailure(done) == Some(i) by {
          FirstFailureOfPrefix(all, done, i);
        }
        FirstFailureWins(s0, done);
        DoneIgnoresResults(s1, later);
      } else {
        assert AllSucceed(done) by {
          forall j | 0 <= j < |done| ensures done[j].requestSuccess {
            assert all[..i][j] == done[j];
          }
        }
        SuccessesCountDown(s0, done);
      }
    }
  }

  lemma {:induction false} FirstFailureOfPrefix(all: seq<ApiOutcome>, done: seq<ApiOutcome>, i: nat)
    requires FirstFailure(all) == Some(i) && i < |done| <= |all| && all[..|done|] == done
    ensures FirstFailure(done) == Some(i)
  {
    assert all[..|done|][0] == all[0];
    if i > 0 {
      assert all[1..][..|done| - 1] == done[1..];
      FirstFailureOfPrefix(all[1..], done[1..], i - 1);
    }
  }

  /** With the guarded constructor, `onComplete` runs at most once over the
      batch's whole life. */
  lemma {:induction false} HandleAllKeepsAtMostOnce(s: BatchState, os: seq<ApiOutcome>)
    requires s.completions <= (if s.isDone then 1 else 0)
    ensures HandleAll(s, os).completions <= 1
    decreases |os|
  {
    if os != [] {
      HandleAllKeepsAtMostOnce(HandleResult(s, os[0]), os[1..]);
    }
  }

  lemma {:induction false} RegisterAllKeepsAtMostOnce(s: BatchState, pre: seq<Option<ApiOutcome>>)
    requires s.completions <= (if s.isDone then 1 else 0)
    ensures var r := RegisterAll(s, pre); r.completions <= (if r.isDone then 1 else 0)
    decreases |pre|
  {
    if pre != [] {
      RegisterAllKeepsAtMostOnce(if pre[0].Some? then HandleResult(s, pre[0].value) else s, pre[1..]);
    }
  }

  lemma BatchCompletesAtMostOnce(pre: seq<Option<ApiOutcome>>, hasOnComplete: bool, later: seq<ApiOutcome>)
    ensures HandleAll(BatchStart(pre, hasOnComplete), later).completions <= 1
  {
    RegisterAllKeepsAtMostOnce(InitialBatch(|pre|, hasOnComplete), pre);
    HandleAllKeepsAtMostOnce(BatchStart(pre, hasOnComplete), later);
  }

  /** As written, a batch built over one request that has already completed
      successfully invokes `onComplete` twice: once from the last
      `HandleResult`, once from the constructor's own `CheckIfAllDone`. */
  lemma AlreadyCompletedBatchCompletesTwice(o: ApiOutcome)
    requires o.requestSuccess
    ensures BatchStartAsWritten([Some(o)], true).completions == 2
    ensures BatchStart([Some(o)], true).completions == 1
  {
    var s0 := InitialBatch(1, true);
    var s1 := HandleResult(s0, o);
    assert s1.isDone && s1.completions == 1;
    assert RegisterAll(s0, [Some(o)]) == RegisterAll(s1, []) == s1;
  }

  /** An empty batch is done, and `onComplete` invoked, in the constructor. */
  lemma EmptyBatchCompletesAtOnce(hasOnComplete: bool)
    ensures var s := BatchStartAsWritten([], hasOnComplete);
      s.isDone && s.AllSucceededResult() && s.completions == (if hasOnComplete then 1 else 0)
    ensures BatchStart([], hasOnComplete) == BatchStartAsWritten([], hasOnComplete)
  {
  }

  /** `WebRequestBatch`, with the constructor's final check skipped once the
      batch is already done (see `BatchStart`). */
  class WebRequestBatch {
    var state: BatchState

    constructor(pre: seq<Option<ApiOutcome>>, hasOnComplete: bool)
      ensures state == BatchStart(pre, hasOnComplete)
    {
      state := InitialBatch(|pre|, hasOnComplete);
      new;
      for i := 0 to |pre|
        invariant RegisterAll(state, pre[i..]) == RegisterAll(InitialBatch(|pre|, hasOnComplete), pre)
      {
        assert pre[i..][1..] == pre[i + 1..];
        if pre[i].Some? {
          HandleResultStep(pre[i].value);
        }
      }
      if !state.isDone {
        CheckIfAllDoneStep();
      }
    }

    /** The callback registered on a pending request, when it reports. */
    method HandleResultStep(o: ApiOutcome)
      modifies this
      ensures state == HandleResult(old(state), o)
    {
      if state.isDone { return; }
      if !o.requestSuccess {
        state := state.(earlyFailed := true, transportSuccess := false, code := o.statusCode,
                        errorMsg := o.errorCode, result := o.result, isDone := true);
        return;
      }
      state := state.(remaining := state.remaining - 1);
      CheckIfAllDoneStep();
    }

    method CheckIfAllDoneStep()
      modifies this
      ensures state == CheckIfAllDone(old(state))
    {
      if !state.earlyFailed && state.remaining <= 0 {
        state := state.(transportSuccess := true, code := 0, errorMsg := "", result := JNull, isDone := true);
        if state.hasOnComplete {
          state := state.(completions := state.completions + 1);
        }
      }
    }

    /** `keepWaiting`. */
    predicate KeepWaiting()
      reads this
    {
      !state.isDone
    }
  }
}
