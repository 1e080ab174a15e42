/**
 * The two GitHub lookups of process_issues.py that retry: `get_user_id` and
 * `get_open_issues`. Each is a `for attempt in range(3)` loop that sends one request per
 * iteration and, depending on what came back, returns, sleeps and retries, or retries at
 * once; a rate-limit wait uses up one of the three iterations like any other retry.
 *
 * The network and the clock are parameters: the outcome of the n-th request, with the clock
 * reading taken after it. `time.sleep` calls are recorded in the order they are made.
 */
module Fetch {
  import opened Wrappers
  import opened Text

  const MaxRetries: nat := 3

  const RetryDelay := 5

  /** The rate-limit headers of a response, when present (`X-RateLimit-Remaining`, `-Reset`). */
  datatype Headers = Headers(remaining: Option<int>, reset: Option<int>)

  /**
   * The outcome of one request: a response (status, headers, decoded JSON payload, and the
   * value of `time.time()` when it is read), or one of the exceptions `requests` raises.
   */
  datatype Attempt<T> =
    | Response(status: int, headers: Headers, payload: T, now: int)
    | ReadTimeout
    | ConnectionError
    | OtherRequestError(error: string)

  /** The outcome of the n-th request. */
  type Network<T> = nat -> Attempt<T>

  /** A key whose absence raises KeyError. */
  datatype Key = RateLimitReset | TitleKey | BodyKey | NumberKey | UserKey | CreatedAtKey | HtmlUrlKey {
    function Name(): string {
      match this
      case RateLimitReset => "X-RateLimit-Reset"
      case TitleKey => "title"
      case BodyKey => "body"
      case NumberKey => "number"
      case UserKey => "user"
      case CreatedAtKey => "created_at"
      case HtmlUrlKey => "html_url"
    }
  }

  /** Why a lookup raised: a KeyError, a request exception, or `get_open_issues` giving up. */
  datatype Failure =
    | MissingKey(key: Key)
    | RequestError(error: string)
    | FetchFailed
  {
    function Message(): string {
      match this
      case MissingKey(key) => key.Name()
      case RequestError(error) => error
      case FetchFailed => "Failed to fetch issues after 3 attempts"
    }
  }

  /** What one iteration decides: retry (after sleeping, or at once), or return. */
  datatype Step<R> = Again(sleep: Option<int>) | Done(result: R)

  /** What a whole lookup did: its result, how many requests it sent, and its sleeps in order. */
  datatype Trace<R> = Trace(result: R, requests: nat, sleeps: seq<int>)

  function SleepLog(sleep: Option<int>): seq<int> {
    match sleep
    case None => []
    case Some(d) => [d]
  }

  /**
   * The loop from iteration `attempt` on: one request per iteration, `exhausted` once the
   * three iterations are used up. It sends between one and the remaining number of
   * requests, and sleeps at most once per request.
   */
  function Attempts<T, R>(step: (nat, Attempt<T>) -> Step<R>, net: Network<T>, exhausted: R, attempt: nat): (t: Trace<R>)
    requires attempt <= MaxRetries
    ensures attempt < MaxRetries ==> 1 <= t.requests
    ensures t.requests <= MaxRetries - attempt && |t.sleeps| <= t.requests
    decreases MaxRetries - attempt
  {
    if attempt == MaxRetries then Trace(exhausted, 0, [])
    else match step(attempt, net(attempt))
      case Done(r) => Trace(r, 1, [])
      case Again(sleep) =>
        var rest := Attempts(step, net, exhausted, attempt + 1);
        Trace(rest.result, rest.requests + 1, SleepLog(sleep) + rest.sleeps)
  }

  /**
   * The loop invariant: after `attempt` iterations that all went on, having slept `sleeps`,
   * the rest of the loop completes the whole run.
   */
  ghost predicate Resumes<T, R>(step: (nat, Attempt<T>) -> Step<R>, net: Network<T>, exhausted: R, attempt: nat, sleeps: seq<int>)
    requires attempt <= MaxRetries
  {
    var rest := Attempts(step, net, exhausted, attempt);
    Attempts(step, net, exhausted, 0) == Trace(rest.result, attempt + rest.requests, sleeps + rest.sleeps)
  }

  /** An iteration that goes on keeps the invariant, with its sleep (if any) logged. */
  lemma ResumesAgain<T, R>(step: (nat, Attempt<T>) -> Step<R>, net: Network<T>, exhausted: R, attempt: nat, sleeps: seq<int>, pause: Option<int>)
    requires attempt < MaxRetries && Resumes(step, net, exhausted, attempt, sleeps)
    requires step(attempt, net(attempt)) == Again(pause)
    ensures Resumes(step, net, exhausted, attempt + 1, sleeps + SleepLog(pause))
  {
    var rest := Attempts(step, net, exhausted, attempt + 1);
    assert sleeps + SleepLog(pause) + rest.sleeps == sleeps + (SleepLog(pause) + rest.sleeps);
  }

  /** An iteration that returns ends the run with its value. */
  lemma ResumesDone<T, R>(step: (nat, Attempt<T>) -> Step<R>, net: Network<T>, exhausted: R, attempt: nat, sleeps: seq<int>, value: R)
    requires attempt < MaxRetries && Resumes(step, net, exhausted, attempt, sleeps)
    requires step(attempt, net(attempt)) == Done(value)
    ensures Attempts(step, net, exhausted, 0) == Trace(value, attempt + 1, sleeps)
  {
    assert sleeps + [] == sleeps;
  }

  /** Falling out of the loop ends the run with the fallback value. */
  lemma ResumesExhausted<T, R>(step: (nat, Attempt<T>) -> Step<R>, net: Network<T>, exhausted: R, sleeps: seq<int>)
    requires Resumes(step, net, exhausted, MaxRetries, sleeps)
    ensures Attempts(step, net, exhausted, 0) == Trace(exhausted, MaxRetries, sleeps)
  {
    assert sleeps + [] == sleeps;
  }

  function Max(a: int, b: int): int {
    if a >= b then a else b
  }

  // ---------------------------------------------------------------- get_user_id

  /**
   * What `get_user_id` does with one outcome. The payload is the `id` field of the decoded
   * body. A rate-limit response without a reset header raises KeyError, which nothing
   * catches; any request exception other than a read timeout or a connection error also
   * propagates.
   */
  function UserStep(attempt: nat, outcome: Attempt<Option<int>>): Step<Result<Option<int>, Failure>> {
    match outcome
    case Response(status, headers, id, now) =>
      if status == 200 then Done(Ok(id))
      else if status == 404 then Done(Ok(None))
      else if status == 403 && headers.remaining == Some(0) then
        match headers.reset
        case None => Done(Err(MissingKey(RateLimitReset)))
        case Some(reset) => Again(Some(Max(reset - now, 0)))
      else Again(None)
    case ReadTimeout => Again(None)
    case ConnectionError => Again(Some(RetryDelay))
    case OtherRequestError(e) => Done(Err(RequestError(e)))
  }

  /** `get_user_id`: the user's id, `None` when unknown or after three failed attempts. */
  method GetUserId(net: Network<Option<int>>)
    returns (result: Result<Option<int>, Failure>, requests: nat, sleeps: seq<int>)
    ensures Trace(result, requests, sleeps) == Attempts(UserStep, net, Ok(None), 0)
  {
    requests, sleeps := 0, [];
    for attempt := 0 to MaxRetries
      invariant requests == attempt
      invariant Resumes(UserStep, net, Ok(None), attempt, sleeps)
    {
      var outcome := net(attempt);
      requests := requests + 1;
      // the branches of one iteration: return `value`, or sleep for `pause` and go on
      var done := false;
      var value: Result<Option<int>, Failure> := Ok(None);
      var pause: Option<int> := None;
      match outcome {
        case Response(status, headers, id, now) =>
          if status == 200 {
            done, value := true, Ok(id);
          } else if status == 404 {
            done, value := true, Ok(None);
          } else if status == 403 && headers.remaining.Some? && headers.remaining.value == 0 {
            if headers.reset.None? {
              done, value := true, Err(MissingKey(RateLimitReset));
            } else {
              pause := Some(Max(headers.reset.value - now, 0));
            }
          }
        case ReadTimeout =>
        case ConnectionError =>
          pause := Some(RetryDelay);
        case OtherRequestError(e) =>
          done, value := true, Err(RequestError(e));
      }
      if done {
        assert UserStep(attempt, outcome) == Done(value);
        ResumesDone(UserStep, net, Ok(None), attempt, sleeps, value);
        return value, requests, sleeps;
      }
      assert UserStep(attempt, outcome) == Again(pause);
      ResumesAgain(UserStep, net, Ok(None), attempt, sleeps, pause);
      sleeps := sleeps + SleepLog(pause);
    }
    ResumesExhausted(UserStep, net, Ok(None), sleeps);
    return Ok(None), requests, sleeps;
  }

  // ---------------------------------------------------------------- get_open_issues

  /**
   * An open issue as the JSON list returned by the API gives it; any key may be missing. The
   * body is also `null` in the JSON (`Some(None)`) when the issue has no description.
   */
  datatype RawIssue = RawIssue(
    title: Option<string>,
    body: Option<Option<string>>,
    number: Option<int>,
    login: Option<string>,
    createdAt: Option<string>,
    htmlUrl: Option<string>)

  /**
   * The dictionary `get_open_issues` builds for one issue; the number is rendered with `str`,
   * and a `null` body is kept as `None`.
   */
  datatype Issue = Issue(title: string, body: Option<string>, number: string, login: string, createdAt: string, url: string)

  /** Every key the comprehension reads is present. */
  predicate Complete(raw: RawIssue) {
    raw.title.Some? && raw.body.Some? && raw.number.Some?
    && raw.login.Some? && raw.createdAt.Some? && raw.htmlUrl.Some?
  }

  /** The dictionary for one raw issue, or the first key (in the order they are read) that is missing. */
  function ConvertIssue(raw: RawIssue): (r: Result<Issue, Failure>)
    ensures r.Ok? <==> Complete(raw)
    ensures r.Ok? ==> r.value.title == raw.title.value && r.value.body == raw.body.value
                      && r.value.number == IntToString(raw.number.value)
                      && r.value.login == raw.login.value && r.value.createdAt == raw.createdAt.value
                      && r.value.url == raw.htmlUrl.value
  {
    if raw.title.None? then Err(MissingKey(TitleKey))
    else if raw.body.None? then Err(MissingKey(BodyKey))
    else if raw.number.None? then Err(MissingKey(NumberKey))
    else if raw.login.None? then Err(MissingKey(UserKey))
    else if raw.createdAt.None? then Err(MissingKey(CreatedAtKey))
    else if raw.htmlUrl.None? then Err(MissingKey(HtmlUrlKey))
    else Ok(Issue(raw.title.value, raw.body.value, IntToString(raw.number.value),
                  raw.login.value, raw.createdAt.value, raw.htmlUrl.value))
  }

  /**
   * The list comprehension over the decoded issues: every issue converted, in order, or the
   * KeyError of the first incomplete one.
   */
  function ConvertIssues(raws: seq<RawIssue>): (r: Result<seq<Issue>, Failure>)
    ensures r.Ok? <==> forall k :: 0 <= k < |raws| ==> Complete(raws[k])
    ensures r.Ok? ==> |r.value| == |raws|
    ensures r.Ok? ==> forall k :: 0 <= k < |raws| ==> Ok(r.value[k]) == ConvertIssue(raws[k])
  {
    if raws == [] then Ok([])
    else
      var first := ConvertIssue(raws[0]);
      var rest := ConvertIssues(raws[1..]);
      TailIndices(raws);
      if first.Err? then Err(first.error)
      else if rest.Err? then Err(rest.error)
      else Ok([first.value] + rest.value)
  }

  lemma TailIndices(raws: seq<RawIssue>)
    requires raws != []
    ensures forall k :: 1 <= k < |raws| ==> raws[1..][k - 1] == raws[k]
  {
  }

  /** A caught RequestException or KeyError: sleep and retry, except on the last attempt. */
  function IssuesFailure(attempt: nat): Step<Result<seq<Issue>, Failure>> {
    if attempt < MaxRetries - 1 then Again(Some(RetryDelay))
    else Done(Err(FetchFailed))
  }

  /**
   * What `get_open_issues` does with one outcome. Here a missing reset header or a missing
   * key in an issue is a KeyError the loop catches, like every request exception.
   */
  function IssuesStep(attempt: nat, outcome: Attempt<seq<RawIssue>>): Step<Result<seq<Issue>, Failure>> {
    match outcome
    case Response(status, headers, raws, now) =>
      if status == 200 then
        match ConvertIssues(raws)
        case Ok(issues) => Done(Ok(issues))
        case Err(_) => IssuesFailure(attempt)
      else if status == 404 then Done(Ok([]))
      else if status == 403 && headers.remaining == Some(0) then
        match headers.reset
        case None => IssuesFailure(attempt)
        case Some(reset) => if reset > now then Again(Some(reset - now)) else Again(None)
      else Again(None)
    case _ => IssuesFailure(attempt)
  }

  /** `get_open_issues`: the open issues labelled `deposit`. */
  method GetOpenIssues(net: Network<seq<RawIssue>>)
    returns (result: Result<seq<Issue>, Failure>, requests: nat, sleeps: seq<int>)
    ensures Trace(result, requests, sleeps) == Attempts(IssuesStep, net, Ok([]), 0)
  {
    requests, sleeps := 0, [];
    for attempt := 0 to MaxRetries
      invariant requests == attempt
      invariant Resumes(IssuesStep, net, Ok([]), attempt, sleeps)
    {
      var outcome := net(attempt);
      requests := requests + 1;
      var done, value, pause := IssuesAttempt(attempt, outcome);
      if done {
        ResumesDone(IssuesStep, net, Ok([]), attempt, sleeps, value);
        return value, requests, sleeps;
      }
      ResumesAgain(IssuesStep, net, Ok([]), attempt, sleeps, pause);
      sleeps := sleeps + SleepLog(pause);
    }
    ResumesExhausted(IssuesStep, net, Ok([]), sleeps);
    return Ok([]), requests, sleeps;
  }

  /**
   * One iteration of `get_open_issues`' loop: return `value`, or sleep for `pause` and go on.
   */
  method IssuesAttempt(attempt: nat, outcome: Attempt<seq<RawIssue>>)
    returns (done: bool, value: Result<seq<Issue>, Failure>, pause: Option<int>)
    ensures IssuesStep(attempt, outcome) == if done then Done(value) else Again(pause)
  {
    done, value, pause := false, Ok([]), None;
    var failed := false;
    if outcome.Response? {
      var status, headers, now := outcome.status, outcome.headers, outcome.now;
      if status == 200 {
        var converted := ConvertIssues(outcome.payload);
        if converted.Ok? {
          done, value := true, converted;
        } else {
          failed := true;
        }
      } else if status == 404 {
        done, value := true, Ok([]);
      } else if status == 403 && headers.remaining.Some? && headers.remaining.value == 0 {
        if headers.reset.None? {
          failed := true;
        } else if headers.reset.value > now {
          pause := Some(headers.reset.value - now);
        }
      }
    } else {
      failed := true;
    }
    if failed {
      // the `except (RequestException, KeyError)` clause
      if attempt < MaxRetries - 1 {
        pause := Some(RetryDelay);
      } else {
        done, value := true, Err(FetchFailed);
      }
    }
  }

  // ---------------------------------------------------------------- the loop, in general

  /** The loop returns what the first deciding iteration decides, after that many requests. */
  lemma {:induction false} FirstDoneDecides<T, R>(step: (nat, Attempt<T>) -> Step<R>, net: Network<T>, exhausted: R, from: nat, j: nat)
    requires from <= j < MaxRetries
    requires forall k :: from <= k < j ==> step(k, net(k)).Again?
    requires step(j, net(j)).Done?
    ensures Attempts(step, net, exhausted, from).result == step(j, net(j)).result
    ensures Attempts(step, net, exhausted, from).requests == j - from + 1
    decreases j - from
  {
    if from < j {
      FirstDoneDecides(step, net, exhausted, from + 1, j);
    }
  }

  /** When no iteration decides, the loop sends all its requests and falls through. */
  lemma {:induction false} NoneDecides<T, R>(step: (nat, Attempt<T>) -> Step<R>, net: Network<T>, exhausted: R, from: nat)
    requires from <= MaxRetries
    requires forall k :: from <= k < MaxRetries ==> step(k, net(k)).Again?
    ensures Attempts(step, net, exhausted, from).result == exhausted
    ensures Attempts(step, net, exhausted, from).requests == MaxRetries - from
    decreases MaxRetries - from
  {
    if from < MaxRetries {
      NoneDecides(step, net, exhausted, from + 1);
    }
  }

  // ---------------------------------------------------------------- scenarios

  /** A rate-limited lookup waits until the reset time, then the second request finds the user. */
  lemma UserRateLimitedThenFound(net: Network<Option<int>>, now: int, wait: nat, id: int)
    requires net(0).Response? && net(0).status == 403 && net(0).now == now
    requires net(0).headers == Headers(Some(0), Some(now + wait))
    requires net(1).Response? && net(1).status == 200 && net(1).payload == Some(id)
    ensures Attempts(UserStep, net, Ok(None), 0) == Trace(Ok(Some(id)), 2, [wait])
  {
  }

  /** Connection errors sleep five seconds each, including the last; three of them give `None`. */
  lemma UserConnectionErrors(net: Network<Option<int>>)
    requires net(0) == ConnectionError && net(1) == ConnectionError && net(2) == ConnectionError
    ensures Attempts(UserStep, net, Ok(None), 0) == Trace(Ok(None), 3, [RetryDelay, RetryDelay, RetryDelay])
  {
  }

  /** Read timeouts are retried without sleeping. */
  lemma UserTimeoutsThenFound(net: Network<Option<int>>, id: int)
    requires net(0) == ReadTimeout && net(1) == ReadTimeout
    requires net(2).Response? && net(2).status == 200 && net(2).payload == Some(id)
    ensures Attempts(UserStep, net, Ok(None), 0) == Trace(Ok(Some(id)), 3, [])
  {
  }

  /** An unknown user is reported after one request. */
  lemma UserNotFound(net: Network<Option<int>>)
    requires net(0).Response? && net(0).status == 404
    ensures Attempts(UserStep, net, Ok(None), 0) == Trace(Ok(None), 1, [])
  {
  }

  /** A pending rate limit on the issue list is waited out once, then the list is returned. */
  lemma IssuesRateLimitedThenListed(net: Network<seq<RawIssue>>, now: int, wait: nat, raws: seq<RawIssue>)
    requires wait > 0
    requires net(0).Response? && net(0).status == 403 && net(0).now == now
    requires net(0).headers == Headers(Some(0), Some(now + wait))
    requires net(1).Response? && net(1).status == 200 && net(1).payload == raws
    requires ConvertIssues(raws).Ok?
    ensures Attempts(IssuesStep, net, Ok([]), 0) == Trace(ConvertIssues(raws), 2, [wait])
  {
  }

  /** A rate limit whose reset time has passed is retried at once, without sleeping. */
  lemma IssuesExpiredRateLimit(net: Network<seq<RawIssue>>, now: int, reset: int, raws: seq<RawIssue>)
    requires reset <= now
    requires net(0).Response? && net(0).status == 403 && net(0).now == now
    requires net(0).headers == Headers(Some(0), Some(reset))
    requires net(1).Response? && net(1).status == 200 && net(1).payload == raws
    requires ConvertIssues(raws).Ok?
    ensures Attempts(IssuesStep, net, Ok([]), 0) == Trace(ConvertIssues(raws), 2, [])
  {
  }

  /** Three network errors: two sleeps, then RuntimeError on the third attempt. */
  lemma IssuesNetworkErrors(net: Network<seq<RawIssue>>)
    requires !net(0).Response? && !net(1).Response? && !net(2).Response?
    ensures Attempts(IssuesStep, net, Ok([]), 0)
         == Trace(Err(FetchFailed), 3, [RetryDelay, RetryDelay])
  {
  }

  /**
   * Three responses that decide nothing (a server error, or a 403 without an exhausted rate
   * limit) give an empty list.
   */
  lemma IssuesNothingDecisive(net: Network<seq<RawIssue>>)
    requires forall k :: 0 <= k < MaxRetries ==>
      net(k).Response? && net(k).status != 200 && net(k).status != 404 && net(k).headers.remaining != Some(0)
    ensures Attempts(IssuesStep, net, Ok([]), 0) == Trace(Ok([]), 3, [])
  {
    assert net(0).Response? && net(1).Response? && net(2).Response?;
  }
}
