/**
 * `process_open_issues` (process_issues.py): fetch the open deposit issues, then for each one
 * look up its author, turn away authors outside the safe list, validate the rest, answer
 * every issue on GitHub, and keep the data of the valid ones; finally deposit what was kept,
 * if anything. An exception anywhere but in `get_data_to_store` ends the run.
 *
 * Everything outside the script is a parameter (`Env`): the user lookups, the safe-list
 * file, the identifier check, the validator, the CSV reader, the GitHub API and the Zenodo
 * deposit.
 */
module Triage {
  import opened Wrappers
  import opened Messages
  import Title
  import Validation
  import Notify
  import Fetch
  import Intake

  datatype Env = Env(
    /** The responses to `get_user_id(login)` when it is the k-th lookup of the run. */
    lookups: (string, nat) -> Fetch.Network<Option<int>>,
    /** The content of `safe_list.txt`, if the file exists. */
    safeList: Option<string>,
    isValid: Title.IdCheck,
    closure: Validation.Closure,
    readCsv: Intake.CsvReader,
    github: Notify.Network,
    /** `deposit_on_zenodo`: the exception it raised, if any. */
    deposit: seq<Intake.Payload> -> Option<string>)

  /** What one issue contributes: the GitHub calls, the data kept, and the exception, if any. */
  datatype Handled = Handled(calls: seq<Notify.Call>, payload: Option<Intake.Payload>, failure: Option<string>)

  /** The body of the loop, for the k-th issue. */
  type Handler = (Fetch.Issue, nat) -> Handled

  /** The state of the loop: the GitHub calls made, the data kept, and the exception, if any. */
  datatype Progress = Progress(calls: seq<Notify.Call>, stored: seq<Intake.Payload>, failure: Option<string>)

  /** What a run did: the calls, the data kept, whether a deposit was made, and the exception. */
  datatype Report = Report(calls: seq<Notify.Call>, stored: seq<Intake.Payload>, deposited: bool, failure: Option<string>)

  // ---------------------------------------------------------------- one issue

  /** `get_user_id` for the author of the k-th issue. */
  function UserId(issue: Fetch.Issue, k: nat, env: Env): Result<Option<int>, Fetch.Failure> {
    Fetch.Attempts(Fetch.UserStep, env.lookups(issue.login, k), Ok(None), 0).result
  }

  /** `validate` on the issue: its verdict, or the TypeError a `null` body raises. */
  function Validated(issue: Fetch.Issue, env: Env): Result<Title.Verdict, string> {
    Validation.Outcome(issue.title, issue.body, env.isValid, env.closure)
  }

  /**
   * The data kept for an issue with verdict `v`: only a valid issue's, and only when
   * `get_data_to_store` succeeds (its exceptions are caught and the issue is skipped).
   */
  function Kept(issue: Fetch.Issue, uid: Option<int>, v: Title.Verdict, env: Env): Option<Intake.Payload> {
    if !v.valid then None
    else match issue.body
      case None => None
      case Some(body) =>
        match Intake.DataToStore(issue.title, body, issue.createdAt, issue.url, uid, env.readCsv)
        case Ok(p) => Some(p)
        case Err(_) => None
  }

  /** One iteration of the loop, for the k-th issue. */
  function HandleIssue(issue: Fetch.Issue, k: nat, env: Env): Handled {
    match UserId(issue, k, env)
    case Err(f) => Handled([], None, Some(f.Message()))
    case Ok(uid) =>
      if !Intake.InSafeList(uid, env.safeList) then
        var o := Notify.Issue(Notify.Plan(false, Untrusted, issue.number, false), env.github);
        Handled(o.issued, None, o.error)
      else Trusted(issue, uid, env)
  }

  /** The rest of the iteration, for an author in the safe list. */
  function Trusted(issue: Fetch.Issue, uid: Option<int>, env: Env): Handled {
    match Validated(issue, env)
    case Err(e) => Handled([], None, Some(e))
    case Ok(v) =>
      var o := Notify.Issue(Notify.Plan(v.valid, v.message, issue.number, true), env.github);
      if o.error.Some? then Handled(o.issued, None, o.error)
      else Handled(o.issued, Kept(issue, uid, v, env), None)
  }

  function Handle(env: Env): Handler {
    (issue: Fetch.Issue, k: nat) => HandleIssue(issue, k, env)
  }

  // ---------------------------------------------------------------- the loop

  function Append(stored: seq<Intake.Payload>, payload: Option<Intake.Payload>): seq<Intake.Payload> {
    match payload
    case None => stored
    case Some(p) => stored + [p]
  }

  /** The loop over the first `n` issues; an exception stops it. */
  function Triage(issues: seq<Fetch.Issue>, n: nat, handle: Handler): Progress
    requires n <= |issues|
  {
    if n == 0 then Progress([], [], None)
    else
      var p := Triage(issues, n - 1, handle);
      if p.failure.Some? then p
      else
        var h := handle(issues[n - 1], n - 1);
        if h.failure.Some? then Progress(p.calls + h.calls, p.stored, h.failure)
        else Progress(p.calls + h.calls, Append(p.stored, h.payload), None)
  }

  /** `process_open_issues`, with the responses to `get_open_issues` given by `issuesNet`. */
  function Process(issuesNet: Fetch.Network<seq<Fetch.RawIssue>>, env: Env): Report {
    match Fetch.Attempts(Fetch.IssuesStep, issuesNet, Ok([]), 0).result
    case Err(f) => Report([], [], false, Some(f.Message()))
    case Ok(issues) =>
      var p := Triage(issues, |issues|, Handle(env));
      if p.failure.Some? then Report(p.calls, p.stored, false, p.failure)
      else if p.stored == [] then Report(p.calls, [], false, None)
      else Report(p.calls, p.stored, true, env.deposit(p.stored))
  }

  // ---------------------------------------------------------------- reference definitions

  /** Every call the first `n` iterations make, in order, ignoring exceptions. */
  function CallsOf(issues: seq<Fetch.Issue>, n: nat, handle: Handler): seq<Notify.Call>
    requires n <= |issues|
  {
    if n == 0 then [] else CallsOf(issues, n - 1, handle) + handle(issues[n - 1], n - 1).calls
  }

  /** Every payload the first `n` iterations keep, in order, ignoring exceptions. */
  function KeptOf(issues: seq<Fetch.Issue>, n: nat, handle: Handler): seq<Intake.Payload>
    requires n <= |issues|
  {
    if n == 0 then [] else Append(KeptOf(issues, n - 1, handle), handle(issues[n - 1], n - 1).payload)
  }

  /** None of the first `n` iterations raises. */
  predicate Quiet(issues: seq<Fetch.Issue>, n: nat, handle: Handler)
    requires n <= |issues|
  {
    forall j :: 0 <= j < n ==> handle(issues[j], j).failure.None?
  }

  // ---------------------------------------------------------------- the loop's properties

  /** Once an exception is raised, the later issues change nothing. */
  lemma {:induction false} FailureSticks(issues: seq<Fetch.Issue>, k: nat, n: nat, handle: Handler)
    requires k <= n <= |issues|
    requires Triage(issues, k, handle).failure.Some?
    ensures Triage(issues, n, handle) == Triage(issues, k, handle)
    decreases n - k
  {
    if k < n {
      FailureSticks(issues, k, n - 1, handle);
    }
  }

  /**
   * Without exceptions, the loop makes every iteration's calls in order and keeps every
   * iteration's data in order.
   */
  lemma {:induction false} QuietTriage(issues: seq<Fetch.Issue>, n: nat, handle: Handler)
    requires n <= |issues|
    requires Quiet(issues, n, handle)
    ensures Triage(issues, n, handle) == Progress(CallsOf(issues, n, handle), KeptOf(issues, n, handle), None)
  {
    if n > 0 {
      QuietTriage(issues, n - 1, handle);
    }
  }

  /**
   * The first exception ends the loop: the calls up to and including the iteration that
   * raised are made, the data of the iterations before it is kept, and it is reported.
   */
  lemma StopsAtFirstFailure(issues: seq<Fetch.Issue>, j: nat, n: nat, handle: Handler)
    requires j < n <= |issues|
    requires Quiet(issues, j, handle) && handle(issues[j], j).failure.Some?
    ensures Triage(issues, n, handle) ==
      Progress(CallsOf(issues, j + 1, handle), KeptOf(issues, j, handle), handle(issues[j], j).failure)
  {
    QuietTriage(issues, j, handle);
    FailureSticks(issues, j + 1, n, handle);
  }

  /** The loop raises exactly when some iteration does. */
  lemma {:induction false} FailureIff(issues: seq<Fetch.Issue>, n: nat, handle: Handler)
    requires n <= |issues|
    ensures Triage(issues, n, handle).failure.None? <==> Quiet(issues, n, handle)
  {
    if n > 0 {
      FailureIff(issues, n - 1, handle);
      if Triage(issues, n - 1, handle).failure.Some? {
        assert !Quiet(issues, n - 1, handle);
      }
    }
  }

  /** The data kept is exactly what the iterations kept, one entry per keeping iteration. */
  lemma {:induction false} KeptOfMembers(issues: seq<Fetch.Issue>, n: nat, handle: Handler, p: Intake.Payload)
    requires n <= |issues|
    ensures p in KeptOf(issues, n, handle) <==> exists j :: 0 <= j < n && handle(issues[j], j).payload == Some(p)
    ensures |KeptOf(issues, n, handle)| <= n
  {
    if n > 0 {
      KeptOfMembers(issues, n - 1, handle, p);
      var h := handle(issues[n - 1], n - 1);
      if p in KeptOf(issues, n, handle) && p !in KeptOf(issues, n - 1, handle) {
        assert h.payload == Some(p);
      }
    }
  }

  // ---------------------------------------------------------------- one issue's properties

  /**
   * Once the author is known and GitHub answers every call: an author outside the safe list
   * is rejected with the trusted-user message; a trusted author's issue whose `validate`
   * raises gets no call and raises; otherwise it is labelled, commented with the verdict of
   * `validate` and closed. Its data is kept exactly when the author is trusted, the verdict
   * is positive and `get_data_to_store` succeeds on the body.
   */
  lemma AnsweredIssue(issue: Fetch.Issue, k: nat, env: Env, uid: Option<int>)
    requires UserId(issue, k, env) == Ok(uid)
    requires forall c :: env.github(c).Responded?
    ensures var h := HandleIssue(issue, k, env);
      var r := Validated(issue, env);
      var trusted := Intake.InSafeList(uid, env.safeList);
      && (!trusted ==> h == Handled(Notify.Plan(false, Untrusted, issue.number, false), None, None))
      && (trusted && r.Err? ==> h == Handled([], None, Some(r.error)))
      && (trusted && r.Ok? ==>
           h.failure.None? && h.calls == Notify.Plan(r.value.valid, r.value.message, issue.number, true))
      && (h.payload.Some? <==>
           && trusted && r.Ok? && r.value.valid && issue.body.Some?
           && Intake.DataToStore(issue.title, issue.body.value, issue.createdAt, issue.url, uid, env.readCsv).Ok?)
      && (h.payload.Some? ==> h.payload.value.provenance == Intake.Provenance(issue.createdAt, uid, issue.url))
  {
    var r := Validated(issue, env);
    if !Intake.InSafeList(uid, env.safeList) {
      var plan := Notify.Plan(false, Untrusted, issue.number, false);
      assert Notify.Issue(plan, env.github).issued == plan;
    } else if r.Ok? {
      var plan := Notify.Plan(r.value.valid, r.value.message, issue.number, true);
      assert Notify.Issue(plan, env.github).issued == plan;
      if r.value.valid && issue.body.Some? {
        Intake.DataToStoreOkIff(issue.title, issue.body.value, issue.createdAt, issue.url, uid, env.readCsv);
      }
    }
  }

  /**
   * A trusted author's issue with an accepted title and a `null` body raises the TypeError of
   * `validate` before any call is made for it.
   */
  lemma NullBodyRaises(issue: Fetch.Issue, k: nat, env: Env, uid: Option<int>)
    requires UserId(issue, k, env) == Ok(uid) && Intake.InSafeList(uid, env.safeList)
    requires issue.body.None? && Title.ValidateTitle(issue.title, env.isValid).valid
    ensures HandleIssue(issue, k, env) == Handled([], None, Some(Validation.NotIterable))
  {
    Validation.NullBodyRaisesIff(issue.title, env.isValid, env.closure);
  }

  /** A failed author lookup raises before any call is made. */
  lemma LookupFailureRaises(issue: Fetch.Issue, k: nat, env: Env)
    requires UserId(issue, k, env).Err?
    ensures HandleIssue(issue, k, env) == Handled([], None, Some(UserId(issue, k, env).error.Message()))
  {
  }

  /** The calls `answer` makes for the k-th issue when no call fails. */
  function PlanFor(issue: Fetch.Issue, k: nat, env: Env): seq<Notify.Call> {
    match UserId(issue, k, env)
    case Err(_) => []
    case Ok(uid) =>
      if !Intake.InSafeList(uid, env.safeList) then Notify.Plan(false, Untrusted, issue.number, false)
      else match Validated(issue, env)
        case Err(_) => []
        case Ok(v) => Notify.Plan(v.valid, v.message, issue.number, true)
  }

  /** The plans of the first `n` issues, in order. */
  function PlansOf(issues: seq<Fetch.Issue>, n: nat, env: Env): seq<Notify.Call>
    requires n <= |issues|
  {
    if n == 0 then [] else PlansOf(issues, n - 1, env) + PlanFor(issues[n - 1], n - 1, env)
  }

  /** When GitHub answers every call, each iteration makes exactly its issue's plan. */
  lemma {:induction false} CallsArePlans(issues: seq<Fetch.Issue>, n: nat, env: Env)
    requires n <= |issues|
    requires forall c :: env.github(c).Responded?
    ensures CallsOf(issues, n, Handle(env)) == PlansOf(issues, n, env)
  {
    if n > 0 {
      CallsArePlans(issues, n - 1, env);
      var issue := issues[n - 1];
      assert Handle(env)(issue, n - 1).calls == PlanFor(issue, n - 1, env) by {
        match UserId(issue, n - 1, env)
        case Err(_) =>
        case Ok(uid) => AnsweredIssue(issue, n - 1, env, uid);
      }
    }
  }

  // ---------------------------------------------------------------- a run's properties

  /**
   * A run in which nothing raises and GitHub answers every call labels, comments and closes
   * every listed issue, in order, exactly as its plan says.
   */
  lemma EveryIssueAnswered(issuesNet: Fetch.Network<seq<Fetch.RawIssue>>, env: Env, issues: seq<Fetch.Issue>)
    requires Fetch.Attempts(Fetch.IssuesStep, issuesNet, Ok([]), 0).result == Ok(issues)
    requires Quiet(issues, |issues|, Handle(env))
    requires forall c :: env.github(c).Responded?
    ensures Process(issuesNet, env).calls == PlansOf(issues, |issues|, env)
  {
    ProcessCalls(issuesNet, env);
    QuietTriage(issues, |issues|, Handle(env));
    CallsArePlans(issues, |issues|, env);
  }

  /** A run that lists the issues makes the calls of its loop, whether or not it raises. */
  lemma ProcessCalls(issuesNet: Fetch.Network<seq<Fetch.RawIssue>>, env: Env)
    ensures var listed := Fetch.Attempts(Fetch.IssuesStep, issuesNet, Ok([]), 0).result;
      listed.Ok? ==> Process(issuesNet, env).calls == Triage(listed.value, |listed.value|, Handle(env)).calls
  {
  }

  /**
   * An issue with a `null` body from a trusted author, with an accepted title, aborts the
   * run: the calls for the issues before it stand, nothing is deposited, and the TypeError
   * is raised.
   */
  lemma NullBodyAbortsRun(issuesNet: Fetch.Network<seq<Fetch.RawIssue>>, env: Env,
                          issues: seq<Fetch.Issue>, j: nat, uid: Option<int>)
    requires Fetch.Attempts(Fetch.IssuesStep, issuesNet, Ok([]), 0).result == Ok(issues)
    requires j < |issues| && Quiet(issues, j, Handle(env))
    requires UserId(issues[j], j, env) == Ok(uid) && Intake.InSafeList(uid, env.safeList)
    requires issues[j].body.None? && Title.ValidateTitle(issues[j].title, env.isValid).valid
    ensures Process(issuesNet, env) ==
      Report(CallsOf(issues, j, Handle(env)), KeptOf(issues, j, Handle(env)), false, Some(Validation.NotIterable))
  {
    NullBodyRaises(issues[j], j, env, uid);
    assert Handle(env)(issues[j], j) == Handled([], None, Some(Validation.NotIterable));
    StopsAtFirstFailure(issues, j, |issues|, Handle(env));
    assert CallsOf(issues, j + 1, Handle(env)) == CallsOf(issues, j, Handle(env)) + [];
  }

  /**
   * A run deposits exactly when the issues were listed, no iteration raised and some data
   * was kept; what it deposits is then every iteration's data, in order.
   */
  lemma DepositedIff(issuesNet: Fetch.Network<seq<Fetch.RawIssue>>, env: Env)
    ensures var r := Process(issuesNet, env);
      var listed := Fetch.Attempts(Fetch.IssuesStep, issuesNet, Ok([]), 0).result;
      && (r.deposited <==>
           && listed.Ok?
           && Quiet(listed.value, |listed.value|, Handle(env))
           && KeptOf(listed.value, |listed.value|, Handle(env)) != [])
      && (r.deposited ==> r.stored == KeptOf(listed.value, |listed.value|, Handle(env)))
      && (r.deposited ==> r.failure == env.deposit(r.stored))
  {
    var listed := Fetch.Attempts(Fetch.IssuesStep, issuesNet, Ok([]), 0).result;
    if listed.Ok? {
      var issues := listed.value;
      FailureIff(issues, |issues|, Handle(env));
      if Quiet(issues, |issues|, Handle(env)) {
        QuietTriage(issues, |issues|, Handle(env));
      }
    }
  }

  /** When `get_open_issues` fails, its exception ends the run before anything else happens. */
  lemma ListingFailureRaises(issuesNet: Fetch.Network<seq<Fetch.RawIssue>>, env: Env)
    requires Fetch.Attempts(Fetch.IssuesStep, issuesNet, Ok([]), 0).result.Err?
    ensures var f := Fetch.Attempts(Fetch.IssuesStep, issuesNet, Ok([]), 0).result.error;
      Process(issuesNet, env) == Report([], [], false, Some(f.Message()))
  {
  }

  /** No issues: nothing is answered and nothing deposited. */
  lemma NoIssuesNoDeposit(issuesNet: Fetch.Network<seq<Fetch.RawIssue>>, env: Env)
    requires Fetch.Attempts(Fetch.IssuesStep, issuesNet, Ok([]), 0).result == Ok([])
    ensures Process(issuesNet, env) == Report([], [], false, None)
  {
  }

  /** A run over a single listed issue: its iteration, then the deposit of what it kept. */
  lemma OneIssueRun(issuesNet: Fetch.Network<seq<Fetch.RawIssue>>, env: Env, issue: Fetch.Issue)
    requires Fetch.Attempts(Fetch.IssuesStep, issuesNet, Ok([]), 0).result == Ok([issue])
    ensures var h := HandleIssue(issue, 0, env);
      Process(issuesNet, env) ==
        if h.failure.Some? then Report(h.calls, [], false, h.failure)
        else if h.payload.None? then Report(h.calls, [], false, None)
        else Report(h.calls, [h.payload.value], true, env.deposit([h.payload.value]))
  {
    var h := HandleIssue(issue, 0, env);
    assert Handle(env)(issue, 0) == h;
    assert Triage([issue], 0, Handle(env)) == Progress([], [], None);
    assert Triage([issue], 1, Handle(env)) ==
      if h.failure.Some? then Progress([] + h.calls, [], h.failure)
      else Progress([] + h.calls, Append([], h.payload), None);
    assert [] + h.calls == h.calls;
  }

  /**
   * A trusted author's valid issue, alone in the listing, is thanked and labelled "to be
   * processed", and its data, attributed to the author's id, is deposited.
   */
  lemma TrustedValidIssueDeposited(issuesNet: Fetch.Network<seq<Fetch.RawIssue>>, env: Env,
                                   issue: Fetch.Issue, body: string, id: int, p: Intake.Payload)
    requires Fetch.Attempts(Fetch.IssuesStep, issuesNet, Ok([]), 0).result == Ok([issue])
    requires UserId(issue, 0, env) == Ok(Some(id)) && Intake.InSafeList(Some(id), env.safeList)
    requires issue.body == Some(body)
    requires Validation.ValidationVerdict(issue.title, body, env.isValid, env.closure).valid
    requires Intake.DataToStore(issue.title, body, issue.createdAt, issue.url, Some(id), env.readCsv) == Ok(p)
    requires forall c :: env.github(c).Responded?
    ensures var r := Process(issuesNet, env);
      && r.calls == Notify.Plan(true, ThankYou, issue.number, true)
      && r.calls[0] == Notify.AddLabel(issue.number, Notify.ToBeProcessed)
      && r.deposited && r.stored == [p]
      && p.data.title == issue.title && p.provenance.wasAttributedTo == Some(id)
  {
    OneIssueRun(issuesNet, env, issue);
    TrustedValidIssueKept(issue, 0, env, body, id, p);
  }

  /** The iteration of `TrustedValidIssueDeposited`: thanked, and its data kept. */
  lemma TrustedValidIssueKept(issue: Fetch.Issue, k: nat, env: Env, body: string, id: int, p: Intake.Payload)
    requires UserId(issue, k, env) == Ok(Some(id)) && Intake.InSafeList(Some(id), env.safeList)
    requires issue.body == Some(body)
    requires Validation.ValidationVerdict(issue.title, body, env.isValid, env.closure).valid
    requires Intake.DataToStore(issue.title, body, issue.createdAt, issue.url, Some(id), env.readCsv) == Ok(p)
    requires forall c :: env.github(c).Responded?
    ensures HandleIssue(issue, k, env) == Handled(Notify.Plan(true, ThankYou, issue.number, true), Some(p), None)
    ensures p.data.title == issue.title && p.provenance.wasAttributedTo == Some(id)
  {
    ThankedVerdict(issue, env, body);
    var plan := Notify.Plan(true, ThankYou, issue.number, true);
    assert Notify.Issue(plan, env.github).issued == plan;
    Intake.DataToStoreOkIff(issue.title, body, issue.createdAt, issue.url, Some(id), env.readCsv);
  }

  /** A body with text and a positive verdict: `validate` returns the thank-you verdict. */
  lemma ThankedVerdict(issue: Fetch.Issue, env: Env, body: string)
    requires issue.body == Some(body)
    requires Validation.ValidationVerdict(issue.title, body, env.isValid, env.closure).valid
    ensures Validated(issue, env) == Ok(Title.Verdict(true, ThankYou))
  {
    Validation.OutcomeOfText(issue.title, body, env.isValid, env.closure);
    Validation.ThankYouIffValid(issue.title, body, env.isValid, env.closure);
  }

  /**
   * An issue whose author is not in the safe list is rejected with the trusted-user message,
   * whatever it holds, and nothing is deposited.
   */
  lemma UntrustedIssueRejected(issuesNet: Fetch.Network<seq<Fetch.RawIssue>>, env: Env,
                               issue: Fetch.Issue, uid: Option<int>)
    requires Fetch.Attempts(Fetch.IssuesStep, issuesNet, Ok([]), 0).result == Ok([issue])
    requires UserId(issue, 0, env) == Ok(uid) && !Intake.InSafeList(uid, env.safeList)
    requires forall c :: env.github(c).Responded?
    ensures Process(issuesNet, env) == Report(Notify.Plan(false, Untrusted, issue.number, false), [], false, None)
    ensures Notify.Plan(false, Untrusted, issue.number, false)[0] == Notify.AddLabel(issue.number, Notify.Rejected)
  {
    OneIssueRun(issuesNet, env, issue);
    AnsweredIssue(issue, 0, env, uid);
  }

  /**
   * A trusted author's issue with an accepted title and no separator in its body is marked
   * invalid with the separator message, and nothing is deposited.
   */
  lemma MissingSeparatorIssueInvalid(issuesNet: Fetch.Network<seq<Fetch.RawIssue>>, env: Env,
                                     issue: Fetch.Issue, body: string, uid: Option<int>)
    requires Fetch.Attempts(Fetch.IssuesStep, issuesNet, Ok([]), 0).result == Ok([issue])
    requires UserId(issue, 0, env) == Ok(uid) && Intake.InSafeList(uid, env.safeList)
    requires Title.ValidateTitle(issue.title, env.isValid).valid
    requires issue.body == Some(body) && !Text.Contains(body, Validation.Separator)
    requires forall c :: env.github(c).Responded?
    ensures Process(issuesNet, env) == Report(Notify.Plan(false, MissingSeparator, issue.number, true), [], false, None)
    ensures Notify.Plan(false, MissingSeparator, issue.number, true)[0] == Notify.AddLabel(issue.number, Notify.Invalid)
  {
    OneIssueRun(issuesNet, env, issue);
    Validation.OutcomeOfText(issue.title, body, env.isValid, env.closure);
    AnsweredIssue(issue, 0, env, uid);
    Validation.MissingSeparatorReported(issue.title, body, env.isValid, env.closure);
  }

  /**
   * A body with a second separator, from a trusted author, can be accepted and thanked, yet
   * its data is not kept: `get_data_to_store` cannot unpack three sections into two.
   */
  lemma SecondSeparatorThankedNotKept(issue: Fetch.Issue, k: nat, env: Env, uid: Option<int>,
                                      meta: string, cits: string, rest: string)
    requires issue.body == Some(meta + Validation.Separator + cits + Validation.Separator + rest)
    requires Text.Avoids(meta, '=') && Text.Avoids(cits, '=')
    requires UserId(issue, k, env) == Ok(uid) && Intake.InSafeList(uid, env.safeList)
    requires Validation.ValidationVerdict(issue.title, issue.body.value, env.isValid, env.closure).valid
    requires forall c :: env.github(c).Responded?
    ensures HandleIssue(issue, k, env) == Handled(Notify.Plan(true, ThankYou, issue.number, true), None, None)
  {
    Validation.OutcomeOfText(issue.title, issue.body.value, env.isValid, env.closure);
    AnsweredIssue(issue, k, env, uid);
    Validation.ThankYouIffValid(issue.title, issue.body.value, env.isValid, env.closure);
    Intake.TwoSeparatorsNotStored(issue.title, meta, cits, rest, issue.createdAt, issue.url, uid, env.readCsv);
  }

  // ---------------------------------------------------------------- the loop, as written

  /** One iteration of the loop, calling the modelled operations in the source's order. */
  method HandleOne(issue: Fetch.Issue, k: nat, env: Env) returns (h: Handled)
    ensures h == HandleIssue(issue, k, env)
  {
    var user, _, _ := Fetch.GetUserId(env.lookups(issue.login, k));
    if user.Err? {
      return Handled([], None, Some(user.error.Message()));
    }
    var uid := user.value;
    if !Intake.InSafeList(uid, env.safeList) {
      var o := Notify.Answer(false, Untrusted, issue.number, false, env.github);
      return Handled(o.issued, None, o.error);
    }
    h := HandleTrusted(issue, uid, env);
  }

  /** The rest of the iteration, for an author in the safe list. */
  method HandleTrusted(issue: Fetch.Issue, uid: Option<int>, env: Env) returns (h: Handled)
    ensures h == Trusted(issue, uid, env)
  {
    var outcome := Validation.Validate(issue.title, issue.body, env.isValid, env.closure);
    if outcome.Err? {
      return Handled([], None, Some(outcome.error));
    }
    var verdict := outcome.value;
    var o := Notify.Answer(verdict.valid, verdict.message, issue.number, true, env.github);
    if o.error.Some? {
      return Handled(o.issued, None, o.error);
    }
    if !verdict.valid {
      return Handled(o.issued, None, None);
    }
    var data := Intake.DataToStore(issue.title, issue.body.value, issue.createdAt, issue.url, uid, env.readCsv);
    if data.Err? {
      return Handled(o.issued, None, None);
    }
    return Handled(o.issued, Some(data.value), None);
  }

  /** `process_open_issues`: the loop over the listed issues, then the deposit. */
  method ProcessOpenIssues(issuesNet: Fetch.Network<seq<Fetch.RawIssue>>, env: Env) returns (report: Report)
    ensures report == Process(issuesNet, env)
  {
    var listed, _, _ := Fetch.GetOpenIssues(issuesNet);
    if listed.Err? {
      return Report([], [], false, Some(listed.error.Message()));
    }
    var issues := listed.value;
    var calls: seq<Notify.Call> := [];
    var stored: seq<Intake.Payload> := [];
    for k := 0 to |issues|
      invariant Triage(issues, k, Handle(env)) == Progress(calls, stored, None)
    {
      var h := HandleOne(issues[k], k, env);
      assert h == Handle(env)(issues[k], k);
      calls := calls + h.calls;
      if h.failure.Some? {
        FailureSticks(issues, k + 1, |issues|, Handle(env));
        return Report(calls, stored, false, h.failure);
      }
      stored := Append(stored, h.payload);
    }
    if stored == [] {
      return Report(calls, [], false, None);
    }
    var raised := env.deposit(stored);
    return Report(calls, stored, true, raised);
  }
}
