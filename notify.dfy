/**
 * `answer` (process_issues.py): label the issue, comment on it and close it, through three
 * GitHub REST calls issued in that order. A request exception at any call stops the calls
 * after it and propagates; the HTTP status of a response is never looked at.
 *
 * The network is a parameter: what each call comes back with.
 */
module Notify {
  import opened Wrappers
  import opened Messages

  /** The three labels the bot puts on an issue. */
  datatype Label = ToBeProcessed | Invalid | Rejected {
    function Name(): string {
      match this
      case ToBeProcessed => "to be processed"
      case Invalid => "invalid"
      case Rejected => "rejected"
    }
  }

  /** An unauthorised author is rejected whatever the verdict; otherwise the verdict decides. */
  function ChooseLabel(isValid: bool, isAuthorized: bool): (l: Label)
    ensures l == Rejected <==> !isAuthorized
    ensures l == Invalid <==> isAuthorized && !isValid
    ensures l == ToBeProcessed <==> isAuthorized && isValid
  {
    if !isAuthorized then Rejected
    else if !isValid then Invalid
    else ToBeProcessed
  }

  /**
   * A request to the GitHub issues API, for the issue with the given number; a comment's
   * body is `comment.Text()`.
   */
  datatype Call =
    | AddLabel(issue: string, chosen: Label)
    | AddComment(issue: string, comment: Message)
    | CloseIssue(issue: string)

  /** A response with some status code, or a `requests.RequestException`. */
  datatype CallResult = Responded(status: int) | RequestFailed(error: string)

  type Network = Call -> CallResult

  /** The calls issued, and the exception that stopped them, if any. */
  datatype Outcome = Outcome(issued: seq<Call>, error: Option<string>)

  /** Issue `calls` in order, stopping at the first one that raises. */
  function Issue(calls: seq<Call>, net: Network): (o: Outcome)
    ensures o.issued <= calls
    ensures calls != [] ==> o.issued != []
    ensures forall k :: 0 <= k < |o.issued| - 1 ==> net(o.issued[k]).Responded?
    ensures o.error.None? <==> o.issued == calls && (calls == [] || net(calls[|calls| - 1]).Responded?)
    ensures o.error.Some? ==> net(o.issued[|o.issued| - 1]) == RequestFailed(o.error.value)
  {
    if calls == [] then Outcome([], None)
    else match net(calls[0])
      case RequestFailed(e) => Outcome([calls[0]], Some(e))
      case Responded(_) =>
        var rest := Issue(calls[1..], net);
        Outcome([calls[0]] + rest.issued, rest.error)
  }

  /** Label, then comment, then close. */
  function Plan(isValid: bool, message: Message, issue: string, isAuthorized: bool): seq<Call> {
    [AddLabel(issue, ChooseLabel(isValid, isAuthorized)), AddComment(issue, message), CloseIssue(issue)]
  }

  /** `answer`: three calls in sequence, each one issued only if the one before returned. */
  method Answer(isValid: bool, message: Message, issue: string, isAuthorized: bool, net: Network)
    returns (o: Outcome)
    ensures o == Issue(Plan(isValid, message, issue, isAuthorized), net)
  {
    var plan := Plan(isValid, message, issue, isAuthorized);
    assert plan[1..][1..] == [CloseIssue(issue)] && plan[1..][1..][1..] == [];
    var chosen := ChooseLabel(isValid, isAuthorized);
    var issued: seq<Call> := [];

    var call := AddLabel(issue, chosen);
    issued := issued + [call];
    var result := net(call);
    if result.RequestFailed? {
      return Outcome(issued, Some(result.error));
    }

    call := AddComment(issue, message);
    issued := issued + [call];
    result := net(call);
    if result.RequestFailed? {
      return Outcome(issued, Some(result.error));
    }

    call := CloseIssue(issue);
    issued := issued + [call];
    result := net(call);
    if result.RequestFailed? {
      return Outcome(issued, Some(result.error));
    }
    return Outcome(issued, None);
  }

  // ---------------------------------------------------------------- properties

  /**
   * The label call always goes out first; the comment only if labelling returned; closing
   * only if commenting returned; and `answer` completes exactly when all three returned.
   */
  lemma {:induction false} AnswerSequence(isValid: bool, message: Message, issue: string, isAuthorized: bool, net: Network)
    ensures var o := Issue(Plan(isValid, message, issue, isAuthorized), net);
      var labelCall := AddLabel(issue, ChooseLabel(isValid, isAuthorized));
      && o.issued[0] == labelCall
      && |o.issued| == (if net(labelCall).RequestFailed? then 1
                        else if net(AddComment(issue, message)).RequestFailed? then 2
                        else 3)
      && (o.error.None? <==>
           net(labelCall).Responded? && net(AddComment(issue, message)).Responded?
           && net(CloseIssue(issue)).Responded?)
  {
    var plan := Plan(isValid, message, issue, isAuthorized);
    assert plan[1..] == [AddComment(issue, message), CloseIssue(issue)];
    assert plan[1..][1..] == [CloseIssue(issue)];
    assert plan[1..][1..][1..] == [];
  }

  /** Status codes never matter: networks that raise on the same calls give the same outcome. */
  lemma {:induction false} StatusIgnored(calls: seq<Call>, net1: Network, net2: Network)
    requires forall c :: net1(c).RequestFailed? <==> net2(c).RequestFailed?
    requires forall c :: net1(c).RequestFailed? ==> net1(c) == net2(c)
    ensures Issue(calls, net1) == Issue(calls, net2)
  {
    if calls != [] {
      StatusIgnored(calls[1..], net1, net2);
    }
  }
}
