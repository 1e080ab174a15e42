/**
 * `validate` (process_issues.py): the title check first, then the separator between the
 * metadata and citations sections, then the validator's two summaries composed into one
 * message.
 *
 * The validator (`ClosureValidator` writing summary files) is outside the model: it is a
 * parameter mapping the two stripped sections to what was found in the summary files, or to
 * the exception it raised.
 */
module Validation {
  import opened Wrappers
  import opened Text
  import opened Title
  import opened Messages

  const Separator := "===###===@@@==="

  /**
   * One run of the validator: the exception it raised, or the contents of the metadata and
   * citations summary files (`None` when the file was not written).
   */
  datatype ClosureRun =
    | Raised(error: string)
    | Completed(metaSummary: Option<string>, citsSummary: Option<string>)

  type Closure = (string, string) -> ClosureRun

  /** A summary file's content after `strip()`; a missing file contributes nothing. */
  function Content(summary: Option<string>): string {
    match summary
    case None => ""
    case Some(t) => Strip(t)
  }

  /**
   * The two stripped sections given to the validator: the text before the first separator
   * and the text between the first separator and the next one (or the end).
   */
  function Sections(body: string): (r: (string, string))
    requires Contains(body, Separator)
    ensures r.0 == Strip(body[..IndexFrom(body, Separator, 0).value])
    ensures var rest := body[IndexFrom(body, Separator, 0).value + |Separator|..];
      r.1 == Strip(if Contains(rest, Separator) then rest[..IndexFrom(rest, Separator, 0).value] else rest)
  {
    var parts := Split(body, Separator);
    var rest := body[IndexFrom(body, Separator, 0).value + |Separator|..];
    assert parts == [parts[0]] + Split(rest, Separator);
    (Strip(parts[0]), Strip(parts[1]))
  }

  /** The verdict once the validator has run on the two sections. */
  function RunVerdict(run: ClosureRun): Verdict {
    match run
    case Raised(e) => Verdict(false, ValidatorRaised(e))
    case Completed(m, c) =>
      var meta := Content(m);
      var cits := Content(c);
      if meta == [] && cits == [] then Verdict(true, ThankYou) else Verdict(false, Findings(meta, cits))
  }

  /** The verdict on the body, once the title has been accepted. */
  function BodyVerdict(body: string, closure: Closure): Verdict {
    if !Contains(body, Separator) then Verdict(false, MissingSeparator)
    else
      var (meta, cits) := Sections(body);
      RunVerdict(closure(meta, cits))
  }

  /** What `validate` returns for the title, the body, the identifier check and the validator. */
  function ValidationVerdict(title: string, body: string, isValid: IdCheck, closure: Closure): Verdict {
    AfterTitle(ValidateTitle(title, isValid), body, closure)
  }

  /** The TypeError `"===###===@@@===" not in None` raises, as CPython 3.13 words it. */
  const NotIterable := "argument of type 'NoneType' is not iterable"

  /**
   * `validate` on the body as the API gives it. A `None` body (a JSON `null`) gets past the
   * title check, then the separator test raises a TypeError that nothing in `validate`
   * catches: the test comes before the `try`.
   */
  function Outcome(title: string, body: Option<string>, isValid: IdCheck, closure: Closure): Result<Verdict, string> {
    var t := ValidateTitle(title, isValid);
    if !t.valid then Ok(t)
    else match body
      case None => Err(NotIterable)
      case Some(b) => Ok(BodyVerdict(b, closure))
  }

  /** The title's verdict `t` stands unless it is positive; then the body decides. */
  function AfterTitle(t: Verdict, body: string, closure: Closure): Verdict {
    if !t.valid then t else BodyVerdict(body, closure)
  }

  /** The `error_messages` list of `validate`, built by appends. */
  method ErrorList(meta: string, cits: string) returns (errors: seq<string>)
    ensures errors == ErrorLines(meta, cits)
  {
    errors := [];
    if meta != [] {
      errors := errors + [MetaHeader];
      errors := errors + [meta];
    }
    assert errors == if meta != [] then [MetaHeader, meta] else [];
    if cits != [] {
      if errors != [] {
        errors := errors + [""];
      }
      errors := errors + [CitsHeader];
      errors := errors + [cits];
    }
    assert errors == ErrorLines(meta, cits) by {
      var m: seq<string> := if meta != [] then [MetaHeader, meta] else [];
      var blank: seq<string> := if meta != [] && cits != [] then [""] else [];
      var c: seq<string> := if cits != [] then [CitsHeader, cits] else [];
      assert errors == m + blank + c;
    }
  }

  /** `validate`: the title first, then the body; `Err` is the TypeError a `None` body raises. */
  method Validate(title: string, body: Option<string>, isValid: IdCheck, closure: Closure)
    returns (r: Result<Verdict, string>)
    ensures r == Outcome(title, body, isValid, closure)
  {
    var titleValid := ValidateTitle(title, isValid);
    if !titleValid.valid {
      return Ok(titleValid);
    }
    if body.None? {
      return Err(NotIterable);
    }
    var valid, message := CheckBody(body.value, closure);
    return Ok(Verdict(valid, message));
  }

  /**
   * The body part of `validate`, composing `error_messages` by appends as the source does;
   * the message reported for a non-empty list is the one whose text is the list joined by
   * line feeds.
   */
  method CheckBody(body: string, closure: Closure) returns (valid: bool, message: Message)
    ensures Verdict(valid, message) == BodyVerdict(body, closure)
  {
    if !Contains(body, Separator) {
      return false, MissingSeparator;
    }
    var (metaCsv, citsCsv) := Sections(body);
    var run := closure(metaCsv, citsCsv);
    if run.Raised? {
      return false, ValidatorRaised(run.error);
    }
    var meta, cits := Content(run.metaSummary), Content(run.citsSummary);
    var errors := ErrorList(meta, cits);
    if errors != [] {
      return false, Findings(meta, cits);
    }
    return true, ThankYou;
  }

  // ---------------------------------------------------------------- properties

  /** On a body with text, `validate` returns the verdict of `ValidationVerdict`. */
  lemma OutcomeOfText(title: string, body: string, isValid: IdCheck, closure: Closure)
    ensures Outcome(title, Some(body), isValid, closure) == Ok(ValidationVerdict(title, body, isValid, closure))
  {
  }

  /**
   * A `None` body raises exactly when the title is accepted; a rejected title is reported
   * unchanged before the body is looked at.
   */
  lemma NullBodyRaisesIff(title: string, isValid: IdCheck, closure: Closure)
    ensures Outcome(title, None, isValid, closure).Err? <==> ValidateTitle(title, isValid).valid
    ensures Outcome(title, None, isValid, closure).Err? ==> Outcome(title, None, isValid, closure).error == NotIterable
    ensures !ValidateTitle(title, isValid).valid ==> Outcome(title, None, isValid, closure) == Ok(ValidateTitle(title, isValid))
  {
  }

  /** A failing title is reported unchanged, whatever the body and the validator. */
  lemma TitleFailureFirst(title: string, body: string, isValid: IdCheck, closure: Closure)
    requires !ValidateTitle(title, isValid).valid
    ensures ValidationVerdict(title, body, isValid, closure) == ValidateTitle(title, isValid)
  {
  }

  // What `validate` reports once the title has been checked, for any verdict the title check
  // can give (a title message, blank when the title is accepted).

  lemma AfterTitleWellFormed(t: Verdict, body: string, closure: Closure)
    requires t.message.AboutTitle()
    ensures AfterTitle(t, body, closure).message.WellFormed()
  {
    if t.valid && Contains(body, Separator) {
      var run := closure(Sections(body).0, Sections(body).1);
      assert AfterTitle(t, body, closure) == RunVerdict(run);
    }
  }

  lemma AfterTitleThankYou(t: Verdict, body: string, closure: Closure)
    requires t.message.AboutTitle()
    ensures var r := AfterTitle(t, body, closure);
      r.valid <==> r.message == ThankYou
  {
    if t.valid && Contains(body, Separator) {
      var run := closure(Sections(body).0, Sections(body).1);
      assert AfterTitle(t, body, closure) == RunVerdict(run);
    }
  }

  lemma AfterTitleSeparator(t: Verdict, body: string, closure: Closure)
    requires t.valid
    ensures AfterTitle(t, body, closure) == Verdict(false, MissingSeparator) <==> !Contains(body, Separator)
  {
    if Contains(body, Separator) {
      var run := closure(Sections(body).0, Sections(body).1);
      assert AfterTitle(t, body, closure) == RunVerdict(run);
    }
  }

  lemma AfterTitleAccepted(t: Verdict, body: string, closure: Closure)
    ensures AfterTitle(t, body, closure).valid <==>
      && t.valid
      && Contains(body, Separator)
      && var run := closure(Sections(body).0, Sections(body).1);
         run.Completed? && Content(run.metaSummary) == [] && Content(run.citsSummary) == []
  {
    if t.valid && Contains(body, Separator) {
      var run := closure(Sections(body).0, Sections(body).1);
      assert AfterTitle(t, body, closure) == RunVerdict(run);
    }
  }

  /** Every verdict carries a well-formed message: findings are only reported when there are some. */
  lemma VerdictWellFormed(title: string, body: string, isValid: IdCheck, closure: Closure)
    ensures ValidationVerdict(title, body, isValid, closure).message.WellFormed()
  {
    AfterTitleWellFormed(ValidateTitle(title, isValid), body, closure);
  }

  /** With an acceptable title, a body without the separator gets the separator message. */
  lemma MissingSeparatorReported(title: string, body: string, isValid: IdCheck, closure: Closure)
    requires ValidateTitle(title, isValid).valid
    ensures ValidationVerdict(title, body, isValid, closure) == Verdict(false, MissingSeparator)
        <==> !Contains(body, Separator)
  {
    AfterTitleSeparator(ValidateTitle(title, isValid), body, closure);
  }

  /**
   * The body is accepted exactly when the title is, the separator is present, the validator
   * completes and neither summary has any content.
   */
  lemma AcceptedIff(title: string, body: string, isValid: IdCheck, closure: Closure)
    ensures ValidationVerdict(title, body, isValid, closure).valid <==>
      && ValidateTitle(title, isValid).valid
      && Contains(body, Separator)
      && var run := closure(Sections(body).0, Sections(body).1);
         run.Completed? && Content(run.metaSummary) == [] && Content(run.citsSummary) == []
  {
    AfterTitleAccepted(ValidateTitle(title, isValid), body, closure);
  }

  /**
   * The thank-you message is given exactly for an accepted issue; and since no other message
   * reads like it, its text alone tells an accepted issue from a rejected one.
   */
  lemma ThankYouIffValid(title: string, body: string, isValid: IdCheck, closure: Closure)
    ensures var r := ValidationVerdict(title, body, isValid, closure);
      && (r.valid <==> r.message == ThankYou)
      && (r.valid <==> r.message.Text() == ThankYouText)
  {
    AfterTitleThankYou(ValidateTitle(title, isValid), body, closure);
    VerdictWellFormed(title, body, isValid, closure);
    ThankYouTextIff(ValidationVerdict(title, body, isValid, closure).message);
  }

  /**
   * A body with two or more separators passes this check: only the text before the first
   * separator and the text between the first and the second reach the validator.
   */
  lemma ExtraSectionsIgnored(meta: string, cits: string, rest: string)
    requires Avoids(meta, '=') && Avoids(cits, '=')
    ensures var parts := Split(meta + Separator + cits + Separator + rest, Separator);
      |parts| >= 3 && parts[0] == meta && parts[1] == cits
  {
    var tail := cits + Separator + rest;
    var s := meta + Separator + cits + Separator + rest;
    assert s == meta + Separator + tail;
    assert Separator[0] == '=';
    SplitAfterHead(meta, Separator, tail);
    SplitAfterHead(cits, Separator, rest);
    var more := Split(rest, Separator);
    assert Split(s, Separator) == [meta] + ([cits] + more);
  }
}
