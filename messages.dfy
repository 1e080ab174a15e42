/**
 * The messages process_issues.py posts on an issue. Each one is a `Message` value; `Text()`
 * gives the exact string the script composes for it. Everything else in the model works with
 * the values, and the lemmas here say how their texts relate.
 */
module Messages {
  import opened Text

  // Each long text starts with a sixteen-character opening that tells it apart from the others.

  const FormatOpening := "The title of the"

  const FormatText := FormatOpening
    + " issue was not structured correctly. "
    + "Please, follow this format: deposit "
    + "{domain name of journal} {doi or other "
    + "supported identifier}. For example "
    + "\"deposit localhost:330 "
    + "doi:10.1007/978-3-030-00668-6_8\". The "
    + "following identifiers are currently "
    + "supported: doi, isbn, pmid, pmcid, url, "
    + "wikidata, wikipedia, and openalex"

  const SeparatorOpening := "Please use the s"

  const SeparatorText := SeparatorOpening
    + "eparator \"===###===@@@===\" to divide "
    + "metadata from citations, as shown in "
    + "the following guide: "
    + "https://github.com/opencitations/crowdsourcing/blob/main/README.md"

  const ThankYouOpening := "Thank you for yo"

  const ThankYouText := ThankYouOpening
    + "ur contribution! OpenCitations just "
    + "processed the data you provided. The "
    + "citations will soon be available on the "
    + "[CROCI](https://opencitations.net/index/croci) "
    + "index and metadata on OpenCitations Meta"

  const UntrustedOpening := "To make a deposi"

  const UntrustedText := UntrustedOpening
    + "t, please contact OpenCitations at "
    + "<contact@opencitations.net> to register "
    + "as a trusted user"

  const MetaOpening := "Metadata validat"

  const MetaHeader := MetaOpening + "ion errors:"

  const CitsOpening := "Citations valida"

  const CitsHeader := CitsOpening + "tion errors:"

  /**
   * The lines of `validate`'s error message: the metadata block, a blank line when both
   * blocks are present, then the citations block.
   */
  function ErrorLines(meta: string, cits: string): (lines: seq<string>)
    ensures lines == [] <==> meta == [] && cits == []
    ensures "" in lines <==> meta != [] && cits != []
    ensures meta != [] ==> |lines| >= 2 && lines[0] == MetaHeader && lines[1] == meta
    ensures cits != [] ==> |lines| >= 2 && lines[|lines| - 2] == CitsHeader && lines[|lines| - 1] == cits
  {
    (if meta != [] then [MetaHeader, meta] else [])
    + (if meta != [] && cits != [] then [""] else [])
    + (if cits != [] then [CitsHeader, cits] else [])
  }

  function UnsupportedText(name: string): string {
    "The identifier s" + ("chema '" + name + "' is not supported")
  }

  function InvalidText(identifier: string, name: string): string {
    "The identifier w"
      + ("ith literal value " + identifier + " specified in the issue title is not a valid " + Upper(name))
  }

  const RaisedAdvice := ". Please ensure both metadata and citations are valid CSVs following the required format."

  function RaisedText(e: string): string {
    "Error validating"
      + (" data: " + e + RaisedAdvice)
  }

  /** `"\n".join(errors)`. */
  function FindingsText(meta: string, cits: string): string {
    Join(ErrorLines(meta, cits), "\n")
  }

  datatype Message =
    | Blank                                                // an accepted title
    | BadFormat                                            // no match of the title pattern
    | UnsupportedSchema(name: string)                      // schema token outside the table
    | InvalidIdentifier(identifier: string, name: string)  // rejected by the identifier manager
    | MissingSeparator                                     // no separator in the body
    | ValidatorRaised(error: string)                       // the validator raised
    | Findings(meta: string, cits: string)                 // the validator's stripped summaries
    | ThankYou                                             // the deposit is accepted
    | Untrusted                                            // the author is not in the safe list
  {
    function Text(): string {
      match this
      case Blank => ""
      case BadFormat => FormatText
      case UnsupportedSchema(name) => UnsupportedText(name)
      case InvalidIdentifier(identifier, name) => InvalidText(identifier, name)
      case MissingSeparator => SeparatorText
      case ValidatorRaised(e) => RaisedText(e)
      case Findings(meta, cits) => FindingsText(meta, cits)
      case ThankYou => ThankYouText
      case Untrusted => UntrustedText
    }

    /** The messages of the title check. */
    predicate AboutTitle() {
      Blank? || BadFormat? || UnsupportedSchema? || InvalidIdentifier?
    }

    /** Findings are only reported when there is at least one. */
    predicate WellFormed() {
      Findings? ==> meta != [] || cits != []
    }

    /** Which kind of message this is. */
    function Kind(): nat {
      match this
      case Blank => 0
      case BadFormat => 1
      case UnsupportedSchema(_) => 2
      case InvalidIdentifier(_, _) => 3
      case MissingSeparator => 4
      case ValidatorRaised(_) => 5
      case Findings(_, _) => 6
      case ThankYou => 7
      case Untrusted => 8
    }

    /** The first sixteen characters of the text, enough to tell the kinds apart. */
    function Opening(): string {
      match this
      case Blank => ""
      case BadFormat => FormatOpening
      case UnsupportedSchema(_) => "The identifier s"
      case InvalidIdentifier(_, _) => "The identifier w"
      case MissingSeparator => SeparatorOpening
      case ValidatorRaised(_) => "Error validating"
      case Findings(meta, _) => if meta != [] then MetaOpening else CitsOpening
      case ThankYou => ThankYouOpening
      case Untrusted => UntrustedOpening
    }
  }

  // ---------------------------------------------------------------- openings

  /** `sep.join(lines)` begins with the first line. */
  lemma JoinStartsWithFirst(lines: seq<string>, sep: string)
    requires |lines| >= 1
    ensures lines[0] <= Join(lines, sep)
  {
  }

  lemma PrefixOfConcat(a: string, b: string)
    ensures a <= a + b
  {
    assert (a + b)[..|a|] == a;
  }

  lemma FindingsOpening(meta: string, cits: string)
    requires meta != [] || cits != []
    ensures (if meta != [] then MetaOpening else CitsOpening) <= FindingsText(meta, cits)
  {
    var lines := ErrorLines(meta, cits);
    JoinStartsWithFirst(lines, "\n");
    PrefixOfConcat(MetaOpening, MetaHeader[|MetaOpening|..]);
    PrefixOfConcat(CitsOpening, CitsHeader[|CitsOpening|..]);
  }

  lemma UnsupportedOpening(name: string)
    ensures "The identifier s" <= UnsupportedText(name)
  {
    var rest := "chema '" + name + "' is not supported";
    PrefixOfConcat("The identifier s", rest);
  }

  lemma InvalidOpening(identifier: string, name: string)
    ensures "The identifier w" <= InvalidText(identifier, name)
  {
    var rest := "ith literal value " + identifier + " specified in the issue title is not a valid " + Upper(name);
    PrefixOfConcat("The identifier w", rest);
  }

  lemma RaisedOpening(e: string)
    ensures "Error validating" <= RaisedText(e)
  {
    var rest := " data: " + e + RaisedAdvice;
    PrefixOfConcat("Error validating", rest);
  }

  lemma FixedOpenings()
    ensures FormatOpening <= FormatText
    ensures SeparatorOpening <= SeparatorText
    ensures ThankYouOpening <= ThankYouText
    ensures UntrustedOpening <= UntrustedText
  {
    PrefixOfConcat(FormatOpening, FormatText[|FormatOpening|..]);
    PrefixOfConcat(SeparatorOpening, SeparatorText[|SeparatorOpening|..]);
    PrefixOfConcat(ThankYouOpening, ThankYouText[|ThankYouOpening|..]);
    PrefixOfConcat(UntrustedOpening, UntrustedText[|UntrustedOpening|..]);
  }

  /** Every (well-formed) message's text starts with its opening. */
  lemma TextOpens(m: Message)
    requires m.WellFormed()
    ensures m.Opening() <= m.Text()
  {
    match m
    case Blank =>
    case UnsupportedSchema(name) => UnsupportedOpening(name);
    case InvalidIdentifier(identifier, name) => InvalidOpening(identifier, name);
    case ValidatorRaised(e) => RaisedOpening(e);
    case Findings(meta, cits) => FindingsOpening(meta, cits);
    case _ => FixedOpenings();
  }

  /** Texts that open differently, over the same length, differ. */
  lemma OpeningsSeparate(a: string, b: string, t1: string, t2: string)
    requires a <= t1 && b <= t2 && |a| == |b| && a != b
    ensures t1 != t2
  {
  }

  /** The openings of the non-blank messages all have sixteen characters. */
  lemma OpeningLength(m: Message)
    requires !m.Blank?
    ensures |m.Opening()| == 16
  {
  }

  /** Different kinds of message have different openings. */
  lemma OpeningsDiffer(m1: Message, m2: Message)
    requires m1.Kind() != m2.Kind()
    ensures m1.Opening() != m2.Opening()
  {
  }

  /**
   * Messages of different kinds never read the same: a commenter (or a test) can tell from the
   * text alone which check failed.
   */
  lemma TextsDiffer(m1: Message, m2: Message)
    requires m1.WellFormed() && m2.WellFormed() && m1.Kind() != m2.Kind()
    ensures m1.Text() != m2.Text()
  {
    TextOpens(m1);
    TextOpens(m2);
    if m1.Blank? {
      OpeningLength(m2);
    } else if m2.Blank? {
      OpeningLength(m1);
    } else {
      OpeningLength(m1);
      OpeningLength(m2);
      OpeningsDiffer(m1, m2);
      OpeningsSeparate(m1.Opening(), m2.Opening(), m1.Text(), m2.Text());
    }
  }

  /** Only the thank-you message reads as the thank-you message. */
  lemma ThankYouTextIff(m: Message)
    requires m.WellFormed()
    ensures m == ThankYou <==> m.Text() == ThankYouText
  {
    if m != ThankYou {
      TextsDiffer(m, ThankYou);
    }
  }

  // ---------------------------------------------------------------- the error message

  /**
   * The layout of the error message: each block is its header line followed by the stripped
   * summary, metadata first, and the blocks are separated by one blank line.
   */
  lemma FindingsLayout(meta: string, cits: string)
    requires meta != [] || cits != []
    ensures FindingsText(meta, cits) ==
      if cits == [] then MetaHeader + "\n" + meta
      else if meta == [] then CitsHeader + "\n" + cits
      else MetaHeader + "\n" + (meta + "\n" + ("" + "\n" + (CitsHeader + "\n" + cits)))
  {
    var nl := "\n";
    JoinCons(CitsHeader, [cits], nl);
    assert [CitsHeader] + [cits] == [CitsHeader, cits];
    if meta != [] && cits != [] {
      assert ErrorLines(meta, cits) == [MetaHeader] + ([meta] + ([""] + [CitsHeader, cits]));
      JoinCons("", [CitsHeader, cits], nl);
      JoinCons(meta, [""] + [CitsHeader, cits], nl);
      JoinCons(MetaHeader, [meta] + ([""] + [CitsHeader, cits]), nl);
    } else if meta != [] {
      assert ErrorLines(meta, cits) == [MetaHeader] + [meta];
      JoinCons(MetaHeader, [meta], nl);
    } else {
      assert ErrorLines(meta, cits) == [CitsHeader] + [cits];
    }
  }
}
