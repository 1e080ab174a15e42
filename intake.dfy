/**
 * What process_issues.py keeps of an accepted deposit (`get_data_to_store`) and who may make
 * one (`is_in_safe_list`).
 *
 * The CSV reader (`csv.DictReader` over the section text) is a parameter: it gives the rows
 * of a section, or the exception it raised. The safe-list file is a parameter too: its text,
 * or `None` when it does not exist.
 */
module Intake {
  import opened Wrappers
  import opened Text
  import Validation

  /** One CSV record, by column name. */
  type Row = map<string, string>

  /** `list(csv.DictReader(io.StringIO(text)))`, or the exception it raised. */
  type CsvReader = string -> Result<seq<Row>, string>

  datatype Data = Data(title: string, metadata: seq<Row>, citations: seq<Row>)

  /** Who deposited what, and when: the issue's creation time, author id and URL. */
  datatype Provenance = Provenance(generatedAtTime: string, wasAttributedTo: Option<int>, hadPrimarySource: string)

  datatype Payload = Payload(data: Data, provenance: Provenance)

  const ErrorPrefix := "Failed to process issue data: "

  const EmptySection := "Empty metadata or citations section"

  /**
   * The `ValueError` raised when the parts of `body.split(separator)` cannot be unpacked into
   * two names, as CPython 3.13 words it (later versions also give the count of a longer
   * list).
   */
  function UnpackError(count: nat): string {
    if count < 2 then "not enough values to unpack (expected 2, got " + NatToString(count) + ")"
    else "too many values to unpack (expected 2)"
  }

  /**
   * The `try` block of `get_data_to_store`: the two stripped sections of the body, each read
   * as CSV, both non-empty, with the issue's title and provenance; or why not.
   */
  function Gather(title: string, body: string, createdAt: string, source: string,
                  userId: Option<int>, readCsv: CsvReader): Result<Payload, string>
  {
    var parts := Split(body, Validation.Separator);
    if |parts| != 2 then Err(UnpackError(|parts|))
    else match readCsv(Strip(parts[0]))
      case Err(e) => Err(e)
      case Ok(metadata) =>
        match readCsv(Strip(parts[1]))
        case Err(e) => Err(e)
        case Ok(citations) =>
          if metadata == [] || citations == [] then Err(EmptySection)
          else Ok(Payload(Data(title, metadata, citations), Provenance(createdAt, userId, source)))
  }

  /** `get_data_to_store`: every failure is re-raised with the prefix "Failed to process issue data: ". */
  function DataToStore(title: string, body: string, createdAt: string, source: string,
                       userId: Option<int>, readCsv: CsvReader): Result<Payload, string>
  {
    match Gather(title, body, createdAt, source, userId, readCsv)
    case Ok(payload) => Ok(payload)
    case Err(e) => Err(ErrorPrefix + e)
  }

  // ---------------------------------------------------------------- get_data_to_store

  /**
   * The data is kept exactly when the body holds exactly one separator and both sections
   * read as non-empty CSV; it is then the title, both row lists and the provenance as given.
   */
  lemma DataToStoreOkIff(title: string, body: string, createdAt: string, source: string,
                         userId: Option<int>, readCsv: CsvReader)
    ensures var r := DataToStore(title, body, createdAt, source, userId, readCsv);
      var parts := Split(body, Validation.Separator);
      && (r.Ok? <==>
           && |parts| == 2
           && readCsv(Strip(parts[0])).Ok? && readCsv(Strip(parts[0])).value != []
           && readCsv(Strip(parts[1])).Ok? && readCsv(Strip(parts[1])).value != [])
      && (r.Ok? ==>
           && r.value.data == Data(title, readCsv(Strip(parts[0])).value, readCsv(Strip(parts[1])).value)
           && r.value.provenance == Provenance(createdAt, userId, source))
  {
  }

  /** Every failure is reported with the same prefix. */
  lemma DataToStoreErrorPrefix(title: string, body: string, createdAt: string, source: string,
                               userId: Option<int>, readCsv: CsvReader)
    ensures var r := DataToStore(title, body, createdAt, source, userId, readCsv);
      r.Err? ==> |r.error| >= |ErrorPrefix| && r.error[..|ErrorPrefix|] == ErrorPrefix
  {
    var g := Gather(title, body, createdAt, source, userId, readCsv);
    if g.Err? {
      assert (ErrorPrefix + g.error)[..|ErrorPrefix|] == ErrorPrefix;
    }
  }

  /**
   * With exactly one separator, the sections read here are the very texts `validate` gave to
   * the validator.
   */
  lemma SameSectionsAsValidation(body: string)
    requires |Split(body, Validation.Separator)| == 2
    ensures Contains(body, Validation.Separator)
    ensures var parts := Split(body, Validation.Separator);
      Validation.Sections(body) == (Strip(parts[0]), Strip(parts[1]))
  {
  }

  /**
   * A body with a second separator passes `validate`'s separator check, but its data is not
   * kept: the split gives three parts, which cannot be unpacked into two.
   */
  lemma TwoSeparatorsNotStored(title: string, meta: string, cits: string, rest: string,
                               createdAt: string, source: string, userId: Option<int>, readCsv: CsvReader)
    requires Avoids(meta, '=') && Avoids(cits, '=')
    ensures var body := meta + Validation.Separator + cits + Validation.Separator + rest;
      && Contains(body, Validation.Separator)
      && Validation.Sections(body) == (Strip(meta), Strip(cits))
      && DataToStore(title, body, createdAt, source, userId, readCsv)
         == Err(ErrorPrefix + "too many values to unpack (expected 2)")
  {
    Validation.ExtraSectionsIgnored(meta, cits, rest);
  }

  /**
   * `meta + separator + cits`, with no `=` on either side, is stored with exactly the rows
   * read from the stripped `meta` and `cits`, provided both are non-empty.
   */
  lemma WellFormedBodyStored(title: string, meta: string, cits: string, createdAt: string,
                             source: string, userId: Option<int>, readCsv: CsvReader)
    requires Avoids(meta, '=') && Avoids(cits, '=')
    requires readCsv(Strip(meta)).Ok? && readCsv(Strip(meta)).value != []
    requires readCsv(Strip(cits)).Ok? && readCsv(Strip(cits)).value != []
    ensures DataToStore(title, meta + Validation.Separator + cits, createdAt, source, userId, readCsv)
         == Ok(Payload(Data(title, readCsv(Strip(meta)).value, readCsv(Strip(cits)).value),
                       Provenance(createdAt, userId, source)))
  {
    var sep := Validation.Separator;
    assert sep[0] == '=';
    SplitAfterHead(meta, sep, cits);
    AvoidsFirstNotContains(cits, sep);
    assert Split(cits, sep) == [cits] by {
      assert Join(Split(cits, sep), sep) == cits;
    }
    assert Split(meta + sep + cits, sep) == [meta, cits];
  }

  // ---------------------------------------------------------------- is_in_safe_list

  /** `str(user_id)`: a missing id prints as "None". */
  function IdText(userId: Option<int>): string {
    match userId
    case None => "None"
    case Some(n) => IntToString(n)
  }

  /** Universal-newline reading: a carriage return ends a line as a line feed does. */
  function Newlines(text: string): string {
    seq(|text|, k requires 0 <= k < |text| => if text[k] == '\r' then '\n' else text[k])
  }

  /** The lines of a text file, without their line breaks. */
  function Lines(text: string): seq<string> {
    Split(Newlines(text), "\n")
  }

  /**
   * `is_in_safe_list`: whether `str(user_id)` is one of the stripped lines of the safe-list
   * file; a missing file lets no one in.
   */
  function InSafeList(userId: Option<int>, file: Option<string>): bool {
    match file
    case None => false
    case Some(text) =>
      var lines := Lines(text);
      IdText(userId) in (set k | 0 <= k < |lines| :: Strip(lines[k]))
  }

  /** Without a safe-list file nobody is trusted. */
  lemma NoFileNoOne(userId: Option<int>)
    ensures !InSafeList(userId, None)
  {
  }

  /** A user is trusted exactly when some line of the file, stripped, is their id. */
  lemma InSafeListIff(userId: Option<int>, text: string)
    ensures InSafeList(userId, Some(text)) <==>
      exists k :: 0 <= k < |Lines(text)| && Strip(Lines(text)[k]) == IdText(userId)
  {
  }

  /** Ids are compared as whole lines: the printed ids of two users never coincide. */
  lemma IdTextInjective(a: Option<int>, b: Option<int>)
    requires IdText(a) == IdText(b)
    ensures a == b
  {
    match (a, b)
    case (Some(m), Some(n)) => IntToStringInjective(m, n);
    case (Some(n), None) => PrintedNumberNotNone(n);
    case (None, Some(n)) => PrintedNumberNotNone(n);
    case (None, None) =>
  }

  lemma PrintedNumberNotNone(n: int)
    ensures IntToString(n) != "None"
  {
    assert IntToString(n)[0] != 'N';
  }

  /** A text without carriage returns reads unchanged. */
  lemma NewlinesNoReturn(text: string)
    requires Avoids(text, '\r')
    ensures Newlines(text) == text
  {
  }

  /**
   * A file made of `lines` joined by line feeds, one of which is the user's id padded with
   * whitespace, lets that user in.
   */
  lemma ListedUserTrusted(lines: seq<string>, k: nat, userId: Option<int>)
    requires k < |lines|
    requires forall j :: 0 <= j < |lines| ==> Avoids(lines[j], '\n') && Avoids(lines[j], '\r')
    requires Strip(lines[k]) == IdText(userId)
    ensures InSafeList(userId, Some(Join(lines, "\n")))
  {
    var text := Join(lines, "\n");
    LinesOfJoin(lines);
    InSafeListIff(userId, text);
  }

  /** Reading back lines joined by line feeds gives the lines, when none holds a line break. */
  lemma LinesOfJoin(lines: seq<string>)
    requires lines != []
    requires forall j :: 0 <= j < |lines| ==> Avoids(lines[j], '\n') && Avoids(lines[j], '\r')
    ensures Lines(Join(lines, "\n")) == lines
  {
    var text := Join(lines, "\n");
    JoinAvoids(lines, "\n", '\r');
    NewlinesNoReturn(text);
    SplitOfJoin(lines, "\n");
  }

  /** Joining texts that avoid `c` with a separator that avoids `c` gives a text that avoids `c`. */
  lemma {:induction false} JoinAvoids(parts: seq<string>, sep: string, c: char)
    requires Avoids(sep, c)
    requires forall j :: 0 <= j < |parts| ==> Avoids(parts[j], c)
    ensures Avoids(Join(parts, sep), c)
    decreases |parts|
  {
    if |parts| >= 2 {
      JoinAvoids(parts[1..], sep, c);
      var t := Join(parts[1..], sep);
      assert Join(parts, sep) == parts[0] + sep + t;
      assert Avoids(parts[0] + sep + t, c) by {
        assert forall k :: 0 <= k < |parts[0] + sep + t| ==>
          (parts[0] + sep + t)[k] == if k < |parts[0]| then parts[0][k]
            else if k < |parts[0]| + |sep| then sep[k - |parts[0]|]
            else t[k - |parts[0]| - |sep|];
      }
    }
  }
}
