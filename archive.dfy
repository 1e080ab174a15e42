/**
 * The archive of validation reports (crowdsourcing/archive_manager.py). The index keeps the
 * reports still hosted on GitHub Pages ("hot": file name to page URL) and the reports already
 * moved into a Zenodo deposit ("cold": file name to the direct file URL and the deposit's DOI
 * URL). `archive_reports` moves every hot report into one new deposit.
 *
 * The report directory is a parameter (file name to creation time); the Zenodo calls, the clock
 * and `os.remove` are parameters too (`Zenodo`).
 */
module Archive {
  import opened Wrappers
  import opened Text

  /** A cold entry: the direct URL of the file in the deposit and the DOI URL of the deposit. */
  datatype Deposited = Deposited(url: string, doi: string)

  /** The report files that exist on disk, with their creation times in seconds. */
  type Directory = map<string, nat>

  // ---------------------------------------------------------------- ordering

  /** The sort key of `archive_reports`: the creation time, or 0 for a file that is missing. */
  function Ctime(dir: Directory, f: string): nat {
    if f in dir then dir[f] else 0
  }

  predicate Ascending(s: seq<string>, dir: Directory) {
    forall i, j :: 0 <= i < j < |s| ==> Ctime(dir, s[i]) <= Ctime(dir, s[j])
  }

  predicate Distinct(s: seq<string>) {
    forall i, j :: 0 <= i < j < |s| ==> s[i] != s[j]
  }

  /** The names in `s` whose key is `k`, in their order in `s`. */
  function WithKey(s: seq<string>, dir: Directory, k: nat): seq<string> {
    if s == [] then []
    else (if Ctime(dir, s[0]) == k then [s[0]] else []) + WithKey(s[1..], dir, k)
  }

  /** Puts `x` in front of the first name whose key is not smaller than its own. */
  function Insert(x: string, s: seq<string>, dir: Directory): (r: seq<string>)
    ensures multiset(r) == multiset(s) + multiset{x}
  {
    if s == [] || Ctime(dir, x) <= Ctime(dir, s[0]) then [x] + s
    else
      assert s == [s[0]] + s[1..];
      [s[0]] + Insert(x, s[1..], dir)
  }

  /** `sorted(keys, key=ctime)`: Python's sort is stable, as this insertion sort is. */
  function SortByCtime(s: seq<string>, dir: Directory): (r: seq<string>)
    ensures multiset(r) == multiset(s)
  {
    if s == [] then []
    else
      assert s == [s[0]] + s[1..];
      Insert(s[0], SortByCtime(s[1..], dir), dir)
  }

  /** Inserting a name that is not below a bound into names not below it keeps them all above it. */
  lemma {:induction false} InsertAbove(x: string, s: seq<string>, dir: Directory, lo: nat)
    requires lo <= Ctime(dir, x)
    requires forall i :: 0 <= i < |s| ==> lo <= Ctime(dir, s[i])
    ensures forall i :: 0 <= i < |Insert(x, s, dir)| ==> lo <= Ctime(dir, Insert(x, s, dir)[i])
  {
    if s != [] && Ctime(dir, x) > Ctime(dir, s[0]) {
      InsertAbove(x, s[1..], dir, lo);
    }
  }

  lemma ConsAscending(h: string, t: seq<string>, dir: Directory)
    requires Ascending(t, dir)
    requires forall i :: 0 <= i < |t| ==> Ctime(dir, h) <= Ctime(dir, t[i])
    ensures Ascending([h] + t, dir)
  {
    var r := [h] + t;
    forall i, j | 0 <= i < j < |r| ensures Ctime(dir, r[i]) <= Ctime(dir, r[j]) {
      assert r[j] == t[j - 1];
      if i > 0 {
        assert r[i] == t[i - 1];
      }
    }
  }

  lemma {:induction false} InsertAscending(x: string, s: seq<string>, dir: Directory)
    requires Ascending(s, dir)
    ensures Ascending(Insert(x, s, dir), dir)
  {
    if s != [] && Ctime(dir, x) > Ctime(dir, s[0]) {
      var t := Insert(x, s[1..], dir);
      assert Ascending(s[1..], dir) by {
        forall i, j | 0 <= i < j < |s[1..]| ensures Ctime(dir, s[1..][i]) <= Ctime(dir, s[1..][j]) {
          assert s[1..][i] == s[i + 1] && s[1..][j] == s[j + 1];
        }
      }
      InsertAscending(x, s[1..], dir);
      InsertAbove(x, s[1..], dir, Ctime(dir, s[0]));
      ConsAscending(s[0], t, dir);
    } else {
      ConsAscending(x, s, dir);
    }
  }

  /** The reports come out in ascending creation-time order, missing files (key 0) first. */
  lemma {:induction false} SortAscending(s: seq<string>, dir: Directory)
    ensures Ascending(SortByCtime(s, dir), dir)
  {
    if s != [] {
      SortAscending(s[1..], dir);
      InsertAscending(s[0], SortByCtime(s[1..], dir), dir);
    }
  }

  lemma {:induction false} InsertWithKey(x: string, s: seq<string>, dir: Directory, k: nat)
    ensures WithKey(Insert(x, s, dir), dir, k)
      == (if Ctime(dir, x) == k then [x] else []) + WithKey(s, dir, k)
  {
    if s == [] || Ctime(dir, x) <= Ctime(dir, s[0]) {
      assert ([x] + s)[1..] == s;
    } else {
      var t := Insert(x, s[1..], dir);
      InsertWithKey(x, s[1..], dir, k);
      assert ([s[0]] + t)[1..] == t;
    }
  }

  /**
   * The sort is stable: the names that share a key keep their relative order. Together with
   * `SortAscending` and the multiset ensures this fixes the result completely.
   */
  lemma {:induction false} SortStable(s: seq<string>, dir: Directory, k: nat)
    ensures WithKey(SortByCtime(s, dir), dir, k) == WithKey(s, dir, k)
  {
    if s != [] {
      SortStable(s[1..], dir, k);
      InsertWithKey(s[0], SortByCtime(s[1..], dir), dir, k);
    }
  }

  lemma MultisetDistinct(s: seq<string>, t: seq<string>)
    requires multiset(s) == multiset(t) && Distinct(s)
    ensures Distinct(t)
  {
    forall i, j | 0 <= i < j < |t| ensures t[i] != t[j] {
      if t[i] == t[j] {
        assert t == t[..i] + [t[i]] + t[i + 1..j] + [t[j]] + t[j + 1..];
        assert multiset(t)[t[i]] >= 2;
        DistinctCount(s, t[i]);
      }
    }
  }

  lemma {:induction false} DistinctCount(s: seq<string>, x: string)
    requires Distinct(s)
    ensures multiset(s)[x] <= 1
  {
    if s != [] {
      assert s == [s[0]] + s[1..];
      assert Distinct(s[1..]) by {
        forall i, j | 0 <= i < j < |s[1..]| ensures s[1..][i] != s[1..][j] {
          assert s[1..][i] == s[i + 1] && s[1..][j] == s[j + 1];
        }
      }
      DistinctCount(s[1..], x);
      if s[0] == x {
        assert x !in s[1..] by {
          forall j | 0 <= j < |s[1..]| ensures s[1..][j] != x {
            assert s[1..][j] == s[j + 1];
          }
        }
      }
    }
  }

  // ---------------------------------------------------------------- issue numbers

  const Stem := "validation_issue_"

  /** The length of the run of decimal digits at the start of `s`. */
  function DigitRun(s: string): (n: nat)
    ensures n <= |s| && AllDigits(s[..n])
    ensures n < |s| ==> !IsDigit(s[n])
  {
    if s == [] || !IsDigit(s[0]) then 0
    else
      var n := 1 + DigitRun(s[1..]);
      assert s[..n] == [s[0]] + s[1..][..n - 1];
      n
  }

  /**
   * Whether `validation_issue_(\d+)\.html` matches at `p`, and the number it captures. The
   * digits before `.html` must be the whole run of digits after the stem: giving back a digit
   * leaves a digit where the dot is needed, so backtracking never finds another match here.
   */
  function MatchAt(f: string, p: nat): Option<nat> {
    if OccursAt(f, Stem, p) then
      var rest := f[p + |Stem|..];
      var n := DigitRun(rest);
      if n >= 1 && OccursAt(rest, ".html", n) then Some(DigitsValue(rest[..n])) else None
    else None
  }

  /** The leftmost match at `p` or after it. */
  function SearchFrom(f: string, p: nat): (r: Option<nat>)
    ensures r.None? <==> forall q: nat :: p <= q ==> MatchAt(f, q).None?
    ensures r.Some? ==>
      exists q: nat :: p <= q && MatchAt(f, q) == r && forall q': nat :: p <= q' < q ==> MatchAt(f, q').None?
    decreases |f| + 1 - p
  {
    if p > |f| then None
    else if MatchAt(f, p).Some? then MatchAt(f, p)
    else SearchFrom(f, p + 1)
  }

  /** `re.search(r"validation_issue_(\d+)\.html", f)` and `int(match.group(1))`. */
  function IssueNumber(f: string): (r: Option<nat>)
    ensures r.Some? ==> Contains(f, Stem)
    ensures r.None? <==> forall q: nat :: MatchAt(f, q).None?
    ensures r.Some? ==> exists q: nat :: MatchAt(f, q) == r && forall q': nat :: q' < q ==> MatchAt(f, q').None?
  {
    SearchFrom(f, 0)
  }

  /** The file name a report gets for issue `n`. */
  function ReportName(n: nat): string {
    Stem + NatToString(n) + ".html"
  }

  lemma {:induction false} DigitRunOfDigits(ds: string, t: string)
    requires AllDigits(ds)
    requires t == [] || !IsDigit(t[0])
    ensures DigitRun(ds + t) == |ds|
  {
    if ds != [] {
      assert (ds + t)[1..] == ds[1..] + t;
      DigitRunOfDigits(ds[1..], t);
    }
  }

  /** The issue number read back from a report's file name is the issue it was named for. */
  lemma IssueNumberOfReportName(n: nat)
    ensures IssueNumber(ReportName(n)) == Some(n)
  {
    var f := ReportName(n);
    var ds := NatToString(n);
    assert f[..|Stem|] == Stem;
    var rest := f[|Stem|..];
    assert rest == ds + ".html";
    DigitRunOfDigits(ds, ".html");
    assert rest[..|ds|] == ds;
    assert rest[|ds|..|ds| + 5] == ".html";
    DigitsValueOfNatToString(n);
    assert MatchAt(f, 0) == Some(n);
  }

  /** The issue numbers found in the names, in order: the list the loop of archive_reports builds. */
  function NumbersOf(s: seq<string>): (r: seq<nat>)
    ensures forall i :: 0 <= i < |s| && IssueNumber(s[i]).Some? ==> IssueNumber(s[i]).value in r
    ensures forall x :: x in r ==> exists i :: 0 <= i < |s| && IssueNumber(s[i]) == Some(x)
  {
    if s == [] then []
    else
      var init := NumbersOf(s[..|s| - 1]);
      var last := IssueNumber(s[|s| - 1]);
      assert forall i :: 0 <= i < |s| - 1 ==> s[..|s| - 1][i] == s[i];
      init + (if last.Some? then [last.value] else [])
  }

  method IssueNumbers(reports: seq<string>) returns (numbers: seq<nat>)
    ensures numbers == NumbersOf(reports)
  {
    numbers := [];
    for i := 0 to |reports|
      invariant numbers == NumbersOf(reports[..i])
    {
      assert reports[..i + 1][..i] == reports[..i];
      var m := IssueNumber(reports[i]);
      if m.Some? {
        numbers := numbers + [m.value];
      }
    }
    assert reports[..|reports|] == reports;
  }

  function MinNat(xs: seq<nat>): (r: nat)
    requires xs != []
    ensures r in xs && forall x :: x in xs ==> r <= x
  {
    if |xs| == 1 then xs[0]
    else
      var m := MinNat(xs[1..]);
      assert forall x :: x in xs ==> x == xs[0] || x in xs[1..];
      if xs[0] <= m then xs[0] else m
  }

  function MaxNat(xs: seq<nat>): (r: nat)
    requires xs != []
    ensures r in xs && forall x :: x in xs ==> x <= r
  {
    if |xs| == 1 then xs[0]
    else
      var m := MaxNat(xs[1..]);
      assert forall x :: x in xs ==> x == xs[0] || x in xs[1..];
      if xs[0] >= m then xs[0] else m
  }

  /** The least and greatest issue number, both 0 when no name carries one. */
  function IssueRange(numbers: seq<nat>): (r: (nat, nat))
    ensures numbers == [] ==> r == (0, 0)
    ensures numbers != [] ==> r.0 in numbers && r.1 in numbers
    ensures forall x :: x in numbers ==> r.0 <= x <= r.1
  {
    if numbers == [] then (0, 0) else (MinNat(numbers), MaxNat(numbers))
  }

  // ---------------------------------------------------------------- dates and metadata

  /** The creation dates of the reports that exist, as `"%Y-%m-%d"` strings, in order. */
  function Dates(reports: seq<string>, dir: Directory, dateOf: nat -> string): (r: seq<string>)
    ensures r == [] <==> forall f :: f in reports ==> f !in dir
    ensures forall d :: d in r <==> exists f :: f in reports && f in dir && d == dateOf(dir[f])
  {
    if reports == [] then []
    else
      var rest := Dates(reports[1..], dir, dateOf);
      assert forall f :: f in reports ==> f == reports[0] || f in reports[1..];
      (if reports[0] in dir then [dateOf(dir[reports[0]])] else []) + rest
  }

  /** When the reports were generated: the earliest and the latest creation date. */
  datatype Span = Span(first: string, last: string)
  {
    /** "on d" when every report was created the same day, "from d1 to d2" otherwise. */
    function Text(): string {
      if first != last then "from " + first + " to " + last else "on " + first
    }
  }

  lemma SpanForms(span: Span)
    ensures span.Text() == "on " + span.first <==> span.first == span.last
    ensures span.first != span.last ==> span.Text()[..5] == "from "
  {
    if span.first != span.last {
      assert span.Text()[0] == 'f';
    }
  }

  /**
   * The fields archive_reports sets on the configured metadata template: the issue range, the
   * number of reports and their date span, which `Title()` and `Description()` spell out, and
   * the publication date.
   */
  datatype Metadata = Metadata(lo: nat, hi: nat, count: nat, span: Span, publicationDate: string)
  {
    function Title(): string {
      "OpenCitations validation reports: issues #" + NatToString(lo) + " to #" + NatToString(hi)
        + " (" + span.Text() + ")"
    }

    function Description(): string {
      "This deposit contains " + NatToString(count) + " validation reports generated " + span.Text()
        + " to validate citation data and metadata submitted through GitHub issues in the"
        + " OpenCitations crowdsourcing repository."
    }
  }

  /** The metadata archive_reports sends for these reports and the dates of their files. */
  function MetadataFor(reports: seq<string>, dates: seq<string>, today: string): Metadata
    requires dates != []
  {
    var (lo, hi) := IssueRange(NumbersOf(reports));
    Metadata(lo, hi, |reports|, Span(MinString(dates), MaxString(dates)), today)
  }

  /**
   * The metadata names the least and the greatest issue number among the reports (0 and 0
   * when none has one), the number of reports, and the earliest and latest creation dates.
   */
  lemma MetadataSummarises(reports: seq<string>, dates: seq<string>, today: string)
    requires dates != []
    ensures var m := MetadataFor(reports, dates, today);
      m.count == |reports| && m.publicationDate == today
      && (NumbersOf(reports) == [] ==> m.lo == 0 && m.hi == 0)
      && (forall i :: 0 <= i < |reports| && IssueNumber(reports[i]).Some? ==>
            m.lo <= IssueNumber(reports[i]).value <= m.hi)
      && m.span.first in dates && m.span.last in dates
      && forall d :: d in dates ==> LexLe(m.span.first, d) && LexLe(d, m.span.last)
  {
  }

  /** The title, description and date archive_reports puts into the deposit's metadata. */
  method BuildMetadata(reports: seq<string>, dates: seq<string>, today: string) returns (m: Metadata)
    requires dates != []
    ensures m == MetadataFor(reports, dates, today)
  {
    var span := Span(MinString(dates), MaxString(dates));
    var numbers := IssueNumbers(reports);
    var (lo, hi) := IssueRange(numbers);
    m := Metadata(lo, hi, |reports|, span, today);
  }

  // ---------------------------------------------------------------- the Zenodo deposit

  /** What create_deposition_resource returns: the deposition's id and its file bucket URL. */
  datatype Deposition = Deposition(id: nat, bucket: string)

  /** The outside world archive_reports talks to. */
  datatype Zenodo = Zenodo(
    baseUrl: string,                         // get_zenodo_base_url()
    today: string,                           // datetime.now() as "%Y-%m-%d"
    stamp: string,                           // datetime.now().isoformat() once the move is done
    dateOf: nat -> string,                   // a creation time as a local "%Y-%m-%d" date
    create: Metadata -> Option<Deposition>,  // create_deposition_resource, None when it raises
    put: string -> bool,                     // the upload PUT to this URL succeeds
    publish: string -> Option<string>,       // the publish POST to this URL: the DOI, or a failure
    remove: string -> bool)                  // os.remove of this report succeeds

  /** Why archive_reports raised. */
  datatype ArchiveError =
    | NoDates                // `min()` of no dates: none of the report files exists
    | CreateFailed           // the deposition could not be created
    | MissingFile(name: string)
    | UploadFailed(name: string)
    | PublishFailed          // the publish request failed, or its answer has no DOI
    | RemoveFailed(name: string)

  function UploadUrl(bucket: string, f: string): string {
    bucket + "/" + f
  }

  function PublishUrl(base: string, id: nat): string {
    base + "/deposit/depositions/" + NatToString(id) + "/actions/publish"
  }

  /** The direct URL of an archived file. */
  function FileUrl(base: string, id: nat, f: string): string {
    base + "/records/" + NatToString(id) + "/files/" + f + "/content"
  }

  function DoiUrl(doi: string): string {
    "https://doi.org/" + doi
  }

  /** The upload loop: the first report that is missing or whose upload fails. */
  function UploadFailure(reports: seq<string>, dir: Directory, bucket: string, put: string -> bool)
    : (e: Option<ArchiveError>)
    ensures e.None? <==> forall f :: f in reports ==> f in dir && put(UploadUrl(bucket, f))
    ensures e.Some? ==> e.value.MissingFile? || e.value.UploadFailed?
  {
    if reports == [] then None
    else if reports[0] !in dir then Some(MissingFile(reports[0]))
    else if !put(UploadUrl(bucket, reports[0])) then Some(UploadFailed(reports[0]))
    else
      assert forall f :: f in reports ==> f == reports[0] || f in reports[1..];
      UploadFailure(reports[1..], dir, bucket, put)
  }

  /** How many reports, from the first, os.remove deletes before one fails. */
  function Removable(reports: seq<string>, remove: string -> bool): (n: nat)
    ensures n <= |reports|
    ensures forall i :: 0 <= i < n ==> remove(reports[i])
    ensures n < |reports| ==> !remove(reports[n])
  {
    if reports == [] || !remove(reports[0]) then 0
    else 1 + Removable(reports[1..], remove)
  }

  /** The cold entries of a deposit. */
  function Moved(reports: seq<string>, base: string, id: nat, doi: string): map<string, Deposited> {
    map f | f in reports :: Deposited(FileUrl(base, id, f), DoiUrl(doi))
  }

  /**
   * What one call of archive_reports does: its result (the DOI, None when there is nothing
   * hot, or the exception), the report files it deleted, the deposition it created and the
   * cold entries it adds. The index is saved only when the result is a DOI.
   */
  datatype Run = Run(
    result: Result<Option<string>, ArchiveError>,
    removed: seq<string>,
    deposition: Option<Deposition>,
    moved: map<string, Deposited>)
  {
    predicate Archived() {
      result.Ok? && result.value.Some?
    }
  }

  function ArchiveRun(order: seq<string>, dir: Directory, z: Zenodo): Run {
    var reports := SortByCtime(order, dir);
    if reports == [] then Run(Ok(None), [], None, map[])
    else
      var dates := Dates(reports, dir, z.dateOf);
      if dates == [] then Run(Err(NoDates), [], None, map[])
      else Deposit(reports, dir, z, z.create(MetadataFor(reports, dates, z.today)))
  }

  /** The run once the deposition has been asked for: upload, publish, then move and delete. */
  function Deposit(reports: seq<string>, dir: Directory, z: Zenodo, dep: Option<Deposition>): Run {
    if dep.None? then Run(Err(CreateFailed), [], None, map[])
    else
      var upload := UploadFailure(reports, dir, dep.value.bucket, z.put);
      if upload.Some? then Run(Err(upload.value), [], dep, map[])
      else
        var doi := z.publish(PublishUrl(z.baseUrl, dep.value.id));
        if doi.None? then Run(Err(PublishFailed), [], dep, map[])
        else
          var n := Removable(reports, z.remove);
          if n < |reports| then Run(Err(RemoveFailed(reports[n])), reports[..n], dep, map[])
          else Run(Ok(Some(doi.value)), reports, dep, Moved(reports, z.baseUrl, dep.value.id, doi.value))
  }

  lemma SortedMembers(order: seq<string>, dir: Directory)
    ensures forall f :: f in SortByCtime(order, dir) <==> f in order
  {
    var r := SortByCtime(order, dir);
    assert forall f :: f in r <==> f in multiset(r);
  }

  lemma DepositArchivedIff(reports: seq<string>, dir: Directory, z: Zenodo, dep: Option<Deposition>)
    ensures var run := Deposit(reports, dir, z, dep);
      run.Archived() <==>
        (forall f :: f in reports ==> f in dir && z.remove(f))
        && run.deposition.Some?
        && (forall f :: f in reports ==> z.put(UploadUrl(run.deposition.value.bucket, f)))
        && z.publish(PublishUrl(z.baseUrl, run.deposition.value.id)).Some?
  {
    if dep.Some? && UploadFailure(reports, dir, dep.value.bucket, z.put).None? {
      var n := Removable(reports, z.remove);
      if n < |reports| {
        assert reports[n] in reports;
      }
    }
  }

  /**
   * A deposit is published and the index updated exactly when there is something hot, every
   * hot report's file exists, the deposition is created, every upload and the publish request
   * succeed, and every report file is deleted.
   */
  lemma ArchivedIff(order: seq<string>, dir: Directory, z: Zenodo)
    ensures var run := ArchiveRun(order, dir, z);
      run.Archived() <==>
        order != [] && (forall f :: f in order ==> f in dir && z.remove(f))
        && run.deposition.Some?
        && (forall f :: f in order ==> z.put(UploadUrl(run.deposition.value.bucket, f)))
        && z.publish(PublishUrl(z.baseUrl, run.deposition.value.id)).Some?
  {
    var reports := SortByCtime(order, dir);
    SortedMembers(order, dir);
    if reports != [] {
      var dates := Dates(reports, dir, z.dateOf);
      if dates != [] {
        var dep := z.create(MetadataFor(reports, dates, z.today));
        DepositArchivedIff(reports, dir, z, dep);
        assert ArchiveRun(order, dir, z) == Deposit(reports, dir, z, dep);
      } else {
        assert reports[0] in order && reports[0] !in dir;
      }
    }
  }

  /**
   * archive_reports returns None exactly when nothing is hot, and then it creates, deletes and
   * moves nothing.
   */
  lemma NothingHotIff(order: seq<string>, dir: Directory, z: Zenodo)
    ensures ArchiveRun(order, dir, z).result == Ok(None) <==> order == []
    ensures order == [] ==> ArchiveRun(order, dir, z) == Run(Ok(None), [], None, map[])
  {
    var run := ArchiveRun(order, dir, z);
    var reports := SortByCtime(order, dir);
    assert |reports| == |order| by {
      assert |multiset(reports)| == |multiset(order)|;
    }
    if reports != [] {
      var dates := Dates(reports, dir, z.dateOf);
      if dates != [] {
        var dep := z.create(MetadataFor(reports, dates, z.today));
        assert run == Deposit(reports, dir, z, dep);
        DepositDecides(reports, dir, z, dep);
      } else {
        assert run.result == Err(NoDates);
      }
    }
  }

  /** Once the deposition is asked for, the run ends with a DOI or an exception. */
  lemma DepositDecides(reports: seq<string>, dir: Directory, z: Zenodo, dep: Option<Deposition>)
    ensures Deposit(reports, dir, z, dep).result != Ok(None)
  {
  }

  /** A report whose file is missing makes the archive fail before anything is deleted. */
  lemma MissingFileFails(order: seq<string>, dir: Directory, z: Zenodo, f: string)
    requires f in order && f !in dir
    ensures ArchiveRun(order, dir, z).result.Err?
    ensures ArchiveRun(order, dir, z).removed == []
  {
    ArchivedIff(order, dir, z);
    var reports := SortByCtime(order, dir);
    SortedMembers(order, dir);
    var dates := Dates(reports, dir, z.dateOf);
    if dates != [] {
      var dep := z.create(MetadataFor(reports, dates, z.today));
      assert ArchiveRun(order, dir, z) == Deposit(reports, dir, z, dep);
      if dep.Some? {
        assert UploadFailure(reports, dir, dep.value.bucket, z.put).Some?;
      }
    }
  }

  lemma DepositEntries(reports: seq<string>, dir: Directory, z: Zenodo, dep: Option<Deposition>)
    requires Deposit(reports, dir, z, dep).Archived()
    ensures var run := Deposit(reports, dir, z, dep);
      run.deposition.Some?
      && (forall f :: f in run.moved <==> f in reports)
      && forall f :: f in reports ==>
        (f in run.moved && run.moved[f] == Deposited(FileUrl(z.baseUrl, run.deposition.value.id, f), DoiUrl(run.result.value.value)))
  {
  }

  /**
   * After a deposit every hot report has a cold entry: the file's direct URL in the new
   * record and the deposit's DOI URL.
   */
  lemma ArchivedEntries(order: seq<string>, dir: Directory, z: Zenodo)
    requires ArchiveRun(order, dir, z).Archived()
    ensures var run := ArchiveRun(order, dir, z);
      run.deposition.Some?
      && (forall f :: f in run.moved <==> f in order)
      && forall f :: f in order ==>
        (f in run.moved && run.moved[f] == Deposited(FileUrl(z.baseUrl, run.deposition.value.id, f), DoiUrl(run.result.value.value)))
  {
    var reports := SortByCtime(order, dir);
    SortedMembers(order, dir);
    var dates := Dates(reports, dir, z.dateOf);
    var dep := z.create(MetadataFor(reports, dates, z.today));
    assert ArchiveRun(order, dir, z) == Deposit(reports, dir, z, dep);
    DepositEntries(reports, dir, z, dep);
  }

  lemma DepositRemoved(reports: seq<string>, dir: Directory, z: Zenodo, dep: Option<Deposition>)
    requires Deposit(reports, dir, z, dep).result.Err?
    ensures var run := Deposit(reports, dir, z, dep);
      run.removed <= reports && (run.removed != [] ==> run.result.error.RemoveFailed?)
  {
  }

  /**
   * A failed archive deletes only a leading part of the sorted reports, and only when the
   * deletions themselves fail; the deleted files are all still listed as hot.
   */
  lemma RemovedBeforeFailure(order: seq<string>, dir: Directory, z: Zenodo)
    requires ArchiveRun(order, dir, z).result.Err?
    ensures var run := ArchiveRun(order, dir, z);
      run.removed <= SortByCtime(order, dir)
      && (run.removed != [] ==> run.result.error.RemoveFailed?)
      && forall f :: f in run.removed ==> f in order
  {
    var run := ArchiveRun(order, dir, z);
    var reports := SortByCtime(order, dir);
    SortedMembers(order, dir);
    var dates := Dates(reports, dir, z.dateOf);
    if reports != [] && dates != [] {
      var dep := z.create(MetadataFor(reports, dates, z.today));
      assert run == Deposit(reports, dir, z, dep);
      DepositRemoved(reports, dir, z, dep);
      PrefixMembers(run.removed, reports);
    } else {
      assert run.removed == [];
    }
  }

  lemma PrefixMembers(p: seq<string>, s: seq<string>)
    requires p <= s
    ensures forall f :: f in p ==> f in s
  {
    forall f | f in p ensures f in s {
      var i :| 0 <= i < |p| && p[i] == f;
      assert s[i] == f;
    }
  }

  lemma {:induction false} DistinctCard(s: seq<string>)
    requires Distinct(s)
    ensures |set f | f in s| == |s|
  {
    if s != [] {
      var t := s[1..];
      assert Distinct(t) by {
        forall i, j | 0 <= i < j < |t| ensures t[i] != t[j] {
          assert t[i] == s[i + 1] && t[j] == s[j + 1];
        }
      }
      DistinctCard(t);
      assert s[0] !in t by {
        forall j | 0 <= j < |t| ensures t[j] != s[0] {
          assert t[j] == s[j + 1];
        }
      }
      assert (set f | f in s) == (set f | f in t) + {s[0]};
    }
  }

  /** The upload loop: opens and uploads each report in turn, stopping at the first failure. */
  method Upload(reports: seq<string>, dir: Directory, bucket: string, put: string -> bool)
    returns (e: Option<ArchiveError>)
    ensures e == UploadFailure(reports, dir, bucket, put)
  {
    for i := 0 to |reports|
      invariant UploadFailure(reports, dir, bucket, put) == UploadFailure(reports[i..], dir, bucket, put)
    {
      assert reports[i..][1..] == reports[i + 1..];
      var f := reports[i];
      if f !in dir {
        return Some(MissingFile(f));
      }
      if !put(UploadUrl(bucket, f)) {
        return Some(UploadFailed(f));
      }
    }
    return None;
  }

  /** Popping the next report: it is still hot, and afterwards every report so far is gone. */
  lemma PoppedOnce(reports: seq<string>, k: nat, hot: map<string, string>)
    requires Distinct(reports) && k < |reports| && forall f :: f in reports ==> f in hot
    ensures reports[k] in hot - (set f | f in reports[..k])
    ensures var before, after := reports[..k], reports[..k + 1];
      (hot - (set f | f in before)) - {reports[k]} == hot - (set f | f in after)
  {
    assert reports[k] !in reports[..k];
    assert reports[..k + 1] == reports[..k] + [reports[k]];
  }

  lemma MovedStep(reports: seq<string>, k: nat, base: string, id: nat, doi: string)
    requires k < |reports|
    ensures reports[..k + 1] == reports[..k] + [reports[k]]
    ensures Moved(reports[..k + 1], base, id, doi)
      == Moved(reports[..k], base, id, doi)[reports[k] := Deposited(FileUrl(base, id, reports[k]), DoiUrl(doi))]
  {
    assert reports[..k + 1] == reports[..k] + [reports[k]];
  }

  /** The deletions stop at `k` when the first `k` succeed and the next one (if any) fails. */
  lemma RemovableIs(reports: seq<string>, remove: string -> bool, k: nat)
    requires k <= |reports|
    requires forall i :: 0 <= i < k ==> remove(reports[i])
    requires k == |reports| || !remove(reports[k])
    ensures Removable(reports, remove) == k
  {
  }

  lemma MergeUpdate(cold: map<string, Deposited>, m: map<string, Deposited>, f: string, e: Deposited)
    ensures (cold + m)[f := e] == cold + m[f := e]
  {
  }

  /**
   * The move loop, on the index as loaded: each report is popped from the hot map, given its
   * cold entry, and its file deleted, until a deletion fails. `removed` lists the deleted
   * files; when it holds every report, `hot'` and `cold'` are the index to save.
   */
  method MoveReports(reports: seq<string>, hot: map<string, string>, cold: map<string, Deposited>,
                     base: string, id: nat, doi: string, remove: string -> bool)
    returns (hot': map<string, string>, cold': map<string, Deposited>, removed: seq<string>)
    requires Distinct(reports) && forall f :: f in reports ==> f in hot
    ensures removed == reports[..Removable(reports, remove)]
    ensures |removed| == |reports| ==>
      hot' == hot - (set f | f in reports) && cold' == cold + Moved(reports, base, id, doi)
  {
    hot', cold', removed := hot, cold, [];
    for k := 0 to |reports|
      invariant removed == reports[..k]
      invariant forall i :: 0 <= i < k ==> remove(reports[i])
      invariant hot' == hot - (set f | f in reports[..k])
      invariant cold' == cold + Moved(reports[..k], base, id, doi)
    {
      var f := reports[k];
      PoppedOnce(reports, k, hot);
      hot' := hot' - {f};
      cold' := cold'[f := Deposited(FileUrl(base, id, f), DoiUrl(doi))];
      MovedStep(reports, k, base, id, doi);
      MergeUpdate(cold, Moved(reports[..k], base, id, doi), f, Deposited(FileUrl(base, id, f), DoiUrl(doi)));
      if !remove(f) {
        RemovableIs(reports, remove, k);
        return;
      }
      removed := removed + [f];
    }
    RemovableIs(reports, remove, |reports|);
    assert reports[..|reports|] == reports;
  }

  /**
   * The rest of archive_reports' `try` block once the deposition has been asked for: the upload
   * loop, the publish request and the move loop, over the index as loaded. `hot'` and `cold'`
   * are the index to save when the result is a DOI.
   */
  method DepositReports(reports: seq<string>, dir: Directory, z: Zenodo, dep: Option<Deposition>,
                        hot: map<string, string>, cold: map<string, Deposited>)
    returns (r: Result<Option<string>, ArchiveError>, removed: seq<string>,
             hot': map<string, string>, cold': map<string, Deposited>)
    requires Distinct(reports) && forall f :: f in reports <==> f in hot
    ensures r == Deposit(reports, dir, z, dep).result
    ensures removed == Deposit(reports, dir, z, dep).removed
    ensures r.Ok? ==> r.value.Some? && hot' == map[] && cold' == cold + Deposit(reports, dir, z, dep).moved
  {
    hot', cold', removed := hot, cold, [];
    if dep.None? {
      return Err(CreateFailed), removed, hot', cold';
    }
    var id, bucket := dep.value.id, dep.value.bucket;
    var failure := Upload(reports, dir, bucket, z.put);
    if failure.Some? {
      return Err(failure.value), removed, hot', cold';
    }
    var doi := z.publish(PublishUrl(z.baseUrl, id));
    if doi.None? {
      return Err(PublishFailed), removed, hot', cold';
    }
    hot', cold', removed := MoveReports(reports, hot, cold, z.baseUrl, id, doi.value, z.remove);
    if |removed| < |reports| {
      return Err(RemoveFailed(reports[|removed|])), removed, hot', cold';
    }
    assert hot' == map[] by {
      assert hot'.Keys == hot.Keys - (set f | f in reports);
    }
    r := Ok(Some(doi.value));
  }

  // ---------------------------------------------------------------- the index

  /**
   * The contents of the index file: github_reports, zenodo_reports and last_archive, with
   * `order` the order of github_reports' keys (a Python dict keeps its insertion order, and
   * that order is what the stable sort starts from).
   */
  datatype Index = Index(
    github: map<string, string>,
    order: seq<string>,
    zenodo: map<string, Deposited>,
    lastArchive: Option<string>)
  {
    /** `order` lists each hot report exactly once. */
    ghost predicate Valid() {
      Distinct(order) && forall f :: f in github <==> f in order
    }

    /** What the index is meant to keep: no report is both hot and cold. */
    predicate Disjoint() {
      forall f :: f in github ==> f !in zenodo
    }
  }

  /** The index archive_reports saves after `run`: every hot report moved, or no change. */
  function Saved(ix: Index, run: Run, stamp: string): Index {
    if run.Archived() then Index(map[], [], ix.zenodo + run.moved, Some(stamp)) else ix
  }

  /** add_report keeps the index disjoint exactly when the report is not already cold. */
  lemma AddKeepsDisjoint(ix: Index, f: string, url: string)
    requires ix.Disjoint()
    ensures ix.(github := ix.github[f := url]).Disjoint() <==> f !in ix.zenodo
  {
    if f in ix.zenodo {
      assert f in ix.(github := ix.github[f := url]).github;
    }
  }

  /**
   * A deposit moves the whole hot side: nothing stays hot, every report that was hot is cold
   * with the entry the run made for it (`ArchivedEntries` says which), and the other cold
   * entries are kept.
   */
  lemma SavedMoves(ix: Index, run: Run, stamp: string)
    requires ix.Valid() && run.Archived() && forall f :: f in run.moved <==> f in ix.order
    ensures var after := Saved(ix, run, stamp);
      after.github == map[] && after.order == [] && after.lastArchive == Some(stamp)
      && (forall f :: f in ix.zenodo && f !in ix.github ==> f in after.zenodo && after.zenodo[f] == ix.zenodo[f])
      && forall f :: f in ix.github ==> f in after.zenodo && after.zenodo[f] == run.moved[f]
  {
    var after := Saved(ix, run, stamp);
    forall f | f in ix.zenodo && f !in ix.github
      ensures f in after.zenodo && after.zenodo[f] == ix.zenodo[f]
    {
      assert f !in ix.order;
      assert f !in run.moved;
    }
    forall f | f in ix.github
      ensures f in after.zenodo && after.zenodo[f] == run.moved[f]
    {
      assert f in ix.order;
      assert f in run.moved;
    }
  }

  /**
   * Cold entries are never dropped, the index stays well formed, and a disjoint index stays
   * disjoint; a run that does not archive leaves the index as it was.
   */
  lemma SavedKeeps(ix: Index, run: Run, stamp: string)
    requires ix.Valid()
    ensures var after := Saved(ix, run, stamp);
      after.Valid() && ix.zenodo.Keys <= after.zenodo.Keys
      && (ix.Disjoint() ==> after.Disjoint())
      && (!run.Archived() ==> after == ix)
  {
  }

  // ---------------------------------------------------------------- the manager

  /** The archive manager and the index file it loads and saves. */
  class ArchiveManager {
    var index: Index
    const threshold: int  // max_reports_before_archive

    /** A manager whose index file does not exist yet: `_init_index` writes an empty one. */
    constructor (threshold: int)
      ensures index == Index(map[], [], map[], None) && index.Valid() && index.Disjoint()
      ensures this.threshold == threshold
    {
      index := Index(map[], [], map[], None);
      this.threshold := threshold;
    }

    /** The URL a report is served from: GitHub while it is hot, else its file on Zenodo. */
    function GetReportUrl(f: string): (url: Option<string>)
      reads this
      ensures url.Some? <==> f in index.github || f in index.zenodo
      ensures f in index.github ==> url == Some(index.github[f])
      ensures f !in index.github && f in index.zenodo ==> url == Some(index.zenodo[f].url)
    {
      if f in index.github then Some(index.github[f])
      else if f in index.zenodo then Some(index.zenodo[f].url)
      else None
    }

    /** Whether as many reports as the threshold (or more) wait to be archived. */
    function NeedsArchival(): (due: bool)
      reads this
      requires index.Valid()
      ensures due <==> |index.order| >= threshold
    {
      assert index.github.Keys == set f | f in index.order;
      DistinctCard(index.order);
      |index.github| >= threshold
    }

    /** Records a report's GitHub URL, replacing an earlier one; the cold entries are untouched. */
    method AddReport(f: string, url: string)
      requires index.Valid()
      modifies this
      ensures index.Valid()
      ensures index.github == old(index.github)[f := url]
      ensures index.order == if f in old(index.github) then old(index.order) else old(index.order) + [f]
      ensures index.zenodo == old(index.zenodo) && index.lastArchive == old(index.lastArchive)
      ensures GetReportUrl(f) == Some(url)
      ensures forall g :: g != f ==> GetReportUrl(g) == old(GetReportUrl(g))
    {
      var order := if f in index.github then index.order else index.order + [f];
      index := index.(github := index.github[f := url], order := order);
    }

    /**
     * Moves every hot report into one new Zenodo deposit, oldest first, and returns its DOI;
     * returns None when nothing is hot. The index changes only when the whole run succeeds,
     * though report files deleted before a failing deletion stay deleted.
     */
    method ArchiveReports(dir: Directory, z: Zenodo)
      returns (r: Result<Option<string>, ArchiveError>, removed: seq<string>)
      requires index.Valid()
      modifies this
      ensures index.Valid()
      ensures r == ArchiveRun(old(index).order, dir, z).result
      ensures removed == ArchiveRun(old(index).order, dir, z).removed
      ensures index == Saved(old(index), ArchiveRun(old(index).order, dir, z), z.stamp)
    {
      ghost var run := ArchiveRun(index.order, dir, z);
      SavedKeeps(index, run, z.stamp);
      removed := [];
      var reports := SortByCtime(index.order, dir);
      if reports == [] {
        assert run == Run(Ok(None), [], None, map[]);
        return Ok(None), removed;
      }
      var dates := Dates(reports, dir, z.dateOf);
      if dates == [] {
        assert run == Run(Err(NoDates), [], None, map[]);
        return Err(NoDates), removed;
      }
      var metadata := BuildMetadata(reports, dates, z.today);
      var dep := z.create(metadata);
      assert run == Deposit(reports, dir, z, dep);
      assert Distinct(reports) && forall f :: f in reports <==> f in index.github by {
        SortedMembers(index.order, dir);
        MultisetDistinct(index.order, reports);
      }
      var hot, cold;
      r, removed, hot, cold := DepositReports(reports, dir, z, dep, index.github, index.zenodo);
      if r.Ok? {
        index := Index(hot, [], cold, Some(z.stamp));
      }
    }
  }
}
