# OpenCitations crowdsourcing: issue triage and the report archive

A Dafny model of the core of the OpenCitations crowdsourcing service.

**Triage (process_issues.py).** Contributors deposit citation data by opening a GitHub issue:

- The issue's title reads `deposit <domain> <schema>:<identifier>`.
- Its body holds a metadata CSV and a citations CSV, divided by the separator `===###===@@@===`.

The triage run then works as follows:

- It lists the open issues labelled `deposit`, making up to three attempts at the GitHub API.
- It looks up each author's numeric id and turns away authors whose id is not a line of `safe_list.txt`.
- For everyone else it validates the title and the body.
- Every issue is labelled, answered with a comment and closed.
- The data of valid issues is collected and deposited in one batch.

**Archive (crowdsourcing/archive_manager.py).** The validation reports the service publishes are tracked in an index:

- "Hot" reports are served from GitHub Pages.
- "Cold" reports have been moved into a Zenodo deposit.
- `archive_reports` moves every hot report, oldest first, into one new published deposit. Then it updates the index and deletes the local files.

Modules, one per concern of the source:

| module | file | what it holds |
|---|---|---|
| `Text` | text.dfy | Python's `str.strip`, `in`, `split`, `join`, `lower`/`upper`, `str(int)` and string `min`/`max` |
| `Messages` | messages.dfy | every message the script posts, as a value, with its exact text |
| `Title` | title.dfy | `_validate_title`: the title regular expression as a backtracking search, the schema table and the identifier check |
| `Validation` | validation.dfy | `validate` |
| `Notify` | notify.dfy | `answer` |
| `Fetch` | fetch.dfy | the two retry loops, `get_user_id` and `get_open_issues` |
| `Intake` | intake.dfy | `get_data_to_store` and `is_in_safe_list` |
| `Triage` | triage.dfy | `process_open_issues` |
| `Archive` | archive.dfy | `ArchiveManager` and its index |

Each loop of the source is a method proved equal to a specification function. Its comprehensions and generator expressions (the conversion of the listed issues, the set of safe-list lines, the earliest and latest dates) are functions. The properties the source promises are proved as lemmas about those functions.

Everything outside the script is a parameter:

- the GitHub and Zenodo responses, as functions from the request (or the attempt number) to its outcome;
- the clock;
- the contents of `safe_list.txt`;
- the identifier managers and the closure validator;
- the CSV reader;
- the file system, as a map from report name to creation time, plus a predicate saying which deletions succeed.

The sleeps a loop makes are returned as a log.

## Model

| member | source | states |
|---|---|---|
| Text.Split | process_issues.py:142 | `str.split(sep)`: joining the parts with `sep` gives the text back, no part contains `sep`, there is one part exactly when `sep` does not occur, and otherwise the first part is the text before the first occurrence |
| Text.Strip | process_issues.py:143-144 | the result neither starts nor ends with whitespace and is the text with its leading and trailing whitespace cut off |
| Text.StripIdempotent | process_issues.py:143-144 | stripping twice is stripping once |
| Text.Contains | process_issues.py:130 | `sub in s` holds exactly when `sub` occurs at some position of `s` |
| Text.IndexFrom | process_issues.py:142 | the first occurrence of the separator at or after a position, none exactly when it does not occur there |
| Text.IntToStringInjective | process_issues.py:525 | `str` of an integer determines the integer |
| Text.MinString | crowdsourcing/archive_manager.py:135-141 | `min` of a non-empty list of strings is one of them and no greater than any, in Python's ordering of strings |
| Text.MaxString | crowdsourcing/archive_manager.py:142-148 | `max` is one of them and no smaller than any |
| Messages.ErrorLines | process_issues.py:166-192 | the error lines are empty exactly when both summaries are; the blank line appears exactly when both blocks do; the metadata header and summary come first, the citations header and summary last |
| Messages.FindingsLayout | process_issues.py:166-208 | the error comment is the header and summary of each block joined by line feeds, metadata first, one blank line between the blocks |
| Messages.TextsDiffer | process_issues.py:98-232 | messages of different kinds never have the same text, so a comment tells which check failed |
| Messages.ThankYouTextIff | process_issues.py:210-213 | only the thank-you message reads as the thank-you message |
| Title.TitleMatch | process_issues.py:64-68 | the match reported satisfies the title pattern and is the first in the regular-expression engine's order; there is none exactly when no placement of the groups fits |
| Title.SchemaNamed | process_issues.py:74-85 | the schema whose name is the token, none exactly when no schema of the table has that name |
| Title.ValidateTitle | process_issues.py:51-103 | an accepted title carries the blank message, and every verdict carries one of the title messages |
| Title.BadFormatIffNoMatch | process_issues.py:53-62 | the format message is returned exactly when no part of the title matches the pattern |
| Title.AcceptedIff | process_issues.py:85-103 | a title is accepted exactly when it matches, its lower-cased schema token names a supported schema, and that schema's manager accepts the identifier; every manager but ISBN's uses the online API |
| Title.UnsupportedSchemaReported | process_issues.py:85-87 | a token outside the schema table is reported by name |
| Title.InvalidIdentifierReported | process_issues.py:97-101 | a supported schema whose manager rejects the identifier is reported with the identifier and the schema token as the title spells them |
| Title.StructuredTitleMatch | process_issues.py:64-71 | for `deposit <domain> <token>:<identifier>` with a whitespace-free domain, the groups are the lower-cased token and the identifier |
| Title.MissingDomainRejected | test/test_process_issues.py:80-85 | `deposit doi:<identifier>`, without a domain, fails the format check |
| Title.BlankDomainAccepted | process_issues.py:53-71 | `deposit   doi:<identifier>`, with three spaces, passes the format check with a one-space domain |
| Validation.Sections | process_issues.py:142-144 | the metadata section is the stripped text before the first separator; the citations section is the stripped text after it, up to the next separator or the end of the body |
| Validation.ErrorList | process_issues.py:166-192 | the loop that assembles the error lines builds exactly `ErrorLines` |
| Validation.CheckBody | process_issues.py:129-222 | the body check returns the verdict of the body specification |
| Validation.Validate | process_issues.py:106-232 | `validate` returns the outcome of its specification: the title check first, then the body check, or the `TypeError` of a `null` body |
| Validation.OutcomeOfText | process_issues.py:124-130 | on a body with text, `validate` returns the verdict of the title-then-body specification |
| Validation.NullBodyRaisesIff | process_issues.py:124-130 | a `null` body raises the `TypeError` of the separator test exactly when the title is accepted; a rejected title is reported unchanged |
| Validation.TitleFailureFirst | process_issues.py:123-127 | a rejected title's verdict is returned as is, whatever the body |
| Validation.MissingSeparatorReported | process_issues.py:129-135 | with an accepted title, the separator message is returned exactly when the body lacks the separator |
| Validation.AcceptedIff | process_issues.py:123-213 | an issue is valid exactly when its title is accepted, the separator is present, the validator completes and neither summary has content |
| Validation.ThankYouIffValid | process_issues.py:207-213 | the thank-you message is given exactly for a valid issue, and its text alone tells a valid issue apart |
| Validation.VerdictWellFormed | process_issues.py:207-208 | findings are reported only when at least one summary has content |
| Validation.ExtraSectionsIgnored | process_issues.py:142-144 | with more than one separator, only the first two sections reach the validator |
| Notify.ChooseLabel | process_issues.py:247-252 | "rejected" exactly for an unauthorised author, "invalid" exactly for an authorised author's invalid issue, "to be processed" exactly for an authorised author's valid issue |
| Notify.Issue | process_issues.py:263-291 | the calls are made in order until one raises; the outcome is an error exactly when a call raised, and then it is that call's error |
| Notify.Answer | process_issues.py:235-291 | `answer` makes the label, comment and close calls of its plan, stopping at the first that raises |
| Notify.AnswerSequence | process_issues.py:263-291 | the label call goes first; the comment goes out only if labelling returned, closing only if commenting returned; `answer` completes exactly when all three returned |
| Notify.StatusIgnored | process_issues.py:263-291 | status codes never matter: only the calls that raise do |
| Fetch.Attempts | process_issues.py:306-338 | the retry loop sends at least one request and at most three, and sleeps at most once per request |
| Fetch.GetUserId | process_issues.py:294-338 | `get_user_id` returns, after the same requests and sleeps, what the retry loop over `UserStep` gives |
| Fetch.ConvertIssue | process_issues.py:554-562 | an issue converts exactly when every key is present, and then with its fields as given (a `null` body kept as `None`) and its number rendered by `str` |
| Fetch.ConvertIssues | process_issues.py:553-564 | the list converts exactly when every issue does, element by element and in order |
| Fetch.IssuesAttempt | process_issues.py:552-591 | one iteration of `get_open_issues` decides as `IssuesStep` does |
| Fetch.GetOpenIssues | process_issues.py:530-593 | `get_open_issues` returns, after the same requests and sleeps, what the retry loop over `IssuesStep` gives |
| Fetch.FirstDoneDecides | process_issues.py:306-338 | the loop returns what the first deciding iteration decides, after that many requests |
| Fetch.NoneDecides | process_issues.py:540-593 | when no iteration decides, the loop sends three requests and falls through to its fallback |
| Fetch.UserRateLimitedThenFound | test/test_process_issues.py:252-289 | a rate-limited lookup sleeps until the reset time once, then finds the user on the second request |
| Fetch.UserConnectionErrors | test/test_process_issues.py:311-326 | three connection errors give `None` after three requests and three five-second sleeps |
| Fetch.UserTimeoutsThenFound | test/test_process_issues.py:339-358 | read timeouts are retried without sleeping |
| Fetch.UserNotFound | process_issues.py:318-319 | an unknown user is reported as `None` after one request |
| Fetch.IssuesRateLimitedThenListed | test/test_process_issues.py:419-465 | a pending rate limit on the issue list is waited out once, then the list is returned |
| Fetch.IssuesExpiredRateLimit | test/test_process_issues.py:502-543 | a rate limit whose reset time has passed is retried at once, without sleeping |
| Fetch.IssuesNetworkErrors | test/test_process_issues.py:467-476 | three request exceptions give the "Failed to fetch issues after 3 attempts" error, after two sleeps |
| Fetch.IssuesNothingDecisive | test/test_process_issues.py:479-497 | three responses that decide nothing give an empty list after three requests |
| Intake.DataToStoreOkIff | process_issues.py:363-387 | data is kept exactly when the body splits into exactly two sections that both read as non-empty CSV; it is then the title, both row lists and the issue's provenance |
| Intake.DataToStoreErrorPrefix | process_issues.py:388-389 | every failure is reported with the prefix "Failed to process issue data: " |
| Intake.SameSectionsAsValidation | process_issues.py:365-367 | with exactly one separator, the sections read here are the texts `validate` passed to the validator |
| Intake.TwoSeparatorsNotStored | process_issues.py:365-367 | a body with a second separator passes `validate`'s separator check, but its data fails to unpack |
| Intake.WellFormedBodyStored | test/test_process_issues.py:147-166 | `meta + separator + cits` is kept with exactly the rows read from the stripped sections |
| Intake.InSafeListIff | process_issues.py:523-525 | a user is trusted exactly when some stripped line of the file is their printed id |
| Intake.NoFileNoOne | process_issues.py:526-527 | without the file nobody is trusted |
| Intake.IdTextInjective | process_issues.py:525 | two users' printed ids, `None` included, never coincide |
| Intake.ListedUserTrusted | test/test_process_issues.py:237-240 | a file with the user's id on one of its lines trusts that user |
| Triage.HandleOne | process_issues.py:609-656 | one iteration of the loop does what its specification says: the lookup, the safe-list check, then the trusted author's steps |
| Triage.HandleTrusted | process_issues.py:628-656 | for a trusted author: validate (a `null` body raises before any call), answer, then keep the data of a valid issue if it can be read |
| Triage.ProcessOpenIssues | process_issues.py:596-673 | `process_open_issues` makes the calls, keeps the data and deposits as `Process` specifies |
| Triage.FailureSticks | process_issues.py:669-671 | once an exception is raised, the later issues change nothing |
| Triage.QuietTriage | process_issues.py:608-656 | without exceptions, the loop makes every iteration's calls and keeps every iteration's data, in order |
| Triage.StopsAtFirstFailure | process_issues.py:608-671 | the first exception ends the run: the calls up to the raising iteration are made and the earlier data is kept |
| Triage.FailureIff | process_issues.py:608-671 | the loop raises exactly when some iteration does |
| Triage.KeptOfMembers | process_issues.py:642-656 | the kept data is exactly what the iterations kept, at most one entry per issue |
| Triage.AnsweredIssue | process_issues.py:612-656 | once the author is known and GitHub answers, an untrusted author's issue is rejected with the trusted-user message, and a trusted author's issue whose `validate` raises gets no call and raises, and any other issue is answered with `validate`'s verdict; its data is kept exactly when the author is trusted, the issue is valid and the data can be read |
| Triage.LookupFailureRaises | process_issues.py:612-614 | a failed author lookup raises before any call is made |
| Triage.NullBodyRaises | process_issues.py:628-634 | a trusted author's issue with an accepted title and a `null` body raises before any call is made for it |
| Triage.CallsArePlans | process_issues.py:609-641 | when GitHub answers every call, each iteration makes exactly its issue's label, comment and close calls |
| Triage.ProcessCalls | process_issues.py:603-671 | a run that lists the issues makes the calls of its loop, whether or not it raises |
| Triage.EveryIssueAnswered | process_issues.py:603-656 | in a run without exceptions where GitHub answers, every listed issue is answered exactly as planned, in order |
| Triage.NullBodyAbortsRun | process_issues.py:628-671 | an issue with a `null` body and an accepted title, from a trusted author, aborts the run after the earlier issues' calls, with nothing deposited |
| Triage.DepositedIff | process_issues.py:658-667 | a run deposits exactly when the issues were listed, nothing raised and some data was kept; it deposits every kept payload, in order |
| Triage.ListingFailureRaises | test/test_process_issues.py:969-976 | when listing the issues fails, nothing else happens |
| Triage.NoIssuesNoDeposit | test/test_process_issues.py:961-966 | with no open issues nothing is answered and nothing deposited |
| Triage.OneIssueRun | process_issues.py:603-667 | a run over one issue is its iteration, then the deposit of what it kept |
| Triage.TrustedValidIssueDeposited | test/test_process_issues.py:865-899 | a trusted author's valid issue is labelled "to be processed", thanked, and deposited with the author's id |
| Triage.TrustedValidIssueKept | process_issues.py:628-656 | a trusted author's valid issue is thanked and its data, attributed to the author, is kept |
| Triage.ThankedVerdict | process_issues.py:124-213 | a body with text and a positive verdict gets the thank-you verdict |
| Triage.UntrustedIssueRejected | test/test_process_issues.py:901-931 | an untrusted author's issue is labelled "rejected" with the trusted-user message, and nothing is deposited |
| Triage.MissingSeparatorIssueInvalid | test/test_process_issues.py:933-958 | a trusted author's issue without the separator is labelled "invalid" with the separator message |
| Triage.SecondSeparatorThankedNotKept | process_issues.py:634-656 | a valid issue with a second separator is thanked and closed, yet its data is not kept |
| Archive.SortByCtime | crowdsourcing/archive_manager.py:116-123 | the sorted reports are a permutation of the hot reports |
| Archive.SortAscending | crowdsourcing/archive_manager.py:116-123 | the reports are in ascending creation time, missing files (key 0) first |
| Archive.SortStable | crowdsourcing/archive_manager.py:116-123 | reports with equal keys keep their index order, as Python's stable sort keeps it |
| Archive.DigitRun | crowdsourcing/archive_manager.py:158 | `\d+` takes the whole run of digits |
| Archive.IssueNumber | crowdsourcing/archive_manager.py:158-160 | there is no number exactly when the pattern matches nowhere; otherwise it is the number of the leftmost match, found only in a name that contains `validation_issue_` |
| Archive.SearchFrom | crowdsourcing/archive_manager.py:158 | `re.search` from a position: nothing exactly when no match starts there or later, otherwise the leftmost such match |
| Archive.IssueNumberOfReportName | crowdsourcing/archive_manager.py:158-160 | the number read back from `validation_issue_<n>.html` is `n` |
| Archive.NumbersOf | crowdsourcing/archive_manager.py:156-160 | the list holds the issue number of every report that has one, and nothing else |
| Archive.IssueNumbers | crowdsourcing/archive_manager.py:156-160 | the loop builds exactly that list |
| Archive.IssueRange | crowdsourcing/archive_manager.py:162-163 | the least and the greatest issue number, both 0 when there is none |
| Archive.Dates | crowdsourcing/archive_manager.py:135-148 | the dates are exactly those of the hot reports whose file exists; there are none exactly when no such file exists |
| Archive.SpanForms | crowdsourcing/archive_manager.py:149-153 | the date range reads "on d" exactly when the first and last dates agree, and "from …" otherwise |
| Archive.MetadataSummarises | crowdsourcing/archive_manager.py:135-171 | the metadata gives the issue range, the number of reports, the earliest and the latest date, and the publication date |
| Archive.BuildMetadata | crowdsourcing/archive_manager.py:131-171 | the method builds that metadata |
| Archive.UploadFailure | crowdsourcing/archive_manager.py:180-189 | the upload loop fails exactly when some report is missing or its upload fails |
| Archive.Upload | crowdsourcing/archive_manager.py:180-189 | the loop stops at that first failure |
| Archive.Removable | crowdsourcing/archive_manager.py:204-213 | the deletions succeed up to the first one that fails |
| Archive.MoveReports | crowdsourcing/archive_manager.py:204-213 | the move loop deletes a leading run of the reports; when it deletes all of them, nothing is left hot and every report has its cold entry |
| Archive.DepositReports | crowdsourcing/archive_manager.py:173-218 | the rest of the `try` block gives the result, the deletions and, on success, the new index of `Deposit` |
| Archive.ArchivedIff | crowdsourcing/archive_manager.py:125-218 | a deposit is published and the index updated exactly when something is hot, every hot file exists, the deposition is created, every upload and the publish succeed, and every deletion succeeds |
| Archive.NothingHotIff | crowdsourcing/archive_manager.py:125-126 | `None` is returned exactly when nothing is hot, and then nothing is created, deleted or moved |
| Archive.MissingFileFails | crowdsourcing/archive_manager.py:183 | a missing report file makes the archive fail before any file is deleted |
| Archive.ArchivedEntries | crowdsourcing/archive_manager.py:204-211 | after a deposit every hot report has the file URL in the new record and the DOI URL as its cold entry |
| Archive.RemovedBeforeFailure | crowdsourcing/archive_manager.py:204-222 | a failed archive deletes files only when a deletion itself fails, and only hot reports |
| Archive.AddKeepsDisjoint | crowdsourcing/archive_manager.py:103 | adding a report keeps the hot and cold sides disjoint exactly when it is not already cold |
| Archive.SavedMoves | crowdsourcing/archive_manager.py:204-216 | after a deposit nothing is hot, every hot report is cold with its new entry, other cold entries are kept, and the archive time is recorded |
| Archive.SavedKeeps | crowdsourcing/archive_manager.py:215-222 | cold entries are never dropped, a disjoint index stays disjoint, and a run that does not publish a deposit leaves the index as it was |
| Archive.ArchiveManager.constructor | crowdsourcing/archive_manager.py:54-76 | a manager without an index file starts from an empty index |
| Archive.ArchiveManager.GetReportUrl | crowdsourcing/archive_manager.py:233-244 | a hot report's GitHub URL, otherwise a cold report's file URL, otherwise none |
| Archive.ArchiveManager.NeedsArchival | crowdsourcing/archive_manager.py:252-256 | archival is due exactly when at least the threshold number of reports is hot |
| Archive.ArchiveManager.AddReport | crowdsourcing/archive_manager.py:88-104 | the report's GitHub URL is recorded, replacing an earlier one; the URL of every other report is unchanged |
| Archive.ArchiveManager.ArchiveReports | crowdsourcing/archive_manager.py:106-222 | the result, the deleted files and the saved index are those of the archive run over the hot reports |

## Left out

- HTTP plumbing, logging, temporary CSV files, the `validation_output` directory and its removal: the model keeps only what they decide.
- `deposit_on_zenodo` and its helpers (`_create_deposition_resource`, `_upload_data`, `_get_zenodo_token`, the Zenodo base URL): the deposit is a parameter that returns the exception it raised, if any.
- The identifier managers and `ClosureValidator`: parameters. The validator's summaries are values, not files on disk.
- `csv.DictReader`: a parameter from the stripped section to its rows, or the error it raised.
- Loading the YAML configuration, and loading or saving the index JSON: the index is the manager's field. The constructor models only a missing index file, which `_init_index` creates. An existing index file is not read.
- The contents of the configured metadata template: only the four fields `archive_reports` sets are modelled.
- Creation times are natural numbers of seconds. `strftime` and `isoformat` are parameters.
- The `int()` conversion of the rate-limit headers: headers are already integers, so a malformed header's `ValueError` is not modelled.
- Reading `GH_TOKEN` from the environment: the token is taken to be present, so its `KeyError` is not modelled.
- `time.sleep`: the sleeps are returned as a log, in order.
- Unicode: `\s` is the full `str.isspace` set, but `\d` in the report-name pattern and `str.lower`/`str.upper` are modelled on ASCII only.
- Title.TitleMatch: `re.IGNORECASE` also matches some non-ASCII letters against ASCII ones, and the model does not: `ſ` (U+017F) against `s`, `ı` (U+0131) and `İ` (U+0130) against `i`, and the Kelvin sign (U+212A) against `k`, both in `deposit` and in `[a-zA-Z]+`. A title such as `depoſit` or a schema token spelt with the Kelvin sign (which `.lower()` turns into `k`, so the Kelvin-sign spelling of `wikidata` names Wikidata) is accepted by the source and rejected by the model.
- JSON `null` in an issue field other than `body`: the title, login, number, creation time and URL are always present values here. In the source a `null` user raises a `TypeError` in `get_open_issues`, and a `null` title raises one in `validate`. GitHub's API does not send `null` for these fields.
- Title.ValidateTitle: its own contract states only that an accepted title carries the blank message and that every verdict is a title message. The full behaviour is in `Title.BadFormatIffNoMatch`, `Title.UnsupportedSchemaReported`, `Title.InvalidIdentifierReported` and `Title.AcceptedIff`.
- The format check at process_issues.py:53-62 uses the same pattern as process_issues.py:64-68, without two of its capture groups, so both accept the same titles. The model runs one search for both.
- Concurrency with other processes that edit the index file: not modelled.

## Notes on behaviour

These follow the code, and the model reproduces each one:

- **A second separator.** An issue whose body holds a second separator passes `validate`, which ignores everything after the second separator, and is thanked and labelled "to be processed". `get_data_to_store` then fails to unpack three sections into two, so the data is silently not kept. See `Intake.TwoSeparatorsNotStored` and `Triage.SecondSeparatorThankedNotKept`.
- **A blank domain.** The title pattern `deposit\s+(.+?)\s+...` backtracks. With three spaces after `deposit`, one space becomes the domain, so a title with no domain can still be accepted. See `Title.BlankDomainAccepted`.
- **The archival threshold.** The docstring of `needs_archival` says the number of reports must exceed the threshold, but the code archives when the number reaches it (`>=`). The model follows the code.
- **Missing files during archiving.** A hot report whose file is missing sorts first (key 0). It is left out of the date range, and the upload loop then fails on it before anything is deleted.
- **A missing rate-limit reset header.** In `get_user_id` it raises a `KeyError` that escapes. In `get_open_issues` the same `KeyError` is caught and retried like a request exception.
