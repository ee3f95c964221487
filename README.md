# Open edX grade-report automation — a Dafny model

The system drives an Open edX instance over HTTP. It has three parts:

- `main.py` signs in with a CSRF token and a login form, lists the courses and asks the platform to generate one grade report per course. Each request is retried with doubling back-off, and the run ends with an exit code.
- `course_reports.py` reads the catalog of public courses. It scans a directory tree for report files named `<course>_<kind>_<YYYY-MM-DD-HHMM>.csv` and joins the newest file of each course and report kind into a summary table.
- `nicegui_reports.py` is a dashboard over that summary. It offers drop-down filters by course, report type and course run, a slider for the age of the report in days, and it hides rows without a file.

## How the model is built

- **HTTP.** The HTTP session is the class `Http.Session`.
  - Its fields are the cookie jar, the default headers, the replies still to come (a script given by the caller) and the log of requests sent.
  - Header names are stored lower-cased, as in a case-insensitive dictionary.
  - Each request consumes one scripted reply. An exhausted script reads as a transport error.
  - `Http.Wire` and `Http.Exchange` are the pure counterparts of that state and of one request.
- **Network operations.** Every network operation is written twice:
  - a pure function over `Wire` (for example `Login.LoginFlow` or `Catalog.CatalogFrom`) that serves as its specification;
  - a method on `Session` that does the work step by step with the same branches and loops as the source. Its `ensures` ties the new session state and the result to that function.
  - The promised properties are lemmas about the functions: which requests go out in which order, when sign-in succeeds, the 10-page cap, partial results, and the retry schedule.
- **Pure parts.** Course identifiers, file names and timestamps, and the summary join are pure functions with lemmas:
  - a round trip of the timestamp format;
  - the shape of identifiers that are accepted and of those that are rejected;
  - the newest report wins;
  - every course and report kind that has a file gets a row.
- **Dashboard.** `Dashboard.ReportsApp` is a class with the fields the filter code updates.
  - `UpdateFilters` rebuilds the option lists and the slider bound.
  - `ApplyFilters` narrows the table one filter at a time, through the method `Mask`. It is proved equal to the reference definition `Select`, in which a row is kept exactly when every active filter keeps it.
- **Parameters.** Sleeps are returned as the list of delays they would wait. The base URL, user name, password and current time are parameters. The directory walk is an input value.
- **Notes on the code.**
  - The catalog reader in `course_reports.py` raises an error on the first bad page and has no page cap. Only the one in `main.py` keeps partial results and stops after 10 pages.
  - The loop in `course_reports.py` ends only when a page's `next` is falsy, so it never ends while the server keeps pointing on. `PublicCatalog.PublicFrom` ends because each request consumes one scripted reply; the script is finite.
  - A status from 400 to 599 raises, as `raise_for_status` does.
  - The token-issuing endpoint is used only when the home page set no `csrftoken` cookie.

## Model

| member | source | states |
|---|---|---|
| Sanitizer.RemoveSpaces | main.py:73 | the result has no whitespace, is no longer than the input, and equals the input when it held none |
| Sanitizer.RemoveSpacesChar | main.py:73 | one character is dropped exactly when it is whitespace |
| Sanitizer.RemoveSpacesAppend | main.py:73 | removing whitespace from a concatenation concatenates the results, so the output is the input's non-whitespace characters in order |
| Sanitizer.QuoteChar | main.py:79 | percent-encoding one character yields only safe characters (letters, digits, `_.-~:/+`) and `%` |
| Sanitizer.Quote | main.py:79 | quoted text holds only safe characters and `%`; text of safe characters is left unchanged |
| Sanitizer.PercentBytes | main.py:79 | every byte becomes exactly three characters |
| Sanitizer.PercentBytesAlphabet | main.py:79 | the escapes consist of `%` and hexadecimal digits only |
| Sanitizer.HexDigit | main.py:79 | the digit written for a value in 0..15 reads back as that value |
| Sanitizer.Utf8 | main.py:79 | a character encodes as one to four UTF-8 bytes, and ASCII as itself |
| Sanitizer.DecodePercentBytes | main.py:79 | decoding the escapes of a byte string gives back those bytes, before any following text |
| Sanitizer.DecodeQuoteChar | main.py:79 | decoding one quoted character gives its UTF-8 bytes |
| Sanitizer.DecodeQuote | main.py:79 | percent-decoding quoted text returns its UTF-8 encoding: quoting loses nothing |
| Sanitizer.SanitizedAlphabet | main.py:67-81 | a sanitized course id contains only safe characters and `%`, never whitespace |
| Sanitizer.SanitizeRoundTrip | main.py:72-81 | decoding a sanitized id yields the id with whitespace removed and the typos corrected |
| Sanitizer.SanitizeKeepsCleanId | main.py:67-81 | an id of safe characters with no `::` and no `coursev1` passes through unchanged |
| Sanitizer.NoTypoAfterCorrection | main.py:76 | after `coursev1` is replaced by `course-v1`, the typo no longer occurs |
| Sanitizer.SanitizedHasNoTypo | main.py:73-76 | the cleaned id never contains `coursev1` |
| Sanitizer.TripleColonExample | main.py:76 | one pass of replacing `::` turns `:::` into `::`, not `:` |
| Login.LoginEmail | main.py:143-146 | the login email contains `@`, starts with the user name, is the user name itself when that has an `@`, and is the user name followed by `@urfu.online` otherwise |
| Login.LoginEmailIdempotent | main.py:143-146 | deriving the email from an email changes nothing |
| Login.MissingCookies | main.py:205-206 | exactly the required cookies absent from the jar are reported |
| Login.AcquireCsrfToken | main.py:110-135 | the session ends in the state and with the token result given by `AcquireCsrf`; headers are untouched (the fallback rules are proved in `AcquiredToken`, `TokenFromEndpoint`, `EndpointStatusFails` and `EndpointTokenMissing`) |
| Login.SubmitCredentials | main.py:137-201 | the login post leaves the session and result as `SubmitLogin` says |
| Login.SignIn | main.py:108-231 | sign-in follows `SignInFlow`; on success the default headers become the API headers with no authorization header, and on failure they are unchanged |
| Login.CreateSessionWithLogin | main.py:83-235 | a fresh session ends as `LoginFlow` says, with the headers of the outcome |
| Login.AcquiredToken | main.py:111-133 | getting a token sends the home page request, then the token endpoint request exactly when the home page answered and left no non-empty `csrftoken` cookie; each consumes one reply; a token found is never empty and is the jar's `csrftoken` afterwards |
| Login.PostOnlyWithToken | main.py:108-170 | at most three requests go out, the home page first; all but the last are GETs; a final POST is the login form with a non-empty token; success means the login form was posted with the returned token |
| Login.SubmitAccepted | main.py:175-201 | the login post succeeds exactly when its reply has status 200 or 201 and is either not JSON or a JSON object whose `success` is truthy |
| Login.SignedInIff | main.py:165-202 | sign-in succeeds exactly when the last request was the login POST and its reply was accepted |
| Login.NoServer | main.py:108-235 | with no server, one request is attempted and the run fails as unreachable |
| Login.TokenFromHomePage | main.py:111-170 | when the home page sets a non-empty `csrftoken`, the token endpoint is skipped and the login posts that token |
| Login.TokenFromEndpoint | main.py:114-170 | without a home-page token, a 200 JSON answer whose `csrf_token` (else `csrfToken`) is a non-empty string makes the login post that token after the endpoint request, and a successful sign-in keeps it |
| Login.EndpointStatusFails | main.py:124-133 | without a home-page token, an endpoint status other than 200 fails with that status after two requests and no post |
| Login.EndpointTokenMissing | main.py:124-131 | without a home-page token, an endpoint answer whose two token members are both falsy fails as missing token after two requests and no post |
| Login.FinalHeadersShape | main.py:216-227 | after sign-in the headers carry JSON accept, the AJAX marker, the form content type, the JWT-cookie flag, the origin and the fresh token, and no authorization header |
| Login.AuthorizationKey | main.py:226-227 | the header being deleted is stored under `authorization` |
| Login.ApiHeaderNames | main.py:216-223 | the header names set after sign-in are stored under their lower-case keys |
| Text.AsciiLower | main.py:216-223 | lower-casing keeps the length and maps each character separately, as header lookup does |
| Http.Skip | main.py:111 | skipping n replies leaves the reply with index n at the head, or nothing |
| Http.SkipSkip | main.py:111 | skipping a replies and then b replies is skipping a+b replies |
| Http.Exchange | main.py:111 | a request is logged and consumes one reply; a missing reply is a transport error; cookies a response sets are added to the jar |
| Http.WithHeaders | main.py:216-223 | updating headers never drops an existing header |
| Http.WithHeadersLookup | main.py:216-223 | after an update, a header that no later entry overrides has the value given to it |
| Http.WithHeadersKeeps | main.py:216-223 | a header that no update names keeps its value |
| Http.Session.constructor | main.py:91 | a new session has no cookies, no headers and nothing sent |
| Http.Session.Send | main.py:111 | sending changes the session exactly as `Exchange` does and leaves headers alone |
| Http.Session.SetCookie | main.py:128 | installing a cookie changes only that cookie |
| Http.Session.UpdateHeaders | main.py:216-223 | the headers become `WithHeaders` of the old ones; nothing else changes |
| Http.Session.DeleteHeader | main.py:226-227 | exactly the named header is removed; nothing else changes |
| Profile.Assumed | main.py:260-270 | the fallback user record carries the given staff and superuser flags |
| Profile.GetUserInfo | main.py:237-274 | the identity lookup ends as `UserInfoFlow` says and keeps the headers |
| Profile.UserInfoRequests | main.py:241-270 | one to three probes go out in the fixed order (account, profile, admin site), each consuming one reply, and some user record is always returned |
| Profile.AccountAnswerVerbatim | main.py:243-251 | a successful account answer is returned as is, after one request |
| Profile.SuperuserNeedsAdminSite | main.py:262-267 | superuser status is assumed only after all three probes, with the admin site answering |
| Catalog.Pages | main.py:287-295 | n page requests are produced |
| Catalog.PagesNumbered | main.py:287-295 | request i asks for page first+i of size 100 |
| Catalog.Extension | main.py:304 | an array extends by its items, a string by as many items as it has characters, an object by nothing exactly when it is empty, and null, a number or a boolean is an error |
| Catalog.ExtensionChars | main.py:304 | a string extends by its characters, in order, each as a one-character string |
| Catalog.PageStep | main.py:297-325 | a page extends what was collected, or returns `[]` on an exception; continuing is possible only below page 10 |
| Catalog.PageStepKeeps | main.py:297-325 | a transport error or another exception gives `[]`; a status other than 200, a non-JSON body or a falsy `results` stops with exactly what was collected; any other reply keeps what was collected at the front |
| Catalog.GetAllCourses | main.py:276-325 | the paging loop ends with the session and course list given by `CatalogFrom`; headers are untouched (the ordinary ending is pinned down by `EndsAfterFullPages`, the early ones by `StopsAfterFullPages`, `RaisesAfterFullPages` and `ExhaustedAfterFullPages`) |
| Catalog.CatalogPages | main.py:284-318 | the requests sent are pages page, page+1, … in order, at most up to page 10, each consuming one reply |
| Catalog.PartialResultsSurvive | main.py:297-325 | the courses returned are empty or begin with everything collected before |
| Catalog.KeptWithoutExceptions | main.py:297-325 | when no reply raises, the courses returned begin with everything collected before |
| Catalog.QuietFrom | main.py:297-307 | a reply on which the loop breaks returns what was collected |
| Catalog.RaisedFrom | main.py:296-325 | an exception on the next reply, or no reply, returns `[]` |
| Catalog.PastFirstPage | main.py:304-312 | a full page at the front is read and the loop goes on with the rest, its items first |
| Catalog.StopsAfterFullPages | main.py:297-318 | after k full pages within the cap, a non-200 status, a non-JSON body or a falsy `results` returns what was collected followed by those pages' items in page order |
| Catalog.RaisesAfterFullPages | main.py:297-325 | after k full pages within the cap, a transport error, a non-object answer or an unappendable `results` returns `[]` |
| Catalog.ExhaustedAfterFullPages | main.py:296-325 | after k full pages within the cap, the end of the replies (a transport error) returns `[]` |
| Catalog.LastFrom | main.py:296-311 | a 200 JSON object with non-empty `results` and a falsy `next` stops with its items appended to what was collected |
| Catalog.EndsAfterFullPages | main.py:287-318 | after k full pages within the cap, a last page returns what was collected, then the full pages' items in page order, then the last page's items |
| Catalog.FullPageStep | main.py:304-312 | a page with items and a next link continues below page 10 and stops at page 10 |
| Catalog.FullPageFrom | main.py:295-312 | reading a full page appends its items and moves to the next page, unless it was page 10 |
| Catalog.AllFullTail | main.py:304-312 | when every reply is a full page, so is the first one and so are all the rest |
| Catalog.CappedAtTenPages | main.py:309 | when every page is full and points on, exactly the pages up to 10 are requested |
| Catalog.TenPagesInOrder | main.py:304-312 | those ten pages' items are returned in page order |
| Trigger.CleanId | main.py:332 | a string id is sanitized; a truthy non-string id is rejected |
| Trigger.EnsureToken | main.py:336-344 | a token handed out is the jar's `csrftoken` cookie |
| Trigger.EnsureCsrfToken | main.py:336-344 | the token check ends as `EnsureToken` says and keeps the headers |
| Trigger.Classify | main.py:369-399 | a successful answer is always a JSON object |
| Trigger.ClassifyAnswer | main.py:363-399 | classifying the answer ends as `Classify` says |
| Trigger.GenerateGradeReport | main.py:327-414 | generating a report ends as `GenerateFlow` says and keeps the headers |
| Trigger.TokenBeforePost | main.py:337-363 | a present token sends nothing; a missing token sends one home page request; without a token, nothing is posted |
| Trigger.GenerateSucceedsWithObject | main.py:391-399 | a successful generation result is a JSON object |
| Trigger.StatusClassification | main.py:370-399 | the result is an HTTP error exactly when the status is 400..599; a non-JSON success reply becomes the "queued" notice |
| Trigger.ForbiddenRunsProbe | main.py:372-384 | a 403 runs the identity lookup, and any other status sends nothing more |
| Trigger.NonStringIdSendsNothing | main.py:69-73 | a course id that is not a string fails before any request |
| Retry.RetryOperation | main.py:416-431 | the retry loop ends with the session, outcome, attempt count and delays given by `RetryFrom` |
| Retry.AttemptStep | main.py:420-431 | one attempt of the loop: a success returns it, the last failure re-raises, and an earlier failure records the pause and doubles it |
| Retry.RetryShape | main.py:420-431 | no attempt is made when the limit is reached; otherwise at most the limit; a sleep comes between attempts, and sleep i lasts delay·2^i; raising means every attempt was used |
| Retry.FirstSuccessReturned | main.py:420-422 | a first success is returned after one attempt with no sleep |
| Retry.RaisedAfterFailures | main.py:423-431 | an error is raised only when this attempt failed and, if one remained, so did the next |
| Retry.StateAfterShift | main.py:420-422 | each attempt starts on the state the previous one left |
| Retry.LastAttemptDecides | main.py:420-431 | every attempt but the last failed; the last one's value is returned when it succeeded, its error re-raised when it failed, and its end state is the final state |
| Retry.TwoAttempts | main.py:503-507 | with the defaults (2 attempts, 5 s), one or two attempts run, and a final failure slept once for 5 s |
| Batch.HandleCourse | main.py:491-518 | only a JSON-object entry is handled; anything else aborts the loop |
| Batch.Successes | main.py:488-518 | successes number at most the courses handled |
| Batch.Failures | main.py:488-518 | failures plus successes number at most the courses handled |
| Batch.HandleOne | main.py:491-513 | the loop body for one course ends as `HandleCourse` says: a non-object entry aborts, a falsy id is skipped, otherwise the report request is retried |
| Batch.RetriedCourse | main.py:499-513 | a course with an id is handled by the retried report request, with its outcome and pauses |
| Batch.HandleCourses | main.py:488-518 | the course loop ends as `BatchFrom` says, and its counters are the successes and failures of what it handled |
| Batch.CountsAppend | main.py:508-516 | one more course adds one to exactly the matching counter |
| Batch.HandleShape | main.py:495-513 | a course is skipped exactly when its id is falsy; a pause follows each success except the last |
| Batch.RunBatch | main.py:433-537 | the whole run produces the summary of `BatchFlow`, with matching counters |
| Batch.LoopLength | main.py:491-518 | without an abort, every course is handled once; an abort stops at the first non-object entry |
| Batch.LoopEntries | main.py:491-518 | the i-th handled entry belongs to the i-th course |
| Batch.ExitCodeRule | main.py:450-537 | the exit code is 1 exactly when sign-in failed, the catalog is empty, the loop aborted or every course failed, and 0 otherwise |
| Batch.AllSkippedExitsZero | main.py:495-497 | courses that are all skipped send nothing and count neither successes nor failures |
| Batch.CourseAttempts | main.py:501-518 | a course with an id is not skipped; a failure waited once for the first delay; a success carries a report |
| CourseIdentity.LazyToPlus | course_reports.py:49 | the lazy group stops at the first `+` on the first line |
| CourseIdentity.LineLength | course_reports.py:49 | `.` matches up to the first newline |
| CourseIdentity.MatchGroups | course_reports.py:49 | the first two groups are plus-free and newline-free, the third newline-free, they spell the start of the input, and nothing is found exactly when the first line lacks two `+` |
| CourseIdentity.MatchCourseKey | course_reports.py:49-50 | an id matches exactly when it starts with `course-v1:` and has two `+` on its first line |
| CourseIdentity.ExtractCourseShortId | course_reports.py:46-55 | an id that does not match is returned unchanged |
| CourseIdentity.ShortIdOfCourseKey | course_reports.py:49-53 | `course-v1:A+B+C` with plus-free A and B becomes `A_B_C` |
| CourseIdentity.ExtractCourseRun | course_reports.py:57-62 | the run is the plus-free text after the last `+`, or the whole id when there is no `+` |
| CourseIdentity.SplitLast | course_reports.py:60 | the last piece of a split sits right after the last separator |
| Text.SplitOn | course_reports.py:60 | splitting gives at least one piece and no piece contains the separator |
| Text.JoinSplit | course_reports.py:60 | joining the pieces with the separator gives back the text |
| CourseIdentity.RunAfterLastPlus | course_reports.py:60 | text ending in `+run` has run `run` |
| CourseIdentity.ShortIdExample | test_reports.py:147-152 | `course-v1:UrFU+PYTHON+2025_fall` gives `UrFU_PYTHON_2025_fall` |
| CourseIdentity.UnmatchedIdExample | test_reports.py:154-159 | `invalid_course_id` is returned unchanged |
| CourseIdentity.RunExample | test_reports.py:164-169 | the run of `course-v1:UrFU+PYTHON+2025_fall` is `2025_fall` |
| ReportFiles.KindName | course_reports.py:68 | each report kind has its own name, recognised by its first letter |
| ReportFiles.Token | course_reports.py:68 | the kind is written between underscores |
| ReportFiles.StampAt | course_reports.py:68 | the text after a kind is shaped like `YYYY-MM-DD-HHMM` |
| ReportFiles.KindAt | course_reports.py:68 | a kind is found at a position exactly when the name matches there |
| ReportFiles.SearchFrom | course_reports.py:68 | the search finds the leftmost position where a kind and stamp follow, or reports that there is none |
| ReportFiles.ParseFilename | course_reports.py:65-83 | a parse splits the name at its leftmost match into course, kind and stamp, and the date is parsed from the stamp; no parse means no position matches |
| ReportFiles.ReportNameMatches | course_reports.py:68 | a name built from course, kind and stamp matches right after the course |
| ReportFiles.ParseReportName | course_reports.py:65-83 | a built name parses back to its course, kind and date |
| ReportFiles.ShortNameRejected | course_reports.py:68 | a name shorter than 29 characters is never a report |
| ReportFiles.ExampleGradeReport | test_reports.py:174-185 | the sample grade-report name parses to its course, kind and date |
| ReportFiles.ExampleProfileInfo | test_reports.py:187-198 | the sample profile-info name parses to its course, kind and date |
| ReportFiles.InvalidExample | test_reports.py:200-204 | `invalid_filename.csv` is not a report |
| ReportFiles.Join | course_reports.py:94 | the joined path ends with the file name |
| ReportFiles.RowFor | course_reports.py:92-95 | a file gives a row exactly when its name parses |
| ReportFiles.ScanDirectory | course_reports.py:90-95 | the loop over one directory's files produces `DirectoryRows` |
| ReportFiles.ScanGradeReports | course_reports.py:85-100 | the walk produces `ScannedRows` and counts every file seen |
| ReportFiles.DirectoryRowsAtMostFiles | course_reports.py:90-95 | a directory gives at most one row per file |
| ReportFiles.RowsAtMostFiles | course_reports.py:89-95 | the scan gives at most one row per file |
| ReportFiles.DirectoryRowsComplete | course_reports.py:90-95 | a row is in a directory's rows exactly when some file there gives it |
| ReportFiles.ScannedRowsComplete | course_reports.py:89-95 | a row is scanned exactly when some file of some directory gives it |
| ReportFiles.EmptyScan | course_reports.py:98-99 | the scan is empty exactly when no file name parses |
| ReportFiles.OneOfTwo | course_reports.py:89-95 | of a report and an unrelated file, only the report yields a row |
| ReportFiles.ExampleGradeRow | test_reports.py:210-225 | the sample file gives the expected row |
| ReportFiles.ScanExample | test_reports.py:210-225 | a directory holding the sample report and `invalid_file.txt` yields one row |
| Timestamps.ParseStamp | course_reports.py:73-78 | a stamp parses exactly when it is `YYYY-MM-DD-HHMM` shaped and names a real date and time |
| Timestamps.StampRoundTrip | course_reports.py:73-78 | formatting a valid date and parsing it back gives the date |
| Timestamps.StampRoundTripBack | course_reports.py:73-78 | a stamp that parses is exactly the formatting of its date |
| Timestamps.DaysInMonth | course_reports.py:73-78 | months have 28 to 31 days |
| Timestamps.NumberOfDigits | course_reports.py:74 | w digits of a number below 10^w read back as that number |
| Timestamps.DigitsOfNumber | course_reports.py:74 | a digit string is its own w-digit rendering |
| Timestamps.FormatStamp | course_reports.py:73-78 | a stamp is 15 characters long |
| Timestamps.DisplayStamp | course_reports.py:133 | the displayed time is `YYYY-MM-DD HH:MM` |
| Timestamps.AgeInDays | course_reports.py:124 | the age is the number of whole days elapsed, rounded down |
| Timestamps.EpochOrder | course_reports.py:121 | a later date and time has a later instant |
| Timestamps.EpochInjective | course_reports.py:121 | distinct dates have distinct instants |
| Timestamps.ExampleStamp | test_reports.py:174-185 | `2025-10-14-2015` is 14 October 2025, 20:15 |
| Timestamps.NoThirtiethOfFebruary | course_reports.py:73-78 | `2025-02-30-1200` does not parse |
| Summary.KindIndex | course_reports.py:116 | each report kind has its place in the fixed list of five kinds |
| Summary.Matching | course_reports.py:114-117 | the selection holds exactly the reports of that course and kind |
| Summary.Latest | course_reports.py:120-122 | the pick is a dated report that no other dated report is later than; nothing is picked only when none is dated |
| Summary.LatestTimeDetermined | course_reports.py:121-123 | any report as late as the pick has the pick's date |
| Summary.CourseFields | course_reports.py:108-110 | a course is read exactly when it is an object with a string `id` and a `name` |
| Summary.KindRow | course_reports.py:116-142 | one course and kind give at most one row |
| Summary.ProcessCoursesData | course_reports.py:102-145 | the loops over courses and kinds produce `SummaryOf` |
| Summary.CourseReportRows | course_reports.py:107-142 | the loop over the kinds of one course produces `CourseRows` |
| Summary.GatherFails | course_reports.py:107-110 | the join fails exactly when some course fails, and it reports the first failure |
| Summary.GatherRows | course_reports.py:107-136 | the joined rows are exactly the rows of the courses |
| Summary.LatestOfMatching | course_reports.py:117-123 | the pick is a report of that course and kind with a valid date, and no report of theirs is later |
| Summary.KindRowCases | course_reports.py:120-142 | no row exactly when no report matches; failure exactly when reports match but none is dated |
| Summary.KindRowShape | course_reports.py:120-142 | a row names the course, the kind and the newest report's file, time and age |
| Summary.CourseRowsShape | course_reports.py:107-136 | a course gives at most five rows, all its own, with one per kind that has any report |
| Summary.SummaryShape | course_reports.py:102-145 | at most five rows per course; every row shows the newest report of its course and kind |
| Summary.SummaryComplete | course_reports.py:114-136 | every course and kind with a report has a row with its short id, run and name |
| Summary.SummaryFails | course_reports.py:107-110 | the summary fails exactly when some course's rows fail, and it reports the first such failure |
| PublicCatalog.PublicStep | course_reports.py:36-43 | a page is read only from a non-error JSON-object reply, and continuing means its `next` is truthy |
| PublicCatalog.GetAllCourses | course_reports.py:27-44 | the loop returns the courses and requests of `PublicFrom` |
| PublicCatalog.ReadStep | course_reports.py:36-43 | a readable page appends its results, then continues or stops by its `next` |
| PublicCatalog.StopStep | course_reports.py:36-43 | a reply not read and continued ends the paging after that request |
| PublicCatalog.PublicPages | course_reports.py:31-43 | pages are requested from the first onward, in order, each consuming one reply |
| PublicCatalog.PublicSuccess | course_reports.py:33-43 | success means every page up to the last was readable and pointed on, and the last did not |
| PublicCatalog.PublicSuccessValue | course_reports.py:39-44 | a success returns all the pages' results in page order |
| PublicCatalog.SuccessReadsFirst | course_reports.py:33-43 | a success had a readable first page |
| PublicCatalog.ShiftedReplies | course_reports.py:39-44 | reading one more page in front adds its results in front |
| PublicCatalog.PublicReadsAll | course_reports.py:33-44 | readable pages chained by `next` are all requested, and their results are returned |
| PublicCatalog.FirstReplyRaises | course_reports.py:35-37 | a transport error, an error status or a non-JSON first page raises that error |
| PublicCatalog.PageShape | course_reports.py:39-43 | a sample page is readable, gives its items, and continues exactly when its `next` is truthy |
| PublicCatalog.TwoPageExample | test_reports.py:53-99 | two pages, the first linked, are requested as page 1 then page 2, and their results join in order |
| PublicCatalog.SinglePageExample | test_reports.py:20-50 | one page without `next` is requested once and its results are returned |
| Dashboard.IntText | nicegui_reports.py:159 | an integer is written as non-empty text |
| Dashboard.IntTextRead | nicegui_reports.py:159-170 | an integer written as text reads back as that integer |
| Dashboard.TextOf | nicegui_reports.py:159 | exactly the missing cells have no text |
| Dashboard.Numeric | nicegui_reports.py:170 | a number reads as itself and a missing cell as missing |
| Dashboard.NumericOfText | nicegui_reports.py:159-170 | text and number views of a day count agree |
| Dashboard.InsertMembers | nicegui_reports.py:163 | inserting adds exactly the new value |
| Dashboard.InsertAscending | nicegui_reports.py:163 | inserting into a strictly ascending list keeps it strictly ascending |
| Dashboard.SortedDistinctSpec | nicegui_reports.py:159-163 | the unique values, sorted, are strictly ascending and hold exactly the input values |
| Dashboard.TextsMembers | nicegui_reports.py:159-162 | the column's texts are exactly the text of some present cell |
| Dashboard.Options | nicegui_reports.py:157-167 | the option list starts with "Все" |
| Dashboard.OptionsSpec | nicegui_reports.py:157-167 | after "Все" come, strictly ascending, exactly the texts of the non-missing cells of the column, or nothing when the column is absent |
| Dashboard.DaysMembers | nicegui_reports.py:170 | the day values are exactly the numbers found in the column |
| Dashboard.MaxOr0 | nicegui_reports.py:171-176 | the maximum is an element and bounds all of them; it is 0 when there are none |
| Dashboard.SliderMax | nicegui_reports.py:170-177 | the slider bound is at least 30 |
| Dashboard.DayBelowSlider | nicegui_reports.py:170-177 | every row's day count is within the slider bound |
| Dashboard.SliderMaxAttained | nicegui_reports.py:171-177 | the bound is 30 or the day count of some row |
| Dashboard.Clamp | nicegui_reports.py:184 | the days value is pulled into 0..bound: kept when inside, 0 below, the bound above |
| Dashboard.WhereAllKeeps | nicegui_reports.py:194-220 | applying the filters one after another keeps exactly the rows every filter keeps, in their order |
| Dashboard.StagesSelect | nicegui_reports.py:194-220 | the active filters together keep what the reference `Select` keeps |
| Dashboard.ShownByStages | nicegui_reports.py:194-220 | a row passes all active filters exactly when it is shown |
| Dashboard.SelectSubsequence | nicegui_reports.py:188-222 | filtering keeps rows in their original order |
| Dashboard.SelectMembers | nicegui_reports.py:194-220 | a row survives exactly when it was present and is shown |
| Dashboard.SelectTwice | nicegui_reports.py:188-222 | filtering twice is filtering once |
| Dashboard.FilteredInOrder | nicegui_reports.py:188-222 | the filtered table lists a subsequence of the rows |
| Dashboard.FilteredMembers | nicegui_reports.py:194-220 | a row is shown exactly when the table is non-empty, the row is in it and every active filter accepts it |
| Dashboard.MissingDaysKept | nicegui_reports.py:214-216 | a row with no day count is never removed by the days filter |
| Dashboard.FilterIdempotent | nicegui_reports.py:188-222 | re-applying the filters changes nothing |
| Dashboard.Mask | nicegui_reports.py:191-222 | narrowing the copy one filter at a time yields the reference `Select` |
| Dashboard.ReportsApp.constructor | nicegui_reports.py:32-43 | the app starts empty, every filter at "Все", and days and slider bound at 30 |
| Dashboard.ReportsApp.UpdateFilters | nicegui_reports.py:144-184 | an empty table resets options to ["Все"] and days to 30; otherwise options are rebuilt; a missing days column raises and leaves the slider; else the bound is `SliderMax`, and days are clamped (unchanged when already in range) |
| Dashboard.ReportsApp.ApplyFilters | nicegui_reports.py:187-222 | the filtered table is `Filtered` of the data under the current selection; nothing else changes |

## Left out

- The NiceGUI page, its widgets, routes, `load_data`, `update_table` and CSV downloads are not modelled. The filter state lives in fields, and the widgets are taken as present.
- Logging is not modelled, because it has no effect on results.
- `time.sleep` is not modelled: the delays are returned as a list instead.
- Request timeouts are not modelled. A reply that never arrives is a scripted transport error.
- Environment configuration is not modelled. The base URL, user name and password are parameters, and the missing-variables check at start-up is left out.
- `reports.py`, the two `test_awesome_table*.py` demos and the test files are not modelled. The tests are cited as example lemmas.
- Catalog.Extension: JSON object key order is not modelled, so a page whose `results` is a non-empty JSON object is treated as an error rather than extending by its keys; this case is weaker than the source.
- ReportFiles.StampAt: reads only ASCII digits, while `\d` in the file pattern also matches other Unicode decimal digits.
- ReportFiles.ParseFilename: a file whose stamp has non-ASCII decimal digits gets a dated row in the source; the model finds no match and drops the file.
- Timestamps.ParseStamp: does not accept Unicode digits or fields without padding, which `strptime` would take. The names produced by the platform are padded ASCII.
- Timestamps.DisplayStamp: assumes four-digit years.
- Timestamps.AgeInDays: the current time is whole seconds since 0001-01-01 UTC. Microseconds and the pandas timestamp range are not modelled.
- Summary.ProcessCoursesData: a course and kind whose reports are all undated is a failure. Undated rows sort last, so the row picked is then undated. In the source, `(now - date).days` raises `TypeError` on `None`, and on `NaT` the `strftime` for the row raises `ValueError`. The model returns one failure for both and does not tell them apart.
- Summary.Latest: among reports tied at the newest time, the first is picked, while sorting in pandas is unstable. `LatestTimeDetermined` shows that the time shown does not depend on that choice. Rows without a time sort last.
- Dashboard.Numeric: text is read as an integer only: an optional `-` followed by ASCII digits. Floats, `+`, whitespace and exponents read as missing. Cells hold integers, never floats.
- Dashboard.ReportsApp.UpdateFilters: the `KeyError` for a missing days column is returned as `raised`. The options are still set when this happens, as in the source.
