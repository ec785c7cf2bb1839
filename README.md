# GmailPy follow-up engine, modelled in Dafny

GmailPy scans a Gmail account's sent mail for stalled outreach threads and sends
follow-ups. This project models its decision engine:

- the header accessors `get_header` and `is_from_user`;
- the subject heuristic `count_followups`;
- the paginated scan `get_threads_to_follow_up`, which checks each listed thread:
  - every message is from the user;
  - the first subject starts with `interest in` after stripping and lower-casing;
  - the last message is at least `MIN_DAYS` old;
  - fewer than `MAX_FOLLOW_UPS` follow-ups were sent;
- the composition half of `send_followup_email`:
  - the sender name;
  - the `Hi`/`Hello` salutation taken from the first message's body;
  - the template picked from the snippets, and the reply handed to the transport;
- the day-grouped CSV report `generate_followup_report`;
- the driver `run_followup_and_report`, with its `DISABLE_SEND_FOLLOWUP` flag.

The model is split into modules:

- `Text` holds the ASCII string operations the code uses: `lower`, `strip`,
  `startswith`, `in`, `split`, string order.
- `Messages` and `Followups` are the per-message accessors.
- `Calendar` is the `strftime` of an epoch second.
- `Settings` is the import of `app/config.py`: the templates and limits read
  from the environment, with their defaults. It also holds the driver's
  reading of `DISABLE_SEND_FOLLOWUP`.
- `Pagination` is the scan.
- `Compose` is the reply.
- `Report` is the report. Its `ReportFiles` class holds the CSV files as a map
  from path to written lines, and its methods append to it.
- `Driver` is the run, including the report call inside
  `get_threads_to_follow_up`.

The provider is passed in as data:

- the list responses as a sequence of `Page`s;
- the threads as a map from thread id to messages;
- the clock as `now` in epoch seconds, plus the date string a report is named after;
- the send call as a function from the outgoing reply to its success;
- the process environment as a map from variable name to value.

## Behaviour of the code worth knowing


- **A fetch failure is not confined to its thread.** A thread id the
  provider cannot return, or an empty thread
  (`thread_messages[-1]`), raises out of `get_threads_to_follow_up`. No report
  is written and nothing is sent. `Pagination.CollectCandidates` and
  `Driver.RunFollowupAndReport` state that `ok` holds exactly when every
  processed page can be fetched.
- **Duplicates are removed only within a page.** A thread listed on two
  processed pages becomes a candidate twice (`Pagination.GatherCount`).
- **The salutation is case-sensitive and one word long.** `Hello John Smith,`
  yields `John` (`Compose.GreetingFirstWordOnly`), and `hello` does not match.
- **`MAX_DAYS` bounds only the search query.** No check on the thread repeats it.
- **The report and the reply use different templates.**
  - The report picks its template as `min(count, 2)` over the subject-based count.
  - The reply picks `count % 3` over the snippet-based count.
  - The two agree only for counts below 3 or equal to 2 modulo 3
    (`Driver.ClampAgreesWithModulo`).
- **A run writes two reports.** The candidates are reported with an empty
  status, then the outcomes; both land in one file on the same day
  (`Driver.SameDayReports`).
- **A dry run is reported as `fail`.**
- **`DISABLE_SEND_FOLLOWUP` is read two ways.**
  - The driver accepts `1`, `true`, `True`.
  - `app/config.py` takes `bool(int(...))`.
  - So `true` disables sending in the driver but raises in the configuration,
    and `2` is on in the configuration but off in the driver.
  - `true` therefore stops the program at import (see Findings). The run is
    modelled with the configuration's flag read as the driver reads it.

## Model

| member | source | states |
|---|---|---|
| Messages.FindHeaderSpec | app/email_service.py:84-85 | the lookup yields the value of the first header whose lower-cased name matches; `''` when every header has a name and none matches; it fails only on a nameless header reached first or a matching header without a value |
| Messages.GetHeader | app/email_service.py:82-87 | a message without `payload` or without `headers` yields `''` |
| Messages.GetHeaderFirstMatch | app/email_service.py:85 | the result is the value of the first matching header |
| Messages.GetHeaderFound | app/email_service.py:85 | a non-empty result is the value of the first matching header |
| Messages.GetHeaderAbsent | app/email_service.py:82-87 | no matching header gives `''`, whether the search runs out or a nameless header raises `KeyError` |
| Messages.GetHeaderCaseInsensitive | app/email_service.py:85 | the result does not depend on the case of the requested name |
| Messages.FindHeaderCaseInsensitive | app/email_service.py:85 | the raw lookup does not depend on the case of the requested name |
| Messages.IsFromUser | app/email_service.py:74-80 | true iff the lookup of `from` succeeds and its value contains the user's address; without headers, true only for an empty address |
| Messages.MalformedMessages | tests/test_email_report.py:107-117 | an empty header list, a payload without `headers`, and a message without `payload` all give `''`, and the last two are not from the user |
| Messages.NamelessHeaderHidesLaterOnes | app/email_service.py:75-80 | a nameless header ahead of `From` makes the lookup fail, so `get_header` is `''` and `is_from_user` false |
| Followups.CountFollowups | app/email_service.py:89-97 | the loop's count equals the number of messages whose subject is a follow-up (`FollowupCount`) |
| Followups.FollowupCountBounds | app/email_service.py:89-97 | the count is at most the number of messages, and 0 for an empty thread |
| Followups.FollowupCountAppend | app/email_service.py:93-96 | counting is additive over a thread split in two |
| Followups.ReSubject | app/email_service.py:94-95 | a subject starting with `re:` in any case is a follow-up |
| Followups.FollowUpSubject | app/email_service.py:94-95 | a subject containing `follow up` in any case is a follow-up |
| Followups.PlainSubject | app/email_service.py:94-95 | a subject with neither an initial `r` nor any `f` is not a follow-up |
| Followups.SubjectNotTrimmed | app/email_service.py:94-95 | `Re:` counts only at the very start: one leading blank hides it |
| Followups.FiveSubjectExample | tests/test_email_report.py:97-105 | the five subjects of the test count four follow-ups |
| Calendar.FormatDay | app/email_service.py:61 | the `%Y-%m-%d` part holds no blank |
| Calendar.DayPartOfTimestamp | app/report_service.py:13 | the day key of a candidate's `date` is the formatted day of its timestamp |
| Calendar.SameDaySameKey | app/report_service.py:13-16 | two instants of one UTC day land in the same report group |
| Calendar.CivilExample | tests/test_email_report.py:14 | day 20346 after the epoch is 2025-09-15 |
| Calendar.CivilRoundTrip | app/email_service.py:61 | the date `%Y-%m-%d` prints for any day count has a month in 1..12 and a day in 1..31, and `DaysFromCivil` maps it back to the same day count |
| Calendar.FormatDayInjective | app/email_service.py:61 | two different days never print the same `%Y-%m-%d` text |
| Calendar.SameKeySameDay | app/report_service.py:13-16 | two instants share a report group only if they fall on the same UTC day, the converse of `SameDaySameKey` |
| Pagination.FirstStopSpec | app/email_service.py:34-35 | no response before the first stop ends the loop, and the first stop does when there is one |
| Pagination.RequestsAt | app/email_service.py:25-31 | the first list call carries no token, each later one the previous response's `nextPageToken` |
| Pagination.JudgeThread | app/email_service.py:42-65 | crashes exactly on an empty thread; keeps a thread exactly when it is eligible (all from the user, campaign subject, old enough, fewer follow-ups than the limit), and then yields the candidate built from its last message |
| Pagination.ProcessPage | app/email_service.py:37-65 | succeeds iff every listed thread can be fetched; then visits each distinct listed id once, in some order, and yields the selected candidates of that order |
| Pagination.SelectFromOrder | app/email_service.py:38-65 | every selected candidate comes from a visited thread |
| Pagination.SelectJudged | app/email_service.py:42-65 | every selected candidate is the eligible thread's own candidate |
| Pagination.SelectComplete | app/email_service.py:42-65 | every eligible visited thread yields its candidate |
| Pagination.SelectDistinct | app/email_service.py:37-38 | visiting distinct ids yields candidates with distinct thread ids |
| Pagination.PageResultOfSelect | app/email_service.py:37-65 | whatever the set order, a page yields exactly its eligible threads, once each |
| Pagination.CollectCandidates | app/email_service.py:24-68 | the list calls carry no token first, then each previous `nextPageToken`; the loop stops at the first stopping response; it succeeds iff all processed pages can be fetched, and then returns the concatenated per-page selections; on failure it returns nothing, the last page requested is the first that cannot be fetched, and every earlier page could be |
| Pagination.FetchableUpToSpec | app/email_service.py:39-40 | the recursive fetchability of a page prefix is fetchability of each page in it |
| Pagination.FetchableUpToStops | app/email_service.py:39-40 | one unfetchable page makes every longer prefix fail |
| Pagination.GatherJudged | app/email_service.py:56-65 | every collected candidate is an eligible thread's own candidate |
| Pagination.GatherListed | app/email_service.py:37-65 | every collected candidate's thread is listed on a processed page |
| Pagination.GatherComplete | app/email_service.py:37-65 | every eligible thread listed on a processed page is collected |
| Pagination.GatherHas | app/email_service.py:37-65 | the candidate of an eligible thread listed on processed page `k` is collected |
| Pagination.TakePage | app/email_service.py:37-65 | taking a page succeeds iff all its threads can be fetched, and then appends that page's selection to the collected candidates |
| Pagination.GatherCount | app/email_service.py:37-65 | an eligible thread is collected once per processed page listing it, an ineligible one never |
| Pagination.GatherCountKept | app/email_service.py:37-65 | an eligible thread is collected once per processed page listing it |
| Pagination.GatherCountDropped | app/email_service.py:37-65 | an ineligible or unfetchable thread is never collected |
| Pagination.SelectCount | app/email_service.py:37-65 | within a page, a thread is collected once if listed and eligible, else never |
| Pagination.CampaignSubjectPadded | app/email_service.py:45-46 | leading blanks and letter case do not hide an `Interest in` subject |
| Pagination.NewsletterNotCampaign | app/email_service.py:45-47 | `Quarterly Newsletter` fails the campaign filter |
| Pagination.ThreePageExample | tests/test_email_report.py:44-48 | the test's responses with tokens `token1`, `token2`, none stop at the third and process all three |
| Report.DayOf | app/report_service.py:13 | the day key holds no blank and is a prefix of the date |
| Report.TemplateIndex | app/report_service.py:31-33 | the template index is the count clamped to 2 |
| Report.StatusText | app/report_service.py:35-41 | `dry_run` and `failed` read `fail`, `sent` reads `success`, anything else is kept |
| Report.RowsOf | app/report_service.py:29-50 | one row per record of the group, each under the group's day |
| Report.ItemsOn | app/report_service.py:11-16 | a day's group holds only records of that day |
| Report.GroupByDay | app/report_service.py:10-16 | fails iff some record has no `date`; else the keys are the days in order of first occurrence, each with its records in input order |
| Report.DaysOfSpec | app/report_service.py:11-16 | the days are distinct and are exactly the days of the records |
| Report.ReportFiles.GenerateFollowupReport | app/report_service.py:5-50 | fails without writing iff a record has no date; else appends to `followup_report_<today>.csv` the header when the file is new, then the rows |
| Report.ReportFiles.OpenForAppend | app/report_service.py:22-27 | opening for append keeps an existing file's lines and starts a new file with the header |
| Report.ReportFiles.WriteDays | app/report_service.py:28-50 | appends the rows of the sorted days, day after day |
| Report.ReportFiles.WriteDay | app/report_service.py:29-50 | appends one row per record of a day's group, in group order |
| Report.SortPermutes | app/report_service.py:28 | `sorted` keeps the days as a multiset |
| Report.SortMembers | app/report_service.py:28 | `sorted` keeps exactly the same days |
| Report.SortAscending | app/report_service.py:28 | `sorted` is ascending in string order |
| Report.SortDistinct | app/report_service.py:28 | sorting distinct days keeps them distinct |
| Text.LessTotal | app/report_service.py:28 | string order is total |
| Text.LessTransitive | app/report_service.py:28 | string order is transitive |
| Text.LessIrreflexive | app/report_service.py:28 | string order is irreflexive |
| Report.ReportRowsOfDay | app/report_service.py:28-50 | the rows written under a day are exactly that day's records, in input order |
| Report.ReportRowsAscending | app/report_service.py:28 | rows appear in ascending order of day |
| Report.ReportRowsCount | app/report_service.py:28-50 | one row per record |
| Report.ReportRowsFrom | app/report_service.py:42-50 | every row is the row of one of the records |
| Compose.Title | app/email_service.py:107 | `str.title` keeps the length |
| Compose.TitleFromShape | app/email_service.py:107 | title-casing keeps non-letters and keeps letters letters |
| Compose.TitleFromCase | app/email_service.py:107 | a letter is lower-cased when the character before it is a letter and upper-cased otherwise, the flag standing for the character before the start |
| Compose.TitleCase | app/email_service.py:107 | `str.title` capitalises the first letter of each run of letters, lower-cases the rest of the run, and keeps every other character |
| Compose.TitleJohnDoe | app/email_service.py:107 | `'john doe'.title()` is `'John Doe'` |
| Compose.TitleIdempotent | app/email_service.py:107 | title-casing twice is title-casing once |
| Compose.TitleFromAppend | app/email_service.py:107 | a non-letter separator restarts capitalisation |
| Compose.JoinTitledSplit | app/email_service.py:106-107 | splitting at dots, title-casing each part and joining with blanks equals title-casing with dots turned into blanks |
| Compose.SenderNameFromEmail | app/email_service.py:101-107 | without `SENDER_NAME` the name is the title-cased local part with dots as blanks, holding no `.` or `@` |
| Compose.FirstPlainData | app/email_service.py:124-128 | a found body is the data of a `text/plain` part |
| Compose.FirstPlainDataSpec | app/email_service.py:124-128 | the result is the data of the first `text/plain` part with data (the `break`), and `None` exactly when no part is `text/plain` with data |
| Compose.FindBodyData | app/email_service.py:121-130 | the parts loop finds the first `text/plain` part with data, or the payload body when there are no parts |
| Compose.GreetingName | app/email_service.py:135-137 | a found name is a non-empty run of word characters |
| Compose.GreetingFromFirst | app/email_service.py:135 | the search returns the match at the first line start where the pattern matches |
| Compose.GreetingFromFound | app/email_service.py:135 | a match is found only at a line start |
| Compose.WordRunExact | app/email_service.py:135 | `\w+` takes the whole word |
| Compose.GreetingHello | app/email_service.py:133-137 | a body opening with `Hello`, a blank and a word yields that word |
| Compose.GreetingFirstWordOnly | app/email_service.py:135-137 | `Hello John Smith,` yields `John` |
| Compose.SnippetFollowups | app/email_service.py:141-146 | the snippet count is at most the number of messages |
| Compose.ComposeIndex | app/email_service.py:147 | the index is below 3 and congruent to the count modulo 3 |
| Compose.ReplyGreetsReceiver | app/email_service.py:135-153 | a thread whose first body opens `Hello <name>` gets a reply starting `Hi <name>,` under `Re: <subject>` |
| Compose.ReplyFrame | app/email_service.py:149-150 | every reply ends with `Thanks,` and the sender name; without a receiver it opens with `Hi,` |
| Compose.SendFollowupEmail | app/email_service.py:99-162 | an unknown thread returns false and sends nothing; else the composed reply is handed to the transport and the result is its acceptance |
| Settings.DisableSendZero | app/followup_service.py:7 | `0` is off both in the driver and in the configuration |
| Settings.DisableSendOne | app/followup_service.py:7 | `1` is on both ways |
| Settings.DisableSendUnset | app/followup_service.py:7 | unset is off both ways |
| Settings.DisableSendTrue | app/config.py:17 | `true` is on in the driver but raises in the configuration |
| Settings.DisableSendTwo | app/config.py:17 | `2` is on in the configuration but off in the driver |
| Settings.ConfigDigit | app/config.py:17 | a one-digit flag is on unless it is `0` |
| Settings.ParseUnsigned | app/config.py:11-14 | digits parse to their decimal value |
| Settings.ParseDigit | app/config.py:11-14 | one digit parses to its value |
| Settings.StripEnds | app/config.py:11-14 | text without blanks at either end is its own `strip()` |
| Settings.LoadConfigDefaults | app/config.py:4-17 | with nothing set, the limits are 2, 30, 20 and 3, sending is on, and the templates are the three defaults |
| Settings.LoadConfigFlag | app/followup_service.py:7 | a loaded configuration's flag is the driver's reading of `DISABLE_SEND_FOLLOWUP` |
| Settings.LoadConfigIgnoresFlagText | app/followup_service.py:7 | whatever `DISABLE_SEND_FOLLOWUP` holds, the import succeeds exactly when it would with the flag unset |
| Settings.AsWrittenLoadsLess | app/config.py:4-17 | wherever the import as written succeeds, the corrected one succeeds with the same templates and limits |
| Settings.TrueFlagAbortsImport | app/config.py:17 | `DISABLE_SEND_FOLLOWUP=true` makes the import as written fail, while the corrected import succeeds with sending off |
| Driver.CandidateItems | app/email_service.py:69-71 | one report record per candidate, each dated |
| Driver.GetThreadsToFollowUp | app/email_service.py:13-72 | on success, the candidates are the collected selections, and one report of them (no status) is appended under today's date; on failure, no report |
| Driver.StatusOf | app/followup_service.py:21-32 | `dry_run` iff sending is disabled; `sent` iff enabled and delivered; else `failed` |
| Driver.DispatchOne | app/followup_service.py:13-33 | one candidate's result record, and the reply sent for it, if any |
| Driver.Dispatch | app/followup_service.py:12-33 | results are one outcome per candidate; a dry run sends nothing, otherwise each fetchable candidate's reply is sent in order |
| Driver.OutcomesShape | app/followup_service.py:13-20 | each outcome carries its candidate's fields and the status of its send |
| Driver.SentMatchesAccepted | app/followup_service.py:24-32 | the number of `sent` outcomes is the number of replies the transport accepted; zero on a dry run |
| Driver.OutcomeItems | app/followup_service.py:35 | one dated report record per outcome |
| Driver.RunFollowupAndReport | app/followup_service.py:6-35 | under the corrected import (see Left out), a setting `int` cannot parse, or a fetch failure, ends the run with no report and nothing sent; else the candidates are reported, dispatched by the flag and `SENDER_NAME` from the environment, and the outcomes reported, in that order |
| Driver.ClampAgreesWithModulo | app/report_service.py:31-33 | the report's template and the modulo template agree iff the count is below 3 or is 2 modulo 3 |
| Driver.JudgedCount | app/email_service.py:54-55 | a candidate has fewer follow-ups than the limit |
| Driver.CandidateCounts | app/email_service.py:54-55 | every collected candidate has fewer follow-ups than the limit |
| Driver.CandidateRows | app/email_service.py:69-71 | the first report's rows have an empty status and a number between 1 and the limit |
| Driver.OutcomeRows | app/report_service.py:35-41 | the second report's statuses are `fail` or `success`, all `fail` on a dry run |
| Driver.SameDayReports | app/report_service.py:22-27 | two reports on one date share one file: at most one header, then both sets of rows |

## Left out

- Provider calls and clocks are parameters:
  - the Gmail service, `getProfile` and its failure (the user's address is a parameter);
  - `datetime.utcnow` and `datetime.now` (`now` and the `today` strings are parameters).
- The search query and its `after:`/`before:` bounds from `MAX_DAYS` and
  `MIN_DAYS` are not modelled. Pages are given as what the provider returns.
- `BATCH_SIZE` is loaded but not used: it is the page size of the list call,
  and pages are given as data.
- Driver.RunFollowupAndReport: runs with the corrected import `Settings.LoadConfig`,
  which reads `DISABLE_SEND_FOLLOWUP` as app/followup_service.py does. In the
  code as written, a flag value `int()` rejects (`true`, `yes`, ...) stops the
  program at import before anything runs, whereas the model makes a dry run
  with `true`. `Settings.AsWrittenLoadsLess` shows that wherever the import as
  written succeeds, the corrected one succeeds with the same settings apart
  from the flag's reading.
- `Settings.LoadConfig` models a failed `int` conversion as a failed import; the
  traceback and the process exit are not modelled.
- A failing page-list call is not modelled. The provider stream is assumed to
  stop: `CollectCandidates` requires some response that ends the loop.
- Pagination.DaysSince: the source subtracts the local-time `fromtimestamp`
  of the last message from `utcnow()` (app/email_service.py:19, 51), so on a
  host that is not on UTC its day count is shifted by the UTC offset, which can
  move a thread across the `MIN_DAYS` test near a day boundary. The model
  counts whole days on one clock.
- `Calendar.FormatTimestamp` formats in UTC; the source uses local time
  (`fromtimestamp`). Years outside four digits, and sub-second precision, are
  not modelled.
- `Compose.SendFollowupEmail` takes the body data as already decoded. base64
  decoding, UTF-8 with ignored errors, MIME encoding, and the `False` a decode
  error returns are not modelled.
- `Compose.SendFollowupEmail` does not model `last_email_date`, which is
  computed and never used.
- `Text` treats `lower`, `title`, `strip`, `\s` and `\w` on ASCII only.
- `Settings.ParseInt` does not accept `_` separators or non-ASCII digits.
- `Report.ReportFiles.GenerateFollowupReport` records each line as a value.
  CSV quoting, encoding and the explicit `report_path` argument are not
  modelled; only the default path is.
- Rows are appended one by one as `writerow` does. A crash part-way through
  a write is not modelled.
- `print` output and logging are not modelled.
- The assisted (generated-text) mode, the web routes, credentials and process
  start-up are not part of this model.

## Findings

| source | as written | input that shows it | evidently intended | confidence | as-written member | corrected member |
|---|---|---|---|---|---|---|
| app/config.py:17 | `DISABLE_SEND_FOLLOWUP` is read with `bool(int(...))` when `app.config` is imported, and `app/email_service.py:2` imports it | `DISABLE_SEND_FOLLOWUP=true`, a value `app/followup_service.py:7` accepts as "do not send": `int('true')` raises, so the import fails and nothing runs | the flag reads as the follow-up service reads it (`1`, `true`, `True` mean on), and its value never stops the import | high; not executed | Settings.LoadConfigAsWritten, Settings.TrueFlagAbortsImport | Settings.LoadConfig, Settings.LoadConfigIgnoresFlagText, Settings.LoadConfigFlag |
