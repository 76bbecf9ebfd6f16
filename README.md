# telegram-ai-digest: a Dafny model of `digest.py`

The script reads the posts of a given date range from a Telegram channel and asks a text
service (Claude) to write a Russian-language digest of them. It tidies the
digest's line breaks, asks the same service for an illustration prompt,
has an image produced (Replicate) and converted, and sends the digest to
the account's own chat. It sends it with the image when there is one, and
as text when there is none or the image send fails. Before any of this,
the script loads a `.env` file into the process environment and checks six
required settings.

The model covers each of these steps:

| module | file | what it models |
|---|---|---|
| `Wrappers` | `wrappers.dfy` | `Option` and `Result` |
| `Text` | `text.dfy` | `str(n)`, `int(s)`, `s.strip()`, `sep.join(parts)` |
| `Calendar` | `calendar.dfy` | dates, UTC timestamps and their order |
| `EnvFile` | `env_file.dfy` | `load_env_from_file` on an `Environ` object holding the environment, `get_env_variable`, the start-up checks |
| `TextClient` | `textclient.dfy` | `call_claude_api`: attempts, the single retry, the sleeps |
| `DateLabel` | `date_label.dfy` | `format_date_range`, with a parser that reads a label back |
| `Composer` | `composer.dfy` | `create_digest`, `generate_image_prompt` |
| `WeekRange` | `week_range.dfy` | `get_previous_week_range` as written, and as intended |
| `ImageStage` | `image_stage.dfy` | the returned path of `generate_and_save_image` |
| `LineBreaks` | `line_breaks.dfy` | `remove_extra_line_breaks` as two left-to-right scans with `re.sub`'s semantics |
| `Collection` | `collection.dfy` | the message loop of `main` |
| `Pipeline` | `pipeline.dfy` | `main` from the collected messages to delivery |

Each external effect is an input to the model:

- the channel history, as a sequence of records, newest first;
- the text service, as a function from the prompt and the attempt number to what that attempt saw;
- the image provider's output;
- the download, the file write and the `convert` run, each as its outcome;
- whether `send_file` and `send_message` raise;
- a `.env` file, as its lines, or absent;
- the current day;
- the timestamp format.

Four behaviours of the code are easy to miss; the model follows the code in each.

- The line-break clean-up (digest.py:268-275) is not idempotent:
  `LineBreaks.NotIdempotent` gives an input on which a second application
  changes the text again.
- When both attempts of the illustration request fail, `generate_image_prompt`
  calls `.strip()` on `None` (digest.py:198) and raises `AttributeError`.
  `main` then stops without delivering anything (see
  `Composer.GenerateImagePrompt` and `Pipeline.Summarise`).
- Only a non-zero exit of `convert` (`CalledProcessError`, digest.py:256-258)
  keeps the original `.webp` path. A missing `convert` executable raises
  `FileNotFoundError`, which the outer `except Exception` (digest.py:264-266)
  turns into `None` (see `ImageStage.NoneExactly`).
- `get_previous_week_range` (digest.py:161-172) returns the Monday-to-Sunday
  week that has just ended only when it runs on a Sunday (see Findings).

## Model

| member | source | states |
|---|---|---|
| Text.NatToDecimal | digest.py:303 | `str(n)` is a non-empty string of digits, with no leading zero unless `n` is 0 |
| Text.DecimalRoundTrip | digest.py:303 | the decimal spelling of `n` reads back as `n` |
| Text.DecimalInjective | digest.py:303 | two ids with the same spelling are equal |
| Text.LeadingDigitsOfDecimal | digest.py:121-123 | a day number followed by a non-digit is read back in full, and only it |
| Text.SkipSpaces | digest.py:25 | the first non-space at or after `i`; everything skipped is white space |
| Text.TrimSpaces | digest.py:25 | the end of the last non-space before `j`; everything cut is white space |
| Text.StripSpec | digest.py:25 | `strip()` returns a slice of its input with only white space cut on each side, and the result neither starts nor ends with white space |
| Text.StripTrimmed | digest.py:25 | a string that neither starts nor ends with white space is its own strip |
| Text.Strip | digest.py:25 | `s.strip()`: the text between the first and the last non-space character; what it promises is `StripSpec` |
| Text.StripAfterSpaces | digest.py:25-26 | after leading white space, the strip starts with the first other character |
| Text.StripPadded | digest.py:25-27 | white space around a non-empty text that neither starts nor ends with white space is exactly what `strip` removes |
| Text.StripIdempotent | digest.py:198 | stripping twice is stripping once |
| Text.JoinStartsWithFirst | digest.py:317 | `"\n\n".join(parts)` starts with its first part |
| Text.Join | digest.py:317 | `sep.join(parts)`: the parts in order with `sep` between neighbours; it starts with the first part (`JoinStartsWithFirst`) |
| Text.DropUnderscores | digest.py:42 | removing the group separators leaves only digits, and digits alone are unchanged |
| Text.GroupedValue | digest.py:42 | plain digits have their decimal value |
| Text.ParseInt | digest.py:42 | `int(s)` succeeds only on text that is not blank |
| Text.ParseIntOfDecimal | digest.py:42 | `int(str(n)) == n` |
| Text.ParseIntOfNegatedDecimal | digest.py:42 | `int("-" + str(n)) == -n` |
| Calendar.BeforeIsStrictTotal | digest.py:298-300 | the timestamp order is strict, transitive and total, and `<=` is its reflexive closure |
| EnvFile.SplitAtFirst | digest.py:27 | `split('=', 1)` fails exactly when there is no '='; otherwise the key has no '=' and key, '=' and value rebuild the line |
| EnvFile.SplitAtFirstOf | digest.py:27 | the split cuts at the first '=' wherever the line is built with one |
| EnvFile.Actions | digest.py:24-28 | one action per line, in file order: the action at index i is the classification of line i |
| EnvFile.ClassifyLine | digest.py:25-28 | a line that strips to nothing or to a comment is skipped; one without '=' raises at the unpacking; otherwise the stripped key and value are assigned, unless `putenv` rejects the key (empty, or holding NUL) or the value (holding NUL); its cases are the lemmas below |
| EnvFile.Step | digest.py:24-28 | once a line has raised nothing changes; a skip keeps the environment; an assignment sets its key; a raising line records its index and keeps the environment |
| EnvFile.Apply | digest.py:24-28 | a raised line index lies within the file |
| EnvFile.RaisedAtFirstBadLine | digest.py:24-28 | loading stops at the first line that raises (no '=', or a key `putenv` rejects), and raises only there |
| EnvFile.ApplyStep | digest.py:24-28 | the lines are applied one at a time, from the front |
| EnvFile.Environ.LoadEnvFromFile | digest.py:20-30 | with no file the environment is unchanged; otherwise the new environment and the outcome are those of the file's actions applied to the old environment, in order |
| EnvFile.LoadStep | digest.py:24-28 | one more line: a skip changes nothing, an assignment sets its key, a raising line ends loading with the environment as it was |
| EnvFile.PrefixRaised | digest.py:24-28 | once a line raises, later lines change nothing |
| EnvFile.OtherKeysUnchanged | digest.py:28 | a key that no line assigns keeps its value, or stays unset |
| EnvFile.LastAssignmentWins | digest.py:28 | when the whole file loads, a key takes the value of its last assignment |
| EnvFile.KeepsEarlierAssignments | digest.py:24-28 | a line that raises leaves the assignments before it in place |
| EnvFile.PrefixNotRaised | digest.py:24-28 | lines that cannot raise load without raising |
| EnvFile.AssignmentRoundTrip | digest.py:25-28 | `KEY=value`, with a trimmed key and value, is read back as that assignment, even when the value holds '=' |
| EnvFile.AssignmentPadded | digest.py:25-28 | a line with white space around the key, the '=' and the value assigns the stripped key and value, and is refused when either of them holds NUL |
| EnvFile.CommentSkipped | digest.py:25-26 | a line whose first character after any leading white space is '#' is skipped, whatever follows |
| EnvFile.BlankSkipped | digest.py:25-26 | a white-space line is skipped |
| EnvFile.NoSeparatorRaises | digest.py:25-27 | a line without '=' that is neither blank nor a comment raises, whatever white space surrounds it |
| EnvFile.EmptyKeyRaises | digest.py:25-28 | a line whose first character after any leading white space is '=' has an empty stripped key and raises, whatever follows |
| EnvFile.FirstUnset | digest.py:34-47 | a variable of the list that the environment lacks, and `None` exactly when all are set |
| EnvFile.FirstUnsetIsFirst | digest.py:34-47 | every variable before the one reported is set: `get_env_variable` raises for the first unset variable in reading order |
| EnvFile.MissingVars | digest.py:62-63 | a variable is reported missing exactly when its value is false: 0 for `API_ID`, "" for the others |
| EnvFile.CheckConfig | digest.py:41-66 | start-up succeeds only when all six variables are set |
| EnvFile.CheckConfigSucceeds | digest.py:41-66 | start-up goes on exactly when all six variables are set, `API_ID` is a non-zero integer and the other five are non-empty; the settings are then the environment's values |
| TextClient.ApiCall | digest.py:75-112 | one or two attempts (two only with `retry`); an attempt is made after every failure while `retry` holds; the result is the last attempt's text exactly when that attempt succeeded; the sleeps are one per attempt, plus one before the retry |
| TextClient.CallClaudeApi | digest.py:75-112 | the loop with an attempt counter gives the same result, attempts and sleeps as the recursive call with `retry=True` |
| TextClient.SleepTime | digest.py:99-112 | the call sleeps 2 seconds after a first success and 6 otherwise |
| TextClient.RetryAfterHttpError | digest.py:92-102 | a non-200 status, then a 200: the second text after two attempts |
| TextClient.FailureKindIrrelevant | digest.py:96-110 | a non-200 status, an unreadable body and an exception on the first attempt lead to the same outcome |
| DateLabel.MonthNamed | digest.py:115-118 | a month found by name has that name |
| DateLabel.MonthNamedOfName | digest.py:115-118 | looking a month's own name up gives that month back: the month table has no repeats |
| DateLabel.MonthNameIsWord | digest.py:115-118 | every month name is a non-empty word with no space that does not start with a digit, so the word splitting of the cross-month form finds it whole |
| DateLabel.FormatDateRange | digest.py:114-123 | "d1-d2 M" when both dates are in the same month of the same year, "d1 M1 - d2 M2" otherwise; `FormatDateRangeRoundTrip` reads every label back to these parts |
| DateLabel.OneMonthRoundTrip | digest.py:120-121 | the one-month label reads back as its two days and its month |
| DateLabel.TwoMonthsRoundTrip | digest.py:122-123 | the two-month label reads back as its two days and two months |
| DateLabel.FormatDateRangeRoundTrip | digest.py:114-123 | every label reads back as the days of both dates, the end's month, and the start's month exactly when the two dates are not in the same month of the same year |
| DateLabel.FormatDateRangeInjective | digest.py:114-123 | two periods share a label only when they share those parts |
| DateLabel.SameMonthOtherYear | digest.py:120-123 | the same month in different years takes the two-month form |
| DateLabel.SameMonthExample | digest.py:120-121 | 3 to 9 July gives "3-9 июля" |
| DateLabel.CrossMonthExample | digest.py:122-123 | 30 May to 2 June gives "30 мая - 2 июня" |
| Composer.CreateDigest | digest.py:125-159 | empty messages give the fixed text with no request; otherwise exactly one call with the date label and the messages, whose result (`None` included) is returned |
| Composer.GenerateImagePrompt | digest.py:174-198 | one call with the digest; it raises exactly when that call gives `None`, otherwise it returns the stripped text, which neither starts nor ends with white space |
| ImageStage.ImageUrl | digest.py:235-241 | a URL exists exactly for a non-empty list or a string |
| ImageStage.GenerateAndSaveImage | digest.py:200-266 | the URL downloaded is the output's URL, and the path returned is one of the two file names |
| ImageStage.PngExactly | digest.py:243-255 | the `.png` path is returned exactly when the image was downloaded, written and converted |
| ImageStage.WebpExactly | digest.py:252-258 | the `.webp` path is returned exactly when the image was saved and `convert` exited non-zero |
| ImageStage.NoneExactly | digest.py:235-266 | `None` is returned exactly when there is no URL, the download or write fails, or `convert` cannot be started |
| ImageStage.ListActsAsFirst | digest.py:235-238 | a list output acts as its first element |
| LineBreaks.RunLength | digest.py:270 | the length of the maximal newline run at `q` |
| LineBreaks.FirstGap | digest.py:270 | a gap found lies at or after the start of the search |
| LineBreaks.FirstGapIsFirst | digest.py:270 | there is no gap before the one `FirstGap` finds: the lazy `.+?` stops at the first |
| LineBreaks.ListGapAt | digest.py:270 | the first pattern matches at a position exactly when a list item starts there and a gap follows at least one character after it; it resumes at the gap's last newline |
| LineBreaks.CollapseListGapsVisible | digest.py:270 | the first pass only deletes newlines |
| LineBreaks.CollapseListGapsShortens | digest.py:270 | where a list item is followed by a gap, the first pass shortens the text |
| LineBreaks.CollapseListGapsKeeps | digest.py:270 | where no list item is followed by a gap, the first pass copies the text |
| LineBreaks.CollapseListGapsUnchanged | digest.py:270 | the first pass changes the text exactly when some list item is followed by a gap |
| LineBreaks.CollapseListGaps | digest.py:270 | the first `re.sub` as a left-to-right scan: at each position, an item followed by a gap loses that gap's newlines but the one its look-ahead keeps; it never lengthens the text |
| LineBreaks.CollapseBlankRunsVisible | digest.py:273 | the second pass only deletes newlines |
| LineBreaks.CollapseBlankRunsLead | digest.py:273 | the output opens with the input's newline run, cut to two |
| LineBreaks.CollapseBlankRunsNoTriple | digest.py:273 | after the second pass no three newlines are adjacent |
| LineBreaks.CollapseBlankRunsKeeps | digest.py:273 | a text without three adjacent newlines passes unchanged |
| LineBreaks.CollapseBlankRunsUnchanged | digest.py:273 | the second pass changes the text exactly when three newlines are adjacent |
| LineBreaks.CollapseBlankRunsIdempotent | digest.py:273 | the second pass alone is idempotent |
| LineBreaks.CollapseBlankRuns | digest.py:273 | the second `re.sub`: each run of three or more newlines becomes two; it never lengthens the text |
| LineBreaks.RemoveExtraLineBreaks | digest.py:268-275 | the two passes, list gaps first; its properties are `RemoveExtraLineBreaksSpec` and `RemoveExtraLineBreaksUnchanged` |
| LineBreaks.RemoveExtraLineBreaksSpec | digest.py:268-275 | the clean-up deletes only newlines, never lengthens the text, and leaves no three adjacent newlines |
| LineBreaks.RemoveExtraLineBreaksUnchanged | digest.py:268-275 | the text is returned unchanged exactly when no list item is followed by a gap and no three newlines are adjacent |
| LineBreaks.PlainTextUnchanged | digest.py:268-275 | text with no "\n- " and no three adjacent newlines is returned as it is |
| LineBreaks.NoDoubleNewlineNothingToDo | digest.py:268-275 | without two adjacent newlines neither pass has anything to do |
| LineBreaks.FirstPassBetweenItems | digest.py:270 | "\n- a\n\n- b" becomes "\n- a\n- b" |
| LineBreaks.BlankLineBetweenItems | digest.py:268-275 | the whole clean-up turns "\n- a\n\n- b" into "\n- a\n- b" |
| LineBreaks.LeadingItemKeepsGap | digest.py:268-275 | an item at the very start of the text has no newline before it, so the gap after it stays |
| LineBreaks.NotIdempotentFirst | digest.py:268-275 | the first application to "\n- a\n\n-x\n\n- b" removes only the blank line before "-x" |
| LineBreaks.NotIdempotentSecond | digest.py:268-275 | a second application then removes the remaining blank line |
| LineBreaks.NotIdempotent | digest.py:268-275 | applying the clean-up twice can differ from applying it once |
| Collection.Reached | digest.py:297-299 | the records read before the loop stops are never more than the history holds |
| Collection.ReachedSpec | digest.py:297-299 | what is read is a prefix of the history, none of it older than the start, and the record right after it (when there is one) is older than the start |
| Collection.ReachedGrows | digest.py:297-299 | a record the loop reads and does not stop at is part of what is reached |
| Collection.Filter | digest.py:300-302 | every record kept lies in the window and has text |
| Collection.Entries | digest.py:303-304 | one entry per record, each made from its own record |
| Collection.Reversed | digest.py:310 | `reverse()` puts element `i` at position `n - 1 - i` |
| Collection.CollectMessages | digest.py:295-311 | the loop returns the entries of the selected records in reverse, and counts them |
| Collection.CollectStep | digest.py:300-305 | one more record adds its entry exactly when it is kept |
| Collection.FilterSnoc | digest.py:300-302 | filtering a record onto the end keeps it exactly when it is kept |
| Collection.ReachedIsPrefix | digest.py:297-299 | where the loop stops, it has reached exactly the records `Reached` names |
| Collection.SelectedMembership | digest.py:297-305 | a record becomes an entry exactly when it lies in the window, has text, and no record before it is older than the start |
| Collection.StopLosesNothing | digest.py:297-300 | on a newest-first history the early `break` loses no record of the window |
| Collection.NothingKeptAfter | digest.py:298-299 | once a newest-first history passes below the start, nothing later is in the window |
| Collection.FilterNewestFirst | digest.py:300-302 | the filter keeps the records in order |
| Collection.FilterFrom | digest.py:300-302 | every record the filter keeps comes from its input |
| Collection.Chronological | digest.py:297-310 | on a newest-first history the entries come out oldest first |
| Collection.EntryEndsWithLink | digest.py:303-304 | an entry ends with its message's link |
| Collection.Entry | digest.py:303-304 | the formatted timestamp, " - ", the text, "\nMessage link: " and the link; it ends with the link (`EntryEndsWithLink`) |
| Collection.MessageLinkInjective | digest.py:303 | different message ids give different links |
| Collection.MessageLink | digest.py:303 | "https://t.me/" + username + "/" + the decimal id; distinct ids give distinct links (`MessageLinkInjective`) |
| Pipeline.Deliveries | digest.py:337-353 | one or two sends, all with the digest's text; `send_file` first exactly when there is an image; a second, text-only send exactly when `send_file` raised |
| Pipeline.Summarise | digest.py:317-353 | the digest is the result of the digest request; a false digest ends the run with nothing sent; otherwise the tidied digest goes to the illustration request, the run raises exactly when that request gives `None`, the stripped prompt goes to the image stage, whose path picks the sends, and the attempts are those of the two requests together; the run fails at the end exactly when its last send is a `send_message` that raises |
| Pipeline.IllustrateAndSend | digest.py:322-350 | for a true digest: the illustration request gets the tidied digest, `None` from it raises and sends nothing, and otherwise the stripped prompt's image path decides between `send_file` and `send_message` |
| Pipeline.OutcomeDetermined | digest.py:317-353 | following the stages and hanging together fixes the whole run: two such runs for the same external effects are equal |
| Pipeline.RunDigest | digest.py:295-353 | a run returns early with nothing asked and nothing sent exactly when no record is kept; otherwise it asks for the digest of the joined entries, which are never empty, and follows the stages as `Summarise` does |
| Pipeline.EntriesNotEmpty | digest.py:313-317 | the first collected entry is non-empty, so the joined messages are too |
| Pipeline.Combined | digest.py:313-317 | the entries of the kept records, oldest first, joined with blank lines |
| WeekRange.Weekday | digest.py:163 | `weekday()` lies in 0..6 |
| WeekRange.PreviousWeekRangeAsWritten | digest.py:161-172 | the window as written: Monday to today on a Sunday, otherwise the Sunday before today to the Saturday six days later |
| WeekRange.AsWrittenSpansSevenDays | digest.py:161-172 | the window as written always runs seven days, from midnight to the last microsecond |
| WeekRange.AsWrittenOnSunday | digest.py:163-165 | on a Sunday it is the week from Monday to that Sunday |
| WeekRange.AsWrittenOnOtherDays | digest.py:166-168 | on any other day it runs from a Sunday to a Saturday that is today or later |
| WeekRange.AsWrittenOnAWednesday | digest.py:166-168 | Wednesday 17 July 2024 gives Sunday 14 July to Saturday 20 July |
| WeekRange.PreviousWeekRange | digest.py:161-172 | the corrected window: the Monday-to-Sunday week ending on the latest Sunday not after today |
| WeekRange.PreviousWeekRangeSpec | digest.py:161-172 | the corrected window runs Monday to Sunday, ending on the latest Sunday not after today |
| WeekRange.PreviousWeekRangeIsLatest | digest.py:161-172 | no later Monday-to-Sunday week has ended by today |
| WeekRange.SameOnSunday | digest.py:163-165 | on Sundays the corrected and the written window agree |

## Findings

| source | as written | input that shows it | evidently intended | confidence | as-written member | corrected member |
|---|---|---|---|---|---|---|
| digest.py:166-168 | on any day but Sunday, `most_recent_monday` is `today - (weekday() + 1)` days, which is a Sunday, and the window ends six days later, on a Saturday not before today | Wednesday 17 July 2024 gives 14 July 00:00 to 20 July 23:59:59.999999, three days in the future | the last whole Monday-to-Sunday week that has ended, as the function's name and its variable `most_recent_monday` say (8 to 14 July 2024) | high; not executed | WeekRange.AsWrittenOnAWednesday | WeekRange.PreviousWeekRangeSpec |

`WeekRange.PreviousWeekRangeAsWritten` is the function as written.
`WeekRange.PreviousWeekRange` is the corrected one.
Nothing in the script calls `get_previous_week_range`: `main` takes its dates from the command line.

## Left out

- Telethon (`client.start`, `get_entity`, `iter_messages`, `send_file`, `send_message`, `disconnect`) is network I/O. The history is an input sequence, and whether each send raises is an input flag.
- aiohttp, the JSON payload and headers, `replicate.run` and `requests.get` are foreign calls. Each is an outcome datatype supplied by the caller.
- The `convert` subprocess and the file writes are external. Only their outcomes are modelled.
- `asyncio.Semaphore` is left out, both its acquire in each call and the nested acquire of the retry. It serves concurrency only, and the model is sequential.
- `asyncio.sleep` is modelled as a count of sleeps. `REQUEST_INTERVAL` is taken as the integer 2, where Python has the float `2.0`.
- `datetime.now` is a parameter: the current day's number, counted as `toordinal` counts it.
- EnvFile.Environ.LoadEnvFromFile: classifies every line before applying any, and writes the environment once when its loop stops rather than once per line; the classification is pure and nothing else runs during the loop, so the outcome is the same.
- `get_previous_week_range` does not model the `OverflowError` that `timedelta` arithmetic raises at the two ends of the calendar: within a week of 1 January of year 1, and from 27 to 31 December 9999, where the end of the range (1 January 10000) is past `date.max`.
- argparse and `strptime` (digest.py:278-284) are left out. `main`'s window is given as two dates, from midnight of the first to 23:59:59.999999 of the last.
- `strftime` is an abstract function from timestamp to text.
- `iter_messages(offset_date=end_date)` is left out. The history given is whatever that call yields; the loop's own `start <= date <= end` test is modelled.
- Logging and the literal text of the two prompts are left out. A prompt records the date label and the messages, or the digest, that the script puts into it.
- The module-level `os.environ["REPLICATE_API_TOKEN"]` write (digest.py:52) and the client construction are left out. They are import-time side effects that change nothing the model follows.
- Text.ParseInt: accepts only ASCII digits. Python's `int` also accepts other Unicode decimal digits.
- EnvFile.ClassifyLine: the rule for what `os.environ` rejects follows CPython on POSIX, where an empty name and a NUL character in the name or value raise. A name holding '=' is also rejected there, but none can occur after `split('=', 1)`.
- EnvFile.Environ.LoadEnvFromFile: the file's lines are given up front, so a read error part-way through is not modelled.
- Pipeline.Summarise: an exception raised by `send_message` inside the `except` branch ends `main` before `disconnect`. The model reports it as `SendMessageRaised` and does not model `disconnect`.
