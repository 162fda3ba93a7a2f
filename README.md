# AlertBot core in Dafny

AlertBot is a Telegram bot for a factory floor. A worker sends it a free-text
message about a machine. The bot wraps the message in a fixed prompt and asks
a language model to classify it. It then reads the model's bracketed reply:

```
[Тип: <event type>]
[Цех: <workshop>]
[Агрегат: <unit>]
[Информация: <details>]
```

It records the event in an SQLite database and answers with a short summary.
There are three event types:

- "Начало простоя": a downtime starts.
- "Устранение простоя": a downtime ends.
- "Появление ошибки": a fault appears.

This project models that core and proves properties about it.

- `ReplyParser` (`reply_parser.dfy`) is the line-by-line scan of the model's reply inside `process_response`.
  - `Classify` is the string work one line undergoes, and `Apply` is the state change that follows.
  - `Scan` and `Parse` are the specification of the loop.
  - The `ProcessLine` and `ParseResponse` methods are the loop itself, proved equal to that specification.
- `AiTools` (`ai_tools.dfy`) covers three things: the prompt template and its substitution, the opaque model call, and `process_response`'s decision after the loop.
  - There the reply either ends in an information summary, in a KeyError, in a start or an end recorded in the store, or in no record at all.
- `Database` (`database.dfy`) holds the `downtimes` and `errors` tables as sequences in a `Store` object, with one AUTOINCREMENT counter each.
  - Its methods are the queries of `database.py`.
  - The pure functions beside them (`LatestOpen`, `CloseLatest`, `Purge`, `Active`, `Report`) state what each query selects.
- `PyStr` (`pystr.dfy`) models the Python string operations the parser relies on:
  - `split`, `split(sep, 1)`, `join`, `strip(chars)`, `replace(c, '')` and `startswith`;
  - the code-point order SQLite uses to compare TEXT.
- `Wrappers` (`wrappers.dfy`) holds `Option` and `Outcome`.

The clock is a parameter. Every `datetime.now()` becomes an argument:

- `today` is the `%Y-%m-%d` date.
- `time` is the `%H:%M:%S` time.
- `now` is a full timestamp.
- `ago(d)` is the full timestamp `d` days before now.

The model call is the parameter `complete`, a function from prompt to reply. It yields `None` where the call raises.

The message inserted into the prompt is not the bare text the worker typed. The only caller (`user_handlers.py:84-85`) passes a dict holding the text, the time and the author. `format` therefore inserts that dict's `str()` form. `Prompt`'s `text` stands for that finished string; how Python renders the dict is not modelled.

Three points follow the code rather than the intent the prompt suggests:

- The quoted end type `"Устранение простоя"` is not acted on. Line 126 of `ai_tools.py` compares the same bare string twice.
- An error type without an information block raises KeyError('info') at line 123. It does so before `save_error_data` is entered, so nothing is recorded.
- `save_error_data` binds four values to the five placeholders of its INSERT. sqlite3 refuses that, so it never inserts (`SaveErrorData` returns `Fail`).

## Model

| member | source | states |
|---|---|---|
| PyStr.IndexOfSpec | ai_tools.py:105 | the first occurrence of the separator, with none before it; `None` exactly when it does not occur |
| PyStr.JoinSplit | ai_tools.py:105 | joining the pieces of `split(sep)` with `sep` gives the original string back |
| PyStr.SplitPiecesAvoidSeparator | ai_tools.py:105 | no piece of `split(sep)` contains `sep` |
| PyStr.SplitCutsIffContains | ai_tools.py:105-111 | `split(sep)` has a second piece, and `split(sep, 1)` has two, exactly when `sep` occurs |
| PyStr.FirstPieceIsBeforeSeparator | ai_tools.py:105 | `split(sep)[0]` is the text before the first `sep` (no occurrence starts inside it, and one starts right after it), or the whole string when there is none |
| PyStr.SecondPieceIsBetweenSeparators | ai_tools.py:105 | `split(': ')[1]` runs from the first `': '` up to the second one or to the end, and holds no `': '` |
| PyStr.SplitOnceKeepsRest | ai_tools.py:111 | `split(': ', 1)[1]` is every later piece of `split(': ')` joined back with `': '`, so later separators are kept |
| PyStr.TrimStartSpec | ai_tools.py:105 | the result is a suffix; every removed character is in the set; the first kept one is not |
| PyStr.TrimEndSpec | ai_tools.py:105 | the result is a prefix; every removed character is in the set; the last kept one is not |
| PyStr.StripSpec | ai_tools.py:99 | neither end of the result is in the set; the result is empty exactly when every character is in the set |
| PyStr.StripIsMiddlePiece | ai_tools.py:105-115 | `strip(chars)` removes only from the two ends and keeps the middle as one contiguous piece |
| PyStr.StripKeepsClean | ai_tools.py:99 | a string whose ends are not in the set is left unchanged |
| PyStr.RemoveCharSpec | ai_tools.py:107 | `replace('"', '')` leaves no `"`, keeps the set of other characters, changes nothing when there is no `"`, and on one character drops it exactly when it is `"` |
| PyStr.RemoveCharAppend | ai_tools.py:107-109 | `replace('"', '')` on a concatenation is the concatenation of the two results; with the one-character case this fixes the result, so every other character is kept in order and in number |
| PyStr.LessTransitive | database.py:85 | the code-point order of TEXT values is transitive |
| PyStr.LessTotal | database.py:85 | any two distinct TEXT values are ordered one way or the other |
| PyStr.LessAsymmetric | database.py:85 | the order is asymmetric |
| PyStr.LessIrreflexive | database.py:85 | the order is irreflexive |
| ReplyParser.SecondField | ai_tools.py:105 | `line.split(': ')[1]` exists exactly when the line contains `': '` (otherwise IndexError) |
| ReplyParser.AfterSeparator | ai_tools.py:111 | `line.split(': ', 1)[1]` exists exactly when the line contains `': '`, and it is everything after the first one |
| ReplyParser.ProcessLine | ai_tools.py:99-118 | one loop iteration on the variables it updates equals `Step` on that line |
| ReplyParser.ParseResponse | ai_tools.py:89-118 | the loop over `model_response.split('\n')` ends in the state `Parse` specifies |
| ReplyParser.TagsExclusive | ai_tools.py:104-110 | no line starts with two of the four tags, so the order of the `elif` chain does not matter |
| ReplyParser.ClassifyKinds | ai_tools.py:99-118 | what each line is: blank; tagged but without `': '`; tagged with a separator; or untagged |
| ReplyParser.ClassifyTagged | ai_tools.py:103-113 | a line yields a value for a tag exactly when it is a well-formed line of that tag |
| ReplyParser.SkippedLineKeepsState | ai_tools.py:99-101 | a blank line, or a tagged line without `': '` whose extraction raises, leaves the state unchanged |
| ReplyParser.FieldLineSetsField | ai_tools.py:104-109 | a well-formed type, workshop or unit line overwrites its field with its value and changes nothing else |
| ReplyParser.InfoLineStartsBlock | ai_tools.py:110-113 | a well-formed information line appends everything after its first `': '`, stripped of spaces and `]`, and turns the block on |
| ReplyParser.UntaggedLine | ai_tools.py:114-115 | an untagged non-blank line is appended with `' []'` stripped from its ends when the block is on; otherwise it is discarded |
| ReplyParser.OtherLineKeepsField | ai_tools.py:104-118 | a line that is not a well-formed line of a field's tag leaves that field alone |
| ReplyParser.ContributionOfLine | ai_tools.py:110-115 | what a line adds to `current_info` is the value of an information line or the text of an untagged line, and nothing else |
| ReplyParser.StepInBlock | ai_tools.py:110-115 | once the block is on it stays on, and each line adds its contribution |
| ReplyParser.StepBeforeBlock | ai_tools.py:110-115 | before the block, only a well-formed information line touches `current_info` or the flag, and it turns the flag on |
| ReplyParser.RunWithoutTags | ai_tools.py:89-118 | a run of lines none of which carries a tag leaves the initial state |
| ReplyParser.RunLastCarrierWins | ai_tools.py:104-109 | on classified lines, the last line that carries a field's tag decides that field |
| ReplyParser.RunWithoutCarrier | ai_tools.py:89-109 | on classified lines, a field no line carries keeps its initial value |
| ReplyParser.RunInfoBlock | ai_tools.py:110-115 | on classified lines, the block is on exactly when an information line occurs, and information was then collected |
| ReplyParser.RunCollectsFromFirstInfo | ai_tools.py:110-115 | on classified lines, `current_info` is what the lines from the first information line on collect |
| ReplyParser.RunSkipsInert | ai_tools.py:99-118 | on classified lines, a blank or malformed line can be removed without changing the outcome |
| ReplyParser.ClassifiedConcat | ai_tools.py:98 | classifying lines commutes with concatenation |
| ReplyParser.ScanOneMore | ai_tools.py:98-118 | one more line of the loop applies `Step` to that line |
| ReplyParser.NoTagKeepsInitial | ai_tools.py:89-96 | without a recognised tag the type stays "не определено", workshop and unit stay "н/д", and no information is collected |
| ReplyParser.LastFieldLineWins | ai_tools.py:104-109 | a field holds the value of the last well-formed line of its tag: the piece between the first and second `': '`, stripped of spaces and `]`, and with `"` removed for workshop and unit |
| ReplyParser.FieldWithoutLineKeepsSentinel | ai_tools.py:89-93 | a field without a well-formed line keeps its sentinel |
| ReplyParser.InfoBlockIffInfoLine | ai_tools.py:110-119 | the block is on, and `current_info` non-empty, exactly when some line is a well-formed information line |
| ReplyParser.ContributionsCollected | ai_tools.py:110-115 | the contributions of the lines, read from their text, are what their classifications collect |
| ReplyParser.InfoFromFirstInfoLine | ai_tools.py:110-115 | `current_info` is the contributions of the lines from the first well-formed information line on; untagged lines before it are discarded |
| ReplyParser.SkippedLineIsInert | ai_tools.py:103-118 | a skipped line is as if it were absent, and later lines are still processed |
| AiTools.Prompt | ai_tools.py:31-62 | the prompt is the template's head, then the message verbatim, then the template's tail |
| AiTools.PromptRoundTrip | ai_tools.py:80 | the message can be read back out of its prompt |
| AiTools.PromptInjective | ai_tools.py:80 | different messages give different prompts |
| AiTools.AnalyzeProductionMessage | ai_tools.py:79-86 | the model's answer to the prompt is returned; a failing call ends in NameError('model') from the `except` branch, not in the fallback dict |
| AiTools.Decide | ai_tools.py:119-127 | information first, whatever the type; then the error type (bare or quoted), the start type (bare or quoted) and the end type (bare only) are mutually exclusive |
| AiTools.TypesDistinct | ai_tools.py:122-126 | no type string passes two of the three tests |
| AiTools.Answer | ai_tools.py:119-128 | the information summary, a KeyError('info') exactly for an error type without information, and otherwise the four-field summary with the time |
| AiTools.ProcessResponse | ai_tools.py:88-128 | the answer is `Answer(Parse(reply))`; a start appends exactly one open row stamped `today time`; an end closes as `CloseLatest` does; every other outcome leaves the store unchanged; the errors table is never changed |
| AiTools.UndeterminedIsNoEvent | ai_tools.py:90 | the undetermined type is none of the three event types |
| AiTools.NoTagReplyReportsSentinels | ai_tools.py:89-93 | a reply without a recognised tag records nothing and answers with "не определено" and "н/д" |
| AiTools.InfoSummaryIffInfoLine | ai_tools.py:119-121 | the information summary, which records nothing, is given exactly when some line is a well-formed information line |
| AiTools.InfoSummaryText | ai_tools.py:119-121 | the summary's information is the contributions from the first information line on, joined with `' '` and stripped |
| AiTools.ErrorWithoutInfoRaises | ai_tools.py:122-123 | an error type with no information line raises KeyError('info') |
| AiTools.QuotedForms | ai_tools.py:124-127 | the start type is acted on bare and quoted; the end type only bare, and its quoted form records nothing |
| Database.LatestOpen | database.py:61-64 | the position of an open row for the key with no open row for the key after it; `None` exactly when there is none |
| Database.PurgeMembers | database.py:84-85 | a row survives exactly when its start is not before the threshold, whatever its end time |
| Database.WindowDays | database.py:95-102 | only "day", "week" and "month" have a window, of 1, 7 and 30 days |
| Database.Store.constructor | database.py:9-32 | both tables start empty, and both counters start at 1 |
| Database.Store.SaveStartDowntime | database.py:44-53 | exactly one open row is appended: it has the next id and starts at `today + " " + time`; nothing else changes |
| Database.Store.SaveEndDowntime | database.py:55-75 | the table and the message are those of `CloseLatest` stamped `today + " " + time`; the errors table is unchanged |
| Database.Store.DeleteOldDowntimes | database.py:80-87 | the table becomes `Purge` at thirty days ago; nothing else changes |
| Database.Store.GetDowntimeReport | database.py:89-113 | `[]` for an unknown period; otherwise the rows in the 1-, 7- or 30-day window ending now |
| Database.Store.GetActiveDowntimes | database.py:118-125 | the active-downtime query over the current table |
| Database.Store.InsertError | database.py:38-41 | five values insert one row with the next id; any other count fails with IncorrectBindings and changes nothing |
| Database.Store.SaveBreakdown | database.py:127-135 | exactly one error row holding all five fields is appended |
| Database.Store.SaveErrorData | database.py:34-42 | the insert always fails (four values for five placeholders) and no table changes |
| Database.AppendKeepsIdsAscending | database.py:15 | appending a row with the counter's id keeps ids increasing along the table, below the counter |
| Database.CloseLatestClosesNewestOpen | database.py:61-73 | the closed row has the largest id among the open rows for the key; no other row changes; the message is "start - end" |
| Database.NotFoundIsNoInterval | database.py:73-75 | the not-found message is never of the form "start - end" |
| Database.CloseLatestNotFound | database.py:66-75 | the not-found message comes exactly when no open row matches, and then the table is unchanged |
| Database.CloseLatestKeepsIdsAscending | database.py:68-71 | closing a row keeps the ids increasing |
| Database.LastStartWins | database.py:61 | after two starts for one key, an end closes the newer row and leaves the older one open |
| Database.StartThenEnd | database.py:46-73 | a start at `date1 time1` then an end at `date2 time2` answers "date1 time1 - date2 time2" |
| Database.PurgeAppend | database.py:85 | the purge filters row by row, so the surviving rows keep their order |
| Database.PurgeKeepsIdsAscending | database.py:85 | the purge keeps ids increasing |
| Database.PurgeIdempotent | database.py:85 | purging twice with one threshold is purging once |
| Database.LessNotBelow | database.py:85 | a time not before a newer threshold is not before an older one |
| Database.PurgeOlderAfterNewer | database.py:84-85 | after a purge at a newer threshold, a purge at an older one removes nothing |
| Database.ActiveMembers | database.py:122 | the active list holds exactly the rows whose end time is NULL |
| Database.ActiveAppend | database.py:122 | the active list follows table order |
| Database.ReportMembers | database.py:104-109 | the report holds exactly the rows with start, or a non-NULL end, in [since, now], both ends inclusive |
| Database.ReportAppend | database.py:104-109 | the report follows table order |
| Database.StartIsActive | database.py:44-53 | a started downtime is listed last among the active ones |
| Database.ActiveAround | database.py:122 | the active list of a table split around one row is the three parts' lists in order |
| Database.CloseLatestAround | database.py:66-71 | closing rewrites one row and keeps the rows before and after it |
| Database.CloseRemovesFromActive | database.py:55-75 | closing a downtime removes exactly its row from the active list |

## Left out

- `user_handlers.py` is not part of this model. It holds the Telegram routers, keyboards, message sending and report formatting: transport and user interface.
- The model call is not modelled. `InferenceClient`, `evaluate_model` and `load_config` (`ai_tools.py:7-28`) make network and configuration calls; the model is the parameter `complete`.
- `extract_data_downtime` and `extract_data_error` (`ai_tools.py:63-77`) are not modelled. They are model calls whose answers are cut by positional indexing, and nothing in the core calls them.
- The `str()` rendering of the caller's alert dict (`user_handlers.py:84`) is not modelled: `Prompt` takes the finished string that `format` inserts.
- The `print` calls of the logging branches are left out: they are output only.
- The clock is not modelled. `datetime.now()`, `timedelta` and `strftime` become the parameters `today`, `time`, `now` and `ago`.
- ProcessResponse: `process_response` reads the clock up to twice: once for the store call and once for the summary. The model uses one `time` for both, so a call that straddles a second boundary is not captured.
- AnalyzeProductionMessage: the model covers the `evaluate_model` failure only as the resulting NameError. The exception's text is not modelled.
- Not modelled: the SQLite connection handling, `CREATE TABLE` and the module-level `init_db()` call (`database.py:6-32`, `database.py:139`). The constructor stands for a fresh database.
- The SQLite INTEGER affinity of `workshop_num` and `unit_num` is not modelled. Keys are strings compared by equality, so `"05"` and `"5"` are distinct keys here, while SQLite would store both as 5.
- GetDowntimeReport: `datetime()` normalisation in the report query is not modelled. Timestamps are compared as `YYYY-MM-DD HH:MM:SS` strings in code-point order, which agrees with `datetime()` for well-formed timestamps.
- Concurrency and transactions are not modelled: each call is one sequential use of the database.
