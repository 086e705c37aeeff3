# Email reply automation: a verified model of its core

The system reads an email from a text file and parses it into a subject, a body and header fields. It passes the body through a three-stage pipeline of language-model calls:

1. classify the email into a category;
2. extract the intent and named entities;
3. write a reply.

Each model call goes through a retry with exponential backoff. Every handled email is logged to a CSV file, either as one JSON record per row or as five plain columns. A dashboard reads that log back and computes simple statistics about the replies.

The project models this core in Dafny, one module per source file or concern:

| module | models |
|---|---|
| `Strings` | the Python `str` operations the parsers rely on: `strip`, `lower`, `split`, `split(p, 1)`, `find`, `replace`, `in` |
| `EmailProcessor` | the rich parser `parse_email` of `src/core/email_processor.py`; its header loop and date loop are methods proved against functions |
| `ParserExample` | the repository's parsing test, replayed on the model |
| `LegacyParser` | the line-based `parse_email` of `email_parser.py`, and how it relates to the rich parser |
| `Retry` | `retry_with_exponential_backoff` and `safe_api_call` of `src/utils/helpers.py` |
| `Workflow` | the three nodes and the fixed graph of `src/core/langgraph_workflow.py` |
| `LogFile` | the log file as a class whose rows are appended in place |
| `DataLogger` | the JSON-state `log_to_csv` of `src/core/data_logger.py` |
| `CsvLogger` | the five-column `log_to_csv` of `csv_logger.py` |
| `ReplyData` and `LogRoundTrip` | `load_reply_data`, and the round trip from a sequence of logging calls to the records read back |
| `Analytics` | the integer parts of `get_reply_statistics` and `analyze_reply_quality`; `utils.py:113-151` holds an identical copy of both, which this one model covers |

Everything outside the program is passed in as a parameter:

- the text of the file;
- `datetime.strptime`, as a function from format and text to an optional date;
- each model call, through what each of its attempts does;
- `random.random()`, as a stream of draws;
- `json.dumps` and `json.loads`;
- `datetime.now()`, as the text it renders to.

## Model

| member | source | states |
|---|---|---|
| Strings.Strip | src/core/email_processor.py:21 | the result is a slice of the text, with only whitespace removed around it, and it neither starts nor ends with whitespace |
| Strings.SplitOnce | src/core/email_processor.py:12 | a split happens exactly when the separator occurs; the text is the part before, the separator, then the part after; the part before holds no occurrence, so the split is at the first one |
| Strings.SplitJoins | src/core/email_processor.py:18 | for a non-empty separator, such as the `\n` of `split('\n')`, joining the pieces with the separator gives back the text |
| Strings.SplitPiecesFree | src/core/email_processor.py:18 | for a non-empty separator, no piece of a split contains the separator |
| Strings.RemoveAllLeading | src/core/email_processor.py:31 | for a non-empty pattern such as `Subject:`, `replace` on a text that starts with the pattern removes that occurrence and works on the rest |
| Strings.RemoveAllAbsent | src/core/email_processor.py:31 | removing a non-empty pattern that does not occur leaves the text whole |
| EmailProcessor.ParseEmail | src/core/email_processor.py:4-61 | the method returns the parsed email of the content, the record the lemmas below describe field by field |
| EmailProcessor.ParseHeaders | src/core/email_processor.py:16-21 | the header loop's dictionary is each line's entry assigned in order, over the lines of the header block split at `\n` |
| EmailProcessor.AddHeaderLine | src/core/email_processor.py:19-21 | one pass of the loop assigns the line's entry to the dictionary, or nothing for a line without `:` |
| EmailProcessor.ParseDate | src/core/email_processor.py:33-51 | the date loop returns the parsed date: none for "Unknown", else the first format's result |
| EmailProcessor.FirstParse | src/core/email_processor.py:44-49 | no date exactly when every format fails; otherwise the result of some format, with every earlier format failing |
| EmailProcessor.BlocksAtFirstBlankLine | src/core/email_processor.py:12-14 | the header block is the text before the first blank line and the body block the text after it; without a blank line the headers are empty and the body is the whole content |
| EmailProcessor.HeaderTextNeverInBody | src/core/email_processor.py:12-14 | for `h + "\n\n" + b`, with no blank line inside or at the end of `h`, the header block is `h` and the body block is `b` |
| EmailProcessor.BodyAfterFirstBlankLine | src/core/email_processor.py:12-21 | for such a message, the body is `b` trimmed and the headers come from the lines of `h` alone |
| EmailProcessor.LineWithoutColon | src/core/email_processor.py:19 | a line without `:` contributes no header |
| EmailProcessor.LineSplitAtFirstColon | src/core/email_processor.py:19-21 | for a key without `:`, the line `key + ":" + value` is split at that first `:`: the key is trimmed and lower-cased, and the trimmed value keeps any later `:` |
| EmailProcessor.AssignLastWins | src/core/email_processor.py:17-21 | a key is in the dictionary built by assignment exactly when some entry assigns it, and its value is the last such entry's |
| EmailProcessor.HeaderMapLastWins | src/core/email_processor.py:17-21 | a repeated header keeps the value of its last line, and a key is present exactly when some header line has it |
| EmailProcessor.FieldFallbacks | src/core/email_processor.py:24-27 | `sender` is the last `from` line, else the last `sender` line, else "Unknown"; `recipient` and `date` are their last lines or "Unknown"; `headers` is the dictionary itself |
| EmailProcessor.SubjectRule | src/core/email_processor.py:24-31 | no `subject` header gives "Unknown"; a value not starting with `Subject:` is kept; one starting with it loses every `Subject:` and is trimmed |
| EmailProcessor.DefaultSubjectIsUnknown | src/core/email_processor.py:24 | the default "Subject: Unknown" cleans to "Unknown" |
| EmailProcessor.DateRule | src/core/email_processor.py:33-51 | "Unknown" gives no date; otherwise no date means every format failed, and a date is the first format, in list order, that parsed |
| EmailProcessor.NoBlankLine | src/core/email_processor.py:12-14 | content without a blank line gives every field its default, no date, no headers, and the whole content trimmed as body |
| ParserExample.HeaderLineEntry | tests/test_basic_functionality.py:20 | the line `Subject: Test Email` yields the entry `("subject", "Test Email")` |
| ParserExample.MessageParsing | tests/test_basic_functionality.py:17-41 | the test message parses to subject "Test Email", the body after the blank line kept whole, the one header, and a lower-cased body holding the tested phrase |
| LegacyParser.LinesJoin | email_parser.py:3 | the lines of `readlines` put back together give the text |
| LegacyParser.LinesShape | email_parser.py:3 | every line is non-empty, has a newline only at its end, and has one there unless it is the last |
| LegacyParser.IndexOfLine | email_parser.py:5 | `lines.index(x)` is the first position holding `x`, or none when no line is `x` |
| LegacyParser.SubjectLineIndex | email_parser.py:4 | the first line starting with `subject:` in lower case, or none |
| LegacyParser.SubjectRule | email_parser.py:4 | when the parser succeeds, the subject is the first subject line as read, prefix and newline kept, or "Subject: Unknown" when no line qualifies |
| LegacyParser.RestIsBody | email_parser.py:5 | the parser raises exactly when no bare-newline line exists; otherwise the body is the text after that line, trimmed |
| LegacyParser.RestIsBodyBlock | email_parser.py:5 | for a text not opening with a newline, a body is found exactly when the text holds a blank line, and it is the text after the first one |
| LegacyParser.FailsWithoutBlankLine | email_parser.py:5 | `ValueError` is raised exactly when the text neither opens with a newline nor holds a blank line |
| LegacyParser.AgreesWithRichParser | email_parser.py:5 | where the legacy parser finds a body in a text not opening with a newline, it is the rich parser's body |
| Retry.RetryWithBackoff | src/utils/helpers.py:18-66 | the loop's outcome, number of calls and sleeps are those of the retry run defined by its first stopping attempt |
| Retry.SafeApiCall | src/utils/helpers.py:68-86 | the retry with the defaults, making one to four calls |
| Retry.FirstStop | src/utils/helpers.py:45-64 | for a starting attempt within the budget, the attempt that ends the retry is the first from there that succeeds, is the last allowed, or has a rejected sleep |
| Retry.CallsBounded | src/utils/helpers.py:45-54 | at most `max_retries + 1` calls, at least one, and one sleep between consecutive calls; a negative `max_retries` makes no call and raises a `TypeError` |
| Retry.FirstSuccessReturned | src/utils/helpers.py:45-47 | with non-negative settings and draws in `[0, 1)`, when the first `k` calls fail and call `k` (within the retry budget) succeeds, its value is returned after `k + 1` calls and `k` sleeps |
| Retry.LastErrorReraised | src/utils/helpers.py:48-54 | with non-negative settings, draws in `[0, 1)` and `max_retries >= 0`, when every call fails the final call's exception is re-raised after `max_retries + 1` calls and `max_retries` sleeps |
| Retry.NoInvalidSleep | src/utils/helpers.py:56-64 | with non-negative settings and draws in `[0, 1)`, no sleep length is negative |
| Retry.SafeApiCallBounded | src/utils/helpers.py:86 | with the defaults, at most four calls and three sleeps |
| Retry.DelayCapped | src/utils/helpers.py:57 | the delay before jitter is the capped exponential: at most `max_delay` and at most `base_delay * backoff_factor ** attempt`, and non-negative under non-negative settings |
| Retry.DelayMonotone | src/utils/helpers.py:57 | with a non-negative base delay and a factor of at least 1, a later attempt's delay is no smaller |
| Retry.JitterBounds | src/utils/helpers.py:59-61 | for a draw in `[0, 1)`: with jitter, a positive delay `d` becomes a sleep in `[d/2, d)`; without jitter it is `d` |
| Workflow.Topology | src/core/langgraph_workflow.py:96-105 | the graph runs classify, then extract, then reply, which is the finish point |
| Workflow.InvokeComposesNodes | src/core/langgraph_workflow.py:96-105 | invoking the graph composes the three nodes in order, and an exception in extract stops the run |
| Workflow.ClassifyRule | src/core/langgraph_workflow.py:45-51 | classify keeps the body and sets the category to the answer trimmed, or to "other" when the call fails; every other field is unset |
| Workflow.ExtractFallback | src/core/langgraph_workflow.py:54-64 | a failed call or an answer that is not JSON gives intent "unknown" and empty entities |
| Workflow.ExtractDecodedObject | src/core/langgraph_workflow.py:66-71 | when the answer decodes to an object: it supplies its `intent` and `entities`; each missing key gives "unknown" or `{}` on its own, and a `null` value gives no value; body and category are carried over and no reply is set |
| Workflow.ExtractRaises | src/core/langgraph_workflow.py:58-71 | extract raises exactly when the decoded answer is not an object, or holds an `intent` that is not a string or null, or `entities` that are not an object or null |
| Workflow.ReplyRule | src/core/langgraph_workflow.py:74-93 | reply sets the reply to the answer trimmed, or to the apology naming the category, and changes nothing else |
| Workflow.ApologyNamesCategory | src/core/langgraph_workflow.py:85 | the apology contains the category's text at a fixed position |
| Workflow.TotalOutage | src/core/langgraph_workflow.py:45-93 | when every model call fails the run completes, with "other", "unknown", `{}` and the apology for "other" |
| Workflow.CompletesUnlessExtractRaises | src/core/langgraph_workflow.py:54-105 | the run fails exactly when extract raises, and a completed run always has a reply |
| Workflow.AtMostTwelveCalls | src/core/langgraph_workflow.py:45-81 | one run makes between two and twelve model calls |
| Workflow.ScheduleScenario | src/core/langgraph_workflow.py:45-105 | when `loads` decodes the extract answer to the object with intent "schedule_meeting" and entities `{"day": "Tuesday"}`, and the other answers are "schedule" and "Sure, Tuesday works.", the run ends with exactly that category, intent, entities and reply |
| LogFile.AppendRow | src/core/data_logger.py:23-27 | appending creates the file when missing, keeps the rows before, and adds the row last |
| LogFile.CsvFile.OpenForAppend | src/core/data_logger.py:23 | opening for appending makes the file present and leaves its rows alone |
| LogFile.CsvFile.WriteRow | src/core/data_logger.py:26-27 | writing a row appends it to the file in place |
| DataLogger.LogToCsv | src/core/data_logger.py:6-27 | the new file and the result are those of one logging call on the old file |
| DataLogger.FullStateShape | src/core/data_logger.py:12-20 | the record has exactly seven keys, "Unknown" or `{}` for missing fields and the reply as given; only a missing body is an error |
| DataLogger.LogAppends | src/core/data_logger.py:9-27 | a successful call adds the header exactly when the file was missing, then one single-cell row; a call that raises leaves the file unchanged |
| CsvLogger.LogToCsv | csv_logger.py:5-20 | the new file and the result are those of one logging call on the old file |
| CsvLogger.ReplyRowShape | csv_logger.py:14-20 | the row is timestamp, subject, body, category and reply, with "Unknown" defaults (written as the text "Unknown" by a writer that puts a string into its cell unchanged); only a missing body is an error |
| CsvLogger.OtherKeysIgnored | csv_logger.py:14-20 | keys other than subject, body and category do not affect the row |
| CsvLogger.LogAppends | csv_logger.py:8-20 | the header is written exactly when the file was missing; a successful call adds one row; rows before are untouched |
| CsvLogger.HeaderOnlyAfterMissingBody | csv_logger.py:10-17 | a record without a body, logged to a new file, leaves a file holding only the header |
| ReplyData.LoadNothing | src/utils/helpers.py:96-104 | a missing file, or one holding at most the header, loads as no records |
| ReplyData.DecodeWritten | src/utils/helpers.py:106 | when `loads` reads back the text `dumps` wrote for each record, decoding the written rows gives back the records |
| ReplyData.LoadWritten | src/utils/helpers.py:99-107 | a present file holding the header plus the rows of one or more records, whose rows decode back to those records, loads as those records |
| ReplyData.OneBadRowEmpties | src/utils/helpers.py:106-110 | one row after the header that is empty or does not decode makes the loader return nothing |
| LogRoundTrip.LogAllRows | src/core/data_logger.py:23-27 | for records that each have a body, logging them to a present file appends one row per record, in order |
| LogRoundTrip.LogAllFromMissing | src/core/data_logger.py:9-27 | for one or more records, each with a body, logging them from no file gives the header followed by one row per record |
| LogRoundTrip.LogThenLoad | src/utils/helpers.py:92-110 | for records that each have a body, logged from no file, when `loads` reads back the text `dumps` wrote for each of them, the loader returns exactly those records, in order |
| Analytics.EmptyGivesNothing | src/utils/helpers.py:191-229 | both analytics give the empty dictionary exactly for no records |
| Analytics.DistinctBounded | src/utils/helpers.py:200-201 | a column has at most as many distinct values as entries, and at least one when not empty |
| Analytics.StatisticsCounts | src/utils/helpers.py:198-201 | for one or more records, the total is the number of records, and the distinct categories and intents lie between one and that total |
| Analytics.ModeIsFirstMode | src/utils/helpers.py:203-204 | the first mode of a non-empty column occurs in it, no value is more frequent, and equally frequent values are not smaller |
| Analytics.StatisticsModes | src/utils/helpers.py:203-204 | for one or more records, the most common category and intent are each the first mode of their column |
| Analytics.MinOf | src/utils/helpers.py:221 | for a non-empty list of lengths, the minimum occurs and bounds every length from below |
| Analytics.MaxOf | src/utils/helpers.py:222 | for a non-empty list of lengths, the maximum occurs and bounds every length from above |
| Analytics.BucketsPartition | src/utils/helpers.py:224-226 | the short (below 50), medium (50 to 199) and long (200 and over) counts add up to the number of replies |
| Analytics.QualityBounds | src/utils/helpers.py:217-226 | for one or more records, the buckets partition the replies; the minimum and the maximum are the lengths of some reply and bound every reply's length |

## Left out

- Reading and writing files, and `os.makedirs`, are left out. The parsers take the file's text, and the loggers work on a model of the file's rows. Python's universal-newline translation is not modelled: a `\r` is an ordinary character.
- CSV quoting and escaping are left out. A row written is taken to read back as the same row.
- `load_reply_data`'s exception handler is modelled for an empty row (the `IndexError` of `row[0]`) and for a first cell that does not decode; the other exceptions it catches, I/O errors and errors building the data frame, are left out.
- Strings.ToLower: lower-cases only the ASCII letters. The legacy parser only compares the result with `subject:`, and header keys are modelled the same way; Unicode case mapping is left out. Strings.Strip uses the full whitespace set of `str.isspace`.
- `datetime.strptime` is a parameter. It is assumed to raise only `ValueError`, which the loop catches.
- Retry.RetryWithBackoff: delays are exact reals, not floating point. The draws of `random.random()` are a parameter. `time.sleep` is recorded as the list of lengths, and the log messages are left out.
- Workflow.InvokeWithRetries: the three model calls read one shared stream of jitter draws, indexed by attempt; the real program draws them one after another from the generator.
- Prompt formatting, the model client and its configuration are left out. A model call is seen only by the text it returns, or by its failure.
- The LangGraph state merge is left out. Reply copies every field of the state it receives. Extract copies the body and the category, sets intent and entities, and leaves the reply unset. Classify keeps only the body. Each field a node leaves out is unset in the state it received, so the merged state equals each node's own state.
- The extract node's field checks follow pydantic's validation of `Optional[str]` and `Optional[Dict[str, Any]]`. Coercions pydantic may apply beyond null, string and object are left out.
- Analytics.GetReplyStatistics: omits `avg_reply_length`, a floating-point mean.
- Analytics.AnalyzeReplyQuality: omits `avg_length` and `std_length`, which are floating-point statistics.
- The analytics take a list of records, not a data frame. Missing columns, NaN values and pandas' ordering of mixed types are left out; strings are ordered by code point, as in Python.
- ReplyData.LoadReplyData: returns the decoded records, not a data frame; building the frame's columns is left out.
- The five-column logger writes to `logs/reply_log.csv`, while the loader reads `data/logs/reply_log.csv`. Only the JSON-state logger's file is connected to the loader in the round trip.
- DataLogger.FullState: the record is a map, so the key order `json.dumps` writes (the insertion order of the dictionary) is not modelled; `dumps` is a parameter and nothing in the model depends on that order.
- The timestamp is the text of `datetime.now()`, given as a parameter, for both loggers.
- The charts, the dashboard, the Streamlit pages, the training scripts and the configuration loader are not part of this model.
