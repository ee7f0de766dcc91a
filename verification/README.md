# Python exercises: log analysis, a phonebook bot, income summing, cached Fibonacci

This project models the logic of four small Python programs and proves what they do.

- **task_3** analyses a log file. Each line must match `^([\d:\-\s]+) (DEBUG|INFO|WARNING|ERROR) (.+)\n$`. The timestamp group must also read as `%Y-%m-%d %H:%M:%S`. Loading parses every line and fails at the first bad one. The records are counted per level, in first-seen order. `main` upper-cases an optional level given on the command line, refuses anything but the four levels, and lists the records of the chosen level.
- **task_4** is a command-line assistant with a phonebook:
  - the `input_error` decorator turns exceptions into replies;
  - the `add`, `change` and `phone` handlers work on a module-level dictionary;
  - `_normalize_phone` keeps `+` and digits, adds the `+38` country code unless the number already begins with `+`, and demands 13 characters;
  - `parse_input` splits a line into a command and its arguments;
  - `main` routes one command.
- **task_2** picks the words of a text that begin like `\d+\.\d+` and converts them with `Decimal`. It adds them up with `sum`, starting from the integer 0.
- **task_1** builds a Fibonacci closure over a private dictionary cache.

The modules follow the programs:

| File | Module | Models |
|---|---|---|
| `text.dfy` | `Text` | ASCII character classes, `str.split()`, `upper()` and `lower()` |
| `numerals.dfy` | `Numerals` | digit strings, their values, and fixed-width numerals |
| `log_parser.dfy` | `LogParser` | the log-line pattern, `strptime` and `parse_log_line` |
| `log_analysis.dfy` | `LogAnalysis` | loading, filtering, counting and task_3's `main` |
| `handler.dfy` | `Handler` | task_4's handlers and phone normalisation; the dictionary is the class `PhoneBook` |
| `assistant.dfy` | `Assistant` | `parse_input` and one turn of task_4's `main` |
| `profit.dfy` | `Profit` | decimals, `generator_numbers`, `sum` and task_2's `main` example |
| `fibonacci.dfy` | `Fibonacci` | the caching closure, as the class `CachingFibonacci` |
| `wrappers.dfy` | `Wrappers` | `Option` and `Result` |

A raised exception is a `Failure` (or `None`) that carries which exception it is. The phonebook and the Fibonacci cache are updated in place, so they are classes. Each of their methods is proved against a function of the old state. The steps that loop or change state are methods: `LoadLogs` reads the lines one by one, `Run` is task_3's `main`, `Dispatch` is one turn of task_4's loop, and `Example` drives the Fibonacci closure. The pure logic is functions, and lemmas state what it promises.

## Model

| member | source | states |
|---|---|---|
| Text.Split | task_2/main.py:19 | `str.split()` yields non-empty words free of whitespace, each made of characters of the text; `SplitWordThen`, `SplitLeadingSpace` and `SplitEmptyIffBlank` together fix the result for every text |
| Text.SplitJoinWords | task_2/main.py:19 | words joined by single spaces split back into exactly those words |
| Text.SplitWordThen | task_4/main.py:7 | a word followed by nothing or by whitespace is split off whole, and splitting goes on with the rest |
| Text.SplitLeadingSpace | task_4/main.py:7 | leading whitespace is skipped: a text starting with a space splits as the text after it |
| Text.SplitEmptyIffBlank | task_4/main.py:7 | `split()` yields no word exactly when the text is empty or whitespace only |
| Text.Upper | task_3/main.py:134 | `upper()` keeps the length and leaves no lower-case ASCII letter; each lower-case letter becomes the capital that lower-cases back to it, and every other character is kept |
| Text.Lower | task_4/main.py:8 | `lower()` keeps the length and leaves no ASCII capital; each capital becomes the lower-case letter that upper-cases back to it, and every other character is kept |
| Text.UpperIdempotent | task_3/main.py:134 | upper-casing twice is upper-casing once |
| Text.LowerIdempotent | task_4/main.py:8 | lower-casing twice is lower-casing once |
| Text.UpperOfUppered | task_3/main.py:53 | a string with no lower-case letter is unchanged by `upper()` |
| Text.LowerOfLowered | task_4/main.py:8 | a string with no capital letter is unchanged by `lower()` |
| Numerals.NumberOfDigits | task_3/main.py:48 | a number written on a width that fits it reads back as the same number |
| Numerals.DigitsOfNumber | task_3/main.py:48 | a digit string is the numeral of its value, padded to its own width |
| Numerals.NumberAppend | task_2/main.py:21 | the value of two digit strings put together is the first shifted by the second's length, plus the second |
| LogParser.ParseTimestamp | task_3/main.py:48 | `strptime` with `%Y-%m-%d %H:%M:%S`; its contract is stated by `ParseFormatTimestamp`, `ParseTimestampSound` and `ParseTimestampIff` |
| LogParser.ParseFormatTimestamp | task_3/main.py:48 | every valid date-time, written as `%Y-%m-%d %H:%M:%S`, is read back by `strptime` as itself |
| LogParser.ParseTimestampSound | task_3/main.py:48 | whatever `strptime` accepts is a valid date-time written in exactly that format |
| LogParser.ParseTimestampIff | task_3/main.py:48 | a timestamp reads as `d` if and only if `d` is valid and the text is `d` formatted |
| LogParser.ParseTimestampOf | task_3/main.py:48 | a 19-character text with the separators in place and the fields of a valid `d` reads as `d` |
| LogParser.FormatTimestampFields | task_3/main.py:48 | a formatted date-time has its separators at fixed positions and each field on its full width |
| LogParser.FormattedTimestampChars | task_3/main.py:11 | a formatted timestamp is made only of characters the timestamp group `[\d:\-\s]` accepts |
| LogParser.LevelNameIsUpper | task_3/main.py:53 | `upper()` leaves each of the four level literals unchanged |
| LogParser.TimestampSpan | task_3/main.py:11 | the timestamp group's greedy run: every character before the end is in the class, and the one at the end is not |
| LogParser.LineLength | task_3/main.py:11 | the message stops at the first line feed |
| LogParser.LevelAtIff | task_3/main.py:11 | the alternation finds a level exactly when that level's literal and a space begin the text, so there is only one answer |
| LogParser.MessageOfIff | task_3/main.py:11 | `(.+)\n$` accepts a non-empty message without line feeds, followed by one line feed or two, and yields that message |
| LogParser.MessageOfSound | task_3/main.py:11 | a message that was found is non-empty, has no line feed, and is followed by "\n" or "\n\n" and nothing more |
| LogParser.MessageOfLine | task_3/main.py:11 | a one-line message followed by one or two line feeds is found as itself |
| LogParser.MatchLine | task_3/main.py:46 | `re.match` of the log-line pattern; its contract is stated by `MatchLineIff`, `MatchLineSound` and `MatchLineComplete` |
| LogParser.MatchLineComplete | task_3/main.py:46-47 | a line built from a timestamp, a level and a message is matched with exactly those three groups |
| LogParser.MatchLineSound | task_3/main.py:46-47 | the groups of any match, put back together with the separators, are the line |
| LogParser.MatchedParts | task_3/main.py:46-47 | the pieces located by the match reassemble into a line of the pattern |
| LogParser.MatchLineIff | task_3/main.py:46-47 | `re.match` yields groups `(ts, level, msg)` if and only if the line is `ts`, a space, the level, a space, `msg` and the terminator |
| LogParser.ParseLogLine | task_3/main.py:37-57 | `parse_log_line`; its contract is stated by `ParseLogLineIff`, `ParseLogLineRejects`, `ParseLogLineBadTimestamp` and `ParseFormatLogLine` |
| LogParser.ParseLogLineIff | task_3/main.py:37-55 | `parse_log_line` returns a record exactly when the line fits the pattern and its timestamp is a valid formatted date-time; the record holds that date-time, level and message |
| LogParser.ParseLogLineRejects | task_3/main.py:56-57 | the "unexpected format" `ValueError` is raised exactly when no split of the line fits the pattern |
| LogParser.ParseLogLineBadTimestamp | task_3/main.py:48 | a line that fits the pattern but whose timestamp is not a valid date-time raises `strptime`'s `ValueError` |
| LogParser.UnterminatedLineRejected | task_3/main.py:11 | a line without its final line feed never matches |
| LogParser.ParseFormatLogLine | task_3/main.py:37-55 | any record with a valid date and a one-line message, written in the log format, parses back to itself |
| LogAnalysis.LoadLogs | task_3/main.py:60-73 | the load succeeds exactly when every line parses, and then yields one record per line in order; otherwise it fails with the error of the first line that does not parse |
| LogAnalysis.Loaded | task_3/main.py:69-73 | the records of a fully parsed file are as many as its lines |
| LogAnalysis.UnterminatedLastLineFailsLoad | task_3/main.py:29-34 | a file whose last line lacks its line feed fails to load |
| LogAnalysis.ParseLevel | task_3/main.py:134-136 | a requested level is accepted exactly when its upper-case form is one of the four literals |
| LogAnalysis.FilterByLevel | task_3/main.py:76-86 | the filter keeps, in order, only records whose level equals the upper-cased argument, as many as there are; nothing for an unknown level |
| LogAnalysis.OccurrencesCons | task_3/main.py:98 | the count of a level over a list is the head's contribution plus the count over the rest |
| LogAnalysis.Tally | task_3/main.py:98-99 | counting one level; its contract is stated by `TallyKeys`, `TallyCount`, `TallyTotal` and `TallyPositive` |
| LogAnalysis.TallyKeys | task_3/main.py:98 | counting a seen level keeps the key order; a new level is appended last |
| LogAnalysis.TallyCount | task_3/main.py:98 | counting adds one to that level's count and to no other |
| LogAnalysis.TallyTotal | task_3/main.py:98 | counting one record adds one to the total |
| LogAnalysis.TallyPositive | task_3/main.py:98 | counting keeps every stored count at 1 or more |
| LogAnalysis.CountByLevel | task_3/main.py:89-99 | `count_logs_by_level`; its contract is stated by `CountByLevelKeys`, `CountByLevelCount`, `CountByLevelPositive`, `CountByLevelTotal` and `CountByLevelSpec` |
| LogAnalysis.CountByLevelKeys | task_3/main.py:89-99 | the keys of the counts are the levels present, without repeats, in first-seen order |
| LogAnalysis.CountByLevelCount | task_3/main.py:89-99 | each level's count is its number of records, and 0 when absent |
| LogAnalysis.CountByLevelPositive | task_3/main.py:89-99 | no key has a zero count |
| LogAnalysis.CountByLevelTotal | task_3/main.py:89-99 | the counts add up to the number of records |
| LogAnalysis.CountByLevelSpec | task_3/main.py:89-99 | the keys, the per-level counts, the positivity and the total, together |
| LogAnalysis.DistinctSpec | task_3/main.py:98 | removing repeats keeps exactly the same elements, leaves no duplicates, and keeps first-occurrence order |
| LogAnalysis.FirstIndex | task_3/main.py:98 | the first position of an element holds that element, and the element does not occur before it |
| LogAnalysis.FilterMatchesCount | task_3/main.py:130-140 | the records listed for a level are as many as the counts shown for it |
| LogAnalysis.DetailsFor | task_3/main.py:126-140 | no details when no level or an empty one is given; a refusal exactly when the level is not one of the four in any case; otherwise the filtered records of that level, as many as its count |
| LogAnalysis.Run | task_3/main.py:128-144 | `main` reports the load error exactly when some line does not parse, and that error is the first failing line's; otherwise it reports the counts of the loaded records and the details for the requested level |
| Handler.InputError | task_4/handler.py:14-29 | the decorated handler returns the handler's reply, the `ContactError` message, or the usage text for `ValueError`/`IndexError` |
| Handler.KeepPhoneChars | task_4/handler.py:81 | `findall("[+\d]")` joined keeps only `+` and digits, drawn from the input |
| Handler.KeepPhoneCharsOfPhoneChars | task_4/handler.py:81 | a string of `+` and digits is kept whole |
| Handler.KeepPhoneCharsAppend | task_4/handler.py:81 | keeping `+` and digits distributes over concatenation |
| Handler.KeepNoPhoneChars | task_4/handler.py:81 | a string without `+` or digits leaves nothing |
| Handler.WithCountryCode | task_4/handler.py:84 | the result begins with `+38`; a number that begins with `38` only gains the `+`, any other gets `+38` in front |
| Handler.NormalizePhone | task_4/handler.py:67-89 | a normalised number is 13 characters of `+` and digits beginning with `+`; the only failure is the `ValueError` |
| Handler.NormalizePhoneCases | task_4/handler.py:80-89 | for the kept `+` signs and digits `k`: a `+`-led `k` is returned when it has 13 characters; a `38`-led one gets `+` when it has 12; any other gets `+38` when it has 10; in every other case the `ValueError` is raised |
| Handler.NormalizeKeptCases | task_4/handler.py:83-89 | the same three cases, after the `findall` |
| Handler.InnerPlusKept | task_4/handler.py:83-84 | a `+` inside the number is kept: `38` digits, a `+` and digits, 12 characters in all, come back with a leading `+` and the inner `+` in place |
| Handler.NormalizeNormalized | task_4/handler.py:83-89 | a number already in normal form is returned unchanged |
| Handler.NormalizeIdempotent | task_4/handler.py:67-89 | normalising a normalised number changes nothing |
| Handler.NormalizeNationalNumber | task_4/handler.py:83-87 | ten digits not starting with 38 get `+38` in front; ten digits that do start with 38 are too short and raise |
| Handler.NormalizeFullNumber | task_4/handler.py:83-84 | twelve digits starting with 38 get a leading `+` |
| Handler.NormalizeIgnoresSeparators | task_4/handler.py:80-81 | characters other than `+` and digits, wherever they stand, do not change the result |
| Handler.AddContactEffect | task_4/handler.py:31-39 | `add` stores the normalised number for a new name; it reports an existing name, bad arity or a bad number and leaves the book unchanged; stored numbers stay normalised |
| Handler.ChangeContactEffect | task_4/handler.py:41-50 | `change` replaces the number of a known name; it reports an unknown name, bad arity or a bad number; the set of names never changes |
| Handler.GetPhone | task_4/handler.py:52-60 | `phone` returns the stored number for exactly one known name, or the error message |
| Handler.AddThenGetPhone | task_4/handler.py:31-60 | after a successful add, looking the name up returns the normalised number |
| Handler.AddTwiceKeepsFirst | task_4/handler.py:36-37 | adding a name a second time is refused and keeps the first number |
| Handler.ChangeThenGetPhone | task_4/handler.py:41-60 | after a successful change, the name returns the new number and every other name keeps its own |
| Handler.PhoneBook.constructor | task_4/handler.py:6 | the phonebook starts empty |
| Handler.PhoneBook.AddContact | task_4/handler.py:31-39 | updates the dictionary in place exactly as `AddContactEffect` says, and keeps every number normalised |
| Handler.PhoneBook.ChangeContact | task_4/handler.py:41-50 | updates the dictionary in place exactly as `ChangeContactEffect` says, and keeps every number normalised |
| Handler.PhoneBook.GetAllContacts | task_4/handler.py:62-64 | returns the dictionary itself, every number in it normalised |
| Assistant.ParseInput | task_4/main.py:5-9 | blank input raises the unpacking `ValueError`; otherwise the words of the line come back, the first lower-cased and the rest unchanged |
| Assistant.ParseInputOfWords | task_4/main.py:5-9 | words typed with single spaces come back with the first lower-cased |
| Assistant.Dispatch | task_4/main.py:15-39 | one turn: only `exit`/`close` stop the loop; `add`/`change` apply their effect to the phonebook; `phone`, `hello` and `all` only read it; anything else gets the usage line; blank input escapes as an error |
| Assistant.QuitInAnyCase | task_4/main.py:8 | a word stops the loop exactly when its lower-case form is `exit` or `close` |
| Profit.HasDecimalPrefix | task_2/main.py:20 | the `re.match` test; its contract is stated by `HasDecimalPrefixIff`, `PrefixAt`, `NoLeadingDigit` and `NotAmounts` |
| Profit.HasDecimalPrefixIff | task_2/main.py:20 | `re.match(r"\d+\.\d+", w)` succeeds exactly when `w` is digits, a point, digits and anything after |
| Profit.NotAmounts | task_2/main.py:20 | "100", ".5", "5." and "abc" are not picked |
| Profit.PrefixAt | task_2/main.py:20 | digits, a point and a digit at the start make a word pass |
| Profit.NoLeadingDigit | task_2/main.py:20 | a word that does not begin with a digit does not pass |
| Profit.Candidates | task_2/main.py:19-20 | the words picked number no more than the words, and each passes the test |
| Profit.CandidatesCount | task_2/main.py:19-20 | every word that passes is picked as often as it occurs; no other word is picked |
| Profit.CandidatesAppend | task_2/main.py:19-20 | the words are picked in text order: picking from a concatenation concatenates the picks |
| Profit.CandidatesNone | task_2/main.py:19-20 | when no word passes, nothing is picked |
| Profit.ExponentOf | task_2/main.py:21 | an exponent is read exactly when the tail is empty or `[eE][+-]?digits` |
| Profit.ExponentOfDigits | task_2/main.py:21 | `e7`, `E7` and `e+7` read as 7, and `e-7` as -7 |
| Profit.SplitLiteralSound | task_2/main.py:21 | the parts a literal splits into are two non-empty digit runs and a tail not starting with a digit, and with the point they make up the word |
| Profit.SplitLiteralOf | task_2/main.py:21 | a literal splits into exactly its whole digits, fraction digits and tail |
| Profit.ToDecimalOfLiteral | task_2/main.py:21 | `Decimal("a.b" + exponent)` has the digits of `a` and `b` as coefficient and the written exponent less the fraction length |
| Profit.ToDecimal | task_2/main.py:21 | `Decimal(word)`; its contract is stated by `ToDecimalOfLiteral`, `ToDecimalSound`, `LiteralValue` and `PlainAmount` |
| Profit.ToDecimalSound | task_2/main.py:21 | only a word that is a full literal converts; anything else raises |
| Profit.LiteralValue | task_2/main.py:21 | the converted value is the whole part plus the fraction digits at their places |
| Profit.PunctuatedAmountFails | task_2/main.py:20-21 | a word such as "12.50," passes the prefix test and then fails to convert |
| Profit.ConvertAll | task_2/main.py:19-21 | converting succeeds exactly when every picked word converts, and then gives one value per word in order |
| Profit.GeneratorNumbers | task_2/main.py:19-21 | `generator_numbers`, all its yields collected; its contract is stated by `Candidates`, `CandidatesCount`, `CandidatesAppend`, `ConvertAll` and `GeneratorNumbersFails` |
| Profit.GeneratorNumbersFails | task_2/main.py:19-34 | one picked word that does not convert makes the generator, and so `sum_profit`, raise |
| Profit.Add | task_2/main.py:34 | decimal addition is exact and takes the smaller exponent |
| Profit.AlignedValue | task_2/main.py:34 | rewriting a decimal at a smaller exponent keeps its value |
| Profit.SameExponentSum | task_2/main.py:34 | at a shared exponent, adding decimals is adding coefficients |
| Profit.ScaleUp | task_2/main.py:34 | raising the exponent by `k` multiplies by `10^k` |
| Profit.Sum | task_2/main.py:34 | `sum` from the integer 0 gives the exact total, with the smallest exponent among 0 and the summands' |
| Profit.SumProfit | task_2/main.py:23-34 | `sum_profit` succeeds exactly when the generator does, its value is the total of the numbers found, and a text with no number gives 0 |
| Profit.IncomeWordsAreWords | task_2/main.py:38 | the example text is made of whitespace-free words |
| Profit.IncomeCandidates | task_2/main.py:38 | in the example text only "1000.01", "27.45" and "324.00" are picked, in that order |
| Profit.ThreeAmounts | task_2/main.py:19-20 | three amounts among words that are not amounts are picked alone, in order |
| Profit.PhrasesHaveNone | task_2/main.py:38 | the example's two phrases hold no amount |
| Profit.AmountsPass | task_2/main.py:38 | each of the example's amounts passes the test |
| Profit.AmountValues | task_2/main.py:38 | the example amounts convert to 100001, 2745 and 32400 hundredths |
| Profit.AmountValue | task_2/main.py:21 | a plain `digits.digits` amount converts to the number its digits spell, at minus its fraction length |
| Profit.PlainAmount | task_2/main.py:21 | a word of digits with one inner point and no exponent converts to its digits read as one number |
| Profit.ConvertThree | task_2/main.py:19-21 | three convertible words convert to their values, in order |
| Profit.AmountsSum | task_2/main.py:34 | 1000.01 + 27.45 + 324.00 sums to 1351.46 at two places |
| Profit.IncomeTextTotal | task_2/main.py:36-39 | `sum_profit` of the example text is `Decimal("1351.46")` |
| Fibonacci.Fib | task_1/main.py:14-22 | the Fibonacci numbers the closure computes; its contract is stated by `FibMonotone`, `FibPositive` and `FibValues` |
| Fibonacci.FibMonotone | task_1/main.py:14-22 | the numbers never decrease |
| Fibonacci.FibPositive | task_1/main.py:17-22 | every number from 1 on is positive |
| Fibonacci.FibValues | task_1/main.py:30-31 | the 10th number is 55 and the 15th is 610 |
| Fibonacci.CachingFibonacci.constructor | task_1/main.py:12 | a new closure starts with an empty cache |
| Fibonacci.CachingFibonacci.Fibonacci | task_1/main.py:14-22 | returns the Fibonacci number of `n`; arguments below 2 and cached arguments leave the cache alone; a miss caches every argument from 2 to `n`; stored entries never change and always hold their Fibonacci numbers |
| Fibonacci.CachingFibonacci.Store | task_1/main.py:21 | stores the next argument's number and keeps the cache a run 2..n of correct entries |
| Fibonacci.Example | task_1/main.py:26-31 | one closure, asked for 10 and then 15, answers 55 and 610 |

## Left out

- File I/O: `read_file` (the path checks and `readline`) is not modelled. The loader takes the file's lines, each with its line feed.
- Printing, `input()`, `sys.argv` and `sys.exit`: `Run` and `Dispatch` return what would be printed. The argument-count check in task_3's `main` is not modelled.
- `display_log_counts` only prints, so it is not modelled. The order it prints in is the key order proved by `CountByLevelKeys`.
- Unicode: `\d`, `\s`, `str.split()`, `upper()` and `lower()` are modelled on ASCII only. Non-ASCII digits, spaces and letters behave differently in Python.
- `strptime` leniency: the model reads `%Y-%m-%d %H:%M:%S` strictly, with every field at full width and a single space. Python also accepts one-digit fields and runs of whitespace.
- LoadLogs: the loop takes the line parser as a parameter, and `Run` passes `ParseLogLine`. The loop itself is stated for any parser.
- `Decimal` is modelled on unsigned finite literals of the form `digits.digits` with an optional exponent, since only words that pass the prefix test reach it. Underscores, Unicode digits, and the 28-digit context precision with its rounding are not modelled. The three example amounts are far within that precision.
- `generator_numbers` is modelled on the whole list. The laziness of the generator, and which numbers were yielded before a failing word, are not modelled.
- `sum_profit`'s `func` parameter is fixed to `generator_numbers`, as `main` passes it.
- `sum` starts from the integer 0. It is modelled as `Decimal(0, 0)`, which gives the same value and exponent.
- Handler.PhoneBook.GetAllContacts: returns a copy of the map. The aliasing of the live dictionary that `get_all_contacts` hands out is not modelled.
- `_normalize_phone`'s `country_code` parameter is fixed to its default `"38"`, the only value the handlers use.
- Fibonacci.CachingFibonacci.Fibonacci: Python's recursion limit, which a large first argument would hit, is not modelled. Python ints are unbounded, like Dafny's.
