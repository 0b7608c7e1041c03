# vcd-rust header scanner, modelled in Dafny

This project models the header loader of vcd-rust, a reader for Value Change
Dump files, and proves properties of that model. The loader reads four header
commands out of the text: `$date`, `$version`, `$timescale` and `$comment`.
Each is a block `$command ... $end`.

- **Block scanner.** `CommandParser::parse_command` splits the input on the
  space character and drops empty pieces. It strips `\n` from each word. It
  then runs an idle / inside-a-block machine over the words, collecting the
  trimmed, space-joined content of every closed block. It fails with
  `"<command> missing an $end"` or `"Multiple <command> commands is invalid"`,
  tagged with a line counter that moves once per word holding a newline.
- **Extractors.** Date, version and timescale must appear at most once and
  take element 0. Comments may repeat and come back in order.
- **Aggregator and loader.** `parse` runs the four extractors in that order,
  and `VCDLoader::load_from_str` passes its result on.

Modules:

- `Errors`: `LoadError`, the `Result` type and the two messages.
- `Types`: the timescale record.
- `Strings`: `split`, `replace`, `trim` and joining, with their laws.
- `Tokenizer`: the word view of the input.
- `Parser`:
  - the scanner as a left fold `Scan` of one-word `Step`s, closed by `Finish`;
  - the same scanner written as the source's loop, `ParseCommandLoop`, proved
    equal to the fold;
  - the extractors and `Parse`.
- `ScannerProperties`: how scans compose, what a well-formed block yields, and
  where a scan fails.
- `Vcd` / `VcdLoader`: the header record and the loader.
- `TestSupport` and `VcdTests`: the unit tests of `src/vcd.rs`, each a lemma
  about the loader on that test's exact input. Each input is written as its
  words and the runs of spaces between them.

Input with no space at all is one word. When that word holds a character
that no command name holds, it never equals a command name, so the scanner
never opens a block. For example,
`"$date\nText\n$version\n1.0\n$end"` and `"$version\nV1\n$end\n$version\nV2\n$end"`
both load as the empty header: no date, no version and the one empty comment
(see `VcdTests.NoSpaceInputLoadsEmpty` and the two lemmas after it).

## Model

| member | source | states |
|---|---|---|
| Strings.Without | src/parser.rs:91 | `replace("\n", "")` removes every occurrence of the character and keeps every other one |
| Strings.WithoutAppend | src/parser.rs:91 | removing a character from two texts run together is removing it from each and running the results together, so `replace` keeps the other characters in order and with their multiplicity |
| Strings.WithoutAbsent | src/parser.rs:91 | removing a character the text does not hold gives the text back unchanged |
| Strings.Split | src/parser.rs:89 | `split(" ")` yields at least one piece, no piece holds the separator, and joining the pieces with it gives the input back |
| Strings.SplitJoinWith | src/parser.rs:89 | splitting undoes joining when no piece holds the separator |
| Strings.ConcatSplit | src/parser.rs:89 | the split pieces run together are the input with its separators removed |
| Strings.Trim | src/parser.rs:104 | `trim()` leaves no whitespace at either end and never lengthens |
| Strings.TrimIsMiddle | src/parser.rs:104 | what `trim()` keeps is a contiguous middle of the input, and everything it drops at both ends is whitespace |
| Strings.TrimIdempotent | src/parser.rs:104 | trimming twice is trimming once |
| Tokenizer.Tokens | src/parser.rs:89 | the words are non-empty and space-free, and in order they make up the input minus its spaces |
| Tokenizer.NonEmpty | src/parser.rs:89 | the `is_empty` filter keeps only non-empty pieces, drops nothing else (the pieces run together are unchanged), and leaves a list with no empty piece as it is |
| Tokenizer.TokensJoin | src/parser.rs:89 | tokenizing undoes joining space-free words with single spaces |
| Tokenizer.TokensAround | src/parser.rs:89 | a space splits the input into two halves that tokenize independently |
| Tokenizer.TokensAcrossGap | src/parser.rs:89 | a run of spaces separates words exactly as one space does |
| Tokenizer.Clean | src/parser.rs:91 | a cleaned word holds no newline and every other character of the word |
| Tokenizer.NewlineCount | src/parser.rs:118-120 | the line counter's total advance is at most one per word, and it is zero exactly when no word holds a newline |
| Tokenizer.EndsLine | src/parser.rs:149-151 | `is_end_of_line` holds exactly when the raw word, before newlines are stripped, holds a newline |
| Parser.IsDifferentCommand | src/parser.rs:137-139 | a foreign command: the stripped word starts with `$` and is neither the target command nor `$end` |
| Parser.IsEnd | src/parser.rs:141-143 | the stripped word is exactly `$end` |
| Parser.IsCommand | src/parser.rs:145-147 | the stripped word is exactly the target command |
| Parser.Step | src/parser.rs:91-120 | one loop pass, branch for branch: a foreign command inside a block fails at the current line; `$end` with text accumulated closes the block with its trimmed text; inside a block any other word is appended behind a space; the target command while idle opens a block, or fails as a second one under enforcement; the line counter then moves on a newline-bearing raw word (its contract is `Parser.StepSummary`) |
| Errors.MissingEnd | src/parser.rs:96-99 | the message of a block left open: the command followed by ` missing an $end` |
| Errors.Multiple | src/parser.rs:110-113 | the message of a second block under enforcement: `Multiple `, the command, ` commands is invalid` |
| Errors.MessagesIdentifyCommand | src/parser.rs:96-113 | the two messages never coincide, and each determines its command, so an error tells which check failed and for which command |
| Parser.StepSummary | src/parser.rs:90-121 | one loop pass: the line moves by one exactly on a newline-bearing word; at most one block closes, on `$end` with text accumulated; errors carry the current line and are a foreign command inside a block or a second opener under enforcement; reachable states stay reachable |
| Parser.Scan | src/parser.rs:89-121 | the `for word in words` loop as a left fold of `Step` that stops at the first error, which the early `return`s make the loop's result (its contract is `Parser.ScanSummary`) |
| Parser.ScanSummary | src/parser.rs:88-121 | the whole loop: the final line is 1 past the start per newline-bearing word, closed blocks are only appended, and errors carry a line reached during the scan with one of the two messages |
| Parser.Finish | src/parser.rs:123-134 | after the last word: Ok exactly when no block is open, never empty, and otherwise the missing-`$end` error at the final line |
| Parser.ParseCommand | src/parser.rs:84-135 | `parse_command`: the loop from the initial locals over the words of the input, then the after-loop `[""]` seed and the open-block check (its contract is `Parser.ParseCommandSummary`) |
| Parser.ParseCommandSummary | src/parser.rs:84-135 | `parse_command` returns at least one text, exactly one under enforcement, each trimmed and newline-free; or one of the two errors, at a line between 1 and 1 + the number of newline-bearing words |
| Parser.ParseCommandLoop | src/parser.rs:84-135 | the loop as written, with mutable locals and early returns, computes exactly the fold `ParseCommand` |
| Parser.OnlyBlock | src/parser.rs:16-22 | with enforcement on, `remove(0)` takes the single element of an Ok result, and an error is passed on unchanged |
| Parser.GetDate | src/parser.rs:15-23 | the date is the one `$date` block's content, or the scanner's error |
| Parser.GetVersion | src/parser.rs:25-33 | the version is the one `$version` block's content, or the scanner's error |
| Parser.GetTimescale | src/parser.rs:35-44 | the timescale is the decoder applied to the one `$timescale` block's content, or the scanner's error |
| Parser.GetComments | src/parser.rs:46-52 | the comment list is never empty, and the only failure is `"$comment missing an $end"` |
| Parser.Parse | src/parser.rs:5-13 | the record exists exactly when all four extractors succeed, and holds their results; otherwise the error is the first failing extractor's, in the order date, version, timescale, comments |
| Vcd.New | src/vcd.rs:13-15 | a new record has no date, no version and no comments |
| VcdLoader.LoadFromStr | src/vcd.rs:21-24 | the loader returns `parse`'s result unchanged, so a loaded date and version are trimmed and newline-free and the comment list is never empty |
| ScannerProperties.ScanAppend | src/parser.rs:90-121 | scanning two stretches of words one after the other is scanning their concatenation |
| ScannerProperties.ScanSkipsWhileIdle | src/parser.rs:102-120 | while idle, words other than the target command (stray `$end` and foreign commands included) are ignored and only the line moves |
| ScannerProperties.ScanAccumulatesInBlock | src/parser.rs:106-107 | inside a block, ordinary words (the target command included) are appended newline-stripped behind one space |
| ScannerProperties.ScanReadsBlock | src/parser.rs:102-116 | an opener, a non-empty body and `$end` add one block: the body's cleaned words joined by single spaces and trimmed |
| Parser.EndClosesBlock | src/parser.rs:102-105 | once text has accumulated, `$end` closes the block with its trimmed text and the scan is idle again |
| ScannerProperties.ForeignCommandInBlockFails | src/parser.rs:93-100 | inside a block, a `$` word that is neither the command nor `$end` fails at once with the missing-`$end` message at the current line |
| ScannerProperties.SecondOpenerFails | src/parser.rs:108-114 | under enforcement, the command seen while idle after a closed block fails at once with the Multiple message at the current line |
| ScannerProperties.RepeatedOpenerAllowed | src/parser.rs:108-115 | without enforcement a second opener opens a block like the first |
| ScannerProperties.FirstEndIsText | src/parser.rs:102-107 | a `$end` right after the opener does not close the block but becomes its text |
| ScannerProperties.ScanFailsAtFirstFailingWord | src/parser.rs:90-120 | a failing scan fails at the first word whose step fails, with the line equal to the start line plus the newline-bearing words before it |
| ScannerProperties.ParseCommandErrorLine | src/parser.rs:88-132 | every error of `parse_command` carries 1 plus the number of newline-bearing words before some point of the input |
| ScannerProperties.UnclosedBlockFails | src/parser.rs:128-132 | input that ends inside a block fails with the missing-`$end` message at 1 plus the number of newline-bearing words |
| ScannerProperties.AbsentCommandGivesEmptyText | src/parser.rs:123-126 | when no word names the command, the result is exactly `[""]` |
| ScannerProperties.OneBlockInput | src/parser.rs:84-135 | one well-formed block among words that never name the command yields exactly that block's content |
| ScannerProperties.TwoBlockInput | src/parser.rs:84-135 | without enforcement, two well-formed blocks yield both contents, in input order |
| ScannerProperties.SpansScan | src/parser.rs:102-120 | without enforcement, from an idle state any number of well-formed blocks, each followed by words that do not name the command, leave the scan idle with each block's content appended in order |
| ScannerProperties.SpansInput | src/parser.rs:46-52 | the unenforced scan of `get_comments_from_lines`, on idle words followed by any number k of well-formed blocks returns exactly the k contents in input order, or `[""]` when k is 0 |
| ScannerProperties.InterruptedBlockInput | src/parser.rs:93-100 | a block interrupted by a foreign command fails with the missing-`$end` message at 1 plus the newline-bearing words up to the interruption |
| ScannerProperties.UnclosedInput | src/parser.rs:128-132 | input whose last block never closes fails with the missing-`$end` message at the final line count |
| ScannerProperties.SecondBlockInput | src/parser.rs:108-114 | under enforcement, a second opener after a closed block fails with the Multiple message at the line it is met |
| VcdTests.DateCommand | src/vcd.rs:37-42 | `"$date Date text $end"` loads with date `"Date text"` |
| VcdTests.DateCommandNewline | src/vcd.rs:44-51 | the same date spread over three indented lines also gives `"Date text"` |
| VcdTests.DateCommandWithNoEnd | src/vcd.rs:53-59 | an unclosed `$date` fails with `"$date missing an $end"` at line 2 |
| VcdTests.DateCommandWithNoEndAndNewCommand | src/vcd.rs:61-70 | a `$version` line inside an open `$date` block fails with `"$date missing an $end"` at line 3 |
| VcdTests.VersionCommandMultipleNewlines | src/vcd.rs:72-81 | a version block with blank lines normalizes to `"The version number is 1.1"` |
| VcdTests.VersionCommand | src/vcd.rs:83-88 | the one-line version block gives `"This version number is 2.0"` |
| VcdTests.VersionCommandWithNoEnd | src/vcd.rs:90-96 | an unclosed `$version` fails with `"$version missing an $end"` at line 2 |
| VcdTests.MultipleVersions | src/vcd.rs:98-108 | two `$version` blocks fail with `"Multiple $version commands is invalid"` at line 4 |
| VcdTests.MultipleDates | src/vcd.rs:110-120 | two `$date` blocks fail with `"Multiple $date commands is invalid"` at line 4 |
| VcdTests.TimescaleCommand | src/vcd.rs:122-127 | `"$timescale 1ps $end"` loads with the decoder's value for `"1ps"` |
| VcdTests.CommentCommandWithOneComment | src/vcd.rs:129-134 | one comment block gives `["this is a comment"]` |
| VcdTests.CommentCommandWithMultipleComments | src/vcd.rs:136-146 | two comment blocks give `["This is comment 1", "This is comment 2"]`, in order |
| VcdTests.CommentCommandWithNoEnd | src/vcd.rs:148-153 | an unclosed `$comment` fails with `"$comment missing an $end"` at line 1 |
| VcdTests.TwoCommentsInOrder | src/parser.rs:102-107 | `"$comment c1 $end $comment c2 $end"` loads with comments `["c1", "c2"]` |
| VcdTests.DateThenEndFails | src/parser.rs:102-107 | `"$date $end"` fails with `"$date missing an $end"`, because a `$end` met before any text is taken as text |
| VcdTests.NoSpaceInputLoadsEmpty | src/parser.rs:89-93 | text without a space, holding a character no command name holds, loads as the empty header however many lines it spans |
| VcdTests.DateInterruptedWithoutSpacesLoads | src/parser.rs:89-93 | `"$date\nText\n$version\n1.0\n$end"` loads with an empty date and version |
| VcdTests.TwoVersionsWithoutSpacesLoads | src/parser.rs:89-93 | `"$version\nV1\n$end\n$version\nV2\n$end"` loads with an empty date and version |

## Left out

- `VCDLoader::load_from_file` (src/vcd.rs:26-29) is a stub that returns `VCD::new()` without reading anything, so there is nothing to verify.
- `TimeScale::load_from_str` and `TimeScale::new` live in src/types.rs, which is not part of this model. The decoder is a total function parameter `decode`, and the default timescale is a parameter of `Vcd.New`.
- VcdTests.TimescaleCommand: states that the timescale is `decode("1ps")` rather than `TimeScale { value: 1, unit: PS }`, because the decoder is not modelled.
- The extractors call `unwrap()`, which panics on an error. The model returns the error as `Err`, and the first failing extractor decides the result.
- The builder setters and their lifetimes (src/parser.rs:54-82) are replaced by an immutable `Config` of the command name and the enforcement flag.
- The `Display` and `Debug` formatting of `LoadError` is not modelled. The error is a line number and a message string.
- `trim()` is modelled with Rust's `char::is_whitespace`, the Unicode White_Space property. No Unicode normalization or encoding is modelled: strings are sequences of characters.
