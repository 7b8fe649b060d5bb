# steno-dictionary-generator: the sequential logic of `index.js`

The generator reads a compressed wiki dictionary dump and turns it into a stream
of English words paired with their espeak transcriptions. The stages are joined
by Node stream plumbing. This project models the five pieces of sequential logic
inside that plumbing, and proves what they promise:

- **Page assembly** (`pages.dfy`, module `PageAssembly`). The XML parser's
  `text`, `opentag` and `closetag` handlers build `{title, text}` page records
  from three variables: the current page, the text accumulated since the last
  tag, and the namespace. The parser is replaced by a sequence of
  `Text`/`Open`/`Close` events. The handlers are a class,
  `PageAssembler`, whose methods are proved against the step function `Step`.
  `Replay` runs a whole event sequence.
- **English-title filter** (`titles.dfy`, module `Titles`). A page is kept when
  its body contains `==English==` and its title has a character outside
  `[-0-9,$.]`. The regular expression is written out as a character test.
- **Record batcher** (`batching.dfy`, module `Batching`). `batch(size)` is a
  class with its buffer and the log of groups it has pushed. Its invariant ties
  the log to `Chunks`, the stream cut into runs of `size`.
- **Transcription batch** (`transcription.dfy`, module `Transcription`).
  `PrepareInput` builds the text sent to espeak. `Correlate` is the exit
  handler's check of espeak's exit code and output, and its pairing of words
  with output lines.
- **Command line** (`arguments.dfy`, module `Arguments`). `parse_argv`'s loop
  is a method, proved against the recursive reading `ParseFrom`.

`text.dfy` (module `Text`) writes out the JavaScript string operations these
pieces use: `join`, one-character `split`, `trim`, `indexOf` and
character-class `replace`. `wrappers.dfy` holds `Option` and `Result`.

Some of what `index.js` does is easy to miss, and the model keeps it:
- espeak's input is stripped of exactly `,` `.` `;` `!` `?` (index.js:222).
- A batch fails when espeak's exit code is anything but 0, including null,
  which is what Node reports when the process was killed by a signal
  (index.js:238-241).
- The output is trimmed and then split on newlines, so an empty espeak output
  is one empty line: a one-word batch then succeeds with an empty
  transcription (index.js:242-246).
- `^[-0-9,$.]*$` matches the empty title, so a page with an empty title is
  dropped by the filter (index.js:213).

## Model

| member | source | states |
|---|---|---|
| `Text.Join` | index.js:222 | joining separator-free words puts exactly one separator between neighbours, so the result holds one separator fewer than there are words |
| `Text.Split` | index.js:242 | splitting yields at least one piece, and no piece contains the separator |
| `Text.SplitJoin` | index.js:222 | splitting the newline-joined words gives back the words, when there is at least one word and none contains a newline |
| `Text.JoinSplit` | index.js:242 | joining the pieces of a split with the separator gives back the original string |
| `Text.Trim` | index.js:242 | the result has no whitespace at either end and is no longer than the input |
| `Text.TrimIsSlice` | index.js:242 | what `trim` keeps is a contiguous slice of the input with only whitespace before and after it |
| `Text.TrimKeepsOut` | index.js:246 | trimming adds no character: a character absent from the input is absent from the result |
| `Text.TrimAround` | index.js:246 | trimming removes exactly the whitespace around a string whose ends are not whitespace |
| `Text.IndexOf` | index.js:213 | the result is -1 exactly when the substring occurs nowhere; otherwise it occurs at the result and at no earlier position |
| `Text.RemoveAll` | index.js:222 | every character left was in the input and is not one of the deleted characters |
| `Transcription.StripWord` | index.js:222 | a word sent to espeak keeps none of `,` `.` `;` `!` `?` and gains no character |
| `Transcription.PrepareInput` | index.js:222 | the batch text contains no `,` `.` `;` `!` `?` |
| `Transcription.PrepareInputByWord` | index.js:222 | deleting punctuation from the joined batch is the same as deleting it from each word and joining the results |
| `Transcription.PrepareInputLines` | index.js:222 | the batch text has exactly one line per word; line k is word k without its punctuation (words without newlines) |
| `Transcription.PrepareInputRoundTrip` | index.js:222 | for words with no newline and no punctuation, splitting the batch text on newlines gives back the words |
| `Transcription.Correlate` | index.js:238-247 | success exactly when the exit code is 0 and the trimmed output has one line per word; a bad exit code is reported as such, and with exit code 0 a wrong line count is reported as a count error giving both counts; on success record k pairs the original word k with line k of the trimmed output, itself trimmed, which holds no newline |
| `Transcription.CorrelateMatchesLines` | index.js:242-246 | with exit code 0, one newline-free line per word, and any whitespace around the output, word k is paired with line k trimmed, in order |
| `Transcription.CorrelateCountMismatch` | index.js:243-245 | with exit code 0, any line count other than the number of words fails the whole batch with a count error, emitting no record, whatever whitespace surrounds the output |
| `Transcription.TwoLinesForOneWord` | index.js:242-245 | espeak's two-line reply `" k'at\n dO:g\n"` to a one-word batch is a count error (2 lines, 1 word), not an exit-status error |
| `Transcription.EmptyOutputIsOneLine` | index.js:242-246 | an all-whitespace output passes only for a one-word batch, pairing that word with the empty transcription |
| `PageAssembly.Step` | index.js:53-75 | a handler pushes only on `</page>`, and what it pushes is the current page; a handler fails only on a closing tag while no page has been started |
| `PageAssembly.StepContract` | index.js:53-75 | a page is pushed exactly on `</page>` with namespace `"0"` and a page present, and it is the current page; the handlers fail exactly on `</title>`/`</text>` with no page, or on `</page>` with namespace `"0"` and no page; after any tag event the text accumulator is empty |
| `PageAssembly.PagesOnlyOnClosePage` | index.js:61-66 | a run of events pushes no more pages than it has `</page>` events |
| `PageAssembly.TextAccumulates` | index.js:53 | character data only appends to the text accumulator; nothing is pushed and nothing else changes |
| `PageAssembly.CloseTakesTextSinceLastTag` | index.js:53-74 | after a tag event, some character data and `</ns>`, `</title>` or `</text>`, the field gets exactly the concatenated data and the accumulator is empty |
| `PageAssembly.ElementSetsField` | index.js:54-74 | `<name>chars</name>` sets the matching field (`ns`, `title` or `text`) to `chars`, pushes nothing and leaves the accumulator empty |
| `PageAssembly.PageFields` | index.js:54-74 | `<page>` followed by its title, namespace and text elements leaves a page holding that title and body, the namespace set, and nothing pushed |
| `PageAssembly.PageElement` | index.js:54-75 | a page element with title, namespace and body pushes `Page(title, body)` exactly when the namespace is `"0"`, from any prior state |
| `PageAssembly.PageAssembler.constructor` | index.js:49-51 | no page, empty text, no namespace, nothing pushed |
| `PageAssembly.PageAssembler.OnText` | index.js:53 | appends the data to the accumulator and changes nothing else |
| `PageAssembly.PageAssembler.OnOpenTag` | index.js:54-60 | clears the accumulator; `<page>` starts an empty page and clears the namespace; other tags keep page and namespace |
| `PageAssembly.PageAssembler.OnCloseTag` | index.js:61-75 | on a halt nothing changes; otherwise the new state and the pushed pages are those of `Step` |
| `PageAssembly.PageAssembler.Handle` | index.js:52-75 | dispatching an event to its handler changes the state and the pushed pages exactly as `Step` says, and changes nothing when `Step` halts |
| `PageAssembly.Assemble` | index.js:49-75 | feeding the events one by one to the handlers pushes exactly the pages of `Replay`, and stops with the same halt |
| `Titles.MatchesNumeric` | index.js:213 | `^[-0-9,$.]*$` matches exactly when every character of the title is in the class (so also the empty title) |
| `Titles.EnglishTitle` | index.js:212-216 | the title is returned, unchanged, exactly when the body contains `==English==` and the title has a character outside `[-0-9,$.]` |
| `Titles.EnglishTitles` | index.js:173-186 | the stage pushes at most one title per page |
| `Titles.EnglishTitlesAppend` | index.js:175-184 | filtering the pages in two parts gives the titles of filtering them whole, in order |
| `Titles.EnglishTitlesSound` | index.js:212-216 | every title pushed is the kept title of some incoming page |
| `Titles.EnglishTitlesComplete` | index.js:173-186 | every kept page's title is pushed, between the titles of the pages before it and those of the pages after it |
| `Titles.Examples` | index.js:213 | an English "cat" page is kept; "1,000.50", "$5" and the empty title are dropped |
| `Batching.ChunksPreserveRecords` | index.js:195-206 | concatenating the groups gives back exactly the records, in order |
| `Batching.ChunkSizes` | index.js:195-207 | with size at least 1 every group has 1 to `size` records, and all but the last exactly `size` |
| `Batching.FourHundredOne` | index.js:195-207 | 401 records with size 400 leave as one group of 400, then one group of 1 |
| `Batching.RecordBatcher.constructor` | index.js:190-191 | an empty buffer, nothing pushed |
| `Batching.RecordBatcher.Push` | index.js:194-201 | the record is appended; when the buffer reaches `size` it is pushed as one full group and emptied; the invariant (the groups then the buffer spell the records received; the buffer stays under `size`; every pushed group is full) is kept |
| `Batching.RecordBatcher.Flush` | index.js:202-208 | a non-empty remainder is pushed as one group and the buffer emptied; all groups pushed are then the received records cut into chunks |
| `Batching.BatchStream` | index.js:190-209 | writing the records to a fresh stage and ending it yields exactly `Chunks(records, size)`, whose concatenation is the records |
| `Arguments.ParseLimit` | index.js:270 | a missing value gives NaN; a digit string gives its number; other text is kept unparsed |
| `Arguments.ParseLimitDecimal` | index.js:270 | `-l` followed by a number written in decimal sets exactly that limit |
| `Arguments.Setting` | index.js:261-271 | `-i` sets the input, `-o` the output and `-l` the parsed limit; the other two options are left as they were |
| `Arguments.ParseFrom` | index.js:259-275 | a successful parse had its arguments pair up, or end in a lone `-l` |
| `Arguments.ParsedFlags` | index.js:259-275 | a successful parse read a flag at every even position |
| `Arguments.ParseArgv` | index.js:253-277 | the loop returns what the recursive reading of the arguments after the script gives; with no arguments, standard input, standard output and no limit |
| `Arguments.ParsePairs` | index.js:259-271 | flag-value pairs always parse, even when a value looks like a flag, and the pairs are applied in order |
| `Arguments.LastOccurrenceWins` | index.js:259-271 | input, output and limit come from the last occurrence of their flag, or keep their defaults |
| `Arguments.ParseErrors` | index.js:261-274 | an unrecognized-argument error names an argument that is not a flag; a missing-path error is for `-i` or `-o` as the last argument |
| `Arguments.NonFlagFails` | index.js:272-273 | after any run of flag-value pairs, an argument that is not a flag throws naming that argument, whatever follows it |
| `Arguments.TrailingFlag` | index.js:261-271 | after any run of flag-value pairs, `-i` or `-o` as the last argument throws; `-l` as the last argument sets the limit to NaN and keeps the other options |

## Left out

- Stream composition (`pipeline`, index.js:101-138) and `manual_promise` (89-98) are not modelled. Neither are the backpressure wiring (pause, resume, drain) and the top-level output-limit and progress loop (294-310). These are asynchronous Node flow control.
- The sax parser is not modelled; its events are the model's input. Events the handlers ignore (comments, CDATA, processing instructions) do not appear. The parser's `error` forwarding (line 52) is also out.
- `unbzip2_stream`, `split_lines`, `lines_to_json` and `to_ndjson` are library calls or `JSON` host calls and are not modelled. `split_lines` and `lines_to_json` are not in the active pipeline.
- Spawning espeak, writing its stdin, collecting stdout and stderr, and its `error` event (index.js:223-237) are external process I/O and are not modelled. The exit code and output text are parameters of `Correlate`. The stderr text appears only in the error message and is dropped.
- The signal handlers (6-13), console logging and the opening of file streams in `parse_argv` are host I/O. Paths stand for the streams; `None` stands for standard input or output. Each `-i` and `-o` opens its stream as soon as it is read (index.js:263, index.js:267), so a flag given twice still opens the first path: `-o a -o b` creates or truncates `a`, and `-i missing -i real` still fails on the unread missing file. `Arguments.LastOccurrenceWins` describes the returned options only.
- PageAssembly.PageAssembler.OnCloseTag: pages are pushed as values. The source pushes the page object itself, so a `</title>` or `</text>` between `</page>` and the next `<page>` would also change the record already pushed. That aliasing is not modelled.
- Arguments.ParseLimit: `parseInt` is followed only for decimal digit strings and for a missing argument. Any other text (signs, leading spaces, `0x` prefixes, trailing garbage) is kept as `Unparsed`. A digit string gives its exact number, where `parseInt` gives the nearest double: digit strings above 2^53 are rounded, and about 309 digits or more give `Infinity`. No output count reaches such a limit, so the difference is not observable.
- Batching.RecordBatcher.Push requires that the stream has not yet been flushed. Node refuses writes after the end before they reach `transform`.
- Strings are sequences of Unicode scalar values, not UTF-16 code units, so lone surrogates are not modelled.
