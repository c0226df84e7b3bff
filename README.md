# Kali-Trace screen reconstruction, in Dafny

Kali-Trace runs a shell in a pseudo-terminal and writes two logs: the raw byte
stream, and a "clean" log of the lines a reader would have seen on the screen. This
project models how the clean log is built:

- **`VT100Lite`** (`vt100.dfy`, module `Vt100`). This is the small terminal emulator
  of the logger. It keeps one logical line (`buffer`) and a cursor column into it. It
  also keeps the alternate-screen and bracketed-paste flags and the last logged line.
  - `process` splits a decoded chunk into parts and dispatches each part.
  - `_handle_csi` acts on control sequences: alternate screen, bracketed paste, erase
    in line, cursor column, and cursor motion.
  - `_handle_text` acts on CR, LF, backspace and bell, and writes every other character
    over the cell under the cursor.
  - `flush` reports the pending line.

  The class `VT100Lite` has these fields, and its methods update them in place. Each
  method is proved against a pure function on a `Screen` value: `RunChunk`, `RunCsi`,
  `RunText` and `FlushLines`. The lemmas state what those functions mean.
- **The tokenizer** (`tokenizer.dfy`, module `Tokenizer`). `re.split` with the
  three-alternative pattern (CSI, OSC, short escapes) is written as a leftmost-match
  lexer that returns `Token`s.
  - Soundness: every matched token is in its alternative's language.
  - Completeness: wherever a sequence of each kind starts, the lexer finds exactly that
    sequence. For OSC, the lazy match ends at the first terminator.
  - Coverage: the parts, concatenated, give the chunk back.
  - Leftmost match: a text part holds no position where the pattern matches and ends at
    a match or at the chunk's end, and every other part is the pattern's match at the
    offset where the parts before it end.
  - Uniqueness: these properties, with coverage and non-empty parts, determine the split.
- **Python text primitives** (`py_text.dfy`, module `PyText`).
  - `str.isspace`, used by `rstrip()`.
  - `int()` on the parameter text of a control sequence: surrounding whitespace, an
    optional sign, and ASCII digits with single underscores between them, with CPython's
    default limit of 4300 digits.
- **The main loop's per-block steps** (`session.dfy`, module `Session`).
  - The chunk-boundary split holds back a possibly incomplete escape sequence at the
    end of the text.
  - The deduplicating write loop skips a line equal to the last logged one.
  - `HandleOutput` composes the split, `process` and the write loop for one block of
    output.

`wrappers.dfy` holds the `Option` type.

A part that starts with an ESC that begins no recognised sequence is dropped whole by
`process`, together with the text after that ESC up to the next recognised sequence.
`Vt100.EscapePartDropped`, `Vt100.UnknownEscapeChunk` and `Vt100.ExampleUnknownEscape`
state this behaviour. A chunk that starts with ESC `[` but holds no well-formed CSI there
is a text part for the split, yet `process` hands it whole to `_handle_csi`, which acts on
its last character. `Vt100.MalformedCsiChunk` and `Vt100.ExampleMalformedCsi` state this.

## Model

| member | source | states |
|---|---|---|
| PyText.RStrip | Kali-Trace/logger.py:132 | `rstrip()` gives a prefix of the line with no trailing whitespace, and every character it removes is whitespace |
| PyText.RStripIgnoresTrailingSpace | Kali-Trace/logger.py:132 | whitespace added after a string does not change its `rstrip()` |
| PyText.PyIntDigits | Kali-Trace/logger.py:103 | `int()` of a non-empty run of decimal digits is its value when it has at most 4300 digits, and fails (`ValueError`) when it has more |
| PyText.PyIntDecimal | Kali-Trace/logger.py:103 | `int()` reads back the decimal rendering of every natural number of at most 4300 digits, and fails on every longer one |
| PyText.PyIntRejects | Kali-Trace/logger.py:92-93 | `int()` fails on the empty string and on any string with a character outside its number syntax, such as `;` or `?` |
| PyText.PyInt | Kali-Trace/logger.py:92 | whatever `int()` accepts consists of digits, signs, underscores and whitespace, with at least one digit and at most 4300 digits in all |
| PyText.DecimalLength | Kali-Trace/logger.py:103 | the decimal rendering of `n` has at most `k` digits exactly when `n < 10^k`, which puts the 4300-digit limit at `10^4300` |
| Tokenizer.MatchAt | Kali-Trace/logger.py:50-54 | a match at a position is a non-text token whose text is the input from that position, and it lies in its alternative's language |
| Tokenizer.OscSound | Kali-Trace/logger.py:52 | the OSC found by the lazy scan, taken as a string of its own, is in the OSC language |
| Tokenizer.MatchAtFindsCsi | Kali-Trace/logger.py:51 | wherever a CSI sequence starts, the lexer matches exactly that sequence there |
| Tokenizer.MatchAtFindsOsc | Kali-Trace/logger.py:52 | wherever an OSC sequence starts, the lexer matches exactly that sequence, up to its first terminator |
| Tokenizer.MatchAtFindsShortEscape | Kali-Trace/logger.py:53 | wherever a two-character escape starts, the lexer matches it there |
| Tokenizer.SplitFrom | Kali-Trace/logger.py:57 | the parts from a scan position, given the matches at each position, concatenate to the rest of the chunk, and each part is well formed |
| Tokenizer.Split | Kali-Trace/logger.py:57-60 | the non-empty parts of `re.split`, in order, concatenate to the chunk, and each matched part is in its alternative's language |
| Tokenizer.SplitFromLeftmost | Kali-Trace/logger.py:57 | the scan, with no match in its open text run, puts every part where the leftmost-match rule puts it: a text run holds no position where the pattern matches and runs up to the next match or the end, and each matched part is the match at its offset |
| Tokenizer.SplitLeftmost | Kali-Trace/logger.py:50-57 | the part at index `k`, at the offset where the parts before it end, is the pattern's match there when it is not text; when it is text, the pattern matches at none of its positions, and the position right after it is a match or the chunk's end |
| Tokenizer.SplitUnique | Kali-Trace/logger.py:50-57 | any sequence of non-empty parts that concatenates to the chunk and sits where the leftmost-match scan puts parts is exactly the split |
| Tokenizer.SplitNoEsc | Kali-Trace/logger.py:57 | a chunk without ESC is one text part, or no part when it is empty |
| Tokenizer.SplitText | Kali-Trace/logger.py:57 | a non-empty chunk with no match before some position and no ESC from there on is one text part |
| Tokenizer.SplitWhole | Kali-Trace/logger.py:57 | a chunk that is, whole, the pattern's match at its start splits into that one token |
| Vt100.LineBreak | Kali-Trace/logger.py:132-136 | a line break emits the right-stripped buffer exactly when the buffer is not all whitespace, and resets buffer and cursor |
| Vt100.PutChar | Kali-Trace/logger.py:141-145 | an ordinary character pads the buffer with spaces up to the cursor, overwrites the cell at the cursor, and moves the cursor right; no other cell and no flag changes |
| Vt100.TextStep | Kali-Trace/logger.py:121-145 | one character of text emits only non-empty lines with no trailing whitespace, and leaves both flags unchanged |
| Vt100.RunText | Kali-Trace/logger.py:116-146 | text emits only non-empty lines with no trailing whitespace, and leaves both flags unchanged |
| Vt100.RunCsi | Kali-Trace/logger.py:75-114 | a control sequence emits at most one line; the alternate-screen flag changes only for the four alternate-screen sequences, and the paste flag only for the two paste sequences |
| Vt100.RunPart | Kali-Trace/logger.py:59-71 | every part emits only non-empty lines with no trailing whitespace |
| Vt100.RunParts | Kali-Trace/logger.py:59-71 | the parts handled in order emit only non-empty lines with no trailing whitespace |
| Vt100.RunChunk | Kali-Trace/logger.py:45-73 | every line `process` returns is non-empty and has no trailing whitespace |
| Vt100.FlushLines | Kali-Trace/logger.py:148-152 | `flush` gives one line exactly when the buffer is not empty; that line is the buffer without its trailing whitespace |
| Vt100.FlushBlankBuffer | Kali-Trace/logger.py:150-151 | a buffer of only whitespace flushes to one empty line, while a line break emits nothing for it |
| Vt100.RunTextAppend | Kali-Trace/logger.py:118 | text is handled character by character: handling `a + b` is handling `a`, then `b` on the resulting state |
| Vt100.RunTextAppends | Kali-Trace/logger.py:141-145 | printable text written at the end of the line is appended to the buffer, and the cursor follows it |
| Vt100.RunTextLines | Kali-Trace/logger.py:131-136 | printable segments separated by line feeds yield those segments, right-stripped and in order, with blank ones left out |
| Vt100.ChunkWithoutEscIsText | Kali-Trace/logger.py:57-71 | a chunk without ESC is processed exactly as `_handle_text` on the whole chunk |
| Vt100.ChunkOfOneCsi | Kali-Trace/logger.py:62-63 | a chunk that is one well-formed CSI sequence is handled by `_handle_csi` alone |
| Vt100.AltScreenEnter | Kali-Trace/logger.py:77-79 | `?1049h` or `?47h` sets the alternate-screen flag, changes nothing else, and emits the Entered marker with its leading newline |
| Vt100.AltScreenExit | Kali-Trace/logger.py:80-82 | `?1049l` or `?47l` clears the alternate-screen flag, changes nothing else, and emits the Exited marker with its leading newline |
| Vt100.BracketedPasteOn | Kali-Trace/logger.py:85 | `?2004h` sets the bracketed-paste flag and changes nothing else |
| Vt100.BracketedPasteOff | Kali-Trace/logger.py:86 | `?2004l` clears the bracketed-paste flag and changes nothing else |
| Vt100.CsiParamValue | Kali-Trace/logger.py:92 | in a well-formed CSI sequence, `int()` of the parameter is its value when the parameter is all digits and at most 4300 of them, and fails otherwise |
| Vt100.EraseLine | Kali-Trace/logger.py:89-98 | `K` with mode 0, also when the parameter is absent, not a number, or over 4300 digits, truncates the buffer at the cursor; mode 2 clears the buffer and the cursor; any other mode changes nothing |
| Vt100.CursorColumn | Kali-Trace/logger.py:101-105 | `G` or backtick with a numeric parameter `n` of at most 4300 digits moves the cursor to `max(0, n - 1)`; otherwise nothing changes |
| Vt100.ColumnReachable | Kali-Trace/logger.py:101-105 | every column whose number (plus one) has at most 4300 digits is reached by one `G` sequence, with nothing else changed |
| Vt100.CursorMotion | Kali-Trace/logger.py:107-114 | `A`, `B`, `H` and `f` act as a line break in the alternate screen and do nothing in the normal screen |
| Vt100.OtherCsiIgnored | Kali-Trace/logger.py:75-114 | any other sequence starting with ESC `[` (such as `ESC[31m` or `ESC[?25h`) changes nothing and emits nothing |
| Vt100.ControlCharacters | Kali-Trace/logger.py:121-145 | backspace moves the cursor left and stops at 0; bell does nothing; CR only returns the cursor in the normal screen and is a line break in the alternate screen; LF is a line break; every other character is written at the cursor |
| Vt100.EscapePartDropped | Kali-Trace/logger.py:64-68 | a part that starts with ESC but not with ESC `[` changes nothing and emits nothing |
| Vt100.UnknownEscapeChunk | Kali-Trace/logger.py:64-68 | a chunk that starts with an ESC beginning no known sequence, with no other ESC, changes nothing and completes no line, whatever text and line feeds follow |
| Vt100.MalformedCsiChunk | Kali-Trace/logger.py:57-63 | a chunk that starts with ESC `[` where the pattern does not match, with no other ESC, is run exactly as `_handle_csi` on the whole chunk |
| Vt100.ExampleMalformedCsi | Kali-Trace/logger.py:89-96 | "ESC [ space 2 space K" is no CSI, yet it clears the buffer and sets the cursor to column 0, since `int(" 2 ")` is 2 |
| Vt100.ExampleUnknownEscape | Kali-Trace/logger.py:66-68 | in "ESC Z hello", line feed, the unknown escape drops the whole text behind it, so no line is completed |
| Vt100.ExampleHello | Kali-Trace/logger.py:121-136 | "hello", CR, LF from a fresh emulator completes the line "hello" and returns to the initial state |
| Vt100.ExampleBackspaceOverwrite | Kali-Trace/logger.py:137-145 | "foo", two backspaces, "bar", LF completes the line "fbar" |
| Vt100.ExampleEditorMotion | Kali-Trace/logger.py:108-114 | in the alternate screen, "menu" followed by a cursor-position sequence completes the line "menu" |
| Vt100.VT100Lite.constructor | Kali-Trace/logger.py:39-43 | a new emulator starts at column 0 with an empty buffer, both flags off, and no logged line |
| Vt100.VT100Lite.Process | Kali-Trace/logger.py:45-73 | the new state and the returned lines are those of `RunChunk` on the old state |
| Vt100.VT100Lite.HandlePart | Kali-Trace/logger.py:59-71 | one part dispatched on its first characters: the new state is `RunPart`'s, and what it emits is appended to the output list |
| Vt100.VT100Lite.HandleCsi | Kali-Trace/logger.py:75-114 | the new state is `RunCsi`'s, and what it emits is appended to the output list |
| Vt100.VT100Lite.HandleText | Kali-Trace/logger.py:116-146 | the new state and the returned lines are those of `RunText` on the old state |
| Vt100.VT100Lite.HandleChar | Kali-Trace/logger.py:121-145 | one character: the new state is `TextStep`'s, and the line it completes, if any, is appended |
| Vt100.VT100Lite.Flush | Kali-Trace/logger.py:148-152 | `flush` changes nothing and returns `FlushLines` of the state, so two calls give the same lines |
| Session.RFind | Kali-Trace/logger.py:246 | `rfind` returns the index of the last occurrence, or -1 when there is none |
| Session.BoundarySplit | Kali-Trace/logger.py:245-257 | released text plus held-back text is the old held-back text plus the new text; the held-back text is empty, or starts with ESC, is at most 256 characters, and holds no other ESC; it is empty exactly when no ESC lies within the last 256 characters |
| Session.BoundaryWithoutEsc | Kali-Trace/logger.py:246-249 | with no ESC anywhere, everything is released and nothing is held back |
| Session.BoundaryAt | Kali-Trace/logger.py:246-257 | when the last ESC is at most 256 characters from the end, the text is cut exactly at it |
| Session.RunRelease | Kali-Trace/logger.py:259-261 | released text is fed to `process` only when it is non-empty; an empty release changes nothing and emits nothing |
| Session.RunBlocks | Kali-Trace/logger.py:239-261 | over a run of blocks, every completed line is non-empty with no trailing whitespace, and after at least one block, what is held back is empty or starts with ESC and is at most 256 characters |
| Session.BlockBoundaryMatters | Kali-Trace/logger.py:239-261 | "ab ESC Z cd", LF, "ESC [ K" read as one block completes the line "ab ESC Z cd"; cut after the LF into two blocks, it completes no line |
| Session.Dedup | Kali-Trace/logger.py:264-269 | the last logged line ends as the last input line; when anything is written it is the last written line, and when nothing is written it is unchanged |
| Session.DedupKeepsChanges | Kali-Trace/logger.py:264-269 | the written lines are exactly the input lines that differ from the line just before them in the input, so non-adjacent repeats are kept |
| Session.DedupNoAdjacentRepeats | Kali-Trace/logger.py:264-269 | no written line equals the line written before it, and the first differs from the previous last logged line |
| Session.DedupSubsequence | Kali-Trace/logger.py:264-269 | every written line is an input line, and no line is written more often than it occurs |
| Session.LogLines | Kali-Trace/logger.py:264-272 | the write loop writes `Dedup`'s lines and leaves `last_logged_line` as `Dedup` says |
| Session.HandleOutput | Kali-Trace/logger.py:239-272 | one block of output: the boundary split, `process` on the released text when it is non-empty, then the deduplicating write; the written lines are non-empty, have no trailing whitespace, and never repeat the line before them |

## Left out

- Pseudo-terminal creation, fork and exec, `select`, raw terminal mode, and
  `os.read`/`os.write` (logger.py:187-233, :278-279): operating-system I/O and process
  plumbing.
- `resize_pty` and the SIGWINCH handler (logger.py:24-32, :199-202): `ioctl` calls and
  asynchronous signals.
- Opening, writing and closing the log files, the timestamps, and the session file name
  (logger.py:19-22, :171-176, :270-272, :290-291): wall-clock time and file I/O. The
  model returns the lines that would be written, without timestamps.
- UTF-8 decoding with replacement (logger.py:239): text is taken as already decoded.
- The `re` engine: the pattern is modelled by an explicit lexer for its three alternatives.
- The shutdown path (logger.py:282-288): it calls `flush` twice and skips deduplication,
  and it is entangled with file I/O. As written, a non-empty pending line is reported by
  both `flush` calls, unless the held-back text, processed in between (logger.py:283-284),
  changes the buffer.
- The rename prompt and `os.rename` (logger.py:296-313): interactive I/O. Its file-name
  filter depends on Unicode `isalnum`.
- PyText.PyInt: the model accepts ASCII digits only. Python's `int()` also accepts other
  Unicode decimal digits, which can reach it only through a malformed part that starts with
  ESC `[`.
- PyText.PyInt: the limit of 4300 digits is CPython's default since 3.11 and in the
  security releases of 3.7 to 3.10. Older interpreters have no limit. A limit set through
  `PYTHONINTMAXSTRDIGITS`, `-X int_max_str_digits` or `sys.set_int_max_str_digits` is not
  modelled.
- Vt100.PutChar: the padding up to the cursor is unbounded here. In Python, the list
  multiplication that builds the padding (logger.py:143) raises `OverflowError` when the
  count exceeds `sys.maxsize`, and `MemoryError` for smaller but still huge counts. The
  input "ESC [ 10000000000000000000 G x" is an example: the `G` sequence sets the cursor to
  10^19 - 1, which `Vt100.ColumnReachable` shows is reachable, and the `x` then fails. The
  main loop catches only `OSError` (logger.py:274), so the error ends the session after the
  `finally` block runs. The model instead pads to the cursor.
- Vt100.VT100Lite.HandleChar: the same unbounded padding as `Vt100.PutChar`, for the same
  reason.
- The property that splitting the output stream at a different point gives the same clean
  lines is not modelled, because it does not hold. A part that starts with an ESC beginning
  no known sequence is dropped together with the text after it, up to the next recognised
  sequence. Where the next block starts therefore decides how much text is dropped.
  `Session.BlockBoundaryMatters` shows this: "ab ESC Z cd", LF, "ESC [ K" as one block
  completes the line "ab ESC Z cd"; cut after the LF into two blocks, it completes no line.
