/**
 * `VT100Lite`, the screen-reconstruction state machine of the logger. It keeps one logical
 * line (`buffer`) and a cursor column into it, two mode flags, and turns the parts of a
 * decoded chunk into completed lines.
 *
 * The pure functions `RunText`, `RunCsi`, `RunPart`, `RunParts` and `RunChunk` say what the
 * class's methods do to the state and which lines they emit; the lemmas state what that
 * means for a caller.
 */
module Vt100 {
  import opened Wrappers
  import opened PyText
  import opened Tokenizer

  const ENTERED_MARKER: string := "\n[LOG: Entered Interactive Mode]"
  const EXITED_MARKER: string := "\n[LOG: Exited Interactive Mode]"

  const ALT_ON_1049: string := "\U{1B}[?1049h"
  const ALT_ON_47: string := "\U{1B}[?47h"
  const ALT_OFF_1049: string := "\U{1B}[?1049l"
  const ALT_OFF_47: string := "\U{1B}[?47l"
  const PASTE_ON: string := "\U{1B}[?2004h"
  const PASTE_OFF: string := "\U{1B}[?2004l"

  const BS: char := '\U{08}'

  /** The part of a `VT100Lite` that `process` reads and changes. */
  datatype Screen = Screen(cursorX: nat, buffer: string, inAltScreen: bool, bracketedPasteMode: bool)

  /** The state a new `VT100Lite` starts in. */
  const Initial: Screen := Screen(0, [], false, false)

  function Max(a: int, b: int): int
  {
    if a < b then b else a
  }

  function Min(a: nat, b: nat): nat
  {
    if a < b then a else b
  }

  predicate EndsWith(s: string, c: char)
  {
    |s| > 0 && s[|s| - 1] == c
  }

  function Spaces(n: nat): (r: string)
    ensures |r| == n && forall i :: 0 <= i < n ==> r[i] == ' '
  {
    seq(n, _ => ' ')
  }

  predicate AllSpace(s: string)
  {
    forall i :: 0 <= i < |s| ==> IsSpace(s[i])
  }

  /** Every line the state machine emits is non-empty and ends in a non-whitespace character. */
  predicate GoodLines(lines: seq<string>)
  {
    forall l :: l in lines ==> l != [] && Trimmed(l)
  }

  /**
   * A line break: the buffer, right-stripped, is emitted when that leaves something, and
   * the buffer and cursor are reset.
   */
  function LineBreak(st: Screen): (r: (Screen, seq<string>))
    ensures r.0 == st.(cursorX := 0, buffer := [])
    ensures r.1 == [] <==> AllSpace(st.buffer)
    ensures r.1 != [] ==> r.1 == [RStrip(st.buffer)]
    ensures GoodLines(r.1)
  {
    var lineStr := RStrip(st.buffer);
    if lineStr != [] then (st.(cursorX := 0, buffer := []), [lineStr])
    else (st.(cursorX := 0, buffer := []), [])
  }

  /**
   * An ordinary character written at the cursor: the buffer is padded with spaces up to
   * the cursor, the character overwrites position `cursorX`, and the cursor moves right.
   */
  function PutChar(st: Screen, c: char): (r: Screen)
    ensures |r.buffer| == Max(|st.buffer|, st.cursorX + 1)
    ensures r.buffer[st.cursorX] == c && r.cursorX == st.cursorX + 1
    ensures forall i :: 0 <= i < |st.buffer| && i != st.cursorX ==> r.buffer[i] == st.buffer[i]
    ensures forall i :: |st.buffer| <= i < st.cursorX ==> r.buffer[i] == ' '
    ensures r.inAltScreen == st.inAltScreen && r.bracketedPasteMode == st.bracketedPasteMode
  {
    var padded := if |st.buffer| <= st.cursorX then st.buffer + Spaces(st.cursorX - |st.buffer| + 1) else st.buffer;
    st.(buffer := padded[st.cursorX := c], cursorX := st.cursorX + 1)
  }

  /** One character of a text part. */
  function TextStep(st: Screen, c: char): (r: (Screen, seq<string>))
    ensures GoodLines(r.1)
    ensures r.0.inAltScreen == st.inAltScreen && r.0.bracketedPasteMode == st.bracketedPasteMode
  {
    if c == '\r' then
      if st.inAltScreen then LineBreak(st) else (st.(cursorX := 0), [])
    else if c == '\n' then LineBreak(st)
    else if c == BS then (st.(cursorX := Max(0, st.cursorX - 1)), [])
    else if c == BEL then (st, [])
    else (PutChar(st, c), [])
  }

  /** `_handle_text`: the characters of `text` in order, with the lines they complete. */
  function RunText(st: Screen, text: string): (r: (Screen, seq<string>))
    ensures GoodLines(r.1)
    ensures r.0.inAltScreen == st.inAltScreen && r.0.bracketedPasteMode == st.bracketedPasteMode
  {
    if text == [] then (st, [])
    else
      var before := RunText(st, text[..|text| - 1]);
      var step := TextStep(before.0, text[|text| - 1]);
      (step.0, before.1 + step.1)
  }

  /** The parameter text `seq[2:-1]` of a control sequence. */
  function Param(sq: string): string
    requires |sq| >= 3
  {
    sq[2..|sq| - 1]
  }

  /** `_handle_csi` on a part that starts with ESC '['. */
  function RunCsi(st: Screen, sq: string): (r: (Screen, seq<string>))
    requires |sq| >= 2 && sq[0] == ESC && sq[1] == '['
    ensures GoodLines(r.1) && |r.1| <= 1
    ensures r.0.inAltScreen != st.inAltScreen ==> sq in {ALT_ON_1049, ALT_ON_47, ALT_OFF_1049, ALT_OFF_47}
    ensures r.0.bracketedPasteMode != st.bracketedPasteMode ==> sq == PASTE_ON || sq == PASTE_OFF
  {
    if sq == ALT_ON_1049 || sq == ALT_ON_47 then
      (st.(inAltScreen := true), [ENTERED_MARKER])
    else if sq == ALT_OFF_1049 || sq == ALT_OFF_47 then
      (st.(inAltScreen := false), [EXITED_MARKER])
    else if sq == PASTE_ON then (st.(bracketedPasteMode := true), [])
    else if sq == PASTE_OFF then (st.(bracketedPasteMode := false), [])
    else if EndsWith(sq, 'K') then
      var mode := if |sq| > 3 then (match PyInt(Param(sq)) case Some(n) => n case None => 0) else 0;
      if mode == 0 then (st.(buffer := st.buffer[..Min(st.cursorX, |st.buffer|)]), [])
      else if mode == 2 then (st.(buffer := [], cursorX := 0), [])
      else (st, [])
    else if EndsWith(sq, 'G') || EndsWith(sq, '`') then
      match PyInt(Param(sq))
      case Some(col) => (st.(cursorX := Max(0, col - 1)), [])
      case None => (st, [])
    else if (EndsWith(sq, 'A') || EndsWith(sq, 'B') || EndsWith(sq, 'H') || EndsWith(sq, 'f')) && st.inAltScreen then
      LineBreak(st)
    else (st, [])
  }

  /**
   * One part of a split chunk, dispatched on how it starts, as `process` does: ESC '['
   * goes to `_handle_csi`, any other ESC start is dropped whole, the rest is text.
   */
  function RunPart(st: Screen, part: string): (r: (Screen, seq<string>))
    ensures GoodLines(r.1)
  {
    if part == [] then (st, [])
    else if |part| >= 2 && part[0] == ESC && part[1] == '[' then RunCsi(st, part)
    else if |part| >= 2 && part[0] == ESC && part[1] == ']' then (st, [])
    else if part[0] == ESC then (st, [])
    else RunText(st, part)
  }

  /** The parts in order, each on the state the one before it left. */
  function RunParts(st: Screen, parts: seq<Token>): (r: (Screen, seq<string>))
    ensures GoodLines(r.1)
  {
    if parts == [] then (st, [])
    else
      var before := RunParts(st, parts[..|parts| - 1]);
      var step := RunPart(before.0, parts[|parts| - 1].raw);
      (step.0, before.1 + step.1)
  }

  /** `process(chunk)`: the new state and the completed lines. */
  function RunChunk(st: Screen, chunk: string): (r: (Screen, seq<string>))
    ensures GoodLines(r.1)
  {
    RunParts(st, Split(chunk))
  }

  /** `flush()`: the buffer, right-stripped, as one line when the buffer is not empty. */
  function FlushLines(st: Screen): (lines: seq<string>)
    ensures |lines| <= 1 && (lines == [] <==> st.buffer == [])
    ensures lines != [] ==> lines[0] <= st.buffer && Trimmed(lines[0])
    ensures lines != [] ==> forall i :: |lines[0]| <= i < |st.buffer| ==> IsSpace(st.buffer[i])
  {
    if st.buffer != [] then [RStrip(st.buffer)] else []
  }

  lemma RunPartsSingle(st: Screen, t: Token)
    ensures RunParts(st, [t]) == RunPart(st, t.raw)
  {
    assert [t][..0] == [];
    assert [] + RunPart(st, t.raw).1 == RunPart(st, t.raw).1;
  }

  lemma RunTextSingle(st: Screen, c: char)
    ensures RunText(st, [c]) == TextStep(st, c)
  {
    assert [c][..0] == [];
    assert [] + TextStep(st, c).1 == TextStep(st, c).1;
  }

  /** `flush` differs from a line break: a buffer of only whitespace gives one empty line. */
  lemma FlushBlankBuffer(st: Screen)
    requires st.buffer != [] && AllSpace(st.buffer)
    ensures FlushLines(st) == [""]
    ensures LineBreak(st).1 == []
  {
  }

  /** Running `a` then `b` is running `a + b`. */
  lemma {:induction false} RunTextAppend(st: Screen, a: string, b: string)
    ensures RunText(st, a + b).0 == RunText(RunText(st, a).0, b).0
    ensures RunText(st, a + b).1 == RunText(st, a).1 + RunText(RunText(st, a).0, b).1
    decreases |b|
  {
    if b == [] {
      assert a + b == a;
    } else {
      var init := b[..|b| - 1];
      RunTextAppend(st, a, init);
      AppendSnoc(a, b);
      var x := RunText(st, a);
      var y := RunText(x.0, init);
      var step := TextStep(y.0, b[|b| - 1]);
      assert RunText(st, a + b).1 == (x.1 + y.1) + step.1;
      assert (x.1 + y.1) + step.1 == x.1 + (y.1 + step.1);
    }
  }

  /** The last character of `a + b`, for a non-empty `b`, is that of `b`, after `a` and the rest of `b`. */
  lemma AppendSnoc(a: string, b: string)
    requires b != []
    ensures (a + b)[..|a + b| - 1] == a + b[..|b| - 1]
    ensures (a + b)[|a + b| - 1] == b[|b| - 1]
  {
  }

  /** A character that `_handle_text` writes into the buffer rather than acting on. */
  predicate Printable(c: char)
  {
    c != '\r' && c != '\n' && c != BS && c != BEL
  }

  /** Printable text written at the end of the buffer is appended to it. */
  lemma {:induction false} RunTextAppends(st: Screen, text: string)
    requires st.cursorX == |st.buffer|
    requires forall i :: 0 <= i < |text| ==> Printable(text[i])
    ensures RunText(st, text) == (st.(buffer := st.buffer + text, cursorX := |st.buffer| + |text|), [])
  {
    if text != [] {
      var init := text[..|text| - 1];
      var c := text[|text| - 1];
      RunTextAppends(st, init);
      var s1 := st.(buffer := st.buffer + init, cursorX := |st.buffer| + |init|);
      assert s1.buffer + [c] == st.buffer + text by { assert init + [c] == text; }
      var s2 := PutChar(s1, c);
      assert s2.buffer == s1.buffer + [c];
      assert Printable(c);
      assert TextStep(s1, c) == (s2, []);
      assert s2 == st.(buffer := st.buffer + text, cursorX := |st.buffer| + |text|);
      assert text[..|text| - 1] == init;
      var none: seq<string> := [];
      assert none + none == none;
      assert RunText(st, text) == (s2, none + none);
    } else {
      assert st.buffer + text == st.buffer;
    }
  }

  /** The text of `segs`, each followed by a line feed. */
  function JoinLines(segs: seq<string>): string
  {
    if segs == [] then [] else JoinLines(segs[..|segs| - 1]) + segs[|segs| - 1] + "\n"
  }

  /** The segments, right-stripped, with the ones that strip to nothing left out. */
  function NonBlankLines(segs: seq<string>): seq<string>
  {
    if segs == [] then []
    else
      var l := RStrip(segs[|segs| - 1]);
      NonBlankLines(segs[..|segs| - 1]) + (if l != [] then [l] else [])
  }

  /** One line of printable text and its line feed, from an empty line, yield that line right-stripped. */
  lemma RunTextOneLine(st: Screen, line: string)
    requires st.cursorX == 0 && st.buffer == []
    requires forall i :: 0 <= i < |line| ==> Printable(line[i])
    ensures RunText(st, line + "\n") == (st, if RStrip(line) != [] then [RStrip(line)] else [])
  {
    RunTextAppend(st, line, "\n");
    RunTextAppends(st, line);
    var s1 := st.(buffer := line, cursorX := |line|);
    assert st.buffer + line == line;
    RunTextSingle(s1, '\n');
    assert "\n" == ['\n'];
  }

  /**
   * Plain text separated by line feeds, from an empty line, yields the text between the
   * feeds, each right-stripped, in order; blank ones yield nothing.
   */
  lemma {:induction false} RunTextLines(st: Screen, segs: seq<string>)
    requires st.cursorX == 0 && st.buffer == []
    requires forall k, i :: 0 <= k < |segs| && 0 <= i < |segs[k]| ==> Printable(segs[k][i])
    ensures RunText(st, JoinLines(segs)) == (st, NonBlankLines(segs))
  {
    if segs != [] {
      var init := segs[..|segs| - 1];
      var last := segs[|segs| - 1];
      assert forall k, i :: 0 <= k < |init| && 0 <= i < |init[k]| ==> Printable(init[k][i]) by {
        forall k, i | 0 <= k < |init| && 0 <= i < |init[k]| ensures Printable(init[k][i]) {
          assert init[k] == segs[k];
        }
      }
      RunTextLines(st, init);
      assert JoinLines(segs) == JoinLines(init) + (last + "\n");
      RunTextAppend(st, JoinLines(init), last + "\n");
      RunTextOneLine(st, last);
    }
  }

  /** A part that is a single control sequence or text is the whole chunk's tokenization. */
  lemma SplitSingleCsi(chunk: string)
    requires IsCsi(chunk)
    ensures Split(chunk) == [Csi(chunk)]
  {
    assert chunk[0..|chunk|] == chunk;
    MatchAtFindsCsi(chunk, 0, |chunk|);
    SplitWhole(chunk, Csi(chunk));
  }

  /** A chunk without ESC is processed exactly as `_handle_text(chunk)`. */
  lemma ChunkWithoutEscIsText(st: Screen, chunk: string)
    requires ESC !in chunk
    ensures RunChunk(st, chunk) == RunText(st, chunk)
  {
    SplitNoEsc(chunk);
    if chunk != [] {
      assert [Text(chunk)][..0] == [];
      assert chunk[0] != ESC by { assert chunk[0] in chunk; }
      RunPartsSingle(st, Text(chunk));
    }
  }

  /** A chunk that is one well-formed CSI sequence is handled by `_handle_csi` alone. */
  lemma ChunkOfOneCsi(st: Screen, chunk: string)
    requires IsCsi(chunk)
    ensures RunChunk(st, chunk) == RunCsi(st, chunk)
  {
    SplitSingleCsi(chunk);
    assert [Csi(chunk)][..0] == [];
    RunPartsSingle(st, Csi(chunk));
  }

  /** The six mode sequences are well-formed CSI sequences. */
  lemma ModeSequenceIsCsi(sq: string)
    requires sq == ALT_ON_1049 || sq == ALT_ON_47 || sq == ALT_OFF_1049 || sq == ALT_OFF_47 || sq == PASTE_ON || sq == PASTE_OFF
    ensures IsCsi(sq)
  {
    if sq == ALT_ON_1049 || sq == ALT_OFF_1049 {
      assert AllCsiParams("?1049");
      ModeSequenceOf(sq, "?1049");
    } else if sq == ALT_ON_47 || sq == ALT_OFF_47 {
      assert AllCsiParams("?47");
      ModeSequenceOf(sq, "?47");
    } else {
      assert AllCsiParams("?2004");
      ModeSequenceOf(sq, "?2004");
    }
  }

  /** ESC '[', parameter bytes `p` and a final 'h' or 'l' make a CSI sequence. */
  lemma ModeSequenceOf(sq: string, p: string)
    requires AllCsiParams(p)
    requires sq == [ESC, '['] + p + "h" || sq == [ESC, '['] + p + "l"
    ensures IsCsi(sq)
  {
    AllCsiParamsAt(p);
    forall m | 2 <= m < |sq| - 1 ensures IsCsiParam(sq[m]) {
      assert sq[m] == p[m - 2];
    }
  }

  /** Every character of `p` is a CSI parameter byte, checked from the front. */
  predicate AllCsiParams(p: string)
  {
    p == [] || (IsCsiParam(p[0]) && AllCsiParams(p[1..]))
  }

  lemma {:induction false} AllCsiParamsAt(p: string)
    requires AllCsiParams(p)
    ensures forall m :: 0 <= m < |p| ==> IsCsiParam(p[m])
  {
    if p != [] {
      AllCsiParamsAt(p[1..]);
      assert forall m :: 1 <= m < |p| ==> p[m] == p[1..][m - 1];
    }
  }

  /** `?1049h` or `?47h`, received as a chunk of its own, enters the alternate screen and emits the Entered marker. */
  lemma AltScreenEnter(st: Screen, sq: string)
    requires sq == ALT_ON_1049 || sq == ALT_ON_47
    ensures RunChunk(st, sq) == (st.(inAltScreen := true), [ENTERED_MARKER])
  {
    ModeSequenceIsCsi(sq);
    ChunkOfOneCsi(st, sq);
  }

  /** `?1049l` or `?47l`, received as a chunk of its own, leaves the alternate screen and emits the Exited marker. */
  lemma AltScreenExit(st: Screen, sq: string)
    requires sq == ALT_OFF_1049 || sq == ALT_OFF_47
    ensures RunChunk(st, sq) == (st.(inAltScreen := false), [EXITED_MARKER])
  {
    ModeSequenceIsCsi(sq);
    ChunkOfOneCsi(st, sq);
  }

  /** `?2004h`, received as a chunk of its own, sets the bracketed-paste flag and changes nothing else. */
  lemma BracketedPasteOn(st: Screen, sq: string)
    requires sq == PASTE_ON
    ensures RunChunk(st, sq) == (st.(bracketedPasteMode := true), [])
  {
    ModeSequenceIsCsi(sq);
    ChunkOfOneCsi(st, sq);
  }

  /** `?2004l`, received as a chunk of its own, clears the bracketed-paste flag and changes nothing else. */
  lemma BracketedPasteOff(st: Screen, sq: string)
    requires sq == PASTE_OFF
    ensures RunChunk(st, sq) == (st.(bracketedPasteMode := false), [])
  {
    ModeSequenceIsCsi(sq);
    ChunkOfOneCsi(st, sq);
  }

  lemma RunTextSnoc(st: Screen, s: string, c: char)
    ensures RunText(st, s + [c]).0 == TextStep(RunText(st, s).0, c).0
    ensures RunText(st, s + [c]).1 == RunText(st, s).1 + TextStep(RunText(st, s).0, c).1
  {
    assert (s + [c])[..|s|] == s;
  }

  /** "hello", carriage return, line feed: one completed line "hello", and the line is empty again. */
  lemma ExampleHello()
    ensures RunChunk(Initial, "hello\r\n") == (Initial, ["hello"])
  {
    HelloText();
    ChunkWithoutEscIsText(Initial, "hello\r\n");
  }

  lemma HelloText()
    ensures RunText(Initial, "hello\r\n") == (Initial, ["hello"])
  {
    var none: seq<string> := [];
    HelloReturn();
    RunTextSnoc(Initial, "hello\r", '\n');
    assert "hello\r" + ['\n'] == "hello\r\n";
    RStripTrimmed("hello");
    assert none + ["hello"] == ["hello"];
  }

  /** Outside the alternate screen a carriage return only moves the cursor back. */
  lemma HelloReturn()
    ensures RunText(Initial, "hello\r") == (Initial.(buffer := "hello"), [])
  {
    var none: seq<string> := [];
    RunTextAppends(Initial, "hello");
    assert Initial.buffer + "hello" == "hello";
    RunTextSnoc(Initial, "hello", '\r');
    assert "hello" + ['\r'] == "hello\r";
    assert none + none == none;
  }

  /** "foo", two backspaces, "bar", line feed: the cursor backs over "oo", "ba" overwrites it and "r" extends the line to "fbar". */
  lemma ExampleBackspaceOverwrite()
    ensures RunChunk(Initial, "foo\U{08}\U{08}bar\n") == (Initial, ["fbar"])
  {
    BackspaceText();
    ChunkWithoutEscIsText(Initial, "foo\U{08}\U{08}bar\n");
  }

  lemma BackspaceText()
    ensures RunText(Initial, "foo\U{08}\U{08}bar\n") == (Initial, ["fbar"])
  {
    var none: seq<string> := [];
    var back := Initial.(buffer := "foo", cursorX := 1);
    BackspaceTextHead();
    BackspaceTextTail(back);
    assert "foo\U{08}\U{08}" + "bar\n" == "foo\U{08}\U{08}bar\n";
    RunTextAppend(Initial, "foo\U{08}\U{08}", "bar\n");
    assert none + ["fbar"] == ["fbar"];
  }

  lemma BackspaceTextHead()
    ensures RunText(Initial, "foo\U{08}\U{08}") == (Initial.(buffer := "foo", cursorX := 1), [])
  {
    var typed := Initial.(buffer := "foo", cursorX := 3);
    RunTextAppends(Initial, "foo");
    assert Initial.buffer + "foo" == "foo";
    SilentStep(Initial, "foo", BS, typed.(cursorX := 2));
    assert "foo" + [BS] == "foo\U{08}";
    SilentStep(Initial, "foo\U{08}", BS, typed.(cursorX := 1));
    assert "foo\U{08}" + [BS] == "foo\U{08}\U{08}";
  }

  lemma BackspaceTextTail(st: Screen)
    requires st == Initial.(buffer := "foo", cursorX := 1)
    ensures RunText(st, "bar\n") == (Initial, ["fbar"])
  {
    var none: seq<string> := [];
    var s1 := st.(buffer := "fbo", cursorX := 2);
    var s2 := st.(buffer := "fba", cursorX := 3);
    var s3 := st.(buffer := "fbar", cursorX := 4);
    OverwriteStep(st, 'b');
    assert "foo"[1 := 'b'] == "fbo";
    SilentStep(st, [], 'b', s1);
    assert [] + ['b'] == "b";
    OverwriteStep(s1, 'a');
    assert "fbo"[2 := 'a'] == "fba";
    SilentStep(st, "b", 'a', s2);
    assert "b" + ['a'] == "ba";
    AppendR(s2);
    SilentStep(st, "ba", 'r', s3);
    assert "ba" + ['r'] == "bar";
    RunTextSnoc(st, "bar", '\n');
    assert "bar" + ['\n'] == "bar\n";
    RStripTrimmed("fbar");
    assert none + ["fbar"] == ["fbar"];
  }

  /** A character step that completes no line extends a run that completed none. */
  lemma SilentStep(st: Screen, s: string, c: char, after: Screen)
    requires RunText(st, s).1 == [] && TextStep(RunText(st, s).0, c) == (after, [])
    ensures RunText(st, s + [c]) == (after, [])
  {
    RunTextSnoc(st, s, c);
  }

  /** A printable character under the cursor, inside the line, overwrites it. */
  lemma OverwriteStep(st: Screen, c: char)
    requires Printable(c) && st.cursorX < |st.buffer|
    ensures TextStep(st, c) == (st.(buffer := st.buffer[st.cursorX := c], cursorX := st.cursorX + 1), [])
  {
  }

  lemma AppendR(st: Screen)
    requires st == Initial.(buffer := "fba", cursorX := 3)
    ensures TextStep(st, 'r') == (st.(buffer := "fbar", cursorX := 4), [])
  {
    assert ("fba" + Spaces(1))[3 := 'r'] == "fbar";
  }

  /** A part that starts with ESC but not with ESC '[' is dropped whole, the text after the escape included. */
  lemma EscapePartDropped(st: Screen, part: string)
    requires part != [] && part[0] == ESC && !(|part| >= 2 && part[1] == '[')
    ensures RunPart(st, part) == (st, [])
  {
  }

  /**
   * A chunk that starts with an ESC beginning no known sequence, and holds no other ESC,
   * is one part that is dropped whole: nothing changes and no line is completed, whatever
   * text and line feeds follow the ESC.
   */
  lemma UnknownEscapeChunk(st: Screen, chunk: string)
    requires |chunk| >= 2 && chunk[0] == ESC && chunk[1] != '[' && chunk[1] != ']' && !IsShortEscapeChar(chunk[1])
    requires forall m :: 1 <= m < |chunk| ==> chunk[m] != ESC
    ensures RunChunk(st, chunk) == (st, [])
  {
    assert MatchAt(chunk, 0) == None;
    SplitText(chunk, 1);
    RunPartsSingle(st, Text(chunk));
  }

  /**
   * A chunk that starts with ESC '[' but holds no well-formed CSI there, with no other
   * ESC, is one text part for the split, and `process` still hands it whole to
   * `_handle_csi`, which reads its last character as the command.
   */
  lemma MalformedCsiChunk(st: Screen, chunk: string)
    requires |chunk| >= 2 && chunk[0] == ESC && chunk[1] == '[' && MatchAt(chunk, 0) == None
    requires forall m :: 1 <= m < |chunk| ==> chunk[m] != ESC
    ensures RunChunk(st, chunk) == RunCsi(st, chunk)
  {
    SplitText(chunk, 1);
    RunPartsSingle(st, Text(chunk));
  }

  /** "ESC [ space 2 space K" is no CSI, yet it erases the whole line: `int(" 2 ")` is 2. */
  lemma ExampleMalformedCsi(st: Screen, chunk: string)
    requires chunk == "\U{1B}[ 2 K"
    ensures RunChunk(st, chunk) == (st.(buffer := [], cursorX := 0), [])
  {
    assert MatchAt(chunk, 0) == None;
    MalformedCsiChunk(st, chunk);
    SpacedTwo(Param(chunk));
  }

  /** `int(" 2 ")` is 2: the surrounding spaces are skipped. */
  lemma SpacedTwo(p: string)
    requires p == " 2 "
    ensures PyInt(p) == Some(2)
  {
    assert p[1..][1..] == " ";
    assert LeadingIntSpace(p) == 1;
    assert "2 "[..1] == "2";
    assert IntBody(p) == "2";
    assert "2"[1..] == [];
  }

  /** "ESC Z hello", line feed completes no line and leaves the state as it was. */
  lemma ExampleUnknownEscape(st: Screen)
    ensures RunChunk(st, "\U{1B}Zhello\n") == (st, [])
  {
    UnknownEscapeChunk(st, "\U{1B}Zhello\n");
  }

  /** In the alternate screen, "menu" followed by a cursor-position sequence completes the line "menu". */
  lemma ExampleEditorMotion()
    ensures var st := Initial.(inAltScreen := true);
      RunCsi(RunText(st, "menu").0, "\U{1B}[1;1H") == (st, ["menu"])
  {
    var st := Initial.(inAltScreen := true);
    RunTextAppends(st, "menu");
    assert st.buffer + "menu" == "menu";
    CursorMotion(RunText(st, "menu").0, "\U{1B}[1;1H");
    RStripTrimmed("menu");
  }

  /** A string of decimal digits only. */
  predicate AllDigits(p: string)
  {
    p != [] && forall i :: 0 <= i < |p| ==> IsDigit(p[i])
  }

  lemma CsiIsNotModeSequence(sq: string)
    requires IsCsi(sq) && !EndsWith(sq, 'h') && !EndsWith(sq, 'l')
    ensures sq !in {ALT_ON_1049, ALT_ON_47, ALT_OFF_1049, ALT_OFF_47, PASTE_ON, PASTE_OFF}
  {
  }

  /** A parameter that `int()` converts: decimal digits only, and no more of them than the digit limit. */
  predicate Numeral(p: string)
  {
    AllDigits(p) && |p| <= MAX_STR_DIGITS
  }

  /**
   * The parameter of a well-formed CSI is read by `int()` exactly when it is a numeral:
   * one that is not all digits holds `;` or `?`, and one with more digits than the limit
   * makes `int()` raise.
   */
  lemma CsiParamValue(sq: string)
    requires IsCsi(sq)
    ensures Numeral(Param(sq)) ==> PyInt(Param(sq)) == Some(DigitValue(Param(sq)))
    ensures !Numeral(Param(sq)) ==> PyInt(Param(sq)) == None
  {
    var p := Param(sq);
    if AllDigits(p) {
      PyIntDigits(p);
    } else if p != [] {
      var i :| 0 <= i < |p| && !IsDigit(p[i]);
      assert p[i] == sq[i + 2];
      assert !IntChar(p[i]);
      PyIntRejects(p);
    } else {
      PyIntRejects(p);
    }
  }

  /**
   * Erase in line (`CSI ... K`): mode 0, also when the parameter is absent or not a
   * numeral, truncates the buffer at the cursor; mode 2 empties it and returns the cursor
   * to column 0; any other mode changes nothing. No line is emitted.
   */
  lemma EraseLine(st: Screen, sq: string)
    requires IsCsi(sq) && EndsWith(sq, 'K')
    ensures !Numeral(Param(sq)) || DigitValue(Param(sq)) == 0 ==>
      RunCsi(st, sq) == (st.(buffer := st.buffer[..Min(st.cursorX, |st.buffer|)]), [])
    ensures Numeral(Param(sq)) && DigitValue(Param(sq)) == 2 ==>
      RunCsi(st, sq) == (st.(buffer := [], cursorX := 0), [])
    ensures Numeral(Param(sq)) && DigitValue(Param(sq)) != 0 && DigitValue(Param(sq)) != 2 ==>
      RunCsi(st, sq) == (st, [])
  {
    CsiIsNotModeSequence(sq);
    CsiParamValue(sq);
  }

  /**
   * Cursor horizontal absolute (`CSI n G` or `CSI n backtick`): with a numeral parameter
   * the cursor goes to column `n - 1`, never below 0; otherwise nothing changes.
   */
  lemma CursorColumn(st: Screen, sq: string)
    requires IsCsi(sq) && (EndsWith(sq, 'G') || EndsWith(sq, '`'))
    ensures Numeral(Param(sq)) ==> RunCsi(st, sq) == (st.(cursorX := Max(0, DigitValue(Param(sq)) - 1)), [])
    ensures !Numeral(Param(sq)) ==> RunCsi(st, sq) == (st, [])
  {
    CsiIsNotModeSequence(sq);
    CsiParamValue(sq);
  }

  /**
   * Cursor motion (`CSI ... A`, `B`, `H` or `f`) completes the line in the alternate
   * screen and is ignored in the normal screen.
   */
  lemma CursorMotion(st: Screen, sq: string)
    requires IsCsi(sq) && (EndsWith(sq, 'A') || EndsWith(sq, 'B') || EndsWith(sq, 'H') || EndsWith(sq, 'f'))
    ensures st.inAltScreen ==> RunCsi(st, sq) == LineBreak(st)
    ensures !st.inAltScreen ==> RunCsi(st, sq) == (st, [])
  {
    CsiIsNotModeSequence(sq);
  }

  /**
   * Any other sequence starting with ESC '[' (a colour change such as `CSI 31 m`, a
   * private mode other than the six above such as `CSI ? 25 h`) changes nothing and emits
   * nothing.
   */
  lemma OtherCsiIgnored(st: Screen, sq: string)
    requires |sq| >= 2 && sq[0] == ESC && sq[1] == '['
    requires sq != ALT_ON_1049 && sq != ALT_ON_47 && sq != ALT_OFF_1049 && sq != ALT_OFF_47
    requires sq != PASTE_ON && sq != PASTE_OFF
    requires !EndsWith(sq, 'K') && !EndsWith(sq, 'G') && !EndsWith(sq, '`')
    requires !EndsWith(sq, 'A') && !EndsWith(sq, 'B') && !EndsWith(sq, 'H') && !EndsWith(sq, 'f')
    ensures RunCsi(st, sq) == (st, [])
  {
  }

  /** `CSI n G` with `n` the decimal rendering of `col + 1`. */
  function ColumnSequence(col: nat): (sq: string)
    ensures |sq| >= 3 && Param(sq) == Decimal(col + 1) && EndsWith(sq, 'G')
  {
    [ESC, '['] + Decimal(col + 1) + "G"
  }

  /**
   * Every cursor column whose one-based number has at most `MAX_STR_DIGITS` digits is
   * reachable by a single `CSI n G`; there is no bound tied to the screen width.
   */
  lemma ColumnReachable(st: Screen, col: nat)
    requires |Decimal(col + 1)| <= MAX_STR_DIGITS
    ensures RunCsi(st, ColumnSequence(col)) == (st.(cursorX := col), [])
  {
    var sq := ColumnSequence(col);
    ColumnSequenceIsCsi(col);
    DecimalValue(col + 1);
    CursorColumn(st, sq);
  }

  lemma ColumnSequenceIsCsi(col: nat)
    ensures IsCsi(ColumnSequence(col))
  {
    var sq := ColumnSequence(col);
    var p := Decimal(col + 1);
    assert forall m :: 2 <= m < |sq| - 1 ==> sq[m] == p[m - 2];
  }

  /**
   * Backspace moves the cursor one column left but not past column 0, bell does nothing,
   * carriage return outside the alternate screen only returns the cursor to column 0;
   * line feed, and carriage return in the alternate screen, complete the line; any other
   * character is written at the cursor.
   */
  lemma ControlCharacters(st: Screen, c: char)
    ensures TextStep(st, BS) == (st.(cursorX := if st.cursorX > 0 then st.cursorX - 1 else 0), [])
    ensures TextStep(st, BEL) == (st, [])
    ensures !st.inAltScreen ==> TextStep(st, '\r') == (st.(cursorX := 0), [])
    ensures st.inAltScreen ==> TextStep(st, '\r') == LineBreak(st)
    ensures TextStep(st, '\n') == LineBreak(st)
    ensures Printable(c) ==> TextStep(st, c) == (PutChar(st, c), [])
  {
  }

  /** The logger's screen state. `lastLoggedLine` is used only by the logging loop. */
  class VT100Lite {
    var cursorX: nat
    var buffer: string
    var inAltScreen: bool
    var bracketedPasteMode: bool
    var lastLoggedLine: Option<string>

    /** The screen part of this object. */
    ghost function State(): Screen
      reads this
    {
      Screen(cursorX, buffer, inAltScreen, bracketedPasteMode)
    }

    constructor ()
      ensures State() == Initial && lastLoggedLine == None
    {
      cursorX := 0;
      buffer := [];
      inAltScreen := false;
      bracketedPasteMode := false;
      lastLoggedLine := None;
    }

    /** Splits `chunk` into parts and runs each on the state, collecting the completed lines. */
    method Process(chunk: string) returns (completedLines: seq<string>)
      modifies this`cursorX, this`buffer, this`inAltScreen, this`bracketedPasteMode
      ensures (State(), completedLines) == RunChunk(old(State()), chunk)
    {
      var parts := Split(chunk);
      completedLines := [];
      for i := 0 to |parts|
        invariant (State(), completedLines) == RunParts(old(State()), parts[..i])
      {
        assert parts[..i + 1][..i] == parts[..i];
        completedLines := HandlePart(parts[i].raw, completedLines);
      }
      assert parts[..|parts|] == parts;
    }

    /** One turn of `process`'s loop: dispatches a part on its first characters. */
    method HandlePart(part: string, outList: seq<string>) returns (outList': seq<string>)
      modifies this`cursorX, this`buffer, this`inAltScreen, this`bracketedPasteMode
      ensures State() == RunPart(old(State()), part).0
      ensures outList' == outList + RunPart(old(State()), part).1
    {
      outList' := outList;
      assert outList + [] == outList;
      if part == [] {
        // an empty part is skipped
      } else if |part| >= 2 && part[0] == ESC && part[1] == '[' {
        outList' := HandleCsi(part, outList');
      } else if |part| >= 2 && part[0] == ESC && part[1] == ']' {
        // OSC (window titles) are ignored
      } else if part[0] == ESC {
        // short escapes, and any part starting with another ESC, are ignored
      } else {
        var lines := HandleText(part);
        outList' := outList' + lines;
      }
    }

    /** `_handle_csi`: acts on one part starting with ESC '[' and appends what it emits to `outList`. */
    method HandleCsi(sq: string, outList: seq<string>) returns (outList': seq<string>)
      requires |sq| >= 2 && sq[0] == ESC && sq[1] == '['
      modifies this`cursorX, this`buffer, this`inAltScreen, this`bracketedPasteMode
      ensures State() == RunCsi(old(State()), sq).0
      ensures outList' == outList + RunCsi(old(State()), sq).1
    {
      outList' := outList;
      if sq == ALT_ON_1049 || sq == ALT_ON_47 {
        inAltScreen := true;
        outList' := outList' + [ENTERED_MARKER];
      } else if sq == ALT_OFF_1049 || sq == ALT_OFF_47 {
        inAltScreen := false;
        outList' := outList' + [EXITED_MARKER];
      } else if sq == PASTE_ON {
        bracketedPasteMode := true;
      } else if sq == PASTE_OFF {
        bracketedPasteMode := false;
      } else if EndsWith(sq, 'K') {
        var mode := 0;
        if |sq| > 3 {
          match PyInt(Param(sq))
          case Some(n) => mode := n;
          case None =>
        }
        if mode == 0 {
          buffer := buffer[..Min(cursorX, |buffer|)];
        } else if mode == 2 {
          buffer := [];
          cursorX := 0;
        }
      } else if EndsWith(sq, 'G') || EndsWith(sq, '`') {
        match PyInt(Param(sq))
        case Some(col) => cursorX := Max(0, col - 1);
        case None =>
      } else if (EndsWith(sq, 'A') || EndsWith(sq, 'B') || EndsWith(sq, 'H') || EndsWith(sq, 'f')) && inAltScreen {
        var lineStr := RStrip(buffer);
        if lineStr != [] {
          outList' := outList' + [lineStr];
        }
        buffer := [];
        cursorX := 0;
      }
    }

    /** One turn of `_handle_text`'s loop: acts on character `c`, adding any line it completes. */
    method HandleChar(c: char, lines: seq<string>) returns (lines': seq<string>)
      modifies this`cursorX, this`buffer
      ensures State() == TextStep(old(State()), c).0
      ensures lines' == lines + TextStep(old(State()), c).1
    {
      lines' := lines;
      assert lines + [] == lines;
      if c == '\r' {
        if inAltScreen {
          var lineStr := RStrip(buffer);
          if lineStr != [] {
            lines' := lines' + [lineStr];
          }
          buffer := [];
          cursorX := 0;
        } else {
          cursorX := 0;
        }
      } else if c == '\n' {
        var lineStr := RStrip(buffer);
        if lineStr != [] {
          lines' := lines' + [lineStr];
        }
        buffer := [];
        cursorX := 0;
      } else if c == BS {
        cursorX := Max(0, cursorX - 1);
      } else if c == BEL {
        // the bell is ignored
      } else {
        if |buffer| <= cursorX {
          buffer := buffer + Spaces(cursorX - |buffer| + 1);
        }
        buffer := buffer[cursorX := c];
        cursorX := cursorX + 1;
      }
    }

    /** `_handle_text`: one character at a time, returning the lines completed. */
    method HandleText(text: string) returns (linesOut: seq<string>)
      modifies this`cursorX, this`buffer
      ensures (State(), linesOut) == RunText(old(State()), text)
    {
      linesOut := [];
      for i := 0 to |text|
        invariant (State(), linesOut) == RunText(old(State()), text[..i])
      {
        var c := text[i];
        linesOut := HandleChar(c, linesOut);
        assert text[..i + 1] == text[..i] + [c];
        RunTextSnoc(old(State()), text[..i], c);
      }
      assert text[..|text|] == text;
    }

    /** `flush()`: reports the buffered line without changing anything. */
    method Flush() returns (lines: seq<string>)
      ensures lines == FlushLines(State())
    {
      if buffer != [] {
        lines := [RStrip(buffer)];
      } else {
        lines := [];
      }
    }
  }
}
