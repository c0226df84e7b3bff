/**
 * The reconstruction steps of the logger's main loop, for each block read from the
 * pseudo-terminal: hold back a possibly incomplete escape sequence at the end of the
 * decoded text, feed the rest to `VT100Lite.process`, and write each completed line to
 * the clean log unless it repeats the line written just before it.
 */
module Session {
  import opened Wrappers
  import opened Tokenizer
  import opened Vt100
  import opened PyText

  /** How far from the end the last ESC may be and still be held back as a sequence in progress. */
  const LOOKBACK: nat := 256

  /** `s.rfind(c)`: the index of the last `c` in `s`, or -1 when there is none. */
  function RFind(s: string, c: char): (k: int)
    ensures -1 <= k < |s|
    ensures k >= 0 ==> s[k] == c
    ensures forall i :: k < i < |s| ==> s[i] != c
  {
    if s == [] then -1
    else if s[|s| - 1] == c then |s| - 1
    else RFind(s[..|s| - 1], c)
  }

  /**
   * The chunk-boundary buffer: the text held back so far followed by the newly decoded
   * text is split into the part released for processing and the part kept for next time.
   */
  function BoundarySplit(pending: string, text: string): (r: (string, string))
    ensures r.0 + r.1 == pending + text
    ensures r.1 != [] ==> r.1[0] == ESC && |r.1| <= LOOKBACK
    ensures forall i :: 0 < i < |r.1| ==> r.1[i] != ESC
    ensures r.1 == [] <==> forall i :: 0 <= i < |pending + text| && |pending + text| - i <= LOOKBACK ==> (pending + text)[i] != ESC
  {
    var buf := pending + text;
    var lastEsc := RFind(buf, ESC);
    if lastEsc == -1 then (buf, [])
    else if |buf| - lastEsc > LOOKBACK then (buf, [])
    else
      assert forall i :: 0 < i < |buf[lastEsc..]| ==> buf[lastEsc..][i] == buf[lastEsc + i];
      (buf[..lastEsc], buf[lastEsc..])
  }

  /** The split at the last ESC, when it lies within `LOOKBACK` of the end. */
  lemma BoundaryAt(pending: string, text: string, k: nat)
    requires k < |pending + text| && (pending + text)[k] == ESC && |pending + text| - k <= LOOKBACK
    requires forall i :: k < i < |pending + text| ==> (pending + text)[i] != ESC
    ensures BoundarySplit(pending, text) == ((pending + text)[..k], (pending + text)[k..])
  {
    assert RFind(pending + text, ESC) == k;
  }

  /** Text with no ESC in it is released whole and nothing is held back. */
  lemma BoundaryWithoutEsc(pending: string, text: string)
    requires ESC !in pending + text
    ensures BoundarySplit(pending, text) == (pending + text, [])
  {
  }

  /** `process` on the released text of one block, skipped when nothing is released. */
  function RunRelease(st: Screen, release: string): (r: (Screen, seq<string>))
    ensures release == [] ==> r == (st, [])
    ensures GoodLines(r.1)
  {
    if release != [] then RunChunk(st, release) else (st, [])
  }

  /**
   * The main loop over a sequence of decoded blocks, before deduplication: the final
   * screen state, the text still held back, and the completed lines in order.
   */
  function RunBlocks(st: Screen, pending: string, blocks: seq<string>): (r: (Screen, string, seq<string>))
    ensures GoodLines(r.2)
    ensures blocks != [] && r.1 != [] ==> r.1[0] == ESC && |r.1| <= LOOKBACK
  {
    if blocks == [] then (st, pending, [])
    else
      var before := RunBlocks(st, pending, blocks[..|blocks| - 1]);
      var split := BoundarySplit(before.1, blocks[|blocks| - 1]);
      var run := RunRelease(before.0, split.0);
      (run.0, split.1, before.2 + run.1)
  }

  lemma RunBlocksSnoc(st: Screen, pending: string, blocks: seq<string>, b: string)
    ensures var before := RunBlocks(st, pending, blocks);
      var split := BoundarySplit(before.1, b);
      var run := RunRelease(before.0, split.0);
      RunBlocks(st, pending, blocks + [b]) == (run.0, split.1, before.2 + run.1)
  {
    assert (blocks + [b])[..|blocks|] == blocks;
  }

  /** As one block, the stream releases everything before "ESC [ K" as one text part, and the ESC is written into the line. */
  lemma OneBlockLines()
    ensures RunBlocks(Initial, [], ["ab\U{1B}Zcd\n\U{1B}[K"]).2 == ["ab\U{1B}Zcd"]
  {
    WholeBlockRelease();
    EscInsideText();
    RunBlocksSnoc(Initial, [], [], "ab\U{1B}Zcd\n\U{1B}[K");
    assert [] + ["ab\U{1B}Zcd\n\U{1B}[K"] == ["ab\U{1B}Zcd\n\U{1B}[K"];
    var none: seq<string> := [];
    assert none + ["ab\U{1B}Zcd"] == ["ab\U{1B}Zcd"];
  }

  /** An ESC inside a text part that starts no sequence is written into the line as an ordinary character. */
  lemma EscInsideText()
    ensures RunChunk(Initial, "ab\U{1B}Zcd\n") == (Initial, ["ab\U{1B}Zcd"])
  {
    var s := "ab\U{1B}Zcd\n";
    assert MatchAt(s, 0) == None && MatchAt(s, 1) == None && MatchAt(s, 2) == None;
    SplitText(s, 3);
    RunPartsSingle(Initial, Text(s));
    EscInsideLine();
  }

  lemma EscInsideLine()
    ensures RunText(Initial, "ab\U{1B}Zcd\n") == (Initial, ["ab\U{1B}Zcd"])
  {
    assert "ab\U{1B}Zcd\n" == "ab\U{1B}Zcd" + "\n";
    RunTextOneLine(Initial, "ab\U{1B}Zcd");
    RStripTrimmed("ab\U{1B}Zcd");
  }

  lemma WholeBlockRelease()
    ensures BoundarySplit([], "ab\U{1B}Zcd\n\U{1B}[K").0 == "ab\U{1B}Zcd\n"
  {
    var buf := "ab\U{1B}Zcd\n\U{1B}[K";
    assert [] + buf == buf;
    BoundaryAt([], buf, 7);
    assert buf[..7] == "ab\U{1B}Zcd\n";
  }

  /** Cut after the line feed, the first block releases only "ab" and holds back "ESC Z cd", line feed. */
  lemma FirstBlock()
    ensures RunBlocks(Initial, [], ["ab\U{1B}Zcd\n"]) == (Initial.(buffer := "ab", cursorX := 2), "\U{1B}Zcd\n", [])
  {
    FirstBlockSplit();
    FirstBlockRun("ab");
    RunBlocksSnoc(Initial, [], [], "ab\U{1B}Zcd\n");
    assert [] + ["ab\U{1B}Zcd\n"] == ["ab\U{1B}Zcd\n"];
    var none: seq<string> := [];
    assert none + none == none;
  }

  lemma FirstBlockSplit()
    ensures BoundarySplit([], "ab\U{1B}Zcd\n") == ("ab", "\U{1B}Zcd\n")
  {
    BoundaryAt([], "ab\U{1B}Zcd\n", 2);
    assert [] + "ab\U{1B}Zcd\n" == "ab\U{1B}Zcd\n";
    assert "ab\U{1B}Zcd\n"[..2] == "ab" && "ab\U{1B}Zcd\n"[2..] == "\U{1B}Zcd\n";
  }

  lemma FirstBlockRun(s: string)
    requires s == "ab"
    ensures RunRelease(Initial, s) == (Initial.(buffer := "ab", cursorX := 2), [])
  {
    ChunkWithoutEscIsText(Initial, s);
    RunTextAppends(Initial, s);
    assert Initial.buffer + s == "ab";
  }

  /** The second block releases "ESC Z cd", line feed on its own, and that part is dropped whole. */
  lemma SecondBlock(st: Screen)
    ensures RunRelease(st, BoundarySplit("\U{1B}Zcd\n", "\U{1B}[K").0) == (st, [])
  {
    var buf := "\U{1B}Zcd\n" + "\U{1B}[K";
    assert buf == "\U{1B}Zcd\n\U{1B}[K";
    BoundaryAt("\U{1B}Zcd\n", "\U{1B}[K", 5);
    assert buf[..5] == "\U{1B}Zcd\n";
    UnknownEscapeChunk(st, "\U{1B}Zcd\n");
  }

  /** Read as two blocks cut after the line feed, the stream completes no line. */
  lemma TwoBlocksLines()
    ensures RunBlocks(Initial, [], ["ab\U{1B}Zcd\n", "\U{1B}[K"]).2 == []
  {
    FirstBlock();
    SecondBlock(Initial.(buffer := "ab", cursorX := 2));
    RunBlocksSnoc(Initial, [], ["ab\U{1B}Zcd\n"], "\U{1B}[K");
    assert ["ab\U{1B}Zcd\n"] + ["\U{1B}[K"] == ["ab\U{1B}Zcd\n", "\U{1B}[K"];
    var none: seq<string> := [];
    assert none + none == none;
  }

  /**
   * Where the output is cut into blocks changes the clean log, even with every escape
   * sequence well within `LOOKBACK` of the cut: "ab ESC Z cd", line feed, "ESC [ K" read
   * as one block completes the line "ab ESC Z cd"; read as two blocks cut after the line
   * feed, it completes no line.
   */
  lemma BlockBoundaryMatters()
    ensures RunBlocks(Initial, [], ["ab\U{1B}Zcd\n\U{1B}[K"]).2 == ["ab\U{1B}Zcd"]
    ensures RunBlocks(Initial, [], ["ab\U{1B}Zcd\n", "\U{1B}[K"]).2 == []
  {
    OneBlockLines();
    TwoBlocksLines();
  }

  /**
   * The lines written to the clean log and the new `last_logged_line`: a line equal to
   * `last_logged_line` is skipped, any other is written and becomes `last_logged_line`.
   */
  function Dedup(last: Option<string>, lines: seq<string>): (r: (seq<string>, Option<string>))
    ensures r.1 == if lines == [] then last else Some(lines[|lines| - 1])
    ensures r.0 != [] ==> r.1 == Some(r.0[|r.0| - 1])
    ensures r.0 == [] ==> r.1 == last
  {
    if lines == [] then ([], last)
    else
      var before := Dedup(last, lines[..|lines| - 1]);
      var line := lines[|lines| - 1];
      if Some(line) == before.1 then before
      else (before.0 + [line], Some(line))
  }

  /** No written line equals the one written before it, nor, for the first, the previous `last_logged_line`. */
  predicate NoAdjacentRepeats(last: Option<string>, written: seq<string>)
  {
    (written != [] ==> Some(written[0]) != last)
    && forall i :: 0 < i < |written| ==> written[i] != written[i - 1]
  }

  /** The line before `lines[i]` in the stream: `lines[i - 1]`, or the last logged line for the first. */
  function Previous(last: Option<string>, lines: seq<string>, i: nat): Option<string>
    requires i < |lines|
  {
    if i == 0 then last else Some(lines[i - 1])
  }

  /** An independent statement of the filter: keep exactly the lines that differ from the line before them in the input. */
  function KeepChanges(last: Option<string>, lines: seq<string>): seq<string>
  {
    if lines == [] then []
    else
      var i := |lines| - 1;
      KeepChanges(last, lines[..i]) + (if Some(lines[i]) == Previous(last, lines, i) then [] else [lines[i]])
  }

  /**
   * Deduplication drops a line exactly when it equals the line just before it in the
   * input: repeats that are not adjacent are kept.
   */
  lemma {:induction false} DedupKeepsChanges(last: Option<string>, lines: seq<string>)
    ensures Dedup(last, lines).0 == KeepChanges(last, lines)
  {
    if lines != [] {
      var i := |lines| - 1;
      var init := lines[..i];
      DedupKeepsChanges(last, init);
      assert Dedup(last, init).1 == Previous(last, lines, i) by {
        if i > 0 {
          assert init[i - 1] == lines[i - 1];
        }
      }
    }
  }

  /** The written lines never repeat the line written just before them. */
  lemma {:induction false} DedupNoAdjacentRepeats(last: Option<string>, lines: seq<string>)
    ensures NoAdjacentRepeats(last, Dedup(last, lines).0)
  {
    if lines != [] {
      var init := lines[..|lines| - 1];
      DedupNoAdjacentRepeats(last, init);
      var before := Dedup(last, init);
      var line := lines[|lines| - 1];
      if Some(line) != before.1 {
        var w := before.0 + [line];
        assert w[..|before.0|] == before.0;
        if before.0 != [] {
          assert w[|w| - 2] == before.0[|before.0| - 1];
        }
      }
    }
  }

  /** Every written line is one of the input lines, and no line is written more often than it occurs. */
  lemma {:induction false} DedupSubsequence(last: Option<string>, lines: seq<string>)
    ensures multiset(Dedup(last, lines).0) <= multiset(lines)
    ensures forall l :: l in Dedup(last, lines).0 ==> l in lines
  {
    if lines != [] {
      var init := lines[..|lines| - 1];
      DedupSubsequence(last, init);
      assert lines == init + [lines[|lines| - 1]];
    }
  }

  /** The deduplicating write loop over `vt.process`'s lines; returns the lines written to the clean log. */
  method LogLines(vt: VT100Lite, lines: seq<string>) returns (written: seq<string>)
    modifies vt`lastLoggedLine
    ensures (written, vt.lastLoggedLine) == Dedup(old(vt.lastLoggedLine), lines)
  {
    written := [];
    for i := 0 to |lines|
      invariant (written, vt.lastLoggedLine) == Dedup(old(vt.lastLoggedLine), lines[..i])
    {
      assert lines[..i + 1][..i] == lines[..i];
      var line := lines[i];
      if Some(line) == vt.lastLoggedLine {
        continue;
      }
      vt.lastLoggedLine := Some(line);
      written := written + [line];
    }
    assert lines[..|lines|] == lines;
  }

  /**
   * One block of pseudo-terminal output, already decoded: the boundary split, `process`
   * on the released text when there is any, and the deduplicating write.
   */
  method HandleOutput(vt: VT100Lite, pending: string, text: string) returns (newPending: string, written: seq<string>)
    modifies vt
    ensures newPending == BoundarySplit(pending, text).1
    ensures var run := RunRelease(old(vt.State()), BoundarySplit(pending, text).0);
      vt.State() == run.0 && (written, vt.lastLoggedLine) == Dedup(old(vt.lastLoggedLine), run.1)
    ensures GoodLines(written)
    ensures NoAdjacentRepeats(old(vt.lastLoggedLine), written)
  {
    var toProcess;
    toProcess, newPending := BoundarySplit(pending, text).0, BoundarySplit(pending, text).1;
    written := [];
    ghost var lines: seq<string> := [];
    if toProcess != [] {
      var completed := vt.Process(toProcess);
      lines := completed;
      written := LogLines(vt, completed);
    }
    DedupNoAdjacentRepeats(old(vt.lastLoggedLine), lines);
    DedupSubsequence(old(vt.lastLoggedLine), lines);
  }
}
