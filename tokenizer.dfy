/**
 * The tokenizer of `VT100Lite.process`: the split of a decoded chunk by a pattern with
 * three alternatives, tried in order at the leftmost position where one of them matches.
 *   CSI:           ESC '[' [0-9;?]* [@-~]
 *   OSC:           ESC ']' [0-9]* ';' (any char but newline, as few as possible) (BEL | ESC '\')
 *   short escape:  ESC one of = @ > 7 8 ( ) E H M
 * Every match becomes a token of its own; the text between two matches (which may hold an
 * ESC that starts none of them) becomes a `Text` token. The empty strings and `None`
 * groups that Python's `re.split` also returns are skipped by `process`, so they are not
 * produced here.
 */
module Tokenizer {
  import opened Wrappers
  import opened PyText

  const ESC: char := '\U{1B}'
  const BEL: char := '\U{07}'

  datatype Token = Csi(raw: string) | Osc(raw: string) | ShortEscape(raw: string) | Text(raw: string)

  /** `[0-9;?]`, the parameter bytes of a CSI sequence. */
  predicate IsCsiParam(c: char)
  {
    IsDigit(c) || c == ';' || c == '?'
  }

  /** `[\x40-\x7e]`, the final byte of a CSI sequence. */
  predicate IsCsiFinal(c: char)
  {
    '\U{40}' <= c <= '\U{7E}'
  }

  predicate IsShortEscapeChar(c: char)
  {
    c in "=@>78()EHM"
  }

  /** An OSC terminator (BEL, or ESC followed by a backslash) starts at index `m` of `s`. */
  predicate TerminatorAt(s: string, m: nat)
    requires m < |s|
  {
    s[m] == BEL || (s[m] == ESC && m + 1 < |s| && s[m + 1] == '\\')
  }

  /** Between `j` and `k` there is neither a newline nor the start of a terminator. */
  predicate NoStop(s: string, j: nat, k: nat)
    requires j <= k <= |s|
  {
    forall m :: j <= m < k ==> s[m] != '\n' && !TerminatorAt(s, m)
  }

  /** The strings the CSI alternative matches. */
  predicate IsCsi(r: string)
  {
    |r| >= 3 && r[0] == ESC && r[1] == '['
    && (forall m :: 2 <= m < |r| - 1 ==> IsCsiParam(r[m]))
    && IsCsiFinal(r[|r| - 1])
  }

  /** The OSC content from `j` runs up to a terminator that ends `r`. */
  predicate OscBody(r: string, j: nat)
  {
    (j < |r| && r[|r| - 1] == BEL && NoStop(r, j, |r| - 1))
    || (j + 1 < |r| && r[|r| - 2] == ESC && r[|r| - 1] == '\\' && NoStop(r, j, |r| - 2))
  }

  /** The strings the OSC alternative matches with its lazy content: the first terminator ends it. */
  predicate IsOsc(r: string)
  {
    |r| >= 2 && r[0] == ESC && r[1] == ']'
    && exists j :: 2 <= j < |r| && (forall m :: 2 <= m < j ==> IsDigit(r[m])) && r[j] == ';' && OscBody(r, j + 1)
  }

  /** The strings the short-escape alternative matches. */
  predicate IsShortEscape(r: string)
  {
    |r| == 2 && r[0] == ESC && IsShortEscapeChar(r[1])
  }

  /** A token is well formed when a matched kind holds a string its alternative matches. */
  predicate WellFormed(t: Token)
  {
    match t
    case Csi(r) => IsCsi(r)
    case Osc(r) => IsOsc(r)
    case ShortEscape(r) => IsShortEscape(r)
    case Text(r) => r != []
  }

  /** The first index from `k` on that is not a CSI parameter byte. */
  function ParamEnd(s: string, k: nat): (j: nat)
    requires k <= |s|
    ensures k <= j <= |s|
    ensures forall m :: k <= m < j ==> IsCsiParam(s[m])
    ensures j < |s| ==> !IsCsiParam(s[j])
    decreases |s| - k
  {
    if k == |s| || !IsCsiParam(s[k]) then k else ParamEnd(s, k + 1)
  }

  /** The first index from `k` on that is not a decimal digit. */
  function DigitEnd(s: string, k: nat): (j: nat)
    requires k <= |s|
    ensures k <= j <= |s|
    ensures forall m :: k <= m < j ==> IsDigit(s[m])
    ensures j < |s| ==> !IsDigit(s[j])
    decreases |s| - k
  {
    if k == |s| || !IsDigit(s[k]) then k else DigitEnd(s, k + 1)
  }

  /**
   * The lazy scan of OSC content from `k`: the index just past the first terminator,
   * or `None` when a newline or the end of the chunk comes first.
   */
  function OscEnd(s: string, k: nat): (e: Option<nat>)
    requires k <= |s|
    ensures e.Some? ==> k < e.value <= |s|
    ensures e.Some? && s[e.value - 1] == BEL ==> NoStop(s, k, e.value - 1)
    ensures e.Some? && s[e.value - 1] != BEL ==>
      k + 1 < e.value && s[e.value - 2] == ESC && s[e.value - 1] == '\\' && NoStop(s, k, e.value - 2)
    decreases |s| - k
  {
    if k == |s| then None
    else if s[k] == BEL then Some(k + 1)
    else if s[k] == ESC && k + 1 < |s| && s[k + 1] == '\\' then Some(k + 2)
    else if s[k] == '\n' then None
    else OscEnd(s, k + 1)
  }

  /** The token that the pattern matches at index `i` of `s`, trying CSI, then OSC, then the short escapes. */
  function MatchAt(s: string, i: nat): (t: Option<Token>)
    requires i <= |s|
    ensures t.Some? ==> !t.value.Text? && i + |t.value.raw| <= |s| && t.value.raw == s[i..i + |t.value.raw|]
    ensures t.Some? ==> WellFormed(t.value)
  {
    if i + 1 >= |s| || s[i] != ESC then None
    else if s[i + 1] == '[' then
      var j := ParamEnd(s, i + 2);
      if j < |s| && IsCsiFinal(s[j]) then
        var r := s[i..j + 1];
        assert forall m :: 2 <= m < |r| - 1 ==> r[m] == s[i + m];
        Some(Csi(r))
      else None
    else if s[i + 1] == ']' then
      var j := DigitEnd(s, i + 2);
      if j < |s| && s[j] == ';' then
        match OscEnd(s, j + 1)
        case Some(e) =>
          var r := s[i..e];
          OscBodySlice(s, i, j + 1, e);
          OscSound(s, i, j, e);
          Some(Osc(r))
        case None => None
      else None
    else if IsShortEscapeChar(s[i + 1]) then Some(ShortEscape(s[i..i + 2]))
    else None
  }

  /** `NoStop` carries over from a string to a slice of it that holds the checked range and one more character. */
  lemma NoStopSlice(s: string, i: nat, e: nat, a: nat, b: nat)
    requires i <= e <= |s| && a <= b < e - i
    requires NoStop(s, i + a, i + b)
    ensures NoStop(s[i..e], a, b)
  {
    var r := s[i..e];
    forall m | a <= m < b ensures r[m] != '\n' && !TerminatorAt(r, m) {
      assert r[m] == s[i + m] && r[m + 1] == s[i + m + 1];
      assert TerminatorAt(s, i + m) == TerminatorAt(r, m);
    }
  }

  /** A BEL-terminated OSC body keeps its shape when the match is cut out of the line. */
  lemma OscBodyBelSlice(s: string, i: nat, k: nat, e: nat)
    requires i < k < e <= |s| && s[e - 1] == BEL && NoStop(s, k, e - 1)
    ensures OscBody(s[i..e], k - i)
  {
    NoStopSlice(s, i, e, k - i, e - 1 - i);
    assert s[i..e][e - 1 - i] == s[e - 1];
  }

  /** An OSC body ended by ESC and backslash keeps its shape when the match is cut out of the line. */
  lemma OscBodyStSlice(s: string, i: nat, k: nat, e: nat)
    requires i < k && k + 1 < e <= |s| && s[e - 2] == ESC && s[e - 1] == '\\' && NoStop(s, k, e - 2)
    ensures OscBody(s[i..e], k - i)
  {
    NoStopSlice(s, i, e, k - i, e - 2 - i);
    assert s[i..e][e - 1 - i] == s[e - 1] && s[i..e][e - 2 - i] == s[e - 2];
  }

  /** An OSC body the lazy scan found keeps its shape when the match is cut out of the line. */
  lemma OscBodySlice(s: string, i: nat, k: nat, e: nat)
    requires i < k < e <= |s|
    requires s[e - 1] == BEL ==> NoStop(s, k, e - 1)
    requires s[e - 1] != BEL ==> k + 1 < e && s[e - 2] == ESC && s[e - 1] == '\\' && NoStop(s, k, e - 2)
    ensures OscBody(s[i..e], k - i)
  {
    if s[e - 1] == BEL {
      OscBodyBelSlice(s, i, k, e);
    } else {
      OscBodyStSlice(s, i, k, e);
    }
  }

  /** The digits before the `;` of an OSC stay digits in the cut-out match. */
  lemma OscDigitsSlice(s: string, i: nat, j: nat, e: nat)
    requires i + 2 <= j < e <= |s|
    requires forall m :: i + 2 <= m < j ==> IsDigit(s[m])
    ensures forall m :: 2 <= m < j - i ==> IsDigit(s[i..e][m])
  {
    forall m | 2 <= m < j - i ensures IsDigit(s[i..e][m]) { assert s[i..e][m] == s[i + m]; }
  }

  /** The OSC found by the scan, read as a string of its own, is in the OSC language. */
  lemma OscSound(s: string, i: nat, j: nat, e: nat)
    requires i + 2 <= j && j + 1 < e <= |s| && s[i] == ESC && s[i + 1] == ']' && s[j] == ';'
    requires forall m :: i + 2 <= m < j ==> IsDigit(s[m])
    requires OscBody(s[i..e], j + 1 - i)
    ensures IsOsc(s[i..e])
  {
    var r := s[i..e];
    var jr := j - i;
    OscDigitsSlice(s, i, j, e);
    assert r[0] == ESC && r[1] == ']' && r[jr] == ';';
    assert 2 <= jr < |r| && (forall m :: 2 <= m < jr ==> IsDigit(r[m])) && r[jr] == ';' && OscBody(r, jr + 1);
  }

  /** The lazy scan stops at the first terminator when no newline comes before it. */
  lemma {:induction false} OscEndFinds(s: string, k: nat, t: nat, e: nat)
    requires k <= t < e <= |s|
    requires NoStop(s, k, t)
    requires (e == t + 1 && s[t] == BEL) || (e == t + 2 && s[t] == ESC && s[t + 1] == '\\')
    ensures OscEnd(s, k) == Some(e)
    decreases t - k
  {
    if k < t {
      assert s[k] != '\n' && !TerminatorAt(s, k);
      OscEndFinds(s, k + 1, t, e);
    }
  }

  lemma ParamEndAt(s: string, k: nat, j: nat)
    requires k <= j < |s| && !IsCsiParam(s[j])
    requires forall m :: k <= m < j ==> IsCsiParam(s[m])
    ensures ParamEnd(s, k) == j
  {
  }

  lemma DigitEndAt(s: string, k: nat, j: nat)
    requires k <= j < |s| && !IsDigit(s[j])
    requires forall m :: k <= m < j ==> IsDigit(s[m])
    ensures DigitEnd(s, k) == j
  {
  }

  /** `NoStop` carries over from a slice back to the string it was cut from. */
  lemma NoStopUnslice(s: string, i: nat, e: nat, a: nat, b: nat)
    requires i <= e <= |s| && a <= b < e - i
    requires NoStop(s[i..e], a, b)
    ensures NoStop(s, i + a, i + b)
  {
    var r := s[i..e];
    forall m | i + a <= m < i + b ensures s[m] != '\n' && !TerminatorAt(s, m) {
      assert s[m] == r[m - i] && s[m + 1] == r[m - i + 1];
      assert TerminatorAt(s, m) == TerminatorAt(r, m - i);
    }
  }

  /** Wherever a CSI sequence starts at `i`, the tokenizer finds exactly that sequence there. */
  lemma MatchAtFindsCsi(s: string, i: nat, e: nat)
    requires i < e <= |s| && IsCsi(s[i..e])
    ensures MatchAt(s, i) == Some(Csi(s[i..e]))
  {
    var r := s[i..e];
    assert r[0] == s[i] && r[1] == s[i + 1] && r[|r| - 1] == s[e - 1];
    assert forall m :: i + 2 <= m < e - 1 ==> IsCsiParam(s[m]) by {
      forall m | i + 2 <= m < e - 1 ensures IsCsiParam(s[m]) { assert s[m] == r[m - i]; }
    }
    ParamEndAt(s, i + 2, e - 1);
  }

  /** How `MatchAt` reads an OSC: digits, a semicolon, then the scan for the terminator. */
  lemma MatchAtOsc(s: string, i: nat, j: nat, e: nat)
    requires i + 2 <= j < |s| && s[i] == ESC && s[i + 1] == ']' && s[j] == ';'
    requires DigitEnd(s, i + 2) == j && OscEnd(s, j + 1) == Some(e)
    ensures MatchAt(s, i) == Some(Osc(s[i..e]))
  {
    assert i + 1 < |s| && s[i + 1] != '[';
  }

  /** The digits and the semicolon of an OSC held in `s[i..e]`. */
  lemma OscHead(s: string, i: nat, e: nat) returns (j: nat)
    requires i < e <= |s| && IsOsc(s[i..e])
    ensures i + 2 <= j < e && s[i] == ESC && s[i + 1] == ']' && s[j] == ';'
    ensures DigitEnd(s, i + 2) == j
    ensures OscBody(s[i..e], j - i + 1)
  {
    var r := s[i..e];
    assert r[0] == s[i] && r[1] == s[i + 1];
    var jr :| 2 <= jr < |r| && (forall m :: 2 <= m < jr ==> IsDigit(r[m])) && r[jr] == ';' && OscBody(r, jr + 1);
    j := i + jr;
    assert s[j] == ';' by { assert r[jr] == s[j]; }
    assert forall m :: i + 2 <= m < j ==> IsDigit(s[m]) by {
      forall m | i + 2 <= m < j ensures IsDigit(s[m]) { assert s[m] == r[m - i]; }
    }
    DigitEndAt(s, i + 2, j);
  }

  /** Wherever an OSC sequence starts at `i`, the tokenizer finds exactly that sequence there, up to its first terminator. */
  lemma MatchAtFindsOsc(s: string, i: nat, e: nat)
    requires i < e <= |s| && IsOsc(s[i..e])
    ensures MatchAt(s, i) == Some(Osc(s[i..e]))
  {
    var j := OscHead(s, i, e);
    OscEndFromBody(s, i, j + 1, e);
    MatchAtOsc(s, i, j, e);
  }

  /** The lazy scan from the start of an OSC body ends exactly where the body's terminator does. */
  lemma OscEndFromBody(s: string, i: nat, k: nat, e: nat)
    requires i < k <= e <= |s| && OscBody(s[i..e], k - i)
    ensures OscEnd(s, k) == Some(e)
  {
    var r := s[i..e];
    assert r[|r| - 1] == s[e - 1];
    if r[|r| - 1] == BEL && k - i < |r| && NoStop(r, k - i, |r| - 1) {
      NoStopUnslice(s, i, e, k - i, |r| - 1);
      OscEndFinds(s, k, e - 1, e);
    } else {
      assert r[|r| - 2] == s[e - 2];
      NoStopUnslice(s, i, e, k - i, |r| - 2);
      OscEndFinds(s, k, e - 2, e);
    }
  }

  /** Wherever a short escape starts at `i`, the tokenizer finds it there. */
  lemma MatchAtFindsShortEscape(s: string, i: nat, e: nat)
    requires i < e <= |s| && IsShortEscape(s[i..e])
    ensures MatchAt(s, i) == Some(ShortEscape(s[i..e]))
  {
    var r := s[i..e];
    assert r[0] == s[i] && r[1] == s[i + 1];
  }

  /** The tokens' texts, concatenated in order. */
  function Flatten(parts: seq<Token>): string
  {
    if parts == [] then [] else parts[0].raw + Flatten(parts[1..])
  }

  lemma {:induction false} FlattenAppend(a: seq<Token>, b: seq<Token>)
    ensures Flatten(a + b) == Flatten(a) + Flatten(b)
  {
    if a != [] {
      assert (a + b)[1..] == a[1..] + b;
      FlattenAppend(a[1..], b);
    } else {
      assert a + b == b;
    }
  }

  /** The pending text run `s[start..i]` as a token, if it is not empty. */
  function PendingText(s: string, start: nat, i: nat): (parts: seq<Token>)
    requires start <= i <= |s|
    ensures Flatten(parts) == s[start..i]
    ensures forall t :: t in parts ==> t.Text? && WellFormed(t)
  {
    if start < i then [Text(s[start..i])] else []
  }

  /** A text run, a matched token and the parts after it together cover the text from `start`. */
  lemma JoinParts(s: string, start: nat, i: nat, t: Token, rest: seq<Token>)
    requires start <= i && i + |t.raw| <= |s| && t.raw == s[i..i + |t.raw|]
    requires Flatten(rest) == s[i + |t.raw|..]
    ensures Flatten(PendingText(s, start, i) + ([t] + rest)) == s[start..]
  {
    var e := i + |t.raw|;
    FlattenAppend(PendingText(s, start, i), [t] + rest);
    assert ([t] + rest)[1..] == rest;
    assert s[start..] == s[start..i] + s[i..e] + s[e..];
  }

  /** What the pattern matches at each position of `s`, from 0 to `|s|`. */
  function Matches(s: string): (m: seq<Option<Token>>)
    ensures |m| == |s| + 1
  {
    seq(|s| + 1, p requires 0 <= p <= |s| => MatchAt(s, p))
  }

  /** Position `i` of `Matches(s)` is the pattern's match there. */
  lemma MatchesAt(s: string, i: nat)
    requires i <= |s|
    ensures Matches(s)[i] == MatchAt(s, i)
  {
  }

  /** Matched token `t` is a non-text token whose text is found at `p` in `s`. */
  predicate Fits(s: string, p: nat, t: Token)
  {
    !t.Text? && WellFormed(t) && p + |t.raw| <= |s| && t.raw == s[p..p + |t.raw|]
  }

  /** `m` gives, for each position of `s`, either no match or a token that fits there. */
  predicate Sound(s: string, m: seq<Option<Token>>)
  {
    |m| == |s| + 1 && forall p :: 0 <= p < |m| && m[p].Some? ==> Fits(s, p, m[p].value)
  }

  /** Every match of the pattern fits where it is found. */
  lemma MatchesSound(s: string)
    ensures Sound(s, Matches(s))
  {
    forall p | 0 <= p <= |s| && Matches(s)[p].Some?
      ensures Fits(s, p, Matches(s)[p].value)
    {
      MatchesAt(s, p);
    }
  }

  /**
   * The scan from `i`, given the matches `m` at each position, with the text run that
   * began at `start` still open: a match at `i` closes the run and becomes a token;
   * otherwise the scan moves on one character.
   */
  function SplitFrom(s: string, m: seq<Option<Token>>, start: nat, i: nat): (parts: seq<Token>)
    requires Sound(s, m) && start <= i <= |s|
    ensures Flatten(parts) == s[start..]
    ensures forall t :: t in parts ==> WellFormed(t)
    decreases |s| - i
  {
    if i == |s| then PendingText(s, start, i)
    else match m[i]
      case None => SplitFrom(s, m, start, i + 1)
      case Some(t) =>
        var e := i + |t.raw|;
        var rest := SplitFrom(s, m, e, e);
        JoinParts(s, start, i, t, rest);
        PendingText(s, start, i) + ([t] + rest)
  }

  /**
   * Token `t` sits at offset `o` as the leftmost-match scan puts it there, given the
   * matches `m` at each position: a text run holds no position where the pattern
   * matches and runs on up to the next match or the end; a matched token is what the
   * pattern matches at `o`.
   */
  predicate PartAt(m: seq<Option<Token>>, o: nat, t: Token)
  {
    o + |t.raw| < |m|
    && if t.Text? then
         (forall p :: o <= p < o + |t.raw| ==> m[p] == None)
         && (o + |t.raw| == |m| - 1 || m[o + |t.raw|].Some?)
       else m[o] == Some(t)
  }

  /** Every part sits, at the offset where the parts before it end, as the scan puts it there. */
  predicate Leftmost(m: seq<Option<Token>>, o: nat, parts: seq<Token>)
    decreases |parts|
  {
    parts == [] || (PartAt(m, o, parts[0]) && Leftmost(m, o + |parts[0].raw|, parts[1..]))
  }

  /** The scan from `i`, with no match between `start` and `i`, puts every part where `re.split` does. */
  lemma {:induction false} SplitFromLeftmost(s: string, m: seq<Option<Token>>, start: nat, i: nat)
    requires Sound(s, m) && start <= i <= |s|
    requires forall p :: start <= p < i ==> m[p] == None
    ensures Leftmost(m, start, SplitFrom(s, m, start, i))
    decreases |s| - i
  {
    if i == |s| {
      PendingLeftmost(s, m, start);
    } else {
      match m[i]
      case None =>
        SplitFromLeftmost(s, m, start, i + 1);
        LeftmostSkip(s, m, start, i);
      case Some(t) =>
        MatchEnd(s, m, i);
        var e := i + |t.raw|;
        SplitFromLeftmost(s, m, e, e);
        LeftmostMatch(s, m, start, i, t);
    }
  }

  /** A match ends within the text. */
  lemma MatchEnd(s: string, m: seq<Option<Token>>, i: nat)
    requires Sound(s, m) && i <= |s| && m[i].Some?
    ensures i + |m[i].value.raw| <= |s|
  {
    assert Fits(s, i, m[i].value);
  }

  /** A position without a match leaves the scan's placement as it is from the next one. */
  lemma LeftmostSkip(s: string, m: seq<Option<Token>>, start: nat, i: nat)
    requires Sound(s, m) && start <= i < |s| && m[i] == None
    requires Leftmost(m, start, SplitFrom(s, m, start, i + 1))
    ensures Leftmost(m, start, SplitFrom(s, m, start, i))
  {
  }

  /** A match at `i`, after a run without matches, joins the parts placed from its end. */
  lemma LeftmostMatch(s: string, m: seq<Option<Token>>, start: nat, i: nat, t: Token)
    requires Sound(s, m) && start <= i < |s| && m[i] == Some(t)
    requires forall p :: start <= p < i ==> m[p] == None
    requires Leftmost(m, i + |t.raw|, SplitFrom(s, m, i + |t.raw|, i + |t.raw|))
    ensures Leftmost(m, start, SplitFrom(s, m, start, i))
  {
    var e := i + |t.raw|;
    var rest := SplitFrom(s, m, e, e);
    var pending := PendingText(s, start, i);
    SplitFromAtMatch(s, m, start, i, t);
    PendingShape(s, start, i);
    LeftmostJoin(m, start, i, t, rest, pending);
  }

  /** The pending text is nothing, or one text part that ends at `i`. */
  lemma PendingShape(s: string, start: nat, i: nat)
    requires start <= i <= |s|
    ensures var pending := PendingText(s, start, i);
      (pending == [] && start == i) || (|pending| == 1 && pending[0].Text? && start + |pending[0].raw| == i)
  {
  }

  /** The scan reaching a match at `i` yields the pending text, the match, and the scan from its end. */
  lemma SplitFromAtMatch(s: string, m: seq<Option<Token>>, start: nat, i: nat, t: Token)
    requires Sound(s, m) && start <= i < |s| && m[i] == Some(t)
    ensures i + |t.raw| <= |s|
    ensures SplitFrom(s, m, start, i) == PendingText(s, start, i) + ([t] + SplitFrom(s, m, i + |t.raw|, i + |t.raw|))
  {
    assert Fits(s, i, t);
  }

  /** The text run still open at the end of the chunk is placed, up to the end. */
  lemma PendingLeftmost(s: string, m: seq<Option<Token>>, start: nat)
    requires Sound(s, m) && start <= |s|
    requires forall p :: start <= p < |s| ==> m[p] == None
    ensures Leftmost(m, start, SplitFrom(s, m, start, |s|))
  {
    if start < |s| {
      assert [Text(s[start..|s|])][1..] == [];
    }
  }


  /** A text run without matches, then a match, then parts placed from its end, are all placed. */
  lemma LeftmostJoin(m: seq<Option<Token>>, start: nat, i: nat, t: Token, rest: seq<Token>, pending: seq<Token>)
    requires start <= i && !t.Text? && i + |t.raw| < |m| && m[i] == Some(t)
    requires forall p :: start <= p < i ==> m[p] == None
    requires Leftmost(m, i + |t.raw|, rest)
    requires (pending == [] && start == i) || (|pending| == 1 && pending[0].Text? && start + |pending[0].raw| == i)
    ensures Leftmost(m, start, pending + ([t] + rest))
  {
    assert ([t] + rest)[1..] == rest;
    assert Leftmost(m, i, [t] + rest);
    if pending == [] {
      assert pending + ([t] + rest) == [t] + rest;
    } else {
      assert (pending + ([t] + rest))[1..] == [t] + rest;
    }
  }

  /** The part at index `k` sits at the offset where the parts before it end. */
  lemma {:induction false} LeftmostAt(m: seq<Option<Token>>, o: nat, parts: seq<Token>, k: nat)
    requires Leftmost(m, o, parts) && k < |parts|
    ensures PartAt(m, o + |Flatten(parts[..k])|, parts[k])
    decreases k
  {
    var o' := o + |parts[0].raw|;
    var tail := parts[1..];
    assert PartAt(m, o, parts[0]) && Leftmost(m, o', tail);
    if k == 0 {
      assert parts[..0] == [];
    } else {
      LeftmostAt(m, o', tail, k - 1);
      FlattenPrefix(parts, k);
      assert tail[k - 1] == parts[k];
    }
  }

  /** The text of the first `k` parts is the first part's text followed by that of the next `k - 1`. */
  lemma FlattenPrefix(parts: seq<Token>, k: nat)
    requires 0 < k <= |parts|
    ensures Flatten(parts[..k]) == parts[0].raw + Flatten(parts[1..][..k - 1])
  {
    assert parts[..k][1..] == parts[1..][..k - 1];
    assert parts[..k][0] == parts[0];
  }

  /**
   * `re.split` of a chunk by the token pattern, empty parts dropped: the parts,
   * concatenated in order, give the chunk back; none is empty; each matched part is in
   * its alternative's language; and every part is where the leftmost-match scan puts it.
   */
  function Split(chunk: string): (parts: seq<Token>)
    ensures Flatten(parts) == chunk
    ensures forall t :: t in parts ==> WellFormed(t) && t.raw != []
  {
    assert chunk[0..] == chunk;
    MatchesSound(chunk);
    SplitFrom(chunk, Matches(chunk), 0, 0)
  }

  /** Every part of the split sits where the leftmost-match scan puts it. */
  lemma SplitIsLeftmost(chunk: string)
    ensures Leftmost(Matches(chunk), 0, Split(chunk))
  {
    MatchesSound(chunk);
    SplitFromLeftmost(chunk, Matches(chunk), 0, 0);
  }

  /**
   * The `k`-th part, at offset `o` where the parts before it end: a text part holds no
   * position where the pattern matches, and any other part is the pattern's match at `o`.
   */
  lemma SplitLeftmost(chunk: string, k: nat)
    requires k < |Split(chunk)|
    ensures PlacedAt(chunk, |Flatten(Split(chunk)[..k])|, Split(chunk)[k])
  {
    SplitIsLeftmost(chunk);
    LeftmostPlaced(chunk, Split(chunk), k);
  }

  /** Parts placed by the scan over `Matches(chunk)` are placed as the pattern's matches say. */
  lemma LeftmostPlaced(chunk: string, parts: seq<Token>, k: nat)
    requires Leftmost(Matches(chunk), 0, parts) && k < |parts|
    ensures PlacedAt(chunk, |Flatten(parts[..k])|, parts[k])
  {
    LeftmostAt(Matches(chunk), 0, parts, k);
    PartAtMatches(chunk, |Flatten(parts[..k])|, parts[k]);
  }

  /**
   * Part `part` sits at offset `o` of `chunk` as `re.split` puts it: a text part holds no
   * position where the pattern matches and ends at the chunk's end or at a match; any
   * other part is the pattern's match at `o`.
   */
  predicate PlacedAt(chunk: string, o: nat, part: Token)
  {
    o + |part.raw| <= |chunk|
    && (part.Text? ==> forall p :: o <= p < o + |part.raw| ==> MatchAt(chunk, p) == None)
    && (part.Text? && o + |part.raw| < |chunk| ==> MatchAt(chunk, o + |part.raw|).Some?)
    && (!part.Text? ==> MatchAt(chunk, o) == Some(part))
  }

  /** `PartAt` over `Matches(chunk)`, read back in terms of the pattern's matches. */
  lemma PartAtMatches(chunk: string, o: nat, part: Token)
    requires PartAt(Matches(chunk), o, part)
    ensures PlacedAt(chunk, o, part)
  {
    if part.Text? {
      forall p | o <= p < o + |part.raw|
        ensures MatchAt(chunk, p) == None
      {
        MatchesAt(chunk, p);
      }
      if o + |part.raw| < |chunk| {
        MatchesAt(chunk, o + |part.raw|);
      }
    } else {
      MatchesAt(chunk, o);
    }
  }

  /**
   * The leftmost-match placement and coverage determine the split: any sequence of
   * non-empty parts that concatenates to the chunk and sits where the scan puts parts
   * is `Split(chunk)`.
   */
  lemma SplitUnique(chunk: string, parts: seq<Token>)
    requires Flatten(parts) == chunk
    requires forall t :: t in parts ==> t.raw != []
    requires Leftmost(Matches(chunk), 0, parts)
    ensures parts == Split(chunk)
  {
    SplitIsLeftmost(chunk);
    LeftmostUnique(Matches(chunk), 0, parts, Split(chunk));
  }

  /** Two placements of non-empty parts from the same offset, with the same text, are the same parts. */
  lemma {:induction false} LeftmostUnique(m: seq<Option<Token>>, o: nat, a: seq<Token>, b: seq<Token>)
    requires Leftmost(m, o, a) && Leftmost(m, o, b)
    requires Flatten(a) == Flatten(b)
    requires forall t :: t in a ==> t.raw != []
    requires forall t :: t in b ==> t.raw != []
    ensures a == b
    decreases |a|
  {
    if a != [] && b != [] {
      var x, y := a[0], b[0];
      assert x in a && y in b;
      assert PartAt(m, o, x) && Leftmost(m, o + |x.raw|, a[1..]);
      assert PartAt(m, o, y) && Leftmost(m, o + |y.raw|, b[1..]);
      SameHead(m, o, x, y);
      assert x.raw + Flatten(a[1..]) == y.raw + Flatten(b[1..]);
      HeadsAgree(x.raw, Flatten(a[1..]), y.raw, Flatten(b[1..]));
      forall t | t in a[1..] ensures t.raw != [] { assert t in a; }
      forall t | t in b[1..] ensures t.raw != [] { assert t in b; }
      LeftmostUnique(m, o + |x.raw|, a[1..], b[1..]);
      assert a == [x] + a[1..] && b == [y] + b[1..];
    }
  }

  /** Two non-empty parts placed at the same offset have the same kind and length, and matched ones are equal. */
  lemma SameHead(m: seq<Option<Token>>, o: nat, x: Token, y: Token)
    requires PartAt(m, o, x) && PartAt(m, o, y) && x.raw != [] && y.raw != []
    ensures x.Text? == y.Text? && |x.raw| == |y.raw|
    ensures !x.Text? ==> x == y
  {
  }


  /** Equal concatenations with equally long heads have equal heads and equal tails. */
  lemma HeadsAgree(x: string, xs: string, y: string, ys: string)
    requires x + xs == y + ys && |x| == |y|
    ensures x == y && xs == ys
  {
    assert x == (x + xs)[..|x|] && y == (y + ys)[..|y|];
    assert xs == (x + xs)[|x|..] && ys == (y + ys)[|y|..];
  }

  /** Past the last match, the scan only extends the open text run. */
  lemma {:induction false} SplitFromNoMatch(s: string, m: seq<Option<Token>>, start: nat, i: nat)
    requires Sound(s, m) && start <= i <= |s|
    requires forall p :: i <= p < |s| ==> m[p] == None
    ensures SplitFrom(s, m, start, i) == PendingText(s, start, |s|)
    decreases |s| - i
  {
    if i < |s| {
      SplitFromNoMatch(s, m, start, i + 1);
    }
  }

  /** A non-empty chunk with no match before `i` and no ESC from `i` on is a single text part. */
  lemma SplitText(chunk: string, i: nat)
    requires 0 < |chunk| && i <= |chunk|
    requires forall p :: 0 <= p < i ==> MatchAt(chunk, p) == None
    requires forall p :: i <= p < |chunk| ==> chunk[p] != ESC
    ensures Split(chunk) == [Text(chunk)]
  {
    var m := Matches(chunk);
    MatchesSound(chunk);
    forall p | 0 <= p < |chunk|
      ensures m[p] == None
    {
      MatchesAt(chunk, p);
    }
    SplitFromNoMatch(chunk, m, 0, 0);
    assert chunk[0..|chunk|] == chunk;
  }

  /** A chunk without ESC is a single text part. */
  lemma SplitNoEsc(chunk: string)
    requires ESC !in chunk
    ensures Split(chunk) == if chunk == [] then [] else [Text(chunk)]
  {
    if chunk != [] {
      SplitText(chunk, 0);
    }
  }

  /** A chunk that is, whole, the pattern's match at its start is that one token. */
  lemma SplitWhole(chunk: string, t: Token)
    requires MatchAt(chunk, 0) == Some(t) && |t.raw| == |chunk|
    ensures Split(chunk) == [t]
  {
    var m := Matches(chunk);
    MatchesSound(chunk);
    MatchesAt(chunk, 0);
    assert PendingText(chunk, 0, 0) == [];
    assert SplitFrom(chunk, m, |chunk|, |chunk|) == [];
    assert SplitFrom(chunk, m, 0, 0) == [] + ([t] + []);
  }
}
