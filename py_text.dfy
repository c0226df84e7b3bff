/**
 * The pieces of Python's `str` and `int` that the screen reconstruction relies on:
 * `str.isspace` (through `str.rstrip()`) and `int(str)` on the parameter of a control
 * sequence.
 */
module PyText {
  import opened Wrappers

  /** The code points for which Python's `str.isspace()` is true. */
  predicate IsSpace(c: char)
  {
    ('\t' <= c <= '\r') || ('\U{1C}' <= c <= ' ') || c == '\U{85}' || c == '\U{A0}'
    || c == '\U{1680}' || ('\U{2000}' <= c <= '\U{200A}') || c == '\U{2028}'
    || c == '\U{2029}' || c == '\U{202F}' || c == '\U{205F}' || c == '\U{3000}'
  }

  /** A string with no trailing whitespace. */
  predicate Trimmed(s: string)
  {
    s == [] || !IsSpace(s[|s| - 1])
  }

  /** `s.rstrip()`: the longest prefix of `s` that does not end in whitespace. */
  function RStrip(s: string): (r: string)
    ensures r <= s
    ensures Trimmed(r)
    ensures forall i :: |r| <= i < |s| ==> IsSpace(s[i])
  {
    if s == [] || !IsSpace(s[|s| - 1]) then s else RStrip(s[..|s| - 1])
  }

  /** `rstrip` removes exactly the trailing whitespace: stripping whitespace added to a string changes nothing. */
  lemma {:induction false} RStripIgnoresTrailingSpace(s: string, w: string)
    requires forall i :: 0 <= i < |w| ==> IsSpace(w[i])
    ensures RStrip(s + w) == RStrip(s)
  {
    if w != [] {
      assert (s + w)[..|s + w| - 1] == s + w[..|w| - 1];
      RStripIgnoresTrailingSpace(s, w[..|w| - 1]);
    } else {
      assert s + w == s;
    }
  }

  /** A string already free of trailing whitespace is its own `rstrip`. */
  lemma RStripTrimmed(s: string)
    requires Trimmed(s)
    ensures RStrip(s) == s
  {
  }

  predicate IsDigit(c: char)
  {
    '0' <= c <= '9'
  }

  /** The whitespace `int()` skips around its number: ASCII white space, and any non-ASCII `isspace` character. */
  predicate IntSpace(c: char)
  {
    c == ' ' || ('\t' <= c <= '\r') || (c > '\U{7F}' && IsSpace(c))
  }

  /** A character that can appear anywhere in a string `int()` accepts. */
  predicate IntChar(c: char)
  {
    IsDigit(c) || c == '_' || c == '+' || c == '-' || IntSpace(c)
  }

  /** The number of leading `int()` whitespace characters of `s`. */
  function LeadingIntSpace(s: string): (k: nat)
    ensures k <= |s|
    ensures k < |s| ==> !IntSpace(s[k])
    ensures forall i :: 0 <= i < k ==> IntSpace(s[i])
  {
    if s == [] || !IntSpace(s[0]) then 0 else 1 + LeadingIntSpace(s[1..])
  }

  /**
   * `s` with its trailing `int()` whitespace removed. This is not `RStrip`: `int()` skips
   * a different set of characters than `str.isspace` accepts (the ASCII separators
   * `\x1c`-`\x1f` are `isspace` but `int()` rejects them).
   */
  function RStripInt(s: string): (r: string)
    ensures r <= s
    ensures r == [] || !IntSpace(r[|r| - 1])
    ensures forall i :: |r| <= i < |s| ==> IntSpace(s[i])
  {
    if s == [] || !IntSpace(s[|s| - 1]) then s else RStripInt(s[..|s| - 1])
  }

  /** Decimal digits with single underscores between them, as `int()` accepts them since Python 3.6. */
  predicate IsDigitGroup(t: string)
  {
    t != [] && IsDigit(t[0]) && IsDigit(t[|t| - 1])
    && (forall i :: 0 <= i < |t| ==> IsDigit(t[i]) || t[i] == '_')
    && (forall i :: 0 <= i < |t| - 1 ==> IsDigit(t[i]) || IsDigit(t[i + 1]))
  }

  /** The value of a run of digits and underscores, underscores ignored. */
  function DigitValue(t: string): nat
  {
    if t == [] then 0
    else if t[|t| - 1] == '_' then DigitValue(t[..|t| - 1])
    else if IsDigit(t[|t| - 1]) then 10 * DigitValue(t[..|t| - 1]) + (t[|t| - 1] as int - '0' as int)
    else 10 * DigitValue(t[..|t| - 1])
  }

  /** The part of `s` that `int()` parses: `s` without surrounding whitespace. */
  function IntBody(s: string): string
  {
    RStripInt(s[LeadingIntSpace(s)..])
  }

  /**
   * CPython's default limit on the number of digits `int()` converts from a decimal
   * string (`sys.int_info.default_max_str_digits`); underscores do not count.
   */
  const MAX_STR_DIGITS: nat := 4300

  /** The number of ASCII digits in `t`. */
  function DigitCount(t: string): (n: nat)
    ensures n <= |t|
  {
    if t == [] then 0 else DigitCount(t[..|t| - 1]) + (if IsDigit(t[|t| - 1]) then 1 else 0)
  }

  /** `int()` on an unsigned digit group: its value, unless it has more digits than the limit allows. */
  function GroupValue(g: string): Option<nat>
  {
    if IsDigitGroup(g) && DigitCount(g) <= MAX_STR_DIGITS then Some(DigitValue(g)) else None
  }

  /** The number a sign-free or signed digit group denotes, if `t` is one that `int()` converts. */
  function SignedDigits(t: string): Option<int>
  {
    if t != [] && (t[0] == '-' || t[0] == '+') then
      match GroupValue(t[1..])
      case Some(v) => var w: int := v; Some(if t[0] == '-' then -w else w)
      case None => None
    else
      match GroupValue(t)
      case Some(v) => Some(v)
      case None => None
  }

  /**
   * `int(s)` for a string `s`: `Some(n)` when Python returns `n`, `None` when it raises
   * `ValueError`. Only ASCII digits are recognised (see README). What it accepts is made
   * of digits, underscores, signs and whitespace, holds at least one digit, and holds no
   * more digits than the limit.
   */
  function PyInt(s: string): (r: Option<int>)
    ensures r.Some? ==> forall i :: 0 <= i < |s| ==> IntChar(s[i])
    ensures r.Some? ==> exists i :: 0 <= i < |s| && IsDigit(s[i])
    ensures r.Some? ==> DigitCount(s) <= MAX_STR_DIGITS
  {
    var v := SignedDigits(IntBody(s));
    if v.Some? then
      SignedDigitsChars(IntBody(s));
      AcceptedShape(s);
      BodyDigitCount(s);
      v
    else v
  }

  lemma {:induction false} DigitCountAppend(a: string, b: string)
    ensures DigitCount(a + b) == DigitCount(a) + DigitCount(b)
    decreases |b|
  {
    if b == [] {
      assert a + b == a;
    } else {
      assert (a + b)[..|a + b| - 1] == a + b[..|b| - 1];
      DigitCountAppend(a, b[..|b| - 1]);
    }
  }

  lemma {:induction false} DigitCountAll(t: string)
    requires forall i :: 0 <= i < |t| ==> IsDigit(t[i])
    ensures DigitCount(t) == |t|
  {
    if t != [] {
      DigitCountAll(t[..|t| - 1]);
    }
  }

  lemma {:induction false} DigitCountNone(t: string)
    requires forall i :: 0 <= i < |t| ==> !IsDigit(t[i])
    ensures DigitCount(t) == 0
  {
    if t != [] {
      DigitCountNone(t[..|t| - 1]);
    }
  }

  /** `IntBody(s)` is a slice of `s` and everything around it is `int()` whitespace. */
  lemma IntBodySlice(s: string)
    ensures LeadingIntSpace(s) + |IntBody(s)| <= |s|
    ensures IntBody(s) == s[LeadingIntSpace(s)..LeadingIntSpace(s) + |IntBody(s)|]
    ensures forall i :: 0 <= i < |s| && !(LeadingIntSpace(s) <= i < LeadingIntSpace(s) + |IntBody(s)|) ==> IntSpace(s[i])
  {
    var k := LeadingIntSpace(s);
    var u := s[k..];
    assert forall i :: k <= i < |s| ==> s[i] == u[i - k];
  }

  lemma SignedDigitsChars(t: string)
    requires SignedDigits(t).Some?
    ensures forall i :: 0 <= i < |t| ==> IntChar(t[i])
    ensures exists i :: 0 <= i < |t| && IsDigit(t[i])
    ensures DigitCount(t) <= MAX_STR_DIGITS
  {
    if t[0] == '-' || t[0] == '+' {
      assert forall i :: 1 <= i < |t| ==> t[i] == t[1..][i - 1];
      assert IsDigit(t[1]);
      assert t == [t[0]] + t[1..];
      DigitCountAppend([t[0]], t[1..]);
      DigitCountNone([t[0]]);
    } else {
      assert IsDigit(t[0]);
    }
  }

  /** What `SignedDigits` accepts of a string's body holds for the whole string. */
  lemma AcceptedShape(s: string)
    requires forall i :: 0 <= i < |IntBody(s)| ==> IntChar(IntBody(s)[i])
    requires exists i :: 0 <= i < |IntBody(s)| && IsDigit(IntBody(s)[i])
    ensures forall i :: 0 <= i < |s| ==> IntChar(s[i])
    ensures exists i :: 0 <= i < |s| && IsDigit(s[i])
  {
    var k := LeadingIntSpace(s);
    var t := IntBody(s);
    IntBodySlice(s);
    assert forall i :: k <= i < k + |t| ==> s[i] == t[i - k];
    var j :| 0 <= j < |t| && IsDigit(t[j]);
    assert IsDigit(s[k + j]);
  }

  /** The whitespace around the body holds no digit. */
  lemma BodyDigitCount(s: string)
    ensures DigitCount(s) == DigitCount(IntBody(s))
  {
    var k := LeadingIntSpace(s);
    IntBodySlice(s);
    DigitCountAround(s, k, k + |IntBody(s)|);
  }

  /** Digits are counted only inside `s[k..e]` when there are none around it. */
  lemma DigitCountAround(s: string, k: nat, e: nat)
    requires k <= e <= |s|
    requires forall i :: 0 <= i < |s| && !(k <= i < e) ==> !IsDigit(s[i])
    ensures DigitCount(s) == DigitCount(s[k..e])
  {
    var a, t, b := s[..k], s[k..e], s[e..];
    assert s == a + t + b;
    assert forall i :: 0 <= i < |a| ==> a[i] == s[i];
    assert forall i :: 0 <= i < |b| ==> b[i] == s[e + i];
    DigitCountNone(a);
    DigitCountNone(b);
    DigitCountAppend(a, t);
    DigitCountAppend(a + t, b);
  }


  /** The decimal rendering of a natural number, most significant digit first. */
  function Decimal(n: nat): (d: string)
    ensures d != []
    ensures forall i :: 0 <= i < |d| ==> IsDigit(d[i])
  {
    var last := ['0' + ((n % 10) as char)];
    if n < 10 then last else Decimal(n / 10) + last
  }

  lemma {:induction false} DecimalValue(n: nat)
    ensures DigitValue(Decimal(n)) == n
  {
    var d := Decimal(n);
    if n >= 10 {
      assert d[..|d| - 1] == Decimal(n / 10);
      DecimalValue(n / 10);
    } else {
      assert d[..|d| - 1] == [];
    }
  }

  function Pow10(k: nat): (p: nat)
    ensures p >= 1
  {
    if k == 0 then 1 else 10 * Pow10(k - 1)
  }

  /** The decimal rendering of `n` has at most `k` digits exactly when `n < 10^k`. */
  lemma {:induction false} DecimalLength(n: nat, k: nat)
    requires k >= 1
    ensures |Decimal(n)| <= k <==> n < Pow10(k)
  {
    if n >= 10 {
      if k == 1 {
        assert |Decimal(n)| == |Decimal(n / 10)| + 1;
      } else {
        DecimalLength(n / 10, k - 1);
        assert n / 10 < Pow10(k - 1) <==> n < 10 * Pow10(k - 1);
      }
    } else {
      assert Pow10(k) == 10 * Pow10(k - 1);
    }
  }

  /**
   * `int()` reads back the decimal rendering of a natural number while it has at most
   * `MAX_STR_DIGITS` digits (by `DecimalLength`, while `n < 10^4300`), and raises
   * `ValueError` for a longer one.
   */
  lemma {:induction false} PyIntDecimal(n: nat)
    ensures PyInt(Decimal(n)) == if |Decimal(n)| <= MAX_STR_DIGITS then Some(n) else None
  {
    var d := Decimal(n);
    assert LeadingIntSpace(d) == 0;
    assert d[0..] == d;
    assert RStripInt(d) == d;
    DigitCountAll(d);
    DecimalValue(n);
  }

  /** `int()` rejects the empty string and any string holding a character outside its number syntax, such as `;` or `?`. */
  lemma PyIntRejects(s: string)
    requires s == [] || exists i :: 0 <= i < |s| && !IntChar(s[i])
    ensures PyInt(s) == None
  {
  }

  /** `int()` returns the value of a non-empty run of ASCII digits up to the digit limit, and raises `ValueError` beyond it. */
  lemma {:induction false} PyIntDigits(s: string)
    requires s != [] && forall i :: 0 <= i < |s| ==> IsDigit(s[i])
    ensures PyInt(s) == if |s| <= MAX_STR_DIGITS then Some(DigitValue(s)) else None
  {
    assert LeadingIntSpace(s) == 0;
    assert s[0..] == s;
    assert RStripInt(s) == s;
    DigitCountAll(s);
  }
}
