/** Text helpers standing for the Python string operations the bot relies on:
    integer formatting (`str(n)`, `f"{n:02d}"`), `int(...)` on digit strings,
    `str.join`, `str.split(sep)`, `str.strip()` and `str.split()`. */
module Format {
  import opened Wrappers

  // ---------------------------------------------------------------- Digits

  predicate IsDigit(c: char)
  {
    '0' <= c <= '9'
  }

  predicate AllDigits(s: string)
  {
    forall i :: 0 <= i < |s| ==> IsDigit(s[i])
  }

  function DigitChar(d: nat): (c: char)
    requires d < 10
    ensures IsDigit(c) && c as int - '0' as int == d
  {
    ('0' as int + d) as char
  }

  /** The decimal digits of `n`, most significant first, without leading zeros (`str(n)`). */
  function NatToString(n: nat): (s: string)
    ensures |s| >= 1 && AllDigits(s)
    ensures |s| > 1 ==> s[0] != '0'
  {
    if n < 10 then [DigitChar(n)]
    else
      var prefix := NatToString(n / 10);
      prefix + [DigitChar(n % 10)]
  }

  /** `str(n)` for an integer of either sign. */
  function IntToString(n: int): string
  {
    if n < 0 then "-" + NatToString(-n) else NatToString(n)
  }

  /** The value of a string of decimal digits (leading zeros allowed). */
  function DigitsValue(s: string): nat
    requires AllDigits(s)
  {
    if s == [] then 0
    else DigitsValue(s[..|s| - 1]) * 10 + (s[|s| - 1] as int - '0' as int)
  }

  /** `int(s)` restricted to non-empty ASCII digit strings. */
  function ParseNat(s: string): Option<nat>
  {
    if s != [] && AllDigits(s) then Some(DigitsValue(s)) else None
  }

  lemma {:induction false} DigitsValueOfNat(n: nat)
    ensures DigitsValue(NatToString(n)) == n
  {
    if n >= 10 {
      DigitsValueOfNat(n / 10);
      var s := NatToString(n);
      assert s[..|s| - 1] == NatToString(n / 10);
    }
  }

  /** Leading zeros do not change a digit string's value. */
  lemma {:induction false} DigitsValueLeadingZero(s: string)
    requires AllDigits(s)
    ensures AllDigits("0" + s) && DigitsValue("0" + s) == DigitsValue(s)
    decreases |s|
  {
    if s != [] {
      var init := s[..|s| - 1];
      DigitsValueLeadingZero(init);
      assert ("0" + s)[..|"0" + s| - 1] == "0" + init;
    } else {
      assert ("0" + s)[..0] == [];
    }
  }

  /** Reading back `str(n)` gives `n`. */
  lemma {:induction false} ParseNatToString(n: nat)
    ensures ParseNat(NatToString(n)) == Some(n)
  {
    DigitsValueOfNat(n);
  }

  /** `int(s)` on text without spaces or underscores: an optional sign, then
      ASCII digits. */
  function ParseInt(s: string): Option<int>
  {
    if s != [] && (s[0] == '+' || s[0] == '-') then
      match ParseNat(s[1..])
      case Some(n) => Some(if s[0] == '-' then -(n as int) else n as int)
      case None => None
    else
      match ParseNat(s)
      case Some(n) => Some(n)
      case None => None
  }

  /** Reading back `str(n)` gives `n`, for either sign. */
  lemma ParseIntToString(n: int)
    ensures ParseInt(IntToString(n)) == Some(n)
  {
    if n < 0 {
      var s := IntToString(n);
      assert s[1..] == NatToString(-n);
      ParseNatToString(-n);
    } else {
      ParseNatToString(n);
    }
  }

  // ------------------------------------------------------ Zero padding

  function Zeros(k: nat): (s: string)
    ensures |s| == k && AllDigits(s)
    ensures forall i :: 0 <= i < k ==> s[i] == '0'
  {
    if k == 0 then [] else "0" + Zeros(k - 1)
  }

  /** `f"{n:0<width>d}"`: the sign, then the digits left-padded with zeros so
      that the whole field is at least `width` characters wide. */
  function PadInt(n: int, width: nat): (s: string)
    ensures |s| >= width
    ensures n >= 0 ==> AllDigits(s)
  {
    if n < 0 then
      var digits := NatToString(-n);
      "-" + (if |digits| + 1 < width then Zeros(width - 1 - |digits|) else []) + digits
    else
      var digits := NatToString(n);
      (if |digits| < width then Zeros(width - |digits|) else []) + digits
  }

  lemma {:induction false} DigitsValueZeros(k: nat, s: string)
    requires AllDigits(s)
    ensures AllDigits(Zeros(k) + s) && DigitsValue(Zeros(k) + s) == DigitsValue(s)
    decreases k
  {
    if k > 0 {
      DigitsValueZeros(k - 1, s);
      DigitsValueLeadingZero(Zeros(k - 1) + s);
      assert Zeros(k) + s == "0" + (Zeros(k - 1) + s);
    } else {
      assert Zeros(k) + s == s;
    }
  }

  /** A zero-padded non-negative field reads back as its value. */
  lemma {:induction false} PadIntRoundTrip(n: nat, width: nat)
    ensures ParseNat(PadInt(n, width)) == Some(n)
  {
    var digits := NatToString(n);
    var zeros := if |digits| < width then Zeros(width - |digits|) else [];
    assert PadInt(n, width) == zeros + digits;
    DigitsValueOfNat(n);
    if |digits| < width {
      DigitsValueZeros(width - |digits|, digits);
    } else {
      assert zeros + digits == digits;
    }
    assert DigitsValue(zeros + digits) == n;
  }

  // -------------------------------------------------------- Join / split

  /** `sep.join(parts)`. */
  function Join(parts: seq<string>, sep: string): string
  {
    if parts == [] then ""
    else if |parts| == 1 then parts[0]
    else Join(parts[..|parts| - 1], sep) + sep + parts[|parts| - 1]
  }

  /** `s.split(c)` for a one-character separator: the maximal pieces between
      separators, always at least one (possibly empty) piece. */
  function SplitOn(s: string, c: char): (parts: seq<string>)
    ensures |parts| >= 1
    ensures forall i, j :: 0 <= i < |parts| && 0 <= j < |parts[i]| ==> parts[i][j] != c
  {
    if s == [] then [""]
    else
      var prev := SplitOn(s[..|s| - 1], c);
      var last := s[|s| - 1];
      if last == c then prev + [""]
      else prev[..|prev| - 1] + [prev[|prev| - 1] + [last]]
  }

  lemma {:induction false} JoinAppendLast(parts: seq<string>, sep: string, x: char)
    requires |parts| >= 1
    ensures Join(parts[..|parts| - 1] + [parts[|parts| - 1] + [x]], sep) == Join(parts, sep) + [x]
  {
    var q := parts[..|parts| - 1] + [parts[|parts| - 1] + [x]];
    assert q[..|q| - 1] == parts[..|parts| - 1];
  }

  /** Splitting on `c` and joining with `c` gives back the original text. */
  lemma {:induction false} JoinSplitOn(s: string, c: char)
    ensures Join(SplitOn(s, c), [c]) == s
    decreases |s|
  {
    if s != [] {
      var init := s[..|s| - 1];
      var last := s[|s| - 1];
      var prev := SplitOn(init, c);
      JoinSplitOn(init, c);
      assert s == init + [last];
      if last == c {
        var q := prev + [""];
        assert SplitOn(s, c) == q;
        assert q[..|q| - 1] == prev;
        assert Join(q, [c]) == Join(prev, [c]) + [c] + "";
      } else {
        var q := prev[..|prev| - 1] + [prev[|prev| - 1] + [last]];
        assert SplitOn(s, c) == q;
        JoinAppendLast(prev, [c], last);
      }
    }
  }

  /** Text without the separator is a single piece. */
  lemma {:induction false} SplitOnNone(s: string, c: char)
    requires forall i :: 0 <= i < |s| ==> s[i] != c
    ensures SplitOn(s, c) == [s]
    decreases |s|
  {
    if s != [] {
      SplitOnNone(s[..|s| - 1], c);
      assert s[..|s| - 1] + [s[|s| - 1]] == s;
    }
  }

  /** Two separator-free pieces joined by the separator split back into them. */
  lemma {:induction false} SplitOnPair(a: string, b: string, c: char)
    requires forall i :: 0 <= i < |a| ==> a[i] != c
    requires forall i :: 0 <= i < |b| ==> b[i] != c
    ensures SplitOn(a + [c] + b, c) == [a, b]
    decreases |b|
  {
    var s := a + [c] + b;
    if b == [] {
      SplitOnNone(a, c);
      assert s[..|s| - 1] == a;
    } else {
      var init := b[..|b| - 1];
      SplitOnPair(a, init, c);
      assert s[..|s| - 1] == a + [c] + init;
      assert init + [b[|b| - 1]] == b;
    }
  }

  // ------------------------------------------------------------ Whitespace

  /** Python's `str.isspace()` for one character. */
  predicate IsSpace(c: char)
  {
    c == ' ' || ('\t' <= c <= '\r') || ('\U{1C}' <= c <= '\U{1F}') || c == '\U{85}' || c == '\U{A0}'
    || c == '\U{1680}' || ('\U{2000}' <= c <= '\U{200A}') || c == '\U{2028}' || c == '\U{2029}'
    || c == '\U{202F}' || c == '\U{205F}' || c == '\U{3000}'
  }

  function TrimStart(s: string): (r: string)
    ensures r == [] || !IsSpace(r[0])
    ensures exists k :: 0 <= k <= |s| && r == s[k..] && forall i :: 0 <= i < k ==> IsSpace(s[i])
  {
    if s != [] && IsSpace(s[0]) then
      var r := TrimStart(s[1..]);
      var k :| 0 <= k <= |s[1..]| && r == s[1..][k..] && forall i :: 0 <= i < k ==> IsSpace(s[1..][i]);
      assert r == s[k + 1..];
      r
    else
      assert s == s[0..];
      s
  }

  function TrimEnd(s: string): (r: string)
    ensures r == [] || !IsSpace(r[|r| - 1])
    ensures exists k :: 0 <= k <= |s| && r == s[..k] && forall i :: k <= i < |s| ==> IsSpace(s[i])
  {
    if s != [] && IsSpace(s[|s| - 1]) then
      var r := TrimEnd(s[..|s| - 1]);
      var k :| 0 <= k <= |s| - 1 && r == s[..|s| - 1][..k] && forall i :: k <= i < |s| - 1 ==> IsSpace(s[i]);
      assert r == s[..k];
      r
    else
      assert s == s[..|s|];
      s
  }

  /** `s.strip()`: the text without leading and trailing whitespace. */
  function Strip(s: string): string
  {
    TrimEnd(TrimStart(s))
  }

  /** Number of positions where a word starts: a non-space character that is
      first or follows a space. This is `len(s.split())`. */
  function WordCount(s: string): nat
  {
    if s == [] then 0
    else
      var n := |s|;
      WordCount(s[..n - 1]) + (if !IsSpace(s[n - 1]) && (n == 1 || IsSpace(s[n - 2])) then 1 else 0)
  }

  /** Appending whitespace adds no word. */
  lemma {:induction false} WordCountTrailingSpace(s: string, t: string)
    requires forall i :: 0 <= i < |t| ==> IsSpace(t[i])
    ensures WordCount(s + t) == WordCount(s)
    decreases |t|
  {
    if t != [] {
      var init := t[..|t| - 1];
      assert (s + t)[..|s + t| - 1] == s + init;
      WordCountTrailingSpace(s, init);
    } else {
      assert s + t == s;
    }
  }

  /** Prepending whitespace adds no word. */
  lemma {:induction false} WordCountLeadingSpace(t: string, s: string)
    requires forall i :: 0 <= i < |t| ==> IsSpace(t[i])
    ensures WordCount(t + s) == WordCount(s)
    decreases |s|
  {
    if s == [] {
      assert t + s == t;
      WordCountTrailingSpace([], t);
      assert [] + t == t;
    } else {
      var init := s[..|s| - 1];
      assert (t + s)[..|t + s| - 1] == t + init;
      WordCountLeadingSpace(t, init);
      if |s| == 1 && t != [] {
        assert (t + s)[|t + s| - 2] == t[|t| - 1];
      } else if |s| > 1 {
        assert (t + s)[|t + s| - 2] == s[|s| - 2];
      }
    }
  }

  lemma {:induction false} WordCountTrimStart(s: string)
    ensures WordCount(TrimStart(s)) == WordCount(s)
  {
    var a := TrimStart(s);
    var k :| 0 <= k <= |s| && a == s[k..] && forall i :: 0 <= i < k ==> IsSpace(s[i]);
    assert s == s[..k] + a;
    WordCountLeadingSpace(s[..k], a);
  }

  lemma {:induction false} WordCountTrimEnd(s: string)
    ensures WordCount(TrimEnd(s)) == WordCount(s)
  {
    var b := TrimEnd(s);
    var m :| 0 <= m <= |s| && b == s[..m] && forall i :: m <= i < |s| ==> IsSpace(s[i]);
    assert s == b + s[m..];
    WordCountTrailingSpace(b, s[m..]);
  }

  /** Stripping does not change the number of words. */
  lemma {:induction false} WordCountStrip(s: string)
    ensures WordCount(Strip(s)) == WordCount(s)
  {
    WordCountTrimStart(s);
    WordCountTrimEnd(TrimStart(s));
  }
}
