/**
 * The integer parameter rules of the toolkit: Python's `int()` applied to the
 * text of an entry field, the `"WxH"` resize syntax, and the coercion of the
 * smoothing kernel size.
 */
module Params {
  import opened Wrappers

  // ---------------------------------------------------------------------------
  // Python's int(text), base 10

  /**
   * The ASCII whitespace that `int()` skips around its digits: space, tab,
   * line feed, vertical tab, form feed and carriage return. The separators
   * 28..31 count as `str.isspace` but are not skipped by `int()`.
   */
  predicate IsSpace(c: char) {
    var n := c as int;
    n == 32 || 9 <= n <= 13
  }

  predicate IsDigit(c: char) {
    '0' <= c <= '9'
  }

  function DigitValue(c: char): (d: nat)
    ensures IsDigit(c) ==> d <= 9
  {
    if IsDigit(c) then (c as int) - ('0' as int) else 0
  }

  /** Drops the leading whitespace. */
  function TrimStart(s: string): (r: string)
    ensures |r| <= |s| && r == s[|s| - |r|..]
    ensures r == [] || !IsSpace(r[0])
    ensures forall i :: 0 <= i < |s| - |r| ==> IsSpace(s[i])
    decreases |s|
  {
    if s != [] && IsSpace(s[0]) then TrimStart(s[1..]) else s
  }

  /** Drops the trailing whitespace. */
  function TrimEnd(s: string): (r: string)
    ensures |r| <= |s| && r == s[..|r|]
    ensures r == [] || !IsSpace(r[|r| - 1])
    ensures forall i :: |r| <= i < |s| ==> IsSpace(s[i])
    decreases |s|
  {
    if s != [] && IsSpace(s[|s| - 1]) then TrimEnd(s[..|s| - 1]) else s
  }

  /** `r` is the slice of `s` at offset `k`, and everything around it is whitespace. */
  predicate StrippedAt(s: string, r: string, k: int) {
    && 0 <= k <= |s| - |r|
    && r == s[k..k + |r|]
    && (forall i :: 0 <= i < k ==> IsSpace(s[i]))
    && (forall i :: k + |r| <= i < |s| ==> IsSpace(s[i]))
  }

  /**
   * The stripping `int()` does: the text without the whitespace around it.
   * The result is a slice `s[k..k+|r|]` with only whitespace outside it.
   */
  function Strip(s: string): (r: string)
    ensures |r| <= |s|
    ensures r == [] || (!IsSpace(r[0]) && !IsSpace(r[|r| - 1]))
    ensures exists k :: StrippedAt(s, r, k)
  {
    var t := TrimStart(s);
    var r := TrimEnd(t);
    SliceBetweenSpaces(s, t, r);
    r
  }

  /**
   * A suffix `t` of `s` after leading whitespace, and a prefix `r` of `t`
   * before trailing whitespace: `r` is the slice of `s` at `|s| - |t|`.
   */
  lemma SliceBetweenSpaces(s: string, t: string, r: string)
    requires |t| <= |s| && t == s[|s| - |t|..]
    requires forall i :: 0 <= i < |s| - |t| ==> IsSpace(s[i])
    requires |r| <= |t| && r == t[..|r|]
    requires forall i :: |r| <= i < |t| ==> IsSpace(t[i])
    ensures StrippedAt(s, r, |s| - |t|)
  {
    var k := |s| - |t|;
    assert r == s[k..k + |r|];
    forall i | k + |r| <= i < |s|
      ensures IsSpace(s[i])
    {
      assert s[i] == t[i - k];
    }
  }

  /**
   * The digit part that `int()` accepts: decimal digits, where a single
   * underscore may stand between two digits (`"1_000"`).
   */
  predicate IsDigitGroup(s: string) {
    && |s| > 0
    && IsDigit(s[0])
    && IsDigit(s[|s| - 1])
    && (forall i :: 0 <= i < |s| ==> IsDigit(s[i]) || s[i] == '_')
    && (forall i :: 0 <= i < |s| - 1 && s[i] == '_' ==> IsDigit(s[i + 1]))
  }

  /** The value of a digit group, underscores ignored. */
  function DigitsValue(s: string): nat
    decreases |s|
  {
    if s == [] then 0
    else if s[|s| - 1] == '_' then DigitsValue(s[..|s| - 1])
    else 10 * DigitsValue(s[..|s| - 1]) + DigitValue(s[|s| - 1])
  }

  /**
   * `int(text)`: surrounding whitespace, an optional sign, then a digit
   * group; anything else raises ValueError, modelled as None.
   */
  function ParseInt(text: string): (r: Option<int>)
    ensures r.Some? ==> var t := Strip(text);
      && |t| > 0
      && (IsDigit(t[0]) || t[0] == '+' || t[0] == '-')
      && IsDigit(t[|t| - 1])
      && (r.value < 0 ==> t[0] == '-')
    ensures var t := Strip(text);
      r.Some? <==> IsDigitGroup(t) || (|t| > 0 && (t[0] == '+' || t[0] == '-') && IsDigitGroup(t[1..]))
  {
    ParseSigned(Strip(text))
  }

  /** The part of `int()` after stripping: an optional sign, then a digit group. */
  function ParseSigned(t: string): (r: Option<int>)
    ensures r.Some? ==>
      && |t| > 0
      && (IsDigit(t[0]) || t[0] == '+' || t[0] == '-')
      && IsDigit(t[|t| - 1])
      && (r.value < 0 ==> t[0] == '-')
    ensures r.Some? <==> IsDigitGroup(t) || (|t| > 0 && (t[0] == '+' || t[0] == '-') && IsDigitGroup(t[1..]))
  {
    var signed := |t| > 0 && (t[0] == '+' || t[0] == '-');
    var body := if signed then t[1..] else t;
    var magnitude: int := DigitsValue(body);
    if IsDigitGroup(body) then
      Some(if signed && t[0] == '-' then -magnitude else magnitude)
    else
      None
  }

  // ---------------------------------------------------------------------------
  // Decimal rendering, the inverse of ParseInt

  function DigitChar(d: nat): (c: char)
    requires d <= 9
    ensures IsDigit(c) && DigitValue(c) == d
  {
    (('0' as int) + d) as char
  }

  /** The decimal digits of `n`, most significant first, without leading zeros. */
  function NatDigits(n: nat): (s: string)
    ensures |s| > 0
    decreases n
  {
    if n < 10 then [DigitChar(n)] else NatDigits(n / 10) + [DigitChar(n % 10)]
  }

  /** `str(n)` for an integer. */
  function IntToString(n: int): (s: string)
    ensures |s| > 0
  {
    if n < 0 then "-" + NatDigits(-n) else NatDigits(n)
  }

  lemma {:induction false} NatDigitsGroup(n: nat)
    ensures forall i :: 0 <= i < |NatDigits(n)| ==> IsDigit(NatDigits(n)[i])
    ensures IsDigitGroup(NatDigits(n))
    ensures DigitsValue(NatDigits(n)) == n
    decreases n
  {
    var s := NatDigits(n);
    if n >= 10 {
      NatDigitsGroup(n / 10);
      assert s[..|s| - 1] == NatDigits(n / 10);
    }
  }

  /** Text without surrounding whitespace is left alone by `strip()`. */
  lemma StripUnspaced(s: string)
    requires s != [] && !IsSpace(s[0]) && !IsSpace(s[|s| - 1])
    ensures Strip(s) == s
  {
    assert TrimStart(s) == s;
    assert TrimEnd(s) == s;
  }

  /** A bare digit group converts to its value. */
  lemma ParseIntDigits(d: string)
    requires IsDigitGroup(d)
    ensures ParseInt(d) == Some(DigitsValue(d) as int)
  {
    StripUnspaced(d);
    assert d[0] != '+' && d[0] != '-';
  }

  /** A minus sign followed by a digit group converts to the negated value. */
  lemma ParseIntNegative(d: string)
    requires IsDigitGroup(d)
    ensures ParseInt("-" + d) == Some(-(DigitsValue(d) as int))
  {
    var s := "-" + d;
    assert s[|s| - 1] == d[|d| - 1];
    StripUnspaced(s);
    assert s[1..] == d;
  }

  /** A plus sign followed by a digit group converts to the value. */
  lemma ParseIntPositive(d: string)
    requires IsDigitGroup(d)
    ensures ParseInt("+" + d) == Some(DigitsValue(d) as int)
  {
    var s := "+" + d;
    assert s[|s| - 1] == d[|d| - 1];
    StripUnspaced(s);
    assert s[1..] == d;
  }

  /** Whitespace around the entry does not matter: `int(" 128 ")` is `int("128")`. */
  lemma ParseIntStripped(s: string)
    ensures ParseInt(Strip(s)) == ParseInt(s)
  {
    StripIdempotent(s);
  }

  /** `int(str(n)) == n` for every integer. */
  lemma ParseIntRoundTrip(n: int)
    ensures ParseInt(IntToString(n)) == Some(n)
  {
    if n < 0 {
      NatDigitsGroup(-n);
      ParseIntNegative(NatDigits(-n));
    } else {
      NatDigitsGroup(n);
      ParseIntDigits(NatDigits(n));
    }
  }

  /** Text that, once stripped, starts with neither a sign nor a digit does not convert. */
  lemma ParseIntRejects(s: string)
    requires s != [] && !IsSpace(s[0]) && !IsSpace(s[|s| - 1])
    requires s[0] != '+' && s[0] != '-' && !IsDigit(s[0])
    ensures ParseInt(s) == None
  {
    StripUnspaced(s);
  }

  /** The default threshold entry converts. */
  lemma ParseIntDefault()
    ensures ParseInt("128") == Some(128)
  {
    var d := "128";
    assert IsDigitGroup(d) by {
      assert forall i :: 0 <= i < |d| ==> IsDigit(d[i]);
    }
    assert d[..2] == "12" && d[..2][..1] == "1" && d[..2][..1][..0] == "";
    assert DigitsValue("1") == 1;
    assert DigitsValue("12") == 12;
    assert DigitsValue(d) == 128;
    ParseIntDigits(d);
  }

  /** Stripping twice is stripping once. */
  lemma StripIdempotent(s: string)
    ensures Strip(Strip(s)) == Strip(s)
  {
    if Strip(s) != [] {
      StripUnspaced(Strip(s));
    }
  }

  /** An information separator (code 28) is not whitespace to `int()`, so `"\x1c5"` does not convert. */
  lemma ParseIntSeparatorRejected()
    ensures ParseInt([28 as char, '5']) == None
  {
    ParseIntRejects([28 as char, '5']);
  }

  /**
   * Text that, once stripped, holds a character other than a digit or an
   * underscore after its first position does not convert: `"12a"`, `"1.5"`.
   */
  lemma ParseIntRejectsInner(s: string, i: int)
    requires s != [] && !IsSpace(s[0]) && !IsSpace(s[|s| - 1])
    requires 0 < i < |s| && !IsDigit(s[i]) && s[i] != '_'
    ensures ParseInt(s) == None
  {
    StripUnspaced(s);
    assert !IsDigitGroup(s);
    if |s| > 1 {
      assert s[1..][i - 1] == s[i];
    }
  }

  /** Junk in the middle does not convert. */
  lemma ParseIntInnerLetter()
    ensures ParseInt("1a1") == None
  {
    ParseIntRejectsInner("1a1", 1);
  }

  /** Letters do not convert. */
  lemma ParseIntLetters()
    ensures ParseInt("abc") == None
  {
    ParseIntRejects("abc");
  }

  // ---------------------------------------------------------------------------
  // lower() and split('x')

  function LowerChar(c: char): (r: char)
    ensures 'A' <= c <= 'Z' ==> 'a' <= r <= 'z' && (r as int) - ('a' as int) == (c as int) - ('A' as int)
    ensures !('A' <= c <= 'Z') ==> r == c
  {
    if 'A' <= c <= 'Z' then ((c as int) - ('A' as int) + ('a' as int)) as char else c
  }

  /**
   * `str.lower()` on ASCII letters: each capital becomes its own small letter,
   * so no capital is left, and every other character is kept.
   */
  function Lower(s: string): (r: string)
    ensures |r| == |s|
    ensures forall i :: 0 <= i < |s| && 'A' <= s[i] <= 'Z' ==>
      'a' <= r[i] <= 'z' && (r[i] as int) - ('a' as int) == (s[i] as int) - ('A' as int)
    ensures forall i :: 0 <= i < |s| ==> !('A' <= r[i] <= 'Z')
    ensures forall i :: 0 <= i < |s| && !('A' <= s[i] <= 'Z') ==> r[i] == s[i]
  {
    seq(|s|, i requires 0 <= i < |s| => LowerChar(s[i]))
  }

  /** The number of occurrences of `c` in `s`. */
  function Count(s: string, c: char): nat
    decreases |s|
  {
    if s == [] then 0 else (if s[0] == c then 1 else 0) + Count(s[1..], c)
  }

  /** `s.split(sep)`: the pieces between the separators; never an empty list. */
  function Split(s: string, sep: char): (parts: seq<string>)
    ensures |parts| >= 1
    decreases |s|
  {
    if s == [] then [[]]
    else
      var rest := Split(s[1..], sep);
      if s[0] == sep then [[]] + rest else [[s[0]] + rest[0]] + rest[1..]
  }

  /** `sep.join(parts)`. */
  function Join(parts: seq<string>, sep: char): string
    decreases |parts|
  {
    if parts == [] then []
    else if |parts| == 1 then parts[0]
    else parts[0] + [sep] + Join(parts[1..], sep)
  }

  /** Splitting yields one more piece than there are separators. */
  lemma {:induction false} SplitCount(s: string, sep: char)
    ensures |Split(s, sep)| == Count(s, sep) + 1
    decreases |s|
  {
    if s != [] {
      SplitCount(s[1..], sep);
    }
  }

  /** No piece of a split holds the separator. */
  lemma {:induction false} SplitPiecesFree(s: string, sep: char)
    ensures forall k :: 0 <= k < |Split(s, sep)| ==> sep !in Split(s, sep)[k]
    decreases |s|
  {
    if s != [] {
      SplitPiecesFree(s[1..], sep);
    }
  }

  /** Joining the pieces of a split with the separator rebuilds the text. */
  lemma {:induction false} SplitJoin(s: string, sep: char)
    ensures Join(Split(s, sep), sep) == s
    decreases |s|
  {
    if s != [] {
      var rest := Split(s[1..], sep);
      SplitJoin(s[1..], sep);
      if s[0] == sep {
        assert Split(s, sep) == [[]] + rest;
        assert Join([[]] + rest, sep) == [] + [sep] + Join(rest, sep);
      } else {
        if |rest| == 1 {
          assert Join(Split(s, sep), sep) == [s[0]] + rest[0];
        } else {
          var parts := Split(s, sep);
          assert parts[1..] == rest[1..];
          assert Join(parts, sep) == [s[0]] + rest[0] + [sep] + Join(rest[1..], sep);
          assert Join(rest, sep) == rest[0] + [sep] + Join(rest[1..], sep);
        }
      }
    }
  }

  /** Text with no separator splits into itself alone. */
  lemma {:induction false} SplitFree(a: string, sep: char)
    requires sep !in a
    ensures Split(a, sep) == [a]
    decreases |a|
  {
    if a != [] {
      assert sep !in a[1..];
      SplitFree(a[1..], sep);
      assert [a[0]] + a[1..] == a;
    }
  }

  /** A separator-free prefix followed by a separator becomes the first piece. */
  lemma {:induction false} SplitAfter(a: string, sep: char, b: string)
    requires sep !in a
    ensures Split(a + [sep] + b, sep) == [a] + Split(b, sep)
    decreases |a|
  {
    if a == [] {
      assert a + [sep] + b == [sep] + b;
    } else {
      var s := a + [sep] + b;
      assert s[0] == a[0] && s[0] != sep;
      assert s[1..] == a[1..] + [sep] + b;
      assert sep !in a[1..];
      SplitAfter(a[1..], sep, b);
      var rest := Split(s[1..], sep);
      assert rest == [a[1..]] + Split(b, sep);
      assert Split(s, sep) == [[a[0]] + rest[0]] + rest[1..];
      assert [a[0]] + a[1..] == a;
    }
  }

  // ---------------------------------------------------------------------------
  // The resize syntax "WxH"

  datatype Size = Size(width: int, height: int)

  /**
   * `map(int, text.lower().split('x'))` unpacked into two names: it succeeds
   * only with exactly two pieces that both convert.
   */
  function ParseSize(text: string): (r: Option<Size>)
    ensures r.Some? ==> var parts := Split(Lower(text), 'x');
      && |parts| == 2
      && ParseInt(parts[0]) == Some(r.value.width)
      && ParseInt(parts[1]) == Some(r.value.height)
  {
    var parts := Split(Lower(text), 'x');
    if |parts| == 2 then
      match (ParseInt(parts[0]), ParseInt(parts[1]))
      case (Some(w), Some(h)) => Some(Size(w, h))
      case _ => None
    else
      None
  }

  /** The text the resize entry expects for a size, such as `"800x600"`. */
  function FormatSize(size: Size): string {
    IntToString(size.width) + "x" + IntToString(size.height)
  }

  /** Rendered integers hold no letters, so lowering leaves them alone. */
  lemma LowerIntToString(n: int)
    ensures Lower(IntToString(n)) == IntToString(n)
    ensures 'x' !in IntToString(n)
  {
    var s := IntToString(n);
    NatDigitsGroup(if n < 0 then -n else n);
    forall i | 0 <= i < |s|
      ensures s[i] == '-' || IsDigit(s[i])
    {
      if n < 0 && i > 0 {
        assert s[i] == NatDigits(-n)[i - 1];
      }
    }
  }

  /** Joining two lower-case texts with an `x` gives a lower-case text. */
  lemma LowerJoined(a: string, b: string)
    requires Lower(a) == a && Lower(b) == b
    ensures Lower(a + "x" + b) == a + "x" + b
  {
    var s := a + "x" + b;
    forall i | 0 <= i < |s|
      ensures LowerChar(s[i]) == s[i]
    {
      if i < |a| {
        assert s[i] == a[i] && Lower(a)[i] == LowerChar(a[i]);
      } else if i > |a| {
        assert s[i] == b[i - |a| - 1] && Lower(b)[i - |a| - 1] == LowerChar(b[i - |a| - 1]);
      }
    }
  }

  /** Exactly two pieces that both convert make a size. */
  lemma ParseSizeOfPieces(text: string, a: string, b: string, size: Size)
    ensures Split(Lower(text), 'x') == [a, b] && ParseInt(a) == Some(size.width) && ParseInt(b) == Some(size.height)
      ==> ParseSize(text) == Some(size)
  {
  }

  /** Two separator-free texts joined by the separator split back into the two. */
  lemma SplitJoined(a: string, b: string)
    requires 'x' !in a && 'x' !in b
    ensures Split(a + "x" + b, 'x') == [a, b]
  {
    assert a + "x" + b == a + ['x'] + b;
    SplitAfter(a, 'x', b);
    SplitFree(b, 'x');
  }

  /** Two separator-free, lower-case texts that both convert, joined by an `x`, make a size. */
  lemma ParseSizeJoined(a: string, b: string, size: Size)
    requires 'x' !in a && 'x' !in b && Lower(a) == a && Lower(b) == b
    ensures ParseInt(a) == Some(size.width) && ParseInt(b) == Some(size.height) ==> ParseSize(a + "x" + b) == Some(size)
  {
    LowerJoined(a, b);
    SplitJoined(a, b);
    ParseSizeOfPieces(a + "x" + b, a, b, size);
  }

  /** Every size written as `"WxH"` parses back to itself. */
  lemma ParseSizeRoundTrip(size: Size)
    ensures ParseSize(FormatSize(size)) == Some(size)
  {
    LowerIntToString(size.width);
    LowerIntToString(size.height);
    ParseIntRoundTrip(size.width);
    ParseIntRoundTrip(size.height);
    ParseSizeJoined(IntToString(size.width), IntToString(size.height), size);
  }

  /** Unless the lowered text holds exactly one `x`, the resize text is rejected. */
  lemma ParseSizeOneSeparator(text: string)
    requires Count(Lower(text), 'x') != 1
    ensures ParseSize(text) == None
  {
    SplitCount(Lower(text), 'x');
  }

  /** Lowering twice is lowering once. */
  lemma LowerIdempotent(s: string)
    ensures Lower(Lower(s)) == Lower(s)
  {
    assert forall i :: 0 <= i < |s| ==> Lower(Lower(s))[i] == Lower(s)[i];
  }

  /** The resize entry sees only the lowered text. */
  lemma ParseSizeIgnoresCase(text: string)
    ensures ParseSize(Lower(text)) == ParseSize(text)
  {
    LowerIdempotent(text);
  }

  /** A capital `X` separates like a small one: `"800X600"` means the same as `"800x600"`. */
  lemma ParseSizeCapitalSeparator(a: string, b: string)
    ensures ParseSize(a + "X" + b) == ParseSize(a + "x" + b)
  {
    var big, small := a + "X" + b, a + "x" + b;
    assert |big| == |small|;
    forall i | 0 <= i < |big|
      ensures Lower(big)[i] == Lower(small)[i]
    {
      if i != |a| {
        assert big[i] == small[i];
      }
    }
    assert Lower(big) == Lower(small);
  }

  // ---------------------------------------------------------------------------
  // The smoothing kernel

  /** `max(3, k)`, bumped to the next odd number when it is even. */
  function KernelSize(k: int): (size: int)
    ensures size >= 3 && size % 2 == 1
    ensures size >= k
  {
    var m := if k > 3 then k else 3;
    if m % 2 == 0 then m + 1 else m
  }

  /** The coerced size is the least odd size that is at least 3 and at least the request. */
  lemma KernelSizeLeast(k: int, m: int)
    requires m >= 3 && m >= k && m % 2 == 1
    ensures KernelSize(k) <= m
  {
  }

  /** The Gaussian radius `kernel_size // 3` derived from a requested kernel size. */
  function SmoothingRadius(k: int): (radius: int)
    ensures radius >= 1
    ensures 3 * radius <= KernelSize(k) < 3 * radius + 3
  {
    KernelSize(k) / 3
  }
}
