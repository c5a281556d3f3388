/**
 * The pieces of Rust's `str` API the text-based servers rely on: whitespace
 * classes, trimming, splitting on a character, joining, and decimal numbers.
 */
module Text {
  import opened Wrappers

  /** `char::is_whitespace`: the Unicode White_Space property. */
  predicate IsWhitespace(c: char)
  {
    var n := c as int;
    (0x09 <= n <= 0x0D) || n == 0x20 || n == 0x85 || n == 0xA0 || n == 0x1680
    || (0x2000 <= n <= 0x200A) || n == 0x2028 || n == 0x2029 || n == 0x202F
    || n == 0x205F || n == 0x3000
  }

  /** `u8::is_ascii_whitespace`: space, tab, line feed, form feed, carriage return. */
  predicate IsAsciiWhitespace(c: char)
  {
    c == ' ' || c == '\t' || c == '\n' || c == '\U{000C}' || c == '\r'
  }

  /** `char::is_alphanumeric`, restricted to ASCII letters and digits. */
  predicate IsAlphanumeric(c: char)
  {
    ('a' <= c <= 'z') || ('A' <= c <= 'Z') || ('0' <= c <= '9')
  }

  predicate AllAlphanumeric(s: string)
  {
    forall i :: 0 <= i < |s| ==> IsAlphanumeric(s[i])
  }

  /** The UTF-8 encoded length of a character: `str::len` counts bytes. */
  function Utf8Width(c: char): nat
  {
    if c as int < 0x80 then 1
    else if c as int < 0x800 then 2
    else if c as int < 0x1_0000 then 3
    else 4
  }

  /** `str::len` */
  function Utf8Len(s: string): (n: nat)
    ensures |s| <= n <= 4 * |s|
  {
    if s == [] then 0 else Utf8Len(s[..|s| - 1]) + Utf8Width(s[|s| - 1])
  }

  /** For ASCII text the byte length is the character count. */
  lemma {:induction false} AsciiUtf8Len(s: string)
    requires forall i :: 0 <= i < |s| ==> s[i] as int < 0x80
    ensures Utf8Len(s) == |s|
  {
    if s != [] {
      AsciiUtf8Len(s[..|s| - 1]);
    }
  }

  /** Removes the longest suffix whose characters all satisfy `p`. */
  function DropTrailing(s: string, p: char -> bool): (r: string)
    ensures r <= s
    ensures r == [] || !p(r[|r| - 1])
    ensures forall i :: |r| <= i < |s| ==> p(s[i])
  {
    if s != [] && p(s[|s| - 1]) then DropTrailing(s[..|s| - 1], p) else s
  }

  /** Removes the longest prefix whose characters all satisfy `p`. */
  function DropLeading(s: string, p: char -> bool): (r: string)
    ensures |r| <= |s| && r == s[|s| - |r|..]
    ensures r == [] || !p(r[0])
    ensures forall i :: 0 <= i < |s| - |r| ==> p(s[i])
  {
    if s != [] && p(s[0]) then DropLeading(s[1..], p) else s
  }

  /** `str::trim_end` */
  function TrimEnd(s: string): string
  {
    DropTrailing(s, IsWhitespace)
  }

  /** `str::trim` */
  function Trim(s: string): string
  {
    DropLeading(DropTrailing(s, IsWhitespace), IsWhitespace)
  }

  /** Text with no whitespace at either end is its own trim, even after a line ending is added. */
  lemma TrimOfTrimmed(s: string)
    requires s != [] && !IsWhitespace(s[0]) && !IsWhitespace(s[|s| - 1])
    ensures Trim(s) == s && Trim(s + "\n") == s
  {
    assert DropTrailing(s, IsWhitespace) == s;
    var t := s + "\n";
    assert t[..|t| - 1] == s && IsWhitespace(t[|t| - 1]);
    assert DropTrailing(t, IsWhitespace) == s;
    assert DropLeading(s, IsWhitespace) == s;
  }

  /** `str::trim_ascii_end` */
  function TrimAsciiEnd(s: string): string
  {
    DropTrailing(s, IsAsciiWhitespace)
  }

  /** `str::trim_matches(c)` for a single character `c`. */
  function TrimMatches(s: string, c: char): string
  {
    DropLeading(DropTrailing(s, x => x == c), x => x == c)
  }

  /** Index of the first occurrence of `c` in `s`. */
  function FirstIndex(s: string, c: char): (i: nat)
    requires c in s
    ensures i < |s| && s[i] == c && c !in s[..i]
  {
    if s[0] == c then 0 else FirstIndex(s[1..], c) + 1
  }

  /** `words.join(sep)` */
  function Join(words: seq<string>, sep: string): string
  {
    if |words| == 0 then ""
    else if |words| == 1 then words[0]
    else words[0] + sep + Join(words[1..], sep)
  }

  /** `s.split(sep).collect()` for a single-character separator. */
  function Split(s: string, sep: char): (parts: seq<string>)
    ensures |parts| >= 1
    ensures forall i :: 0 <= i < |parts| ==> sep !in parts[i]
    ensures Join(parts, [sep]) == s
    decreases |s|
  {
    if sep !in s then [s]
    else
      var i := FirstIndex(s, sep);
      var rest := Split(s[i + 1..], sep);
      assert s == s[..i] + [sep] + s[i + 1..];
      [s[..i]] + rest
  }

  /** Splitting a join of separator-free words gives the words back. */
  lemma {:induction false} SplitJoin(words: seq<string>, sep: char)
    requires |words| >= 1
    requires forall i :: 0 <= i < |words| ==> sep !in words[i]
    ensures Split(Join(words, [sep]), sep) == words
  {
    if |words| > 1 {
      var s := Join(words, [sep]);
      assert s == words[0] + [sep] + Join(words[1..], [sep]);
      assert sep !in words[0];
      assert FirstIndex(s, sep) == |words[0]| by {
        FirstIndexAfter(words[0], sep, Join(words[1..], [sep]));
      }
      assert s[..|words[0]|] == words[0];
      assert s[|words[0]| + 1..] == Join(words[1..], [sep]);
      SplitJoin(words[1..], sep);
      assert words == [words[0]] + words[1..];
    }
  }

  lemma FirstIndexAfter(w: string, c: char, rest: string)
    requires c !in w
    ensures FirstIndex(w + [c] + rest, c) == |w|
    decreases |w|
  {
    if w != [] {
      assert (w + [c] + rest)[1..] == w[1..] + [c] + rest;
      FirstIndexAfter(w[1..], c, rest);
    }
  }

  /** `s.split_once(c)` when `c` occurs in `s`: the text before and after its first occurrence. */
  function SplitOnce(s: string, c: char): (r: (string, string))
    requires c in s
    ensures c !in r.0 && s == r.0 + [c] + r.1
  {
    var i := FirstIndex(s, c);
    assert s == s[..i] + [c] + s[i + 1..];
    (s[..i], s[i + 1..])
  }

  predicate IsDigit(c: char)
  {
    '0' <= c <= '9'
  }

  function DigitValue(c: char): (d: nat)
    requires IsDigit(c)
    ensures d < 10
  {
    c as int - '0' as int
  }

  function DigitChar(d: nat): (c: char)
    requires d < 10
    ensures IsDigit(c) && DigitValue(c) == d
  {
    ('0' as int + d) as char
  }

  /** The decimal rendering used by `format!("{}", n)`. */
  function NatToString(n: nat): (s: string)
    ensures |s| >= 1 && forall i :: 0 <= i < |s| ==> IsDigit(s[i])
    ensures s[0] == '0' <==> n == 0
  {
    if n < 10 then [DigitChar(n)]
    else
      var front := NatToString(n / 10);
      assert (front + [DigitChar(n % 10)])[0] == front[0];
      front + [DigitChar(n % 10)]
  }

  /** The value of a non-empty run of decimal digits. */
  function DigitsValue(s: string): nat
    requires forall i :: 0 <= i < |s| ==> IsDigit(s[i])
  {
    if s == [] then 0 else DigitsValue(s[..|s| - 1]) * 10 + DigitValue(s[|s| - 1])
  }

  const USIZE_MAX: nat := 0xFFFF_FFFF_FFFF_FFFF

  predicate AllDigits(s: string)
  {
    forall i :: 0 <= i < |s| ==> IsDigit(s[i])
  }

  /** The text `parse` reads digits from: all of it, less one leading '+'. */
  function Unsigned(s: string): (digits: string)
    ensures s == (if |s| > 0 && s[0] == '+' then "+" else "") + digits
  {
    if |s| > 0 && s[0] == '+' then s[1..] else s
  }

  /** `s.parse::<usize>()` on a 64-bit target: an optional `+`, then at least one digit, no overflow. */
  function ParseUsize(s: string): (r: Option<nat>)
    ensures r.Some? <==> |Unsigned(s)| > 0 && AllDigits(Unsigned(s)) && DigitsValue(Unsigned(s)) <= USIZE_MAX
    ensures r.Some? ==> r.value == DigitsValue(Unsigned(s)) && r.value <= USIZE_MAX
  {
    var digits := Unsigned(s);
    if |digits| == 0 || !AllDigits(digits) then None
    else if DigitsValue(digits) > USIZE_MAX then None
    else Some(DigitsValue(digits))
  }

  lemma {:induction false} DigitsOfNatToString(n: nat)
    ensures DigitsValue(NatToString(n)) == n
  {
    if n >= 10 {
      var s := NatToString(n);
      assert s[..|s| - 1] == NatToString(n / 10);
      DigitsOfNatToString(n / 10);
    }
  }

  /** Rendering a number in decimal and parsing it back gives the number. */
  lemma ParseNatToString(n: nat)
    requires n <= USIZE_MAX
    ensures ParseUsize(NatToString(n)) == Some(n)
  {
    DigitsOfNatToString(n);
  }

  /**
   * What `parse::<usize>` refuses: the empty text, a lone sign, any other
   * character than a digit after the first, and a number too large for 64
   * bits; a leading '+' is accepted.
   */
  lemma ParseUsizeEdges(n: nat, s: string)
    ensures ParseUsize("") == None && ParseUsize("+") == None
    ensures (exists i :: 0 < i < |s| && !IsDigit(s[i])) ==> ParseUsize(s) == None
    ensures n > USIZE_MAX ==> ParseUsize(NatToString(n)) == None
    ensures n <= USIZE_MAX ==> ParseUsize("+" + NatToString(n)) == Some(n)
  {
    DigitsOfNatToString(n);
    assert ("+" + NatToString(n))[1..] == NatToString(n);
    if i :| 0 < i < |s| && !IsDigit(s[i]) {
      var digits := Unsigned(s);
      var k := if s[0] == '+' then i - 1 else i;
      assert 0 <= k < |digits| && digits[k] == s[i];
    }
  }
}
