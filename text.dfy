/**
 * The pieces of Go's `strings`, `strconv` and `path/filepath` packages that the
 * modelled code relies on, over strings as sequences of characters.
 */
module Text {
  import opened Wrappers
  import opened GoInt
  import opened Seqs

  // ---------------------------------------------------------------- searching

  /** strings.Index for a one-character separator: the first position of `c`, or -1. */
  function IndexOf(s: string, c: char): (r: int)
    ensures -1 <= r < |s|
    ensures r == -1 <==> c !in s
    ensures r >= 0 ==> s[r] == c && c !in s[..r]
  {
    if |s| == 0 then -1
    else if s[0] == c then 0
    else
      var k := IndexOf(s[1..], c);
      assert s[1..][..if k < 0 then 0 else k] == s[1..if k < 0 then 1 else k + 1];
      if k == -1 then -1 else k + 1
  }

  /** Number of occurrences of `c` in `s`. */
  function Count(s: string, c: char): nat
  {
    if |s| == 0 then 0 else (if s[0] == c then 1 else 0) + Count(s[1..], c)
  }

  lemma {:induction false} CountAbsent(s: string, c: char)
    requires c !in s
    ensures Count(s, c) == 0
  {
    if |s| > 0 {
      assert c !in s[1..];
      CountAbsent(s[1..], c);
    }
  }

  lemma {:induction false} CountAppend(a: string, b: string, c: char)
    ensures Count(a + b, c) == Count(a, c) + Count(b, c)
  {
    if |a| == 0 {
      assert a + b == b;
    } else {
      assert (a + b)[1..] == a[1..] + b;
      CountAppend(a[1..], b, c);
    }
  }

  /** strings.Contains: `sub` occurs somewhere in `s`. */
  predicate Contains(s: string, sub: string)
  {
    exists i :: 0 <= i <= |s| - |sub| && OccursAt(s, sub, i)
  }

  predicate OccursAt(s: string, sub: string, i: int)
    requires 0 <= i <= |s| - |sub|
  {
    s[i..i + |sub|] == sub
  }

  /** strings.HasPrefix. */
  predicate HasPrefix(s: string, prefix: string)
  {
    |prefix| <= |s| && s[..|prefix|] == prefix
  }

  /** strings.TrimPrefix: `s` without `prefix` when it starts with it, else `s`. */
  function TrimPrefix(s: string, prefix: string): (r: string)
    ensures HasPrefix(s, prefix) ==> prefix + r == s
    ensures !HasPrefix(s, prefix) ==> r == s
  {
    if HasPrefix(s, prefix) then s[|prefix|..] else s
  }

  /** unicode.IsSpace: the ASCII and Latin-1 spaces and the other Unicode White_Space characters. */
  predicate IsSpace(ch: char)
  {
    var c := ch as int;
    c == 0x20 || 0x09 <= c <= 0x0D || c == 0x85 || c == 0xA0 || c == 0x1680 ||
    0x2000 <= c <= 0x200A || c == 0x2028 || c == 0x2029 || c == 0x202F || c == 0x205F || c == 0x3000
  }

  /** The leading white space removed: a suffix of `s` that does not start with a space. */
  function TrimLeft(s: string): (r: string)
    ensures |r| <= |s| && r == s[|s| - |r|..]
    ensures forall i :: 0 <= i < |s| - |r| ==> IsSpace(s[i])
    ensures |r| > 0 ==> !IsSpace(r[0])
  {
    if |s| > 0 && IsSpace(s[0]) then
      var r := TrimLeft(s[1..]);
      assert forall i :: 1 <= i < |s| - |r| ==> s[i] == s[1..][i - 1];
      r
    else s
  }

  /** The trailing white space removed: a prefix of `s` that does not end with a space. */
  function TrimRight(s: string): (r: string)
    ensures |r| <= |s| && r == s[..|r|]
    ensures forall i :: |r| <= i < |s| ==> IsSpace(s[i])
    ensures |r| > 0 ==> !IsSpace(r[|r| - 1])
  {
    if |s| > 0 && IsSpace(s[|s| - 1]) then
      var r := TrimRight(s[..|s| - 1]);
      assert forall i :: |r| <= i < |s| - 1 ==> s[i] == s[..|s| - 1][i];
      r
    else s
  }

  /** strings.TrimSpace: the leading and trailing white space removed. */
  function TrimSpace(s: string): string
  {
    TrimRight(TrimLeft(s))
  }

  /** A string trims to nothing exactly when it is all white space. */
  lemma TrimSpaceBlank(s: string)
    ensures TrimSpace(s) == "" <==> forall i :: 0 <= i < |s| ==> IsSpace(s[i])
  {
  }

  /** Trimming keeps what lies between the outer white space, so a string without any is kept. */
  lemma TrimSpaceKeeps(s: string)
    requires |s| > 0 && !IsSpace(s[0]) && !IsSpace(s[|s| - 1])
    ensures TrimSpace(s) == s
  {
  }

  // ------------------------------------------------------------ split and join

  /** strings.Split with a one-character separator. */
  function Split(s: string, c: char): (parts: seq<string>)
    ensures |parts| >= 1
    decreases |s|
  {
    var k := IndexOf(s, c);
    if k == -1 then [s] else [s[..k]] + Split(s[k + 1..], c)
  }

  /** strings.Join with a one-character separator. */
  function Join(parts: seq<string>, c: char): string
  {
    if |parts| == 0 then ""
    else if |parts| == 1 then parts[0]
    else parts[0] + [c] + Join(parts[1..], c)
  }

  /** Joining the pieces of a split gives back the original string. */
  lemma {:induction false} JoinSplit(s: string, c: char)
    ensures Join(Split(s, c), c) == s
    decreases |s|
  {
    var k := IndexOf(s, c);
    if k != -1 {
      var rest := Split(s[k + 1..], c);
      JoinSplit(s[k + 1..], c);
      assert Split(s, c) == [s[..k]] + rest;
      assert Join([s[..k]] + rest, c) == s[..k] + [c] + Join(rest, c) by {
        assert ([s[..k]] + rest)[1..] == rest;
      }
      assert s == s[..k] + [c] + s[k + 1..];
    }
  }

  /** The first piece of a split is a prefix of the string. */
  lemma SplitHead(s: string, c: char)
    ensures Split(s, c)[0] == s[..|Split(s, c)[0]|]
  {
  }

  /** No piece of a split contains the separator. */
  lemma {:induction false} SplitPiecesFree(s: string, c: char)
    ensures forall i :: 0 <= i < |Split(s, c)| ==> c !in Split(s, c)[i]
    decreases |s|
  {
    var k := IndexOf(s, c);
    if k != -1 {
      SplitPiecesFree(s[k + 1..], c);
    }
  }

  /** A split has one more piece than there are separators. */
  lemma {:induction false} SplitCount(s: string, c: char)
    ensures |Split(s, c)| == Count(s, c) + 1
    decreases |s|
  {
    var k := IndexOf(s, c);
    if k == -1 {
      CountAbsent(s, c);
    } else {
      SplitCount(s[k + 1..], c);
      assert s == s[..k] + ([c] + s[k + 1..]);
      CountAppend(s[..k], [c] + s[k + 1..], c);
      CountAbsent(s[..k], c);
      CountAppend([c], s[k + 1..], c);
    }
  }

  /** A string without the separator splits into itself. */
  lemma SplitFree(s: string, c: char)
    requires c !in s
    ensures Split(s, c) == [s]
  {
  }

  /** Splitting `a + c + b`, where `a` has no separator, peels `a` off. */
  lemma SplitCons(a: string, b: string, c: char)
    requires c !in a
    ensures Split(a + [c] + b, c) == [a] + Split(b, c)
  {
    var s := a + [c] + b;
    IndexOfAfter(a, b, c);
    assert s[..|a|] == a && s[|a| + 1..] == b;
  }

  /** The first separator of `a + c + b` is the one after `a` when `a` has none. */
  lemma {:induction false} IndexOfAfter(a: string, b: string, c: char)
    requires c !in a
    ensures IndexOf(a + [c] + b, c) == |a|
  {
    if |a| > 0 {
      assert (a + [c] + b)[1..] == a[1..] + [c] + b;
      IndexOfAfter(a[1..], b, c);
    }
  }

  /** Appending the separator adds one empty piece at the end of the split. */
  lemma {:induction false} SplitSnoc(u: string, c: char)
    ensures Split(u + [c], c) == Split(u, c) + [""]
    decreases |u|
  {
    var k := IndexOf(u, c);
    if k == -1 {
      SplitSnocFree(u, c);
    } else {
      var rest := u[k + 1..];
      SplitSnocStep(u, c, k);
      SplitSnoc(rest, c);
      ConsSnocEq(u[..k], Split(rest, c), Split(rest + [c], c), Split(u, c), Split(u + [c], c), "");
    }
  }

  /** Both splits peel off the same first piece. */
  lemma SplitSnocStep(u: string, c: char, k: int)
    requires k == IndexOf(u, c) && k != -1
    ensures Split(u, c) == [u[..k]] + Split(u[k + 1..], c)
    ensures Split(u + [c], c) == [u[..k]] + Split(u[k + 1..] + [c], c)
  {
    var v := u + [c];
    assert v[..k] == u[..k];
    assert v[k + 1..] == u[k + 1..] + [c];
    SplitConsAt(v, k, c);
  }

  /** A split peels off the text before the first separator, wherever it is. */
  lemma SplitConsAt(s: string, k: int, c: char)
    requires 0 <= k < |s| && s[k] == c && c !in s[..k]
    ensures Split(s, c) == [s[..k]] + Split(s[k + 1..], c)
  {
    assert s[k] in s;
  }

  lemma SplitSnocFree(u: string, c: char)
    requires c !in u
    ensures Split(u + [c], c) == Split(u, c) + [""]
  {
    SplitCons(u, "", c);
    assert u + [c] + "" == u + [c];
    SplitFree(u, c);
    SplitFree("", c);
  }

  // ------------------------------------------------------------------ decimals

  predicate IsDigit(ch: char) { '0' <= ch <= '9' }

  /** A non-empty string of ASCII decimal digits. */
  predicate IsDigits(s: string)
  {
    |s| > 0 && forall i :: 0 <= i < |s| ==> IsDigit(s[i])
  }

  function DigitChar(d: int): (ch: char)
    requires 0 <= d < 10
    ensures IsDigit(ch) && ch as int - '0' as int == d
  {
    (d + '0' as int) as char
  }

  /** The value of a string of decimal digits (leading zeros allowed). */
  function DigitsValue(s: string): nat
    requires forall i :: 0 <= i < |s| ==> IsDigit(s[i])
  {
    if |s| == 0 then 0
    else
      var last := s[|s| - 1];
      assert IsDigit(last);
      DigitsValue(s[..|s| - 1]) * 10 + (last as int - '0' as int)
  }

  /** `%d` of a non-negative integer: its shortest decimal representation. */
  function NatToString(n: nat): (s: string)
    ensures IsDigits(s)
    ensures n > 0 ==> s[0] != '0'
  {
    if n < 10 then [DigitChar(n)] else NatToString(n / 10) + [DigitChar(n % 10)]
  }

  /** `%d` of any integer: a minus sign before the digits of a negative number. */
  function IntToString(i: int): string
  {
    if i < 0 then "-" + NatToString(-i) else NatToString(i)
  }

  /** Printing a number in decimal and reading the digits back gives the number. */
  lemma {:induction false} DigitsRoundTrip(n: nat)
    ensures DigitsValue(NatToString(n)) == n
  {
    if n >= 10 {
      DigitsRoundTrip(n / 10);
      var s := NatToString(n);
      assert s[..|s| - 1] == NatToString(n / 10);
    }
  }

  /** Digits contain no separator character used by the modelled formats. */
  lemma DigitsHaveNo(s: string, c: char)
    requires IsDigits(s) && !IsDigit(c)
    ensures c !in s
  {
  }

  /** Length of the run of decimal digits at the start of `s`. */
  function DigitRun(s: string): (n: nat)
    ensures n <= |s|
    ensures forall i :: 0 <= i < n ==> IsDigit(s[i])
    ensures n < |s| ==> !IsDigit(s[n])
  {
    if |s| == 0 || !IsDigit(s[0]) then 0 else 1 + DigitRun(s[1..])
  }

  /** Outcome of strconv.ParseInt(s, 10, 64). */
  datatype IntParse = Parsed(value: int) | SyntaxError | RangeError(clamped: int)

  /**
   * strconv.ParseInt in base 10 with 64-bit size: an optional sign and at least
   * one digit; out-of-range values are reported with the saturated value.
   * ParseUint reads the digits left to right and stops with a range error at the
   * first digit that takes the value past 2^64-1, before it looks at anything
   * after it; so a digit run that large is a range error whatever follows it.
   */
  function ParseInt64(s: string): (r: IntParse)
    ensures r.Parsed? ==> IsInt64(r.value)
    ensures r.RangeError? ==> r.clamped == MaxInt64 || r.clamped == MinInt64
  {
    if |s| == 0 then SyntaxError
    else
      var neg := s[0] == '-';
      ParseSigned(neg, if s[0] == '+' || neg then s[1..] else s)
  }

  /** ParseInt64 after the sign: `body` holds the digits, `neg` tells whether a '-' preceded them. */
  function ParseSigned(neg: bool, body: string): (r: IntParse)
    ensures r.Parsed? ==> IsInt64(r.value)
    ensures r.RangeError? ==> r.clamped == MaxInt64 || r.clamped == MinInt64
  {
    var run := body[..DigitRun(body)];
    if DigitsValue(run) > MaxUint64 then RangeError(if neg then MinInt64 else MaxInt64)
    else if !IsDigits(body) then SyntaxError
    else
      var v := if neg then -(DigitsValue(body) as int) else DigitsValue(body);
      if v > MaxInt64 then RangeError(MaxInt64)
      else if v < MinInt64 then RangeError(MinInt64)
      else Parsed(v)
  }

  /** A longer run of digits is worth at least as much as its prefix. */
  lemma {:induction false} DigitsValuePrefix(s: string, k: nat)
    requires k <= |s| && forall i :: 0 <= i < |s| ==> IsDigit(s[i])
    ensures DigitsValue(s[..k]) <= DigitsValue(s)
  {
    if k < |s| {
      assert s[..|s| - 1][..k] == s[..k];
      DigitsValuePrefix(s[..|s| - 1], k);
    } else {
      assert s[..k] == s;
    }
  }

  /** The digit run of `d + rest` starts with all of `d`. */
  lemma {:induction false} DigitRunCovers(d: string, rest: string)
    requires forall i :: 0 <= i < |d| ==> IsDigit(d[i])
    ensures |d| <= DigitRun(d + rest)
  {
    if |d| > 0 {
      assert (d + rest)[1..] == d[1..] + rest;
      DigitRunCovers(d[1..], rest);
    }
  }

  /**
   * Digits worth more than 2^64-1 make ParseInt a range error saturated to the
   * sign's bound, whatever text follows them.
   */
  lemma ParseIntOverflow(sign: string, d: string, rest: string)
    requires sign == "" || sign == "+" || sign == "-"
    requires IsDigits(d) && DigitsValue(d) > MaxUint64
    ensures ParseInt64(sign + d + rest) == RangeError(if sign == "-" then MinInt64 else MaxInt64)
  {
    assert sign + d + rest == sign + (d + rest);
    assert (d + rest)[0] == d[0];
    ParseIntSign(sign, d + rest);
    RunOverflows(d, rest);
  }

  /** ParseInt64 strips the sign and hands the rest to ParseSigned. */
  lemma ParseIntSign(sign: string, body: string)
    requires sign == "" || sign == "+" || sign == "-"
    requires |body| > 0 && IsDigit(body[0])
    ensures ParseInt64(sign + body) == ParseSigned(sign == "-", body)
  {
    var s := sign + body;
    if sign == "" {
      assert s == body;
    } else {
      assert s[0] == sign[0] && s[1..] == body;
    }
  }

  lemma RunOverflows(d: string, rest: string)
    requires IsDigits(d) && DigitsValue(d) > MaxUint64
    ensures DigitsValue((d + rest)[..DigitRun(d + rest)]) > MaxUint64
  {
    var body := d + rest;
    DigitRunCovers(d, rest);
    var run := body[..DigitRun(body)];
    DigitsValuePrefix(run, |d|);
    assert run[..|d|] == d;
  }

  /** The digit run of a digit string is all of it. */
  lemma DigitRunAll(s: string)
    requires IsDigits(s)
    ensures s[..DigitRun(s)] == s
  {
    assert DigitRun(s) == |s|;
  }

  /** ParseInt64 reads back every int64 printed with `%d`. */
  lemma ParseIntToString(i: int)
    requires IsInt64(i)
    ensures ParseInt64(IntToString(i)) == Parsed(i)
  {
    if i < 0 {
      ParseNegative(-i);
    } else {
      ParseNonNegative(i);
    }
  }

  lemma ParseNonNegative(n: nat)
    requires n <= MaxInt64
    ensures ParseInt64(NatToString(n)) == Parsed(n)
  {
    var s := NatToString(n);
    DigitsRoundTrip(n);
    DigitRunAll(s);
    assert IsDigit(s[0]);
  }

  lemma ParseNegative(n: nat)
    requires 0 < n && MinInt64 <= -(n as int)
    ensures ParseInt64("-" + NatToString(n)) == Parsed(-(n as int))
  {
    var d := NatToString(n);
    var s := "-" + d;
    DigitsRoundTrip(n);
    DigitRunAll(d);
    assert s[0] == '-' && s[1..] == d;
  }

  // ------------------------------------------------------------------ quoting

  function HexDigit(d: int): (ch: char)
    requires 0 <= d < 16
  {
    if d < 10 then (d + '0' as int) as char else (d - 10 + 'a' as int) as char
  }

  predicate IsHexDigit(ch: char) { '0' <= ch <= '9' || 'a' <= ch <= 'f' }

  function HexValue(ch: char): (d: int)
    requires IsHexDigit(ch)
    ensures 0 <= d < 16
  {
    if ch <= '9' then ch as int - '0' as int else ch as int - 'a' as int + 10
  }

  /** The letter of the C escape for the control characters 7 to 13 (`\a` ... `\r`). */
  function CEscape(n: int): (e: char)
    requires 7 <= n <= 13
  {
    if n == 7 then 'a' else if n == 8 then 'b' else if n == 9 then 't' else if n == 10 then 'n'
    else if n == 11 then 'v' else if n == 12 then 'f' else 'r'
  }

  /** The control character a C escape letter stands for, or -1. */
  function CUnescape(e: char): (n: int)
    ensures n == -1 || 7 <= n <= 13
  {
    if e == 'a' then 7 else if e == 'b' then 8 else if e == 't' then 9 else if e == 'n' then 10
    else if e == 'v' then 11 else if e == 'f' then 12 else if e == 'r' then 13 else -1
  }

  /**
   * One character as strconv.Quote writes it: `"` and `\` behind a backslash,
   * printable ASCII as it is, the C escapes for the control characters 7 to 13,
   * `\xHH` in lower-case hex for the other control characters and DEL, and any
   * other character as it is.
   */
  function EscapeChar(c: char): string
  {
    var n := c as int;
    if c == '\"' || c == '\\' then ['\\', c]
    else if 32 <= n < 127 || n > 127 then [c]
    else if 7 <= n <= 13 then ['\\', CEscape(n)]
    else ['\\', 'x', HexDigit(n / 16), HexDigit(n % 16)]
  }

  /** Prepend a character to a decoded text, keeping a failure. */
  function Prepend(c: char, o: Option<string>): Option<string>
  {
    if o.None? then None else Some([c] + o.value)
  }

  /** Reads the escapes EscapeChar writes; any other backslash sequence is an error. */
  function Unescape(t: string): Option<string>
    decreases |t|
  {
    if |t| == 0 then Some("")
    else if t[0] != '\\' then Prepend(t[0], Unescape(t[1..]))
    else if |t| < 2 then None
    else
      var e := t[1];
      if e == '\"' || e == '\\' then Prepend(e, Unescape(t[2..]))
      else if CUnescape(e) != -1 then Prepend(CUnescape(e) as char, Unescape(t[2..]))
      else if e == 'x' && |t| >= 4 && IsHexDigit(t[2]) && IsHexDigit(t[3]) then
        Prepend((HexValue(t[2]) * 16 + HexValue(t[3])) as char, Unescape(t[4..]))
      else None
  }

  /** Reading an escaped character gives the character back, ahead of whatever follows. */
  lemma UnescapeChar(c: char, rest: string)
    ensures Unescape(EscapeChar(c) + rest) == Prepend(c, Unescape(rest))
  {
    var n := c as int;
    if c == '\"' || c == '\\' {
      UnescapePair(c, c, rest);
    } else if 32 <= n < 127 || n > 127 {
      assert ([c] + rest)[1..] == rest;
    } else if 7 <= n <= 13 {
      UnescapePair(CEscape(n), c, rest);
    } else {
      HexDigits(n);
      UnescapeHex(HexDigit(n / 16), HexDigit(n % 16), c, rest);
    }
  }

  lemma UnescapePair(e: char, c: char, rest: string)
    requires e == c == '\"' || e == c == '\\' || (CUnescape(e) != -1 && c as int == CUnescape(e))
    ensures Unescape(['\\', e] + rest) == Prepend(c, Unescape(rest))
  {
    assert (['\\', e] + rest)[2..] == rest;
  }

  /** `\xHH` for a character below 128: the digits read back as the character. */
  lemma HexDigits(n: int)
    requires 0 <= n < 128
    ensures IsHexDigit(HexDigit(n / 16)) && IsHexDigit(HexDigit(n % 16))
    ensures HexValue(HexDigit(n / 16)) * 16 + HexValue(HexDigit(n % 16)) == n
  {
  }

  lemma UnescapeHex(h: char, l: char, c: char, rest: string)
    requires IsHexDigit(h) && IsHexDigit(l) && HexValue(h) * 16 + HexValue(l) == c as int
    ensures Unescape(['\\', 'x', h, l] + rest) == Prepend(c, Unescape(rest))
  {
    var t := ['\\', 'x', h, l] + rest;
    assert t[4..] == rest;
    assert CUnescape(t[1]) == -1;
  }

  /** The characters of strconv.Quote's output between the quotes. */
  function QuoteBody(s: string): string
  {
    if |s| == 0 then "" else EscapeChar(s[0]) + QuoteBody(s[1..])
  }

  /** Unescape undoes QuoteBody. */
  lemma {:induction false} QuoteBodyReadBack(s: string)
    ensures Unescape(QuoteBody(s)) == Some(s)
  {
    if |s| > 0 {
      QuoteBodyReadBack(s[1..]);
      UnescapeChar(s[0], QuoteBody(s[1..]));
      assert [s[0]] + s[1..] == s;
    }
  }

  /** strconv.Quote (the `%q` verb of fmt on a string). */
  function Quote(s: string): (r: string)
    ensures |r| >= 2 && r[0] == '\"' && r[|r| - 1] == '\"'
  {
    "\"" + QuoteBody(s) + "\""
  }

  /** What Quote writes between the quotes reads back as the original text. */
  lemma QuoteReadBack(s: string)
    ensures var r := Quote(s); Unescape(r[1..|r| - 1]) == Some(s)
  {
    var r := Quote(s);
    assert r[1..|r| - 1] == QuoteBody(s);
    QuoteBodyReadBack(s);
  }

  /** Characters that Quote writes as they are. */
  predicate Plain(c: char)
  {
    c != '\"' && c != '\\' && (32 <= c as int < 127 || c as int > 127)
  }

  /** A text of plain characters is quoted by putting it between double quotes. */
  lemma {:induction false} QuotePlain(s: string)
    requires forall i :: 0 <= i < |s| ==> Plain(s[i])
    ensures Quote(s) == "\"" + s + "\""
  {
    QuoteBodyPlain(s);
  }

  lemma {:induction false} QuoteBodyPlain(s: string)
    requires forall i :: 0 <= i < |s| ==> Plain(s[i])
    ensures QuoteBody(s) == s
  {
    if |s| > 0 {
      QuoteBodyPlain(s[1..]);
      assert [s[0]] + s[1..] == s;
    }
  }

  /** A double quote at the end of a plain text is written escaped. */
  lemma QuoteTrailingQuote(p: string)
    requires forall i :: 0 <= i < |p| ==> Plain(p[i])
    ensures Quote(p + "\"") == "\"" + p + "\\\"\""
  {
    QuoteBodyAppend(p, "\"");
    QuoteBodyPlain(p);
    QuoteBodyQuote();
    assert Quote(p + "\"") == "\"" + (p + "\\\"") + "\"";
    assert "\"" + (p + "\\\"") + "\"" == "\"" + p + ("\\\"" + "\"");
  }

  lemma QuoteBodyQuote()
    ensures QuoteBody("\"") == "\\\""
  {
    var s := "\"";
    assert s[1..] == "";
    assert QuoteBody(s) == EscapeChar('\"') + QuoteBody("");
  }

  /** Quoting works character by character. */
  lemma {:induction false} QuoteBodyAppend(a: string, b: string)
    ensures QuoteBody(a + b) == QuoteBody(a) + QuoteBody(b)
  {
    if |a| > 0 {
      assert (a + b)[1..] == a[1..] + b;
      QuoteBodyAppend(a[1..], b);
    } else {
      assert a + b == b;
    }
  }

  // ------------------------------------------------------------- case folding

  function LowerChar(ch: char): char
  {
    if 'A' <= ch <= 'Z' then (ch as int - 'A' as int + 'a' as int) as char else ch
  }

  /** strings.ToLower restricted to ASCII letters. */
  function ToLower(s: string): (r: string)
    ensures |r| == |s|
    ensures forall i :: 0 <= i < |s| ==> r[i] == LowerChar(s[i])
  {
    if |s| == 0 then "" else [LowerChar(s[0])] + ToLower(s[1..])
  }

  // ---------------------------------------------------------------- file paths

  /** filepath.Join of a directory and a file name (without its path cleaning). */
  function PathJoin(dir: string, name: string): string
  {
    if dir == "" then name else dir + "/" + name
  }

  /** Appending a suffix to the joined name is appending it to the path. */
  lemma PathJoinSuffix(dir: string, name: string, suffix: string)
    ensures PathJoin(dir, name + suffix) == PathJoin(dir, name) + suffix
  {
  }
}
