/** The JavaScript built-ins the handlers and jobs rely on: String.prototype.trim and
    toUpperCase, parseInt, the cast to Number, truthiness of request values, and
    Array.prototype.filter and findIndex. */
module Js {
  import opened Api

  // ---------------------------------------------------------------- strings

  /** The characters String.prototype.trim strips: white space and line terminators. */
  predicate IsWhitespace(c: char) {
    || c == ' ' || c == '\t' || c == '\n' || c == '\r' || c == '\U{000B}' || c == '\U{000C}'
    || c == '\U{00A0}' || c == '\U{1680}' || ('\U{2000}' <= c <= '\U{200A}')
    || c == '\U{2028}' || c == '\U{2029}' || c == '\U{202F}' || c == '\U{205F}'
    || c == '\U{3000}' || c == '\U{FEFF}'
  }

  /** `s.trim() === ''` */
  predicate IsBlank(s: string) {
    forall i :: 0 <= i < |s| ==> IsWhitespace(s[i])
  }

  /** String.prototype.trimStart */
  function TrimStart(s: string): (r: string)
    ensures r == [] || !IsWhitespace(r[0])
    ensures r == [] <==> IsBlank(s)
  {
    if s != [] && IsWhitespace(s[0]) then TrimStart(s[1..]) else s
  }

  /** String.prototype.trimEnd */
  function TrimEnd(s: string): (r: string)
    ensures r == [] || !IsWhitespace(r[|r| - 1])
    ensures r == [] <==> IsBlank(s)
    ensures |r| <= |s| && r == s[..|r|]
  {
    if s != [] && IsWhitespace(s[|s| - 1]) then
      var r := TrimEnd(s[..|s| - 1]);
      assert s[..|s| - 1][..|r|] == s[..|r|];
      r
    else s
  }

  /** What trimEnd removes is white space. */
  lemma {:induction false} TrimEndRemovesBlank(s: string)
    ensures IsBlank(s[|TrimEnd(s)|..])
  {
    if s != [] && IsWhitespace(s[|s| - 1]) {
      var init := s[..|s| - 1];
      TrimEndRemovesBlank(init);
      assert s[|TrimEnd(s)|..] == init[|TrimEnd(init)|..] + [s[|s| - 1]];
    }
  }

  /** String.prototype.trim: the empty string exactly for a string of white space alone. */
  function Trim(s: string): (r: string)
    ensures r == "" <==> IsBlank(s)
    ensures r != "" ==> !IsWhitespace(r[0]) && !IsWhitespace(r[|r| - 1])
  {
    TrimEnd(TrimStart(s))
  }

  function ToUpperChar(c: char): char {
    if 'a' <= c <= 'z' then (c as int - 32) as char else c
  }

  /** String.prototype.toUpperCase on the ASCII letters. */
  function ToUpperCase(s: string): (r: string)
    ensures |r| == |s|
    ensures forall i :: 0 <= i < |s| ==> r[i] == ToUpperChar(s[i])
  {
    seq(|s|, i requires 0 <= i < |s| => ToUpperChar(s[i]))
  }

  /** Upper-casing twice is upper-casing once. */
  lemma UpperCaseIdempotent(s: string)
    ensures ToUpperCase(ToUpperCase(s)) == ToUpperCase(s)
  {
  }

  // ---------------------------------------------------------------- decimal digits

  predicate IsDigit(c: char) {
    '0' <= c <= '9'
  }

  predicate AllDigits(s: string) {
    forall i :: 0 <= i < |s| ==> IsDigit(s[i])
  }

  function DigitValue(c: char): nat
    requires IsDigit(c)
  {
    c as int - '0' as int
  }

  function DigitChar(d: nat): char
    requires d < 10
  {
    ('0' as int + d) as char
  }

  function Pow10(k: nat): nat {
    if k == 0 then 1 else 10 * Pow10(k - 1)
  }

  /** The number a string of decimal digits denotes (most significant digit first). */
  function DigitsValue(s: string): (n: nat)
    requires AllDigits(s)
    ensures n < Pow10(|s|)
  {
    if s == [] then 0 else DigitsValue(s[..|s| - 1]) * 10 + DigitValue(s[|s| - 1])
  }

  /** `n` written with exactly `width` digits, padded with leading zeros. */
  function PadDigits(n: nat, width: nat): (s: string)
    requires n < Pow10(width)
    ensures |s| == width && AllDigits(s)
    ensures DigitsValue(s) == n
  {
    if width == 0 then ""
    else
      assert n / 10 < Pow10(width - 1);
      var init := PadDigits(n / 10, width - 1);
      var last := DigitChar(n % 10);
      assert IsDigit(last) && DigitValue(last) == n % 10;
      var s := init + [last];
      assert s[..|s| - 1] == init && s[|s| - 1] == last;
      assert DigitsValue(s) == DigitsValue(init) * 10 + n % 10;
      s
  }

  /** Padding the value of a digit string back to its own width gives the string again. */
  lemma {:induction false} PadDigitsOfValue(s: string)
    requires AllDigits(s)
    ensures PadDigits(DigitsValue(s), |s|) == s
  {
    if s != [] {
      var init, last := s[..|s| - 1], s[|s| - 1];
      var n := DigitsValue(s);
      SplitLastDigit(DigitsValue(init), DigitValue(last));
      assert n / 10 == DigitsValue(init) && n % 10 == DigitValue(last);
      DigitCharOfValue(last);
      PadDigitsOfValue(init);
      assert s == init + [last];
    }
  }

  /** A digit's value written back as a digit is the digit. */
  lemma DigitCharOfValue(c: char)
    requires IsDigit(c)
    ensures DigitChar(DigitValue(c)) == c
  {
  }

  /** The last decimal digit of a number and the number without it. */
  lemma SplitLastDigit(q: nat, d: nat)
    requires d < 10
    ensures (q * 10 + d) / 10 == q && (q * 10 + d) % 10 == d
  {
  }

  // ---------------------------------------------------------------- digits of a radix

  /** The digit `c` stands for in a radix up to 36 (0-9, then a-z or A-Z for 10-35),
      or 36 when it is no digit at all. */
  function DigitIn(c: char): (d: nat)
    ensures d <= 36
    ensures d < 10 <==> IsDigit(c)
    ensures IsDigit(c) ==> d == DigitValue(c)
  {
    if IsDigit(c) then DigitValue(c)
    else if 'a' <= c <= 'z' then c as int - 'a' as int + 10
    else if 'A' <= c <= 'Z' then c as int - 'A' as int + 10
    else 36
  }

  predicate AllRadixDigits(radix: nat, s: string) {
    forall i :: 0 <= i < |s| ==> DigitIn(s[i]) < radix
  }

  /** The number a string of digits of `radix` denotes (most significant digit first). */
  function RadixValue(radix: nat, s: string): (n: nat)
    requires AllRadixDigits(radix, s)
  {
    if s == [] then 0 else RadixValue(radix, s[..|s| - 1]) * radix + DigitIn(s[|s| - 1])
  }

  /** In base 10 the general reading agrees with the decimal one. */
  lemma {:induction false} DecimalRadixValue(s: string)
    requires AllDigits(s)
    ensures AllRadixDigits(10, s) && RadixValue(10, s) == DigitsValue(s)
  {
    if s != [] {
      DecimalRadixValue(s[..|s| - 1]);
    }
  }

  /** Length of the longest run of digits of `radix` at the start of `s`. */
  function RadixRun(radix: nat, s: string): (k: nat)
    ensures k <= |s| && AllRadixDigits(radix, s[..k])
    ensures k < |s| ==> DigitIn(s[k]) >= radix
  {
    if s == [] || DigitIn(s[0]) >= radix then 0
    else
      var k := 1 + RadixRun(radix, s[1..]);
      assert s[..k] == [s[0]] + s[1..][..k - 1];
      k
  }

  // ---------------------------------------------------------------- parseInt and Number

  /** The sign a numeral starts with, and the numeral without it. */
  function SplitSign(s: string): (int, string) {
    if |s| > 0 && s[0] == '-' then (-1, s[1..])
    else if |s| > 0 && s[0] == '+' then (1, s[1..])
    else (1, s)
  }

  /** `0x` or `0X`, the prefix that makes parseInt (given no radix) and Number read base 16. */
  predicate HasHexPrefix(s: string) {
    |s| >= 2 && s[0] == '0' && (s[1] == 'x' || s[1] == 'X')
  }

  /** parseInt(s) with no radix: leading white space is skipped, then an optional sign,
      then a `0x` prefix selects base 16 (base 10 otherwise), and the longest run of
      digits of that base is read; None stands for NaN (no digit at all). */
  function ParseInt(s: string): (r: Option<int>)
    ensures IsBlank(s) ==> r.None?
  {
    ReadInt(TrimStart(s))
  }

  /** What parseInt reads once the leading white space is gone. */
  function ReadInt(u: string): Option<int> {
    var (sign, body) := SplitSign(u);
    var (radix, digits) := if HasHexPrefix(body) then (16, body[2..]) else (10, body);
    var k := RadixRun(radix, digits);
    if k == 0 then None else Some(sign * RadixValue(radix, digits[..k]))
  }

  /** Number(s), the cast Mongoose applies to a string bound for a Number path, for the
      spellings that give an integer: white space around either an optional sign and
      decimal digits or a `0x` literal, or white space alone (which is 0). None stands
      for a string the cast rejects, and also for the empty string, which Mongoose turns
      into null rather than a number. */
  function NumberCast(s: string): (r: Option<int>)
    ensures s == "" ==> r.None?
    ensures s != "" && IsBlank(s) ==> r == Some(0)
    ensures s != "" && AllDigits(s) ==> r == Some(DigitsValue(s))
    ensures HasHexPrefix(s) && |s| > 2 && AllRadixDigits(16, s[2..]) ==> r == Some(RadixValue(16, s[2..]))
  {
    if s == "" then None
    else
      PlainNumeralIsTrimmed(s);
      ReadNumber(Trim(s))
  }

  /** A numeral of digits alone, or a `0x` literal, has no white space to trim. */
  lemma PlainNumeralIsTrimmed(s: string)
    requires s != ""
    ensures AllDigits(s) || (HasHexPrefix(s) && AllRadixDigits(16, s[2..])) ==> Trim(s) == s
  {
  }

  /** What Number reads from a string with no white space around it. */
  function ReadNumber(t: string): Option<int> {
    if t == "" then Some(0)
    else if HasHexPrefix(t) then
      if |t| > 2 && AllRadixDigits(16, t[2..]) then Some(RadixValue(16, t[2..])) else None
    else
      var (sign, body) := SplitSign(t);
      if body != [] && AllDigits(body) then Some(sign * DigitsValue(body)) else None
  }

  /** parseInt reads a run of decimal digits up to the first character that is no digit
      (and no `x` making the run a hex prefix), ignoring what follows. */
  lemma ParseIntReadsLeadingDigits(d: string, rest: string)
    requires d != "" && AllDigits(d)
    requires rest == "" || (!IsDigit(rest[0]) && rest[0] != 'x' && rest[0] != 'X')
    ensures ParseInt(d + rest) == Some(DigitsValue(d))
  {
    var s := d + rest;
    assert s[0] == d[0] && IsDigit(s[0]);
    assert TrimStart(s) == s;
    assert SplitSign(s) == (1, s);
    assert !HasHexPrefix(s) by {
      if |d| == 1 {
        assert rest != "" ==> s[1] == rest[0];
      } else {
        assert s[1] == d[1];
      }
    }
    RunStopsAt(10, d, rest);
    assert s[..|d|] == d;
    DecimalRadixValue(d);
    assert ReadInt(s) == Some(RadixValue(10, d));
  }

  /** White space before a numeral does not change what parseInt reads. */
  lemma ParseIntSkipsLeadingBlank(w: string, s: string)
    requires IsBlank(w)
    ensures ParseInt(w + s) == ParseInt(s)
  {
    TrimStartSkipsBlank(w, s);
  }

  lemma {:induction false} TrimStartSkipsBlank(w: string, s: string)
    requires IsBlank(w)
    ensures TrimStart(w + s) == TrimStart(s)
  {
    if w != [] {
      assert (w + s)[1..] == w[1..] + s;
      TrimStartSkipsBlank(w[1..], s);
    } else {
      assert w + s == s;
    }
  }

  /** parseInt reads a `0x` literal in base 16. */
  lemma ParseIntReadsHex(h: string)
    requires h != "" && AllRadixDigits(16, h)
    ensures ParseInt("0x" + h) == Some(RadixValue(16, h))
  {
    var s := "0x" + h;
    assert TrimStart(s) == s;
    assert s[2..] == h;
    RunStopsAt(16, h, "");
    assert h + "" == h;
    assert h[..|h|] == h;
  }

  /** Whenever the cast to Number accepts a string that is not blank, parseInt reads
      the same number from it. */
  lemma CastAgreesWithParseInt(s: string)
    ensures NumberCast(s).Some? && !IsBlank(s) ==> ParseInt(s) == NumberCast(s)
  {
    if NumberCast(s).Some? && !IsBlank(s) {
      var t := Trim(s);
      TrimStartSplits(s);
      var w := TrimStart(s)[|t|..];
      assert TrimStart(s) == t + w;
      ReadingsAgree(t, w);
    }
  }

  /** A numeral Number reads, followed by white space, is read alike by parseInt. */
  lemma ReadingsAgree(t: string, w: string)
    requires t != "" && ReadNumber(t).Some? && IsBlank(w)
    ensures ReadInt(t + w) == ReadNumber(t)
  {
    if HasHexPrefix(t) {
      HexReadingsAgree(t, w);
    } else {
      DecimalReadingsAgree(t, w);
    }
  }

  lemma HexReadingsAgree(t: string, w: string)
    requires HasHexPrefix(t) && |t| > 2 && AllRadixDigits(16, t[2..]) && IsBlank(w)
    ensures ReadInt(t + w) == Some(RadixValue(16, t[2..]))
  {
    var digits := t[2..];
    assert SplitSign(t + w) == (1, t + w);
    assert (t + w)[2..] == digits + w;
    RunStopsAt(16, digits, w);
    assert (digits + w)[..|digits|] == digits;
  }

  lemma DecimalReadingsAgree(t: string, w: string)
    requires !HasHexPrefix(t) && IsBlank(w)
    requires SplitSign(t).1 != [] && AllDigits(SplitSign(t).1)
    ensures ReadInt(t + w) == Some(SplitSign(t).0 * DigitsValue(SplitSign(t).1))
  {
    var (sign, body) := SplitSign(t);
    if t[0] == '-' || t[0] == '+' {
      assert (t + w)[1..] == t[1..] + w;
    }
    assert SplitSign(t + w) == (sign, body + w);
    assert !HasHexPrefix(body + w);
    RunStopsAt(10, body, w);
    assert (body + w)[..|body|] == body;
    DecimalRadixValue(body);
  }

  /** Both readings skip white space around the digits. */
  lemma PaddedNumeralIsRead()
    ensures ParseInt(" 1 ") == Some(1) && NumberCast(" 1 ") == Some(1)
  {
    assert Trim(" 1 ") == "1" by {
      assert " 1 "[1..] == "1 ";
      assert TrimStart(" 1 ") == "1 ";
      assert "1 "[..1] == "1";
    }
    assert ReadNumber("1") == Some(1) by {
      assert SplitSign("1") == (1, "1");
    }
    CastAgreesWithParseInt(" 1 ");
  }

  /** Both readings take a `0x` literal in base 16. */
  lemma HexNumeralIsRead()
    ensures ParseInt("0x1") == Some(1) && NumberCast("0x1") == Some(1)
  {
    assert Trim("0x1") == "0x1" by {
      assert TrimStart("0x1") == "0x1";
    }
    assert ReadNumber("0x1") == Some(1) by {
      assert "0x1"[2..] == "1";
      assert RadixValue(16, "1") == 1;
    }
    CastAgreesWithParseInt("0x1");
  }

  /** parseInt stops at the first letter, where the cast to Number refuses the string. */
  lemma TrailingLettersSplitTheReadings()
    ensures ParseInt("1abc") == Some(1) && NumberCast("1abc").None?
  {
    ParseIntReadsLeadingDigits("1", "abc");
    assert "1" + "abc" == "1abc";
    assert Trim("1abc") == "1abc" by {
      assert TrimStart("1abc") == "1abc";
      assert !IsWhitespace('c');
    }
    assert !HasHexPrefix("1abc");
    assert SplitSign("1abc") == (1, "1abc");
    assert !AllDigits("1abc") by {
      assert "1abc"[1] == 'a';
    }
    assert ReadNumber("1abc").None?;
  }

  /** trimStart leaves the trimmed string followed by the white space trimEnd removes. */
  lemma TrimStartSplits(s: string)
    ensures |Trim(s)| <= |TrimStart(s)| && TrimStart(s)[..|Trim(s)|] == Trim(s)
    ensures IsBlank(TrimStart(s)[|Trim(s)|..])
  {
    TrimEndRemovesBlank(TrimStart(s));
  }

  /** A run of digits followed by white space, or by any character that is no digit of
      the radix, reads to the end of the digits. */
  lemma {:induction false} RunStopsAt(radix: nat, digits: string, rest: string)
    requires radix <= 36 && AllRadixDigits(radix, digits)
    requires rest == "" || DigitIn(rest[0]) >= radix || IsBlank(rest)
    ensures RadixRun(radix, digits + rest) == |digits|
  {
    if digits == [] {
      assert digits + rest == rest;
      if rest != "" && IsBlank(rest) {
        assert IsWhitespace(rest[0]);
      }
    } else {
      assert (digits + rest)[1..] == digits[1..] + rest;
      RunStopsAt(radix, digits[1..], rest);
    }
  }

  // ---------------------------------------------------------------- request values

  /** The integers JavaScript writes out in plain decimal notation: from 1e21 up,
      String(n) switches to exponential form ("1e+21"). */
  type PlainInt = x: int | -PlainBound < x < PlainBound

  /** 1e21 */
  const PlainBound: int := 1000000000000000000000

  /** A field of a parsed JSON request body. */
  datatype BodyValue = Missing | Number(n: PlainInt) | Text(s: string)

  /** JavaScript truthiness of a body value. */
  predicate Truthy(v: BodyValue) {
    match v
    case Missing => false
    case Number(n) => n != 0
    case Text(s) => s != ""
  }

  /** Of the values a body field can hold, exactly undefined, the number 0 and the
      empty string are falsy. */
  lemma FalsyBodyValues(v: BodyValue)
    ensures !Truthy(v) <==> v == Missing || v == Number(0) || v == Text("")
  {
  }

  /** Truthiness of an optional string field: an absent field is falsy, a given one
      is as truthy as the same string in a request body. */
  predicate Present(v: Option<string>): (b: bool)
    ensures b <==> v.Some? && Truthy(Text(v.value))
  {
    v.Some? && v.value != ""
  }

  /** parseInt applied to a body value: an absent value is NaN, a number is first
      written out in decimal, which parseInt reads back unchanged, and a string is read
      as parseInt reads it. */
  function ParseIntValue(v: BodyValue): (r: Option<int>)
    ensures v.Missing? ==> r.None?
    ensures v.Number? ==> r == Some(v.n)
    ensures v.Text? ==> r == ParseInt(v.s)
    ensures !Truthy(v) ==> r.None? || r == Some(0)
  {
    match v
    case Missing => None
    case Number(n) => Some(n)
    case Text(s) => ParseInt(s)
  }

  /** The cast Mongoose applies before writing a body value into a Number path: an
      absent value and "" are no number, a number is kept, and a string goes through
      Number. */
  function CastValue(v: BodyValue): (r: Option<int>)
    ensures v.Missing? || v == Text("") ==> r.None?
    ensures v.Number? ==> r == Some(v.n)
    ensures v.Text? ==> r == NumberCast(v.s)
  {
    match v
    case Missing => None
    case Number(n) => Some(n)
    case Text(s) => NumberCast(s)
  }

  // ---------------------------------------------------------------- arrays

  /** Array.prototype.filter: the elements satisfying `p`, in their original order. */
  function Filter<T(!new)>(s: seq<T>, p: T -> bool): (r: seq<T>)
    ensures |r| <= |s|
    ensures forall x :: x in r <==> x in s && p(x)
    ensures forall i :: 0 <= i < |r| ==> p(r[i])
  {
    if s == [] then []
    else (if p(s[0]) then [s[0]] else []) + Filter(s[1..], p)
  }

  /** Filtering a sequence with one more element at its end. */
  lemma {:induction false} FilterSnoc<T(!new)>(s: seq<T>, x: T, p: T -> bool)
    ensures Filter(s + [x], p) == Filter(s, p) + (if p(x) then [x] else [])
  {
    if s == [] {
      assert s + [x] == [x];
    } else {
      var head := if p(s[0]) then [s[0]] else [];
      var tail := if p(x) then [x] else [];
      assert (s + [x])[0] == s[0] && (s + [x])[1..] == s[1..] + [x];
      FilterSnoc(s[1..], x, p);
      calc {
        Filter(s + [x], p);
        head + Filter(s[1..] + [x], p);
        head + (Filter(s[1..], p) + tail);
        (head + Filter(s[1..], p)) + tail;
      }
    }
  }

  /** Splitting a sequence by a predicate and its negation loses and adds nothing. */
  lemma {:induction false} FilterCount<T(!new)>(s: seq<T>, p: T -> bool, q: T -> bool)
    requires forall x :: q(x) == !p(x)
    ensures |Filter(s, p)| + |Filter(s, q)| == |s|
  {
    if s != [] {
      FilterCount(s[1..], p, q);
    }
  }

  /** Array.prototype.findIndex: the position of the first element satisfying `p`. */
  function FindIndex<T>(s: seq<T>, p: T -> bool): (r: Option<nat>)
    ensures r.Some? ==> r.value < |s| && p(s[r.value])
    ensures r.Some? ==> forall j :: 0 <= j < r.value ==> !p(s[j])
    ensures r.None? ==> forall j :: 0 <= j < |s| ==> !p(s[j])
  {
    if s == [] then None
    else if p(s[0]) then Some(0)
    else match FindIndex(s[1..], p)
      case None => None
      case Some(k) => Some(k + 1)
  }
}
