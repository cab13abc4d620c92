/**
 * `application/x-www-form-urlencoded` decoding as `java.net.URLDecoder.decode(s, "UTF-8")`
 * performs it, close to the WHATWG URL Standard, section 5.1, except that a malformed
 * escape throws instead of staying as it is: '+' becomes a space, a run of `%XX`
 * escapes becomes bytes that are decoded as UTF-8, every other character stays.
 * The matching encoding (what `URLEncoder` and `URIBuilder` produce) is its inverse.
 */
module FormCodec {
  import opened Wrappers

  type Byte = b: int | 0 <= b < 256

  /** Why `URLDecoder.decode` throws `IllegalArgumentException`. */
  datatype DecodeFault =
    | IllegalHexCharacters      // `Integer.parseInt(.., 16)` rejects the two characters after '%'
    | NegativeEscapeValue       // "%-1" .. "%-F": the parsed value is negative
    | IncompleteTrailingEscape  // fewer than two characters follow a '%'

  /** U+FFFD, what a malformed UTF-8 sequence decodes to. */
  const Replacement: char := '\U{FFFD}'

  predicate IsHexDigit(c: char) {
    '0' <= c <= '9' || 'a' <= c <= 'f' || 'A' <= c <= 'F'
  }

  function HexValue(c: char): (v: nat)
    requires IsHexDigit(c)
    ensures v < 16
  {
    if '0' <= c <= '9' then c as int - '0' as int
    else if 'a' <= c <= 'f' then c as int - 'a' as int + 10
    else c as int - 'A' as int + 10
  }

  /**
   * `Integer.parseInt(a + b, 16)` on a two-character string; `None` is its
   * `NumberFormatException`. A leading sign is accepted before one digit.
   */
  function ParseHexPair(a: char, b: char): (r: Option<int>)
    ensures r.Some? ==> -16 < r.value < 256
    ensures r.Some? && r.value < 0 ==> a == '-'
  {
    if (a == '+' || a == '-') && IsHexDigit(b) then
      Some(if a == '+' then HexValue(b) as int else -(HexValue(b) as int))
    else if IsHexDigit(a) && IsHexDigit(b) then
      Some(16 * HexValue(a) + HexValue(b))
    else
      None
  }

  /**
   * The maximal run of `%XX` escapes at the start of `s`, as the bytes `URLDecoder`
   * collects before it decodes them together.
   */
  function EscapeRun(s: string): (r: Result<seq<Byte>, DecodeFault>)
    requires |s| > 0 && s[0] == '%'
    ensures r.Success? ==> 0 < |r.value| && 3 * |r.value| <= |s|
    ensures r.Success? ==> 3 * |r.value| == |s| || s[3 * |r.value|] != '%'
    ensures |s| < 3 ==> r == Failure(IncompleteTrailingEscape)
    decreases |s|
  {
    if |s| < 3 then Failure(IncompleteTrailingEscape)
    else match ParseHexPair(s[1], s[2])
      case None => Failure(IllegalHexCharacters)
      case Some(v) =>
        if v < 0 then Failure(NegativeEscapeValue)
        else if |s| > 3 && s[3] == '%' then
          match EscapeRun(s[3..])
          case Failure(f) => Failure(f)
          case Success(rest) => Success([v as Byte] + rest)
        else Success([v as Byte])
  }

  // ---------------------------------------------------------------- UTF-8

  predicate IsContinuation(b: Byte) {
    0x80 <= b < 0xC0
  }

  /** The length a lead byte announces; 0 for a byte that cannot start a sequence. */
  function SequenceLength(lead: Byte): (n: nat)
    ensures n <= 4
  {
    if lead < 0x80 then 1
    else if 0xC2 <= lead < 0xE0 then 2
    else if 0xE0 <= lead < 0xF0 then 3
    else if 0xF0 <= lead < 0xF5 then 4
    else 0
  }

  /**
   * Whether `b` may follow `lead`, as the JDK's decoder checks it: the Unicode Standard,
   * table 3-7, except that after 0xED every continuation byte is accepted here and the
   * surrogate it leads to is rejected once the whole sequence is read.
   */
  predicate SecondByteOk(lead: Byte, b: Byte) {
    if lead == 0xE0 then 0xA0 <= b < 0xC0
    else if lead == 0xF0 then 0x90 <= b < 0xC0
    else if lead == 0xF4 then 0x80 <= b < 0x90
    else IsContinuation(b)
  }

  /** How many bytes after the lead of an `n`-byte sequence are well formed (at most `n - 1`). */
  function WellFormedTail(bs: seq<Byte>, n: nat): (k: nat)
    requires |bs| > 0 && 2 <= n <= 4
    ensures k < n && k < |bs|
  {
    if |bs| < 2 || !SecondByteOk(bs[0], bs[1]) then 0
    else if n == 2 || |bs| < 3 || !IsContinuation(bs[2]) then 1
    else if n == 3 || |bs| < 4 || !IsContinuation(bs[3]) then 2
    else 3
  }

  /** The code point a complete `n`-byte sequence at the start of `bs` encodes. */
  function CodePointAt(bs: seq<Byte>, n: nat): (cp: int)
    requires 2 <= n <= 4 && n <= |bs|
    requires SequenceLength(bs[0]) == n && WellFormedTail(bs, n) == n - 1
    ensures 0x80 <= cp < 0x110000
    ensures n == 2 ==> cp < 0x800
    ensures n == 4 ==> 0x10000 <= cp
  {
    var b0, b1 := bs[0] as int, bs[1] as int;
    if n == 2 then
      (b0 - 0xC0) * 64 + (b1 - 0x80)
    else if n == 3 then
      (b0 - 0xE0) * 4096 + (b1 - 0x80) * 64 + (bs[2] as int - 0x80)
    else
      (b0 - 0xF0) * 262144 + (b1 - 0x80) * 4096 + (bs[2] as int - 0x80) * 64 + (bs[3] as int - 0x80)
  }

  predicate IsSurrogate(cp: int) {
    0xD800 <= cp < 0xE000
  }

  /**
   * `new String(bytes, "UTF-8")` with the JDK's decoder: a complete sequence gives its
   * character, or one U+FFFD when it encodes a surrogate; an incomplete or malformed one
   * gives one U+FFFD for its longest prefix that a well-formed sequence could start with
   * (at least one byte).
   */
  function Utf8Decode(bs: seq<Byte>): (s: string)
    ensures |bs| > 0 ==> |s| > 0
    decreases |bs|
  {
    if bs == [] then []
    else
      var n := SequenceLength(bs[0]);
      if n == 1 then [bs[0] as char] + Utf8Decode(bs[1..])
      else if n == 0 then [Replacement] + Utf8Decode(bs[1..])
      else
        var k := WellFormedTail(bs, n);
        if k == n - 1 then
          var cp := CodePointAt(bs, n);
          [if IsSurrogate(cp) then Replacement else cp as char] + Utf8Decode(bs[n..])
        else [Replacement] + Utf8Decode(bs[1 + k..])
  }

  /** Three bytes that encode a surrogate decode to a single U+FFFD. */
  lemma EncodedSurrogateReplaced(b1: Byte, b2: Byte, rest: seq<Byte>)
    requires 0xA0 <= b1 < 0xC0 && IsContinuation(b2)
    ensures Utf8Decode([0xED, b1, b2] + rest) == [Replacement] + Utf8Decode(rest)
  {
    var bs := [0xED, b1, b2] + rest;
    assert WellFormedTail(bs, 3) == 2;
    assert IsSurrogate(CodePointAt(bs, 3));
    assert bs[3..] == rest;
  }

  /** The first two bytes of an encoded surrogate at the end of the input give a single U+FFFD. */
  lemma TruncatedSurrogateReplaced(b1: Byte)
    requires 0xA0 <= b1 < 0xC0
    ensures Utf8Decode([0xED, b1]) == [Replacement]
  {
    var bs: seq<Byte> := [0xED, b1];
    assert WellFormedTail(bs, 3) == 1;
    assert bs[2..] == [];
  }

  /** The UTF-8 encoding of one character. */
  function Utf8Encode(c: char): (bs: seq<Byte>)
    ensures 1 <= |bs| <= 4
  {
    var cp := c as int;
    if cp < 0x80 then [cp]
    else if cp < 0x800 then [0xC0 + cp / 64, 0x80 + cp % 64]
    else if cp < 0x10000 then [0xE0 + cp / 4096, 0x80 + cp / 64 % 64, 0x80 + cp % 64]
    else [0xF0 + cp / 262144, 0x80 + cp / 4096 % 64, 0x80 + cp / 64 % 64, 0x80 + cp % 64]
  }

  function Utf8EncodeAll(s: string): (bs: seq<Byte>)
    ensures s != [] ==> bs != []
  {
    if s == [] then [] else Utf8Encode(s[0]) + Utf8EncodeAll(s[1..])
  }

  // ------------------------------------------------------ form encoding

  /** The characters `URLEncoder` and `URIBuilder` leave unescaped. */
  predicate IsFormSafe(c: char) {
    'a' <= c <= 'z' || 'A' <= c <= 'Z' || '0' <= c <= '9' || c == '.' || c == '-' || c == '*' || c == '_'
  }

  predicate NeedsEscape(c: char) {
    !IsFormSafe(c) && c != ' '
  }

  /** Upper-case hexadecimal digit. */
  function HexDigit(v: nat): (c: char)
    requires v < 16
    ensures IsHexDigit(c) && HexValue(c) == v && c != '+' && c != '-'
  {
    if v < 10 then ('0' as int + v) as char else ('A' as int + v - 10) as char
  }

  function PercentEncode(bs: seq<Byte>): (s: string)
    ensures |s| == 3 * |bs|
    ensures bs != [] ==> s[0] == '%'
  {
    if bs == [] then [] else ['%', HexDigit(bs[0] / 16), HexDigit(bs[0] % 16)] + PercentEncode(bs[1..])
  }

  function EncodeChar(c: char): string {
    if IsFormSafe(c) then [c] else if c == ' ' then "+" else PercentEncode(Utf8Encode(c))
  }

  /** Form encoding of a name or value, as `URIBuilder.addParameter` serialises it. */
  function FormEncode(s: string): string {
    if s == [] then [] else EncodeChar(s[0]) + FormEncode(s[1..])
  }

  // ------------------------------------------------------------ decoding

  function Prepend(p: string, r: Result<string, DecodeFault>): Result<string, DecodeFault> {
    match r
    case Success(t) => Success(p + t)
    case Failure(f) => Failure(f)
  }

  /** `URLDecoder.decode(s, "UTF-8")`; a `Failure` is the `IllegalArgumentException` it throws. */
  function FormDecode(s: string): (r: Result<string, DecodeFault>)
    ensures r.Success? && s != [] ==> r.value != []
    decreases |s|
  {
    if s == [] then Success([])
    else if s[0] == '+' then Prepend(" ", FormDecode(s[1..]))
    else if s[0] == '%' then
      match EscapeRun(s)
      case Failure(f) => Failure(f)
      case Success(bytes) => Prepend(Utf8Decode(bytes), FormDecode(s[3 * |bytes|..]))
    else Prepend([s[0]], FormDecode(s[1..]))
  }

  // -------------------------------------------------------------- lemmas

  /** Decoding leaves a string without '%' and '+' as it is. */
  lemma {:induction false} FormDecodePlain(s: string)
    requires forall i | 0 <= i < |s| :: s[i] != '%' && s[i] != '+'
    ensures FormDecode(s) == Success(s)
    decreases |s|
  {
    if s != [] {
      FormDecodePlain(s[1..]);
      assert [s[0]] + s[1..] == s;
    }
  }

  /** A '%' with fewer than two characters after it makes the whole decoding fail. */
  lemma {:induction false} TrailingPercentFails(s: string)
    requires forall i | 0 <= i < |s| :: s[i] != '%'
    ensures FormDecode(s + "%").Failure?
    decreases |s|
  {
    if s == [] {
      assert EscapeRun("%") == Failure(IncompleteTrailingEscape);
    } else {
      TrailingPercentFails(s[1..]);
      assert (s + "%")[1..] == s[1..] + "%";
    }
  }

  lemma Utf8DecodeTwo(c: char, rest: seq<Byte>)
    requires 0x80 <= c as int < 0x800
    ensures Utf8Decode(Utf8Encode(c) + rest) == [c] + Utf8Decode(rest)
  {
    var cp := c as int;
    var q, r := cp / 64, cp % 64;
    assert cp == 64 * q + r && 2 <= q < 32 && 0 <= r < 64;
    var bs := [0xC0 + q, 0x80 + r] + rest;
    assert Utf8Encode(c) + rest == bs;
    assert SequenceLength(bs[0]) == 2;
    assert WellFormedTail(bs, 2) == 1;
    assert CodePointAt(bs, 2) == cp;
    assert bs[2..] == rest;
  }

  lemma Utf8DecodeThree(c: char, rest: seq<Byte>)
    requires 0x800 <= c as int < 0x10000
    ensures Utf8Decode(Utf8Encode(c) + rest) == [c] + Utf8Decode(rest)
  {
    var cp := c as int;
    var q, m, r := cp / 4096, cp / 64 % 64, cp % 64;
    assert cp / 64 == 64 * q + m;
    assert cp == 4096 * q + 64 * m + r && q < 16 && 0 <= m < 64 && 0 <= r < 64;
    var bs := [0xE0 + q, 0x80 + m, 0x80 + r] + rest;
    assert Utf8Encode(c) + rest == bs;
    assert SequenceLength(bs[0]) == 3;
    assert q == 0 ==> 32 <= m;
    assert SecondByteOk(bs[0], bs[1]);
    assert WellFormedTail(bs, 3) == 2;
    assert CodePointAt(bs, 3) == cp && !IsSurrogate(cp);
    assert bs[3..] == rest;
  }

  lemma Utf8DecodeFour(c: char, rest: seq<Byte>)
    requires 0x10000 <= c as int
    ensures Utf8Decode(Utf8Encode(c) + rest) == [c] + Utf8Decode(rest)
  {
    var cp := c as int;
    var q, m1, m2, r := cp / 262144, cp / 4096 % 64, cp / 64 % 64, cp % 64;
    assert cp / 4096 == 64 * q + m1;
    assert cp / 64 == 64 * (cp / 4096) + m2;
    assert cp == 262144 * q + 4096 * m1 + 64 * m2 + r && q <= 4;
    var bs := [0xF0 + q, 0x80 + m1, 0x80 + m2, 0x80 + r] + rest;
    assert Utf8Encode(c) + rest == bs;
    assert SequenceLength(bs[0]) == 4;
    assert q == 0 ==> 16 <= m1;
    assert q == 4 ==> m1 < 16;
    assert SecondByteOk(bs[0], bs[1]);
    assert WellFormedTail(bs, 4) == 3;
    assert CodePointAt(bs, 4) == cp;
    assert bs[4..] == rest;
  }

  /** Decoding the UTF-8 bytes of one character gives back that character. */
  lemma Utf8DecodeEncodeChar(c: char, rest: seq<Byte>)
    ensures Utf8Decode(Utf8Encode(c) + rest) == [c] + Utf8Decode(rest)
  {
    var cp := c as int;
    if cp < 0x80 {
      var bs := Utf8Encode(c) + rest;
      assert bs[1..] == rest;
    } else if cp < 0x800 {
      Utf8DecodeTwo(c, rest);
    } else if cp < 0x10000 {
      Utf8DecodeThree(c, rest);
    } else {
      Utf8DecodeFour(c, rest);
    }
  }

  /** UTF-8 decoding undoes UTF-8 encoding. */
  lemma {:induction false} Utf8RoundTrip(s: string)
    ensures Utf8Decode(Utf8EncodeAll(s)) == s
  {
    if s != [] {
      Utf8DecodeEncodeChar(s[0], Utf8EncodeAll(s[1..]));
      Utf8RoundTrip(s[1..]);
      assert [s[0]] + s[1..] == s;
    }
  }

  lemma {:induction false} PercentEncodeAppend(a: seq<Byte>, b: seq<Byte>)
    ensures PercentEncode(a + b) == PercentEncode(a) + PercentEncode(b)
  {
    if a == [] {
      assert a + b == b;
    } else {
      PercentEncodeAppend(a[1..], b);
      var x := ['%', HexDigit(a[0] / 16), HexDigit(a[0] % 16)];
      assert (a + b)[0] == a[0] && (a + b)[1..] == a[1..] + b;
      calc {
        PercentEncode(a + b);
        x + PercentEncode(a[1..] + b);
        x + (PercentEncode(a[1..]) + PercentEncode(b));
        (x + PercentEncode(a[1..])) + PercentEncode(b);
      }
    }
  }

  /** The concatenation of `f` over the characters of `s`. */
  function ConcatMap(f: char -> string, s: string): string {
    if s == [] then [] else f(s[0]) + ConcatMap(f, s[1..])
  }

  lemma {:induction false} ConcatMapAppend(f: char -> string, a: string, b: string)
    ensures ConcatMap(f, a + b) == ConcatMap(f, a) + ConcatMap(f, b)
  {
    if a == [] {
      assert a + b == b;
    } else {
      assert (a + b)[0] == a[0] && (a + b)[1..] == a[1..] + b;
      ConcatMapAppend(f, a[1..], b);
    }
  }

  lemma {:induction false} FormEncodeIsConcatMap(s: string)
    ensures FormEncode(s) == ConcatMap(EncodeChar, s)
  {
    if s != [] {
      FormEncodeIsConcatMap(s[1..]);
    }
  }

  lemma FormEncodeAppend(a: string, b: string)
    ensures FormEncode(a + b) == FormEncode(a) + FormEncode(b)
  {
    FormEncodeIsConcatMap(a + b);
    FormEncodeIsConcatMap(a);
    FormEncodeIsConcatMap(b);
    ConcatMapAppend(EncodeChar, a, b);
  }

  /** A string of letters, digits and ". - * _" is its own form encoding. */
  lemma {:induction false} FormEncodeSafe(s: string)
    requires forall i | 0 <= i < |s| :: IsFormSafe(s[i])
    ensures FormEncode(s) == s
  {
    if s != [] {
      FormEncodeSafe(s[1..]);
      assert s == [s[0]] + s[1..];
    }
  }

  /** A string of characters that all need escaping encodes to the escapes of its UTF-8 bytes. */
  lemma {:induction false} EscapedEncoding(p: string)
    requires forall i | 0 <= i < |p| :: NeedsEscape(p[i])
    ensures FormEncode(p) == PercentEncode(Utf8EncodeAll(p))
  {
    if p != [] {
      EscapedEncoding(p[1..]);
      PercentEncodeAppend(Utf8Encode(p[0]), Utf8EncodeAll(p[1..]));
    }
  }

  /** `URLDecoder` reads back exactly the bytes of a canonical escape run. */
  lemma {:induction false} EscapeRunOfEncoded(bs: seq<Byte>, t: string)
    requires bs != []
    requires t == [] || t[0] != '%'
    ensures EscapeRun(PercentEncode(bs) + t) == Success(bs)
  {
    var b := bs[0];
    var d1, d2 := HexDigit(b / 16), HexDigit(b % 16);
    var tail := PercentEncode(bs[1..]) + t;
    var s := ['%', d1, d2] + tail;
    assert PercentEncode(bs) + t == s;
    assert s[1] == d1 && s[2] == d2 && s[3..] == tail;
    assert ParseHexPair(d1, d2) == Some(b);
    if |bs| == 1 {
      assert tail == t;
      assert [b] == bs;
    } else {
      assert tail[0] == '%';
      EscapeRunOfEncoded(bs[1..], t);
      assert [b] + bs[1..] == bs;
    }
  }

  /** The length of the longest prefix of `s` whose characters all need escaping. */
  function EscapedPrefix(s: string): (k: nat)
    ensures k <= |s|
    ensures forall i | 0 <= i < k :: NeedsEscape(s[i])
    ensures k < |s| ==> !NeedsEscape(s[k])
  {
    if s == [] || !NeedsEscape(s[0]) then 0 else 1 + EscapedPrefix(s[1..])
  }

  /** Form decoding undoes form encoding, for every string. */
  lemma {:induction false} FormRoundTrip(s: string)
    ensures FormDecode(FormEncode(s)) == Success(s)
    decreases |s|
  {
    if s == [] {
    } else if !NeedsEscape(s[0]) {
      FormRoundTrip(s[1..]);
      var e := FormEncode(s);
      assert e == EncodeChar(s[0]) + FormEncode(s[1..]);
      assert e[1..] == FormEncode(s[1..]);
      assert [s[0]] + s[1..] == s;
    } else {
      var k := EscapedPrefix(s);
      var p, t := s[..k], s[k..];
      assert s == p + t;
      FormEncodeAppend(p, t);
      EscapedEncoding(p);
      var bs := Utf8EncodeAll(p);
      var et := FormEncode(t);
      assert et == [] || et[0] != '%' by {
        if t != [] {
          assert et == EncodeChar(t[0]) + FormEncode(t[1..]);
        }
      }
      EscapeRunOfEncoded(bs, et);
      var e := PercentEncode(bs) + et;
      assert FormEncode(s) == e;
      assert e[3 * |bs|..] == et;
      Utf8RoundTrip(p);
      FormRoundTrip(t);
    }
  }
}
