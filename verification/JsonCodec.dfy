/**
 * The bytes json.Marshal produces for a log record, for byte-string values: an object with
 * the operation, the escaped key (section 7 of RFC 8259, with the HTML-safe escapes of Go's
 * encoder) and the base64 value (section 4 of RFC 4648), the last omitted when empty.
 *
 * The decoder reads a record from the left and accepts it if nothing follows.  The module shows
 * that the two form a codec in the sense of `Wal.ValidCodec`.
 */
module JsonCodec {
  import opened Types
  import opened Wal

  const QUOTE: byte := 34
  const BACKSLASH: byte := 92
  const OPEN: byte := 123
  const CLOSE: byte := 125
  const PAD: byte := 61

  predicate IsAscii(s: string) {
    forall i :: 0 <= i < |s| ==> s[i] as int < 128
  }

  function Ascii(s: string): (b: Bytes)
    requires IsAscii(s)
    ensures |b| == |s|
  {
    seq(|s|, i requires 0 <= i < |s| => s[i] as int as byte)
  }

  predicate OneLine(b: Bytes) {
    forall i :: 0 <= i < |b| ==> b[i] != LF && b[i] != CR
  }

  // ----- Strings -----

  function Hex(x: int): byte
    requires 0 <= x < 16
  {
    if x < 10 then 48 + x else 87 + x
  }

  function UnHex(b: byte): Option<int> {
    if 48 <= b < 58 then Some(b - 48) else if 97 <= b < 103 then Some(b - 87) else None
  }

  /** The letter after the backslash, for the characters with a two-character escape. */
  function ShortEscape(n: int): Option<byte> {
    if n == 34 || n == 92 then Some(n)
    else if n == 8 then Some(98)
    else if n == 12 then Some(102)
    else if n == 10 then Some(110)
    else if n == 13 then Some(114)
    else if n == 9 then Some(116)
    else None
  }

  function UnShortEscape(b: byte): Option<char> {
    if b == 34 then Some('"')
    else if b == 92 then Some('\\')
    else if b == 98 then Some(8 as char)
    else if b == 102 then Some(12 as char)
    else if b == 110 then Some(10 as char)
    else if b == 114 then Some(13 as char)
    else if b == 116 then Some(9 as char)
    else None
  }

  /** Written as backslash-u: other control characters, `<`, `>`, `&`, U+2028 and U+2029. */
  predicate LongEscape(n: int) {
    (0 <= n < 32 && ShortEscape(n) == None) || n == 60 || n == 62 || n == 38 || n == 0x2028 || n == 0x2029
  }

  function EscapeChar(c: char): (b: Bytes)
    ensures b != [] && b[0] != QUOTE && OneLine(b)
  {
    var n := c as int;
    if ShortEscape(n).Some? then [BACKSLASH, ShortEscape(n).value]
    else if LongEscape(n) then
      [BACKSLASH, 117, Hex(n / 4096), Hex(n / 256 % 16), Hex(n / 16 % 16), Hex(n % 16)]
    else if n < 0x80 then [n]
    else if n < 0x800 then [0xC0 + n / 64, 0x80 + n % 64]
    else if n < 0x1_0000 then [0xE0 + n / 4096, 0x80 + n / 64 % 64, 0x80 + n % 64]
    else [0xF0 + n / 0x4_0000, 0x80 + n / 4096 % 64, 0x80 + n / 64 % 64, 0x80 + n % 64]
  }

  function ToChar(n: int): Option<char> {
    if 0 <= n < 0xD800 || 0xE000 <= n < 0x11_0000 then Some(n as char) else None
  }

  function ReadEscape(b: Bytes): (r: Option<(char, nat)>)
    requires b != [] && b[0] == BACKSLASH
    ensures r.Some? ==> 0 < r.value.1 <= |b|
  {
    if |b| < 2 then None
    else if b[1] != 117 then At(UnShortEscape(b[1]), 2)
    else if |b| < 6 then None
    else match (UnHex(b[2]), UnHex(b[3]), UnHex(b[4]), UnHex(b[5]))
      case (Some(p), Some(q), Some(r), Some(s)) => At(ToChar(p * 4096 + q * 256 + r * 16 + s), 6)
      case _ => None
  }

  const REPLACEMENT: char := 0xFFFD as char

  predicate Continues(b: byte) {
    0x80 <= b < 0xC0
  }

  /** The first of the k bytes of a character that is missing or not a continuation byte, or k. */
  function Extent(b: Bytes, k: nat): nat {
    if |b| < 2 || !Continues(b[1]) then 1
    else if k == 2 || |b| < 3 || !Continues(b[2]) then 2
    else if k == 3 || |b| < 4 || !Continues(b[3]) then 3
    else 4
  }

  /** Bytes that are not UTF-8 read as U+FFFD, one at a time; control characters are refused. */
  function ReadUtf8(b: Bytes): (r: Option<(char, nat)>)
    requires b != []
    ensures r.Some? ==> 0 < r.value.1 <= |b|
  {
    if b[0] < 0x20 then None
    else if b[0] < 0x80 then At(ToChar(b[0]), 1)
    else if b[0] < 0xC0 then Some((REPLACEMENT, 1))
    else
      var k := if b[0] < 0xE0 then 2 else if b[0] < 0xF0 then 3 else 4;
      var n := Extent(b, k);
      if n < k then (if n < |b| then Some((REPLACEMENT, 1)) else None)
      else if k == 2 then Decoded(Low(b[0], 0xC0) * 64 + Low(b[1], 0x80), 0x80, 2)
      else if k == 3 then
        Decoded(Low(b[0], 0xE0) * 4096 + Low(b[1], 0x80) * 64 + Low(b[2], 0x80), 0x800, 3)
      else
        Decoded(Low(b[0], 0xF0) * 0x4_0000 + Low(b[1], 0x80) * 4096 + Low(b[2], 0x80) * 64 + Low(b[3], 0x80),
                0x1_0000, 4)
  }

  /** The character with that code, unless it has a shorter form or is none. */
  function Decoded(n: int, least: int, k: nat): (r: Option<(char, nat)>)
    ensures r.Some? && (k > 0 ==> 0 < r.value.1 <= k)
  {
    if n >= least && ToChar(n).Some? then Some((ToChar(n).value, k)) else Some((REPLACEMENT, 1))
  }

  function Low(b: int, mark: int): int {
    b - mark
  }

  function At(c: Option<char>, k: nat): Option<(char, nat)> {
    if c.Some? then Some((c.value, k)) else None
  }

  /** One character and the number of bytes it takes. */
  function ReadChar(b: Bytes): (r: Option<(char, nat)>)
    requires b != []
    ensures r.Some? ==> 0 < r.value.1 <= |b|
  {
    if b[0] == BACKSLASH then ReadEscape(b) else ReadUtf8(b)
  }

  lemma {:induction false} HexRoundTrip(x: int)
    requires 0 <= x < 16
    ensures UnHex(Hex(x)) == Some(x)
  {
  }

  lemma {:induction false} ReadShortEscape(c: char, rest: Bytes)
    requires ShortEscape(c as int).Some?
    ensures ReadChar(EscapeChar(c) + rest) == Some((c, |EscapeChar(c)|))
  {
    var b := EscapeChar(c) + rest;
    assert b[0] == BACKSLASH && b[1] == ShortEscape(c as int).value;
  }

  lemma {:induction false} HexDigits(n: int)
    requires 0 <= n < 0x1_0000
    ensures 0 <= n / 4096 < 16
    ensures n == n / 4096 * 4096 + n / 256 % 16 * 256 + n / 16 % 16 * 16 + n % 16
  {
    assert n / 4096 == n / 256 / 16;
    assert n / 256 == n / 16 / 16;
  }

  lemma {:induction false} ReadLongEscape(c: char, rest: Bytes)
    requires LongEscape(c as int)
    ensures ReadChar(EscapeChar(c) + rest) == Some((c, |EscapeChar(c)|))
  {
    var n := c as int;
    HexDigits(n);
    var p, q, r, s := n / 4096, n / 256 % 16, n / 16 % 16, n % 16;
    HexRoundTrip(p);
    HexRoundTrip(q);
    HexRoundTrip(r);
    HexRoundTrip(s);
    assert EscapeChar(c) == [BACKSLASH, 117, Hex(p), Hex(q), Hex(r), Hex(s)];
    var b := EscapeChar(c) + rest;
    assert b[0] == BACKSLASH && b[1] == 117 && b[2] == Hex(p) && b[3] == Hex(q) && b[4] == Hex(r) && b[5] == Hex(s);
    assert ToChar(n) == Some(c);
  }

  lemma {:induction false} SixBitDigits(n: int)
    requires n >= 0
    ensures n == n / 4096 * 4096 + n / 64 % 64 * 64 + n % 64
    ensures n == n / 0x4_0000 * 0x4_0000 + n / 4096 % 64 * 4096 + n / 64 % 64 * 64 + n % 64
  {
    assert n / 4096 == n / 64 / 64;
    assert n / 0x4_0000 == n / 4096 / 64;
  }

  lemma {:induction false} ReadPlain(c: char, rest: Bytes)
    requires ShortEscape(c as int) == None && !LongEscape(c as int) && (c as int) < 0x800
    ensures ReadChar(EscapeChar(c) + rest) == Some((c, |EscapeChar(c)|))
  {
    var n := c as int;
    var b := EscapeChar(c) + rest;
    assert b[0] == EscapeChar(c)[0];
    assert ToChar(n) == Some(c);
    if n >= 0x80 {
      assert b[1] == 0x80 + n % 64;
    }
  }

  lemma {:induction false} ReadThree(c: char, rest: Bytes)
    requires 0x800 <= c as int < 0x1_0000 && !LongEscape(c as int)
    ensures ReadChar(EscapeChar(c) + rest) == Some((c, |EscapeChar(c)|))
  {
    var n := c as int;
    SixBitDigits(n);
    var x, y, z := n / 4096, n / 64 % 64, n % 64;
    assert EscapeChar(c) == [0xE0 + x, 0x80 + y, 0x80 + z];
    var b := EscapeChar(c) + rest;
    assert b[0] == 0xE0 + x && b[1] == 0x80 + y && b[2] == 0x80 + z;
    assert ToChar(n) == Some(c);
  }

  lemma {:induction false} ReadFour(c: char, rest: Bytes)
    requires c as int >= 0x1_0000
    ensures ReadChar(EscapeChar(c) + rest) == Some((c, |EscapeChar(c)|))
  {
    var n := c as int;
    SixBitDigits(n);
    var w, x, y, z := n / 0x4_0000, n / 4096 % 64, n / 64 % 64, n % 64;
    assert EscapeChar(c) == [0xF0 + w, 0x80 + x, 0x80 + y, 0x80 + z];
    var b := EscapeChar(c) + rest;
    assert b[0] == 0xF0 + w && b[1] == 0x80 + x && b[2] == 0x80 + y && b[3] == 0x80 + z;
    assert ToChar(n) == Some(c);
  }

  lemma {:induction false} ReadEscapedChar(c: char, rest: Bytes)
    ensures ReadChar(EscapeChar(c) + rest) == Some((c, |EscapeChar(c)|))
  {
    var n := c as int;
    if ShortEscape(n).Some? {
      ReadShortEscape(c, rest);
    } else if LongEscape(n) {
      ReadLongEscape(c, rest);
    } else if n < 0x800 {
      ReadPlain(c, rest);
    } else if n < 0x1_0000 {
      ReadThree(c, rest);
    } else {
      ReadFour(c, rest);
    }
  }

  function Escape(s: string): (b: Bytes)
    ensures OneLine(b)
  {
    if s == "" then [] else EscapeChar(s[0]) + Escape(s[1..])
  }

  /** A string up to its closing quote, and what follows the quote. */
  function ReadString(b: Bytes): (r: Option<(string, Bytes)>)
    decreases |b|
  {
    if b == [] then None
    else if b[0] == QUOTE then Some(("", b[1..]))
    else match ReadChar(b)
      case None => None
      case Some((c, k)) =>
        match ReadString(b[k..])
        case None => None
        case Some((s, rest)) => Some(([c] + s, rest))
  }

  lemma {:induction false} ReadEscaped(s: string, rest: Bytes)
    ensures ReadString(Escape(s) + [QUOTE] + rest) == Some((s, rest))
  {
    if s == "" {
      var b := Escape(s) + [QUOTE] + rest;
      assert b[1..] == rest;
    } else {
      var e, tail := EscapeChar(s[0]), Escape(s[1..]) + [QUOTE] + rest;
      var b := Escape(s) + [QUOTE] + rest;
      assert b == e + tail;
      ReadEscapedChar(s[0], tail);
      assert b[0] == e[0];
      assert b[|e|..] == tail;
      ReadEscaped(s[1..], rest);
      assert [s[0]] + s[1..] == s;
    }
  }

  // ----- Base64 -----

  function Digit(x: int): (b: byte)
    requires 0 <= x < 64
    ensures b != LF && b != CR && b != QUOTE && b != PAD
  {
    if x < 26 then 65 + x
    else if x < 52 then 71 + x
    else if x < 62 then x - 4
    else if x == 62 then 43
    else 47
  }

  function UnDigit(b: byte): (x: int)
    ensures 0 <= x < 64
  {
    if 65 <= b < 91 then b - 65
    else if 97 <= b < 123 then b - 71
    else if 48 <= b < 58 then b + 4
    else if b == 43 then 62
    else 63
  }

  lemma {:induction false} DigitRoundTrip(x: int)
    requires 0 <= x < 64
    ensures UnDigit(Digit(x)) == x
  {
  }

  function Base64(v: Bytes): (t: Bytes)
    ensures OneLine(t) && QUOTE !in t
  {
    if v == [] then []
    else if |v| == 1 then [Digit(v[0] / 4), Digit(v[0] % 4 * 16), PAD, PAD]
    else if |v| == 2 then [Digit(v[0] / 4), Digit(v[0] % 4 * 16 + v[1] / 16), Digit(v[1] % 16 * 4), PAD]
    else Group(v[0], v[1], v[2]) + Base64(v[3..])
  }

  /** Three bytes as four digits. */
  function Group(x: byte, y: byte, z: byte): (t: Bytes)
    ensures OneLine(t) && QUOTE !in t
  {
    [Digit(x / 4), Digit(x % 4 * 16 + y / 16), Digit(y % 16 * 4 + z / 64), Digit(z % 64)]
  }

  function UnBase64(t: Bytes): Bytes {
    if |t| < 4 then []
    else
      var a, b := UnDigit(t[0]), UnDigit(t[1]);
      if t[2] == PAD then [a * 4 + b / 16]
      else
        var c := UnDigit(t[2]);
        if t[3] == PAD then [a * 4 + b / 16, b % 16 * 16 + c / 4]
        else [a * 4 + b / 16, b % 16 * 16 + c / 4, c % 4 * 64 + UnDigit(t[3])] + UnBase64(t[4..])
  }

  lemma {:induction false} GroupRoundTrip(x: byte, y: byte, z: byte)
    ensures var a, b, c, d := x / 4, x % 4 * 16 + y / 16, y % 16 * 4 + z / 64, z % 64;
            && UnDigit(Digit(a)) * 4 + UnDigit(Digit(b)) / 16 == x
            && UnDigit(Digit(b)) % 16 * 16 + UnDigit(Digit(c)) / 4 == y
            && UnDigit(Digit(c)) % 4 * 64 + UnDigit(Digit(d)) == z
  {
    DigitRoundTrip(x / 4);
    DigitRoundTrip(x % 4 * 16 + y / 16);
    DigitRoundTrip(y % 16 * 4 + z / 64);
    DigitRoundTrip(z % 64);
  }

  lemma {:induction false} ReadDigits(p: byte, q: byte, r: byte, s: byte, x: byte, y: byte, z: byte, rest: Bytes)
    requires r != PAD && s != PAD
    requires UnDigit(p) * 4 + UnDigit(q) / 16 == x
    requires UnDigit(q) % 16 * 16 + UnDigit(r) / 4 == y
    requires UnDigit(r) % 4 * 64 + UnDigit(s) == z
    ensures UnBase64([p, q, r, s] + rest) == [x, y, z] + UnBase64(rest)
  {
    var t := [p, q, r, s] + rest;
    assert t[0] == p && t[1] == q && t[2] == r && t[3] == s && t[4..] == rest;
  }

  lemma {:induction false} ReadGroup(x: byte, y: byte, z: byte, rest: Bytes)
    ensures UnBase64(Group(x, y, z) + rest) == [x, y, z] + UnBase64(rest)
  {
    GroupRoundTrip(x, y, z);
    ReadDigits(Digit(x / 4), Digit(x % 4 * 16 + y / 16), Digit(y % 16 * 4 + z / 64), Digit(z % 64), x, y, z, rest);
  }

  lemma {:induction false} Base64RoundTrip(v: Bytes)
    ensures UnBase64(Base64(v)) == v
    decreases |v|
  {
    if |v| >= 3 {
      assert Base64(v) == Group(v[0], v[1], v[2]) + Base64(v[3..]);
      ReadGroup(v[0], v[1], v[2], Base64(v[3..]));
      Base64RoundTrip(v[3..]);
      assert v == [v[0], v[1], v[2]] + v[3..];
    } else {
      LastGroup(v);
    }
  }

  lemma {:induction false} LastGroup(v: Bytes)
    requires |v| < 3
    ensures UnBase64(Base64(v)) == v
  {
    if |v| == 1 {
      GroupRoundTrip(v[0], 0, 0);
      assert v == [v[0]];
    } else if |v| == 2 {
      GroupRoundTrip(v[0], v[1], 0);
      assert v == [v[0], v[1]];
    }
  }

  /** The text before the first quote, and what follows the quote. */
  function ReadToQuote(b: Bytes): (r: Option<(Bytes, Bytes)>) {
    if b == [] then None
    else if b[0] == QUOTE then Some(([], b[1..]))
    else match ReadToQuote(b[1..])
      case None => None
      case Some((t, rest)) => Some(([b[0]] + t, rest))
  }

  lemma {:induction false} ReadQuoteFree(t: Bytes, rest: Bytes)
    requires QUOTE !in t
    ensures ReadToQuote(t + [QUOTE] + rest) == Some((t, rest))
  {
    var b := t + [QUOTE] + rest;
    if t == [] {
      assert b[1..] == rest;
    } else {
      assert b[1..] == t[1..] + [QUOTE] + rest;
      ReadQuoteFree(t[1..], rest);
      assert [t[0]] + t[1..] == t;
    }
  }

  // ----- Records -----

  /** The fixed text before the key of a put, before the key of a delete, and before the value. */
  datatype Syntax = Syntax(put: Bytes, delete: Bytes, value: Bytes)

  /** A record opens with a brace, a quote and one more byte, and has no other brace in its fixed text. */
  predicate GoodSyntax(x: Syntax) {
    && |x.put| > 7 && |x.delete| > 7 && x.put[7] != x.delete[7]
    && |x.value| > 0 && x.value[0] != CLOSE
    && x.put[0] == x.delete[0] == OPEN && x.put[1] == x.delete[1] == QUOTE
    && x.put[2] == x.delete[2] && x.put[2] != CLOSE && x.put[2] != x.value[0]
    && OPEN !in x.put[1..] && OPEN !in x.delete[1..] && OPEN !in x.value
    && OneLine(x.put) && OneLine(x.delete) && OneLine(x.value)
  }

  function ValueField(x: Syntax, v: Bytes): Bytes {
    if v == [] then [] else x.value + Base64(v) + [QUOTE]
  }

  function EncodeWith(x: Syntax, r: Record<Bytes>): Bytes {
    match r
    case Put(k, v) => x.put + (Escape(k) + [QUOTE] + (ValueField(x, v) + [CLOSE]))
    case Delete(k) => x.delete + (Escape(k) + [QUOTE] + [CLOSE])
    case UnknownOp => []
  }

  function ReadValueField(x: Syntax, b: Bytes): Option<(Bytes, Bytes)> {
    if b == [] then None
    else if b[0] == CLOSE then Some(([], b[1..]))
    else if !(x.value <= b) then None
    else match ReadToQuote(b[|x.value|..])
      case None => None
      case Some((t, rest)) =>
        if rest != [] && rest[0] == CLOSE then Some((UnBase64(t), rest[1..])) else None
  }

  /** What follows the fixed text of a put: its key and value. */
  function ReadPutBody(x: Syntax, b: Bytes): (r: Option<(Record<Bytes>, Bytes)>)
    ensures r.Some? ==> r.value.0.Put?
  {
    match ReadString(b)
    case None => None
    case Some((k, rest)) =>
      match ReadValueField(x, rest)
      case None => None
      case Some((v, after)) => Some((Put(k, v), after))
  }

  function ReadDeleteBody(b: Bytes): (r: Option<(Record<Bytes>, Bytes)>)
    ensures r.Some? ==> r.value.0.Delete?
  {
    match ReadString(b)
    case None => None
    case Some((k, rest)) =>
      if rest != [] && rest[0] == CLOSE then Some((Delete(k), rest[1..])) else None
  }

  function ReadRecord(x: Syntax, b: Bytes): (r: Option<(Record<Bytes>, Bytes)>)
    ensures r.Some? ==> !r.value.0.UnknownOp?
  {
    if x.put <= b then ReadPutBody(x, b[|x.put|..])
    else if x.delete <= b then ReadDeleteBody(b[|x.delete|..])
    else None
  }

  function DecodeWith(x: Syntax, b: Bytes): Option<Record<Bytes>> {
    match ReadRecord(x, b)
    case None => None
    case Some((r, rest)) => if rest == [] then Some(r) else None
  }

  lemma {:induction false} ReadValue(x: Syntax, v: Bytes, rest: Bytes)
    requires GoodSyntax(x)
    ensures ReadValueField(x, ValueField(x, v) + [CLOSE] + rest) == Some((v, rest))
  {
    var b := ValueField(x, v) + [CLOSE] + rest;
    if v == [] {
      assert b[1..] == rest;
    } else {
      var t := Base64(v);
      assert b == x.value + (t + [QUOTE] + ([CLOSE] + rest));
      assert b[0] == x.value[0];
      assert b[|x.value|..] == t + [QUOTE] + ([CLOSE] + rest);
      ReadQuoteFree(t, [CLOSE] + rest);
      assert ([CLOSE] + rest)[1..] == rest;
      Base64RoundTrip(v);
    }
  }

  lemma {:induction false} ReadPut(x: Syntax, k: string, v: Bytes, rest: Bytes)
    requires GoodSyntax(x)
    ensures ReadRecord(x, EncodeWith(x, Put(k, v)) + rest) == Some((Put(k, v), rest))
  {
    var b, after := EncodeWith(x, Put(k, v)) + rest, ValueField(x, v) + [CLOSE] + rest;
    assert b == x.put + (Escape(k) + [QUOTE] + after);
    assert b[|x.put|..] == Escape(k) + [QUOTE] + after;
    ReadEscaped(k, after);
    ReadValue(x, v, rest);
  }

  lemma {:induction false} ReadDelete(x: Syntax, k: string, rest: Bytes)
    requires GoodSyntax(x)
    ensures ReadRecord(x, EncodeWith(x, Delete(k)) + rest) == Some((Delete(k), rest))
  {
    var b, after := EncodeWith(x, Delete(k)) + rest, [CLOSE] + rest;
    assert b == x.delete + (Escape(k) + [QUOTE] + after);
    assert b[|x.delete|..] == Escape(k) + [QUOTE] + after;
    assert b[7] == x.delete[7];
    ReadEscaped(k, after);
    assert after[1..] == rest;
  }

  /** Reading a record back, whatever follows it. */
  lemma {:induction false} ReadEncoded(x: Syntax, r: Record<Bytes>, rest: Bytes)
    requires GoodSyntax(x) && !r.UnknownOp?
    ensures ReadRecord(x, EncodeWith(x, r) + rest) == Some((r, rest))
  {
    match r
    case Put(k, v) => ReadPut(x, k, v, rest);
    case Delete(k) => ReadDelete(x, k, rest);
  }

  lemma {:induction false} EncodedOnOneLine(x: Syntax, r: Record<Bytes>)
    requires GoodSyntax(x)
    ensures OneLine(EncodeWith(x, r))
  {
    if r.Put? {
      assert OneLine(ValueField(x, r.value));
      assert OneLine(Escape(r.key) + [QUOTE] + (ValueField(x, r.value) + [CLOSE]));
    }
  }

  // ----- Reading more input -----

  lemma {:induction false} ReadEscapeStable(b: Bytes, more: Bytes)
    requires b != [] && b[0] == BACKSLASH && ReadEscape(b).Some?
    ensures ReadEscape(b + more) == ReadEscape(b)
  {
    var t := b + more;
    assert t[0] == b[0] && t[1] == b[1];
    if b[1] == 117 {
      assert t[2] == b[2] && t[3] == b[3] && t[4] == b[4] && t[5] == b[5];
    }
  }

  lemma {:induction false} ReadUtf8Stable(b: Bytes, more: Bytes)
    requires b != [] && ReadUtf8(b).Some?
    ensures ReadUtf8(b + more) == ReadUtf8(b)
  {
    var t := b + more;
    assert forall i :: 0 <= i < |b| ==> t[i] == b[i];
  }

  /** What follows a complete character, string, value or record does not change how it reads. */
  lemma {:induction false} ReadCharStable(b: Bytes, more: Bytes)
    requires b != [] && ReadChar(b).Some?
    ensures ReadChar(b + more) == ReadChar(b)
  {
    assert (b + more)[0] == b[0];
    if b[0] == BACKSLASH {
      ReadEscapeStable(b, more);
    } else {
      ReadUtf8Stable(b, more);
    }
  }

  lemma {:induction false} ReadStringStable(b: Bytes, more: Bytes)
    requires ReadString(b).Some?
    ensures ReadString(b + more) == Some((ReadString(b).value.0, ReadString(b).value.1 + more))
    decreases |b|
  {
    var t := b + more;
    assert t[0] == b[0];
    if b[0] == QUOTE {
      assert t[1..] == b[1..] + more;
    } else {
      var k := ReadChar(b).value.1;
      ReadCharStable(b, more);
      assert t[k..] == b[k..] + more;
      ReadStringStable(b[k..], more);
    }
  }

  lemma {:induction false} ReadToQuoteStable(b: Bytes, more: Bytes)
    requires ReadToQuote(b).Some?
    ensures ReadToQuote(b + more) == Some((ReadToQuote(b).value.0, ReadToQuote(b).value.1 + more))
    decreases |b|
  {
    var t := b + more;
    assert t[0] == b[0] && t[1..] == b[1..] + more;
    if b[0] != QUOTE {
      ReadToQuoteStable(b[1..], more);
    }
  }

  lemma {:induction false} ReadValueStable(x: Syntax, b: Bytes, more: Bytes)
    requires ReadValueField(x, b).Some?
    ensures ReadValueField(x, b + more)
         == Some((ReadValueField(x, b).value.0, ReadValueField(x, b).value.1 + more))
  {
    var t := b + more;
    assert t[0] == b[0];
    if b[0] == CLOSE {
      assert t[1..] == b[1..] + more;
    } else {
      assert t[|x.value|..] == b[|x.value|..] + more;
      ReadToQuoteStable(b[|x.value|..], more);
      var rest := ReadToQuote(b[|x.value|..]).value.1;
      assert (rest + more)[0] == rest[0] && (rest + more)[1..] == rest[1..] + more;
    }
  }

  lemma {:induction false} ReadPutBodyStable(x: Syntax, b: Bytes, more: Bytes)
    requires ReadPutBody(x, b).Some?
    ensures ReadPutBody(x, b + more) == Some((ReadPutBody(x, b).value.0, ReadPutBody(x, b).value.1 + more))
  {
    ReadStringStable(b, more);
    ReadValueStable(x, ReadString(b).value.1, more);
  }

  lemma {:induction false} ReadDeleteBodyStable(b: Bytes, more: Bytes)
    requires ReadDeleteBody(b).Some?
    ensures ReadDeleteBody(b + more) == Some((ReadDeleteBody(b).value.0, ReadDeleteBody(b).value.1 + more))
  {
    ReadStringStable(b, more);
    var rest := ReadString(b).value.1;
    assert (rest + more)[0] == rest[0] && (rest + more)[1..] == rest[1..] + more;
  }

  lemma {:induction false} ReadRecordStable(x: Syntax, b: Bytes, more: Bytes)
    requires GoodSyntax(x) && ReadRecord(x, b).Some?
    ensures ReadRecord(x, b + more) == Some((ReadRecord(x, b).value.0, ReadRecord(x, b).value.1 + more))
  {
    var t := b + more;
    if x.put <= b {
      assert t[|x.put|..] == b[|x.put|..] + more;
      ReadPutBodyStable(x, b[|x.put|..], more);
    } else {
      assert t[7] == b[7] == x.delete[7];
      assert t[|x.delete|..] == b[|x.delete|..] + more;
      ReadDeleteBodyStable(b[|x.delete|..], more);
    }
  }

  /** If bytes read as a record with nothing left, no proper prefix of them does. */
  lemma {:induction false} NoPrefixReads(x: Syntax, e: Bytes, r: Record<Bytes>, k: nat)
    requires GoodSyntax(x) && ReadRecord(x, e) == Some((r, [])) && k < |e|
    ensures DecodeWith(x, e[..k]) == None
  {
    var p, more := e[..k], e[k..];
    assert p + more == e;
    if ReadRecord(x, p).Some? {
      ReadRecordStable(x, p, more);
    }
  }

  lemma {:induction false} ReadWhole(x: Syntax, r: Record<Bytes>)
    requires GoodSyntax(x) && !r.UnknownOp?
    ensures ReadRecord(x, EncodeWith(x, r)) == Some((r, []))
  {
    ReadEncoded(x, r, []);
    assert EncodeWith(x, r) + [] == EncodeWith(x, r);
  }

  lemma {:induction false} PrefixDoesNotDecode(x: Syntax, r: Record<Bytes>, k: nat)
    requires GoodSyntax(x) && !r.UnknownOp? && k < |EncodeWith(x, r)|
    ensures DecodeWith(x, EncodeWith(x, r)[..k]) == None
  {
    ReadWhole(x, r);
    NoPrefixReads(x, EncodeWith(x, r), r, k);
  }

  // ----- Records cut off and run together -----

  /** How pieces of records begin: braces, then perhaps a quote and the third byte or another brace. */
  predicate Starts(x: Syntax, b: Bytes)
    requires GoodSyntax(x)
  {
    b != [] && b[0] == OPEN &&
    (|| |b| == 1
     || (b[1] == QUOTE && (|b| == 2 || b[2] == OPEN || b[2] == x.put[2]))
     || (b[1] != QUOTE && Starts(x, b[1..])))
  }

  /** Neither the end of a record nor a value follows. */
  predicate NoField(x: Syntax, b: Bytes)
    requires GoodSyntax(x)
  {
    b == [] || (b[0] != CLOSE && b[0] != x.value[0])
  }

  lemma {:induction false} PieceStarts(x: Syntax, r: Record<Bytes>, k: nat, rest: Bytes)
    requires GoodSyntax(x) && !r.UnknownOp? && 0 < k <= |EncodeWith(x, r)|
    requires rest == [] || Starts(x, rest)
    ensures Starts(x, EncodeWith(x, r)[..k] + rest)
  {
    var e := EncodeWith(x, r);
    assert e[0] == OPEN && e[1] == QUOTE && e[2] == x.put[2];
    var b := e[..k] + rest;
    assert b[0] == OPEN;
    if k == 1 {
      assert b[1..] == rest;
    } else if k == 2 {
      assert b[1] == QUOTE && (|b| > 2 ==> b[2] == rest[0]);
    } else {
      assert b[1] == QUOTE && b[2] == x.put[2];
    }
  }

  lemma {:induction false} StartEndsNothing(x: Syntax, b: Bytes)
    requires GoodSyntax(x) && Starts(x, b)
    ensures ReadString(b).Some? ==> NoField(x, ReadString(b).value.1)
    ensures ReadToQuote(b).Some? ==> NoField(x, ReadToQuote(b).value.1)
  {
    assert ReadChar(b) == Some(('{', 1));
    if |b| == 1 {
      assert b[1..] == [];
    } else if b[1] == QUOTE {
      assert b[1..][1..] == b[2..] && b[1..][0] == QUOTE;
    } else {
      StartEndsNothing(x, b[1..]);
    }
  }

  /** Continuation bytes left over from a character that was cut off. */
  lemma {:induction false} LeftOver(x: Syntax, p: Bytes, rest: Bytes)
    requires GoodSyntax(x) && Starts(x, rest) && forall i :: 0 <= i < |p| ==> Continues(p[i])
    ensures ReadString(p + rest).Some? ==> NoField(x, ReadString(p + rest).value.1)
  {
    if p == [] {
      assert p + rest == rest;
      StartEndsNothing(x, rest);
    } else {
      var b := p + rest;
      assert b[0] == p[0] && b[1..] == p[1..] + rest;
      assert ReadChar(b) == Some((REPLACEMENT, 1));
      LeftOver(x, p[1..], rest);
    }
  }

  lemma {:induction false} EscapeShape(c: char)
    ensures var e := EscapeChar(c);
            || |e| == 1
            || (e[0] == BACKSLASH && (|e| == 2 || (|e| == 6 && e[1] == 117)))
            || (e[0] >= 0xC0 && (forall i :: 0 < i < |e| ==> Continues(e[i]))
                && |e| == if e[0] < 0xE0 then 2 else if e[0] < 0xF0 then 3 else 4)
  {
  }

  /** A character cut off before another record. */
  lemma {:induction false} CutChar(x: Syntax, c: char, m: nat, rest: Bytes)
    requires GoodSyntax(x) && Starts(x, rest) && 0 < m < |EscapeChar(c)|
    ensures ReadString(EscapeChar(c)[..m] + rest).Some? ==>
              NoField(x, ReadString(EscapeChar(c)[..m] + rest).value.1)
  {
    var e := EscapeChar(c);
    var b := e[..m] + rest;
    EscapeShape(c);
    assert b[0] == e[0] && b[m] == rest[0] == OPEN;
    if e[0] == BACKSLASH {
      assert m > 1 ==> b[1] == e[1] == 117;
      assert UnHex(OPEN) == None && UnShortEscape(OPEN) == None;
      assert ReadEscape(b) == None;
    } else {
      assert forall i :: 0 < i < m ==> b[i] == e[i];
      assert ReadChar(b) == Some((REPLACEMENT, 1));
      assert b[1..] == e[1..m] + rest;
      LeftOver(x, e[1..m], rest);
    }
  }

  lemma {:induction false} CutAppend(a: Bytes, b: Bytes, m: nat, rest: Bytes)
    requires |a| <= m <= |a| + |b|
    ensures (a + b)[..m] + rest == a + (b[..m - |a|] + rest)
  {
  }

  lemma {:induction false} ReadOne(c: char, tail: Bytes)
    ensures ReadString(EscapeChar(c) + tail)
         == match ReadString(tail)
            case None => None
            case Some((s, rest)) => Some(([c] + s, rest))
  {
    var b := EscapeChar(c) + tail;
    ReadEscapedChar(c, tail);
    assert b[0] == EscapeChar(c)[0] && b[|EscapeChar(c)|..] == tail;
  }

  /** A key cut off before another record. */
  lemma {:induction false} CutKey(x: Syntax, k: string, m: nat, rest: Bytes)
    requires GoodSyntax(x) && Starts(x, rest) && m <= |Escape(k)|
    ensures ReadString(Escape(k)[..m] + rest).Some? ==> NoField(x, ReadString(Escape(k)[..m] + rest).value.1)
  {
    var b := Escape(k)[..m] + rest;
    if m == 0 {
      assert b == rest;
      StartEndsNothing(x, rest);
    } else {
      var e := EscapeChar(k[0]);
      if m < |e| {
        assert Escape(k)[..m] == e[..m];
        CutChar(x, k[0], m, rest);
      } else {
        var tail := Escape(k[1..])[..m - |e|] + rest;
        CutAppend(e, Escape(k[1..]), m, rest);
        ReadOne(k[0], tail);
        CutKey(x, k[1..], m - |e|, rest);
      }
    }
  }

  /** A text without quotes cut off before another record. */
  lemma {:induction false} CutText(x: Syntax, t: Bytes, rest: Bytes)
    requires GoodSyntax(x) && Starts(x, rest) && QUOTE !in t
    ensures ReadToQuote(t + rest).Some? ==> NoField(x, ReadToQuote(t + rest).value.1)
  {
    if t == [] {
      assert t + rest == rest;
      StartEndsNothing(x, rest);
    } else {
      assert (t + rest)[0] == t[0] && (t + rest)[1..] == t[1..] + rest;
      CutText(x, t[1..], rest);
    }
  }

  lemma {:induction false} CutValue(x: Syntax, v: Bytes, m: nat, rest: Bytes)
    requires GoodSyntax(x) && Starts(x, rest) && m <= |ValueField(x, v)|
    ensures ReadValueField(x, ValueField(x, v)[..m] + rest) == None
  {
    var f, t := ValueField(x, v), Base64(v);
    var b := f[..m] + rest;
    assert b[m] == rest[0] == OPEN;
    if m == 0 {
      assert b == rest;
    } else if m < |x.value| {
      assert b[0] == x.value[0] && x.value[m] in x.value;
    } else {
      var n := m - |x.value|;
      assert f == x.value + (t + [QUOTE]);
      assert b[|x.value|..] == (t + [QUOTE])[..n] + rest;
      assert b[0] == x.value[0];
      if n <= |t| {
        assert (t + [QUOTE])[..n] == t[..n];
        CutText(x, t[..n], rest);
      } else {
        assert (t + [QUOTE])[..n] + rest == t + [QUOTE] + rest;
        ReadQuoteFree(t, rest);
      }
    }
  }

  /** The fixed text of a record cut off before another. */
  lemma {:induction false} CutFixed(x: Syntax, fixed: Bytes, k: nat, rest: Bytes)
    requires GoodSyntax(x) && Starts(x, rest) && fixed in {x.put, x.delete} && 0 < k < |fixed|
    ensures ReadRecord(x, fixed[..k] + rest) == None
  {
    var b := fixed[..k] + rest;
    assert b[k] == OPEN;
    assert k > 7 ==> b[7] == fixed[7];
    assert k < |x.put| ==> x.put[k] == x.put[1..][k - 1];
    assert k < |x.delete| ==> x.delete[k] == x.delete[1..][k - 1];
  }

  lemma {:induction false} ReadAfterPut(x: Syntax, body: Bytes)
    ensures ReadRecord(x, x.put + body) == ReadPutBody(x, body)
  {
    assert (x.put + body)[|x.put|..] == body;
  }

  lemma {:induction false} ReadAfterDelete(x: Syntax, body: Bytes)
    requires GoodSyntax(x)
    ensures ReadRecord(x, x.delete + body) == ReadDeleteBody(body)
  {
    var b := x.delete + body;
    assert b[7] == x.delete[7] && b[|x.delete|..] == body;
  }

  /** A key and its closing quote, and then a beginning of what comes after it. */
  lemma {:induction false} CutAfterKey(key: string, after: Bytes, n: nat, rest: Bytes)
    requires n <= |after|
    ensures var body := Escape(key) + [QUOTE] + after;
            ReadString(body[..|Escape(key)| + 1 + n] + rest) == Some((key, after[..n] + rest))
  {
    CutAppend(Escape(key) + [QUOTE], after, |Escape(key)| + 1 + n, rest);
    ReadEscaped(key, after[..n] + rest);
  }

  lemma {:induction false} CutInKey(x: Syntax, key: string, after: Bytes, m: nat, rest: Bytes)
    requires GoodSyntax(x) && Starts(x, rest) && m <= |Escape(key)|
    ensures var r := ReadString((Escape(key) + [QUOTE] + after)[..m] + rest);
            r.Some? ==> NoField(x, r.value.1)
  {
    assert (Escape(key) + [QUOTE] + after)[..m] == Escape(key)[..m];
    CutKey(x, key, m, rest);
  }

  lemma {:induction false} CutPutBody(x: Syntax, key: string, v: Bytes, m: nat, rest: Bytes)
    requires GoodSyntax(x) && Starts(x, rest) && m <= |Escape(key)| + 1 + |ValueField(x, v)|
    ensures ReadPutBody(x, (Escape(key) + [QUOTE] + (ValueField(x, v) + [CLOSE]))[..m] + rest) == None
  {
    var after := ValueField(x, v) + [CLOSE];
    if m <= |Escape(key)| {
      CutInKey(x, key, after, m, rest);
    } else {
      var n := m - |Escape(key)| - 1;
      CutAfterKey(key, after, n, rest);
      assert after[..n] == ValueField(x, v)[..n];
      CutValue(x, v, n, rest);
    }
  }

  lemma {:induction false} CutDeleteBody(x: Syntax, key: string, m: nat, rest: Bytes)
    requires GoodSyntax(x) && Starts(x, rest) && m <= |Escape(key)| + 1
    ensures ReadDeleteBody((Escape(key) + [QUOTE] + [CLOSE])[..m] + rest) == None
  {
    if m <= |Escape(key)| {
      CutInKey(x, key, [CLOSE], m, rest);
    } else {
      CutAfterKey(key, [CLOSE], 0, rest);
    }
  }

  /** A record cut off before another does not read. */
  lemma {:induction false} CutRecord(x: Syntax, r: Record<Bytes>, k: nat, rest: Bytes)
    requires GoodSyntax(x) && Starts(x, rest) && !r.UnknownOp? && 0 < k < |EncodeWith(x, r)|
    ensures ReadRecord(x, EncodeWith(x, r)[..k] + rest) == None
  {
    var fixed := if r.Put? then x.put else x.delete;
    var body := EncodeWith(x, r)[|fixed|..];
    assert EncodeWith(x, r) == fixed + body;
    if k < |fixed| {
      assert (fixed + body)[..k] == fixed[..k];
      CutFixed(x, fixed, k, rest);
    } else {
      CutAppend(fixed, body, k, rest);
      match r
      case Put(key, v) =>
        ReadAfterPut(x, body[..k - |fixed|] + rest);
        CutPutBody(x, key, v, k - |fixed|, rest);
      case Delete(key) =>
        ReadAfterDelete(x, body[..k - |fixed|] + rest);
        CutDeleteBody(x, key, k - |fixed|, rest);
    }
  }

  /** A record or a beginning of one, run into pieces of others, does not decode. */
  lemma {:induction false} RunTogether(x: Syntax, r: Record<Bytes>, k: nat, rest: Bytes)
    requires GoodSyntax(x) && !r.UnknownOp? && 0 < k <= |EncodeWith(x, r)| && Starts(x, rest)
    ensures DecodeWith(x, EncodeWith(x, r)[..k] + rest) == None
  {
    if k == |EncodeWith(x, r)| {
      assert EncodeWith(x, r)[..k] == EncodeWith(x, r);
      ReadEncoded(x, r, rest);
    } else {
      CutRecord(x, r, k, rest);
    }
  }

  lemma {:induction false} PiecesStart(x: Syntax, ps: seq<Bytes>)
    requires GoodSyntax(x) && Pieces(CodecOf(x), ps) && ps != []
    ensures Starts(x, Concat(ps))
  {
    var rest: seq<Bytes> := ps[1..];
    ConcatFirst(ps);
    if rest == [] {
    } else {
      assert forall i :: 0 <= i < |rest| ==> rest[i] == ps[i + 1];
      PiecesStart(x, rest);
    }
    assert IsPiece(CodecOf(x), ps[0]);
    var r: Record<Bytes>, k :| !r.UnknownOp? && 0 < k <= |CodecOf(x).encode(r)| && ps[0] == CodecOf(x).encode(r)[..k];
    PieceStarts(x, r, k, Concat(rest));
  }

  lemma {:induction false} ConcatFirst(ps: seq<Bytes>)
    requires ps != []
    ensures Concat(ps) == ps[0] + Concat(ps[1..])
  {
    var one: seq<Bytes> := [ps[0]];
    assert ps == one + ps[1..];
    ConcatBoth(one, ps[1..]);
    assert one[..0] == [];
    assert Concat(one) == Concat([]) + ps[0] == ps[0];
  }

  lemma {:induction false} PiecesDoNotDecode(x: Syntax, ps: seq<Bytes>)
    requires GoodSyntax(x) && Pieces(CodecOf(x), ps) && |ps| >= 2
    ensures DecodeWith(x, Concat(ps)) == None
  {
    var rest: seq<Bytes> := ps[1..];
    ConcatFirst(ps);
    assert forall i :: 0 <= i < |rest| ==> rest[i] == ps[i + 1];
    PiecesStart(x, rest);
    assert IsPiece(CodecOf(x), ps[0]);
    var r: Record<Bytes>, k :| !r.UnknownOp? && 0 < k <= |CodecOf(x).encode(r)| && ps[0] == CodecOf(x).encode(r)[..k];
    RunTogether(x, r, k, Concat(rest));
  }

  function CodecOf(x: Syntax): Codec<Bytes> {
    Codec(r => EncodeWith(x, r), b => DecodeWith(x, b))
  }

  lemma {:induction false} SyntaxGivesCodec(x: Syntax)
    requires GoodSyntax(x)
    ensures ValidCodec(CodecOf(x))
  {
    var c := CodecOf(x);
    forall r: Record<Bytes> | !r.UnknownOp? ensures c.decode(c.encode(r)) == Some(r) {
      ReadWhole(x, r);
    }
    forall r: Record<Bytes>, i | 0 <= i < |c.encode(r)| ensures c.encode(r)[i] != LF && c.encode(r)[i] != CR {
      EncodedOnOneLine(x, r);
    }
    forall r: Record<Bytes>, k | !r.UnknownOp? && 0 < k < |c.encode(r)| ensures c.decode(c.encode(r)[..k]) == None {
      PrefixDoesNotDecode(x, r, k);
    }
    forall ps | |ps| >= 2 && Pieces(c, ps) ensures c.decode(Concat(ps)) == None {
      PiecesDoNotDecode(x, ps);
    }
  }

  /** The text Go's encoder puts around the fields of a record. */
  function GoSyntax(): Syntax {
    Syntax(Ascii("{\"op\":\"put\",\"key\":\""), Ascii("{\"op\":\"delete\",\"key\":\""), Ascii(",\"value\":\""))
  }

  lemma {:induction false} PutText()
    ensures var b := GoSyntax().put;
            |b| > 7 && b[0] == OPEN && b[1] == QUOTE && b[2] == 111 && b[7] == 112 && OPEN !in b[1..] && OneLine(b)
  {
  }

  lemma {:induction false} DeleteText()
    ensures var b := GoSyntax().delete;
            |b| > 7 && b[0] == OPEN && b[1] == QUOTE && b[2] == 111 && b[7] == 100 && OPEN !in b[1..] && OneLine(b)
  {
  }

  lemma {:induction false} ValueText()
    ensures var b := GoSyntax().value; b != [] && b[0] == 44 && OPEN !in b && OneLine(b)
  {
  }

  lemma {:induction false} GoSyntaxIsGood()
    ensures GoodSyntax(GoSyntax())
  {
    PutText();
    DeleteText();
    ValueText();
  }

  /** The encoding the store writes is a valid codec. */
  lemma {:induction false} JsonIsValid()
    ensures ValidCodec(CodecOf(GoSyntax()))
  {
    GoSyntaxIsGood();
    SyntaxGivesCodec(GoSyntax());
  }

  // ----- The text of a record -----

  lemma {:induction false} SyntaxText()
    ensures GoSyntax().put == Ascii("{\"op\":\"put\",\"key\":\"") && |GoSyntax().put| == 19
    ensures GoSyntax().delete == Ascii("{\"op\":\"delete\",\"key\":\"") && |GoSyntax().delete| == 22
    ensures GoSyntax().value == Ascii(",\"value\":\"") && |GoSyntax().value| == 10
  {
  }

  /** The bytes of a record, field by field. */
  lemma {:induction false} RecordText(k: string, v: Bytes)
    ensures EncodeWith(GoSyntax(), Put(k, v))
         == GoSyntax().put + Escape(k) + [34] + (if v == [] then [] else GoSyntax().value + Base64(v) + [34]) + [125]
    ensures EncodeWith(GoSyntax(), Delete(k)) == GoSyntax().delete + Escape(k) + [34] + [125]
  {
  }

  /** Characters that need no escape are written as they are. */
  predicate IsPlain(c: char) {
    32 <= c as int < 128 && c !in {'"', '\\', '<', '>', '&'}
  }

  lemma {:induction false} PlainText(s: string)
    requires forall i :: 0 <= i < |s| ==> IsPlain(s[i])
    ensures IsAscii(s) && Escape(s) == Ascii(s)
  {
    if s == "" {
    } else {
      PlainText(s[1..]);
      assert EscapeChar(s[0]) == [s[0] as int as byte];
      assert Ascii(s) == [s[0] as int as byte] + Ascii(s[1..]);
    }
  }

  /** The two-character escapes. */
  lemma {:induction false} ShortEscapeText()
    ensures EscapeChar('"') == [92, 34] && EscapeChar('\\') == [92, 92]
    ensures EscapeChar('\n') == [92, 'n' as int] && EscapeChar('\r') == [92, 'r' as int]
    ensures EscapeChar('\t') == [92, 't' as int]
    ensures EscapeChar(8 as char) == [92, 'b' as int] && EscapeChar(12 as char) == [92, 'f' as int]
  {
  }

  /** A six-character escape: backslash, u and four hexadecimal digits. */
  lemma {:induction false} LongEscapeText(c: char)
    requires (c as int < 32 && c as int !in {8, 9, 10, 12, 13}) || c in {'<', '>', '&'} || c as int in {0x2028, 0x2029}
    ensures var b := EscapeChar(c);
            && |b| == 6 && b[0] == 92 && b[1] == 'u' as int
            && forall i :: 2 <= i < 6 ==> UnHex(b[i]).Some?
    ensures c == '<' ==> EscapeChar(c)[2..] == ['0' as int, '0' as int, '3' as int, 'c' as int]
    ensures c == '&' ==> EscapeChar(c)[2..] == ['0' as int, '0' as int, '2' as int, '6' as int]
    ensures c as int == 0x2028 ==> EscapeChar(c)[2..] == ['2' as int, '0' as int, '2' as int, '8' as int]
  {
    HexDigits(c as int);
    HexRoundTrip(c as int / 4096);
    HexRoundTrip(c as int / 256 % 16);
    HexRoundTrip(c as int / 16 % 16);
    HexRoundTrip(c as int % 16);
  }

  lemma {:induction false} Utf8Two(c: char)
    requires 128 <= c as int < 0x800
    ensures var b := EscapeChar(c);
            && |b| == 2 && 192 <= b[0] && 128 <= b[1] < 192
            && c as int == (b[0] as int - 192) * 64 + (b[1] as int - 128)
  {
  }

  lemma {:induction false} Utf8Three(c: char)
    requires 0x800 <= c as int < 0x1_0000 && c as int != 0x2028 && c as int != 0x2029
    ensures var b := EscapeChar(c);
            && |b| == 3 && 224 <= b[0] && 128 <= b[1] < 192 && 128 <= b[2] < 192
            && c as int == (b[0] as int - 224) * 4096 + (b[1] as int - 128) * 64 + (b[2] as int - 128)
  {
    SixBitDigits(c as int);
  }

  lemma {:induction false} Utf8Four(c: char)
    requires 0x1_0000 <= c as int
    ensures var b := EscapeChar(c);
            && |b| == 4 && 240 <= b[0] && 128 <= b[1] < 192 && 128 <= b[2] < 192 && 128 <= b[3] < 192
            && c as int
               == (b[0] as int - 240) * 0x4_0000 + (b[1] as int - 128) * 4096 + (b[2] as int - 128) * 64
                  + (b[3] as int - 128)
  {
    SixBitDigits(c as int);
  }

  /** The alphabet of base64. */
  lemma {:induction false} DigitText(x: int)
    requires 0 <= x < 64
    ensures x < 26 ==> Digit(x) == 'A' as int + x
    ensures 26 <= x < 52 ==> Digit(x) == 'a' as int + (x - 26)
    ensures 52 <= x < 62 ==> Digit(x) == '0' as int + (x - 52)
    ensures x == 62 ==> Digit(x) == '+' as int
    ensures x == 63 ==> Digit(x) == '/' as int
    ensures PAD == '=' as int
  {
  }

  /** Three bytes are four digits of the number they form; one or two are padded. */
  lemma {:induction false} Base64Text(x: byte, y: byte, z: byte, rest: Bytes)
    ensures var n := x * 65536 + y * 256 + z;
            Base64([x, y, z] + rest)
            == [Digit(n / 262144), Digit(n / 4096 % 64), Digit(n / 64 % 64), Digit(n % 64)] + Base64(rest)
    ensures Base64([x]) == [Digit(x / 4), Digit(x % 4 * 16), 61, 61]
    ensures Base64([x, y]) == [Digit((x * 256 + y) / 1024), Digit((x * 256 + y) / 16 % 64), Digit(y % 16 * 4), 61]
  {
    var v := [x, y, z] + rest;
    assert v[0] == x && v[1] == y && v[2] == z && v[3..] == rest;
    TopBits(x, y, z);
  }

  lemma {:induction false} TopBits(x: byte, y: byte, z: byte)
    ensures var n := x * 65536 + y * 256 + z;
            && n / 262144 == x / 4 && n / 4096 % 64 == x % 4 * 16 + y / 16
            && n / 64 % 64 == y % 16 * 4 + z / 64 && n % 64 == z % 64
    ensures (x * 256 + y) / 1024 == x / 4 && (x * 256 + y) / 16 % 64 == x % 4 * 16 + y / 16
  {
    var n := x * 65536 + y * 256 + z;
    DivModIs(n, 262144, x / 4, x % 4 * 65536 + y * 256 + z);
    DivModIs(n, 4096, x * 16 + y / 16, y % 16 * 256 + z);
    DivModIs(x * 16 + y / 16, 64, x / 4, x % 4 * 16 + y / 16);
    DivModIs(n, 64, x * 1024 + y * 4 + z / 64, z % 64);
    DivModIs(x * 1024 + y * 4 + z / 64, 64, x * 16 + y / 16, y % 16 * 4 + z / 64);
    DivModIs(x * 256 + y, 1024, x / 4, x % 4 * 256 + y);
    DivModIs(x * 256 + y, 16, x * 16 + y / 16, y % 16);
  }

  // ----- Records short enough for the scanner -----

  lemma {:induction false} EscapeLength(k: string)
    ensures |Escape(k)| <= 6 * |k|
  {
    if k == "" {
    } else {
      EscapeLength(k[1..]);
      EscapeShape(k[0]);
    }
  }

  /** How long the record of a write can be, from the lengths of its key and value alone. */
  function LengthBound(w: Write<Bytes>): nat {
    match w
    case WritePut(k, v) => 6 * |k| + (|v| + 2) / 3 * 4 + 32
    case WriteDelete(k) => 6 * |k| + 24
  }

  lemma {:induction false} LengthWithinBound(k: string, v: Bytes)
    ensures |EncodeWith(GoSyntax(), Put(k, v))| <= 6 * |k| + (|v| + 2) / 3 * 4 + 32
    ensures |EncodeWith(GoSyntax(), Delete(k))| <= 6 * |k| + 24
  {
    SyntaxText();
    EscapeLength(k);
    Base64Length(v);
  }

  /** A record within the bound is read back: a put as its key and value, a delete as nothing. */
  lemma {:induction false} ShortRecordReopens(k: string, v: Bytes)
    ensures var c := CodecOf(GoSyntax());
            && (6 * |k| + (|v| + 2) / 3 * 4 + 32 < 65536 ==> Replay(c, Framed(c, Put(k, v))) == Ok(map[k := v]))
            && (6 * |k| + 24 < 65536 ==> Replay(c, Framed(c, Delete(k))) == Ok(map[]))
  {
    var c := CodecOf(GoSyntax());
    var put, delete: Record<Bytes> := Put(k, v), Delete(k);
    JsonIsValid();
    LengthWithinBound(k, v);
    OneRecordReplays(c, put);
    OneRecordReplays(c, delete);
  }

  lemma {:induction false} WrittenAreShort(ops: seq<Op<Bytes>>)
    requires forall i :: 0 <= i < |ops| ==> ops[i].Restart? || (ops[i].Do? && LengthBound(ops[i].write) < 65536)
    ensures AllFit(CodecOf(GoSyntax()), Written(CodecOf(GoSyntax()), ops))
  {
    if ops == [] {
    } else {
      var last := ops[|ops| - 1];
      WrittenAreShort(ops[..|ops| - 1]);
      if last.Do? {
        LengthWithinBound(last.write.key, if last.write.WritePut? then last.write.value else []);
      }
    }
  }

  /** A store of short records answers as a plain map over every run of writes and restarts. */
  lemma {:induction false} ShortRunsNeverFail(ops: seq<Op<Bytes>>)
    requires forall i :: 0 <= i < |ops| ==> ops[i].Restart? || (ops[i].Do? && LengthBound(ops[i].write) < 65536)
    ensures var c := CodecOf(GoSyntax()); Run(c, ops).Ok? && Run(c, ops).value.data == PlainRun(c, ops)
  {
    var c := CodecOf(GoSyntax());
    JsonIsValid();
    forall i | 0 <= i < |ops| && ops[i].Restart? ensures AllFit(c, Written(c, ops[..i])) {
      WrittenAreShort(ops[..i]);
    }
    WithoutCrashes(c, ops);
    MemoryIsPlain(c, ops);
    RunRefinesMap(c, ops);
  }

  // ----- Records too long for the scanner -----

  lemma {:induction false} Base64Length(v: Bytes)
    ensures |Base64(v)| == (|v| + 2) / 3 * 4
    decreases |v|
  {
    if |v| < 3 {
    } else {
      Base64Length(v[3..]);
      assert (|v| + 2) / 3 == (|v| - 3 + 2) / 3 + 1;
    }
  }

  /** A value of 48 KiB already makes its record too long, whatever the key. */
  lemma {:induction false} LongValueDoesNotFit(key: string, v: Bytes)
    requires |v| >= 49152
    ensures !Fits(CodecOf(GoSyntax()), Put(key, v))
  {
    Base64Length(v);
    LongerThanValue(GoSyntax(), key, v);
    assert (|v| + 2) / 3 >= 16384;
  }

  lemma {:induction false} LongerThanValue(x: Syntax, key: string, v: Bytes)
    ensures |EncodeWith(x, Put(key, v))| >= |Base64(v)|
  {
  }

  /** Such a put succeeds, and the next restart fails. */
  lemma {:induction false} LongValueLosesStore(key: string, v: Bytes)
    requires key != "" && |v| >= 49152
    ensures var c := CodecOf(GoSyntax());
            && Run(c, [Do(WritePut(key, v))]).Ok?
            && Run(c, [Do(WritePut(key, v)), Restart]) == Err
  {
    var c := CodecOf(GoSyntax());
    var put: seq<Op<Bytes>>, both: seq<Op<Bytes>> := [Do(WritePut(key, v))], [Do(WritePut(key, v)), Restart];
    JsonIsValid();
    LongValueDoesNotFit(key, v);
    RunRefinesMap(c, put);
    RunRefinesMap(c, both);
    assert put[..0] == [] && both[..1] == put;
    assert Written(c, put) == [Put(key, v)];
  }
}
