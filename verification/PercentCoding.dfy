/** encodeURIComponent and decodeURIComponent (ECMA-262, section 19.2.6): percent-encoded
    UTF-8, over strings of Unicode scalar values. */
module PercentCoding {
  import opened Wrappers

  /** Letters, digits and - _ . ! ~ * ' ( ) stand for themselves. */
  predicate Unreserved(c: char) {
    'a' <= c <= 'z' || 'A' <= c <= 'Z' || '0' <= c <= '9'
    || c == '-' || c == '_' || c == '.' || c == '!' || c == '~' || c == '*' || c == '\'' || c == '(' || c == ')'
  }

  type Byte = b: int | 0 <= b < 256

  function Hex(d: int): (c: char)
    requires 0 <= d < 16
    ensures '0' <= c <= '9' || 'A' <= c <= 'F'
  {
    if d < 10 then '0' + (d as char) else 'A' + ((d - 10) as char)
  }

  function HexValue(c: char): (d: int)
    ensures -1 <= d < 16
  {
    if '0' <= c <= '9' then c as int - '0' as int
    else if 'A' <= c <= 'F' then c as int - 'A' as int + 10
    else if 'a' <= c <= 'f' then c as int - 'a' as int + 10
    else -1
  }

  function Percent(b: Byte): (s: string)
    ensures |s| == 3
  {
    ['%', Hex(b / 16), Hex(b % 16)]
  }

  /** The byte written at the start of s. */
  function ByteAt(s: string): Option<Byte> {
    if |s| < 3 || s[0] != '%' || HexValue(s[1]) < 0 || HexValue(s[2]) < 0 then None
    else Some(HexValue(s[1]) * 16 + HexValue(s[2]))
  }

  lemma HexRoundTrip(d: int)
    requires 0 <= d < 16
    ensures HexValue(Hex(d)) == d
  {
  }

  lemma ByteRoundTrip(b: Byte, t: string)
    ensures ByteAt(Percent(b) + t) == Some(b)
  {
    HexRoundTrip(b / 16);
    HexRoundTrip(b % 16);
    var s := Percent(b) + t;
    assert s[0] == '%' && s[1] == Hex(b / 16) && s[2] == Hex(b % 16);
  }

  // ----- UTF-8 ---------------------------------------------------------------------------

  predicate Scalar(v: int) {
    0 <= v < 0xD800 || 0xE000 <= v < 0x11_0000
  }

  function Utf8(v: int): (r: seq<Byte>)
    requires Scalar(v)
    ensures 1 <= |r| <= 4
  {
    if v < 0x80 then [v]
    else if v < 0x800 then [0xC0 + v / 64, 0x80 + v % 64]
    else if v < 0x1_0000 then [0xE0 + v / 4096, 0x80 + v / 64 % 64, 0x80 + v % 64]
    else [0xF0 + v / 262144, 0x80 + v / 4096 % 64, 0x80 + v / 64 % 64, 0x80 + v % 64]
  }

  /** How many bytes a lead byte announces; 0 for none. */
  function Announced(b: Byte): nat {
    if b < 0x80 then 1
    else if 0xC0 <= b < 0xE0 then 2
    else if 0xE0 <= b < 0xF0 then 3
    else if 0xF0 <= b < 0xF8 then 4
    else 0
  }

  predicate Continues(b: Byte) {
    0x80 <= b < 0xC0
  }

  /** The value of a sequence of as many bytes as its lead announces. */
  function Assemble(bytes: seq<int>): int {
    if |bytes| == 1 then bytes[0]
    else if |bytes| == 2 then (bytes[0] - 0xC0) * 64 + (bytes[1] - 0x80)
    else if |bytes| == 3 then (bytes[0] - 0xE0) * 4096 + (bytes[1] - 0x80) * 64 + (bytes[2] - 0x80)
    else if |bytes| == 4 then
      (bytes[0] - 0xF0) * 262144 + (bytes[1] - 0x80) * 4096 + (bytes[2] - 0x80) * 64 + (bytes[3] - 0x80)
    else -1
  }

  /** Continuation bytes where they belong, a scalar value, and no longer form than needed. */
  predicate WellFormed(bytes: seq<Byte>) {
    && bytes != [] && Announced(bytes[0]) == |bytes|
    && (forall i :: 0 < i < |bytes| ==> Continues(bytes[i]))
    && Scalar(Assemble(bytes)) && |Utf8(Assemble(bytes))| == |bytes|
  }

  lemma Digits64(v: int)
    requires 0 <= v
    ensures v == v / 64 * 64 + v % 64
    ensures v / 64 == v / 4096 * 64 + v / 64 % 64
    ensures v / 4096 == v / 262144 * 64 + v / 4096 % 64
  {
    assert v / 64 / 64 == v / 4096;
    assert v / 4096 / 64 == v / 262144;
  }

  lemma Utf8RoundTrip(v: int)
    requires Scalar(v)
    ensures Assemble(Utf8(v)) == v && WellFormed(Utf8(v))
  {
    Digits64(v);
  }

  // ----- whole strings ---------------------------------------------------------------------

  function PercentAll(bytes: seq<Byte>): (s: string)
    ensures |s| == 3 * |bytes|
  {
    if bytes == [] then "" else Percent(bytes[0]) + PercentAll(bytes[1..])
  }

  function EncodeChar(c: char): (s: string)
    ensures s != ""
  {
    if Unreserved(c) then [c] else PercentAll(Utf8(c as int))
  }

  /** encodeURIComponent. */
  function Encode(s: string): string {
    if s == "" then "" else EncodeChar(s[0]) + Encode(s[1..])
  }

  /** n bytes in percent form. */
  function BytesAt(s: string, n: nat): Option<seq<Byte>> {
    if n == 0 then Some([])
    else
      match ByteAt(s)
      case None => None
      case Some(b) =>
        match BytesAt(s[3..], n - 1)
        case None => None
        case Some(rest) => Some([b] + rest)
  }

  /** The first code point of s and the length of its form; None throws. */
  function DecodeChar(s: string): (r: Option<(char, nat)>)
    requires s != ""
    ensures r.Some? ==> 0 < r.value.1 <= |s|
  {
    if s[0] != '%' then Some((s[0], 1))
    else
      match ByteAt(s)
      case None => None
      case Some(lead) =>
        match BytesAt(s, Announced(lead))
        case None => None
        case Some(bytes) => if WellFormed(bytes) && 3 * |bytes| <= |s| then Some((Assemble(bytes) as char, 3 * |bytes|))
          else None
  }

  /** decodeURIComponent; None throws URIError. */
  function Decode(s: string): Option<string>
    decreases |s|
  {
    if s == "" then Some("")
    else
      match DecodeChar(s)
      case None => None
      case Some((c, n)) =>
        match Decode(s[n..])
        case None => None
        case Some(rest) => Some([c] + rest)
  }

  /** safeDecodeURIComponent. */
  function SafeDecode(s: string): string {
    match Decode(s) case Some(t) => t case None => s
  }

  lemma {:induction false} BytesRoundTrip(bytes: seq<Byte>, t: string)
    ensures BytesAt(PercentAll(bytes) + t, |bytes|) == Some(bytes)
  {
    if bytes != [] {
      var rest := PercentAll(bytes[1..]);
      var s := PercentAll(bytes) + t;
      assert s == Percent(bytes[0]) + (rest + t);
      ByteRoundTrip(bytes[0], rest + t);
      assert s[3..] == rest + t;
      BytesRoundTrip(bytes[1..], t);
      assert bytes == [bytes[0]] + bytes[1..];
    }
  }

  lemma CharRoundTrip(c: char, t: string)
    ensures DecodeChar(EncodeChar(c) + t) == Some((c, |EncodeChar(c)|))
  {
    if !Unreserved(c) {
      var bytes := Utf8(c as int);
      var s := PercentAll(bytes) + t;
      assert s == Percent(bytes[0]) + (PercentAll(bytes[1..]) + t);
      ByteRoundTrip(bytes[0], PercentAll(bytes[1..]) + t);
      Utf8RoundTrip(c as int);
      BytesRoundTrip(bytes, t);
      assert s[0] == '%';
    }
  }

  /** Decoding undoes encoding, for every string. */
  lemma {:induction false} EncodeRoundTrips(s: string)
    ensures Decode(Encode(s)) == Some(s)
  {
    if s != "" {
      CharRoundTrip(s[0], Encode(s[1..]));
      assert Encode(s)[|EncodeChar(s[0])|..] == Encode(s[1..]);
      EncodeRoundTrips(s[1..]);
      assert s == [s[0]] + s[1..];
    }
  }

  /** A character that can appear in encoded text. */
  predicate Plain(c: char) {
    Unreserved(c) || c == '%'
  }

  lemma {:induction false} PercentPlain(bytes: seq<Byte>)
    ensures forall i :: 0 <= i < |PercentAll(bytes)| ==> Plain(PercentAll(bytes)[i])
  {
    if bytes != [] {
      PercentPlain(bytes[1..]);
      assert forall i :: 0 <= i < 3 ==> Plain(Percent(bytes[0])[i]);
    }
  }

  /** Encoding never emits a separator, and nothing only for nothing. */
  lemma {:induction false} EncodePlain(s: string)
    ensures forall i :: 0 <= i < |Encode(s)| ==> Plain(Encode(s)[i])
    ensures Encode(s) == "" <==> s == ""
  {
    if s != "" {
      EncodePlain(s[1..]);
      if !Unreserved(s[0]) {
        PercentPlain(Utf8(s[0] as int));
      }
    }
  }

  lemma EncodeInjective(a: string, b: string)
    ensures Encode(a) == Encode(b) <==> a == b
  {
    EncodeRoundTrips(a);
    EncodeRoundTrips(b);
  }

  // ----- the forms by their text -----------------------------------------------------------

  /** Exactly letters, digits and nine marks stand for themselves. */
  lemma StandsForItself(c: char)
    ensures EncodeChar(c) == [c] <==>
            'A' <= c <= 'Z' || 'a' <= c <= 'z' || '0' <= c <= '9'
              || c in {'-', '_', '.', '!', '~', '*', '\'', '(', ')'}
  {
  }

  lemma {:induction false} PlainTextStays(s: string)
    requires forall i :: 0 <= i < |s| ==> Unreserved(s[i])
    ensures Encode(s) == s
  {
    if s != "" {
      PlainTextStays(s[1..]);
      assert s == [s[0]] + s[1..];
    }
  }

  const HEX := ['0', '1', '2', '3', '4', '5', '6', '7', '8', '9', 'A', 'B', 'C', 'D', 'E', 'F']

  /** Any other character is written as its bytes in UTF-8, each as '%' and two hexadecimal digits. */
  lemma {:induction false} PercentForms(bytes: seq<Byte>, i: nat)
    requires i < |bytes|
    ensures PercentAll(bytes)[3 * i..3 * i + 3] == ['%', HEX[bytes[i] / 16], HEX[bytes[i] % 16]]
  {
    var rest := PercentAll(bytes[1..]);
    if i == 0 {
      assert PercentAll(bytes)[..3] == Percent(bytes[0]);
    } else {
      PercentForms(bytes[1..], i - 1);
      assert PercentAll(bytes)[3 * i..3 * i + 3] == rest[3 * (i - 1)..3 * (i - 1) + 3];
    }
  }

  /** Hexadecimal digits are read in either case. */
  lemma DigitsRead(c: char, d: int)
    requires 0 <= d < 16
    ensures HexValue(c) == d <==> c == HEX[d] || (d >= 10 && c == 'a' + ((d - 10) as char))
  {
  }

  predicate Digit(c: char, d: int) {
    0 <= d < 16 && (c == HEX[d] || (d >= 10 && c == 'a' + ((d - 10) as char)))
  }

  /** A byte is read from a percent sign and two digits, and from nothing else. */
  lemma ByteAtMeans(s: string, b: Byte)
    ensures ByteAt(s) == Some(b) <==> |s| >= 3 && s[0] == '%' && Digit(s[1], b / 16) && Digit(s[2], b % 16)
  {
    DigitsRead(if |s| >= 3 then s[1] else ' ', b / 16);
    DigitsRead(if |s| >= 3 then s[2] else ' ', b % 16);
    if |s| >= 3 && HexValue(s[1]) >= 0 && HexValue(s[2]) >= 0 {
      var high, low := HexValue(s[1]), HexValue(s[2]);
      assert (high * 16 + low) / 16 == high && (high * 16 + low) % 16 == low;
    }
  }

  lemma Split64(front: int, last: int)
    requires 0 <= front && 0 <= last < 64
    ensures (front * 64 + last) / 64 == front && (front * 64 + last) % 64 == last
  {
  }

  lemma Two(a: int, b: int)
    requires 0xC0 <= a < 0xE0 && 0x80 <= b < 0xC0
    ensures var v := (a - 0xC0) * 64 + (b - 0x80); a == 0xC0 + v / 64 && b == 0x80 + v % 64
  {
    Split64(a - 0xC0, b - 0x80);
  }

  lemma Three(a: int, b: int, c: int)
    requires 0xE0 <= a < 0xF0 && 0x80 <= b < 0xC0 && 0x80 <= c < 0xC0
    ensures var v := (a - 0xE0) * 4096 + (b - 0x80) * 64 + (c - 0x80);
            a == 0xE0 + v / 4096 && b == 0x80 + v / 64 % 64 && c == 0x80 + v % 64
  {
    var v, upper := (a - 0xE0) * 4096 + (b - 0x80) * 64 + (c - 0x80), (a - 0xE0) * 64 + (b - 0x80);
    assert v == upper * 64 + (c - 0x80);
    Split64(upper, c - 0x80);
    Split64(a - 0xE0, b - 0x80);
    Digits64(v);
  }

  lemma Four(a: int, b: int, c: int, d: int)
    requires 0xF0 <= a < 0xF8 && 0x80 <= b < 0xC0 && 0x80 <= c < 0xC0 && 0x80 <= d < 0xC0
    ensures var v := (a - 0xF0) * 262144 + (b - 0x80) * 4096 + (c - 0x80) * 64 + (d - 0x80);
            a == 0xF0 + v / 262144 && b == 0x80 + v / 4096 % 64 && c == 0x80 + v / 64 % 64 && d == 0x80 + v % 64
  {
    var v := (a - 0xF0) * 262144 + (b - 0x80) * 4096 + (c - 0x80) * 64 + (d - 0x80);
    var upper := (a - 0xF0) * 64 + (b - 0x80);
    var most := upper * 64 + (c - 0x80);
    assert v == most * 64 + (d - 0x80);
    Split64(most, d - 0x80);
    Split64(upper, c - 0x80);
    Split64(a - 0xF0, b - 0x80);
    Digits64(v);
  }

  /** The bytes accepted are the UTF-8 forms of scalar values and no others. */
  lemma WellFormedMeans(bytes: seq<Byte>)
    ensures WellFormed(bytes) <==> exists v :: Scalar(v) && bytes == Utf8(v)
  {
    if WellFormed(bytes) {
      if |bytes| == 2 {
        Two(bytes[0], bytes[1]);
      } else if |bytes| == 3 {
        Three(bytes[0], bytes[1], bytes[2]);
      } else if |bytes| == 4 {
        Four(bytes[0], bytes[1], bytes[2], bytes[3]);
      }
      assert Scalar(Assemble(bytes)) && bytes == Utf8(Assemble(bytes));
    }
    if v :| Scalar(v) && bytes == Utf8(v) {
      Utf8RoundTrip(v);
    }
  }

  /** What is no encoding is left alone, whole. */
  lemma UndecodableStays(s: string)
    ensures SafeDecode(s) == if Decode(s).Some? then Decode(s).value else s
    ensures Decode("%") == None && Decode("%4") == None && Decode("%zz") == None
  {
    assert ByteAt("%zz") == None;
  }
}
