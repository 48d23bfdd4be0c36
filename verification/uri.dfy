/** `encodeURIComponent`: every code point outside the unreserved set is
    written as the percent-escaped bytes of its UTF-8 encoding, with
    upper-case hexadecimal digits. Dafny's `char` is a Unicode scalar value,
    so the lone-surrogate case in which the JavaScript function throws does
    not arise. */
module Uri {
  import opened Wrappers

  /** The characters `encodeURIComponent` leaves as they are. */
  predicate IsUnreserved(c: char) {
    || ('A' <= c <= 'Z') || ('a' <= c <= 'z') || ('0' <= c <= '9')
    || c == '-' || c == '_' || c == '.' || c == '!' || c == '~'
    || c == '*' || c == '\'' || c == '(' || c == ')'
  }

  /** The characters an encoded component consists of. */
  predicate IsEncodedChar(c: char) {
    IsUnreserved(c) || c == '%'
  }

  predicate IsHexDigit(c: char) {
    ('0' <= c <= '9') || ('A' <= c <= 'F')
  }

  function HexDigit(n: nat): (c: char)
    requires n < 16
    ensures IsHexDigit(c) && HexValue(c) == n
  {
    if n < 10 then ('0' as int + n) as char else ('A' as int + n - 10) as char
  }

  function HexValue(c: char): nat {
    if '0' <= c <= '9' then c as int - '0' as int
    else if 'A' <= c <= 'F' then c as int - 'A' as int + 10
    else 0
  }

  predicate IsByteSeq(bytes: seq<int>) {
    forall i :: 0 <= i < |bytes| ==> 0 <= bytes[i] < 256
  }

  /** The UTF-8 encoding of one code point. */
  function Utf8(c: char): (bytes: seq<int>)
    ensures 1 <= |bytes| <= 4 && IsByteSeq(bytes)
    ensures c as int < 0x80 <==> bytes == [c as int]
  {
    var n := c as int;
    if n < 0x80 then [n]
    else if n < 0x800 then [0xC0 + n / 64, 0x80 + n % 64]
    else if n < 0x1_0000 then [0xE0 + n / 4096, 0x80 + (n / 64) % 64, 0x80 + n % 64]
    else [0xF0 + n / 0x4_0000, 0x80 + (n / 4096) % 64, 0x80 + (n / 64) % 64, 0x80 + n % 64]
  }

  /** The UTF-8 encoding of a string. */
  function Utf8Bytes(s: string): (bytes: seq<int>)
    ensures IsByteSeq(bytes)
    decreases |s|
  {
    if |s| == 0 then [] else Utf8(s[0]) + Utf8Bytes(s[1..])
  }

  /** `%XY` for each byte. */
  function PercentEncode(bytes: seq<int>): (r: string)
    requires IsByteSeq(bytes)
    ensures |r| == 3 * |bytes|
    ensures forall i :: 0 <= i < |r| ==> r[i] == '%' || IsHexDigit(r[i])
    decreases |bytes|
  {
    if |bytes| == 0 then ""
    else ['%', HexDigit(bytes[0] / 16), HexDigit(bytes[0] % 16)] + PercentEncode(bytes[1..])
  }

  function EncodeChar(c: char): string {
    if IsUnreserved(c) then [c] else PercentEncode(Utf8(c))
  }

  /** `encodeURIComponent(s)`. */
  function EncodeUriComponent(s: string): (r: string)
    ensures forall i :: 0 <= i < |r| ==> IsEncodedChar(r[i])
    decreases |s|
  {
    if |s| == 0 then ""
    else
      var head := EncodeChar(s[0]);
      assert forall i :: 0 <= i < |head| ==> IsEncodedChar(head[i]);
      head + EncodeUriComponent(s[1..])
  }

  /** Reads an encoded component back to the bytes it stands for; `None` when
      the text is not a well-formed encoding. */
  function DecodeBytes(r: string): Option<seq<int>>
    decreases |r|
  {
    if |r| == 0 then Some([])
    else if r[0] == '%' then
      if |r| >= 3 && IsHexDigit(r[1]) && IsHexDigit(r[2]) then
        match DecodeBytes(r[3..])
        case None => None
        case Some(rest) => Some([16 * HexValue(r[1]) + HexValue(r[2])] + rest)
      else None
    else if IsUnreserved(r[0]) then
      match DecodeBytes(r[1..])
      case None => None
      case Some(rest) => Some([r[0] as int] + rest)
    else None
  }

  lemma {:induction false} DecodePercent(bytes: seq<int>, rest: string)
    requires IsByteSeq(bytes)
    ensures DecodeBytes(PercentEncode(bytes) + rest) ==
            match DecodeBytes(rest)
            case None => None
            case Some(tail) => Some(bytes + tail)
    decreases |bytes|
  {
    if |bytes| > 0 {
      var r := PercentEncode(bytes) + rest;
      var b := bytes[0];
      assert r[0] == '%' && r[1] == HexDigit(b / 16) && r[2] == HexDigit(b % 16);
      assert 16 * HexValue(r[1]) + HexValue(r[2]) == b;
      assert r[3..] == PercentEncode(bytes[1..]) + rest;
      DecodePercent(bytes[1..], rest);
      match DecodeBytes(rest)
      case None =>
      case Some(tail) => assert [b] + (bytes[1..] + tail) == bytes + tail;
    } else {
      assert PercentEncode(bytes) + rest == rest;
      match DecodeBytes(rest)
      case None =>
      case Some(tail) => assert bytes + tail == tail;
    }
  }

  /** Decoding an encoded component gives back the UTF-8 bytes of the
      original text. */
  lemma {:induction false} DecodeEncode(s: string)
    ensures DecodeBytes(EncodeUriComponent(s)) == Some(Utf8Bytes(s))
    decreases |s|
  {
    if |s| > 0 {
      var rest := EncodeUriComponent(s[1..]);
      DecodeEncode(s[1..]);
      if IsUnreserved(s[0]) {
        var r := [s[0]] + rest;
        assert r[1..] == rest;
      } else {
        DecodePercent(Utf8(s[0]), rest);
      }
    }
  }
}
