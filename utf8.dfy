/** UTF-8 as the two ends of the image relay use it: the encoder is the
    "UTF-8 transformation" that ECMA-262's Encode abstract operation applies
    to each code point it escapes, and the decoder is the "UTF-8 decoder" of
    the WHATWG Encoding Standard (section 8.1.1), run by "UTF-8 decode
    without BOM" when URLSearchParams turns percent-decoded bytes back into a
    string. */
module Utf8 {

  type byte = b: int | 0 <= b < 0x100

  /** U+FFFD, which the decoder emits for every malformed subsequence. */
  const Replacement: char := '�'

  predicate IsScalarValue(n: int) {
    0 <= n < 0xD800 || 0xE000 <= n < 0x11_0000
  }

  predicate IsContinuation(b: byte) {
    0x80 <= b <= 0xBF
  }

  /** The one to four octets of one code point (RFC 3629, section 3). */
  function EncodeChar(c: char): (r: seq<byte>)
    ensures 1 <= |r| <= 4
    ensures |r| == 1 <==> c as int < 0x80
    ensures |r| == 1 ==> r[0] == c as int
    ensures forall i :: 1 <= i < |r| ==> IsContinuation(r[i])
  {
    var n := c as int;
    if n < 0x80 then [n]
    else if n < 0x800 then [0xC0 + n / 0x40, 0x80 + n % 0x40]
    else if n < 0x1_0000 then [0xE0 + n / 0x1000, 0x80 + n / 0x40 % 0x40, 0x80 + n % 0x40]
    else [0xF0 + n / 0x4_0000, 0x80 + n / 0x1000 % 0x40, 0x80 + n / 0x40 % 0x40, 0x80 + n % 0x40]
  }

  function Encode(s: string): (r: seq<byte>)
    ensures |r| >= |s|
  {
    if s == [] then [] else EncodeChar(s[0]) + Encode(s[1..])
  }

  /** The decoder's state: UTF-8 code point, bytes seen, bytes needed and
      the lower and upper boundary of the next continuation byte. */
  datatype Decoder = Decoder(codePoint: int, bytesSeen: nat, bytesNeeded: nat, lower: byte, upper: byte)

  const Fresh := Decoder(0, 0, 0, 0x80, 0xBF)

  function ToChar(n: int): char {
    if IsScalarValue(n) then n as char else Replacement
  }

  /** What the decoder's handler does with one byte: consume it, emitting
      the characters it completes (if any) and moving to the next state;
      or, on a byte outside the boundaries, emit U+FFFD and restore the
      byte to the queue, to be handled again from the fresh state. */
  datatype Action = Consume(emit: seq<char>, next: Decoder) | Restore

  /** The UTF-8 decoder's handler for one byte. */
  function Handle(d: Decoder, b: byte): (a: Action)
    ensures a.Restore? ==> d.bytesNeeded != 0
  {
    if d.bytesNeeded == 0 then
      if b <= 0x7F then
        Consume([b as char], Fresh)
      else if 0xC2 <= b <= 0xDF then
        Consume([], Decoder(b % 0x20, 0, 1, 0x80, 0xBF))
      else if 0xE0 <= b <= 0xEF then
        Consume([], Decoder(b % 0x10, 0, 2, if b == 0xE0 then 0xA0 else 0x80,
                                            if b == 0xED then 0x9F else 0xBF))
      else if 0xF0 <= b <= 0xF4 then
        Consume([], Decoder(b % 0x8, 0, 3, if b == 0xF0 then 0x90 else 0x80,
                                           if b == 0xF4 then 0x8F else 0xBF))
      else
        Consume([Replacement], Fresh)
    else if !(d.lower <= b <= d.upper) then
      Restore
    else
      var cp := d.codePoint * 0x40 + b % 0x40;
      if d.bytesSeen + 1 != d.bytesNeeded then
        Consume([], Decoder(cp, d.bytesSeen + 1, d.bytesNeeded, 0x80, 0xBF))
      else
        Consume([ToChar(cp)], Fresh)
  }

  /** Runs the decoder over `bytes` from state `d` until the end of the
      queue; a restored byte is handled again from the fresh state, and the
      end of the queue in the middle of a sequence emits U+FFFD. */
  function DecodeFrom(d: Decoder, bytes: seq<byte>): seq<char>
    decreases |bytes|, if d.bytesNeeded == 0 then 0 else 1
  {
    if bytes == [] then
      if d.bytesNeeded != 0 then [Replacement] else []
    else
      match Handle(d, bytes[0])
      case Consume(emit, next) => emit + DecodeFrom(next, bytes[1..])
      case Restore => [Replacement] + DecodeFrom(Fresh, bytes)
  }

  /** UTF-8 decode without BOM. */
  function Decode(bytes: seq<byte>): seq<char> {
    DecodeFrom(Fresh, bytes)
  }

  lemma EncodeAppend(s: string, t: string)
    ensures Encode(s + t) == Encode(s) + Encode(t)
  {
    if s == [] {
      assert s + t == t;
    } else {
      assert (s + t)[1..] == s[1..] + t;
      EncodeAppend(s[1..], t);
    }
  }

  /** A string of ASCII characters encodes byte for byte. */
  lemma EncodeAscii(s: string)
    requires forall i :: 0 <= i < |s| ==> s[i] as int < 0x80
    ensures |Encode(s)| == |s|
    ensures forall i :: 0 <= i < |s| ==> Encode(s)[i] == s[i] as int
  {
    if s != [] {
      EncodeAscii(s[1..]);
    }
  }

  /** Decoding the octets of one character, followed by anything, yields
      that character and then whatever the rest decodes to. */
  lemma DecodeChar(c: char, rest: seq<byte>)
    ensures DecodeFrom(Fresh, EncodeChar(c) + rest) == [c] + DecodeFrom(Fresh, rest)
  {
    var n := c as int;
    if n < 0x80 {
      assert (EncodeChar(c) + rest)[1..] == rest;
    } else if n < 0x800 {
      DecodeTwo(c, rest);
    } else if n < 0x1_0000 {
      DecodeThree(c, rest);
    } else {
      DecodeFour(c, rest);
    }
  }

  lemma DecodeTwo(c: char, rest: seq<byte>)
    requires 0x80 <= c as int < 0x800
    ensures DecodeFrom(Fresh, EncodeChar(c) + rest) == [c] + DecodeFrom(Fresh, rest)
  {
    var n := c as int;
    var e := EncodeChar(c);
    var d1 := Decoder(n / 0x40, 0, 1, 0x80, 0xBF);
    assert e[0] % 0x20 == n / 0x40;
    assert (e + rest)[1..] == [e[1]] + rest;
    assert ([e[1]] + rest)[1..] == rest;
    assert d1.codePoint * 0x40 + e[1] % 0x40 == n;
    assert DecodeFrom(Fresh, e + rest) == DecodeFrom(d1, [e[1]] + rest);
  }

  lemma DecodeThree(c: char, rest: seq<byte>)
    requires 0x800 <= c as int < 0x1_0000
    ensures DecodeFrom(Fresh, EncodeChar(c) + rest) == [c] + DecodeFrom(Fresh, rest)
  {
    var e := EncodeChar(c);
    ThreeBytes(c);
    assert e == [e[0], e[1], e[2]];
    ChainThree(c, e[0], e[1], e[2], rest);
  }

  /** The decoder's three steps over a lead byte and two continuation
      bytes, given only what the encoder's arithmetic guarantees of them. */
  lemma ChainThree(c: char, b0: byte, b1: byte, b2: byte, rest: seq<byte>)
    requires 0xE0 <= b0 <= 0xEF
    requires (if b0 == 0xE0 then 0xA0 else 0x80) <= b1 <= (if b0 == 0xED then 0x9F else 0xBF)
    requires IsContinuation(b2)
    requires ToChar(((b0 as int % 0x10) * 0x40 + b1 as int % 0x40) * 0x40 + b2 as int % 0x40) == c
    ensures DecodeFrom(Fresh, [b0, b1, b2] + rest) == [c] + DecodeFrom(Fresh, rest)
  {
    var lo: byte, hi: byte := if b0 == 0xE0 then 0xA0 else 0x80, if b0 == 0xED then 0x9F else 0xBF;
    var d1 := Decoder(b0 % 0x10, 0, 2, lo, hi);
    var d2 := Decoder(d1.codePoint * 0x40 + b1 % 0x40, 1, 2, 0x80, 0xBF);
    var t2 := [b2] + rest;
    var t1 := [b1] + t2;
    assert [b0, b1, b2] + rest == [b0] + t1;
    StepLeadThree(b0, t1);
    StepMiddle(d1, b1, t2);
    StepLast(d2, b2, rest);
  }

  /** The arithmetic of a three-octet sequence: the lead octet's payload,
      the second octet within the decoder's boundaries, and the code point
      rebuilt from the six-bit groups. */
  lemma ThreeBytes(c: char)
    requires 0x800 <= c as int < 0x1_0000
    ensures var e := EncodeChar(c);
      && |e| == 3 && 0xE0 <= e[0] <= 0xEF
      && (if e[0] == 0xE0 then 0xA0 else 0x80) <= e[1] <= (if e[0] == 0xED then 0x9F else 0xBF)
      && IsContinuation(e[2])
      && ToChar(((e[0] as int % 0x10) * 0x40 + e[1] as int % 0x40) * 0x40 + e[2] as int % 0x40) == c
  {
    var n, e := c as int, EncodeChar(c);
    assert e[0] as int % 0x10 == n / 0x1000;
    assert e[1] as int % 0x40 == n / 0x40 % 0x40;
    assert e[2] as int % 0x40 == n % 0x40;
    Regroup(n);
    Regroup(n / 0x40);
    Shifts(n);
  }

  /** A three-octet lead byte sets up the decoder for two continuations. */
  lemma StepLeadThree(b: byte, t: seq<byte>)
    requires 0xE0 <= b <= 0xEF
    ensures DecodeFrom(Fresh, [b] + t)
         == DecodeFrom(Decoder(b % 0x10, 0, 2, if b == 0xE0 then 0xA0 else 0x80,
                                               if b == 0xED then 0x9F else 0xBF), t)
  {
    assert ([b] + t)[1..] == t;
  }

  /** A continuation byte within the boundaries that is not the last one
      is folded into the code point. */
  lemma StepMiddle(d: Decoder, b: byte, t: seq<byte>)
    requires d.bytesNeeded != 0 && d.lower <= b <= d.upper && d.bytesSeen + 1 != d.bytesNeeded
    ensures DecodeFrom(d, [b] + t)
         == DecodeFrom(Decoder(d.codePoint * 0x40 + b % 0x40, d.bytesSeen + 1, d.bytesNeeded, 0x80, 0xBF), t)
  {
    assert ([b] + t)[1..] == t;
  }

  /** The last continuation byte completes the code point. */
  lemma StepLast(d: Decoder, b: byte, t: seq<byte>)
    requires d.bytesNeeded != 0 && d.lower <= b <= d.upper && d.bytesSeen + 1 == d.bytesNeeded
    ensures DecodeFrom(d, [b] + t) == [ToChar(d.codePoint * 0x40 + b % 0x40)] + DecodeFrom(Fresh, t)
  {
    assert ([b] + t)[1..] == t;
  }

  lemma DecodeFour(c: char, rest: seq<byte>)
    requires 0x1_0000 <= c as int
    ensures DecodeFrom(Fresh, EncodeChar(c) + rest) == [c] + DecodeFrom(Fresh, rest)
  {
    var e := EncodeChar(c);
    FourBytes(c);
    assert e == [e[0], e[1], e[2], e[3]];
    ChainFour(c, e[0], e[1], e[2], e[3], rest);
  }

  /** The decoder's four steps over a lead byte and three continuation
      bytes, given only what the encoder's arithmetic guarantees of them. */
  lemma ChainFour(c: char, b0: byte, b1: byte, b2: byte, b3: byte, rest: seq<byte>)
    requires 0xF0 <= b0 <= 0xF4
    requires (if b0 == 0xF0 then 0x90 else 0x80) <= b1 <= (if b0 == 0xF4 then 0x8F else 0xBF)
    requires IsContinuation(b2) && IsContinuation(b3)
    requires ToChar((((b0 as int % 0x8) * 0x40 + b1 as int % 0x40) * 0x40 + b2 as int % 0x40) * 0x40 + b3 as int % 0x40) == c
    ensures DecodeFrom(Fresh, [b0, b1, b2, b3] + rest) == [c] + DecodeFrom(Fresh, rest)
  {
    var lo: byte, hi: byte := if b0 == 0xF0 then 0x90 else 0x80, if b0 == 0xF4 then 0x8F else 0xBF;
    var d1 := Decoder(b0 % 0x8, 0, 3, lo, hi);
    var d2 := Decoder(d1.codePoint * 0x40 + b1 % 0x40, 1, 3, 0x80, 0xBF);
    var d3 := Decoder(d2.codePoint * 0x40 + b2 % 0x40, 2, 3, 0x80, 0xBF);
    var t3 := [b3] + rest;
    var t2 := [b2] + t3;
    var t1 := [b1] + t2;
    assert [b0, b1, b2, b3] + rest == [b0] + t1;
    StepLeadFour(b0, t1);
    StepMiddle(d1, b1, t2);
    StepMiddle(d2, b2, t3);
    StepLast(d3, b3, rest);
  }

  /** The arithmetic of a four-octet sequence, as for three octets. */
  lemma FourBytes(c: char)
    requires 0x1_0000 <= c as int
    ensures var e := EncodeChar(c);
      && |e| == 4 && 0xF0 <= e[0] <= 0xF4
      && (if e[0] == 0xF0 then 0x90 else 0x80) <= e[1] <= (if e[0] == 0xF4 then 0x8F else 0xBF)
      && IsContinuation(e[2]) && IsContinuation(e[3])
      && ToChar((((e[0] as int % 0x8) * 0x40 + e[1] as int % 0x40) * 0x40 + e[2] as int % 0x40) * 0x40 + e[3] as int % 0x40) == c
  {
    var n, e := c as int, EncodeChar(c);
    Shifts(n);
    assert e[0] as int % 0x8 == n / 0x4_0000;
    assert e[1] as int % 0x40 == n / 0x1000 % 0x40;
    assert e[2] as int % 0x40 == n / 0x40 % 0x40;
    assert e[3] as int % 0x40 == n % 0x40;
    Regroup(n);
    Regroup(n / 0x40);
    Regroup(n / 0x1000);
  }

  /** A four-octet lead byte sets up the decoder for three continuations. */
  lemma StepLeadFour(b: byte, t: seq<byte>)
    requires 0xF0 <= b <= 0xF4
    ensures DecodeFrom(Fresh, [b] + t)
         == DecodeFrom(Decoder(b % 0x8, 0, 3, if b == 0xF0 then 0x90 else 0x80,
                                              if b == 0xF4 then 0x8F else 0xBF), t)
  {
    assert ([b] + t)[1..] == t;
  }

  /** Cutting off the last six bits and putting them back. */
  lemma Regroup(n: nat)
    ensures (n / 0x40) * 0x40 + n % 0x40 == n
  {
  }

  /** The six-bit groups of a code point, as the encoder cuts them. */
  lemma Shifts(n: nat)
    ensures n / 0x40 / 0x40 == n / 0x1000
    ensures n / 0x1000 / 0x40 == n / 0x4_0000
    ensures (n / 0x40 / 0x40) * 0x40 + n / 0x40 % 0x40 == n / 0x40
    ensures (n / 0x1000 / 0x40) * 0x40 + n / 0x1000 % 0x40 == n / 0x1000
  {
  }

  /** Decoding undoes encoding for every string. */
  lemma {:induction false} DecodeEncode(s: string)
    ensures Decode(Encode(s)) == s
  {
    if s != [] {
      DecodeChar(s[0], Encode(s[1..]));
      DecodeEncode(s[1..]);
    }
  }
}
