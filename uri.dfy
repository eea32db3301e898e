/** The two halves of a query-string round trip: ECMA-262's
    encodeURIComponent (section 19.2.6.4 with the Encode operation of
    19.2.6.5), which the results view applies to a remote image URL, and the
    WHATWG URL Standard's application/x-www-form-urlencoded parser (section
    5.1) with percent-decoding (section 1.3), which `searchParams.get` runs
    in the relay. */
module Uri {
  import opened Wrappers
  import Utf8

  type byte = Utf8.byte

  /** encodeURIComponent's unescaped set: uriAlpha, DecimalDigit and uriMark
      (the unreserved characters of RFC 3986 plus `! * ' ( )`). */
  predicate Unreserved(c: char) {
    || 'A' <= c <= 'Z' || 'a' <= c <= 'z' || '0' <= c <= '9'
    || c == '-' || c == '_' || c == '.' || c == '!' || c == '~' || c == '*'
    || c == '\'' || c == '(' || c == ')'
  }

  /** What encodeURIComponent may write: unescaped characters, `%`, and the
      upper-case hexadecimal digits of a triple. */
  predicate EncodedChar(c: char) {
    Unreserved(c) || c == '%' || IsUpperHex(c)
  }

  predicate IsUpperHex(c: char) {
    '0' <= c <= '9' || 'A' <= c <= 'F'
  }

  function HexDigit(k: int): (c: char)
    requires 0 <= k < 16
    ensures IsUpperHex(c)
  {
    if k < 10 then ('0' as int + k) as char else ('A' as int + k - 10) as char
  }

  /** `%XY` with X and Y the upper-case hexadecimal digits of octet `b`
      (section 2.1 of RFC 3986). */
  function PercentTriple(b: byte): string {
    ['%', HexDigit(b / 16), HexDigit(b % 16)]
  }

  function PercentTriples(octets: seq<byte>): (r: string)
    ensures |r| == 3 * |octets|
    ensures forall i :: 0 <= i < |r| ==> r[i] == '%' || IsUpperHex(r[i])
  {
    if octets == [] then [] else PercentTriple(octets[0]) + PercentTriples(octets[1..])
  }

  /** One character as encodeURIComponent writes it. */
  function EscapeChar(c: char): (r: string)
    ensures forall i :: 0 <= i < |r| ==> EncodedChar(r[i])
  {
    if Unreserved(c) then [c] else PercentTriples(Utf8.EncodeChar(c))
  }

  /** encodeURIComponent. A JavaScript string may hold a lone surrogate, on
      which the real function throws URIError; a Dafny string cannot. */
  function EncodeURIComponent(s: string): (r: string)
    ensures |r| >= |s|
    ensures forall i :: 0 <= i < |r| ==> EncodedChar(r[i])
  {
    if s == [] then [] else EscapeChar(s[0]) + EncodeURIComponent(s[1..])
  }

  /** A character is copied unchanged exactly when it is in the unescaped
      set; every other one becomes one to four `%XY` triples. */
  lemma EscapeCharShape(c: char)
    ensures EscapeChar(c) == [c] <==> Unreserved(c)
    ensures !Unreserved(c) ==> 3 <= |EscapeChar(c)| <= 12 && |EscapeChar(c)| % 3 == 0
  {
  }

  /** The shape encodeURIComponent's output always has: unescaped characters
      and `%XY` triples, nothing else. */
  predicate WellEncoded(t: string)
    decreases |t|
  {
    if t == [] then true
    else if Unreserved(t[0]) then WellEncoded(t[1..])
    else |t| >= 3 && t[0] == '%' && IsUpperHex(t[1]) && IsUpperHex(t[2]) && WellEncoded(t[3..])
  }

  lemma {:induction false} WellEncodedAppend(t: string, u: string)
    requires WellEncoded(t) && WellEncoded(u)
    ensures WellEncoded(t + u)
    decreases |t|
  {
    if t == [] {
      assert t + u == u;
    } else if Unreserved(t[0]) {
      assert (t + u)[1..] == t[1..] + u;
      WellEncodedAppend(t[1..], u);
    } else {
      assert (t + u)[3..] == t[3..] + u;
      WellEncodedAppend(t[3..], u);
    }
  }

  lemma {:induction false} PercentTriplesWellEncoded(octets: seq<byte>)
    ensures WellEncoded(PercentTriples(octets))
  {
    if octets != [] {
      var t := PercentTriple(octets[0]);
      assert WellEncoded(t) by {
        assert t[3..] == [];
      }
      PercentTriplesWellEncoded(octets[1..]);
      WellEncodedAppend(t, PercentTriples(octets[1..]));
    }
  }

  lemma {:induction false} EncodeURIComponentWellEncoded(s: string)
    ensures WellEncoded(EncodeURIComponent(s))
  {
    if s != [] {
      if Unreserved(s[0]) {
        assert WellEncoded([s[0]]) by {
          assert [s[0]][1..] == [];
        }
      } else {
        PercentTriplesWellEncoded(Utf8.EncodeChar(s[0]));
      }
      EncodeURIComponentWellEncoded(s[1..]);
      WellEncodedAppend(EscapeChar(s[0]), EncodeURIComponent(s[1..]));
    }
  }

  /** The encoded text cannot end the query string, split it into pairs,
      end a name or stand for a space. */
  lemma NoDelimiters(s: string)
    ensures var r := EncodeURIComponent(s);
      '&' !in r && '=' !in r && '#' !in r && '+' !in r && '?' !in r
  {
  }

  /** An ASCII hexadecimal digit, either case (URL Standard). */
  predicate IsHexByte(b: byte) {
    0x30 <= b <= 0x39 || 0x41 <= b <= 0x46 || 0x61 <= b <= 0x66
  }

  function HexValue(b: byte): (v: int)
    requires IsHexByte(b)
    ensures 0 <= v < 16
  {
    if b <= 0x39 then b - 0x30 else if b <= 0x46 then b - 0x37 else b - 0x57
  }

  /** Percent-decode a byte sequence: `%` followed by two hexadecimal digits
      becomes the byte they denote; every other byte, a stray `%` included,
      is copied. */
  function PercentDecode(input: seq<byte>): (r: seq<byte>)
    ensures |r| <= |input|
  {
    if input == [] then []
    else if input[0] == 0x25 && |input| >= 3 && IsHexByte(input[1]) && IsHexByte(input[2]) then
      [HexValue(input[1]) * 16 + HexValue(input[2])] + PercentDecode(input[3..])
    else
      [input[0]] + PercentDecode(input[1..])
  }

  /** The position of the first `x` in `s`, or `|s|` when there is none. */
  function IndexOf<T(==)>(s: seq<T>, x: T): (i: nat)
    ensures i <= |s|
    ensures i < |s| ==> s[i] == x
    ensures forall j :: 0 <= j < i ==> s[j] != x
  {
    if s == [] then 0 else if s[0] == x then 0 else 1 + IndexOf(s[1..], x)
  }

  /** What identifies the first `x`: it is at `k`, and not before. */
  lemma IndexOfIs<T>(s: seq<T>, x: T, k: nat)
    requires k <= |s| && (k < |s| ==> s[k] == x)
    requires forall j :: 0 <= j < k ==> s[j] != x
    ensures IndexOf(s, x) == k
  {
  }

  /** Every 0x2B (`+`) replaced by 0x20 (space). */
  function ReplacePlus(bs: seq<byte>): (r: seq<byte>)
    ensures |r| == |bs|
    ensures forall i :: 0 <= i < |bs| ==> r[i] == if bs[i] == 0x2B then 0x20 else bs[i]
  {
    if bs == [] then [] else [if bs[0] == 0x2B then 0x20 else bs[0]] + ReplacePlus(bs[1..])
  }

  /** A name or a value as the parser produces it from its bytes. */
  function DecodeComponent(bs: seq<byte>): string {
    Utf8.Decode(PercentDecode(ReplacePlus(bs)))
  }

  /** One non-empty `&`-separated sequence: the name runs up to the first
      `=`, the value is everything after it (empty when there is no `=`). */
  function ParsePair(bs: seq<byte>): (string, string) {
    var j := IndexOf(bs, 0x3D);
    (DecodeComponent(bs[..j]), DecodeComponent(if j < |bs| then bs[j + 1..] else []))
  }

  /** The application/x-www-form-urlencoded parser: the input is split on
      0x26 (`&`), empty sequences are skipped, each other one is a pair. */
  function ParseForm(input: seq<byte>): seq<(string, string)>
    decreases |input|
  {
    var i := IndexOf(input, 0x26);
    var head := input[..i];
    (if head == [] then [] else [ParsePair(head)])
      + (if i < |input| then ParseForm(input[i + 1..]) else [])
  }

  /** URLSearchParams' get: the value of the first pair with that name. */
  function Lookup(list: seq<(string, string)>, name: string): (r: Option<string>)
    ensures r.Some? <==> exists i :: 0 <= i < |list| && list[i].0 == name
    ensures r.Some? ==> exists i :: 0 <= i < |list| && list[i] == (name, r.value)
                                  && forall j :: 0 <= j < i ==> list[j].0 != name
  {
    if list == [] then None
    else if list[0].0 == name then Some(list[0].1)
    else Lookup(list[1..], name)
  }

  /** The query of an absolute URL: the text after the first `?`, up to the
      fragment that a `#` starts; no `?` before the fragment, no query. */
  function QueryOf(url: string): (q: Option<string>)
    ensures q.Some? <==> '?' in url[..IndexOf(url, '#')]
  {
    var beforeFragment := url[..IndexOf(url, '#')];
    var k := IndexOf(beforeFragment, '?');
    if k < |beforeFragment| then Some(beforeFragment[k + 1..]) else None
  }

  /** `new URL(url).searchParams.get(name)`. */
  function SearchParam(url: string, name: string): (r: Option<string>)
    ensures QueryOf(url).None? ==> r.None?
    ensures r.Some? ==> (name, r.value) in ParseForm(Utf8.Encode(QueryOf(url).value))
  {
    match QueryOf(url)
    case None => None
    case Some(q) => Lookup(ParseForm(Utf8.Encode(q)), name)
  }

  // ---- the round trip ----

  lemma HexDigitValue(k: int)
    requires 0 <= k < 16
    ensures IsHexByte(HexDigit(k) as int) && HexValue(HexDigit(k) as int) == k
  {
  }

  /** A `%XY` triple at the front decodes to its byte. */
  lemma PercentDecodeTriple(x: byte, y: byte, tail: seq<byte>)
    requires IsHexByte(x) && IsHexByte(y)
    ensures PercentDecode([0x25, x, y] + tail) == [HexValue(x) * 16 + HexValue(y)] + PercentDecode(tail)
  {
    assert ([0x25, x, y] + tail)[3..] == tail;
  }

  /** Any byte other than `%` at the front is copied. */
  lemma PercentDecodeCopy(b: byte, tail: seq<byte>)
    requires b != 0x25
    ensures PercentDecode([b] + tail) == [b] + PercentDecode(tail)
  {
    assert ([b] + tail)[1..] == tail;
  }

  /** The bytes of one `%XY` triple decode to its octet. */
  lemma DecodeTriple(o: byte, tail: seq<byte>)
    ensures PercentDecode(Utf8.Encode(PercentTriple(o)) + tail) == [o] + PercentDecode(tail)
  {
    var h, l := HexDigit(o / 16), HexDigit(o % 16);
    assert Utf8.Encode(PercentTriple(o)) == [0x25, h as int, l as int] by {
      Utf8.EncodeAscii(PercentTriple(o));
    }
    HexDigitValue(o / 16);
    HexDigitValue(o % 16);
    PercentDecodeTriple(h as int, l as int, tail);
  }

  lemma {:induction false} DecodeTriples(octets: seq<byte>, rest: seq<byte>)
    ensures PercentDecode(Utf8.Encode(PercentTriples(octets)) + rest) == octets + PercentDecode(rest)
  {
    if octets != [] {
      var o := octets[0];
      var tail := Utf8.Encode(PercentTriples(octets[1..])) + rest;
      Utf8.EncodeAppend(PercentTriple(o), PercentTriples(octets[1..]));
      assert Utf8.Encode(PercentTriples(octets)) + rest == Utf8.Encode(PercentTriple(o)) + tail;
      DecodeTriple(o, tail);
      DecodeTriples(octets[1..], rest);
      assert octets == [o] + octets[1..];
    } else {
      assert Utf8.Encode(PercentTriples(octets)) + rest == rest;
    }
  }

  /** Percent-decoding the bytes of encodeURIComponent's output gives the
      UTF-8 octets of the original string. */
  lemma {:induction false} DecodeEncoded(s: string)
    ensures PercentDecode(Utf8.Encode(EncodeURIComponent(s))) == Utf8.Encode(s)
  {
    if s != [] {
      var c := s[0];
      var rest := Utf8.Encode(EncodeURIComponent(s[1..]));
      Utf8.EncodeAppend(EscapeChar(c), EncodeURIComponent(s[1..]));
      if Unreserved(c) {
        assert Utf8.Encode([c]) == [c as int] by {
          assert [c][1..] == [];
        }
        PercentDecodeCopy(c as int, rest);
      } else {
        DecodeTriples(Utf8.EncodeChar(c), rest);
      }
      DecodeEncoded(s[1..]);
    }
  }

  /** Encoded text is ASCII, so its UTF-8 bytes are its characters' codes. */
  lemma EncodedBytes(s: string)
    ensures var r := EncodeURIComponent(s);
      var bs := Utf8.Encode(r);
      |bs| == |r| && forall i :: 0 <= i < |r| ==> bs[i] == r[i] as int
  {
    var r := EncodeURIComponent(s);
    assert forall i :: 0 <= i < |r| ==> r[i] as int < 0x80;
    Utf8.EncodeAscii(r);
  }

  /** A component written by encodeURIComponent is read back exactly. */
  lemma DecodeComponentEncoded(s: string)
    ensures DecodeComponent(Utf8.Encode(EncodeURIComponent(s))) == s
  {
    var r := EncodeURIComponent(s);
    var bs := Utf8.Encode(r);
    EncodedBytes(s);
    NoDelimiters(s);
    assert forall i :: 0 <= i < |bs| ==> bs[i] != 0x2B by {
      forall i | 0 <= i < |bs| ensures bs[i] != 0x2B {
        assert r[i] in r;
      }
    }
    assert ReplacePlus(bs) == bs;
    DecodeEncoded(s);
    Utf8.DecodeEncode(s);
  }

  /** Names made only of unescaped characters encode to themselves. */
  lemma {:induction false} EncodeUnreserved(s: string)
    requires forall i :: 0 <= i < |s| ==> Unreserved(s[i])
    ensures EncodeURIComponent(s) == s
  {
    if s != [] {
      EncodeUnreserved(s[1..]);
      assert [s[0]] + s[1..] == s;
    }
  }

  /** The query of `base?query` is `query` when `base` has no `?` and
      nothing in either has a `#`. */
  lemma QueryOfAppended(base: string, query: string)
    requires '?' !in base && '#' !in base && '#' !in query
    ensures QueryOf(base + "?" + query) == Some(query)
  {
    var url := base + "?" + query;
    assert IndexOf(url, '#') == |url| by {
      forall j | 0 <= j < |url| ensures url[j] != '#' {
        if j < |base| {
          assert url[j] == base[j] && base[j] in base;
        } else if j > |base| {
          assert url[j] == query[j - |base| - 1] && query[j - |base| - 1] in query;
        }
      }
      IndexOfIs(url, '#', |url|);
    }
    assert url[..|url|] == url;
    assert IndexOf(url, '?') == |base| by {
      forall j | 0 <= j < |base| ensures url[j] != '?' {
        assert url[j] == base[j] && base[j] in base;
      }
      assert url[|base|] == '?';
      IndexOfIs(url, '?', |base|);
    }
    assert url[|base| + 1..] == query;
  }

  /** Input without `&` is a single sequence. */
  lemma ParseFormSingle(input: seq<byte>)
    requires input != [] && 0x26 !in input
    ensures ParseForm(input) == [ParsePair(input)]
  {
    IndexOfIs(input, 0x26, |input|);
    assert input[..|input|] == input;
  }

  /** A sequence `name=value` with no `=` in the name splits at that `=`. */
  lemma ParsePairAt(nb: seq<byte>, vb: seq<byte>)
    requires 0x3D !in nb
    ensures ParsePair(nb + [0x3D] + vb) == (DecodeComponent(nb), DecodeComponent(vb))
  {
    var input := nb + [0x3D] + vb;
    assert input[|nb|] == 0x3D;
    forall j | 0 <= j < |nb| ensures input[j] != 0x3D {
      assert input[j] == nb[j] && nb[j] in nb;
    }
    IndexOfIs(input, 0x3D, |nb|);
    assert input[..|nb|] == nb && input[|nb| + 1..] == vb;
  }

  /** The bytes of encoded text contain no given delimiter it lacks. */
  lemma EncodedBytesLack(s: string, c: char)
    requires c !in EncodeURIComponent(s)
    ensures c as int !in Utf8.Encode(EncodeURIComponent(s))
  {
    var r := EncodeURIComponent(s);
    EncodedBytes(s);
    forall j | 0 <= j < |r| ensures Utf8.Encode(r)[j] != c as int {
      assert r[j] in r;
    }
  }

  /** `name=` followed by encoded text parses as that single pair. */
  lemma ParseSinglePair(name: string, value: string)
    requires forall i :: 0 <= i < |name| ==> Unreserved(name[i])
    ensures ParseForm(Utf8.Encode(name + "=" + EncodeURIComponent(value))) == [(name, value)]
  {
    var enc := EncodeURIComponent(value);
    EncodeUnreserved(name);
    NoDelimiters(value);
    NoDelimiters(name);
    var nb := Utf8.Encode(enc[..0] + name);
    assert enc[..0] + name == name;
    var eb := Utf8.Encode(enc);
    EncodedBytesLack(name, '&');
    EncodedBytesLack(name, '=');
    EncodedBytesLack(value, '&');
    Utf8.EncodeAppend(name + "=", enc);
    Utf8.EncodeAppend(name, "=");
    assert Utf8.Encode("=") == [0x3D];
    var input := nb + [0x3D] + eb;
    assert Utf8.Encode(name + "=" + enc) == input;
    assert 0x26 !in input;
    ParseFormSingle(input);
    ParsePairAt(nb, eb);
    DecodeComponentEncoded(name);
    DecodeComponentEncoded(value);
  }

  /** The round trip: a parameter whose value was written with
      encodeURIComponent is read back by `searchParams.get` exactly, for any
      URL before the `?` that has no query or fragment of its own. */
  lemma SearchParamRoundTrip(base: string, name: string, value: string)
    requires '?' !in base && '#' !in base
    requires forall i :: 0 <= i < |name| ==> Unreserved(name[i])
    ensures SearchParam(base + "?" + name + "=" + EncodeURIComponent(value), name) == Some(value)
  {
    var enc := EncodeURIComponent(value);
    var query := name + "=" + enc;
    NoDelimiters(value);
    EncodeUnreserved(name);
    NoDelimiters(name);
    assert '#' !in query;
    assert base + "?" + name + "=" + enc == base + "?" + query;
    QueryOfAppended(base, query);
    ParseSinglePair(name, value);
    assert Lookup([(name, value)], name) == Some(value);
  }
}
