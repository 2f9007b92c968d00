/** The `application/x-www-form-urlencoded` serializer of the WHATWG URL
    Standard (section 5.2), which `new URLSearchParams(record).toString()`
    runs: each name and value is UTF-8 encoded and percent-encoded with the
    form-urlencoded percent-encode set, a space becoming `+`; pairs are
    written `name=value` and joined with `&`.

    Beside it stands the standard's parser (section 5.1) restricted to
    well-formed UTF-8, and the proof that it inverts the serializer. */
module FormUrlencoded {
  import opened JsValues

  type Byte = b: int | 0 <= b < 256

  /** A Unicode scalar value: what a `char` holds. */
  predicate IsScalar(n: int) {
    0 <= n < 0xD800 || 0xE000 <= n < 0x11_0000
  }

  // ---------------------------------------------------------------------
  // UTF-8

  /** The UTF-8 encoding of one scalar value. */
  function EncodeScalar(c: char): (bs: seq<Byte>)
    ensures 1 <= |bs| <= 4
    ensures |bs| == 1 <==> c as int < 0x80
    ensures |bs| == 1 ==> bs[0] == c as int
  {
    var n := c as int;
    if n < 0x80 then [n]
    else if n < 0x800 then [0xC0 + n / 64, 0x80 + n % 64]
    else if n < 0x1_0000 then [0xE0 + n / 4096, 0x80 + (n / 64) % 64, 0x80 + n % 64]
    else [0xF0 + n / 262144, 0x80 + (n / 4096) % 64, 0x80 + (n / 64) % 64, 0x80 + n % 64]
  }

  function EncodeUtf8(s: string): seq<Byte> {
    if s == [] then [] else EncodeScalar(s[0]) + EncodeUtf8(s[1..])
  }

  /** Length of the sequence a lead byte starts; 0 for a byte that cannot
      start one. */
  function SequenceLength(b: Byte): nat {
    if b < 0x80 then 1
    else if 0xC0 <= b < 0xE0 then 2
    else if 0xE0 <= b < 0xF0 then 3
    else if 0xF0 <= b < 0xF8 then 4
    else 0
  }

  predicate IsContinuation(b: Byte) {
    0x80 <= b < 0xC0
  }

  function ScalarOf(bs: seq<Byte>): int
    requires 1 <= |bs| <= 4
  {
    var b: seq<int> := bs;
    if |b| == 1 then b[0]
    else if |b| == 2 then (b[0] - 0xC0) * 64 + (b[1] - 0x80)
    else if |b| == 3 then (b[0] - 0xE0) * 4096 + (b[1] - 0x80) * 64 + (b[2] - 0x80)
    else (b[0] - 0xF0) * 262144 + (b[1] - 0x80) * 4096 + (b[2] - 0x80) * 64 + (b[3] - 0x80)
  }

  /** The least scalar value a sequence of `n` bytes may encode; a smaller
      one is an overlong form. */
  function LeastScalar(n: nat): int {
    if n <= 1 then 0 else if n == 2 then 0x80 else if n == 3 then 0x800 else 0x1_0000
  }

  /** Strict UTF-8 decoding: `None` on a malformed sequence, including an
      overlong form, a surrogate or a value past U+10FFFF. */
  function DecodeUtf8(bs: seq<Byte>): Option<string>
    decreases |bs|
  {
    if bs == [] then Some("")
    else
      var n := SequenceLength(bs[0]);
      if n == 0 || |bs| < n || !(forall k :: 1 <= k < n ==> IsContinuation(bs[k])) then None
      else
        var cp := ScalarOf(bs[..n]);
        if !IsScalar(cp) || cp < LeastScalar(n) then None
        else
          match DecodeUtf8(bs[n..])
          case None => None
          case Some(rest) => Some([cp as char] + rest)
  }

  lemma DivMod64(n: nat)
    ensures n == 64 * (n / 64) + n % 64
    ensures (n / 64) / 64 == n / 4096
    ensures ((n / 64) / 64) / 64 == n / 262144
  {
  }

  /** Decoding the encoding of one scalar gives it back, and consumes
      exactly its bytes. */
  lemma {:induction false} DecodeScalar(c: char, rest: seq<Byte>)
    ensures DecodeUtf8(EncodeScalar(c) + rest) ==
      match DecodeUtf8(rest)
      case None => None
      case Some(t) => Some([c] + t)
  {
    var n := c as int;
    var bs := EncodeScalar(c) + rest;
    var k := |EncodeScalar(c)|;
    assert bs[..k] == EncodeScalar(c);
    assert bs[k..] == rest;
    DivMod64(n);
    DivMod64(n / 64);
    DivMod64(n / 4096);
    assert SequenceLength(bs[0]) == k;
    assert ScalarOf(bs[..k]) == n;
  }

  lemma {:induction false} DecodeEncodeUtf8(s: string)
    ensures DecodeUtf8(EncodeUtf8(s)) == Some(s)
  {
    if s != [] {
      DecodeEncodeUtf8(s[1..]);
      DecodeScalar(s[0], EncodeUtf8(s[1..]));
      assert [s[0]] + s[1..] == s;
    }
  }

  lemma DivModOf64(q: nat, r: nat)
    requires r < 64
    ensures (q * 64 + r) / 64 == q && (q * 64 + r) % 64 == r
  {
  }

  /** A well-formed sequence the decoder accepts is the encoding of the
      scalar it decodes to. */
  lemma ScalarEncoding(bs: seq<Byte>)
    requires 1 <= |bs| <= 4 && SequenceLength(bs[0]) == |bs|
    requires forall k :: 1 <= k < |bs| ==> IsContinuation(bs[k])
    requires IsScalar(ScalarOf(bs)) && ScalarOf(bs) >= LeastScalar(|bs|)
    ensures EncodeScalar(ScalarOf(bs) as char) == bs
  {
    var n := ScalarOf(bs);
    var b: seq<int> := bs;
    if |b| == 2 {
      DivModOf64(b[0] - 0xC0, b[1] - 0x80);
    } else if |b| == 3 {
      var hi := (b[0] - 0xE0) * 64 + (b[1] - 0x80);
      assert n == hi * 64 + (b[2] - 0x80);
      DivModOf64(hi, b[2] - 0x80);
      DivModOf64(b[0] - 0xE0, b[1] - 0x80);
      DivMod64(n);
    } else if |b| == 4 {
      var hi := (b[0] - 0xF0) * 64 + (b[1] - 0x80);
      var mid := hi * 64 + (b[2] - 0x80);
      assert n == mid * 64 + (b[3] - 0x80);
      DivModOf64(mid, b[3] - 0x80);
      DivModOf64(hi, b[2] - 0x80);
      DivModOf64(b[0] - 0xF0, b[1] - 0x80);
      DivMod64(n);
      DivMod64(n / 64);
    }
  }

  /** The decoder is strict: whatever it accepts is exactly the encoding of
      what it returns, so no overlong form, surrogate or value past
      U+10FFFF gets through. */
  lemma {:induction false} EncodeDecodeUtf8(bs: seq<Byte>)
    ensures DecodeUtf8(bs).Some? ==> EncodeUtf8(DecodeUtf8(bs).value) == bs
    decreases |bs|
  {
    if bs != [] && DecodeUtf8(bs).Some? {
      var n := SequenceLength(bs[0]);
      var s := DecodeUtf8(bs).value;
      EncodeDecodeUtf8(bs[n..]);
      ScalarEncoding(bs[..n]);
      assert s[1..] == DecodeUtf8(bs[n..]).value;
      assert bs[..n] + bs[n..] == bs;
    }
  }

  // ---------------------------------------------------------------------
  // Percent-encoding

  /** The characters the form-urlencoded percent-encode set leaves alone:
      ASCII letters and digits, `*`, `-`, `.` and `_`. */
  predicate IsUnreserved(c: char) {
    'a' <= c <= 'z' || 'A' <= c <= 'Z' || '0' <= c <= '9' ||
    c == '*' || c == '-' || c == '.' || c == '_'
  }

  /** Every character an encoded component can contain. */
  predicate IsEncodedChar(c: char) {
    IsUnreserved(c) || c == '+' || c == '%'
  }

  function HexDigit(d: int): (c: char)
    requires 0 <= d < 16
    ensures IsUnreserved(c)
  {
    if d < 10 then ('0' as int + d) as char else ('A' as int + d - 10) as char
  }

  predicate IsHexDigit(c: char) {
    '0' <= c <= '9' || 'A' <= c <= 'F' || 'a' <= c <= 'f'
  }

  function HexValue(c: char): (d: int)
    requires IsHexDigit(c)
    ensures 0 <= d < 16
  {
    if '0' <= c <= '9' then c as int - '0' as int
    else if 'A' <= c <= 'F' then c as int - 'A' as int + 10
    else c as int - 'a' as int + 10
  }

  /** One byte under the percent-encode-after-encoding algorithm with
      space-as-plus. */
  function EncodeByte(b: Byte): (t: string)
    ensures forall c :: c in t ==> IsEncodedChar(c)
  {
    if b == 0x20 then "+"
    else if b < 0x80 && IsUnreserved(b as char) then [b as char]
    else ['%', HexDigit(b / 16), HexDigit(b % 16)]
  }

  function PercentEncode(bs: seq<Byte>): (t: string)
    ensures forall c :: c in t ==> IsEncodedChar(c)
  {
    if bs == [] then "" else EncodeByte(bs[0]) + PercentEncode(bs[1..])
  }

  /** A name or value as the serializer writes it. */
  function Encode(s: string): (t: string)
    ensures forall c :: c in t ==> IsEncodedChar(c)
  {
    PercentEncode(EncodeUtf8(s))
  }

  /** Percent-decoding of a component after `+` has become a space: a `%`
      followed by two hex digits gives one byte, any other character its
      UTF-8 bytes (a stray `%` stays as it is). */
  function PercentDecode(t: string): seq<Byte>
    decreases |t|
  {
    if t == [] then []
    else if t[0] == '+' then [0x20] + PercentDecode(t[1..])
    else if t[0] == '%' && |t| >= 3 && IsHexDigit(t[1]) && IsHexDigit(t[2]) then
      [HexValue(t[1]) * 16 + HexValue(t[2])] + PercentDecode(t[3..])
    else EncodeScalar(t[0]) + PercentDecode(t[1..])
  }

  lemma DecodeByte(b: Byte, rest: string)
    ensures PercentDecode(EncodeByte(b) + rest) == [b] + PercentDecode(rest)
  {
    var t := EncodeByte(b) + rest;
    if b == 0x20 {
      assert t[1..] == rest;
    } else if b < 0x80 && IsUnreserved(b as char) {
      assert t[1..] == rest;
    } else {
      assert t[3..] == rest;
      assert HexValue(HexDigit(b / 16)) == b / 16;
      assert HexValue(HexDigit(b % 16)) == b % 16;
    }
  }

  lemma {:induction false} DecodePercentEncode(bs: seq<Byte>)
    ensures PercentDecode(PercentEncode(bs)) == bs
  {
    if bs != [] {
      DecodePercentEncode(bs[1..]);
      DecodeByte(bs[0], PercentEncode(bs[1..]));
      assert [bs[0]] + bs[1..] == bs;
    }
  }

  /** A name or value as the parser reads it back. */
  function Decode(t: string): Option<string> {
    DecodeUtf8(PercentDecode(t))
  }

  /** Decoding inverts encoding, for every string. */
  lemma DecodeEncode(s: string)
    ensures Decode(Encode(s)) == Some(s)
  {
    DecodePercentEncode(EncodeUtf8(s));
    DecodeEncodeUtf8(s);
  }

  /** A string of unreserved ASCII characters is its own encoding. */
  lemma {:induction false} EncodeUnreserved(s: string)
    requires forall c :: c in s ==> IsUnreserved(c)
    ensures Encode(s) == s
  {
    if s != [] {
      assert s[0] in s;
      assert forall c :: c in s[1..] ==> c in s;
      EncodeUnreserved(s[1..]);
      assert s[0] as int < 0x80;
      assert EncodeUtf8(s) == [s[0] as int] + EncodeUtf8(s[1..]);
      assert [s[0]] + s[1..] == s;
    }
  }

  // ---------------------------------------------------------------------
  // Serializer and parser

  function SerializePair(p: (string, string)): string {
    Encode(p.0) + "=" + Encode(p.1)
  }

  /** The serializer: pairs in order, `&` between two of them. */
  function Serialize(pairs: seq<(string, string)>): (t: string)
    ensures t == "" <==> pairs == []
    ensures forall c :: c in t ==> IsEncodedChar(c) || c == '=' || c == '&'
  {
    if pairs == [] then ""
    else if |pairs| == 1 then SerializePair(pairs[0])
    else SerializePair(pairs[0]) + "&" + Serialize(pairs[1..])
  }

  /** Splitting on every occurrence of a separator (`"".split(sep)` is `[""]`). */
  function SplitOn(s: string, sep: char): (parts: seq<string>)
    ensures |parts| >= 1
    decreases |s|
  {
    if s == [] then [""]
    else if s[0] == sep then [""] + SplitOn(s[1..], sep)
    else
      var r := SplitOn(s[1..], sep);
      [[s[0]] + r[0]] + r[1..]
  }

  /** Splitting at the first occurrence of a separator; without one, the
      whole string and an empty second part. */
  function SplitAtFirst(s: string, sep: char): (string, string)
    decreases |s|
  {
    if s == [] then ("", "")
    else if s[0] == sep then ("", s[1..])
    else
      var (a, b) := SplitAtFirst(s[1..], sep);
      ([s[0]] + a, b)
  }

  function ParseSegments(segments: seq<string>): Option<seq<(string, string)>> {
    if segments == [] then Some([])
    else if segments[0] == "" then ParseSegments(segments[1..])
    else
      var (name, value) := SplitAtFirst(segments[0], '=');
      match (Decode(name), Decode(value), ParseSegments(segments[1..]))
      case (Some(n), Some(v), Some(rest)) => Some([(n, v)] + rest)
      case _ => None
  }

  /** The parser: empty segments are skipped; `None` on malformed UTF-8. */
  function Parse(t: string): Option<seq<(string, string)>> {
    ParseSegments(SplitOn(t, '&'))
  }

  lemma {:induction false} SplitOnNoSeparator(a: string, sep: char)
    requires sep !in a
    ensures SplitOn(a, sep) == [a]
  {
    if a != [] {
      SplitOnNoSeparator(a[1..], sep);
      assert [a[0]] + a[1..] == a;
    }
  }

  lemma {:induction false} SplitOnFirstPart(a: string, sep: char, rest: string)
    requires sep !in a
    ensures SplitOn(a + [sep] + rest, sep) == [a] + SplitOn(rest, sep)
  {
    var s := a + [sep] + rest;
    if a == [] {
      assert s[1..] == rest;
    } else {
      assert s[1..] == a[1..] + [sep] + rest;
      SplitOnFirstPart(a[1..], sep, rest);
      assert [a[0]] + a[1..] == a;
    }
  }

  lemma {:induction false} SplitAtFirstPart(a: string, sep: char, b: string)
    requires sep !in a
    ensures SplitAtFirst(a + [sep] + b, sep) == (a, b)
  {
    var s := a + [sep] + b;
    if a == [] {
      assert s[1..] == b;
    } else {
      assert s[1..] == a[1..] + [sep] + b;
      SplitAtFirstPart(a[1..], sep, b);
      assert [a[0]] + a[1..] == a;
    }
  }

  lemma ParsePair(p: (string, string))
    ensures SerializePair(p) != ""
    ensures '&' !in SerializePair(p)
    ensures SplitAtFirst(SerializePair(p), '=') == (Encode(p.0), Encode(p.1))
    ensures Decode(Encode(p.0)) == Some(p.0) && Decode(Encode(p.1)) == Some(p.1)
  {
    var a, b := Encode(p.0), Encode(p.1);
    assert SerializePair(p) == a + ['='] + b;
    assert '&' !in SerializePair(p) by {
      assert forall c :: c in a + ['='] + b ==> c in a || c == '=' || c in b;
    }
    assert SplitAtFirst(SerializePair(p), '=') == (a, b) by {
      assert '=' !in a;
      SplitAtFirstPart(a, '=', b);
    }
    DecodeEncode(p.0);
    DecodeEncode(p.1);
  }

  /** The serialized pairs split on `&` into one segment per pair. */
  lemma {:induction false} SplitSerialized(pairs: seq<(string, string)>)
    requires pairs != []
    ensures SplitOn(Serialize(pairs), '&') == seq(|pairs|, i requires 0 <= i < |pairs| => SerializePair(pairs[i]))
  {
    ParsePair(pairs[0]);
    if |pairs| == 1 {
      SplitOnNoSeparator(SerializePair(pairs[0]), '&');
    } else {
      SplitSerialized(pairs[1..]);
      SplitOnFirstPart(SerializePair(pairs[0]), '&', Serialize(pairs[1..]));
    }
  }

  lemma {:induction false} ParseSerializedSegments(pairs: seq<(string, string)>)
    ensures ParseSegments(seq(|pairs|, i requires 0 <= i < |pairs| => SerializePair(pairs[i]))) == Some(pairs)
  {
    var segments := seq(|pairs|, i requires 0 <= i < |pairs| => SerializePair(pairs[i]));
    if pairs != [] {
      ParsePair(pairs[0]);
      ParseSerializedSegments(pairs[1..]);
      assert segments[1..] == seq(|pairs[1..]|, i requires 0 <= i < |pairs[1..]| => SerializePair(pairs[1..][i]));
      assert [pairs[0]] + pairs[1..] == pairs;
    }
  }

  /** Round trip: parsing what the serializer wrote gives back the same
      pairs, in the same order, for every list of strings. */
  lemma RoundTrip(pairs: seq<(string, string)>)
    ensures Parse(Serialize(pairs)) == Some(pairs)
  {
    if pairs == [] {
      assert SplitOn("", '&') == [""];
    } else {
      SplitSerialized(pairs);
      ParseSerializedSegments(pairs);
    }
  }
}
