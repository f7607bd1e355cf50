/** The unpadded URL-safe text of a cursor: the alphabet of section 5 of RFC 4648, with the
    padding of section 3.2 stripped by the encoder and restored by the decoder. */
module Base64Text {
  import opened Common

  type Byte = b: int | 0 <= b < 256
  type Sextet = s: int | 0 <= s < 64

  function CharOf(s: Sextet): char {
    if s < 26 then 'A' + s as char
    else if s < 52 then 'a' + (s - 26) as char
    else if s < 62 then '0' + (s - 52) as char
    else if s == 62 then '-'
    else '_'
  }

  /** The decoder also takes the standard alphabet's two characters for those of the URL-safe one. */
  function SextetOf(c: char): Option<Sextet> {
    if 'A' <= c <= 'Z' then Some((c - 'A') as int)
    else if 'a' <= c <= 'z' then Some(26 + (c - 'a') as int)
    else if '0' <= c <= '9' then Some(52 + (c - '0') as int)
    else if c == '-' || c == '+' then Some(62)
    else if c == '_' || c == '/' then Some(63)
    else None
  }

  lemma CharRoundTrip(s: Sextet)
    ensures SextetOf(CharOf(s)) == Some(s) && CharOf(s) != '='
  {
  }

  /** The four sextets of three bytes; a missing byte counts as zero. */
  function First(a: Byte): Sextet {
    a / 4
  }

  function Second(a: Byte, b: Byte): Sextet {
    a % 4 * 16 + b / 16
  }

  function Third(b: Byte, c: Byte): Sextet {
    b % 16 * 4 + c / 64
  }

  function Fourth(c: Byte): Sextet {
    c % 64
  }

  function Sextets(bytes: seq<Byte>): seq<Sextet> {
    if |bytes| == 0 then []
    else if |bytes| == 1 then [First(bytes[0]), Second(bytes[0], 0)]
    else if |bytes| == 2 then [First(bytes[0]), Second(bytes[0], bytes[1]), Third(bytes[1], 0)]
    else [First(bytes[0]), Second(bytes[0], bytes[1]), Third(bytes[1], bytes[2]), Fourth(bytes[2])] + Sextets(bytes[3..])
  }

  function FirstByte(s: Sextet, t: Sextet): Byte {
    s * 4 + t / 16
  }

  function SecondByte(t: Sextet, u: Sextet): Byte {
    t % 16 * 16 + u / 4
  }

  function ThirdByte(u: Sextet, v: Sextet): Byte {
    u % 4 * 64 + v
  }

  /** The bytes of whole groups of four, and of a last group of two or three; a lone sextet has none. */
  function Bytes(s: seq<Sextet>): Option<seq<Byte>> {
    if |s| == 0 then Some([])
    else if |s| == 1 then None
    else if |s| == 2 then Some([FirstByte(s[0], s[1])])
    else if |s| == 3 then Some([FirstByte(s[0], s[1]), SecondByte(s[1], s[2])])
    else
      var rest := Bytes(s[4..]);
      if rest.None? then None
      else Some([FirstByte(s[0], s[1]), SecondByte(s[1], s[2]), ThirdByte(s[2], s[3])] + rest.value)
  }

  /** The arithmetic of one group: each byte is recovered from its two sextets. */
  lemma GroupRoundTrip(a: Byte, b: Byte, c: Byte)
    ensures FirstByte(First(a), Second(a, b)) == a
    ensures SecondByte(Second(a, b), Third(b, c)) == b
    ensures ThirdByte(Third(b, c), Fourth(c)) == c
  {
  }

  /** The bytes read as one number, the first the most significant, and the sextets as one. */
  function NumberOfBytes(bytes: seq<Byte>): nat {
    if bytes == [] then 0 else NumberOfBytes(Front(bytes)) * 256 + Last(bytes)
  }

  function NumberOfSextets(s: seq<Sextet>): nat {
    if s == [] then 0 else NumberOfSextets(Front(s)) * 64 + Last(s)
  }

  lemma GroupIsNumber(a: Byte, b: Byte, c: Byte)
    ensures ((First(a) * 64 + Second(a, b)) * 64 + Third(b, c)) * 64 + Fourth(c) == (a * 256 + b) * 256 + c
  {
  }

  /** Three bytes and their four sextets are the same number. */
  lemma GroupKeepsNumber(bytes: seq<Byte>)
    requires |bytes| == 3
    ensures |Sextets(bytes)| == 4 && NumberOfSextets(Sextets(bytes)) == NumberOfBytes(bytes)
  {
    var a, b, c := bytes[0], bytes[1], bytes[2];
    assert bytes[3..] == [] && Front(bytes) == [a, b] && Front([a, b]) == [a] && Front([a]) == [];
    var m: int, n: int := a, b;
    assert NumberOfBytes([]) == 0 && NumberOfBytes([a]) == m && NumberOfBytes([a, b]) == m * 256 + n;
    var s := [First(a), Second(a, b), Third(b, c), Fourth(c)];
    assert Sextets([]) == [] && Sextets(bytes) == s;
    assert Front(s) == s[..3] && Front(s[..3]) == s[..2] && Front(s[..2]) == s[..1] && Front(s[..1]) == [];
    var t: int, u: int, v: int := s[0], s[1], s[2];
    assert NumberOfSextets([]) == 0 && NumberOfSextets(s[..1]) == t && NumberOfSextets(s[..2]) == t * 64 + u;
    assert NumberOfSextets(s[..3]) == (t * 64 + u) * 64 + v;
    GroupIsNumber(a, b, c);
    hide First, Second, Third, Fourth;
  }

  lemma {:induction false} BytesRoundTrip(bytes: seq<Byte>)
    ensures Bytes(Sextets(bytes)).Some? && Bytes(Sextets(bytes)).value == bytes
  {
    hide First, Second, Third, Fourth, FirstByte, SecondByte, ThirdByte;
    var s := Sextets(bytes);
    if |bytes| == 1 {
      GroupRoundTrip(bytes[0], 0, 0);
    } else if |bytes| == 2 {
      GroupRoundTrip(bytes[0], bytes[1], 0);
    } else if |bytes| > 2 {
      GroupRoundTrip(bytes[0], bytes[1], bytes[2]);
      BytesRoundTrip(bytes[3..]);
      assert s[4..] == Sextets(bytes[3..]);
      assert bytes == [bytes[0], bytes[1], bytes[2]] + bytes[3..];
    }
  }

  function Chars(sextets: seq<Sextet>): string {
    seq(|sextets|, i requires 0 <= i < |sextets| => CharOf(sextets[i]))
  }

  function SextetsOf(text: string): Option<seq<Sextet>> {
    if text == "" then Some([])
    else
      var first, rest := SextetOf(text[0]), SextetsOf(text[1..]);
      if first.None? || rest.None? then None else Some([first.value] + rest.value)
  }

  lemma {:induction false} CharsRoundTrip(sextets: seq<Sextet>)
    ensures SextetsOf(Chars(sextets)).Some? && SextetsOf(Chars(sextets)).value == sextets
  {
    if sextets != [] {
      CharRoundTrip(sextets[0]);
      CharsRoundTrip(sextets[1..]);
      assert Chars(sextets)[1..] == Chars(sextets[1..]);
      assert sextets == [sextets[0]] + sextets[1..];
    }
  }

  function Padding(length: nat): string {
    match length % 4
    case 0 => ""
    case 1 => "==="
    case 2 => "=="
    case _ => "="
  }

  function StripRight(text: string, c: char): (body: string)
    ensures |body| <= |text|
  {
    if text != "" && Last(text) == c then StripRight(Front(text), c) else text
  }

  /** The standard padded encoding. */
  function Encode(bytes: seq<Byte>): string {
    Chars(Sextets(bytes)) + Padding(|Sextets(bytes)|)
  }

  function EncodeUnpadded(bytes: seq<Byte>): string {
    StripRight(Encode(bytes), '=')
  }

  /** The strict decoding of a padded text: whole groups, padding only at the end and no more than needed. */
  function Decode(text: string): Option<seq<Byte>> {
    if |text| % 4 != 0 then None
    else
      var body := StripRight(text, '=');
      if Padding(|body|) != text[|body|..] || |body| % 4 == 1 then None
      else
        var sextets := SextetsOf(body);
        if sextets.None? then None else Bytes(sextets.value)
  }

  function DecodeUnpadded(text: string): Option<seq<Byte>> {
    Decode(text + Padding(|text|))
  }

  lemma {:induction false} StripRightPadding(body: string, n: nat)
    requires body == "" || Last(body) != '='
    ensures StripRight(body + seq(n, i => '='), '=') == body
  {
    var text := body + seq(n, i => '=');
    if n > 0 {
      StripRightPadding(body, n - 1);
      assert Front(text) == body + seq(n - 1, i => '=');
    } else {
      assert text == body;
    }
  }

  lemma PaddingIsEquals(length: nat)
    ensures Padding(length) == seq(|Padding(length)|, i => '=')
  {
  }

  lemma {:induction false} SextetsLength(bytes: seq<Byte>)
    ensures |Sextets(bytes)| % 4 != 1
  {
    if |bytes| >= 3 {
      SextetsLength(bytes[3..]);
    }
  }

  /** What the padded form strips to, and what its padding is. */
  lemma PaddedForm(bytes: seq<Byte>)
    ensures var body := Chars(Sextets(bytes));
            && StripRight(body + Padding(|body|), '=') == body
            && (body + Padding(|body|))[|body|..] == Padding(|body|)
            && |body + Padding(|body|)| % 4 == 0 && |body| % 4 != 1
  {
    var body := Chars(Sextets(bytes));
    CharsEnd(Sextets(bytes));
    CharsLength(Sextets(bytes));
    SextetsLength(bytes);
    hide Sextets, Chars, StripRight;
    PaddingIsEquals(|body|);
    PaddedLength(|body|);
    hide Padding;
    StripRightPadding(body, |Padding(|body|)|);
  }

  lemma CharsEnd(sextets: seq<Sextet>)
    ensures Chars(sextets) == "" || Last(Chars(sextets)) != '='
  {
    if sextets != [] {
      CharRoundTrip(Last(sextets));
    }
  }

  lemma PaddedLength(length: nat)
    ensures length % 4 != 1 ==> (length + |Padding(length)|) % 4 == 0
  {
  }

  /** The unpadded text decodes to exactly the bytes that were encoded. */
  lemma UnpaddedRoundTrip(bytes: seq<Byte>)
    ensures DecodeUnpadded(EncodeUnpadded(bytes)).Some? && DecodeUnpadded(EncodeUnpadded(bytes)).value == bytes
  {
    hide Sextets, Bytes, Chars, SextetsOf, StripRight, Padding;
    var sextets := Sextets(bytes);
    CharsLength(sextets);
    PaddedForm(bytes);
    CharsRoundTrip(sextets);
    BytesRoundTrip(bytes);
  }

  lemma CharsLength(sextets: seq<Sextet>)
    ensures |Chars(sextets)| == |sextets|
  {
  }

  /** A text whose length leaves one character over is the text of nothing: it would need three
      characters of padding, and no group has so many. */
  lemma LoneCharacterIsRefused(text: string)
    requires |text| % 4 == 1
    ensures DecodeUnpadded(text).None?
  {
    var padded := text + "===";
    assert Front(padded) == text + "==" && Front(text + "==") == text + "=" && Front(text + "=") == text;
    calc {
      StripRight(padded, '=');
      StripRight(text + "==", '=');
      StripRight(text + "=", '=');
      StripRight(text, '=');
    }
  }

  // ---------- Examples ----------

  lemma CharsOf(s: seq<Sextet>)
    requires |s| > 0
    ensures Chars(s) == [CharOf(s[0])] + Chars(s[1..])
  {
  }

  /** An example of section 10 of RFC 4648: "foobar". */
  lemma FoobarExample()
    ensures EncodeUnpadded([102, 111, 111, 98, 97, 114]) == "Zm9vYmFy"
  {
    var bytes: seq<Byte> := [102, 111, 111, 98, 97, 114];
    assert bytes[3..] == [98, 97, 114] && bytes[3..][3..] == [];
    assert Sextets(bytes[3..]) == [24, 38, 5, 50];
    assert Sextets(bytes) == [25, 38, 61, 47, 24, 38, 5, 50];
  }

  /** The two characters in which the URL-safe alphabet differs from the other. */
  lemma UrlSafeExample()
    ensures EncodeUnpadded([251, 255]) == "-_8"
  {
    assert Sextets([251, 255]) == [62, 63, 60];
  }
}
