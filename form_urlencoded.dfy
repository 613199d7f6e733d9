/** The application/x-www-form-urlencoded serializer of the WHATWG URL Standard (section 5.2),
    which `URLSearchParams.prototype.toString` runs: every name and value is encoded as UTF-8,
    each byte is percent-encoded unless it is an ASCII alphanumeric or one of `*-._`, a space
    becomes `+`, and the pairs are written `name=value` joined by `&`.
    A strict reader of that output is given beside it as its partner. */
module FormUrlencoded {
  import opened Wrappers

  type Byte = b: int | 0 <= b < 256

  /** The UTF-8 encoding of one Unicode scalar value. */
  function Utf8(c: char): (bs: seq<Byte>)
    ensures 1 <= |bs| <= 4
    ensures (c as int < 0x80) <==> |bs| == 1
  {
    var cp := c as int;
    if cp < 0x80 then [cp]
    else if cp < 0x800 then [0xC0 + cp / 0x40, 0x80 + cp % 0x40]
    else if cp < 0x1_0000 then [0xE0 + cp / 0x1000, 0x80 + (cp / 0x40) % 0x40, 0x80 + cp % 0x40]
    else [0xF0 + cp / 0x4_0000, 0x80 + (cp / 0x1000) % 0x40, 0x80 + (cp / 0x40) % 0x40, 0x80 + cp % 0x40]
  }

  function Utf8String(s: string): seq<Byte> {
    if s == [] then [] else Utf8(s[0]) + Utf8String(s[1..])
  }

  /** The bytes the serializer leaves as they are. */
  predicate IsPlainByte(b: Byte) {
    b == 0x2A || b == 0x2D || b == 0x2E || b == 0x5F
    || (0x30 <= b <= 0x39) || (0x41 <= b <= 0x5A) || (0x61 <= b <= 0x7A)
  }

  function HexDigit(d: nat): (c: char)
    requires d < 16
    ensures c != '&' && c != '='
  {
    "0123456789ABCDEF"[d]
  }

  /** A hexadecimal digit as the serializer writes it (upper case). */
  predicate IsHexDigit(c: char) {
    ('0' <= c <= '9') || ('A' <= c <= 'F')
  }

  function HexValue(c: char): (d: nat)
    requires IsHexDigit(c)
    ensures d < 16
  {
    if '0' <= c <= '9' then c as int - '0' as int
    else c as int - 'A' as int + 10
  }

  lemma HexValueOfDigit(d: nat)
    requires d < 16
    ensures IsHexDigit(HexDigit(d)) && HexValue(HexDigit(d)) == d
  {
  }

  lemma HexDigitOfValue(c: char)
    requires IsHexDigit(c)
    ensures HexDigit(HexValue(c)) == c
  {
  }

  /** One byte as the serializer writes it. */
  function EncodeByte(b: Byte): (s: string)
    ensures '&' !in s && '=' !in s
  {
    if b == 0x20 then "+"
    else if IsPlainByte(b) then [b as char]
    else ['%', HexDigit(b / 16), HexDigit(b % 16)]
  }

  function EncodeBytes(bs: seq<Byte>): (s: string)
    ensures '&' !in s && '=' !in s
  {
    if bs == [] then "" else EncodeByte(bs[0]) + EncodeBytes(bs[1..])
  }

  /** A name or value as it appears in the serialized string. */
  function Encode(s: string): string {
    EncodeBytes(Utf8String(s))
  }

  /** Characters the serializer writes unchanged. */
  predicate IsPlainString(s: string) {
    forall i :: 0 <= i < |s| ==> s[i] as int < 0x80 && IsPlainByte(s[i] as int)
  }

  /** ASCII alphanumerics and `*-._` pass through the serializer unchanged. */
  lemma {:induction false} EncodePlain(s: string)
    requires IsPlainString(s)
    ensures Encode(s) == s
  {
    if s != [] {
      EncodePlain(s[1..]);
      var bs := Utf8String(s);
      assert bs == [s[0] as int] + Utf8String(s[1..]);
      assert bs[1..] == Utf8String(s[1..]);
      assert [s[0]] + s[1..] == s;
    }
  }

  function Piece(pair: (string, string)): (p: string)
    ensures '&' !in p && '=' in p
  {
    Encode(pair.0) + "=" + Encode(pair.1)
  }

  function Pieces(pairs: seq<(string, string)>): (ps: seq<string>)
    ensures |ps| == |pairs|
    ensures forall i :: 0 <= i < |ps| ==> ps[i] == Piece(pairs[i])
  {
    if pairs == [] then [] else [Piece(pairs[0])] + Pieces(pairs[1..])
  }

  /** `parts` written one after another with `sep` between neighbours. */
  function Join(parts: seq<string>, sep: char): string
    requires |parts| > 0
  {
    if |parts| == 1 then parts[0] else parts[0] + [sep] + Join(parts[1..], sep)
  }

  /** The serializer: the empty string for no pairs, otherwise `name=value` pieces joined by `&`. */
  function Serialize(pairs: seq<(string, string)>): string {
    if pairs == [] then "" else Join(Pieces(pairs), '&')
  }

  /** The serialized string is empty exactly when there are no pairs. */
  lemma SerializeEmpty(pairs: seq<(string, string)>)
    ensures Serialize(pairs) == "" <==> pairs == []
  {
    if pairs != [] {
      var ps := Pieces(pairs);
      if |ps| > 1 {
        assert Serialize(pairs) == ps[0] + ['&'] + Join(ps[1..], '&');
      }
      assert '=' in ps[0];
      assert |Serialize(pairs)| >= |ps[0]| > 0;
    }
  }

  // ---- the reading direction ----

  /** The bytes the serializer writes as `%XX`. */
  predicate EscapedByte(b: Byte) {
    b != 0x20 && !IsPlainByte(b)
  }

  function Prepend(b: Byte, rest: Option<seq<Byte>>): Option<seq<Byte>> {
    if rest.Some? then Some([b] + rest.value) else None
  }

  /** Reads back a string the serializer could have written: `+` is a space, `%XX` (upper-case
      digits) a byte the serializer escapes, a plain character its own byte; anything else,
      including an escape of a space or of a plain byte, is rejected. */
  function DecodeBytes(s: string): Option<seq<Byte>> {
    if s == [] then Some([])
    else if s[0] == '+' then Prepend(0x20, DecodeBytes(s[1..]))
    else if s[0] == '%' then
      if |s| >= 3 && IsHexDigit(s[1]) && IsHexDigit(s[2])
         && EscapedByte(HexValue(s[1]) * 16 + HexValue(s[2]))
      then Prepend(HexValue(s[1]) * 16 + HexValue(s[2]), DecodeBytes(s[3..]))
      else None
    else if s[0] as int < 256 && IsPlainByte(s[0] as int) then Prepend(s[0] as int, DecodeBytes(s[1..]))
    else None
  }

  lemma DecodeEncodeByte(b: Byte, rest: string)
    ensures DecodeBytes(EncodeByte(b) + rest) == Prepend(b, DecodeBytes(rest))
  {
    var s := EncodeByte(b) + rest;
    if b == 0x20 {
      assert s[1..] == rest;
    } else if IsPlainByte(b) {
      assert s[1..] == rest;
    } else {
      HexValueOfDigit(b / 16);
      HexValueOfDigit(b % 16);
      assert s[3..] == rest;
    }
  }

  /** Percent-encoding loses nothing: reading the encoded bytes gives them back. */
  lemma {:induction false} DecodeEncodeBytes(bs: seq<Byte>)
    ensures DecodeBytes(EncodeBytes(bs)) == Some(bs)
  {
    if bs != [] {
      DecodeEncodeByte(bs[0], EncodeBytes(bs[1..]));
      DecodeEncodeBytes(bs[1..]);
      assert [bs[0]] + bs[1..] == bs;
    }
  }

  /** The reader accepts nothing but the serializer's output: whatever it reads is written
      back by the serializer as exactly the string it read. */
  lemma {:induction false} EncodeDecodeBytes(s: string)
    requires DecodeBytes(s).Some?
    ensures EncodeBytes(DecodeBytes(s).value) == s
  {
    if s != [] {
      var bs := DecodeBytes(s).value;
      if s[0] == '+' {
        EncodeDecodeBytes(s[1..]);
        assert bs[1..] == DecodeBytes(s[1..]).value;
      } else if s[0] == '%' {
        var b := HexValue(s[1]) * 16 + HexValue(s[2]);
        EncodeDecodeBytes(s[3..]);
        assert bs[0] == b && bs[1..] == DecodeBytes(s[3..]).value;
        assert b / 16 == HexValue(s[1]) && b % 16 == HexValue(s[2]);
        HexDigitOfValue(s[1]);
        HexDigitOfValue(s[2]);
        assert EncodeByte(b) == s[..3];
        assert s == s[..3] + s[3..];
      } else {
        EncodeDecodeBytes(s[1..]);
        assert bs[1..] == DecodeBytes(s[1..]).value;
        assert EncodeByte(bs[0]) == [s[0]];
        assert s == [s[0]] + s[1..];
      }
    }
  }

  /** The pieces of `s` between occurrences of `sep` (at least one, possibly empty, piece). */
  function Split(s: string, sep: char): (parts: seq<string>)
    ensures |parts| > 0
  {
    if s == [] then [[]]
    else
      var rest := Split(s[1..], sep);
      if s[0] == sep then [[]] + rest else [[s[0]] + rest[0]] + rest[1..]
  }

  lemma {:induction false} SplitFreePrefix(a: string, t: string, sep: char)
    requires sep !in a
    ensures Split(a + t, sep) == [a + Split(t, sep)[0]] + Split(t, sep)[1..]
  {
    if a != [] {
      assert (a + t)[1..] == a[1..] + t;
      SplitFreePrefix(a[1..], t, sep);
      assert [a[0]] + (a[1..] + Split(t, sep)[0]) == a + Split(t, sep)[0];
    } else {
      assert a + t == t;
      var parts := Split(t, sep);
      assert a + parts[0] == parts[0];
      assert [parts[0]] + parts[1..] == parts;
    }
  }

  /** Splitting at `sep` undoes joining with `sep` when no part holds `sep`. */
  lemma {:induction false} SplitJoin(parts: seq<string>, sep: char)
    requires |parts| > 0
    requires forall i :: 0 <= i < |parts| ==> sep !in parts[i]
    ensures Split(Join(parts, sep), sep) == parts
  {
    if |parts| == 1 {
      SplitFreePrefix(parts[0], [], sep);
      assert parts[0] + [] == parts[0];
    } else {
      var tail := Join(parts[1..], sep);
      SplitJoin(parts[1..], sep);
      SplitFreePrefix(parts[0], [sep] + tail, sep);
      assert parts[0] + [sep] + tail == parts[0] + ([sep] + tail);
      assert ([sep] + tail)[1..] == tail;
      assert Split([sep] + tail, sep) == [[]] + parts[1..];
      assert parts[0] + [] == parts[0];
      assert [parts[0]] + parts[1..] == parts;
    }
  }

  function ReadPair(piece: string): Option<(seq<Byte>, seq<Byte>)> {
    var nv := Split(piece, '=');
    if |nv| != 2 then None
    else
      var name, value := DecodeBytes(nv[0]), DecodeBytes(nv[1]);
      if name.Some? && value.Some? then Some((name.value, value.value)) else None
  }

  function ReadPairs(pieces: seq<string>): Option<seq<(seq<Byte>, seq<Byte>)>> {
    if pieces == [] then Some([])
    else
      var first, rest := ReadPair(pieces[0]), ReadPairs(pieces[1..]);
      if first.Some? && rest.Some? then Some([first.value] + rest.value) else None
  }

  /** Reads a serialized string back into its name/value pairs, as UTF-8 bytes. */
  function Parse(q: string): Option<seq<(seq<Byte>, seq<Byte>)>> {
    if q == "" then Some([]) else ReadPairs(Split(q, '&'))
  }

  /** What the server receives for each pair: the UTF-8 bytes of its name and its value. */
  function EncodedPairs(pairs: seq<(string, string)>): (r: seq<(seq<Byte>, seq<Byte>)>)
    ensures |r| == |pairs|
  {
    if pairs == [] then [] else [(Utf8String(pairs[0].0), Utf8String(pairs[0].1))] + EncodedPairs(pairs[1..])
  }

  lemma ReadPiece(pair: (string, string))
    ensures ReadPair(Piece(pair)) == Some((Utf8String(pair.0), Utf8String(pair.1)))
  {
    var n, v := Encode(pair.0), Encode(pair.1);
    SplitJoin([n, v], '=');
    assert Join([n, v], '=') == Piece(pair);
    DecodeEncodeBytes(Utf8String(pair.0));
    DecodeEncodeBytes(Utf8String(pair.1));
  }

  lemma {:induction false} ReadPieces(pairs: seq<(string, string)>)
    ensures ReadPairs(Pieces(pairs)) == Some(EncodedPairs(pairs))
  {
    if pairs != [] {
      ReadPiece(pairs[0]);
      assert Pieces(pairs)[1..] == Pieces(pairs[1..]);
      ReadPieces(pairs[1..]);
    }
  }

  /** Round trip: every pair comes back, in order, as the UTF-8 bytes of its name and value;
      in particular no `&` or `=` inside a value can split or merge pairs. */
  lemma ParseSerialize(pairs: seq<(string, string)>)
    ensures Parse(Serialize(pairs)) == Some(EncodedPairs(pairs))
  {
    SerializeEmpty(pairs);
    if pairs != [] {
      SplitJoin(Pieces(pairs), '&');
      ReadPieces(pairs);
    }
  }
}
