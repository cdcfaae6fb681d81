/**
 * `base64.b64encode` and `base64.b64decode` as `prepareContent` and
 * `get_content` (github_api.py) call them. Encoding follows section 4 of
 * RFC 4648 (the standard alphabet, '=' padding). Decoding follows CPython's
 * `binascii.a2b_base64` in its default, non-strict mode: bytes outside the
 * alphabet are skipped, a complete padding ends the input, and a leftover
 * partial group is an error.
 */
module Base64 {
  import opened Wrappers
  import opened Utf8

  // ---------------------------------------------------------------------------
  // the alphabet
  // ---------------------------------------------------------------------------

  /** The character for a 6-bit value. */
  function AlphabetChar(v: nat): (c: char)
    requires v < 64
    ensures c as int < 0x80 && c != Pad
  {
    if v < 26 then ('A' as int + v) as char
    else if v < 52 then ('a' as int + (v - 26)) as char
    else if v < 62 then ('0' as int + (v - 52)) as char
    else if v == 62 then '+'
    else '/'
  }

  const Pad: char := '='

  /** `table_a2b_base64`: the 6-bit value of an alphabet byte, 64 for every other byte. */
  function SextetOf(b: byte): (v: nat)
    ensures v <= 64
  {
    if 'A' as int <= b <= 'Z' as int then b - 'A' as int
    else if 'a' as int <= b <= 'z' as int then b - 'a' as int + 26
    else if '0' as int <= b <= '9' as int then b - '0' as int + 52
    else if b == '+' as int then 62
    else if b == '/' as int then 63
    else 64
  }

  /** The decoding table inverts the alphabet. */
  lemma SextetOfAlphabet(v: nat)
    requires v < 64
    ensures SextetOf(AlphabetChar(v) as int) == v
  {
  }

  // ---------------------------------------------------------------------------
  // encoding
  // ---------------------------------------------------------------------------

  /** One group of three bytes as four characters. */
  function Quad(b0: byte, b1: byte, b2: byte): string {
    [AlphabetChar(b0 / 4), AlphabetChar((b0 % 4) * 16 + b1 / 16),
     AlphabetChar((b1 % 16) * 4 + b2 / 64), AlphabetChar(b2 % 64)]
  }

  /** `b64encode`: each group of three bytes as four characters; a last group of one or two bytes padded with '='. */
  function Encode(data: seq<byte>): string
    decreases |data|
  {
    if |data| == 0 then ""
    else if |data| == 1 then
      [AlphabetChar(data[0] / 4), AlphabetChar((data[0] % 4) * 16), Pad, Pad]
    else if |data| == 2 then
      [AlphabetChar(data[0] / 4), AlphabetChar((data[0] % 4) * 16 + data[1] / 16), AlphabetChar((data[1] % 16) * 4), Pad]
    else
      Quad(data[0], data[1], data[2]) + Encode(data[3..])
  }

  /** How many '=' close the encoding of `n` bytes. */
  function PadCount(n: nat): nat {
    if n % 3 == 0 then 0 else 3 - n % 3
  }

  /** The encoding of `n` bytes has `4 * ceil(n / 3)` characters. */
  lemma {:induction false} EncodeLength(data: seq<byte>)
    ensures |Encode(data)| == 4 * ((|data| + 2) / 3)
    decreases |data|
  {
    if |data| >= 3 {
      EncodeLength(data[3..]);
    }
  }

  /** Only the last `PadCount` characters are '='. */
  lemma {:induction false} EncodePadding(data: seq<byte>)
    ensures var r := Encode(data);
      forall k :: 0 <= k < |r| ==> (r[k] == Pad <==> k >= |r| - PadCount(|data|))
    decreases |data|
  {
    if |data| >= 3 {
      EncodePadding(data[3..]);
      EncodeLength(data[3..]);
      var q := Quad(data[0], data[1], data[2]);
      var rest := Encode(data[3..]);
      assert PadCount(|data|) == PadCount(|data[3..]|);
      forall k | 0 <= k < |q + rest|
        ensures (q + rest)[k] == Pad <==> k >= |q + rest| - PadCount(|data|)
      {
        if k >= 4 { assert (q + rest)[k] == rest[k - 4]; } else { assert (q + rest)[k] == q[k]; }
      }
    }
  }

  // ---------------------------------------------------------------------------
  // decoding
  // ---------------------------------------------------------------------------

  /**
   * The decoder's state: how many characters of the current group are in
   * (`quad_pos`), the bits carried to the next byte (`leftchar`), the '='
   * seen since the last data character (`pads`), and the bytes so far.
   */
  datatype Decoder = Decoder(quadPos: nat, leftchar: nat, pads: nat, out: seq<byte>)

  /** The carried bits fit the bytes they complete. */
  predicate Carries(d: Decoder) {
    d.quadPos <= 3 &&
    (d.quadPos == 1 ==> d.leftchar < 64) &&
    (d.quadPos == 2 ==> d.leftchar < 16) &&
    (d.quadPos == 3 ==> d.leftchar < 4)
  }

  /** One data character, of 6-bit value `v`, into the current group. */
  function Feed(d: Decoder, v: nat): (r: Decoder)
    requires Carries(d) && v < 64
    ensures Carries(r)
  {
    if d.quadPos == 0 then Decoder(1, v, d.pads, d.out)
    else if d.quadPos == 1 then Decoder(2, v % 16, d.pads, d.out + [d.leftchar * 4 + v / 16])
    else if d.quadPos == 2 then Decoder(3, v % 4, d.pads, d.out + [d.leftchar * 16 + v / 4])
    else Decoder(0, 0, d.pads, d.out + [d.leftchar * 64 + v])
  }

  /** The rest of the input through the decoder: the bytes, or None where Python raises `binascii.Error`. */
  function Scan(input: seq<byte>, d: Decoder): Option<seq<byte>>
    requires Carries(d)
    decreases |input|
  {
    if |input| == 0 then
      if d.quadPos == 0 then Some(d.out) else None
    else if input[0] == Pad as int then
      if d.quadPos >= 2 then
        if d.quadPos + d.pads + 1 >= 4 then Some(d.out)
        else Scan(input[1..], d.(pads := d.pads + 1))
      else Scan(input[1..], d)
    else if SextetOf(input[0]) == 64 then Scan(input[1..], d)
    else Scan(input[1..], Feed(d.(pads := 0), SextetOf(input[0])))
  }

  /** `b64decode(data)`. */
  function Decode(data: seq<byte>): Option<seq<byte>> {
    Scan(data, Decoder(0, 0, 0, []))
  }

  /**
   * A byte outside the alphabet that is not '=' (the '\n' with which GitHub
   * wraps its base64 every 60 columns, say) is skipped wherever it stands.
   */
  lemma {:induction false} SkipsNonAlphabet(xs: seq<byte>, x: byte, ys: seq<byte>, d: Decoder)
    requires Carries(d) && x != Pad as int && SextetOf(x) == 64
    ensures Scan(xs + [x] + ys, d) == Scan(xs + ys, d)
    decreases |xs|
  {
    if |xs| == 0 {
      assert xs + [x] + ys == [x] + ys && xs + ys == ys;
      assert ([x] + ys)[1..] == ys;
    } else {
      assert (xs + [x] + ys)[1..] == xs[1..] + [x] + ys;
      assert (xs + ys)[1..] == xs[1..] + ys;
      assert (xs + [x] + ys)[0] == (xs + ys)[0] == xs[0];
      var c := xs[0];
      if c == Pad as int {
        if d.quadPos >= 2 && d.quadPos + d.pads + 1 < 4 {
          SkipsNonAlphabet(xs[1..], x, ys, d.(pads := d.pads + 1));
        } else if d.quadPos < 2 {
          SkipsNonAlphabet(xs[1..], x, ys, d);
        }
      } else if SextetOf(c) == 64 {
        SkipsNonAlphabet(xs[1..], x, ys, d);
      } else {
        SkipsNonAlphabet(xs[1..], x, ys, Feed(d.(pads := 0), SextetOf(c)));
      }
    }
  }

  /** A line break anywhere in the input changes nothing. */
  lemma SkipsNewline(xs: seq<byte>, ys: seq<byte>)
    ensures Decode(xs + ['\n' as int] + ys) == Decode(xs + ys)
  {
    SkipsNonAlphabet(xs, '\n' as int, ys, Decoder(0, 0, 0, []));
  }

  // ---------------------------------------------------------------------------
  // round trip
  // ---------------------------------------------------------------------------

  /** The bytes of four characters below U+0080. */
  lemma EncodeFour(s: string)
    requires |s| == 4 && forall k :: 0 <= k < 4 ==> s[k] as int < 0x80
    ensures Utf8.Encode(s) == [s[0] as int, s[1] as int, s[2] as int, s[3] as int]
  {
    EncodeAscii(s);
  }

  /** An alphabet byte goes into the current group and clears the count of '='. */
  lemma ScanData(x: byte, rest: seq<byte>, d: Decoder)
    requires Carries(d) && SextetOf(x) < 64
    ensures Scan([x] + rest, d) == Scan(rest, Feed(d.(pads := 0), SextetOf(x)))
  {
    assert ([x] + rest)[1..] == rest;
  }

  /** The bit arithmetic of one group: the four 6-bit values give back the three bytes. */
  lemma RegroupBytes(b0: byte, b1: byte, b2: byte)
    ensures var s1 := (b0 % 4) * 16 + b1 / 16;
      var s2 := (b1 % 16) * 4 + b2 / 64;
      (b0 / 4) * 4 + s1 / 16 == b0 && s1 % 16 == b1 / 16 &&
      (b1 / 16) * 16 + s2 / 4 == b1 && s2 % 4 == b2 / 64 &&
      (b2 / 64) * 64 + b2 % 64 == b2
  {
  }

  /** A full group of four characters decodes to its three bytes. */
  lemma ScanQuad(b0: byte, b1: byte, b2: byte, rest: seq<byte>, out: seq<byte>)
    ensures Scan(Utf8.Encode(Quad(b0, b1, b2)) + rest, Decoder(0, 0, 0, out))
         == Scan(rest, Decoder(0, 0, 0, out + [b0, b1, b2]))
  {
    var q := Quad(b0, b1, b2);
    var s0, s1, s2, s3 := b0 / 4, (b0 % 4) * 16 + b1 / 16, (b1 % 16) * 4 + b2 / 64, b2 % 64;
    EncodeFour(q);
    SextetOfAlphabet(s0);
    SextetOfAlphabet(s1);
    SextetOfAlphabet(s2);
    SextetOfAlphabet(s3);
    ScanFourData(q[0] as int, q[1] as int, q[2] as int, q[3] as int, rest, Decoder(0, 0, 0, out));
    FeedGroup(b0, b1, b2, out);
  }

  /** Four alphabet bytes in a row, from a decoder with no '=' pending, are fed one after the other. */
  lemma ScanFourData(x0: byte, x1: byte, x2: byte, x3: byte, rest: seq<byte>, d: Decoder)
    requires Carries(d) && d.pads == 0
    requires SextetOf(x0) < 64 && SextetOf(x1) < 64 && SextetOf(x2) < 64 && SextetOf(x3) < 64
    ensures Scan([x0, x1, x2, x3] + rest, d)
         == Scan(rest, Feed(Feed(Feed(Feed(d, SextetOf(x0)), SextetOf(x1)), SextetOf(x2)), SextetOf(x3)))
  {
    assert [x0, x1, x2, x3] + rest == [x0] + ([x1] + ([x2] + ([x3] + rest)));
    var d1 := Feed(d, SextetOf(x0));
    var d2 := Feed(d1, SextetOf(x1));
    var d3 := Feed(d2, SextetOf(x2));
    ScanData(x0, [x1] + ([x2] + ([x3] + rest)), d);
    ScanData(x1, [x2] + ([x3] + rest), d1);
    ScanData(x2, [x3] + rest, d2);
    ScanData(x3, rest, d3);
  }

  /** The four 6-bit values of a group, fed from a group boundary, give its three bytes. */
  lemma FeedGroup(b0: byte, b1: byte, b2: byte, out: seq<byte>)
    ensures var s0, s1, s2, s3 := b0 / 4, (b0 % 4) * 16 + b1 / 16, (b1 % 16) * 4 + b2 / 64, b2 % 64;
      Feed(Feed(Feed(Feed(Decoder(0, 0, 0, out), s0), s1), s2), s3) == Decoder(0, 0, 0, out + [b0, b1, b2])
  {
    RegroupBytes(b0, b1, b2);
    var s0, s1, s2, s3 := b0 / 4, (b0 % 4) * 16 + b1 / 16, (b1 % 16) * 4 + b2 / 64, b2 % 64;
    var d1 := Feed(Decoder(0, 0, 0, out), s0);
    var d2 := Feed(d1, s1);
    var d3 := Feed(d2, s2);
    assert d2.out == out + [b0];
    assert d3.out == out + [b0, b1];
  }

  /** A last group of one byte: two data characters, then two '=' that end the input. */
  lemma ScanOneByteGroup(b0: byte, out: seq<byte>)
    ensures Scan(Utf8.Encode(Encode([b0])), Decoder(0, 0, 0, out)) == Some(out + [b0])
  {
    var g := Encode([b0]);
    var s0, s1 := b0 / 4, (b0 % 4) * 16;
    EncodeFour(g);
    SextetOfAlphabet(s0);
    SextetOfAlphabet(s1);
    var x0, x1, x2, x3 := g[0] as int, g[1] as int, g[2] as int, g[3] as int;
    assert [x0, x1, x2, x3] == [x0] + ([x1] + [x2, x3]);
    var d1 := Feed(Decoder(0, 0, 0, out), s0);
    var d2 := Feed(d1, s1);
    ScanData(x0, [x1] + [x2, x3], Decoder(0, 0, 0, out));
    ScanData(x1, [x2, x3], d1);
    assert d2.out == out + [b0];
    assert [x2, x3][1..] == [x3];
  }

  /** A last group of two bytes: three data characters, then one '=' that ends the input. */
  lemma ScanTwoByteGroup(b0: byte, b1: byte, out: seq<byte>)
    ensures Scan(Utf8.Encode(Encode([b0, b1])), Decoder(0, 0, 0, out)) == Some(out + [b0, b1])
  {
    var g := Encode([b0, b1]);
    var s0, s1, s2 := b0 / 4, (b0 % 4) * 16 + b1 / 16, (b1 % 16) * 4;
    EncodeFour(g);
    SextetOfAlphabet(s0);
    SextetOfAlphabet(s1);
    SextetOfAlphabet(s2);
    RegroupBytes(b0, b1, 0);
    var x0, x1, x2, x3 := g[0] as int, g[1] as int, g[2] as int, g[3] as int;
    assert [x0, x1, x2, x3] == [x0] + ([x1] + ([x2] + [x3]));
    var d1 := Feed(Decoder(0, 0, 0, out), s0);
    var d2 := Feed(d1, s1);
    var d3 := Feed(d2, s2);
    ScanData(x0, [x1] + ([x2] + [x3]), Decoder(0, 0, 0, out));
    ScanData(x1, [x2] + [x3], d1);
    ScanData(x2, [x3], d2);
    assert d3.out == out + [b0, b1];
  }

  /** A leading full group decodes to its three bytes, and the decoder is back at a group boundary. */
  lemma ScanLeadingQuad(data: seq<byte>, out: seq<byte>)
    requires |data| >= 3
    ensures Scan(Utf8.Encode(Encode(data)), Decoder(0, 0, 0, out))
         == Scan(Utf8.Encode(Encode(data[3..])), Decoder(0, 0, 0, out + [data[0], data[1], data[2]]))
  {
    EncodedBytesSplit(data);
    ScanQuad(data[0], data[1], data[2], Utf8.Encode(Encode(data[3..])), out);
  }

  /** The bytes of an encoding of three or more bytes: those of its first group, then those of the rest. */
  lemma EncodedBytesSplit(data: seq<byte>)
    requires |data| >= 3
    ensures Utf8.Encode(Encode(data)) == Utf8.Encode(Quad(data[0], data[1], data[2])) + Utf8.Encode(Encode(data[3..]))
  {
    EncodeAppend(Quad(data[0], data[1], data[2]), Encode(data[3..]));
  }

  /** Decoding the UTF-8 bytes of an encoding gives the data back. */
  lemma {:induction false} ScanEncoded(data: seq<byte>, out: seq<byte>)
    ensures Scan(Utf8.Encode(Encode(data)), Decoder(0, 0, 0, out)) == Some(out + data)
    decreases |data|
  {
    if |data| == 0 {
      assert Utf8.Encode(Encode(data)) == [];
      assert out + data == out;
    } else if |data| == 1 {
      assert data == [data[0]];
      ScanOneByteGroup(data[0], out);
    } else if |data| == 2 {
      assert data == [data[0], data[1]];
      ScanTwoByteGroup(data[0], data[1], out);
    } else {
      var head := [data[0], data[1], data[2]];
      ScanLeadingQuad(data, out);
      ScanEncoded(data[3..], out + head);
      assert out + head + data[3..] == out + data;
    }
  }

  /** `b64decode(b64encode(data).decode().encode("utf-8")) == data`. */
  lemma DecodeEncode(data: seq<byte>)
    ensures Decode(Utf8.Encode(Encode(data))) == Some(data)
  {
    ScanEncoded(data, []);
    assert [] + data == data;
  }
}
