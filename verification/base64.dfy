/** Base64 with the standard alphabet and `=` padding, as defined in
    section 4 of RFC 4648 (Go's `base64.StdEncoding`). The decoder is not
    part of the credential code; it is the inverse that shows the encoder
    loses no information, which is what makes each credential token name
    exactly one `user:password` string. */
module Base64 {
  import opened Common

  /** `=`, the pad character. */
  const Pad: bv8 := 61

  /** Is `v` a 6-bit group? */
  predicate IsSextet(v: bv8) { v < 64 }

  /** Table 1 of RFC 4648: 0-25 `A`-`Z`, 26-51 `a`-`z`, 52-61 `0`-`9`, 62 `+`, 63 `/`. */
  function Letter(v: bv8): (c: bv8)
    requires IsSextet(v)
    ensures c != Pad
  {
    if v < 26 then 65 + v
    else if v < 52 then 97 + (v - 26)
    else if v < 62 then 48 + (v - 52)
    else if v == 62 then 43
    else 47
  }

  /** Inverse of `Letter`; `None` for bytes outside the alphabet. */
  function SextetOf(c: bv8): (r: Option<bv8>)
    ensures r.Some? ==> IsSextet(r.value)
  {
    if 65 <= c <= 90 then Some(c - 65)
    else if 97 <= c <= 122 then Some(c - 71)
    else if 48 <= c <= 57 then Some(c + 4)
    else if c == 43 then Some(62)
    else if c == 47 then Some(63)
    else None
  }

  lemma LetterRoundTrip(v: bv8)
    requires IsSextet(v)
    ensures SextetOf(Letter(v)) == Some(v)
  {
  }

  /** Three bytes, 24 bits, as four letters. */
  function EncodeBlock(a: bv8, b: bv8, c: bv8): (r: Bytes)
    ensures |r| == 4
  {
    [Letter(a >> 2), Letter(((a & 3) << 4) | (b >> 4)), Letter(((b & 15) << 2) | (c >> 6)), Letter(c & 63)]
  }

  /** A final single byte: two letters and two pad characters. */
  function EncodeOne(a: bv8): Bytes
  {
    [Letter(a >> 2), Letter((a & 3) << 4), Pad, Pad]
  }

  /** A final pair of bytes: three letters and one pad character. */
  function EncodeTwo(a: bv8, b: bv8): Bytes
  {
    [Letter(a >> 2), Letter(((a & 3) << 4) | (b >> 4)), Letter((b & 15) << 2), Pad]
  }

  /** Encoding of a whole byte string: full blocks, then one padded block for
      a one- or two-byte remainder. */
  function Encode(data: Bytes): Bytes
    decreases |data|
  {
    if |data| == 0 then []
    else if |data| == 1 then EncodeOne(data[0])
    else if |data| == 2 then EncodeTwo(data[0], data[1])
    else EncodeBlock(data[0], data[1], data[2]) + Encode(data[3..])
  }

  /** Decoding of padded standard base64; `None` for anything `Encode` cannot produce
      in length or alphabet. */
  function Decode(s: Bytes): (r: Option<Bytes>)
    decreases |s|
  {
    if |s| == 0 then Some([])
    else if |s| < 4 then None
    else
      var w, x, y, z := SextetOf(s[0]), SextetOf(s[1]), SextetOf(s[2]), SextetOf(s[3]);
      if w.None? || x.None? then None
      else
        var a := (w.value << 2) | (x.value >> 4);
        if |s| == 4 && s[2] == Pad && s[3] == Pad then Some([a])
        else if y.None? then None
        else
          var b := ((x.value & 15) << 4) | (y.value >> 2);
          if |s| == 4 && s[3] == Pad then Some([a, b])
          else if z.None? then None
          else
            var c := ((y.value & 3) << 6) | z.value;
            match Decode(s[4..])
            case None => None
            case Some(rest) => Some([a, b, c] + rest)
  }

  lemma SplitOneByte(a: bv8)
    ensures IsSextet(a >> 2) && IsSextet((a & 3) << 4)
    ensures (((a >> 2) << 2) | (((a & 3) << 4) >> 4)) == a
  {
  }

  lemma SplitTwoBytes(a: bv8, b: bv8)
    ensures IsSextet(((a & 3) << 4) | (b >> 4)) && IsSextet((b & 15) << 2)
    ensures (((a >> 2) << 2) | ((((a & 3) << 4) | (b >> 4)) >> 4)) == a
    ensures ((((((a & 3) << 4) | (b >> 4)) & 15) << 4) | (((b & 15) << 2) >> 2)) == b
  {
  }

  lemma SplitThreeBytes(a: bv8, b: bv8, c: bv8)
    ensures var s0, s1, s2, s3 := a >> 2, ((a & 3) << 4) | (b >> 4), ((b & 15) << 2) | (c >> 6), c & 63;
      IsSextet(s0) && IsSextet(s1) && IsSextet(s2) && IsSextet(s3)
      && ((s0 << 2) | (s1 >> 4)) == a
      && (((s1 & 15) << 4) | (s2 >> 2)) == b
      && (((s2 & 3) << 6) | s3) == c
  {
  }

  /** How `Decode` reads a final block with one pad character. */
  lemma DecodeLastPair(s: Bytes, w: bv8, x: bv8, y: bv8)
    requires |s| == 4 && s[2] != Pad && s[3] == Pad
    requires SextetOf(s[0]) == Some(w) && SextetOf(s[1]) == Some(x) && SextetOf(s[2]) == Some(y)
    ensures Decode(s) == Some([(w << 2) | (x >> 4), ((x & 15) << 4) | (y >> 2)])
  {
  }

  /** How `Decode` reads a final block with two pad characters. */
  lemma DecodeLastSingle(s: Bytes, w: bv8, x: bv8)
    requires |s| == 4 && s[2] == Pad && s[3] == Pad
    requires SextetOf(s[0]) == Some(w) && SextetOf(s[1]) == Some(x)
    ensures Decode(s) == Some([(w << 2) | (x >> 4)])
  {
  }

  lemma DecodeOneByte(a: bv8)
    ensures Decode(Encode([a])) == Some([a])
  {
    SplitOneByte(a);
    LetterRoundTrip(a >> 2);
    LetterRoundTrip((a & 3) << 4);
    DecodeLastSingle(Encode([a]), a >> 2, (a & 3) << 4);
  }

  lemma EncodeTwoShape(a: bv8, b: bv8)
    ensures var e := Encode([a, b]);
      |e| == 4 && e[2] != Pad && e[3] == Pad
      && SextetOf(e[0]) == Some(a >> 2)
      && SextetOf(e[1]) == Some(((a & 3) << 4) | (b >> 4))
      && SextetOf(e[2]) == Some((b & 15) << 2)
  {
    var s0, s1, s2 := a >> 2, ((a & 3) << 4) | (b >> 4), (b & 15) << 2;
    assert IsSextet(s0) && IsSextet(s1) && IsSextet(s2);
    LetterRoundTrip(s0);
    LetterRoundTrip(s1);
    LetterRoundTrip(s2);
  }

  lemma DecodeTwoBytes(a: bv8, b: bv8)
    ensures Decode(Encode([a, b])) == Some([a, b])
  {
    var s0, s1, s2 := a >> 2, ((a & 3) << 4) | (b >> 4), (b & 15) << 2;
    EncodeTwoShape(a, b);
    DecodeLastPair(Encode([a, b]), s0, s1, s2);
    JoinTwoBytes(a, b, s0, s1, s2);
  }

  lemma JoinTwoBytes(a: bv8, b: bv8, s0: bv8, s1: bv8, s2: bv8)
    requires s0 == a >> 2 && s1 == ((a & 3) << 4) | (b >> 4) && s2 == (b & 15) << 2
    ensures [(s0 << 2) | (s1 >> 4), ((s1 & 15) << 4) | (s2 >> 2)] == [a, b]
  {
    SplitTwoBytes(a, b);
  }

  /** One full block in front of any encoding decodes to its three bytes in
      front of whatever the rest decodes to. */
  lemma DecodeBlock(a: bv8, b: bv8, c: bv8, rest: Bytes)
    ensures Decode(EncodeBlock(a, b, c) + rest) ==
      match Decode(rest) case None => None case Some(t) => Some([a, b, c] + t)
  {
    SplitThreeBytes(a, b, c);
    var s0, s1, s2, s3 := a >> 2, ((a & 3) << 4) | (b >> 4), ((b & 15) << 2) | (c >> 6), c & 63;
    LetterRoundTrip(s0);
    LetterRoundTrip(s1);
    LetterRoundTrip(s2);
    LetterRoundTrip(s3);
    var e := EncodeBlock(a, b, c) + rest;
    assert e[4..] == rest;
    assert e[3] != Pad;
  }

  /** The round trip for inputs of at most two bytes: a padded final block. */
  lemma DecodeEncodeShort(data: Bytes)
    requires |data| <= 2
    ensures Decode(Encode(data)) == Some(data)
  {
    if |data| == 1 {
      assert data == [data[0]];
      DecodeOneByte(data[0]);
    } else if |data| == 2 {
      assert data == [data[0], data[1]];
      DecodeTwoBytes(data[0], data[1]);
    }
  }

  /** An input of three bytes or more encodes its first block in front. */
  lemma EncodeFront(data: Bytes)
    requires |data| >= 3
    ensures Encode(data) == EncodeBlock(data[0], data[1], data[2]) + Encode(data[3..])
  {
    assert !(|data| == 0) && !(|data| == 1) && !(|data| == 2);
  }

  lemma SplitFront(data: Bytes)
    requires |data| >= 3
    ensures [data[0], data[1], data[2]] + data[3..] == data
  {
  }

  /** The round trip extends by one full block in front. */
  lemma DecodeEncodeStep(data: Bytes)
    requires |data| >= 3 && Decode(Encode(data[3..])) == Some(data[3..])
    ensures Decode(Encode(data)) == Some(data)
  {
    EncodeFront(data);
    DecodeBlock(data[0], data[1], data[2], Encode(data[3..]));
    SplitFront(data);
  }

  /** Round trip: decoding an encoding gives back the original bytes. */
  lemma {:induction false} DecodeEncode(data: Bytes)
    ensures Decode(Encode(data)) == Some(data)
    decreases |data|
  {
    if |data| >= 3 {
      DecodeEncode(data[3..]);
      DecodeEncodeStep(data);
    } else {
      DecodeEncodeShort(data);
    }
  }

  /** Distinct byte strings have distinct encodings. */
  lemma EncodeInjective(x: Bytes, y: Bytes)
    requires Encode(x) == Encode(y)
    ensures x == y
  {
    DecodeEncode(x);
    DecodeEncode(y);
  }
}
