/** Base64 as the dumper's `putBase64Encoded` writes it: the alphabet of section 4
    of RFC 4648 with `=` padding, three input bytes to four output characters.
    Bytes are the unsigned values the source obtains with `uchar(buf[i])`. */
module Base64 {

  newtype Byte = x: int | 0 <= x < 256

  const PadChar: char := '='

  /** Entry `v` of the 64-character alphabet "A..Z a..z 0..9 + /". */
  function AlphabetChar(v: nat): (c: char)
    requires v < 64
  {
    if v < 26 then ('A' as int + v) as char
    else if v < 52 then ('a' as int + (v - 26)) as char
    else if v < 62 then ('0' as int + (v - 52)) as char
    else if v == 62 then '+'
    else '/'
  }

  predicate InAlphabet(c: char) {
    ('A' <= c <= 'Z') || ('a' <= c <= 'z') || ('0' <= c <= '9') || c == '+' || c == '/'
  }

  /** Position of an alphabet character in the alphabet (0 for anything else). */
  function CharValue(c: char): (v: nat)
    ensures v < 64
  {
    if 'A' <= c <= 'Z' then c as int - 'A' as int
    else if 'a' <= c <= 'z' then c as int - 'a' as int + 26
    else if '0' <= c <= '9' then c as int - '0' as int + 52
    else if c == '+' then 62
    else if c == '/' then 63
    else 0
  }

  lemma AlphabetCharValue(v: nat)
    requires v < 64
    ensures InAlphabet(AlphabetChar(v))
    ensures CharValue(AlphabetChar(v)) == v
  {
  }

  /** The 24-bit group `b0 << 16 | b1 << 8 | b2`. */
  function Chunk(b0: Byte, b1: Byte, b2: Byte): (chunk: int)
    ensures 0 <= chunk < 0x100_0000
  {
    b0 as int * 0x1_0000 + b1 as int * 0x100 + b2 as int
  }

  /** The four characters of one group; `padlen` of the last two are `=`.
      `chunk / 0x4_0000` is `(chunk & 0xfc0000) >> 18`, and so on, for a 24-bit chunk. */
  function Quad(chunk: int, padlen: nat): (q: string)
    requires 0 <= chunk < 0x100_0000
    ensures |q| == 4
  {
    var j := chunk / 0x4_0000;
    var k := (chunk / 0x1000) % 64;
    var l := (chunk / 64) % 64;
    var m := chunk % 64;
    [AlphabetChar(j), AlphabetChar(k),
     if padlen > 1 then PadChar else AlphabetChar(l),
     if padlen > 0 then PadChar else AlphabetChar(m)]
  }

  /** The encoding of a byte string: one quad per three bytes, the last one padded. */
  function Encode(b: seq<Byte>): string
  {
    if |b| == 0 then ""
    else if |b| == 1 then Quad(Chunk(b[0], 0, 0), 2)
    else if |b| == 2 then Quad(Chunk(b[0], b[1], 0), 1)
    else Quad(Chunk(b[0], b[1], b[2]), 0) + Encode(b[3..])
  }

  /** Decoding of one quad; `=` in the third or fourth place ends the data. */
  function DecodeQuad(q: string): (b: seq<Byte>)
    requires |q| == 4
    ensures 1 <= |b| <= 3
  {
    var chunk := CharValue(q[0]) * 0x4_0000 + CharValue(q[1]) * 0x1000
                 + (if q[2] == PadChar then 0 else CharValue(q[2])) * 64
                 + (if q[3] == PadChar then 0 else CharValue(q[3]));
    var b0 := (chunk / 0x1_0000) as Byte;
    var b1 := ((chunk / 0x100) % 0x100) as Byte;
    var b2 := (chunk % 0x100) as Byte;
    if q[2] == PadChar then [b0] else if q[3] == PadChar then [b0, b1] else [b0, b1, b2]
  }

  function Decode(s: string): seq<Byte>
  {
    if |s| < 4 then [] else DecodeQuad(s[..4]) + Decode(s[4..])
  }

  /** Number of characters for `n` bytes: four per started group of three. */
  function EncodedLength(n: nat): nat { 4 * ((n + 2) / 3) }

  lemma {:induction false} EncodeLength(b: seq<Byte>)
    ensures |Encode(b)| == EncodedLength(|b|)
  {
    var n := |b|;
    if n == 0 {
    } else if n <= 2 {
      assert (n + 2) / 3 == 1;
    } else {
      EncodeLength(b[3..]);
      assert |Encode(b)| == 4 + |Encode(b[3..])|;
      assert (n + 2) / 3 == (n - 1) / 3 + 1;
    }
  }

  lemma QuadChars(chunk: int, padlen: nat)
    requires 0 <= chunk < 0x100_0000
    ensures forall i :: 0 <= i < 4 ==> InAlphabet(Quad(chunk, padlen)[i]) || Quad(chunk, padlen)[i] == PadChar
    ensures padlen == 0 ==> forall i :: 0 <= i < 4 ==> InAlphabet(Quad(chunk, padlen)[i])
  {
    AlphabetCharValue(chunk / 0x4_0000);
    AlphabetCharValue((chunk / 0x1000) % 64);
    AlphabetCharValue((chunk / 64) % 64);
    AlphabetCharValue(chunk % 64);
  }

  /** Every character is from the alphabet or is the pad character; in particular the
      encoding never contains the wire format's delimiters `{ } [ ] , "`. */
  lemma {:induction false} EncodeChars(b: seq<Byte>)
    ensures forall i :: 0 <= i < |Encode(b)| ==> InAlphabet(Encode(b)[i]) || Encode(b)[i] == PadChar
  {
    if |b| == 1 {
      QuadChars(Chunk(b[0], 0, 0), 2);
    } else if |b| == 2 {
      QuadChars(Chunk(b[0], b[1], 0), 1);
    } else if |b| > 2 {
      QuadChars(Chunk(b[0], b[1], b[2]), 0);
      EncodeChars(b[3..]);
      var q := Quad(Chunk(b[0], b[1], b[2]), 0);
      forall i | 0 <= i < |Encode(b)|
        ensures InAlphabet(Encode(b)[i]) || Encode(b)[i] == PadChar
      {
        if i >= 4 { assert Encode(b)[i] == Encode(b[3..])[i - 4]; }
      }
    }
  }

  /** Number of pad characters a byte count leaves in the last group. */
  function PadCount(n: nat): nat { if n % 3 == 1 then 2 else if n % 3 == 2 then 1 else 0 }

  /** Within one quad, exactly the last `padlen` characters are `=`. */
  lemma QuadPadding(chunk: int, padlen: nat)
    requires 0 <= chunk < 0x100_0000
    requires padlen <= 2
    ensures PaddedBy(Quad(chunk, padlen), padlen)
  {
    QuadChars(chunk, 0);
    var q := Quad(chunk, padlen);
    var q0 := Quad(chunk, 0);
    assert q[0] == q0[0] && q[1] == q0[1];
    assert padlen < 2 ==> q[2] == q0[2];
    assert padlen < 1 ==> q[3] == q0[3];
  }

  /** `=` exactly in the last `p` places of `s`. */
  predicate PaddedBy(s: string, p: nat) {
    forall i :: 0 <= i < |s| ==> (s[i] == PadChar <==> i >= |s| - p)
  }

  lemma PaddedConcat(q: string, rest: string, p: nat)
    requires PaddedBy(q, 0) && PaddedBy(rest, p) && p <= |rest|
    ensures PaddedBy(q + rest, p)
  {
    var s := q + rest;
    forall i | 0 <= i < |s|
      ensures s[i] == PadChar <==> i >= |s| - p
    {
      if i >= |q| { assert s[i] == rest[i - |q|]; }
    }
  }

  /** The padding rule: two `=` after a lone byte, one after two bytes, none otherwise;
      and `=` appears nowhere but at the end. */
  lemma {:induction false} EncodePadding(b: seq<Byte>)
    ensures PaddedBy(Encode(b), PadCount(|b|))
  {
    if |b| == 0 {
    } else if |b| <= 2 {
      LastGroupPadding(b);
    } else {
      EncodePadding(b[3..]);
      FullGroupPadding(b);
    }
  }

  lemma LastGroupPadding(b: seq<Byte>)
    requires 1 <= |b| <= 2
    ensures PaddedBy(Encode(b), PadCount(|b|))
  {
    if |b| == 1 {
      assert PadCount(1) == 2;
      QuadPadding(Chunk(b[0], 0, 0), 2);
    } else {
      assert PadCount(2) == 1;
      QuadPadding(Chunk(b[0], b[1], 0), 1);
    }
  }

  /** A full group in front adds no padding. */
  lemma FullGroupPadding(b: seq<Byte>)
    requires |b| > 2
    requires PaddedBy(Encode(b[3..]), PadCount(|b| - 3))
    ensures PaddedBy(Encode(b), PadCount(|b|))
  {
    var q := Quad(Chunk(b[0], b[1], b[2]), 0);
    QuadPadding(Chunk(b[0], b[1], b[2]), 0);
    assert |b[3..]| % 3 == |b| % 3;
    assert |b| > 3 ==> |Encode(b[3..])| >= 4;
    PaddedConcat(q, Encode(b[3..]), PadCount(|b|));
  }

  /** The four sextets of a 24-bit chunk put back together give the chunk. */
  lemma Recompose(c: int)
    requires 0 <= c < 0x100_0000
    ensures (c / 0x4_0000) * 0x4_0000 + ((c / 0x1000) % 64) * 0x1000 + ((c / 64) % 64) * 64 + c % 64 == c
  {
    assert c == (c / 64) * 64 + c % 64;
    assert c / 64 == ((c / 64) / 64) * 64 + (c / 64) % 64;
    assert (c / 64) / 64 == c / 0x1000;
    assert c / 0x1000 == ((c / 0x1000) / 64) * 64 + (c / 0x1000) % 64;
    assert (c / 0x1000) / 64 == c / 0x4_0000;
  }

  lemma SplitChunk(b0: Byte, b1: Byte, b2: Byte)
    ensures Chunk(b0, b1, b2) / 0x1_0000 == b0 as int
    ensures (Chunk(b0, b1, b2) / 0x100) % 0x100 == b1 as int
    ensures Chunk(b0, b1, b2) % 0x100 == b2 as int
    ensures b2 == 0 ==> Chunk(b0, b1, b2) % 64 == 0
    ensures b1 == 0 && b2 == 0 ==> (Chunk(b0, b1, b2) / 64) % 64 == 0
  {
    var x0, x1, x2 := b0 as int, b1 as int, b2 as int;
    var c := Chunk(b0, b1, b2);
    var hi := x0 * 0x100 + x1;
    DivByte(c, hi, x2);
    DivByte(hi, x0, x1);
    DivByte(c / 0x100, x0, x1);
    assert c / 0x100 / 0x100 == c / 0x1_0000;
    if b2 == 0 {
      var m := x0 * 0x400 + x1 * 4;
      DivSextet(c, m, 0);
      if b1 == 0 {
        DivSextet(m, x0 * 16, 0);
      }
    }
  }

  /** Division by 256 of a number given as quotient and remainder. */
  lemma DivByte(a: int, q: int, r: int)
    requires 0 <= r < 0x100 && a == q * 0x100 + r
    ensures a / 0x100 == q && a % 0x100 == r
  {
  }

  /** Division by 64 of a number given as quotient and remainder. */
  lemma DivSextet(a: int, q: int, r: int)
    requires 0 <= r < 64 && a == q * 64 + r
    ensures a / 64 == q && a % 64 == r
  {
  }

  lemma QuadRoundTrip(b0: Byte, b1: Byte, b2: Byte, padlen: nat)
    requires padlen <= 2
    requires padlen >= 1 ==> b2 == 0
    requires padlen == 2 ==> b1 == 0
    ensures DecodeQuad(Quad(Chunk(b0, b1, b2), padlen))
         == if padlen == 2 then [b0] else if padlen == 1 then [b0, b1] else [b0, b1, b2]
  {
    var c := Chunk(b0, b1, b2);
    var q := Quad(c, padlen);
    AlphabetCharValue(c / 0x4_0000);
    AlphabetCharValue((c / 0x1000) % 64);
    AlphabetCharValue((c / 64) % 64);
    AlphabetCharValue(c % 64);
    Recompose(c);
    SplitChunk(b0, b1, b2);
    var d := CharValue(q[0]) * 0x4_0000 + CharValue(q[1]) * 0x1000
             + (if q[2] == PadChar then 0 else CharValue(q[2])) * 64
             + (if q[3] == PadChar then 0 else CharValue(q[3]));
    assert d == c;
  }

  /** Decoding undoes encoding, for every byte string. */
  lemma {:induction false} DecodeEncode(b: seq<Byte>)
    ensures Decode(Encode(b)) == b
  {
    if |b| == 0 {
    } else if |b| <= 2 {
      QuadRoundTrip(b[0], if |b| == 2 then b[1] else 0, 0, 3 - |b|);
      assert Encode(b)[..4] == Encode(b);
    } else {
      var q := Quad(Chunk(b[0], b[1], b[2]), 0);
      QuadRoundTrip(b[0], b[1], b[2], 0);
      assert Encode(b)[..4] == q;
      assert Encode(b)[4..] == Encode(b[3..]);
      DecodeEncode(b[3..]);
      assert b == [b[0], b[1], b[2]] + b[3..];
    }
  }
}
