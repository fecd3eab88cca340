/**
 * The base64 encoding of section 4 of RFC 4648, as Python's
 * `base64.b64encode` writes it and a strict `base64.b64decode` reads it:
 * the 64-character alphabet `A-Z a-z 0-9 + /`, every 3 bytes become 4
 * characters, and a final group of 1 or 2 bytes is padded with `=`.
 */
module Base64 {
  import opened Common

  const Pad: char := '='

  /**
   * The character for a 6-bit value in the table of section 4 of RFC 4648:
   * 0-25 are `A`-`Z`, 26-51 are `a`-`z`, 52-61 are `0`-`9`, then `+` and `/`.
   */
  function SextetChar(v: nat): char
    requires v < 64
  {
    if v < 26 then ('A' as int + v) as char
    else if v < 52 then ('a' as int + v - 26) as char
    else if v < 62 then ('0' as int + v - 52) as char
    else if v == 62 then '+'
    else '/'
  }

  /** The 6-bit value of an alphabet character; `None` for any other character. */
  function SextetOf(c: char): (r: Option<nat>)
    ensures r.Some? ==> r.value < 64 && SextetChar(r.value) == c
  {
    if 'A' <= c <= 'Z' then Some(c as int - 'A' as int)
    else if 'a' <= c <= 'z' then Some(c as int - 'a' as int + 26)
    else if '0' <= c <= '9' then Some(c as int - '0' as int + 52)
    else if c == '+' then Some(62)
    else if c == '/' then Some(63)
    else None
  }

  predicate InAlphabet(c: char) {
    SextetOf(c).Some?
  }

  /** Every sextet is read back from its character. */
  lemma SextetRoundTrip(v: nat)
    requires v < 64
    ensures SextetOf(SextetChar(v)) == Some(v)
  {
  }

  // ---------------------------------------------------------------------
  // Groups of three bytes

  /** The four characters for three bytes (the high bits of `b0` first). */
  function EncodeGroup(b0: byte, b1: byte, b2: byte): (s: string)
    ensures |s| == 4 && forall i :: 0 <= i < 4 ==> InAlphabet(s[i])
  {
    var s := [ SextetChar(b0 / 4),
               SextetChar(b0 % 4 * 16 + b1 / 16),
               SextetChar(b1 % 16 * 4 + b2 / 64),
               SextetChar(b2 % 64) ];
    SextetRoundTrip(b0 / 4);
    SextetRoundTrip(b0 % 4 * 16 + b1 / 16);
    SextetRoundTrip(b1 % 16 * 4 + b2 / 64);
    SextetRoundTrip(b2 % 64);
    s
  }

  /** The three bytes held by four sextets. */
  function DecodeSextets(s0: nat, s1: nat, s2: nat, s3: nat): seq<byte>
    requires s0 < 64 && s1 < 64 && s2 < 64 && s3 < 64
  {
    [ s0 * 4 + s1 / 16,
      s1 % 16 * 16 + s2 / 4,
      s2 % 4 * 64 + s3 ]
  }

  /** The bytes of a four-character group, of which the last `pads` are `=`. */
  function DecodeGroup(q: string, pads: nat): Option<seq<byte>>
    requires |q| == 4 && pads <= 2
  {
    var v0, v1 := SextetOf(q[0]), SextetOf(q[1]);
    var v2 := if pads == 2 then Some(0) else SextetOf(q[2]);
    var v3 := if pads >= 1 then Some(0) else SextetOf(q[3]);
    if v0.None? || v1.None? || v2.None? || v3.None? then None
    else Some(DecodeSextets(v0.value, v1.value, v2.value, v3.value)[..3 - pads])
  }

  // ---------------------------------------------------------------------
  // Whole strings

  /** `base64.b64encode`. */
  function Encode(b: seq<byte>): (s: string)
    ensures |s| == 4 * ((|b| + 2) / 3)
    decreases |b|
  {
    if |b| == 0 then ""
    else if |b| == 1 then EncodeGroup(b[0], 0, 0)[..2] + [Pad, Pad]
    else if |b| == 2 then EncodeGroup(b[0], b[1], 0)[..3] + [Pad]
    else EncodeGroup(b[0], b[1], b[2]) + Encode(b[3..])
  }

  /**
   * Strict `base64.b64decode`: the length is a multiple of 4, every
   * character is in the alphabet, except that the last group may end in `=`
   * or `==`. Like Python, the unused bits before the padding are ignored.
   */
  function Decode(s: string): (r: Option<seq<byte>>)
    decreases |s|
  {
    if |s| == 0 then Some([])
    else if |s| < 4 then None
    else if |s| == 4 then
      DecodeGroup(s, if s[2] == Pad && s[3] == Pad then 2 else if s[3] == Pad then 1 else 0)
    else
      match DecodeGroup(s[..4], 0)
      case None => None
      case Some(g) =>
        match Decode(s[4..])
        case None => None
        case Some(rest) => Some(g + rest)
  }

  // ---------------------------------------------------------------------
  // Properties

  lemma SextetsRoundTrip(b0: byte, b1: byte, b2: byte)
    ensures DecodeSextets(b0 / 4, b0 % 4 * 16 + b1 / 16, b1 % 16 * 4 + b2 / 64, b2 % 64) == [b0, b1, b2]
  {
  }

  /**
   * A group that starts with the characters of three bytes (of two or one,
   * when `pads` trailing characters are padding) decodes to those bytes.
   */
  lemma GroupRoundTrip(b0: byte, b1: byte, b2: byte, pads: nat, q: string)
    requires pads <= 2 && |q| == 4
    requires pads >= 1 ==> b2 == 0
    requires pads == 2 ==> b1 == 0
    requires q[..4 - pads] == EncodeGroup(b0, b1, b2)[..4 - pads]
    ensures DecodeGroup(q, pads) == Some([b0, b1, b2][..3 - pads])
  {
    var e := EncodeGroup(b0, b1, b2);
    var v0, v1, v2, v3 := b0 / 4, b0 % 4 * 16 + b1 / 16, b1 % 16 * 4 + b2 / 64, b2 % 64;
    SextetRoundTrip(v0);
    SextetRoundTrip(v1);
    SextetRoundTrip(v2);
    SextetRoundTrip(v3);
    SextetsRoundTrip(b0, b1, b2);
    assert q[0] == e[0] && q[1] == e[1];
    assert pads < 2 ==> q[2] == e[2];
    assert pads < 1 ==> q[3] == e[3];
    assert pads == 2 ==> v2 == 0;
    assert pads >= 1 ==> v3 == 0;
  }

  /** Alphabet characters throughout, except for padding in the last two places. */
  predicate Padded(s: string) {
    forall i :: 0 <= i < |s| ==> InAlphabet(s[i]) || (s[i] == Pad && i >= |s| - 2)
  }

  /** Every output character is in the alphabet, apart from the padding that may close it. */
  lemma {:induction false} EncodeAlphabet(b: seq<byte>)
    ensures Padded(Encode(b))
    decreases |b|
  {
    if |b| > 2 {
      EncodeAlphabet(b[3..]);
      var s, g, t := Encode(b), EncodeGroup(b[0], b[1], b[2]), Encode(b[3..]);
      assert s == g + t;
      forall i | 0 <= i < |s| ensures InAlphabet(s[i]) || (s[i] == Pad && i >= |s| - 2) {
        if i >= 4 {
          assert s[i] == t[i - 4];
        } else {
          assert s[i] == g[i];
        }
      }
    }
  }

  lemma DecodeEncodeOne(b: seq<byte>)
    requires |b| == 1
    ensures Decode(Encode(b)) == Some(b)
  {
    var e := EncodeGroup(b[0], 0, 0);
    var s := Encode(b);
    assert s == e[..2] + [Pad, Pad];
    assert s[..2] == e[..2];
    GroupRoundTrip(b[0], 0, 0, 2, s);
    assert [b[0], 0, 0][..1] == b;
  }

  lemma DecodeOnePad(s: string)
    requires |s| == 4 && InAlphabet(s[2]) && s[3] == Pad
    ensures Decode(s) == DecodeGroup(s, 1)
  {
  }

  lemma EncodeTwo(b: seq<byte>)
    requires |b| == 2
    ensures var e, s := EncodeGroup(b[0], b[1], 0), Encode(b);
      |s| == 4 && s[..3] == e[..3] && InAlphabet(s[2]) && s[3] == Pad
  {
    var e := EncodeGroup(b[0], b[1], 0);
    var s := Encode(b);
    assert s == e[..3] + [Pad];
    assert s[2] == e[2];
  }

  lemma DecodeEncodeTwo(b: seq<byte>)
    requires |b| == 2
    ensures Decode(Encode(b)) == Some(b)
  {
    var s := Encode(b);
    EncodeTwo(b);
    DecodeOnePad(s);
    GroupRoundTrip(b[0], b[1], 0, 1, s);
    assert [b[0], b[1], 0][..2] == b;
  }

  lemma DecodeFullGroup(b: seq<byte>)
    requires |b| >= 3
    ensures DecodeGroup(EncodeGroup(b[0], b[1], b[2]), 0) == Some(b[..3])
  {
    var g := EncodeGroup(b[0], b[1], b[2]);
    GroupRoundTrip(b[0], b[1], b[2], 0, g);
    assert [b[0], b[1], b[2]][..3] == b[..3];
  }

  /** Decoding what `Encode` wrote gives back the bytes: the round trip of `b64decode(b64encode(b))`. */
  lemma {:induction false} DecodeEncode(b: seq<byte>)
    ensures Decode(Encode(b)) == Some(b)
    decreases |b|
  {
    if |b| == 0 {
    } else if |b| == 1 {
      DecodeEncodeOne(b);
    } else if |b| == 2 {
      DecodeEncodeTwo(b);
    } else {
      var s := Encode(b);
      var g := EncodeGroup(b[0], b[1], b[2]);
      DecodeFullGroup(b);
      if |b| == 3 {
        assert s == g + Encode(b[3..]);
        assert s == g;
        assert InAlphabet(g[3]);
        assert Decode(s) == DecodeGroup(g, 0);
        assert b[..3] == b;
      } else {
        assert s[..4] == g && s[4..] == Encode(b[3..]);
        DecodeEncode(b[3..]);
        assert b[..3] + b[3..] == b;
      }
    }
  }

  /** Whatever decodes came in groups of four characters per three bytes: the length law in reverse. */
  lemma {:induction false} DecodeLength(s: string)
    requires Decode(s).Some?
    ensures |s| == 4 * ((|Decode(s).value| + 2) / 3)
    decreases |s|
  {
    if |s| > 4 {
      DecodeLength(s[4..]);
    }
  }
}
