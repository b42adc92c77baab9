/**
 * The "base64" encoding of section 4 of RFC 4648 (standard alphabet, `=`
 * padding, no line breaks), as `java.util.Base64.getEncoder()` produces it,
 * and a strict decoder that accepts exactly the canonical encodings.
 */
module Base64 {
  import opened Wrappers

  type byte = b: int | 0 <= b < 256

  /** A 6-bit group, the index of one character of the alphabet. */
  type sextet = i: int | 0 <= i < 64

  /** Table 1 of RFC 4648: A-Z, a-z, 0-9, '+', '/'. */
  function CharOf(i: sextet): char
  {
    if i < 26 then ('A' as int + i) as char
    else if i < 52 then ('a' as int + (i - 26)) as char
    else if i < 62 then ('0' as int + (i - 52)) as char
    else if i == 62 then '+'
    else '/'
  }

  /** The inverse of Table 1 of RFC 4648; `None` for characters outside the alphabet (including `=`). */
  function IndexOf(c: char): Option<sextet>
  {
    if 'A' <= c <= 'Z' then Some(c as int - 'A' as int)
    else if 'a' <= c <= 'z' then Some(c as int - 'a' as int + 26)
    else if '0' <= c <= '9' then Some(c as int - '0' as int + 52)
    else if c == '+' then Some(62)
    else if c == '/' then Some(63)
    else None
  }

  lemma IndexOfCharOf(i: sextet)
    ensures IndexOf(CharOf(i)) == Some(i)
  {
  }

  lemma CharOfIndexOf(c: char)
    requires IndexOf(c).Some?
    ensures CharOf(IndexOf(c).value) == c
  {
  }

  /** Three octets become four characters (section 4 of RFC 4648, no padding). */
  function EncodeTriple(b0: byte, b1: byte, b2: byte): string
  {
    [CharOf(b0 / 4), CharOf(b0 % 4 * 16 + b1 / 16), CharOf(b1 % 16 * 4 + b2 / 64), CharOf(b2 % 64)]
  }

  /** `Base64.getEncoder().encodeToString`. */
  function Encode(b: seq<byte>): (s: string)
    ensures |s| == 4 * ((|b| + 2) / 3)
    ensures forall i :: 0 <= i < |s| ==> IndexOf(s[i]).Some? || s[i] == '='
    decreases |b|
  {
    if |b| == 0 then []
    else if |b| == 1 then EncodeOne(b[0])
    else if |b| == 2 then EncodePair(b[0], b[1])
    else EncodeTriple(b[0], b[1], b[2]) + Encode(b[3..])
  }

  /** A final single octet: two characters and two pad characters. */
  function EncodeOne(b0: byte): string
  {
    [CharOf(b0 / 4), CharOf(b0 % 4 * 16), '=', '=']
  }

  /** A final pair of octets: three characters and one pad character. */
  function EncodePair(b0: byte, b1: byte): string
  {
    [CharOf(b0 / 4), CharOf(b0 % 4 * 16 + b1 / 16), CharOf(b1 % 16 * 4), '=']
  }

  /** Four sextets back to three octets. */
  function Octets(c0: sextet, c1: sextet, c2: sextet, c3: sextet): seq<byte>
  {
    [c0 * 4 + c1 / 16, c1 % 16 * 16 + c2 / 4, c2 % 4 * 64 + c3]
  }

  /** Decodes an unpadded quantum of four characters. */
  function DecodeQuantum(s: string): Option<seq<byte>>
    requires |s| == 4
  {
    match (IndexOf(s[0]), IndexOf(s[1]), IndexOf(s[2]), IndexOf(s[3]))
    case (Some(c0), Some(c1), Some(c2), Some(c3)) => Some(Octets(c0, c1, c2, c3))
    case _ => None
  }

  /**
   * Decodes the final quantum, which may be padded; the bits a padded
   * quantum leaves unused must be zero, so only canonical encodings decode.
   */
  function DecodeFinal(s: string): Option<seq<byte>>
    requires |s| == 4
  {
    match (IndexOf(s[0]), IndexOf(s[1]))
    case (Some(c0), Some(c1)) =>
      if s[2] == '=' && s[3] == '=' then
        if c1 % 16 == 0 then Some([c0 * 4 + c1 / 16]) else None
      else if s[3] == '=' then
        match IndexOf(s[2])
        case None => None
        case Some(c2) =>
          if c2 % 4 == 0 then Some([c0 * 4 + c1 / 16, c1 % 16 * 16 + c2 / 4]) else None
      else DecodeQuantum(s)
    case _ => None
  }

  /** Strict decoding: a whole number of quanta, padding only at the very end. */
  function Decode(s: string): Option<seq<byte>>
    decreases |s|
  {
    if |s| == 0 then Some([])
    else if |s| < 4 then None
    else if |s| == 4 then DecodeFinal(s)
    else
      match DecodeQuantum(s[..4])
      case None => None
      case Some(q) =>
        match Decode(s[4..])
        case None => None
        case Some(r) => Some(q + r)
  }

  lemma TripleRoundTrip(b0: byte, b1: byte, b2: byte)
    ensures DecodeQuantum(EncodeTriple(b0, b1, b2)) == Some([b0, b1, b2])
  {
    var c0, c1, c2, c3 := b0 / 4, b0 % 4 * 16 + b1 / 16, b1 % 16 * 4 + b2 / 64, b2 % 64;
    IndexOfCharOf(c0);
    IndexOfCharOf(c1);
    IndexOfCharOf(c2);
    IndexOfCharOf(c3);
    assert c1 / 16 == b0 % 4 && c1 % 16 == b1 / 16;
    assert c2 / 4 == b1 % 16 && c2 % 4 == b2 / 64;
  }

  lemma DecodeEncodeOne(b0: byte)
    ensures DecodeFinal(EncodeOne(b0)) == Some([b0])
  {
    var c0: sextet, c1: sextet := b0 / 4, b0 % 4 * 16;
    IndexOfCharOf(c0);
    IndexOfCharOf(c1);
    assert c1 % 16 == 0 && c0 * 4 + c1 / 16 == b0;
  }

  lemma PairArithmetic(b0: byte, b1: byte)
    ensures var c1 := b0 % 4 * 16 + b1 / 16; var c2 := b1 % 16 * 4;
      && c1 < 64 && c2 < 64
      && b0 / 4 * 4 + c1 / 16 == b0 && c1 % 16 * 16 + c2 / 4 == b1 && c2 % 4 == 0
  {
  }

  lemma DecodeEncodePair(b0: byte, b1: byte)
    ensures DecodeFinal(EncodePair(b0, b1)) == Some([b0, b1])
  {
    PairArithmetic(b0, b1);
    var c0: sextet, c1: sextet, c2: sextet := b0 / 4, b0 % 4 * 16 + b1 / 16, b1 % 16 * 4;
    IndexOfCharOf(c0);
    IndexOfCharOf(c1);
    IndexOfCharOf(c2);
    var s := EncodePair(b0, b1);
    assert IndexOf(s[0]) == Some(c0) && IndexOf(s[1]) == Some(c1) && IndexOf(s[2]) == Some(c2);
  }

  /** A full quantum followed by more text decodes to the quantum's octets followed by the rest's. */
  lemma DecodeQuantumThenRest(q: string, rest: string)
    requires |q| == 4 && DecodeQuantum(q).Some? && rest != []
    ensures Decode(q + rest) == if Decode(rest).Some? then Some(DecodeQuantum(q).value + Decode(rest).value) else None
  {
    assert (q + rest)[..4] == q;
    assert (q + rest)[4..] == rest;
  }

  /** Decoding undoes encoding, for every byte sequence. */
  lemma {:induction false} DecodeEncode(b: seq<byte>)
    ensures Decode(Encode(b)) == Some(b)
    decreases |b|
  {
    if |b| == 1 {
      DecodeEncodeOne(b[0]);
      assert b == [b[0]];
    } else if |b| == 2 {
      DecodeEncodePair(b[0], b[1]);
      assert b == [b[0], b[1]];
    } else if |b| == 3 {
      var s := Encode(b);
      TripleRoundTrip(b[0], b[1], b[2]);
      assert s == EncodeTriple(b[0], b[1], b[2]) + [];
      assert s[2] != '=' && s[3] != '=';
      assert b == [b[0], b[1], b[2]];
    } else if |b| > 3 {
      var rest := Encode(b[3..]);
      TripleRoundTrip(b[0], b[1], b[2]);
      DecodeEncode(b[3..]);
      DecodeQuantumThenRest(EncodeTriple(b[0], b[1], b[2]), rest);
      assert b == [b[0], b[1], b[2]] + b[3..];
    }
  }

  /** A quantum with both pad characters re-encodes to itself. */
  lemma EncodeDecodeOne(s: string)
    requires |s| == 4 && s[2] == '=' && s[3] == '=' && DecodeFinal(s).Some?
    ensures |DecodeFinal(s).value| == 1 && EncodeOne(DecodeFinal(s).value[0]) == s
  {
    CharOfIndexOf(s[0]);
    CharOfIndexOf(s[1]);
    var c0: int, c1: int := IndexOf(s[0]).value, IndexOf(s[1]).value;
    var b0 := c0 * 4 + c1 / 16;
    assert DecodeFinal(s).value == [b0];
    assert b0 / 4 == c0 && b0 % 4 * 16 == c1;
  }

  /** A quantum with one pad character re-encodes to itself. */
  lemma EncodeDecodePair(s: string)
    requires |s| == 4 && s[2] != '=' && s[3] == '=' && DecodeFinal(s).Some?
    ensures |DecodeFinal(s).value| == 2 && EncodePair(DecodeFinal(s).value[0], DecodeFinal(s).value[1]) == s
  {
    CharOfIndexOf(s[0]);
    CharOfIndexOf(s[1]);
    CharOfIndexOf(s[2]);
    var c0: int, c1: int, c2: int := IndexOf(s[0]).value, IndexOf(s[1]).value, IndexOf(s[2]).value;
    var b0, b1 := c0 * 4 + c1 / 16, c1 % 16 * 16 + c2 / 4;
    assert DecodeFinal(s).value == [b0, b1];
    assert b0 / 4 == c0 && b0 % 4 * 16 + b1 / 16 == c1 && b1 % 16 * 4 == c2;
  }

  /** An unpadded quantum re-encodes to itself. */
  lemma EncodeDecodeQuantum(s: string)
    requires |s| == 4 && DecodeQuantum(s).Some?
    ensures var q := DecodeQuantum(s).value; |q| == 3 && EncodeTriple(q[0], q[1], q[2]) == s
  {
    CharOfIndexOf(s[0]);
    CharOfIndexOf(s[1]);
    CharOfIndexOf(s[2]);
    CharOfIndexOf(s[3]);
    var c0, c1, c2, c3 := IndexOf(s[0]).value, IndexOf(s[1]).value, IndexOf(s[2]).value, IndexOf(s[3]).value;
    var b := Octets(c0, c1, c2, c3);
    assert DecodeQuantum(s).value == b;
    assert b[0] / 4 == c0 && b[0] % 4 * 16 + b[1] / 16 == c1;
    assert b[1] % 16 * 4 + b[2] / 64 == c2 && b[2] % 64 == c3;
  }

  /** Three octets followed by more encode as their quantum followed by the rest's encoding. */
  lemma EncodeTripleThenRest(q: seq<byte>, r: seq<byte>)
    requires |q| == 3
    ensures Encode(q + r) == EncodeTriple(q[0], q[1], q[2]) + Encode(r)
  {
    assert (q + r)[3..] == r;
  }

  /** The decoder accepts only what the encoder produces: encoding undoes decoding. */
  lemma {:induction false} EncodeDecode(s: string)
    requires Decode(s).Some?
    ensures Encode(Decode(s).value) == s
    decreases |s|
  {
    if |s| == 4 {
      if s[2] == '=' && s[3] == '=' {
        EncodeDecodeOne(s);
      } else if s[3] == '=' {
        EncodeDecodePair(s);
      } else {
        EncodeDecodeQuantum(s);
        EncodeTripleThenRest(DecodeQuantum(s).value, []);
      }
    } else if |s| > 4 {
      var q := DecodeQuantum(s[..4]).value;
      var r := Decode(s[4..]).value;
      EncodeDecodeQuantum(s[..4]);
      EncodeDecode(s[4..]);
      EncodeTripleThenRest(q, r);
      assert Decode(s).value == q + r;
      assert s == s[..4] + s[4..];
    }
  }
}

/** `String.getBytes()` under a US-ASCII platform charset, and its inverse on ASCII text. */
module Ascii {
  import Base64

  predicate IsAscii(s: string)
  {
    forall i :: 0 <= i < |s| ==> (s[i] as int) < 128
  }

  /** Each character becomes its code when ASCII and the replacement byte `?` otherwise. */
  function Bytes(s: string): seq<Base64.byte>
  {
    seq(|s|, i requires 0 <= i < |s| => if (s[i] as int) < 128 then s[i] as int else '?' as int)
  }

  function Text(b: seq<Base64.byte>): string
  {
    seq(|b|, i requires 0 <= i < |b| => if b[i] < 128 then b[i] as char else '?')
  }

  /** On ASCII text the encoding loses nothing. */
  lemma TextOfBytes(s: string)
    requires IsAscii(s)
    ensures Text(Bytes(s)) == s
  {
  }

  /** Outside ASCII it is lossy: every non-ASCII character reads back as `?`. */
  lemma NonAsciiBecomesQuestionMark(s: string, i: int)
    requires 0 <= i < |s| && (s[i] as int) >= 128
    ensures Text(Bytes(s))[i] == '?'
  {
  }
}
