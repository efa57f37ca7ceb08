/**
 The hash column of a wheel RECORD: unpadded base64url (sections 3.2, 3.5 and 5 of RFC 4648) of a
 SHA-256 digest. The decoder underneath is lenient; a re-encoding check makes the field canonical.
 */
module RecordHash {
  import opened Common

  type Byte = x: int | 0 <= x < 256 witness 0
  type Sextet = x: int | 0 <= x < 64 witness 0

  const DIGEST_SIZE: nat := 32
  const ALGORITHM := "sha256="

  function Digit(v: Sextet): (c: char)
    ensures c != '='
  {
    if v < 26 then 'A' + v as char
    else if v < 52 then 'a' + (v - 26) as char
    else if v < 62 then '0' + (v - 52) as char
    else if v == 62 then '-' else '_'
  }

  /** The decoder's alphabet: the URL-safe one, and the two standard characters it does not rule out. */
  function Value(c: char): Option<Sextet> {
    if 'A' <= c <= 'Z' then Some((c - 'A') as int)
    else if 'a' <= c <= 'z' then Some((c - 'a') as int + 26)
    else if '0' <= c <= '9' then Some((c - '0') as int + 52)
    else if c == '-' || c == '+' then Some(62)
    else if c == '_' || c == '/' then Some(63)
    else None
  }

  lemma ValueOfDigit(v: Sextet)
    ensures Value(Digit(v)) == Some(v)
  {
  }

  /** URL-safe encoding with the padding stripped. */
  function Encode(bytes: seq<Byte>): (s: string)
    ensures '=' !in s
  {
    if |bytes| == 0 then ""
    else if |bytes| == 1 then
      [Digit(bytes[0] / 4), Digit(bytes[0] % 4 * 16)]
    else if |bytes| == 2 then
      [Digit(bytes[0] / 4), Digit(bytes[0] % 4 * 16 + bytes[1] / 16), Digit(bytes[1] % 16 * 4)]
    else
      [Digit(bytes[0] / 4), Digit(bytes[0] % 4 * 16 + bytes[1] / 16),
       Digit(bytes[1] % 16 * 4 + bytes[2] / 64), Digit(bytes[2] % 64)] + Encode(bytes[3..])
  }

  function First(a: Sextet, b: Sextet): Byte { a * 4 + b / 16 }
  function Second(b: Sextet, c: Sextet): Byte { b % 16 * 16 + c / 4 }
  function Third(c: Sextet, d: Sextet): Byte { c % 4 * 64 + d }

  /**
   What the library decodes from text without padding characters once the missing padding is put back;
   left-over low bits of the last character are dropped unseen.
   */
  function LenientDecode(s: string): Option<seq<Byte>> {
    if |s| == 0 then Some([])
    else if |s| == 1 then None
    else
      match (Value(s[0]), Value(s[1]))
      case (Some(a), Some(b)) =>
        if |s| == 2 then Some([First(a, b)])
        else
          (match Value(s[2])
           case None => None
           case Some(c) =>
             if |s| == 3 then Some([First(a, b), Second(b, c)])
             else
               match (Value(s[3]), LenientDecode(s[4..]))
               case (Some(d), Some(rest)) => Some([First(a, b), Second(b, c), Third(c, d)] + rest)
               case _ => None)
      case _ => None
  }

  lemma {:induction false} GroupRoundTrip(x: Byte, y: Byte, z: Byte)
    ensures First(x / 4, x % 4 * 16 + y / 16) == x
    ensures Second(x % 4 * 16 + y / 16, y % 16 * 4 + z / 64) == y
    ensures Third(y % 16 * 4 + z / 64, z % 64) == z
  {
  }

  lemma {:induction false} DecodeInvertsEncode(bytes: seq<Byte>)
    ensures LenientDecode(Encode(bytes)) == Some(bytes)
  {
    hide Digit, Value, First, Second, Third;
    if |bytes| == 1 {
      GroupRoundTrip(bytes[0], 0, 0);
      ValueOfDigit(bytes[0] / 4);
      ValueOfDigit(bytes[0] % 4 * 16);
      assert bytes[0] % 4 * 16 + 0 / 16 == bytes[0] % 4 * 16;
      assert bytes == [bytes[0]];
    } else if |bytes| == 2 {
      GroupRoundTrip(bytes[0], bytes[1], 0);
      ValueOfDigit(bytes[0] / 4);
      ValueOfDigit(bytes[0] % 4 * 16 + bytes[1] / 16);
      ValueOfDigit(bytes[1] % 16 * 4);
      assert bytes[1] % 16 * 4 + 0 / 64 == bytes[1] % 16 * 4;
      assert Encode(bytes)[2] == Digit(bytes[1] % 16 * 4);
      assert bytes == [bytes[0], bytes[1]];
    } else if |bytes| >= 3 {
      var x, y, z := bytes[0], bytes[1], bytes[2];
      GroupRoundTrip(x, y, z);
      ValueOfDigit(x / 4);
      ValueOfDigit(x % 4 * 16 + y / 16);
      ValueOfDigit(y % 16 * 4 + z / 64);
      ValueOfDigit(z % 64);
      DecodeInvertsEncode(bytes[3..]);
      assert Encode(bytes)[4..] == Encode(bytes[3..]);
      assert bytes == [x, y, z] + bytes[3..];
    }
  }

  function HexDigit(v: int): char
    requires 0 <= v < 16
  {
    if v < 10 then '0' + v as char else 'a' + (v - 10) as char
  }

  function Hex(bytes: seq<Byte>): string {
    if |bytes| == 0 then "" else [HexDigit(bytes[0] / 16), HexDigit(bytes[0] % 16)] + Hex(bytes[1..])
  }

  lemma {:induction false} HexIsInjective(x: seq<Byte>, y: seq<Byte>)
    requires Hex(x) == Hex(y)
    ensures x == y
  {
    if |x| > 0 && |y| > 0 {
      assert Hex(x)[0] == Hex(y)[0] && Hex(x)[1] == Hex(y)[1];
      assert x[0] == y[0];
      assert Hex(x)[2..] == Hex(x[1..]) && Hex(y)[2..] == Hex(y[1..]);
      HexIsInjective(x[1..], y[1..]);
      assert x == [x[0]] + x[1..] && y == [y[0]] + y[1..];
    }
  }

  /** The digest in hexadecimal, or nothing when the field is malformed. */
  function DecodeRecordHash(field: string): Option<string> {
    if !(ALGORITHM <= field) then None
    else
      var encoded := field[|ALGORITHM|..];
      if |encoded| == 0 || '=' in encoded then None
      else
        match LenientDecode(encoded)
        case None => None
        case Some(bytes) =>
          if |bytes| != DIGEST_SIZE || Encode(bytes) != encoded then None else Some(Hex(bytes))
  }

  /** Exactly the canonical encodings of 32-byte digests are accepted, each for its own digest. */
  lemma {:induction false} AcceptsExactlyCanonical(field: string, digest: seq<Byte>)
    requires |digest| == DIGEST_SIZE
    ensures DecodeRecordHash(field) == Some(Hex(digest)) <==> field == ALGORITHM + Encode(digest)
  {
    if field == ALGORITHM + Encode(digest) {
      DecodeInvertsEncode(digest);
      assert field[|ALGORITHM|..] == Encode(digest);
    }
    if DecodeRecordHash(field) == Some(Hex(digest)) {
      var encoded := field[|ALGORITHM|..];
      HexIsInjective(LenientDecode(encoded).value, digest);
      assert field == ALGORITHM + encoded;
    }
  }

  /** Whatever is accepted comes from a digest. */
  lemma {:induction false} AcceptedHasDigest(field: string) returns (digest: seq<Byte>)
    requires DecodeRecordHash(field).Some?
    ensures |digest| == DIGEST_SIZE && field == ALGORITHM + Encode(digest)
            && DecodeRecordHash(field) == Some(Hex(digest))
  {
    digest := LenientDecode(field[|ALGORITHM|..]).value;
    assert field == ALGORITHM + field[|ALGORITHM|..];
  }

  /** The same text in the standard alphabet. */
  function Standard(s: string): (r: string)
    ensures |r| == |s|
  {
    seq(|s|, i requires 0 <= i < |s| => if s[i] == '-' then '+' else if s[i] == '_' then '/' else s[i])
  }

  /** The decoder alone would not do: it takes either alphabet for the same bytes. */
  lemma {:induction false} DecoderTakesBothAlphabets(s: string)
    ensures LenientDecode(Standard(s)) == LenientDecode(s)
  {
    var r := Standard(s);
    forall i | 0 <= i < |s| ensures Value(r[i]) == Value(s[i]) {}
    if |s| > 3 {
      DecoderTakesBothAlphabets(s[4..]);
      assert Standard(s[4..]) == r[4..];
    }
  }

  /** The part of a final character's value that the decoder looks at; the rest are left-over bits. */
  function Seen(v: Sextet, length: nat): int {
    if length % 4 == 2 then v / 16 else if length % 4 == 3 then v / 4 else v
  }

  /** Nor does it see the left-over low bits of the final character, of a text of any length; it sees all others. */
  lemma {:induction false} DecoderDropsLowBits(s: string, t: string)
    requires |s| == |t| > 0 && s[..|s| - 1] == t[..|t| - 1]
    requires LenientDecode(s).Some? && Value(s[|s| - 1]).Some? && Value(t[|t| - 1]).Some?
    ensures LenientDecode(t) == LenientDecode(s) <==>
              Seen(Value(t[|t| - 1]).value, |t|) == Seen(Value(s[|s| - 1]).value, |s|)
    decreases |s|
  {
    if |s| <= 4 {
      LastGroupDropsLowBits(s, t);
    } else {
      hide LenientDecode, Value, Seen;
      var n := |s| - 1;
      SeenRepeats(Value(s[n]).value, n - 3);
      SeenRepeats(Value(t[n]).value, n - 3);
      assert s[4..][..n - 4] == s[..n][4..] && t[4..][..n - 4] == t[..n][4..];
      assert s[..4] == s[..n][..4] && t[..4] == t[..n][..4];
      DecodeGroup(s);
      DecodeGroup(t);
      DecoderDropsLowBits(s[4..], t[4..]);
      if LenientDecode(t).Some? {
        PrependCancels(LenientDecode(s[..4]).value, LenientDecode(s[4..]).value, LenientDecode(t[4..]).value);
      }
    }
  }

  lemma {:induction false} LastGroupDropsLowBits(s: string, t: string)
    requires 0 < |s| == |t| <= 4 && s[..|s| - 1] == t[..|t| - 1]
    requires LenientDecode(s).Some? && Value(s[|s| - 1]).Some? && Value(t[|t| - 1]).Some?
    ensures LenientDecode(t) == LenientDecode(s) <==>
              Seen(Value(t[|t| - 1]).value, |t|) == Seen(Value(s[|s| - 1]).value, |s|)
  {
    hide Value, First, Second, Third;
    var n := |s| - 1;
    assert forall i | 0 <= i < n :: s[i] == s[..n][i] == t[..n][i] == t[i];
    var c, d := Value(s[n]).value, Value(t[n]).value;
    if n == 1 {
      var x := Value(s[0]).value;
      SeenDecides(x, c, d);
      assert LenientDecode(s).value[0] == First(x, c) && LenientDecode(t).value[0] == First(x, d);
    } else if n == 2 {
      var x, y := Value(s[0]).value, Value(s[1]).value;
      SeenDecides(y, c, d);
      assert LenientDecode(s).value[1] == Second(y, c) && LenientDecode(t).value[1] == Second(y, d);
    } else if n == 3 {
      var z := Value(s[2]).value;
      SeenDecides(z, c, d);
      assert s[4..] == "" && t[4..] == "";
      assert LenientDecode(s).value[2] == Third(z, c) && LenientDecode(t).value[2] == Third(z, d);
    }
  }

  lemma {:induction false} SeenDecides(x: Sextet, c: Sextet, d: Sextet)
    ensures First(x, c) == First(x, d) <==> Seen(c, 2) == Seen(d, 2)
    ensures Second(x, c) == Second(x, d) <==> Seen(c, 3) == Seen(d, 3)
    ensures Third(x, c) == Third(x, d) <==> Seen(c, 4) == Seen(d, 4)
  {
  }

  lemma {:induction false} SeenRepeats(v: Sextet, length: nat)
    ensures Seen(v, length) == Seen(v, length + 4)
  {
  }

  lemma {:induction false} PrependCancels(a: seq<Byte>, x: seq<Byte>, y: seq<Byte>)
    ensures a + x == a + y <==> x == y
  {
    assert x == (a + x)[|a|..] && y == (a + y)[|a|..];
  }

  /** The first group of a longer text decodes on its own. */
  lemma {:induction false} DecodeGroup(s: string)
    requires |s| > 4
    ensures LenientDecode(s).Some? <==> LenientDecode(s[..4]).Some? && LenientDecode(s[4..]).Some?
    ensures LenientDecode(s).Some? ==> |LenientDecode(s[..4]).value| == 3
                                       && LenientDecode(s).value
                                            == LenientDecode(s[..4]).value + LenientDecode(s[4..]).value
  {
    assert s[..4][4..] == "";
  }

  /** Only the canonical one of all texts for a digest gets through the re-encoding check. */
  lemma {:induction false} OneTextPerDigest(field: string, other: string)
    requires DecodeRecordHash(field).Some? && DecodeRecordHash(field) == DecodeRecordHash(other)
    ensures field == other
  {
    var digest := AcceptedHasDigest(field);
    AcceptsExactlyCanonical(other, digest);
  }
}
