/**
 * UUIDs as github.com/google/uuid handles them: 16 bytes, rendered by String()
 * in the canonical lower-case 8-4-4-4-12 form and read back by Parse, which
 * accepts the canonical form (either case), the "urn:uuid:" form, the braced
 * form and 32 bare hex digits.
 */
module Uuid {
  import opened Wrappers

  newtype byte = x: int | 0 <= x < 256

  type Uuid = s: seq<byte> | |s| == 16 witness [0, 0, 0, 0, 0, 0, 0, 0, 0, 0, 0, 0, 0, 0, 0, 0]

  /** uuid.Nil, the zero value of uuid.UUID. */
  const Nil: Uuid := [0, 0, 0, 0, 0, 0, 0, 0, 0, 0, 0, 0, 0, 0, 0, 0]

  const HexDigits: string := "0123456789abcdef"

  function HexByte(b: byte): string {
    [HexDigits[(b / 16) as int], HexDigits[(b % 16) as int]]
  }

  function Hex(bs: seq<byte>): (s: string)
    ensures |s| == 2 * |bs|
  {
    if bs == [] then "" else HexByte(bs[0]) + Hex(bs[1..])
  }

  /** u.String() */
  function ToString(u: Uuid): (s: string)
    ensures |s| == 36
    ensures s[8] == '-' && s[13] == '-' && s[18] == '-' && s[23] == '-'
  {
    Hex(u[..4]) + "-" + Hex(u[4..6]) + "-" + Hex(u[6..8]) + "-" + Hex(u[8..10]) + "-" + Hex(u[10..])
  }

  /** The xvalues table: the value of a hex digit of either case. */
  function HexValue(c: char): Option<int> {
    if '0' <= c <= '9' then Some(c as int - '0' as int)
    else if 'a' <= c <= 'f' then Some(c as int - 'a' as int + 10)
    else if 'A' <= c <= 'F' then Some(c as int - 'A' as int + 10)
    else None
  }

  /** xtob: two hex digits to a byte. */
  function Xtob(hi: char, lo: char): (r: Option<byte>)
    ensures r.Some? <==> HexValue(hi).Some? && HexValue(lo).Some?
  {
    match (HexValue(hi), HexValue(lo))
    case (Some(h), Some(l)) =>
      assert 0 <= h < 16 && 0 <= l < 16;
      Some((16 * h + l) as byte)
    case _ => None
  }

  function Unhex(s: string): (r: Option<seq<byte>>)
    requires |s| % 2 == 0
    ensures r.Some? ==> |r.value| == |s| / 2
  {
    if s == [] then Some([])
    else
      match (Xtob(s[0], s[1]), Unhex(s[2..]))
      case (Some(b), Some(rest)) => Some([b] + rest)
      case _ => None
  }

  /** The dashed form xxxxxxxx-xxxx-xxxx-xxxx-xxxxxxxxxxxx held in the first 36 characters of s. */
  function ParseDashed(s: string): Option<Uuid>
    requires |s| >= 36
  {
    if s[8] != '-' || s[13] != '-' || s[18] != '-' || s[23] != '-' then None
    else
      match Unhex(s[..8] + s[9..13] + s[14..18] + s[19..23] + s[24..36])
      case Some(bs) => Some(bs)
      case None => None
  }

  function LowerAscii(c: char): char {
    if 'A' <= c <= 'Z' then (c as int - 'A' as int + 'a' as int) as char else c
  }

  /** strings.EqualFold restricted to ASCII text. */
  predicate EqualFold(a: string, b: string) {
    |a| == |b| && forall i | 0 <= i < |a| :: LowerAscii(a[i]) == LowerAscii(b[i])
  }

  /**
   * uuid.Parse. As in the library, the braced form only drops its first character
   * and never looks at the braces themselves.
   */
  function Parse(s: string): (r: Option<Uuid>)
    ensures r.Some? ==> |s| == 32 || |s| == 36 || |s| == 38 || |s| == 45
    ensures r.Some? && |s| == 36 ==> s[8] == '-' && s[13] == '-' && s[18] == '-' && s[23] == '-'
  {
    if |s| == 36 then ParseDashed(s)
    else if |s| == 36 + 9 then
      if EqualFold(s[..9], "urn:uuid:") then ParseDashed(s[9..]) else None
    else if |s| == 36 + 2 then ParseDashed(s[1..])
    else if |s| == 32 then
      match Unhex(s)
      case Some(bs) => Some(bs)
      case None => None
    else None
  }

  lemma HexValueOfDigit(n: int)
    requires 0 <= n < 16
    ensures HexValue(HexDigits[n]) == Some(n)
  {
    if n < 10 {
      assert HexDigits[n] as int == '0' as int + n;
    } else {
      assert HexDigits[n] as int == 'a' as int + n - 10;
    }
  }

  lemma XtobHexByte(b: byte)
    ensures Xtob(HexByte(b)[0], HexByte(b)[1]) == Some(b)
  {
    HexValueOfDigit((b / 16) as int);
    HexValueOfDigit((b % 16) as int);
  }

  lemma {:induction false} HexAppend(a: seq<byte>, b: seq<byte>)
    ensures Hex(a + b) == Hex(a) + Hex(b)
  {
    if a == [] {
      assert a + b == b;
    } else {
      assert (a + b)[1..] == a[1..] + b;
      HexAppend(a[1..], b);
    }
  }

  lemma {:induction false} UnhexHex(bs: seq<byte>)
    ensures Unhex(Hex(bs)) == Some(bs)
  {
    if bs != [] {
      var s := Hex(bs);
      assert s[0] == HexByte(bs[0])[0] && s[1] == HexByte(bs[0])[1];
      assert s[2..] == Hex(bs[1..]);
      XtobHexByte(bs[0]);
      UnhexHex(bs[1..]);
      assert [bs[0]] + bs[1..] == bs;
    }
  }

  /** Parse reads back exactly what String writes. */
  lemma ParseToString(u: Uuid)
    ensures Parse(ToString(u)) == Some(u)
  {
    var s := ToString(u);
    var g1, g2, g3, g4, g5 := Hex(u[..4]), Hex(u[4..6]), Hex(u[6..8]), Hex(u[8..10]), Hex(u[10..]);
    assert s == g1 + "-" + g2 + "-" + g3 + "-" + g4 + "-" + g5;
    assert s[..8] == g1;
    assert s[9..13] == g2;
    assert s[14..18] == g3;
    assert s[19..23] == g4;
    assert s[24..36] == g5;
    HexAppend(u[..4], u[4..6]);
    HexAppend(u[..4] + u[4..6], u[6..8]);
    HexAppend(u[..4] + u[4..6] + u[6..8], u[8..10]);
    HexAppend(u[..4] + u[4..6] + u[6..8] + u[8..10], u[10..]);
    assert u[..4] + u[4..6] + u[6..8] + u[8..10] + u[10..] == u;
    UnhexHex(u);
  }

  /** Distinct UUIDs have distinct canonical strings, so the string is a faithful cache key. */
  lemma ToStringInjective(u: Uuid, v: Uuid)
    requires ToString(u) == ToString(v)
    ensures u == v
  {
    ParseToString(u);
    ParseToString(v);
  }
}
