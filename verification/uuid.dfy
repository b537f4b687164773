/** `java.util.UUID` as the task uses it: a 128-bit value held as two 64-bit
    halves, and its canonical text (`UUID.toString`), which is the 32 lowercase
    hexadecimal digits of the value grouped 8-4-4-4-12 by hyphens. The task's
    `equals` compares these texts, so the fact that matters is that the text
    determines the value; it is proved through a decoder that reads the text
    back. */
module Uuids {
  import opened Optional

  const TwoTo64: nat := 0x1_0000_0000_0000_0000

  /** The bit pattern of a Java `long`, read as an unsigned number. */
  type Bits64 = x: nat | x < TwoTo64

  datatype Uuid = Uuid(mostSigBits: Bits64, leastSigBits: Bits64)

  function Pow16(w: nat): nat
  {
    if w == 0 then 1 else 16 * Pow16(w - 1)
  }

  predicate IsHexChar(c: char) {
    '0' <= c <= '9' || 'a' <= c <= 'f'
  }

  predicate AllHex(s: string) {
    forall i :: 0 <= i < |s| ==> IsHexChar(s[i])
  }

  function HexChar(d: nat): (c: char)
    requires d < 16
    ensures IsHexChar(c)
  {
    "0123456789abcdef"[d]
  }

  function HexCharValue(c: char): (d: nat)
    requires IsHexChar(c)
    ensures d < 16
  {
    if c <= '9' then c as int - '0' as int else c as int - 'a' as int + 10
  }

  /** The low `w` hexadecimal digits of `v`, most significant first. */
  function HexDigits(v: nat, w: nat): (s: string)
    ensures |s| == w && AllHex(s)
  {
    if w == 0 then [] else HexDigits(v / 16, w - 1) + [HexChar(v % 16)]
  }

  /** Value of a string of hexadecimal digits, most significant first. */
  function HexValue(s: string): nat
    requires AllHex(s)
  {
    if |s| == 0 then 0 else HexValue(s[..|s| - 1]) * 16 + HexCharValue(s[|s| - 1])
  }

  lemma HexCharRoundTrip(d: nat)
    requires d < 16
    ensures HexCharValue(HexChar(d)) == d
  {
  }

  lemma {:induction false} HexRoundTrip(v: nat, w: nat)
    requires v < Pow16(w)
    ensures HexValue(HexDigits(v, w)) == v
  {
    if w > 0 {
      var s := HexDigits(v, w);
      HexRoundTrip(v / 16, w - 1);
      assert s[..|s| - 1] == HexDigits(v / 16, w - 1);
      HexCharRoundTrip(v % 16);
    }
  }

  /** The 32 digits of a canonical UUID text, with the four hyphens removed. */
  function HexPart(s: string): string
    requires |s| == 36
  {
    s[..8] + s[9..13] + s[14..18] + s[19..23] + s[24..]
  }

  /** `UUID.toString`: the 16 digits of the high half, then the 16 digits
      of the low half, split 8-4-4-4-12 by hyphens. */
  function ToString(u: Uuid): (s: string)
    ensures |s| == 36
    ensures s[8] == '-' && s[13] == '-' && s[18] == '-' && s[23] == '-'
    ensures HexPart(s) == HexDigits(u.mostSigBits, 16) + HexDigits(u.leastSigBits, 16)
  {
    var h := HexDigits(u.mostSigBits, 16) + HexDigits(u.leastSigBits, 16);
    var s := h[..8] + "-" + h[8..12] + "-" + h[12..16] + "-" + h[16..20] + "-" + h[20..];
    assert s[..8] == h[..8];
    assert s[9..13] == h[8..12];
    assert s[14..18] == h[12..16];
    assert s[19..23] == h[16..20];
    assert s[24..] == h[20..];
    assert h[..8] + h[8..12] == h[..12];
    assert h[..12] + h[12..16] == h[..16];
    assert h[..16] + h[16..20] == h[..20];
    assert h[..20] + h[20..] == h;
    s
  }

  /** Reads a canonical UUID text back; `None` when the hyphens are misplaced
      or a digit is not lowercase hexadecimal. */
  function FromString(s: string): Option<Uuid>
  {
    if |s| == 36 && s[8] == '-' && s[13] == '-' && s[18] == '-' && s[23] == '-' then
      var h := HexPart(s);
      if AllHex(h) then
        var hi := HexValue(h[..16]);
        var lo := HexValue(h[16..]);
        if hi < TwoTo64 && lo < TwoTo64 then Some(Uuid(hi, lo)) else None
      else None
    else None
  }

  lemma Pow16Is64Bits()
    ensures Pow16(16) == TwoTo64
  {
    assert Pow16(4) == 0x1_0000;
    assert Pow16(8) == 0x1_0000 * Pow16(4);
    assert Pow16(12) == 0x1_0000 * Pow16(8);
    assert Pow16(16) == 0x1_0000 * Pow16(12);
  }

  /** Every UUID's text decodes back to that UUID. */
  lemma FromStringToString(u: Uuid)
    ensures FromString(ToString(u)) == Some(u)
  {
    var a := HexDigits(u.mostSigBits, 16);
    var b := HexDigits(u.leastSigBits, 16);
    var h := a + b;
    assert h[..16] == a && h[16..] == b;
    Pow16Is64Bits();
    HexRoundTrip(u.mostSigBits, 16);
    HexRoundTrip(u.leastSigBits, 16);
  }

  /** Two UUIDs with the same text are the same UUID. */
  lemma ToStringInjective(u: Uuid, v: Uuid)
    ensures ToString(u) == ToString(v) <==> u == v
  {
    FromStringToString(u);
    FromStringToString(v);
  }
}
