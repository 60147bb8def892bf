/** Bytes, words and the bit operations on them, on a little-endian host. */
module Words {
  import opened Net

  // ---- Words in memory ----

  /** `to_le_bytes`, which is also how the host keeps the word in memory. */
  function ToLe32(w: U32): Octets4 {
    [w % 256, w / 0x100 % 256, w / 0x1_0000 % 256, w / 0x100_0000]
  }

  function ToBe32(w: U32): Octets4 {
    [w / 0x100_0000, w / 0x1_0000 % 256, w / 0x100 % 256, w % 256]
  }

  function Le32(b: Octets4): U32 {
    b[0] as nat + 0x100 * (b[1] as nat) + 0x1_0000 * (b[2] as nat) + 0x100_0000 * (b[3] as nat)
  }

  /** `u32::from_be`: what the word would be if its bytes were read in network order. */
  function FromBe32(w: U32): U32 {
    var b := ToLe32(w);
    Le32([b[3], b[2], b[1], b[0]])
  }

  /** `u16::from_be`. */
  function FromBe16(w: U16): U16 {
    w % 256 * 256 + w / 256
  }

  function ToLe16(w: U16): seq<Byte> {
    [w % 256, w / 256]
  }

  function Le16(lo: Byte, hi: Byte): U16 {
    lo + 256 * hi
  }

  lemma Le32RoundTrip(w: U32)
    ensures Le32(ToLe32(w)) == w
  {
    var a, b := w / 0x100, w / 0x1_0000;
    assert w == 0x100 * a + w % 0x100;
    assert b == a / 0x100 && a == 0x100 * b + a % 0x100;
    assert w / 0x100_0000 == b / 0x100 && b == 0x100 * (b / 0x100) + b % 0x100;
  }

  lemma ToLe32RoundTrip(b: Octets4)
    ensures ToLe32(Le32(b)) == b
  {
    var w := Le32(b);
    var b1, b2, b3: nat := b[1], b[2], b[3];
    assert w / 0x100 == b1 + 0x100 * b2 + 0x1_0000 * b3;
    assert w / 0x1_0000 == b2 + 0x100 * b3;
    assert w / 0x100_0000 == b3;
  }

  /** Reading a word in network order and writing it in network order leaves memory as it was. */
  lemma NetworkOrder(w: U32)
    ensures ToBe32(FromBe32(w)) == ToLe32(w)
  {
    var b := ToLe32(w);
    ToLe32RoundTrip([b[3], b[2], b[1], b[0]]);
  }

  lemma PortOrder(port: U16)
    ensures FromBe16(Le16(port / 256, port % 256)) == port
  {
  }

  /** Copies a word's bytes into a buffer. */
  method StoreWord(bytes: array<Byte>, at: nat, wordBytes: Octets4)
    requires at + 4 <= bytes.Length
    modifies bytes
    ensures bytes[..at + 4] == old(bytes[..at]) + wordBytes
  {
    bytes[at] := wordBytes[0];
    bytes[at + 1] := wordBytes[1];
    bytes[at + 2] := wordBytes[2];
    bytes[at + 3] := wordBytes[3];
  }

  // ---- Bit masks ----

  /** Bitwise `&`. */
  function BitAnd(a: nat, b: nat): nat
    decreases a
  {
    if a == 0 || b == 0 then 0
    else (if a % 2 == 1 && b % 2 == 1 then 1 else 0) + 2 * BitAnd(a / 2, b / 2)
  }

  /** No bit of the mask is zero below its highest one. */
  predicate AllOnes(mask: nat)
    decreases mask
  {
    mask == 0 || (mask % 2 == 1 && AllOnes(mask / 2))
  }

  lemma {:induction false} AndOnes(a: nat, mask: nat)
    requires AllOnes(mask) && a <= mask
    ensures BitAnd(a, mask) == a
    decreases a
  {
    if a != 0 {
      AndOnes(a / 2, mask / 2);
    }
  }

  lemma OneMore(mask: nat)
    requires AllOnes(mask)
    ensures AllOnes(2 * mask + 1)
  {
    assert (2 * mask + 1) / 2 == mask;
  }

  lemma HalfOnes(mask: nat)
    requires AllOnes(mask)
    ensures AllOnes(mask / 2)
  {
  }

  lemma EightMore(mask: nat)
    requires AllOnes(mask)
    ensures AllOnes(0x100 * mask + 0xFF)
  {
    OneMore(mask);
    OneMore(2 * mask + 1);
    OneMore(4 * mask + 3);
    OneMore(8 * mask + 7);
    OneMore(0x10 * mask + 0xF);
    OneMore(0x20 * mask + 0x1F);
    OneMore(0x40 * mask + 0x3F);
    OneMore(0x80 * mask + 0x7F);
  }

  /** `!3` on a 64-bit `usize`. */
  const NOT_THREE: nat := 0xFFFF_FFFF_FFFF_FFFC

  lemma MaskShape()
    ensures AllOnes(NOT_THREE / 4) && NOT_THREE % 4 == 0
  {
    EightMore(0);
    EightMore(0xFF);
    EightMore(0xFFFF);
    EightMore(0xFF_FFFF);
    EightMore(0xFFFF_FFFF);
    EightMore(0xFF_FFFF_FFFF);
    EightMore(0xFFFF_FFFF_FFFF);
    EightMore(0xFF_FFFF_FFFF_FFFF);
    assert AllOnes(0xFFFF_FFFF_FFFF_FFFF);
    assert 0xFFFF_FFFF_FFFF_FFFF / 2 / 2 == NOT_THREE / 4;
    HalfOnes(0xFFFF_FFFF_FFFF_FFFF);
    HalfOnes(0xFFFF_FFFF_FFFF_FFFF / 2);
  }

  /** Clearing the two lowest bits rounds down to a multiple of four. */
  lemma ClearLowBits(n: nat)
    requires n <= U64_MAX
    ensures BitAnd(n, NOT_THREE) == n - n % 4
  {
    MaskShape();
    AndOnes(n / 4, NOT_THREE / 4);
    assert n / 2 / 2 == n / 4 && NOT_THREE / 2 / 2 == NOT_THREE / 4;
    assert BitAnd(n / 2, NOT_THREE / 2) == 2 * BitAnd(n / 4, NOT_THREE / 4);
  }
}
