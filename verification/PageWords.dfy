/**
 Page-table entries and addresses of `kernel-core/src/paging.rs` as 64-bit words.

 Words are numbers below 2^64 and their bit fields are quotients and remainders.
 The lemmas at the end say, field by field, that these are what the kernel's shifts and
 masks compute.
 */
module PageWords {
  import opened Words
  import opened Bits

  const FRAME_COUNT: nat := 0x100_0000_0000
  const NX_BIT: nat := 0x8000_0000_0000_0000

  /** A frame an entry can name: 40 address bits above the 12 offset bits. */
  type Frame = f: nat | f < FRAME_COUNT

  type Index = i: nat | i < 512

  predicate Present(e: U64) {
    e % 2 == 1
  }

  predicate UserBit(e: U64) {
    e / 4 % 2 == 1
  }

  predicate Huge(e: U64) {
    e / 128 % 2 == 1
  }

  predicate NoExecute(e: U64) {
    e / NX_BIT == 1
  }

  function FrameOf(e: U64): Frame {
    e / 4096 % FRAME_COUNT
  }

  datatype PageFlags =
    KernelReadWrite | Device | UserReadOnly | UserReadWrite | UserReadExecute | UserReadWriteExecute
  {
    /** PRESENT is 1, WRITABLE 2, USER 4. */
    function Bits(): U64 {
      match this
      case KernelReadWrite => 1 + 2 + NX_BIT
      case Device => 1 + 2 + NX_BIT
      case UserReadOnly => 1 + 4 + NX_BIT
      case UserReadWrite => 1 + 2 + 4 + NX_BIT
      case UserReadExecute => 1 + 4
      case UserReadWriteExecute => 1 + 2 + 4
    }

    predicate User() {
      !KernelReadWrite? && !Device?
    }

    predicate Executable() {
      UserReadExecute? || UserReadWriteExecute?
    }

    predicate Writable() {
      !UserReadOnly? && !UserReadExecute?
    }
  }

  predicate WritableBit(e: U64) {
    e / 2 % 2 == 1
  }

  /** The entry that links a new table. */
  function TableEntry(frame: Frame, user: bool): U64 {
    frame * 4096 + 1 + 2 + (if user then 4 else 0)
  }

  /** The entry that maps a page. */
  function LeafEntry(frame: Frame, flags: PageFlags): U64 {
    frame * 4096 + flags.Bits()
  }

  lemma TableEntryFields(frame: Frame, user: bool)
    ensures var e := TableEntry(frame, user);
            Present(e) && !Huge(e) && UserBit(e) == user && !NoExecute(e) && FrameOf(e) == frame
  {
    hide FrameOf, Present, UserBit, WritableBit, Huge, NoExecute;
    FieldsOf(frame, if user then 7 else 3, true);
  }

  lemma LeafEntryFields(frame: Frame, flags: PageFlags)
    ensures var e := LeafEntry(frame, flags);
            && Present(e) && !Huge(e) && FrameOf(e) == frame
            && UserBit(e) == flags.User() && NoExecute(e) == !flags.Executable()
            && WritableBit(e) == flags.Writable()
  {
    hide FrameOf, Present, UserBit, WritableBit, Huge, NoExecute;
    var low := (if flags.Writable() then 2 else 0) + (if flags.User() then 4 else 0) + 1;
    assert flags.Bits() == low + if flags.Executable() then 0 else NX_BIT;
    FieldsOf(frame, low, flags.Executable());
  }

  lemma FieldsOf(frame: Frame, low: nat, executable: bool)
    requires low < 128
    ensures var e := frame * 4096 + low + if executable then 0 else NX_BIT;
            && Present(e) == (low % 2 == 1) && !Huge(e) && FrameOf(e) == frame
            && UserBit(e) == (low / 4 % 2 == 1) && NoExecute(e) == !executable
            && WritableBit(e) == (low / 2 % 2 == 1)
  {
    hide FrameOf, Present, UserBit, WritableBit, Huge, NoExecute;
    var top := if executable then 0 else 1;
    var q := frame * 32 + top * 0x100_0000_0000_0000;
    var e := q * 128 + low;
    assert Present(e) == (low % 2 == 1) by { PresentField(q, low); }
    assert WritableBit(e) == (low / 2 % 2 == 1) by { WritableField(q, low); }
    assert UserBit(e) == (low / 4 % 2 == 1) by { UserField(q, low); }
    assert !Huge(e) by { HugeField(frame * 16 + top * 0x80_0000_0000_0000, low); }
    assert FrameOf(e) == frame by { FrameField(frame, low, top); }
    assert NoExecute(e) == !executable by { TopField(frame, low, top); }
  }

  lemma PresentField(q: nat, low: nat)
    requires q * 128 + low < TWO_64
    ensures Present(q * 128 + low) == (low % 2 == 1)
  {
    assert q * 128 + low == 2 * (q * 64) + low;
  }

  lemma WritableField(q: nat, low: nat)
    requires q * 128 + low < TWO_64
    ensures WritableBit(q * 128 + low) == (low / 2 % 2 == 1)
  {
    assert (q * 128 + low) / 2 == 2 * (q * 32) + low / 2;
  }

  lemma UserField(q: nat, low: nat)
    requires q * 128 + low < TWO_64
    ensures UserBit(q * 128 + low) == (low / 4 % 2 == 1)
  {
    assert (q * 128 + low) / 4 == 2 * (q * 16) + low / 4;
  }

  lemma HugeField(h: nat, low: nat)
    requires h * 256 + low < TWO_64 && low < 128
    ensures !Huge(h * 256 + low)
  {
    assert (h * 256 + low) / 128 == 2 * h;
  }

  lemma FrameField(frame: Frame, low: nat, top: nat)
    requires low < 128 && top < 2
    ensures FrameOf(frame * 4096 + low + top * NX_BIT) == frame
  {
    var e := frame * 4096 + low + top * NX_BIT;
    assert e / 4096 == frame + top * 2048 * FRAME_COUNT;
  }

  lemma TopField(frame: Frame, low: nat, top: nat)
    requires low < 128 && top < 2
    ensures NoExecute(frame * 4096 + low + top * NX_BIT) == (top == 1)
  {
  }

  // ------------------------------------------------------------------ addresses

  /** The four table indices of an address. */
  datatype Path = Path(l4: Index, l3: Index, l2: Index, l1: Index)

  function PathOf(address: U64): Path {
    Path(address / 0x80_0000_0000 % 512, address / 0x4000_0000 % 512, address / 0x20_0000 % 512, address / 4096 % 512)
  }

  predicate UserAddress(address: U64) {
    USER_BASE <= address < USER_END
  }

  /** Below the canonical hole the indices of an address are the base-512 digits of its
      page number, so two addresses share them exactly when they share a page. */
  lemma PathIsPage(a: U64, b: U64)
    requires a < USER_END && b < USER_END
    ensures PathOf(a) == PathOf(b) <==> a / 4096 == b / 4096
    ensures PathOf(a).l4 < 256
  {
    hide PathOf;
    var p, q := PathOf(a), PathOf(b);
    assert ((p.l4 * 512 + p.l3) * 512 + p.l2) * 512 + p.l1 == a / 4096 && p.l4 < 256 by { Digits(a); }
    assert ((q.l4 * 512 + q.l3) * 512 + q.l2) * 512 + q.l1 == b / 4096 by { Digits(b); }
    DigitsDetermine(p, q);
    if a / 4096 == b / 4096 {
      assert p == q;
    }
  }

  lemma DigitsDetermine(p: Path, q: Path)
    ensures ((p.l4 * 512 + p.l3) * 512 + p.l2) * 512 + p.l1 == ((q.l4 * 512 + q.l3) * 512 + q.l2) * 512 + q.l1 ==> p == q
  {
    LastDigit((p.l4 * 512 + p.l3) * 512 + p.l2, p.l1, (q.l4 * 512 + q.l3) * 512 + q.l2, q.l1);
    LastDigit(p.l4 * 512 + p.l3, p.l2, q.l4 * 512 + q.l3, q.l2);
    LastDigit(p.l4, p.l3, q.l4, q.l3);
  }

  lemma LastDigit(a: nat, i: Index, b: nat, j: Index)
    ensures a * 512 + i == b * 512 + j ==> a == b && i == j
  {
  }

  lemma Digits(a: U64)
    requires a < USER_END
    ensures var p := PathOf(a);
            a / 4096 == ((p.l4 * 512 + p.l3) * 512 + p.l2) * 512 + p.l1 && p.l4 < 256
  {
    var n1 := a / 4096;
    assert a / 0x20_0000 == n1 / 512;
    var n2 := n1 / 512;
    assert a / 0x4000_0000 == n2 / 512 by {
      assert a / 0x4000_0000 == a / 0x20_0000 / 512;
    }
    var n3 := n2 / 512;
    assert a / 0x80_0000_0000 == n3 / 512 by {
      assert a / 0x80_0000_0000 == a / 0x4000_0000 / 512;
    }
    assert n3 / 512 < 256;
  }

  // ---------------------------------------------------------- bytes within words

  type Byte = b: nat | b < 256

  function Pow256(n: nat): nat {
    if n == 0 then 1 else 256 * Pow256(n - 1)
  }

  /** Byte `k` of a word, least significant first. */
  function ByteOf(w: nat, k: nat): Byte {
    if k == 0 then w % 256 else ByteOf(w / 256, k - 1)
  }

  function WithByte(w: nat, k: nat, b: Byte): nat {
    if k == 0 then w - w % 256 + b else w % 256 + 256 * WithByte(w / 256, k - 1, b)
  }

  lemma {:induction false} WithByteFits(w: nat, k: nat, b: Byte, n: nat)
    requires k < n && w < Pow256(n)
    ensures WithByte(w, k, b) < Pow256(n)
  {
    if k > 0 {
      WithByteFits(w / 256, k - 1, b, n - 1);
    }
  }

  /** Writing one byte of a word changes that byte and no other. */
  lemma {:induction false} ByteOfWithByte(w: nat, k: nat, b: Byte, j: nat)
    ensures ByteOf(WithByte(w, k, b), j) == if j == k then b else ByteOf(w, j)
  {
    if k > 0 && j > 0 {
      ByteOfWithByte(w / 256, k - 1, b, j - 1);
    }
  }

  lemma WordIsEightBytes()
    ensures Pow256(8) == TWO_64
  {
    assert Pow256(4) == 0x1_0000_0000;
  }

  /** The number some bytes spell, least significant first. */
  function LittleEndian(bytes: seq<Byte>): nat {
    if bytes == [] then 0 else bytes[0] + 256 * LittleEndian(bytes[1..])
  }

  lemma {:induction false} LittleEndianFits(bytes: seq<Byte>)
    ensures LittleEndian(bytes) < Pow256(|bytes|)
  {
    if bytes != [] {
      LittleEndianFits(bytes[1..]);
    }
  }

  lemma FieldFits(bytes: seq<Byte>)
    requires |bytes| <= 8
    ensures LittleEndian(bytes) < TWO_64
  {
    LittleEndianFits(bytes);
    WordIsEightBytes();
    PowGrows(|bytes|, 8);
  }

  lemma {:induction false} PowGrows(a: nat, b: nat)
    requires a <= b
    ensures Pow256(a) <= Pow256(b)
  {
    if a < b {
      PowGrows(a, b - 1);
    }
  }

  /** The bytes of a word spell the word. */
  lemma {:induction false} BytesSpellWord(bytes: seq<Byte>, w: nat)
    requires w < Pow256(|bytes|) && forall i: nat | i < |bytes| :: bytes[i] == ByteOf(w, i)
    ensures LittleEndian(bytes) == w
  {
    if bytes != [] {
      forall i: nat | i < |bytes[1..]| ensures bytes[1..][i] == ByteOf(w / 256, i) {
        assert bytes[1..][i] == bytes[i + 1];
      }
      BytesSpellWord(bytes[1..], w / 256);
    }
  }

  // ------------------------------------------------- the same fields by shift and mask

  const ENTRY_ADDRESS_MASK: U64 := 0x000F_FFFF_FFFF_F000

  lemma IndexBits(a: U64)
    ensures PathOf(a).l4 == And(Shr(a, 39), 0x1FF) && PathOf(a).l3 == And(Shr(a, 30), 0x1FF)
    ensures PathOf(a).l2 == And(Shr(a, 21), 0x1FF) && PathOf(a).l1 == And(Shr(a, 12), 0x1FF)
  {
    hide And, Shr, Pow2;
    Pow2Values();
    FieldIs(a, 39, 9);
    FieldIs(a, 30, 9);
    FieldIs(a, 21, 9);
    FieldIs(a, 12, 9);
  }

  lemma OneBit(e: nat, k: nat)
    ensures And(e, Pow2(k)) != 0 <==> e / Pow2(k) % 2 == 1
  {
    hide And, Shr;
    FieldIs(e, k, 1);
    assert Pow2(1) == 2;
  }

  lemma EntryBits(e: U64)
    ensures Present(e) <==> And(e, 1) != 0
    ensures WritableBit(e) <==> And(e, 2) != 0
    ensures UserBit(e) <==> And(e, 4) != 0
    ensures Huge(e) <==> And(e, 128) != 0
    ensures NoExecute(e) <==> And(e, NX_BIT) != 0
    ensures FrameOf(e) * 4096 == And(e, ENTRY_ADDRESS_MASK)
  {
    hide And, Shr, Pow2, FrameOf;
    SmallPowers();
    Pow2Values();
    OneBit(e, 0);
    OneBit(e, 1);
    OneBit(e, 2);
    OneBit(e, 7);
    OneBit(e, 63);
    assert NoExecute(e) <==> e / NX_BIT % 2 == 1;
    AddressBits(e);
  }

  lemma AddressBits(e: U64)
    ensures FrameOf(e) * 4096 == And(e, ENTRY_ADDRESS_MASK)
  {
    hide And, Shr, Pow2;
    Pow2Values();
    FieldIs(e, 12, 40);
  }

  /** The kernel writes entries as unions of an address and flags. */
  lemma EntryUnion(frame: Frame, user: bool, physical: U64, flags: PageFlags)
    ensures TableEntry(frame, user) == Or(Or(Or(frame * 4096, 1), 2), if user then 4 else 0)
    ensures LeafEntry(FrameOf(physical), flags) == Or(And(physical, ENTRY_ADDRESS_MASK), flags.Bits())
  {
    hide And, Or, FrameOf;
    AddressBits(physical);
    UnionOfFlags(frame, 1, 2, if user then 4 else 0);
    LeafUnion(FrameOf(physical), flags);
  }

  lemma UnionOfFlags(frame: Frame, a: nat, b: nat, c: nat)
    requires a == 1 && b == 2 && (c == 0 || c == 4)
    ensures Or(Or(Or(frame * 4096, a), b), c) == frame * 4096 + a + b + c
  {
    hide And, Or, Shr, Pow2;
    OrAssociates(frame * 4096, a, b);
    OrAssociates(frame * 4096, Or(a, b), c);
    SmallUnions();
    Pow2Values();
    LowAndHigh(frame, a + b + c, 12);
  }

  lemma SmallUnions()
    ensures Or(1, 2) == 3 && Or(3, 4) == 7 && Or(3, 0) == 3
  {
  }

  lemma LeafUnion(frame: Frame, flags: PageFlags)
    ensures LeafEntry(frame, flags) == Or(frame * 4096, flags.Bits())
  {
    hide And, Or, Shr, Pow2;
    var high := if flags.Executable() then 0 else 1;
    var low := flags.Bits() - high * NX_BIT;
    Pow2Values();
    LowAndHigh(high, low, 63);
    OrCommutes(high * NX_BIT, low);
    OrAssociates(frame * 4096, low, high * NX_BIT);
    LowAndHigh(frame, low, 12);
    LowAndHigh(high, frame * 4096 + low, 63);
    OrCommutes(high * NX_BIT, frame * 4096 + low);
  }

  /** The flags themselves are unions of single bits. */
  lemma FlagUnion(flags: PageFlags)
    ensures flags.Bits() == Or(Or(Or(1, if flags.Writable() then 2 else 0), if flags.User() then 4 else 0),
                               if flags.Executable() then 0 else NX_BIT)
  {
    hide Or;
    var low := 1 + (if flags.Writable() then 2 else 0) + (if flags.User() then 4 else 0);
    assert flags.Bits() == low + if flags.Executable() then 0 else NX_BIT;
    LowFlags();
    HighFlag(low, if flags.Executable() then 0 else 1);
  }

  lemma LowFlags()
    ensures Or(Or(1, 0), 0) == 1 && Or(Or(1, 2), 0) == 3 && Or(Or(1, 0), 4) == 5 && Or(Or(1, 2), 4) == 7
  {
  }

  lemma HighFlag(low: nat, high: nat)
    requires low < 8 && high < 2
    ensures Or(low, high * NX_BIT) == low + high * NX_BIT
  {
    hide And, Or, Shr, Pow2;
    Pow2Values();
    LowAndHigh(high, low, 63);
    OrCommutes(high * NX_BIT, low);
  }

  /** Clearing the low bits of an address rounds it down to its page, or to 16 bytes. */
  lemma RoundDown(address: U64)
    ensures And(address, TWO_64 - 4096) == address - address % 4096
    ensures And(address, TWO_64 - 16) == address - address % 16
  {
    hide And, Shr;
    ClearedLowBits(address, 12);
    ClearedLowBits(address, 4);
  }
}
