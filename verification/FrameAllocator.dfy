/** The bitmap frame allocator of `kernel-core/src/memory.rs`. */
module FrameAllocator {
  import opened Wrappers
  import opened FrameSets
  import opened Words

  const BITMAP_BYTES: nat := 0x2_0000

  datatype RegionKind = Usable | Reserved

  datatype Region = Region(base: U64, length: U64, kind: RegionKind)

  datatype Range = Range(base: U64, length: U64)

  // ------------------------------------------------------------------- bitmaps

  function Mask(k: nat): bv8
    requires k < 8
  {
    1 << k
  }

  lemma MaskBits(k: nat, byte: bv8)
    requires k < 8
    ensures (byte | Mask(k)) & Mask(k) != 0
    ensures byte & !Mask(k) & Mask(k) == 0
  {
    assert forall j: nat | j < 8 :: Mask(j) == [1, 2, 4, 8, 16, 32, 64, 128][j];
    match k
    case 0 => case 1 => case 2 => case 3 => case 4 => case 5 => case 6 => case _ =>
  }

  /** Writing one bit leaves the other bits of the byte alone. */
  lemma OtherMaskBits(k: nat, j: nat, byte: bv8)
    requires k < 8 && j < 8 && j != k
    ensures (byte | Mask(k)) & Mask(j) == byte & Mask(j)
    ensures byte & !Mask(k) & Mask(j) == byte & Mask(j)
  {
    MasksAreDisjoint(k, j);
    OtherBits(Mask(k), Mask(j), byte);
  }

  lemma MasksAreDisjoint(k: nat, j: nat)
    requires k < 8 && j < 8 && j != k
    ensures Mask(k) & Mask(j) == 0
  {
    assert forall i: nat | i < 8 :: Mask(i) == [1, 2, 4, 8, 16, 32, 64, 128][i];
  }

  lemma OtherBits(m: bv8, n: bv8, byte: bv8)
    requires m & n == 0
    ensures (byte | m) & n == byte & n
    ensures byte & !m & n == byte & n
  {
  }

  predicate BitAt(bytes: seq<bv8>, frame: nat)
    requires |bytes| == BITMAP_BYTES && frame < MAX_FRAMES
  {
    bytes[frame / 8] & Mask(frame % 8) != 0
  }

  /** The frames whose bit is clear. */
  ghost function Clear(bytes: seq<bv8>): set<nat>
    requires |bytes| == BITMAP_BYTES
  {
    set f: nat | f < MAX_FRAMES && !BitAt(bytes, f)
  }

  ghost function Set(bytes: seq<bv8>): set<nat>
    requires |bytes| == BITMAP_BYTES
  {
    set f: nat | f < MAX_FRAMES && BitAt(bytes, f)
  }

  function WithBit(byte: bv8, k: nat, value: bool): bv8
    requires k < 8
  {
    if value then byte | Mask(k) else byte & !Mask(k)
  }

  lemma BitAfterWrite(bytes: seq<bv8>, frame: nat, value: bool, g: nat)
    requires |bytes| == BITMAP_BYTES && frame < MAX_FRAMES && g < MAX_FRAMES
    ensures var after := bytes[frame / 8 := WithBit(bytes[frame / 8], frame % 8, value)];
            BitAt(after, g) == if g == frame then value else BitAt(bytes, g)
  {
    hide Mask, WithBit;
    assert g == frame <==> g / 8 == frame / 8 && g % 8 == frame % 8;
    if g / 8 == frame / 8 {
      BitOfByte(bytes[frame / 8], frame % 8, value, g % 8);
    }
  }

  lemma BitOfByte(byte: bv8, k: nat, value: bool, j: nat)
    requires k < 8 && j < 8
    ensures (WithBit(byte, k, value) & Mask(j) != 0) == if j == k then value else byte & Mask(j) != 0
  {
    hide Mask;
    if j == k {
      MaskBits(k, byte);
    } else {
      OtherMaskBits(k, j, byte);
    }
  }

  lemma WriteChangesOneBit(bytes: seq<bv8>, frame: nat, value: bool)
    requires |bytes| == BITMAP_BYTES && frame < MAX_FRAMES
    ensures var after := bytes[frame / 8 := WithBit(bytes[frame / 8], frame % 8, value)];
            forall g: nat | g < MAX_FRAMES :: BitAt(after, g) == if g == frame then value else BitAt(bytes, g)
  {
    hide WithBit, BitAt;
    var after := bytes[frame / 8 := WithBit(bytes[frame / 8], frame % 8, value)];
    forall g: nat | g < MAX_FRAMES ensures BitAt(after, g) == if g == frame then value else BitAt(bytes, g) {
      BitAfterWrite(bytes, frame, value, g);
    }
  }

  // ------------------------------------------------------------ initial contents

  /** A frame lies wholly inside a usable region. */
  ghost predicate Inside(f: nat, region: Region) {
    region.kind == Usable && region.base <= f * PAGE_SIZE && (f + 1) * PAGE_SIZE <= region.base + region.length
  }

  /** A frame meets a reserved range rounded outward to frames; an empty range still
      takes the frame its base points into. */
  ghost predicate Touches(f: nat, base: nat, length: nat) {
    base < (f + 1) * PAGE_SIZE && f * PAGE_SIZE < base + length
  }

  /** The frames `initialize` leaves free. */
  ghost predicate FreeAtBoot(f: nat, regions: seq<Region>, reserved: seq<Range>) {
    && (exists i | 0 <= i < |regions| :: Inside(f, regions[i]))
    && !Touches(f, 0, FIRST_MEGABYTE)
    && (forall i | 0 <= i < |reserved| :: !Touches(f, reserved[i].base, reserved[i].length))
  }

  class BitmapFrameAllocator {
    const bitmap: array<bv8>
    const handedOut: array<bv8>
    var freeFrames: nat

    ghost const repr: set<object> := {this, bitmap, handedOut}

    ghost predicate Structure()
    {
      bitmap.Length == BITMAP_BYTES && handedOut.Length == BITMAP_BYTES && bitmap != handedOut
    }

    ghost function Frames(): Frames
      requires Structure()
      reads bitmap, handedOut
    {
      FrameSets.Frames(Clear(bitmap[..]), Set(handedOut[..]))
    }

    /** What every allocator function keeps once `initialize` has run. */
    ghost predicate Valid()
      reads repr
    {
      Structure() && Sound(Frames()) && freeFrames == |Frames().vacant|
    }

    /** The statics before boot. */
    constructor ()
      ensures Structure() && fresh(repr)
    {
      bitmap := new bv8[BITMAP_BYTES](_ => 0);
      handedOut := new bv8[BITMAP_BYTES](_ => 0);
      freeFrames := 0;
    }

    method Bit(bits: array<bv8>, frame: nat) returns (b: bool)
      requires bits.Length == BITMAP_BYTES && frame < MAX_FRAMES
      ensures b == BitAt(bits[..], frame)
    {
      b := bits[frame / 8] & Mask(frame % 8) != 0;
    }

    method SetBit(bits: array<bv8>, frame: nat, value: bool)
      requires bits.Length == BITMAP_BYTES && frame < MAX_FRAMES
      modifies bits
      ensures forall g: nat | g < MAX_FRAMES :: BitAt(bits[..], g) == if g == frame then value else old(BitAt(bits[..], g))
    {
      hide Mask;
      WriteChangesOneBit(bits[..], frame, value);
      ghost var was := bits[..];
      bits[frame / 8] := WithBit(bits[frame / 8], frame % 8, value);
      assert bits[..] == was[frame / 8 := WithBit(was[frame / 8], frame % 8, value)];
    }

    /** Marks the frames from `start` up to `end`. */
    method Mark(start: nat, end: nat, reserved: bool)
      requires Structure() && end <= MAX_FRAMES
      modifies bitmap
      ensures forall g: nat | g < MAX_FRAMES ::
                BitAt(bitmap[..], g) == if start <= g < end then reserved else old(BitAt(bitmap[..], g))
    {
      hide BitAt;
      var frame := start;
      while frame < end
        invariant start <= frame
        invariant forall g: nat | g < MAX_FRAMES ::
                    BitAt(bitmap[..], g) == if start <= g < frame && g < end then reserved else old(BitAt(bitmap[..], g))
      {
        SetBit(bitmap, frame, reserved);
        frame := frame + 1;
      }
    }

    /** `mark_range`, called for usable regions: shrinks the range to whole frames. */
    method MarkUsable(region: Region)
      requires Structure() && region.kind == Usable
      modifies bitmap
      ensures forall g: nat | g < MAX_FRAMES ::
                BitAt(bitmap[..], g) == (!Inside(g, region) && old(BitAt(bitmap[..], g)))
    {
      hide BitAt;
      var start := SaturatingAdd(region.base, PAGE_SIZE - 1) / PAGE_SIZE;
      var end := Min(SaturatingAdd(region.base, region.length), MAX_PHYSICAL_ADDRESS) / PAGE_SIZE;
      Mark(Min(start, MAX_FRAMES), end, false);
    }

    /** `mark_reserved_range`: widens the range to whole frames. */
    method MarkReserved(base: U64, length: U64)
      requires Structure()
      modifies bitmap
      ensures forall g: nat | g < MAX_FRAMES ::
                BitAt(bitmap[..], g) == (Touches(g, base, length) || old(BitAt(bitmap[..], g)))
    {
      hide BitAt;
      var end := Min(SaturatingAdd(SaturatingAdd(base, length), PAGE_SIZE - 1), MAX_PHYSICAL_ADDRESS) / PAGE_SIZE;
      Mark(Min(base / PAGE_SIZE, MAX_FRAMES), end, true);
    }

    method Initialize(regions: seq<Region>, reserved: seq<Range>)
      requires Structure()
      modifies repr
      ensures Valid() && Frames().taken == {}
      ensures forall f: nat | f < MAX_FRAMES :: f in Frames().vacant <==> FreeAtBoot(f, regions, reserved)
    {
      hide BitAt, Inside, Touches;
      Fill(bitmap, 255);
      Fill(handedOut, 0);
      AllOnes(bitmap[..]);
      AllZeros(handedOut[..]);
      for i := 0 to |regions|
        invariant handedOut[..] == seq(BITMAP_BYTES, _ => 0)
        invariant forall g: nat | g < MAX_FRAMES ::
                    BitAt(bitmap[..], g) == !(exists j | 0 <= j < i :: Inside(g, regions[j]))
      {
        if regions[i].kind == Usable {
          MarkUsable(regions[i]);
        } else {
          NotUsable(regions[i]);
        }
      }
      MarkReserved(0, FIRST_MEGABYTE);
      for i := 0 to |reserved|
        invariant handedOut[..] == seq(BITMAP_BYTES, _ => 0)
        invariant forall g: nat | g < MAX_FRAMES ::
                    BitAt(bitmap[..], g) == (!(exists j | 0 <= j < |regions| :: Inside(g, regions[j]))
                                             || Touches(g, 0, FIRST_MEGABYTE)
                                             || exists j | 0 <= j < i :: Touches(g, reserved[j].base, reserved[j].length))
      {
        MarkReserved(reserved[i].base, reserved[i].length);
      }
      CountFree();
      AllZeros(handedOut[..]);
    }

    method Fill(bits: array<bv8>, value: bv8)
      requires bits.Length == BITMAP_BYTES
      modifies bits
      ensures bits[..] == seq(BITMAP_BYTES, _ => value)
    {
      for i := 0 to bits.Length
        invariant forall j | 0 <= j < i :: bits[j] == value
      {
        bits[i] := value;
      }
    }

    /** The counting loop at the end of `initialize`. */
    method CountFree()
      requires Structure()
      modifies this
      ensures freeFrames == |Clear(bitmap[..])|
    {
      hide BitAt;
      ghost var bytes := bitmap[..];
      freeFrames := 0;
      ghost var counted: set<nat> := {};
      for frame := 0 to MAX_FRAMES
        invariant counted == set f: nat | f < frame && !BitAt(bytes, f)
        invariant freeFrames == |counted|
      {
        var taken := Bit(bitmap, frame);
        if !taken {
          freeFrames := freeFrames + 1;
          counted := counted + {frame};
        }
      }
      assert counted == Clear(bytes);
    }

    /** The lowest free frame, `None` exactly when no frame is free. */
    method Allocate() returns (frame: Option<nat>)
      requires Valid()
      modifies repr
      ensures Valid() && (Frames(), frame) == FrameSets.Allocate(old(Frames()))
    {
      hide BitAt;
      ghost var s := Frames();
      for f := 0 to MAX_FRAMES
        invariant Frames() == s && Valid()
        invariant forall g: nat | g < f :: BitAt(bitmap[..], g)
      {
        var taken := Bit(bitmap, f);
        if !taken {
          assert IsLowest(s.vacant, f);
          SetBit(bitmap, f, true);
          SetBit(handedOut, f, true);
          freeFrames := freeFrames - 1;
          assert Clear(bitmap[..]) == s.vacant - {f};
          assert Set(handedOut[..]) == s.taken + {f};
          return Some(f);
        }
      }
      assert s.vacant == {};
      return None;
    }

    /** Frees the frame at an address; a frame that was not handed out is left alone. */
    method Free(address: U64)
      requires Valid()
      modifies repr
      ensures Valid()
      ensures Frames() == if address % PAGE_SIZE == 0 then Release(old(Frames()), address / PAGE_SIZE) else old(Frames())
    {
      hide BitAt;
      ghost var s := Frames();
      if address % PAGE_SIZE != 0 || address >= MAX_PHYSICAL_ADDRESS {
        return;
      }
      var frame := address / PAGE_SIZE;
      var taken := Bit(handedOut, frame);
      if taken {
        SetBit(bitmap, frame, false);
        SetBit(handedOut, frame, false);
        freeFrames := freeFrames + 1;
        assert Clear(bitmap[..]) == s.vacant + {frame};
        assert Set(handedOut[..]) == s.taken - {frame};
      }
    }
  }

  lemma AllOnes(bytes: seq<bv8>)
    requires bytes == seq(BITMAP_BYTES, _ => 255)
    ensures forall g: nat | g < MAX_FRAMES :: BitAt(bytes, g)
  {
    forall g: nat | g < MAX_FRAMES ensures BitAt(bytes, g) {
      MaskBits(g % 8, 255);
      assert 255 as bv8 | Mask(g % 8) == 255;
    }
  }

  lemma AllZeros(bytes: seq<bv8>)
    requires bytes == seq(BITMAP_BYTES, _ => 0)
    ensures forall g: nat | g < MAX_FRAMES :: !BitAt(bytes, g)
    ensures Set(bytes) == {}
  {
    assert forall g: nat | g < MAX_FRAMES :: !BitAt(bytes, g);
  }

  lemma NotUsable(region: Region)
    requires region.kind != Usable
    ensures forall f :: !Inside(f, region)
  {
  }
}
