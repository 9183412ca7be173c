/** The ELF loader of `kernel-core/src/elf.rs`. */
module ElfLoader {
  import opened Wrappers
  import opened Words
  import Bits
  import opened FrameSets
  import opened PageWords
  import opened PageTree
  import opened AddressSpaces
  import opened UserMemory
  import opened UserPages
  import opened SpaceLife
  import opened Paging

  datatype ElfError =
    | InvalidHeader
    | UnsupportedExecutable
    | InvalidProgramHeader
    | InvalidSegment
    | NoExecutableSegment
    | PagingFailed(error: PagingError)

  const ELF_HEADER_SIZE: nat := 64
  const PROGRAM_HEADER_SIZE: nat := 56
  const ELF_MACHINE_X86_64: nat := 0x3E
  const ELF_TYPE_EXECUTABLE: nat := 2
  const PROGRAM_HEADER_LOAD: nat := 1
  const PROGRAM_HEADER_TLS: nat := 7
  const USER_TLS_BASE: nat := 0x3000_0000_0000
  const TLS_TCB_SIZE: nat := 64

  // -------------------------------------------------------------------- reading

  /** A field of `n` bytes, least significant first; `None` when it leaves the image. */
  function Field(image: seq<Byte>, offset: nat, n: nat): (r: Option<U64>)
    requires n <= 8
    ensures r.Some? <==> offset + n <= |image|
  {
    if offset + n <= |image| then
      var value := LittleEndian(image[offset..offset + n]);
      FieldFits(image[offset..offset + n]);
      Some(value)
    else None
  }

  /** A field the header checks have shown to lie inside the image. */
  function Read(image: seq<Byte>, offset: nat, n: nat): U64
    requires n <= 8
  {
    Field(image, offset, n).GetOr(0)
  }

  // --------------------------------------------------------------------- headers

  predicate ValidHeader(image: seq<Byte>) {
    && |image| >= ELF_HEADER_SIZE
    && image[..4] == [0x7F, 0x45, 0x4C, 0x46]
    && image[4] == 2 && image[5] == 1 && image[6] == 1
    && Read(image, 16, 2) == ELF_TYPE_EXECUTABLE
    && Read(image, 18, 2) == ELF_MACHINE_X86_64
    && Read(image, 20, 4) == 1
    && Read(image, 52, 2) == ELF_HEADER_SIZE
    && Read(image, 54, 2) == PROGRAM_HEADER_SIZE
  }

  function Entry(image: seq<Byte>): U64 {
    Read(image, 24, 8)
  }

  function HeaderCount(image: seq<Byte>): nat {
    Read(image, 56, 2)
  }

  function HeaderOffset(image: seq<Byte>, index: nat): nat {
    Read(image, 32, 8) + index * PROGRAM_HEADER_SIZE
  }

  predicate TableInImage(image: seq<Byte>) {
    HeaderOffset(image, HeaderCount(image)) <= |image| && HeaderOffset(image, HeaderCount(image)) < TWO_64
  }

  datatype ProgramHeader = ProgramHeader(
    kind: U64, flags: U64, offset: U64, address: U64, fileSize: U64, memorySize: U64, align: U64)

  function HeaderAt(image: seq<Byte>, index: nat): ProgramHeader {
    var o := HeaderOffset(image, index);
    ProgramHeader(Read(image, o, 4), Read(image, o + 4, 4), Read(image, o + 8, 8), Read(image, o + 16, 8),
                  Read(image, o + 32, 8), Read(image, o + 40, 8), Read(image, o + 48, 8))
  }

  predicate Executable(h: ProgramHeader) {
    h.flags % 2 == 1
  }

  predicate Writable(h: ProgramHeader) {
    h.flags / 2 % 2 == 1
  }

  function SegmentFlags(h: ProgramHeader): PageFlags {
    if Writable(h) then
      if Executable(h) then UserReadWriteExecute else UserReadWrite
    else
      if Executable(h) then UserReadExecute else UserReadOnly
  }

  /** What the loader accepts as a segment. */
  predicate ValidSegment(image: seq<Byte>, h: ProgramHeader) {
    && h.fileSize <= h.memorySize && h.memorySize != 0
    && h.offset + h.fileSize <= |image| && h.offset + h.fileSize < TWO_64
    && USER_BASE <= h.address && h.address + h.memorySize <= USER_END
  }

  predicate IsPowerOfTwo(n: nat) {
    n == 1 || (n > 0 && n % 2 == 0 && IsPowerOfTwo(n / 2))
  }

  predicate ValidTls(image: seq<Byte>, h: ProgramHeader) {
    && h.fileSize <= h.memorySize
    && h.offset + h.fileSize <= |image| && h.offset + h.fileSize < TWO_64
    && (h.align == 0 || IsPowerOfTwo(h.align))
  }

  // ------------------------------------------------------------- loading a range

  /** Part of the image to be placed at an address: `fileSize` bytes from `offset`, zeros up
      to `memorySize` and in the rest of the first and the last page. */
  datatype Range = Range(address: nat, offset: nat, fileSize: nat, memorySize: nat, flags: PageFlags) {
    function First(): nat {
      address - address % 4096
    }

    function Last(): nat
      requires memorySize > 0
    {
      var last := address + memorySize - 1;
      last - last % 4096
    }

    /** How many pages it takes. */
    function Pages(): nat {
      if memorySize > 0 then (Last() - First()) / 4096 + 1 else 0
    }

    predicate Covers(b: nat) {
      memorySize > 0 && First() <= b < Last() + 4096
    }

    predicate InImage(image: seq<Byte>) {
      && 0 < memorySize && fileSize <= memorySize && offset + fileSize <= |image|
      && address + memorySize < TWO_64 && flags.User()
    }

    /** The byte that belongs at an address of the range's pages. */
    function Expected(image: seq<Byte>, b: nat): Byte
      requires InImage(image)
    {
      if address <= b < address + fileSize then image[offset + b - address] else 0
    }
  }

  function SegmentRange(h: ProgramHeader): Range {
    Range(h.address, h.offset, h.fileSize, h.memorySize, SegmentFlags(h))
  }

  /** An address holds the byte and the permissions its range prescribes. */
  ghost predicate ByteLoaded(m: Memory, root: Frame, image: seq<Byte>, range: Range, b: U64)
    requires range.InImage(image)
  {
    var p := At(m, root, b);
    p.Some? && HasFlags(p.value.entry, range.flags) && TableByte(p.value.content, b % 4096) == range.Expected(image, b)
  }

  ghost predicate RangeLoaded(m: Memory, root: Frame, image: seq<Byte>, range: Range)
    requires range.InImage(image)
  {
    && USER_BASE <= range.First() && range.Last() < USER_END
    && forall b: U64 | range.Covers(b) :: ByteLoaded(m, root, image, range, b)
  }

  lemma ExtendsKeepsLoaded(m: Memory, m2: Memory, l: Layout, root: Frame, image: seq<Byte>, range: Range)
    requires range.InImage(image) && RangeLoaded(m, root, image, range) && Extends(m, m2, l, root) && root in l.roots
    ensures RangeLoaded(m2, root, image, range)
  {
    hide At;
    forall b: U64 | range.Covers(b) ensures ByteLoaded(m2, root, image, range, b) {
      assert ByteLoaded(m, root, image, range, b);
    }
  }

  /** One page of a range: map a fresh frame, then copy the file bytes that fall into it.
      The copy stays inside the frame and inside the image. */
  method LoadPage(k: Pager, ghost l: Layout, ghost loose: set<nat>, image: seq<Byte>, root: Frame, range: Range,
      page: U64)
      returns (r: Result<(), PagingError>, ghost held: set<nat>)
    requires k.Valid() && Owned(k.View(), l, loose) && root in l.roots && range.InImage(image) && page % 4096 == 0
    modifies k.memory, k.allocator.repr
    ensures k.Valid() && Owned(k.View(), l, held) && loose <= held && (r.Ok? ==> held == loose)
    ensures r.Err? ==> SameMemory(old(k.Memory()), k.Memory(), l)
    ensures r.Ok? ==> && UserAddress(page) && old(At(k.Memory(), root, page)) == None
                      && OnlyPage(old(k.Memory()), k.Memory(), l, root, page)
                      && (forall b: U64 | page <= b < page + 4096 :: ByteLoaded(k.Memory(), root, image, range, b))
                      && |old(k.View()).frames.vacant| <= |k.View().frames.vacant| + 4
    ensures r.Err? ==> PageFault(old(k.View()), root, page, r.error)
  {
    hide Owned, At, LeafEntry, PageFault;
    ghost var m := k.Memory();
    var frame;
    frame, held := NewUserPage(k, l, loose, root, page, range.flags);
    if frame.Err? {
      return Err(frame.error), held;
    }
    ghost var m1 := k.Memory();
    CopyFileBytes(k, l, held, image, root, range, page, frame.value);
    OnlyPageTwice(m, m1, k.Memory(), l, root, page);
    return Ok(()), held;
  }

  /** Copies the file bytes that fall into a fresh page of a range. */
  method CopyFileBytes(k: Pager, ghost l: Layout, ghost loose: set<nat>, image: seq<Byte>, root: Frame, range: Range,
      page: U64, frame: Frame)
    requires k.Valid() && Owned(k.View(), l, loose) && root in l.roots && range.InImage(image)
    requires page % 4096 == 0 && page < USER_END
    requires At(k.Memory(), root, page) == Some(Page(LeafEntry(frame, range.flags), ZeroTable()))
    modifies k.memory
    ensures k.Valid() && Owned(k.View(), l, loose) && k.View().frames == old(k.View()).frames
    ensures OnlyPage(old(k.Memory()), k.Memory(), l, root, page)
    ensures forall b: U64 | page <= b < page + 4096 :: ByteLoaded(k.Memory(), root, image, range, b)
  {
    hide Owned, At, LeafEntry, ByteLoaded, OnlyPage;
    ghost var m1 := k.Memory();
    var start := if page > range.address then page else range.address;
    var end := if page + 4096 < range.address + range.fileSize then page + 4096 else range.address + range.fileSize;
    if start < end {
      var source := range.offset + start - range.address;
      var bytes := image[source..source + (end - start)];
      LeafEntryFields(frame, range.flags);
      ghost var content := Overlay(ZeroTable(), start - page, bytes);
      WriteChangesPage(k.View(), l, loose, root, page, content);
      FreshContent(m1, root, page, frame, range.flags);
      WritePhysicalFrame(k, frame, start - page, bytes);
      assert k.Memory() == m1[frame := content];
    } else {
      NothingChanged(m1, l, root, page);
    }
    PageHasBytes(k.Memory(), root, image, range, page, frame, start, end);
  }

  lemma NothingChanged(m: Memory, l: Layout, root: Frame, page: U64)
    ensures OnlyPage(m, m, l, root, page)
  {
  }

  lemma PageHasBytes(m: Memory, root: Frame, image: seq<Byte>, range: Range, page: U64, f: Frame, start: nat, end: nat)
    requires range.InImage(image) && page % 4096 == 0 && page < USER_END
    requires start == if page > range.address then page else range.address
    requires end == if page + 4096 < range.address + range.fileSize then page + 4096 else range.address + range.fileSize
    requires var source := range.offset + start - range.address;
             At(m, root, page) == Some(Page(LeafEntry(f, range.flags),
               if start < end then Overlay(ZeroTable(), start - page, image[source..source + (end - start)]) else ZeroTable()))
    ensures forall b: U64 | page <= b < page + 4096 :: ByteLoaded(m, root, image, range, b)
  {
    hide At, LeafEntry, Overlay, TableByte;
    forall b: U64 | page <= b < page + 4096 ensures ByteLoaded(m, root, image, range, b) {
      SamePageSameAt(m, root, b, page);
      LeafEntryFields(f, range.flags);
      ContentIsExpected(image, range, page, start, end, b);
    }
  }

  lemma FreshContent(m: Memory, root: Frame, page: U64, f: Frame, flags: PageFlags)
    requires At(m, root, page) == Some(Page(LeafEntry(f, flags), ZeroTable()))
    ensures m[f] == ZeroTable()
  {
    hide LeafEntry;
    LeafEntryFields(f, flags);
  }

  lemma OnlyPageTwice(m: Memory, m1: Memory, m2: Memory, l: Layout, root: Frame, page: U64)
    requires OnlyPage(m, m1, l, root, page) && OnlyPage(m1, m2, l, root, page)
    ensures OnlyPage(m, m2, l, root, page)
  {
    hide At;
  }

  lemma ContentIsExpected(image: seq<Byte>, range: Range, page: U64, start: nat, end: nat, b: U64)
    requires range.InImage(image) && page % 4096 == 0 && page <= b < page + 4096
    requires start == if page > range.address then page else range.address
    requires end == if page + 4096 < range.address + range.fileSize then page + 4096 else range.address + range.fileSize
    ensures var source := range.offset + start - range.address;
            start < end ==>
              TableByte(Overlay(ZeroTable(), start - page, image[source..source + (end - start)]), b % 4096) == range.Expected(image, b)
    ensures start >= end ==> TableByte(ZeroTable(), b % 4096) == range.Expected(image, b)
  {
    hide Overlay;
    OffsetInPage(page, b);
    ZeroBytes((b - page) % 8);
    if start < end {
      var source := range.offset + start - range.address;
      var bytes := image[source..source + (end - start)];
      ByteAfterOverlay(ZeroTable(), start - page, bytes, b - page);
      if start <= b < end {
        assert bytes[b - start] == image[source + (b - start)];
      }
    }
  }

  lemma OffsetInPage(page: nat, b: nat)
    requires page % 4096 == 0 && page <= b < page + 4096
    ensures b % 4096 == b - page
  {
  }

  /** Why a range cannot be loaded. */
  ghost predicate RangeFault(s: Machine, root: Frame, range: Range, error: PagingError)
    requires range.memorySize > 0
  {
    match error
    case FrameAllocationFailed => |s.frames.vacant| < 4 * range.Pages()
    case InvalidUserAddress => !(USER_BASE <= range.First() && range.Last() < USER_END)
    case AlreadyMapped => exists b: U64 :: b < USER_END && range.Covers(b) && At(s.memory, root, b).Some?
    case HugePageConflict => false
  }

  /** The page loop that segments and the TLS block share. */
  method LoadRange(k: Pager, ghost l: Layout, ghost loose: set<nat>, image: seq<Byte>, root: Frame, range: Range)
      returns (r: Result<(), PagingError>, ghost held: set<nat>)
    requires k.Valid() && Owned(k.View(), l, loose) && root in l.roots && range.InImage(image)
    modifies k.memory, k.allocator.repr
    ensures k.Valid() && Owned(k.View(), l, held) && loose <= held && (r.Ok? ==> held == loose)
    ensures Extends(old(k.Memory()), k.Memory(), l, root)
    ensures r.Ok? ==> RangeLoaded(k.Memory(), root, image, range)
    ensures r.Ok? ==> forall b: U64 | range.Covers(b) :: old(At(k.Memory(), root, b)) == None
    ensures r.Ok? ==> forall b: U64 | b < USER_END && !range.Covers(b) :: At(k.Memory(), root, b) == old(At(k.Memory(), root, b))
    ensures r.Ok? ==> |old(k.View()).frames.vacant| <= |k.View().frames.vacant| + 4 * range.Pages()
    ensures r.Err? ==> RangeFault(old(k.View()), root, range, r.error)
  {
    hide Owned, At, ByteLoaded, Progress, PageFault, RangeFault, Extends, OnlyPage, SameMemory, RangeLoaded, Range.First,
         Range.Last, Range.Covers, Range.Pages, Range.Expected;
    RangeEnds(range);
    ghost var s := k.View();
    ghost var done: nat := 0;
    ghost var m := k.Memory();
    var last := range.Last();
    var page := range.First();
    held := loose;
    ProgressStart(m, l, root, image, range);
    while true
      invariant k.Valid() && Owned(k.View(), l, held) && held == loose
      invariant page == range.First() + 4096 * done && page <= last && page % 4096 == 0
      invariant page > range.First() ==> USER_BASE <= range.First() && page - 4096 < USER_END
      invariant Progress(m, k.Memory(), l, root, image, range, page)
      invariant |s.frames.vacant| <= |k.View().frames.vacant| + 4 * done
      decreases last - page
    {
      ghost var s1, m1 := k.View(), k.Memory();
      var mapped;
      mapped, held := LoadPage(k, l, held, image, root, range, page);
      if mapped.Err? {
        RangeFails(s, s1, l, root, image, range, page, done, mapped.error);
        ProgressQuiet(m, m1, k.Memory(), l, root, image, range, page);
        return Err(mapped.error), held;
      }
      ProgressStep(m, m1, k.Memory(), l, root, image, range, page);
      if page == last {
        PagesAre(range, done);
        ProgressEnd(m, k.Memory(), l, root, image, range);
        return Ok(()), held;
      }
      NextPage(page, last);
      page, done := page + 4096, done + 1;
    }
  }

  lemma RangeEnds(range: Range)
    requires range.memorySize > 0
    ensures range.First() <= range.Last() && range.First() % 4096 == 0 && range.Last() % 4096 == 0
    ensures range.Last() < range.address + range.memorySize
  {
  }

  lemma NextPage(page: nat, last: nat)
    requires page < last && page % 4096 == 0 && last % 4096 == 0
    ensures page + 4096 <= last && (page + 4096) % 4096 == 0
  {
  }

  lemma PagesAre(range: Range, done: nat)
    requires range.memorySize > 0 && range.Last() == range.First() + 4096 * done
    ensures range.Pages() == done + 1
  {
  }

  lemma RangeFails(s: Machine, s1: Machine, l: Layout, root: Frame, image: seq<Byte>, range: Range, page: U64,
      done: nat, error: PagingError)
    requires range.InImage(image) && Progress(s.memory, s1.memory, l, root, image, range, page)
    requires page == range.First() + 4096 * done && page <= range.Last() && page % 4096 == 0
    requires |s.frames.vacant| <= |s1.frames.vacant| + 4 * done
    requires PageFault(s1, root, page, error)
    ensures RangeFault(s, root, range, error)
  {
    hide At, ByteLoaded;
    assert page < USER_END ==> At(s1.memory, root, page) == At(s.memory, root, page);
    assert range.Covers(page);
    assert done <= (range.Last() - range.First()) / 4096;
  }

  /** The pages before `page` are loaded, and were unmapped to begin with; nothing else
      changed. */
  ghost predicate Progress(m: Memory, m1: Memory, l: Layout, root: Frame, image: seq<Byte>, range: Range, page: nat)
    requires range.InImage(image)
  {
    && Extends(m, m1, l, root)
    && (forall b: U64 | range.First() <= b < page :: ByteLoaded(m1, root, image, range, b))
    && (forall b: U64 | range.First() <= b < page :: At(m, root, b) == None)
    && (forall b: U64 | b < USER_END && !(range.First() <= b < page) :: At(m1, root, b) == At(m, root, b))
  }

  lemma ProgressStart(m: Memory, l: Layout, root: Frame, image: seq<Byte>, range: Range)
    requires range.InImage(image)
    ensures Progress(m, m, l, root, image, range, range.First())
  {
  }

  lemma ProgressQuiet(m: Memory, m1: Memory, m2: Memory, l: Layout, root: Frame, image: seq<Byte>, range: Range,
      page: nat)
    requires range.InImage(image) && Progress(m, m1, l, root, image, range, page) && SameMemory(m1, m2, l)
    ensures Extends(m, m2, l, root)
  {
    ExtendsQuiet(m, m1, m2, l, root);
  }

  lemma ProgressStep(m: Memory, m1: Memory, m2: Memory, l: Layout, root: Frame, image: seq<Byte>, range: Range,
      page: U64)
    requires range.InImage(image) && Progress(m, m1, l, root, image, range, page)
    requires root in l.roots && page % 4096 == 0 && page < USER_END && range.First() <= page
    requires At(m1, root, page) == None && OnlyPage(m1, m2, l, root, page)
    requires forall b: U64 | page <= b < page + 4096 :: ByteLoaded(m2, root, image, range, b)
    ensures Progress(m, m2, l, root, image, range, page + 4096)
  {
    hide At, ByteLoaded;
    PageWasNone(m, m1, l, root, page);
    ExtendsByPage(m, m1, m2, l, root, page);
    forall b: U64 | range.First() <= b < page ensures ByteLoaded(m2, root, image, range, b) {
      KeepsByte(m1, m2, l, root, image, range, page, b);
    }
    forall b: U64 | b < USER_END && !(range.First() <= b < page + 4096) ensures At(m2, root, b) == At(m, root, b) {
      assert b / 4096 != page / 4096;
    }
  }

  lemma ProgressEnd(m: Memory, m1: Memory, l: Layout, root: Frame, image: seq<Byte>, range: Range)
    requires range.InImage(image) && Progress(m, m1, l, root, image, range, range.Last() + 4096)
    requires USER_BASE <= range.First() && range.Last() < USER_END
    ensures Extends(m, m1, l, root) && RangeLoaded(m1, root, image, range)
    ensures forall b: U64 | range.Covers(b) :: At(m, root, b) == None
    ensures forall b: U64 | b < USER_END && !range.Covers(b) :: At(m1, root, b) == At(m, root, b)
  {
    hide At, ByteLoaded;
  }

  lemma KeepsByte(m: Memory, m2: Memory, l: Layout, root: Frame, image: seq<Byte>, range: Range, page: U64, b: U64)
    requires range.InImage(image) && ByteLoaded(m, root, image, range, b) && OnlyPage(m, m2, l, root, page)
    requires root in l.roots && b < page < USER_END && page % 4096 == 0
    ensures ByteLoaded(m2, root, image, range, b)
  {
    hide At;
    assert b / 4096 != page / 4096;
  }

  // ---------------------------------------------------------------- the whole image

  datatype TlsImage = TlsImage(offset: U64, fileSize: U64, memorySize: U64, align: U64)

  datatype LoadedImage = LoadedImage(entry: U64, stackPointer: U64, tls: Option<TlsImage>, fsBase: U64)

  /** The size of a TLS block rounded up to its alignment. */
  function BlockSize(tls: TlsImage): nat {
    var align := Max(tls.align, 16);
    var size := Max(tls.memorySize, 1) + (align - 1);
    size - size % align
  }

  function TlsBase(slot: nat): nat {
    USER_TLS_BASE + slot * 0x1_0000
  }

  /** The TLS block and the thread control block behind it. */
  function TlsRange(slot: nat, tls: TlsImage): Range {
    Range(TlsBase(slot), tls.offset, tls.fileSize, BlockSize(tls) + TLS_TCB_SIZE, UserReadWrite)
  }

  lemma BlockCoversImage(tls: TlsImage)
    ensures tls.memorySize <= BlockSize(tls) && BlockSize(tls) % Max(tls.align, 16) == 0
  {
    var align := Max(tls.align, 16);
    var size := Max(tls.memorySize, 1) + (align - 1);
    RoundedDown(size, align);
  }

  /** The loader rounds with a mask, which it may as the alignment is a power of two. */
  lemma BlockSizeIsMasked(tls: TlsImage)
    requires tls.align == 0 || IsPowerOfTwo(tls.align)
    requires Max(tls.memorySize, 1) + (Max(tls.align, 16) - 1) < TWO_64
    ensures BlockSize(tls) == Bits.And(Max(tls.memorySize, 1) + (Max(tls.align, 16) - 1), TWO_64 - Max(tls.align, 16))
  {
    hide Bits.And, Bits.Pow2;
    assert IsPowerOfTwo(16);
    var align := Max(tls.align, 16);
    var k := PowerExponent(align);
    Bits.ExponentFits(k);
    Bits.ClearedLowBits(Max(tls.memorySize, 1) + (align - 1), k);
  }

  lemma {:induction false} PowerExponent(n: nat) returns (k: nat)
    requires IsPowerOfTwo(n)
    ensures n == Bits.Pow2(k)
  {
    if n == 1 {
      k := 0;
    } else {
      k := PowerExponent(n / 2);
      k := k + 1;
    }
  }

  lemma RoundedDown(size: nat, align: nat)
    requires align > 0
    ensures (size - size % align) % align == 0 && size - size % align + align > size
  {
    MultipleModulo(size / align, align, size - size % align);
  }

  lemma MultipleModulo(q: int, n: nat, a: nat)
    requires n > 0 && a == q * n
    ensures a % n == 0
  {
    var d := q - a / n;
    assert d * n == a % n;
    assert d >= 1 ==> d * n >= n;
    assert d <= -1 ==> d * n + n <= 0;
  }

  /** The end of the thread control block is a 64-bit word. */
  predicate TlsFitsWords(slot: nat, tls: TlsImage) {
    && Max(tls.memorySize, 1) + (Max(tls.align, 16) - 1) < TWO_64
    && TlsBase(slot) + BlockSize(tls) + TLS_TCB_SIZE < TWO_64
  }

  ghost predicate TlsFault(s: Machine, root: Frame, slot: nat, tls: TlsImage, error: ElfError) {
    match error
    case InvalidProgramHeader => !TlsFitsWords(slot, tls)
    case PagingFailed(e) => RangeFault(s, root, TlsRange(slot, tls), e)
    case _ => false
  }

  method LoadInitialTls(k: Pager, ghost l: Layout, ghost loose: set<nat>, image: seq<Byte>, root: Frame, slot: nat,
      tls: TlsImage)
      returns (r: Result<U64, ElfError>, ghost held: set<nat>)
    requires k.Valid() && Owned(k.View(), l, loose) && root in l.roots && slot < 0x1_0000
    requires tls.fileSize <= tls.memorySize && tls.offset + tls.fileSize <= |image|
    modifies k.memory, k.allocator.repr
    ensures k.Valid() && Owned(k.View(), l, held) && loose <= held && (r.Ok? ==> held == loose)
    ensures Extends(old(k.Memory()), k.Memory(), l, root)
    ensures r.Ok? ==> && r.value == TlsBase(slot) + BlockSize(tls)
                      && TlsRange(slot, tls).InImage(image)
                      && RangeLoaded(k.Memory(), root, image, TlsRange(slot, tls))
                      && TlsFitsWords(slot, tls)
                      && (forall b: U64 | TlsRange(slot, tls).Covers(b) :: old(At(k.Memory(), root, b)) == None)
                      && (forall b: U64 | b < USER_END && !TlsRange(slot, tls).Covers(b) ::
                            At(k.Memory(), root, b) == old(At(k.Memory(), root, b)))
    ensures r.Err? ==> TlsFault(old(k.View()), root, slot, tls, r.error)
  {
    hide Owned, At, RangeFault;
    held := loose;
    ExtendsItself(k.Memory(), l, root);
    BlockCoversImage(tls);
    if Max(tls.memorySize, 1) + (Max(tls.align, 16) - 1) >= TWO_64 {
      return Err(InvalidProgramHeader), held;
    }
    var base := TlsBase(slot);
    if base + BlockSize(tls) + TLS_TCB_SIZE >= TWO_64 {
      return Err(InvalidProgramHeader), held;
    }
    var mapped;
    mapped, held := LoadRange(k, l, held, image, root, TlsRange(slot, tls));
    if mapped.Err? {
      return Err(PagingFailed(mapped.error)), held;
    }
    return Ok(base + BlockSize(tls)), held;
  }

  predicate IsLoad(image: seq<Byte>, i: nat) {
    HeaderAt(image, i).kind == PROGRAM_HEADER_LOAD
  }

  predicate IsTls(image: seq<Byte>, i: nat) {
    HeaderAt(image, i).kind == PROGRAM_HEADER_TLS
  }

  predicate HoldsEntry(image: seq<Byte>, i: nat) {
    var h := HeaderAt(image, i);
    IsLoad(image, i) && Executable(h) && h.address <= Entry(image) < h.address + h.memorySize
  }

  function SegmentAt(image: seq<Byte>, i: nat): Range {
    SegmentRange(HeaderAt(image, i))
  }

  lemma SegmentInImage(image: seq<Byte>, i: nat)
    requires ValidSegment(image, HeaderAt(image, i))
    ensures SegmentAt(image, i).InImage(image)
  {
  }

  /** Segment `i` was accepted and is in memory, permissions and every byte. */
  ghost predicate SegmentLoaded(m: Memory, root: Frame, image: seq<Byte>, i: nat) {
    ValidSegment(image, HeaderAt(image, i)) && (SegmentInImage(image, i); RangeLoaded(m, root, image, SegmentAt(image, i)))
  }

  ghost predicate SegmentsLoaded(m: Memory, root: Frame, image: seq<Byte>, n: nat) {
    forall i: nat | i < n && IsLoad(image, i) :: SegmentLoaded(m, root, image, i)
  }

  predicate Apart(a: Range, b: Range)
    requires a.memorySize > 0 && b.memorySize > 0
  {
    a.Last() < b.First() || b.Last() < a.First()
  }

  /** No page belongs to two segments. */
  ghost predicate SegmentsApart(image: seq<Byte>, n: nat) {
    forall i: nat, j: nat | i < j < n && IsLoad(image, i) && IsLoad(image, j) && SegmentAt(image, i).memorySize > 0 && SegmentAt(image, j).memorySize > 0 ::
      Apart(SegmentAt(image, i), SegmentAt(image, j))
  }

  function TlsOf(h: ProgramHeader): TlsImage {
    TlsImage(h.offset, h.fileSize, h.memorySize, h.align)
  }

  /** The TLS header among the first `n`, if there is exactly one. */
  ghost predicate TlsFound(image: seq<Byte>, n: nat, tls: Option<TlsImage>) {
    match tls
    case None => forall i: nat | i < n :: !IsTls(image, i)
    case Some(t) =>
      exists i: nat | i < n && IsTls(image, i) ::
        t == TlsOf(HeaderAt(image, i)) && ValidTls(image, HeaderAt(image, i))
        && forall j: nat | j < n && IsTls(image, j) :: j == i
  }

  /** What the header loop has established after `n` headers. */
  ghost predicate Parsed(m0: Memory, m: Memory, l: Layout, root: Frame, image: seq<Byte>, n: nat, entryFound: bool,
      tls: Option<TlsImage>) {
    && Extends(m0, m, l, root)
    && SegmentsLoaded(m, root, image, n)
    && SegmentsApart(image, n)
    && TlsFound(image, n, tls)
    && (entryFound <==> exists i: nat :: i < n && HoldsEntry(image, i))
  }

  lemma ParsedNothing(m: Memory, l: Layout, root: Frame, image: seq<Byte>)
    ensures Parsed(m, m, l, root, image, 0, false, None)
  {
  }

  lemma ParsedSkip(m0: Memory, m: Memory, l: Layout, root: Frame, image: seq<Byte>, n: nat, entryFound: bool,
      tls: Option<TlsImage>)
    requires Parsed(m0, m, l, root, image, n, entryFound, tls) && !IsLoad(image, n) && !IsTls(image, n)
    ensures Parsed(m0, m, l, root, image, n + 1, entryFound, tls)
  {
    hide HeaderAt, Extends;
  }

  lemma ParsedTls(m0: Memory, m: Memory, l: Layout, root: Frame, image: seq<Byte>, n: nat, entryFound: bool)
    requires Parsed(m0, m, l, root, image, n, entryFound, None) && IsTls(image, n) && ValidTls(image, HeaderAt(image, n))
    ensures Parsed(m0, m, l, root, image, n + 1, entryFound, Some(TlsOf(HeaderAt(image, n))))
  {
    hide HeaderAt, Extends;
  }

  lemma ParsedSegment(m0: Memory, m: Memory, m2: Memory, l: Layout, root: Frame, image: seq<Byte>, n: nat,
      entryFound: bool, tls: Option<TlsImage>)
    requires Parsed(m0, m, l, root, image, n, entryFound, tls) && root in l.roots
    requires IsLoad(image, n) && ValidSegment(image, HeaderAt(image, n)) && Extends(m, m2, l, root)
    requires SegmentLoaded(m2, root, image, n)
    requires forall b: U64 | SegmentAt(image, n).Covers(b) :: At(m, root, b) == None
    ensures Parsed(m0, m2, l, root, image, n + 1, entryFound || HoldsEntry(image, n), tls)
  {
    hide At, HeaderAt, ValidSegment, Extends, RangeLoaded, SegmentRange;
    ExtendsTransitive(m0, m, m2, l, root);
    forall i: nat | i < n + 1 && IsLoad(image, i) ensures SegmentLoaded(m2, root, image, i) {
      if i < n {
        assert SegmentLoaded(m, root, image, i);
        SegmentInImage(image, i);
        ExtendsKeepsLoaded(m, m2, l, root, image, SegmentAt(image, i));
      }
    }
    SegmentInImage(image, n);
    forall i: nat, j: nat |
      i < j < n + 1 && IsLoad(image, i) && IsLoad(image, j) && SegmentAt(image, i).memorySize > 0 && SegmentAt(image, j).memorySize > 0
      ensures Apart(SegmentAt(image, i), SegmentAt(image, j))
    {
      if j == n {
        assert SegmentLoaded(m, root, image, i);
        SegmentInImage(image, i);
        LoadedIsApart(m, root, image, SegmentAt(image, i), SegmentAt(image, n));
      }
    }
    assert TlsFound(image, n + 1, tls);
  }

  /** A range that was loaded into unmapped pages shares none with one loaded before. */
  lemma LoadedIsApart(m: Memory, root: Frame, image: seq<Byte>, a: Range, b: Range)
    requires a.InImage(image) && b.InImage(image) && RangeLoaded(m, root, image, a)
    requires forall c: U64 | b.Covers(c) :: At(m, root, c) == None
    ensures Apart(a, b)
  {
    hide At;
    var c: U64 := Max(a.First(), b.First());
    assert a.Covers(c) ==> ByteLoaded(m, root, image, a, c);
    assert b.Covers(c) ==> At(m, root, c) == None;
  }

  // ------------------------------------------------------------ when a load succeeds

  /** The address belongs to the `k`-th part of the program: a segment, the stack behind the
      last segment, and the TLS block behind the stack. */
  ghost predicate Claims(image: seq<Byte>, slot: nat, k: nat, b: U64)
    requires slot < 0x1_0000
  {
    var n := HeaderCount(image);
    if k < n then IsLoad(image, k) && SegmentAt(image, k).Covers(b)
    else if k == n then UserStackTop(slot) - USER_STACK_PAGES * 4096 <= b < UserStackTop(slot)
    else k == n + 1 && exists i: nat :: i < n && IsTls(image, i) && TlsRange(slot, TlsOf(HeaderAt(image, i))).Covers(b)
  }

  /** No address of the first `n` parts is mapped or belongs to an earlier part. */
  ghost predicate Unclaimed(m: Memory, root: Frame, image: seq<Byte>, slot: nat, n: nat)
    requires slot < 0x1_0000
  {
    forall k: nat, b: U64 | k < n && b < USER_END && Claims(image, slot, k, b) ::
      At(m, root, b) == None && forall j: nat | j < k :: !Claims(image, slot, j, b)
  }

  /** Exactly the first `n` parts have been added to what was mapped. */
  ghost predicate Filled(m0: Memory, m: Memory, root: Frame, image: seq<Byte>, slot: nat, n: nat)
    requires slot < 0x1_0000
  {
    && Unclaimed(m0, root, image, slot, n)
    && forall b: U64 | b < USER_END ::
         At(m, root, b).Some? <==> At(m0, root, b).Some? || exists k: nat :: k < n && Claims(image, slot, k, b)
  }

  lemma FilledStart(m: Memory, root: Frame, image: seq<Byte>, slot: nat)
    requires slot < 0x1_0000
    ensures Filled(m, m, root, image, slot, 0)
  {
  }

  /** The next part is added. */
  lemma FilledStep(m0: Memory, m: Memory, m2: Memory, root: Frame, image: seq<Byte>, slot: nat, n: nat)
    requires slot < 0x1_0000 && Filled(m0, m, root, image, slot, n)
    requires forall b: U64 | b < USER_END && Claims(image, slot, n, b) :: At(m, root, b) == None && At(m2, root, b).Some?
    requires forall b: U64 | b < USER_END && !Claims(image, slot, n, b) :: At(m2, root, b) == At(m, root, b)
    ensures Filled(m0, m2, root, image, slot, n + 1)
  {
    hide At, Claims;
    forall b: U64 | b < USER_END
      ensures At(m2, root, b).Some? <==> At(m0, root, b).Some? || exists k: nat :: k < n + 1 && Claims(image, slot, k, b)
    {
      assert (exists k: nat :: k < n + 1 && Claims(image, slot, k, b))
        <==> Claims(image, slot, n, b) || exists k: nat :: k < n && Claims(image, slot, k, b);
    }
  }

  /** A part that meets something mapped meets what was mapped before or another part. */
  lemma MappedIsConflict(m0: Memory, m: Memory, root: Frame, image: seq<Byte>, slot: nat, n: nat, b: U64)
    requires slot < 0x1_0000 && Filled(m0, m, root, image, slot, n) && b < USER_END
    requires Claims(image, slot, n, b) && At(m, root, b).Some?
    ensures forall n2 | n < n2 :: !Unclaimed(m0, root, image, slot, n2)
  {
    hide At, Claims;
  }

  /** Pages of the segments among the first `n` headers. */
  function SegmentPages(image: seq<Byte>, n: nat): nat {
    if n == 0 then 0
    else SegmentPages(image, n - 1) + if IsLoad(image, n - 1) then SegmentAt(image, n - 1).Pages() else 0
  }

  /** Pages of the TLS blocks that the first `n` headers ask for. */
  function TlsPages(image: seq<Byte>, slot: nat, n: nat): nat {
    if n == 0 then 0
    else TlsPages(image, slot, n - 1) + if IsTls(image, n - 1) then TlsRange(slot, TlsOf(HeaderAt(image, n - 1))).Pages() else 0
  }

  /** Frames that are enough: every page takes one, and at most three new tables. */
  function FramesFor(image: seq<Byte>, slot: nat): nat {
    4 * (SegmentPages(image, HeaderCount(image)) + USER_STACK_PAGES + TlsPages(image, slot, HeaderCount(image)))
  }

  ghost predicate SegmentsValid(image: seq<Byte>) {
    forall i: nat | i < HeaderCount(image) && IsLoad(image, i) :: ValidSegment(image, HeaderAt(image, i))
  }

  /** At most one TLS header, and that one accepted. */
  ghost predicate TlsValid(image: seq<Byte>, slot: nat) {
    && (forall i: nat | i < HeaderCount(image) && IsTls(image, i) ::
          ValidTls(image, HeaderAt(image, i)) && TlsFitsWords(slot, TlsOf(HeaderAt(image, i))))
    && (forall i: nat, j: nat | i < HeaderCount(image) && j < HeaderCount(image) && IsTls(image, i) && IsTls(image, j) :: i == j)
  }

  ghost predicate TlsInUserRange(image: seq<Byte>, slot: nat) {
    forall i: nat | i < HeaderCount(image) && IsTls(image, i) :: TlsRange(slot, TlsOf(HeaderAt(image, i))).Last() < USER_END
  }

  ghost predicate EntryExecutable(image: seq<Byte>) {
    exists i: nat :: i < HeaderCount(image) && HoldsEntry(image, i)
  }

  /** Why a load fails, in terms of the image and of what was mapped before. */
  ghost predicate LoadFault(s: Machine, root: Frame, image: seq<Byte>, slot: nat, error: ElfError)
    requires slot < 0x1_0000
  {
    match error
    case InvalidHeader => !ValidHeader(image) || !TableInImage(image)
    case InvalidSegment => !SegmentsValid(image)
    case InvalidProgramHeader => !TlsValid(image, slot)
    case NoExecutableSegment => !EntryExecutable(image)
    case UnsupportedExecutable => false
    case PagingFailed(e) =>
      match e
      case AlreadyMapped => !Unclaimed(s.memory, root, image, slot, HeaderCount(image) + 2)
      case InvalidUserAddress => !TlsInUserRange(image, slot)
      case FrameAllocationFailed => |s.frames.vacant| < FramesFor(image, slot)
      case HugePageConflict => false
  }

  /** What a program needs apart from frames. */
  ghost predicate Loadable(m: Memory, root: Frame, image: seq<Byte>, slot: nat)
    requires slot < 0x1_0000
  {
    && ValidHeader(image) && TableInImage(image)
    && SegmentsValid(image) && TlsValid(image, slot) && TlsInUserRange(image, slot) && EntryExecutable(image)
    && Unclaimed(m, root, image, slot, HeaderCount(image) + 2)
  }

  /** A loadable program is loaded when there are frames enough. */
  lemma LoadableHasNoFault(s: Machine, root: Frame, image: seq<Byte>, slot: nat, error: ElfError)
    requires slot < 0x1_0000 && Loadable(s.memory, root, image, slot) && LoadFault(s, root, image, slot, error)
    ensures error == PagingFailed(FrameAllocationFailed) && |s.frames.vacant| < FramesFor(image, slot)
  {
    hide ValidHeader, HeaderAt, Unclaimed, SegmentsValid, TlsValid, TlsInUserRange, EntryExecutable, FramesFor;
  }

  /** Progress of the header loop towards a loaded program. */
  ghost predicate Fitted(s0: Machine, s: Machine, root: Frame, image: seq<Byte>, slot: nat, n: nat)
    requires slot < 0x1_0000
  {
    && Filled(s0.memory, s.memory, root, image, slot, n)
    && |s0.frames.vacant| <= |s.frames.vacant| + 4 * SegmentPages(image, n)
  }

  lemma FittedStart(s: Machine, root: Frame, image: seq<Byte>, slot: nat)
    requires slot < 0x1_0000
    ensures Fitted(s, s, root, image, slot, 0)
  {
    FilledStart(s.memory, root, image, slot);
  }

  lemma FittedSkip(s0: Machine, s: Machine, root: Frame, image: seq<Byte>, slot: nat, n: nat)
    requires slot < 0x1_0000 && Fitted(s0, s, root, image, slot, n)
    requires n < HeaderCount(image) && !IsLoad(image, n)
    ensures Fitted(s0, s, root, image, slot, n + 1)
  {
    hide At, HeaderAt, Filled;
    FilledStep(s0.memory, s.memory, s.memory, root, image, slot, n);
  }

  lemma FittedSegment(s0: Machine, s: Machine, s2: Machine, root: Frame, image: seq<Byte>, slot: nat, n: nat)
    requires slot < 0x1_0000 && Fitted(s0, s, root, image, slot, n)
    requires n < HeaderCount(image) && IsLoad(image, n) && SegmentLoaded(s2.memory, root, image, n)
    requires var range := SegmentAt(image, n);
             && (forall b: U64 | range.Covers(b) :: At(s.memory, root, b) == None)
             && (forall b: U64 | b < USER_END && !range.Covers(b) :: At(s2.memory, root, b) == At(s.memory, root, b))
             && |s.frames.vacant| <= |s2.frames.vacant| + 4 * range.Pages()
    ensures Fitted(s0, s2, root, image, slot, n + 1)
  {
    hide At, HeaderAt, Filled, ValidSegment, SegmentRange;
    var range := SegmentAt(image, n);
    SegmentInImage(image, n);
    forall b: U64 | b < USER_END && Claims(image, slot, n, b) ensures At(s.memory, root, b) == None && At(s2.memory, root, b).Some? {
      assert ByteLoaded(s2.memory, root, image, range, b);
    }
    FilledStep(s0.memory, s.memory, s2.memory, root, image, slot, n);
  }

  lemma {:induction false} SegmentPagesGrow(image: seq<Byte>, n: nat, n2: nat)
    requires n <= n2
    ensures SegmentPages(image, n) <= SegmentPages(image, n2)
  {
    hide HeaderAt, IsLoad;
    if n < n2 {
      SegmentPagesGrow(image, n, n2 - 1);
    }
  }

  /** A segment that cannot be loaded. */
  lemma SegmentFails(s0: Machine, s: Machine, root: Frame, image: seq<Byte>, slot: nat, n: nat, error: PagingError)
    requires slot < 0x1_0000 && Fitted(s0, s, root, image, slot, n)
    requires n < HeaderCount(image) && IsLoad(image, n) && ValidSegment(image, HeaderAt(image, n))
    requires SegmentAt(image, n).memorySize > 0 && RangeFault(s, root, SegmentAt(image, n), error)
    ensures LoadFault(s0, root, image, slot, PagingFailed(error))
  {
    hide At, HeaderAt, Filled, ValidHeader;
    var range := SegmentAt(image, n);
    match error
    case FrameAllocationFailed =>
      SegmentPagesGrow(image, n + 1, HeaderCount(image));
    case AlreadyMapped =>
      var b: U64 :| b < USER_END && range.Covers(b) && At(s.memory, root, b).Some?;
      MappedIsConflict(s0.memory, s.memory, root, image, slot, n, b);
    case InvalidUserAddress =>
      SegmentInUserRange(image, n);
    case HugePageConflict =>
  }

  lemma SegmentInUserRange(image: seq<Byte>, i: nat)
    requires ValidSegment(image, HeaderAt(image, i))
    ensures SegmentAt(image, i).memorySize > 0
    ensures USER_BASE <= SegmentAt(image, i).First() && SegmentAt(image, i).Last() < USER_END
  {
    hide HeaderAt;
    PageStartAtLeast(SegmentAt(image, i).address, USER_BASE / 4096);
  }

  lemma PageStartAtLeast(a: nat, page: nat)
    requires page * 4096 <= a
    ensures page * 4096 <= a - a % 4096
  {
  }

  /** The stack is the part behind the last segment. */
  lemma FilledByStack(m0: Memory, m: Memory, m2: Memory, l: Layout, root: Frame, image: seq<Byte>, slot: nat)
    requires slot < 0x1_0000 && root in l.roots && Filled(m0, m, root, image, slot, HeaderCount(image))
    requires StackLoaded(m2, root, slot)
    requires OnlyRange(m, m2, l, root, UserStackTop(slot) - USER_STACK_PAGES * 4096, UserStackTop(slot))
    requires forall b: U64 | UserStackTop(slot) - USER_STACK_PAGES * 4096 <= b < UserStackTop(slot) :: At(m, root, b) == None
    ensures Filled(m0, m2, root, image, slot, HeaderCount(image) + 1)
  {
    hide At, Filled, UserStackTop;
    var n := HeaderCount(image);
    forall b: U64 | b < USER_END && Claims(image, slot, n, b) ensures At(m, root, b) == None && At(m2, root, b).Some? {
      assert ZeroPage(m2, root, b, UserReadWrite);
    }
    FilledStep(m0, m, m2, root, image, slot, n);
  }

  lemma StackConflict(s0: Machine, s: Machine, root: Frame, image: seq<Byte>, slot: nat, error: PagingError)
    requires slot < 0x1_0000 && Fitted(s0, s, root, image, slot, HeaderCount(image))
    requires StackFault(s, root, slot, error) && UserStackTop(slot) <= USER_END
    ensures LoadFault(s0, root, image, slot, PagingFailed(error))
  {
    hide At, HeaderAt, Filled, ValidHeader, SegmentPages, TlsPages, UserStackTop;
    if error.AlreadyMapped? {
      var b: U64 :| UserStackTop(slot) - USER_STACK_PAGES * 4096 <= b < UserStackTop(slot) && At(s.memory, root, b).Some?;
      MappedIsConflict(s0.memory, s.memory, root, image, slot, HeaderCount(image), b);
    }
  }

  /** The header whose block is loaded, and no other, decides the last part. */
  lemma TlsClaims(image: seq<Byte>, slot: nat, tls: TlsImage, b: U64)
    requires slot < 0x1_0000 && TlsFound(image, HeaderCount(image), Some(tls))
    ensures Claims(image, slot, HeaderCount(image) + 1, b) <==> TlsRange(slot, tls).Covers(b)
  {
    hide HeaderAt, ValidTls, TlsRange;
  }

  lemma NoTlsClaims(image: seq<Byte>, slot: nat, b: U64)
    requires slot < 0x1_0000 && TlsFound(image, HeaderCount(image), None)
    ensures !Claims(image, slot, HeaderCount(image) + 1, b)
  {
    hide HeaderAt, TlsRange;
  }

  lemma {:induction false} TlsPagesCount(image: seq<Byte>, slot: nat, n: nat, i: nat)
    requires i < n && IsTls(image, i)
    ensures TlsRange(slot, TlsOf(HeaderAt(image, i))).Pages() <= TlsPages(image, slot, n)
  {
    hide HeaderAt, TlsRange;
    if i < n - 1 {
      TlsPagesCount(image, slot, n - 1, i);
    }
  }

  lemma FilledByTls(m0: Memory, m: Memory, m2: Memory, root: Frame, image: seq<Byte>, slot: nat, tls: TlsImage)
    requires slot < 0x1_0000 && Filled(m0, m, root, image, slot, HeaderCount(image) + 1)
    requires TlsFound(image, HeaderCount(image), Some(tls))
    requires var range := TlsRange(slot, tls);
             && range.InImage(image) && RangeLoaded(m2, root, image, range)
             && (forall b: U64 | range.Covers(b) :: At(m, root, b) == None)
             && (forall b: U64 | b < USER_END && !range.Covers(b) :: At(m2, root, b) == At(m, root, b))
    ensures Filled(m0, m2, root, image, slot, HeaderCount(image) + 2)
  {
    hide At, HeaderAt, Filled, TlsRange, TlsFound, Claims;
    var n := HeaderCount(image) + 1;
    forall b: U64 | b < USER_END
      ensures if Claims(image, slot, n, b) then At(m, root, b) == None && At(m2, root, b).Some?
              else At(m2, root, b) == At(m, root, b)
    {
      TlsClaims(image, slot, tls, b);
      assert TlsRange(slot, tls).Covers(b) ==> ByteLoaded(m2, root, image, TlsRange(slot, tls), b);
    }
    FilledStep(m0, m, m2, root, image, slot, n);
  }

  lemma FilledWithoutTls(m0: Memory, m: Memory, root: Frame, image: seq<Byte>, slot: nat)
    requires slot < 0x1_0000 && Filled(m0, m, root, image, slot, HeaderCount(image) + 1)
    requires TlsFound(image, HeaderCount(image), None)
    ensures Filled(m0, m, root, image, slot, HeaderCount(image) + 2)
  {
    hide At, HeaderAt, Filled, Claims, TlsFound;
    var n := HeaderCount(image) + 1;
    forall b: U64 ensures !Claims(image, slot, n, b) {
      NoTlsClaims(image, slot, b);
    }
    FilledStep(m0, m, m, root, image, slot, n);
  }

  lemma TlsConflict(s0: Machine, s: Machine, root: Frame, image: seq<Byte>, slot: nat, tls: TlsImage, error: ElfError)
    requires slot < 0x1_0000 && Filled(s0.memory, s.memory, root, image, slot, HeaderCount(image) + 1)
    requires |s0.frames.vacant| <= |s.frames.vacant| + 4 * (SegmentPages(image, HeaderCount(image)) + USER_STACK_PAGES)
    requires TlsFound(image, HeaderCount(image), Some(tls)) && TlsFault(s, root, slot, tls, error)
    ensures LoadFault(s0, root, image, slot, error)
  {
    hide At, HeaderAt, Filled, Claims, TlsPages, SegmentPages, ValidHeader, Unclaimed, TlsFitsWords, ValidTls, BlockSize;
    var i: nat :| i < HeaderCount(image) && IsTls(image, i) && tls == TlsOf(HeaderAt(image, i));
    TlsPagesCount(image, slot, HeaderCount(image), i);
    if error == PagingFailed(AlreadyMapped) {
      var b: U64 :| b < USER_END && TlsRange(slot, tls).Covers(b) && At(s.memory, root, b).Some?;
      TlsClaims(image, slot, tls, b);
      MappedIsConflict(s0.memory, s.memory, root, image, slot, HeaderCount(image) + 1, b);
    }
  }

  lemma TlsHeaderFails(s: Machine, m: Memory, m2: Memory, l: Layout, root: Frame, image: seq<Byte>, slot: nat, n: nat,
      entryFound: bool, tls: Option<TlsImage>)
    requires slot < 0x1_0000 && Parsed(m, m2, l, root, image, n, entryFound, tls)
    requires n < HeaderCount(image) && IsTls(image, n) && (tls.Some? || !ValidTls(image, HeaderAt(image, n)))
    ensures LoadFault(s, root, image, slot, InvalidProgramHeader)
  {
    hide HeaderAt, ValidTls, Extends, SegmentsLoaded, SegmentsApart, TlsFitsWords;
  }

  /** A program that was loaded was loadable. */
  lemma LoadedWasLoadable(m0: Memory, m: Memory, l: Layout, root: Frame, image: seq<Byte>, slot: nat,
      tls: Option<TlsImage>)
    requires slot < 0x1_0000 && Parsed(m0, m, l, root, image, HeaderCount(image), true, tls)
    requires ValidHeader(image) && TableInImage(image)
    requires Filled(m0, m, root, image, slot, HeaderCount(image) + 2)
    requires tls.Some? ==> TlsFitsWords(slot, tls.value) && TlsRange(slot, tls.value).Last() < USER_END
    ensures Loadable(m0, root, image, slot)
  {
    hide At, HeaderAt, ValidHeader, ValidSegment, ValidTls, Extends, RangeLoaded, SegmentsApart, Unclaimed, Claims, TlsFitsWords;
    forall i: nat | i < HeaderCount(image) && IsLoad(image, i) ensures ValidSegment(image, HeaderAt(image, i)) {
      assert SegmentLoaded(m, root, image, i);
    }
  }

  // --------------------------------------------------- the bytes of the image in memory

  /** `n` bytes of the image from `o` on, least significant first. */
  function Spelled(image: seq<Byte>, o: nat, n: nat): nat
    requires o + n <= |image|
  {
    LittleEndian(image[o..o + n])
  }

  /** Where program header `i` starts. */
  predicate HeaderStarts(image: seq<Byte>, i: nat, o: nat) {
    && |image| >= 64 && i < Spelled(image, 56, 2)
    && o == Spelled(image, 32, 8) + 56 * i && o + 56 <= |image|
  }

  /** A user page with exactly these permissions is mapped at the address. */
  predicate UserPageAt(m: Memory, root: Frame, b: U64, writable: bool, executable: bool) {
    var e := EntryAt(m, root, b);
    && e.Some? && Present(e.value) && UserBit(e.value)
    && (WritableBit(e.value) <==> writable) && (NoExecute(e.value) <==> !executable)
  }

  /** The segment of the header at `o` is where its header says: each byte is the file's or zero,
      on a page that is writable and executable as its flags ask, and not otherwise. */
  ghost predicate SegmentInMemory(m: Memory, root: Frame, image: seq<Byte>, o: nat)
    requires o + 56 <= |image|
  {
    var flags, offset, address := Spelled(image, o + 4, 4), Spelled(image, o + 8, 8), Spelled(image, o + 16, 8);
    var fileSize, memorySize := Spelled(image, o + 32, 8), Spelled(image, o + 40, 8);
    && fileSize <= memorySize && offset + fileSize <= |image| && address + memorySize <= USER_END
    && forall b: U64 | address <= b < address + memorySize ::
         && UserPageAt(m, root, b, flags / 2 % 2 == 1, flags % 2 == 1)
         && UserByte(m, root, b) == Some(if b < address + fileSize then image[offset + (b - address)] else 0)
  }

  /** The TLS block of the header at `o` lies below `fsBase`: the file's bytes from the slot's
      base on, then zeros, writable and not executable, as is the control block at `fsBase`. */
  ghost predicate TlsInMemory(m: Memory, root: Frame, image: seq<Byte>, slot: nat, o: nat, fsBase: U64)
    requires o + 56 <= |image|
  {
    var offset, fileSize, memorySize := Spelled(image, o + 8, 8), Spelled(image, o + 32, 8), Spelled(image, o + 40, 8);
    var base := 0x3000_0000_0000 + slot * 0x1_0000;
    && fileSize <= memorySize && offset + fileSize <= |image|
    && base + memorySize <= fsBase && fsBase + 64 <= USER_END
    && (forall b: U64 | base <= b < fsBase + 64 :: UserPageAt(m, root, b, true, false))
    && (forall b: U64 | base <= b < fsBase ::
          UserByte(m, root, b) == Some(if b < base + fileSize then image[offset + (b - base)] else 0))
  }

  /** The whole image, read off its bytes: every loadable segment, the TLS block if a header asks
      for one, and an entry point in an executable segment. */
  ghost predicate ImageInMemory(m: Memory, root: Frame, image: seq<Byte>, slot: nat, entry: U64, fsBase: U64) {
    && |image| >= 64 && entry == Spelled(image, 24, 8)
    && (forall i: nat, o: nat | HeaderStarts(image, i, o) && Spelled(image, o, 4) == 1 :: SegmentInMemory(m, root, image, o))
    && (forall i: nat, o: nat | HeaderStarts(image, i, o) && Spelled(image, o, 4) == 7 ::
          TlsInMemory(m, root, image, slot, o, fsBase))
    && (exists i: nat, o: nat :: HeaderStarts(image, i, o) && Spelled(image, o, 4) == 1 && Spelled(image, o + 4, 4) % 2 == 1
          && Spelled(image, o + 16, 8) <= entry < Spelled(image, o + 16, 8) + Spelled(image, o + 40, 8))
  }

  lemma FieldIsSpelled(image: seq<Byte>, o: nat, n: nat)
    requires n <= 8 && o + n <= |image|
    ensures Read(image, o, n) == Spelled(image, o, n)
  {
  }

  /** The fields of a header are the bytes the format puts them in. */
  lemma HeaderIsSpelled(image: seq<Byte>, i: nat, o: nat)
    requires HeaderStarts(image, i, o)
    ensures i < HeaderCount(image)
    ensures var h := HeaderAt(image, i);
            && h.kind == Spelled(image, o, 4) && h.flags == Spelled(image, o + 4, 4)
            && h.offset == Spelled(image, o + 8, 8) && h.address == Spelled(image, o + 16, 8)
            && h.fileSize == Spelled(image, o + 32, 8) && h.memorySize == Spelled(image, o + 40, 8)
            && h.align == Spelled(image, o + 48, 8)
  {
    hide Read, Spelled;
    FieldIsSpelled(image, 56, 2);
    FieldIsSpelled(image, 32, 8);
    assert HeaderOffset(image, i) == o;
    FieldIsSpelled(image, o, 4);
    FieldIsSpelled(image, o + 4, 4);
    FieldIsSpelled(image, o + 8, 8);
    FieldIsSpelled(image, o + 16, 8);
    FieldIsSpelled(image, o + 32, 8);
    FieldIsSpelled(image, o + 40, 8);
    FieldIsSpelled(image, o + 48, 8);
  }

  /** Every header the count announces starts inside the image. */
  lemma HeadersStart(image: seq<Byte>, i: nat) returns (o: nat)
    requires ValidHeader(image) && TableInImage(image) && i < HeaderCount(image)
    ensures HeaderStarts(image, i, o)
  {
    hide Spelled;
    assert |image| >= 64;
    FieldIsSpelled(image, 56, 2);
    FieldIsSpelled(image, 32, 8);
    o := HeaderOffset(image, i);
  }

  /** A writable, not executable user page. */
  predicate DataPage(m: Memory, root: Frame, b: U64) {
    EntryAt(m, root, b).Some? && HasFlags(EntryAt(m, root, b).value, UserReadWrite)
  }

  lemma DataPageIsUser(m: Memory, root: Frame, b: U64)
    requires DataPage(m, root, b)
    ensures UserPageAt(m, root, b, true, false)
  {
    hide At, LeafEntry;
    LeafEntryFields(FrameOf(EntryAt(m, root, b).value), UserReadWrite);
  }

  lemma FlagsOfPage(m: Memory, root: Frame, image: seq<Byte>, range: Range, b: U64, writable: bool, executable: bool)
    requires range.InImage(image) && ByteLoaded(m, root, image, range, b)
    requires range.flags == if writable then if executable then UserReadWriteExecute else UserReadWrite
                            else if executable then UserReadExecute else UserReadOnly
    ensures UserPageAt(m, root, b, writable, executable)
    ensures UserByte(m, root, b) == Some(range.Expected(image, b))
  {
    hide At, LeafEntry, TableByte;
    LeafEntryFields(FrameOf(At(m, root, b).value.entry), range.flags);
  }

  lemma LoadedSegmentInMemory(m: Memory, root: Frame, image: seq<Byte>, i: nat, o: nat)
    requires SegmentsLoaded(m, root, image, HeaderCount(image)) && HeaderStarts(image, i, o) && Spelled(image, o, 4) == 1
    ensures SegmentInMemory(m, root, image, o)
  {
    hide At, HeaderAt, ByteLoaded, UserPageAt, UserByte, Spelled;
    HeaderIsSpelled(image, i, o);
    var h, range := HeaderAt(image, i), SegmentAt(image, i);
    assert IsLoad(image, i);
    assert SegmentLoaded(m, root, image, i);
    SegmentInImage(image, i);
    forall b: U64 | h.address <= b < h.address + h.memorySize
      ensures UserPageAt(m, root, b, Writable(h), Executable(h)) && UserByte(m, root, b) == Some(range.Expected(image, b))
    {
      WithinPages(range, b);
      assert ByteLoaded(m, root, image, range, b);
      FlagsOfPage(m, root, image, range, b, Writable(h), Executable(h));
    }
  }

  lemma WithinPages(range: Range, b: nat)
    requires range.address <= b < range.address + range.memorySize
    ensures range.Covers(b)
  {
    var last := range.address + range.memorySize - 1;
    assert last - last % 4096 + 4096 > last;
  }

  /** The block is in memory, and its control block on data pages. */
  ghost predicate TlsBlockThere(m: Memory, root: Frame, image: seq<Byte>, slot: nat, tls: TlsImage, fsBase: U64) {
    && fsBase == TlsBase(slot) + BlockSize(tls) && fsBase + TLS_TCB_SIZE <= USER_END
    && TlsRange(slot, tls).InImage(image)
    && (forall b: U64 | TlsBase(slot) <= b < fsBase :: ByteLoaded(m, root, image, TlsRange(slot, tls), b))
    && (forall b: U64 | fsBase <= b < fsBase + TLS_TCB_SIZE :: DataPage(m, root, b))
  }

  lemma LoadedTlsIsThere(m: Memory, root: Frame, image: seq<Byte>, slot: nat, tls: TlsImage, fsBase: U64)
    requires TlsLoaded(m, root, image, slot, tls, fsBase)
    ensures TlsBlockThere(m, root, image, slot, tls, fsBase)
  {
    hide At, ByteLoaded, BlockSize;
    var range := TlsRange(slot, tls);
    WithinPages(range, fsBase + 63);
    CoveredBelowEnd(m, root, image, range, fsBase + 63);
    forall b: U64 | TlsBase(slot) <= b < fsBase + TLS_TCB_SIZE ensures ByteLoaded(m, root, image, range, b) && DataPage(m, root, b) {
      WithinPages(range, b);
      assert ByteLoaded(m, root, image, range, b);
      LoadedIsData(m, root, image, range, b);
    }
  }

  lemma LoadedIsData(m: Memory, root: Frame, image: seq<Byte>, range: Range, b: U64)
    requires range.InImage(image) && range.flags == UserReadWrite && ByteLoaded(m, root, image, range, b)
    ensures DataPage(m, root, b)
  {
    hide At;
  }

  lemma LoadedTlsInMemory(m: Memory, root: Frame, image: seq<Byte>, slot: nat, tls: TlsImage, fsBase: U64, i: nat, o: nat)
    requires TlsFound(image, HeaderCount(image), Some(tls)) && TlsBlockThere(m, root, image, slot, tls, fsBase)
    requires HeaderStarts(image, i, o) && Spelled(image, o, 4) == 7
    ensures TlsInMemory(m, root, image, slot, o, fsBase)
  {
    hide At, HeaderAt, ByteLoaded, DataPage, UserPageAt, UserByte, Spelled, BlockSize;
    HeaderIsSpelled(image, i, o);
    assert IsTls(image, i);
    assert tls == TlsOf(HeaderAt(image, i));
    BlockCoversImage(tls);
    var range := TlsRange(slot, tls);
    forall b: U64 | TlsBase(slot) <= b < fsBase + 64
      ensures UserPageAt(m, root, b, true, false)
      ensures b < fsBase ==> UserByte(m, root, b) == Some(range.Expected(image, b))
    {
      if b < fsBase {
        assert ByteLoaded(m, root, image, range, b);
        FlagsOfPage(m, root, image, range, b, true, false);
      } else {
        DataPageIsUser(m, root, b);
      }
    }
  }

  lemma CoveredBelowEnd(m: Memory, root: Frame, image: seq<Byte>, range: Range, b: nat)
    requires range.InImage(image) && RangeLoaded(m, root, image, range) && range.Covers(b)
    ensures b < USER_END
  {
    var last := range.address + range.memorySize - 1;
    PageEnd(last, USER_END / 4096);
  }

  lemma PageEnd(a: nat, pages: nat)
    requires a - a % 4096 < pages * 4096
    ensures a - a % 4096 + 4096 <= pages * 4096
  {
  }

  lemma LoadedImageInMemory(m: Memory, root: Frame, image: seq<Byte>, slot: nat, loaded: LoadedImage)
    requires slot < 0x1_0000 && ValidHeader(image) && TableInImage(image) && ImageLoaded(m, root, image, slot, loaded)
    ensures ImageInMemory(m, root, image, slot, loaded.entry, loaded.fsBase)
  {
    hide ValidHeader, TableInImage, SegmentsLoaded, SegmentsApart, StackLoaded, TlsLoaded, TlsFound, HoldsEntry,
         ImageInMemory, TlsBlockThere;
    if loaded.tls.Some? {
      LoadedTlsIsThere(m, root, image, slot, loaded.tls.value, loaded.fsBase);
    }
    PartsInMemory(m, root, image, slot, loaded);
  }

  lemma PartsInMemory(m: Memory, root: Frame, image: seq<Byte>, slot: nat, loaded: LoadedImage)
    requires ValidHeader(image) && TableInImage(image)
    requires SegmentsLoaded(m, root, image, HeaderCount(image)) && TlsFound(image, HeaderCount(image), loaded.tls)
    requires loaded.entry == Entry(image) && EntryExecutable(image)
    requires loaded.tls.Some? ==> TlsBlockThere(m, root, image, slot, loaded.tls.value, loaded.fsBase)
    ensures ImageInMemory(m, root, image, slot, loaded.entry, loaded.fsBase)
  {
    hide At, HeaderAt, SegmentsLoaded, SegmentInMemory, TlsInMemory, TlsBlockThere, Spelled;
    SpelledEntry(image);
    forall i: nat, o: nat | HeaderStarts(image, i, o) && Spelled(image, o, 4) == 1 ensures SegmentInMemory(m, root, image, o) {
      LoadedSegmentInMemory(m, root, image, i, o);
    }
    forall i: nat, o: nat | HeaderStarts(image, i, o) && Spelled(image, o, 4) == 7
      ensures TlsInMemory(m, root, image, slot, o, loaded.fsBase)
    {
      HeaderIsSpelled(image, i, o);
      assert IsTls(image, i);
      LoadedTlsInMemory(m, root, image, slot, loaded.tls.value, loaded.fsBase, i, o);
    }
    var i: nat :| i < HeaderCount(image) && HoldsEntry(image, i);
    var o := HeadersStart(image, i);
    HeaderIsSpelled(image, i, o);
  }

  /** What the loader asks of an image, read off its bytes: an executable for this machine with a
      program header table inside, loadable segments inside the file and the user range, and at
      most one TLS header, whose block fits below the end of the user range. */
  ghost predicate WellFormed(image: seq<Byte>, slot: nat) {
    && |image| >= 64
    && image[0] == 0x7F && image[1] == 0x45 && image[2] == 0x4C && image[3] == 0x46
    && image[4] == 2 && image[5] == 1 && image[6] == 1
    && Spelled(image, 16, 2) == 2 && Spelled(image, 18, 2) == 0x3E && Spelled(image, 20, 4) == 1
    && Spelled(image, 52, 2) == 64 && Spelled(image, 54, 2) == 56
    && Spelled(image, 32, 8) + 56 * Spelled(image, 56, 2) <= |image|
    && Spelled(image, 32, 8) + 56 * Spelled(image, 56, 2) < TWO_64
    && (forall i: nat, o: nat | HeaderStarts(image, i, o) && Spelled(image, o, 4) == 1 :: GoodSegment(image, o))
    && (forall i: nat, o: nat | HeaderStarts(image, i, o) && Spelled(image, o, 4) == 7 :: GoodTls(image, slot, o))
    && (forall i: nat, j: nat, o: nat, o2: nat | HeaderStarts(image, i, o) && HeaderStarts(image, j, o2)
          && Spelled(image, o, 4) == 7 && Spelled(image, o2, 4) == 7 :: i == j)
    && (exists i: nat, o: nat :: HeaderStarts(image, i, o) && Spelled(image, o, 4) == 1 && Spelled(image, o + 4, 4) % 2 == 1
          && Spelled(image, o + 16, 8) <= Spelled(image, 24, 8) < Spelled(image, o + 16, 8) + Spelled(image, o + 40, 8))
  }

  predicate GoodSegment(image: seq<Byte>, o: nat)
    requires o + 56 <= |image|
  {
    var offset, address := Spelled(image, o + 8, 8), Spelled(image, o + 16, 8);
    var fileSize, memorySize := Spelled(image, o + 32, 8), Spelled(image, o + 40, 8);
    && 0 < memorySize && fileSize <= memorySize
    && offset + fileSize <= |image| && offset + fileSize < TWO_64
    && 0x4000_0000 <= address && address + memorySize <= 0x8000_0000_0000
  }

  predicate GoodTls(image: seq<Byte>, slot: nat, o: nat)
    requires o + 56 <= |image|
  {
    var offset, fileSize := Spelled(image, o + 8, 8), Spelled(image, o + 32, 8);
    var memorySize, align := Spelled(image, o + 40, 8), Spelled(image, o + 48, 8);
    var rounding, size := Max(align, 16), Max(memorySize, 1) + Max(align, 16) - 1;
    && fileSize <= memorySize && offset + fileSize <= |image| && offset + fileSize < TWO_64
    && (align == 0 || IsPowerOfTwo(align)) && size < TWO_64
    && 0x3000_0000_0000 + slot * 0x1_0000 + (size - size % rounding) + 64 <= 0x8000_0000_0000
  }

  lemma HeaderIsWellFormed(image: seq<Byte>)
    requires |image| >= 64
    ensures ValidHeader(image) <==>
            && image[0] == 0x7F && image[1] == 0x45 && image[2] == 0x4C && image[3] == 0x46
            && image[4] == 2 && image[5] == 1 && image[6] == 1
            && Spelled(image, 16, 2) == 2 && Spelled(image, 18, 2) == 0x3E && Spelled(image, 20, 4) == 1
            && Spelled(image, 52, 2) == 64 && Spelled(image, 54, 2) == 56
    ensures TableInImage(image) <==>
            && Spelled(image, 32, 8) + 56 * Spelled(image, 56, 2) <= |image|
            && Spelled(image, 32, 8) + 56 * Spelled(image, 56, 2) < TWO_64
  {
    hide Read, Spelled;
    FieldIsSpelled(image, 16, 2);
    FieldIsSpelled(image, 18, 2);
    FieldIsSpelled(image, 20, 4);
    FieldIsSpelled(image, 52, 2);
    FieldIsSpelled(image, 54, 2);
    FieldIsSpelled(image, 32, 8);
    FieldIsSpelled(image, 56, 2);
    assert image[..4] == [0x7F, 0x45, 0x4C, 0x46] <==>
           image[0] == 0x7F && image[1] == 0x45 && image[2] == 0x4C && image[3] == 0x46 by {
      assert image[..4] == [image[0], image[1], image[2], image[3]];
    }
  }

  lemma SegmentIsWellFormed(image: seq<Byte>, i: nat, o: nat)
    requires HeaderStarts(image, i, o)
    ensures IsLoad(image, i) <==> Spelled(image, o, 4) == 1
    ensures ValidSegment(image, HeaderAt(image, i)) <==> GoodSegment(image, o)
    ensures HoldsEntry(image, i) <==>
            && Spelled(image, o, 4) == 1 && Spelled(image, o + 4, 4) % 2 == 1
            && Spelled(image, o + 16, 8) <= Spelled(image, 24, 8) < Spelled(image, o + 16, 8) + Spelled(image, o + 40, 8)
  {
    hide HeaderAt, Spelled, Read;
    HeaderIsSpelled(image, i, o);
    FieldIsSpelled(image, 24, 8);
  }

  lemma TlsIsWellFormed(image: seq<Byte>, slot: nat, i: nat, o: nat)
    requires HeaderStarts(image, i, o)
    ensures IsTls(image, i) <==> Spelled(image, o, 4) == 7
    ensures var h := HeaderAt(image, i);
            ValidTls(image, h) && TlsFitsWords(slot, TlsOf(h)) && TlsRange(slot, TlsOf(h)).Last() < USER_END <==> GoodTls(image, slot, o)
  {
    hide HeaderAt, Spelled, IsPowerOfTwo;
    HeaderIsSpelled(image, i, o);
    var range := TlsRange(slot, TlsOf(HeaderAt(image, i)));
    LastPageInUserRange(range.address + range.memorySize - 1, USER_END / 4096);
  }

  lemma LastPageInUserRange(a: nat, pages: nat)
    ensures a - a % 4096 < pages * 4096 <==> a < pages * 4096
  {
  }

  /** Exactly the well-formed images are loadable into addresses that nobody has claimed. */
  lemma LoadableIsWellFormed(m: Memory, root: Frame, image: seq<Byte>, slot: nat)
    requires slot < 0x1_0000
    ensures Loadable(m, root, image, slot) <==>
            WellFormed(image, slot) && Unclaimed(m, root, image, slot, HeaderCount(image) + 2)
  {
    hide Unclaimed, HeaderAt, Spelled, ValidSegment, ValidTls, TlsFitsWords, TlsRange, GoodSegment, GoodTls, ValidHeader,
         TableInImage, IsLoad, IsTls, HoldsEntry;
    if |image| >= 64 {
      HeaderIsWellFormed(image);
      if ValidHeader(image) && TableInImage(image) {
        if Loadable(m, root, image, slot) {
          LoadableIsGood(m, root, image, slot);
        }
        if WellFormed(image, slot) && Unclaimed(m, root, image, slot, HeaderCount(image) + 2) {
          GoodIsLoadable(image, slot);
        }
      }
    } else {
      ShortIsInvalid(image);
    }
  }

  lemma ShortIsInvalid(image: seq<Byte>)
    requires |image| < 64
    ensures !ValidHeader(image)
  {
  }

  lemma LoadableIsGood(m: Memory, root: Frame, image: seq<Byte>, slot: nat)
    requires slot < 0x1_0000 && Loadable(m, root, image, slot)
    ensures WellFormed(image, slot)
  {
    hide Unclaimed, HeaderAt, Spelled, ValidSegment, ValidTls, TlsFitsWords, TlsRange, GoodSegment, GoodTls, HoldsEntry, IsTls,
         IsLoad;
    HeaderIsWellFormed(image);
    forall i: nat, o: nat | HeaderStarts(image, i, o)
      ensures IsLoad(image, i) <==> Spelled(image, o, 4) == 1
      ensures IsTls(image, i) <==> Spelled(image, o, 4) == 7
      ensures Spelled(image, o, 4) == 1 ==> GoodSegment(image, o)
      ensures Spelled(image, o, 4) == 7 ==> GoodTls(image, slot, o)
    {
      HeaderIsSpelled(image, i, o);
      SegmentIsWellFormed(image, i, o);
      TlsIsWellFormed(image, slot, i, o);
    }
    forall i: nat, o: nat | HeaderStarts(image, i, o) ensures i < HeaderCount(image) {
      HeaderIsSpelled(image, i, o);
    }
    var i: nat :| i < HeaderCount(image) && HoldsEntry(image, i);
    var o := HeadersStart(image, i);
    SegmentIsWellFormed(image, i, o);
  }

  lemma GoodIsLoadable(image: seq<Byte>, slot: nat)
    requires WellFormed(image, slot) && ValidHeader(image) && TableInImage(image)
    ensures SegmentsValid(image) && TlsValid(image, slot) && TlsInUserRange(image, slot) && EntryExecutable(image)
  {
    hide HeaderAt, Spelled, ValidSegment, ValidTls, TlsFitsWords, BlockSize, GoodSegment, GoodTls, HoldsEntry, ValidHeader,
         TableInImage, IsLoad, IsTls;
    forall i: nat | i < HeaderCount(image) && IsLoad(image, i) ensures ValidSegment(image, HeaderAt(image, i)) {
      var o := HeadersStart(image, i);
      SegmentIsWellFormed(image, i, o);
    }
    forall i: nat | i < HeaderCount(image) && IsTls(image, i)
      ensures ValidTls(image, HeaderAt(image, i)) && TlsFitsWords(slot, TlsOf(HeaderAt(image, i)))
      ensures TlsRange(slot, TlsOf(HeaderAt(image, i))).Last() < USER_END
    {
      var o := HeadersStart(image, i);
      TlsIsWellFormed(image, slot, i, o);
    }
    forall i: nat, j: nat | i < HeaderCount(image) && j < HeaderCount(image) && IsTls(image, i) && IsTls(image, j)
      ensures i == j
    {
      var o := HeadersStart(image, i);
      var o2 := HeadersStart(image, j);
      TlsIsWellFormed(image, slot, i, o);
      TlsIsWellFormed(image, slot, j, o2);
    }
    var i: nat, o: nat :| HeaderStarts(image, i, o) && Spelled(image, o, 4) == 1 && Spelled(image, o + 4, 4) % 2 == 1
      && Spelled(image, o + 16, 8) <= Spelled(image, 24, 8) < Spelled(image, o + 16, 8) + Spelled(image, o + 40, 8);
    HeaderIsSpelled(image, i, o);
    SegmentIsWellFormed(image, i, o);
  }

  /** A segment claims the pages its bytes lie on. */
  lemma SegmentClaimsPages(image: seq<Byte>, slot: nat, i: nat, o: nat, b: U64)
    requires slot < 0x1_0000 && HeaderStarts(image, i, o)
    ensures var address, memorySize := Spelled(image, o + 16, 8), Spelled(image, o + 40, 8);
            Claims(image, slot, i, b) <==>
              Spelled(image, o, 4) == 1 && 0 < memorySize && address / 4096 <= b / 4096 <= (address + memorySize - 1) / 4096
  {
    hide HeaderAt, Spelled;
    HeaderIsSpelled(image, i, o);
    var range := SegmentAt(image, i);
    if range.memorySize > 0 {
      PagesBetween(range.address, range.address + range.memorySize - 1, b);
    }
  }

  lemma PagesBetween(a: nat, z: nat, b: nat)
    ensures a - a % 4096 <= b < z - z % 4096 + 4096 <==> a / 4096 <= b / 4096 <= z / 4096
  {
  }

  lemma SpelledEntry(image: seq<Byte>)
    requires ValidHeader(image)
    ensures |image| >= 64 && Entry(image) == Spelled(image, 24, 8)
  {
    FieldIsSpelled(image, 24, 8);
  }

  /** `load_user_elf_into`.  A successful load leaves every segment in memory, byte by byte
      and with its permissions, no two segments on one page, the entry point in an executable
      segment, an empty stack and the TLS block; whatever was mapped before is untouched.
      Every error has its reason in the image or in what was mapped before, so a program is
      loaded if it is loadable and there are frames enough, and only if it is loadable. */
  method LoadUserElfInto(k: Pager, ghost l: Layout, ghost loose: set<nat>, image: seq<Byte>, root: Frame, slot: nat)
      returns (r: Result<LoadedImage, ElfError>, ghost held: set<nat>)
    requires k.Valid() && Owned(k.View(), l, loose) && root in l.roots && slot < 0x1_0000
    modifies k.memory, k.allocator.repr
    ensures k.Valid() && Owned(k.View(), l, held) && loose <= held && (r.Ok? ==> held == loose)
    ensures Extends(old(k.Memory()), k.Memory(), l, root)
    ensures r.Ok? ==> ValidHeader(image) && TableInImage(image) && ImageLoaded(k.Memory(), root, image, slot, r.value)
    ensures r.Ok? ==> ImageInMemory(k.Memory(), root, image, slot, r.value.entry, r.value.fsBase)
    ensures r.Ok? ==> Loadable(old(k.Memory()), root, image, slot)
    ensures r.Err? ==> LoadFault(old(k.View()), root, image, slot, r.error)
    ensures old(Loadable(k.Memory(), root, image, slot)) && old(|k.View().frames.vacant|) >= FramesFor(image, slot) ==> r.Ok?
  {
    ghost var s := k.View();
    r, held := LoadParts(k, l, loose, image, root, slot);
    if r.Ok? {
      LoadedImageInMemory(k.Memory(), root, image, slot, r.value);
    }
    if r.Err? && Loadable(s.memory, root, image, slot) {
      LoadableHasNoFault(s, root, image, slot, r.error);
    }
  }

  method LoadParts(k: Pager, ghost l: Layout, ghost loose: set<nat>, image: seq<Byte>, root: Frame, slot: nat)
      returns (r: Result<LoadedImage, ElfError>, ghost held: set<nat>)
    requires k.Valid() && Owned(k.View(), l, loose) && root in l.roots && slot < 0x1_0000
    modifies k.memory, k.allocator.repr
    ensures k.Valid() && Owned(k.View(), l, held) && loose <= held && (r.Ok? ==> held == loose)
    ensures Extends(old(k.Memory()), k.Memory(), l, root)
    ensures r.Ok? ==> ValidHeader(image) && TableInImage(image) && ImageLoaded(k.Memory(), root, image, slot, r.value)
    ensures r.Ok? ==> Loadable(old(k.Memory()), root, image, slot)
    ensures r.Err? ==> LoadFault(old(k.View()), root, image, slot, r.error)
  {
    hide Owned, At, ValidHeader, HeaderAt, Parsed, Extends, RangeLoaded, Fitted, RangeFault, Loadable, ImageLoaded,
         Unclaimed, FramesFor, TlsValid, TlsInUserRange;
    ghost var s := k.View();
    ghost var m := k.Memory();
    held := loose;
    ExtendsItself(m, l, root);
    if !ValidHeader(image) || !TableInImage(image) {
      return Err(InvalidHeader), held;
    }
    var entryFound, tls := false, None;
    var n := HeaderCount(image);
    ParsedNothing(m, l, root, image);
    FittedStart(s, root, image, slot);
    for index := 0 to n
      invariant k.Valid() && Owned(k.View(), l, held) && held == loose
      invariant Parsed(m, k.Memory(), l, root, image, index, entryFound, tls)
      invariant Fitted(s, k.View(), root, image, slot, index)
    {
      ParsedExtends(m, k.Memory(), l, root, image, index, entryFound, tls);
      var h := HeaderAt(image, index);
      if h.kind == PROGRAM_HEADER_TLS {
        if tls.Some? || !ValidTls(image, h) {
          TlsHeaderFails(s, m, k.Memory(), l, root, image, slot, index, entryFound, tls);
          return Err(InvalidProgramHeader), held;
        }
        ParsedTls(m, k.Memory(), l, root, image, index, entryFound);
        FittedSkip(s, k.View(), root, image, slot, index);
        tls := Some(TlsOf(h));
      } else if h.kind == PROGRAM_HEADER_LOAD {
        if !ValidSegment(image, h) {
          return Err(InvalidSegment), held;
        }
        ghost var s1, m1 := k.View(), k.Memory();
        SegmentInImage(image, index);
        var mapped;
        mapped, held := LoadRange(k, l, held, image, root, SegmentRange(h));
        if mapped.Err? {
          ExtendsTransitive(m, m1, k.Memory(), l, root);
          SegmentFails(s, s1, root, image, slot, index, mapped.error);
          return Err(PagingFailed(mapped.error)), held;
        }
        FittedSegment(s, s1, k.View(), root, image, slot, index);
        ParsedSegment(m, m1, k.Memory(), l, root, image, index, entryFound, tls);
        entryFound := entryFound || (Executable(h) && h.address <= Entry(image) < h.address + h.memorySize);
      } else {
        ParsedSkip(m, k.Memory(), l, root, image, index, entryFound, tls);
        FittedSkip(s, k.View(), root, image, slot, index);
      }
    }
    ghost var m1 := k.Memory();
    ParsedExtends(m, m1, l, root, image, n, entryFound, tls);
    if !entryFound {
      NoEntry(m, m1, l, root, image, tls);
      return Err(NoExecutableSegment), held;
    }
    r, held := FinishLoad(k, l, held, image, root, slot, s, tls);
  }

  lemma NoEntry(m0: Memory, m: Memory, l: Layout, root: Frame, image: seq<Byte>, tls: Option<TlsImage>)
    requires Parsed(m0, m, l, root, image, HeaderCount(image), false, tls)
    ensures !EntryExecutable(image)
  {
    hide HoldsEntry, HeaderAt;
  }

  lemma ParsedExtends(m0: Memory, m: Memory, l: Layout, root: Frame, image: seq<Byte>, n: nat, entryFound: bool,
      tls: Option<TlsImage>)
    requires Parsed(m0, m, l, root, image, n, entryFound, tls)
    ensures Extends(m0, m, l, root)
  {
  }

  /** Everything a successful load promises about memory. */
  ghost predicate ImageLoaded(m: Memory, root: Frame, image: seq<Byte>, slot: nat, loaded: LoadedImage)
    requires slot < 0x1_0000
  {
    && SegmentsLoaded(m, root, image, HeaderCount(image))
    && SegmentsApart(image, HeaderCount(image))
    && loaded.entry == Entry(image) && (exists i: nat :: i < HeaderCount(image) && HoldsEntry(image, i))
    && loaded.stackPointer == UserStackTop(slot) - 8
    && StackLoaded(m, root, slot)
    && TlsFound(image, HeaderCount(image), loaded.tls)
    && (loaded.tls.None? ==> loaded.fsBase == 0)
    && (loaded.tls.Some? ==> TlsLoaded(m, root, image, slot, loaded.tls.value, loaded.fsBase))
  }

  ghost predicate StackLoaded(m: Memory, root: Frame, slot: nat)
    requires slot < 0x1_0000
  {
    var top := UserStackTop(slot);
    forall b: U64 | top - USER_STACK_PAGES * 4096 <= b < top :: ZeroPage(m, root, b, UserReadWrite)
  }

  ghost predicate TlsLoaded(m: Memory, root: Frame, image: seq<Byte>, slot: nat, tls: TlsImage, fsBase: U64) {
    && fsBase == TlsBase(slot) + BlockSize(tls)
    && TlsRange(slot, tls).InImage(image) && RangeLoaded(m, root, image, TlsRange(slot, tls))
  }

  /** The stack and the TLS block, after the segments. */
  method FinishLoad(k: Pager, ghost l: Layout, ghost loose: set<nat>, image: seq<Byte>, root: Frame, slot: nat,
                    ghost s: Machine, tls: Option<TlsImage>)
      returns (r: Result<LoadedImage, ElfError>, ghost held: set<nat>)
    requires k.Valid() && Owned(k.View(), l, loose) && root in l.roots && slot < 0x1_0000
    requires ValidHeader(image) && TableInImage(image)
    requires Parsed(s.memory, k.Memory(), l, root, image, HeaderCount(image), true, tls)
    requires Fitted(s, k.View(), root, image, slot, HeaderCount(image))
    modifies k.memory, k.allocator.repr
    ensures k.Valid() && Owned(k.View(), l, held) && loose <= held && (r.Ok? ==> held == loose)
    ensures Extends(s.memory, k.Memory(), l, root)
    ensures r.Ok? ==> ImageLoaded(k.Memory(), root, image, slot, r.value) && Loadable(s.memory, root, image, slot)
    ensures r.Err? ==> LoadFault(s, root, image, slot, r.error)
  {
    hide Owned, At, ValidHeader, HeaderAt, Parsed, Extends, ImageLoaded, StackLoaded, Fitted, Filled, Loadable, LoadFault,
         StackFault, TlsFault, TlsFound, RangeLoaded, TlsFitsWords, TlsRange, SegmentPages, UserStackTop, BlockSize;
    ghost var n := HeaderCount(image);
    ghost var m, s1, m1 := s.memory, k.View(), k.Memory();
    ParsedExtends(m, m1, l, root, image, n, true, tls);
    StackTopAligned(slot);
    var top;
    top, held := AddStack(k, l, loose, image, root, slot, s);
    ghost var s2, m2 := k.View(), k.Memory();
    ExtendsTransitive(m, m1, m2, l, root);
    if top.Err? {
      return Err(PagingFailed(top.error)), held;
    }
    ParsedStays(m, m1, m2, l, root, image, n, tls);
    ParsedTlsFound(m, m2, l, root, image, n, tls);
    if tls.None? {
      LoadedWithoutTls(m, m2, l, root, image, slot);
      FilledWithoutTls(m, m2, root, image, slot);
      LoadedWasLoadable(m, m2, l, root, image, slot, None);
      return Ok(LoadedImage(Entry(image), top.value - 8, None, 0)), held;
    }
    TlsFits(m, m2, l, root, image, n, tls.value);
    var base;
    base, held := LoadInitialTls(k, l, held, image, root, slot, tls.value);
    ExtendsTransitive(m, m2, k.Memory(), l, root);
    if base.Err? {
      TlsConflict(s, s2, root, image, slot, tls.value, base.error);
      return Err(base.error), held;
    }
    ParsedStays(m, m2, k.Memory(), l, root, image, n, tls);
    StackStays(m2, k.Memory(), l, root, slot);
    LoadedWithTls(m, k.Memory(), l, root, image, slot, tls.value, base.value);
    FilledByTls(m, m2, k.Memory(), root, image, slot, tls.value);
    LoadedInUserRange(k.Memory(), root, image, TlsRange(slot, tls.value));
    LoadedWasLoadable(m, k.Memory(), l, root, image, slot, tls);
    return Ok(LoadedImage(Entry(image), top.value - 8, tls, base.value)), held;
  }

  lemma LoadedInUserRange(m: Memory, root: Frame, image: seq<Byte>, range: Range)
    requires range.InImage(image) && RangeLoaded(m, root, image, range)
    ensures range.Last() < USER_END
  {
  }

  lemma ParsedTlsFound(m0: Memory, m: Memory, l: Layout, root: Frame, image: seq<Byte>, n: nat, tls: Option<TlsImage>)
    requires Parsed(m0, m, l, root, image, n, true, tls)
    ensures TlsFound(image, n, tls)
  {
  }

  /** `allocate_user_stack_in` adds the part behind the last segment and takes nothing away. */
  method AddStack(k: Pager, ghost l: Layout, ghost loose: set<nat>, image: seq<Byte>, root: Frame, slot: nat,
                  ghost s: Machine)
      returns (r: Result<U64, PagingError>, ghost held: set<nat>)
    requires k.Valid() && Owned(k.View(), l, loose) && root in l.roots && slot < 0x1_0000
    requires Fitted(s, k.View(), root, image, slot, HeaderCount(image))
    modifies k.memory, k.allocator.repr
    ensures k.Valid() && Owned(k.View(), l, held) && loose <= held && (r.Ok? ==> held == loose)
    ensures Extends(old(k.Memory()), k.Memory(), l, root)
    ensures r.Ok? ==> r.value == UserStackTop(slot) && StackLoaded(k.Memory(), root, slot)
    ensures r.Ok? ==> Filled(s.memory, k.Memory(), root, image, slot, HeaderCount(image) + 1)
    ensures r.Ok? ==> |s.frames.vacant| <= |k.View().frames.vacant| + 4 * (SegmentPages(image, HeaderCount(image)) + USER_STACK_PAGES)
    ensures r.Err? ==> LoadFault(s, root, image, slot, PagingFailed(r.error))
  {
    hide Owned, At, ZeroPage, Extends, Filled, SegmentPages, StackFault, LoadFault, UserStackTop, OnlyRange;
    ghost var s1 := k.View();
    StackTopAligned(slot);
    r, held := AllocateUserStackIn(k, l, loose, root, slot);
    if r.Err? {
      StackConflict(s, s1, root, image, slot, r.error);
    } else {
      FilledByStack(s.memory, s1.memory, k.Memory(), l, root, image, slot);
    }
  }

  lemma TlsFits(m: Memory, m2: Memory, l: Layout, root: Frame, image: seq<Byte>, n: nat, tls: TlsImage)
    requires Parsed(m, m2, l, root, image, n, true, Some(tls))
    ensures tls.fileSize <= tls.memorySize && tls.offset + tls.fileSize <= |image|
  {
  }

  lemma ParsedStays(m0: Memory, m: Memory, m2: Memory, l: Layout, root: Frame, image: seq<Byte>, n: nat,
      tls: Option<TlsImage>)
    requires Parsed(m0, m, l, root, image, n, true, tls) && Extends(m, m2, l, root) && root in l.roots
    ensures Parsed(m0, m2, l, root, image, n, true, tls)
  {
    hide At, HeaderAt, ValidSegment, Extends, RangeLoaded, SegmentRange;
    ExtendsTransitive(m0, m, m2, l, root);
    forall i: nat | i < n && IsLoad(image, i) ensures SegmentLoaded(m2, root, image, i) {
      assert SegmentLoaded(m, root, image, i);
      SegmentInImage(image, i);
      ExtendsKeepsLoaded(m, m2, l, root, image, SegmentAt(image, i));
    }
  }

  lemma StackStays(m: Memory, m2: Memory, l: Layout, root: Frame, slot: nat)
    requires slot < 0x1_0000 && StackLoaded(m, root, slot) && Extends(m, m2, l, root) && root in l.roots
    ensures StackLoaded(m2, root, slot)
  {
    hide At;
    var top := UserStackTop(slot);
    forall b: U64 | top - USER_STACK_PAGES * 4096 <= b < top ensures ZeroPage(m2, root, b, UserReadWrite) {
      assert ZeroPage(m, root, b, UserReadWrite);
    }
  }

  lemma LoadedWithoutTls(m0: Memory, m: Memory, l: Layout, root: Frame, image: seq<Byte>, slot: nat)
    requires slot < 0x1_0000 && Parsed(m0, m, l, root, image, HeaderCount(image), true, None) && StackLoaded(m, root, slot)
    ensures ImageLoaded(m, root, image, slot, LoadedImage(Entry(image), UserStackTop(slot) - 8, None, 0))
  {
    hide HeaderAt, StackLoaded, SegmentsLoaded, SegmentsApart;
  }

  lemma LoadedWithTls(m0: Memory, m: Memory, l: Layout, root: Frame, image: seq<Byte>, slot: nat, tls: TlsImage,
      fsBase: U64)
    requires slot < 0x1_0000 && Parsed(m0, m, l, root, image, HeaderCount(image), true, Some(tls)) && StackLoaded(m, root, slot)
    requires TlsLoaded(m, root, image, slot, tls, fsBase)
    ensures ImageLoaded(m, root, image, slot, LoadedImage(Entry(image), UserStackTop(slot) - 8, Some(tls), fsBase))
  {
    hide HeaderAt, StackLoaded, SegmentsLoaded, SegmentsApart, TlsLoaded;
  }

  // ----------------------------------------------------------------- consequences

  /** A loaded image passes the check of `spawn_user` in its own address space. */
  lemma LoadedImagePassesCheck(s: Machine, l: Layout, root: Frame, image: seq<Byte>, slot: nat, loaded: LoadedImage)
    requires Trees(s, l) && root in l.roots && slot < 0x1_0000 && ImageLoaded(s.memory, root, image, slot, loaded)
    ensures IsUserExecutable(s.memory, root, loaded.entry)
    ensures loaded.fsBase != 0 ==> IsUserMapped(s.memory, root, loaded.fsBase)
  {
    hide Trees, At, HeaderAt, IsUserExecutable, IsUserMapped, SegmentsApart, StackLoaded, UserTable, PathOf;
    var i: nat :| i < HeaderCount(image) && HoldsEntry(image, i);
    assert SegmentLoaded(s.memory, root, image, i);
    SegmentInImage(image, i);
    var segment := SegmentAt(image, i);
    assert segment.Covers(loaded.entry);
    assert ByteLoaded(s.memory, root, image, segment, loaded.entry);
    var page := At(s.memory, root, loaded.entry).value;
    PagePassesChecks(s, l, root, loaded.entry, FrameOf(page.entry), segment.flags);
    if loaded.fsBase != 0 {
      TlsPassesCheck(s, l, root, image, slot, loaded.tls.value, loaded.fsBase);
    }
  }

  lemma TlsPassesCheck(s: Machine, l: Layout, root: Frame, image: seq<Byte>, slot: nat, tls: TlsImage, fsBase: U64)
    requires Trees(s, l) && root in l.roots && TlsLoaded(s.memory, root, image, slot, tls, fsBase)
    ensures IsUserMapped(s.memory, root, fsBase)
  {
    hide Trees, At, IsUserMapped, UserTable, PathOf;
    var block := TlsRange(slot, tls);
    assert block.Covers(fsBase);
    assert ByteLoaded(s.memory, root, image, block, fsBase);
    var page := At(s.memory, root, fsBase).value;
    PagePassesChecks(s, l, root, fsBase, FrameOf(page.entry), UserReadWrite);
  }

  /** Between its base and the thread control block the TLS block holds the image's bytes,
      then zeros; its size is a multiple of its alignment. */
  lemma TlsBlockHoldsImage(m: Memory, root: Frame, image: seq<Byte>, slot: nat, tls: TlsImage, fsBase: U64, b: U64)
    requires TlsLoaded(m, root, image, slot, tls, fsBase) && TlsBase(slot) <= b < fsBase
    ensures At(m, root, b).Some?
    ensures TableByte(At(m, root, b).value.content, b % 4096)
         == if b < TlsBase(slot) + tls.fileSize then image[tls.offset + b - TlsBase(slot)] else 0
    ensures (fsBase - TlsBase(slot)) % Max(tls.align, 16) == 0 && TlsBase(slot) + tls.memorySize <= fsBase
  {
    hide At;
    BlockCoversImage(tls);
    assert TlsRange(slot, tls).Covers(b);
    assert ByteLoaded(m, root, image, TlsRange(slot, tls), b);
  }
}
