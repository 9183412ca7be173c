/** What `spawn` in `kernel-core/src/user.rs` does between creating an address space and creating
    its thread: the image is loaded, and its stack and thread control block are written through
    the new address space. */
module ProgramStart {
  import opened Wrappers
  import opened Words
  import opened PageWords
  import opened PageTree
  import opened AddressSpaces
  import opened UserMemory
  import opened UserPages
  import opened Paging
  import opened ElfLoader
  import opened InitialStack

  /** Whatever user memory was mapped reads the same, in every address space. */
  ghost predicate BytesKept(m: Memory, m2: Memory, l: Layout, root: Frame) {
    forall r: Frame, b: U64 | r in l.roots && b < USER_END && (r != root || At(m, r, b).Some?) ::
      UserByte(m2, r, b) == UserByte(m, r, b) && EntryAt(m2, r, b) == EntryAt(m, r, b)
  }

  /** What the first instruction of a program finds: its segments, the thread control block
      pointing to itself behind the TLS block, and its arguments on the stack. */
  ghost predicate ProgramReady(m: Memory, root: Frame, image: seq<Byte>, slot: nat, loaded: LoadedImage, sp: nat,
      args: seq<seq<Byte>>, pointers: seq<U64>)
    requires slot < 0x1_0000
  {
    && SegmentsLoaded(m, root, image, HeaderCount(image))
    && loaded.entry == Entry(image) && EntryExecutable(image)
    && TlsFound(image, HeaderCount(image), loaded.tls)
    && (loaded.tls.None? ==> loaded.fsBase == 0)
    && (loaded.tls.Some? ==>
          && TlsBlockThere(m, root, image, slot, loaded.tls.value, loaded.fsBase)
          && WordAt(Flat(m, root), loaded.fsBase, loaded.fsBase))
    && StackThere(m, root, slot)
    && StackImage(Flat(m, root), UserStackTop(slot), sp, args, pointers)
  }

  /** The four pages of the stack are data pages. */
  ghost predicate StackThere(m: Memory, root: Frame, slot: nat)
    requires slot < 0x1_0000
  {
    forall b: U64 | UserStackTop(slot) - USER_STACK_PAGES * 4096 <= b < UserStackTop(slot) :: DataPage(m, root, b)
  }

  // ------------------------------------------------------------- what stores leave alone

  /** Bytes from `low` up to `high` belong to the `k`-th part of the program. */
  ghost predicate Within(image: seq<Byte>, slot: nat, k: nat, low: nat, high: nat)
    requires slot < 0x1_0000
  {
    high <= USER_END && forall b: U64 | low <= b < high :: Claims(image, slot, k, b)
  }

  /** Parts of a program share no address. */
  lemma PartsApart(m: Memory, root: Frame, image: seq<Byte>, slot: nat, n: nat, i: nat, k: nat, low: nat, high: nat,
      b: U64)
    requires slot < 0x1_0000 && Unclaimed(m, root, image, slot, n) && i < k < n
    requires Within(image, slot, k, low, high) && b < USER_END && Claims(image, slot, i, b)
    ensures !(low <= b < high)
  {
    hide Claims;
    var inLater := Claims(image, slot, k, b);
  }

  lemma ByteLoadedBytes(m: Memory, m2: Memory, l: Layout, root: Frame, low: nat, high: nat, image: seq<Byte>, range: Range,
      b: U64)
    requires range.InImage(image) && root in l.roots && b < USER_END && !(low <= b < high)
    requires OnlyBytes(m, m2, l, root, low, high) && ByteLoaded(m, root, image, range, b)
    ensures ByteLoaded(m2, root, image, range, b)
  {
    hide At, TableByte;
    assert UserByte(m2, root, b) == UserByte(m, root, b) && EntryAt(m2, root, b) == EntryAt(m, root, b);
  }

  /** Stores into a later part leave the segments alone. */
  lemma SegmentsKept(m0: Memory, m: Memory, m2: Memory, l: Layout, root: Frame, image: seq<Byte>, slot: nat, k: nat,
      low: nat, high: nat)
    requires slot < 0x1_0000 && root in l.roots && HeaderCount(image) <= k < HeaderCount(image) + 2
    requires Unclaimed(m0, root, image, slot, HeaderCount(image) + 2) && Within(image, slot, k, low, high)
    requires OnlyBytes(m, m2, l, root, low, high) && SegmentsLoaded(m, root, image, HeaderCount(image))
    ensures SegmentsLoaded(m2, root, image, HeaderCount(image))
  {
    hide HeaderAt, ValidSegment, SegmentRange, OnlyBytes, ByteLoaded, At;
    var n := HeaderCount(image);
    forall i: nat | i < n && IsLoad(image, i) ensures SegmentLoaded(m2, root, image, i) {
      assert SegmentLoaded(m, root, image, i);
      SegmentInImage(image, i);
      var range := SegmentAt(image, i);
      CoveredIsUser(m, root, image, range);
      forall b: U64 | range.Covers(b) ensures ByteLoaded(m2, root, image, range, b) {
        assert Claims(image, slot, i, b);
        PartsApart(m0, root, image, slot, n + 2, i, k, low, high, b);
        ByteLoadedBytes(m, m2, l, root, low, high, image, range, b);
      }
    }
  }

  lemma CoveredIsUser(m: Memory, root: Frame, image: seq<Byte>, range: Range)
    requires range.InImage(image) && RangeLoaded(m, root, image, range)
    ensures forall b: U64 | range.Covers(b) :: b < USER_END
  {
    PageEnd(range.address + range.memorySize - 1, USER_END / 4096);
  }

  lemma StoreKeepsMapped(m0: Memory, m: Memory, m2: Memory, l: Layout, root: Frame, image: seq<Byte>, slot: nat, k: nat,
      low: nat, high: nat)
    requires slot < 0x1_0000 && root in l.roots && k < HeaderCount(image) + 2
    requires Unclaimed(m0, root, image, slot, HeaderCount(image) + 2) && Within(image, slot, k, low, high)
    requires BytesKept(m0, m, l, root) && OnlyBytes(m, m2, l, root, low, high)
    ensures BytesKept(m0, m2, l, root)
  {
    hide Claims, UserByte, EntryAt, At;
    forall r: Frame, b: U64 | r in l.roots && b < USER_END && (r != root || At(m0, r, b).Some?)
      ensures UserByte(m2, r, b) == UserByte(m0, r, b) && EntryAt(m2, r, b) == EntryAt(m0, r, b)
    {
      assert low <= b < high ==> Claims(image, slot, k, b);
    }
  }

  lemma ExtendsBytes(m: Memory, m2: Memory, l: Layout, root: Frame)
    requires Extends(m, m2, l, root)
    ensures BytesKept(m, m2, l, root)
  {
    hide At;
  }

  // ------------------------------------------------------------------------ the stack

  lemma StackIsMapped(m: Memory, root: Frame, slot: nat)
    requires slot < 0x1_0000 && StackLoaded(m, root, slot)
    ensures USER_STACK_PAGES * 4096 <= UserStackTop(slot) <= USER_END
    ensures forall b: U64 | UserStackTop(slot) - USER_STACK_PAGES * 4096 <= b < UserStackTop(slot) :: At(m, root, b).Some?
    ensures StackThere(m, root, slot)
  {
    hide At, UserStackTop;
    StackTopAligned(slot);
    forall b: U64 | UserStackTop(slot) - USER_STACK_PAGES * 4096 <= b < UserStackTop(slot)
      ensures At(m, root, b).Some? && DataPage(m, root, b)
    {
      assert ZeroPage(m, root, b, UserReadWrite);
    }
  }

  lemma StackIsPart(image: seq<Byte>, slot: nat, low: nat)
    requires slot < 0x1_0000 && UserStackTop(slot) - USER_STACK_PAGES * 4096 <= low && UserStackTop(slot) <= USER_END
    ensures Within(image, slot, HeaderCount(image), low, UserStackTop(slot))
  {
    hide UserStackTop;
  }

  /** Both memories hold the same bytes from `low` up to `high`. */
  ghost predicate Agree(m: seq<Byte>, m2: seq<Byte>, low: nat, high: nat) {
    |m2| == |m| && forall j: nat | low <= j < high && j < |m| :: m2[j] == m[j]
  }

  lemma StackImageKept(m: seq<Byte>, m2: seq<Byte>, top: nat, sp: nat, args: seq<seq<Byte>>, pointers: seq<U64>)
    requires StackImage(m, top, sp, args, pointers) && Agree(m, m2, sp, top)
    ensures StackImage(m2, top, sp, args, pointers)
  {
    hide StringAt, WordsAt, Fits, VectorEnd, StringBytes;
    var strings := top - StringBytes(args, 0);
    RoomForStrings(args, top);
    VectorIsLow(args, top);
    forall i: nat | i < |args| ensures StringAt(m2, pointers[i], args[i]) {
      StringInside(args, i);
      assert pointers[i] + StringBytes(args, i) == top;
      StringKept(m, m2, sp, top, pointers[i], args[i]);
    }
    StringKept(m, m2, sp, top, strings - 10, PATH_ENTRY);
    StringKept(m, m2, sp, top, strings - 16, PWD_ENTRY);
    WordsKept(m, m2, sp, top, sp, Vector(pointers, strings - 10, strings - 16));
  }

  lemma VectorIsLow(args: seq<seq<Byte>>, top: nat)
    requires Fits(args, top)
    ensures VectorEnd(args, top) <= top - StringBytes(args, 0) - ENVIRONMENT_BYTES
  {
  }

  lemma StringInside(args: seq<seq<Byte>>, i: nat)
    requires i < |args|
    ensures |args[i]| < StringBytes(args, i) <= StringBytes(args, 0)
  {
    StringBytesBelow(args, 0, i);
    assert StringBytes(args, i) == |args[i]| + 1 + StringBytes(args, i + 1);
  }

  lemma StringKept(m: seq<Byte>, m2: seq<Byte>, low: nat, high: nat, a: nat, s: seq<Byte>)
    requires Agree(m, m2, low, high) && StringAt(m, a, s) && low <= a && a + |s| < high
    ensures StringAt(m2, a, s)
  {
  }

  lemma WordsKept(m: seq<Byte>, m2: seq<Byte>, low: nat, high: nat, a: nat, words: seq<U64>)
    requires Agree(m, m2, low, high) && WordsAt(m, a, words) && low <= a && a + 8 * |words| <= high
    ensures WordsAt(m2, a, words)
  {
    hide ByteOf;
    forall i: nat | i < |words| ensures WordAt(m2, a + 8 * i, words[i]) {
      assert WordAt(m, a + 8 * i, words[i]);
    }
  }

  // -------------------------------------------------------------- the control block

  /** The word behind the TLS block is mapped, and belongs to no other part. */
  lemma ControlBlock(m: Memory, root: Frame, image: seq<Byte>, slot: nat, tls: TlsImage, fsBase: U64)
    requires slot < 0x1_0000 && TlsFound(image, HeaderCount(image), Some(tls))
    requires TlsLoaded(m, root, image, slot, tls, fsBase)
    ensures Within(image, slot, HeaderCount(image) + 1, fsBase, fsBase + 8)
    ensures forall b: U64 | fsBase <= b < fsBase + 8 :: At(m, root, b).Some?
  {
    hide At, HeaderAt, TlsFound, BlockSize, Claims;
    var range, k := TlsRange(slot, tls), HeaderCount(image) + 1;
    CoveredIsUser(m, root, image, range);
    assert range.Covers(fsBase + 7);
    assert fsBase + 7 < USER_END;
    forall b: U64 | fsBase <= b < fsBase + 8 ensures Claims(image, slot, k, b) && At(m, root, b).Some? {
      assert range.Covers(b);
      TlsClaims(image, slot, tls, b);
      assert ByteLoaded(m, root, image, range, b);
    }
  }

  /** The control block is apart from the stack. */
  lemma PartsAgree(m0: Memory, m: Memory, m2: Memory, l: Layout, root: Frame, image: seq<Byte>, slot: nat, fsBase: nat,
      sp: nat)
    requires slot < 0x1_0000 && root in l.roots && Unclaimed(m0, root, image, slot, HeaderCount(image) + 2)
    requires Within(image, slot, HeaderCount(image) + 1, fsBase, fsBase + 8)
    requires Within(image, slot, HeaderCount(image), sp, UserStackTop(slot))
    requires OnlyBytes(m, m2, l, root, fsBase, fsBase + 8)
    ensures Agree(Flat(m, root), Flat(m2, root), sp, UserStackTop(slot))
  {
    hide Claims, OnlyBytes, UserStackTop, Flat;
    var n := HeaderCount(image);
    FlatOnly(m, m2, l, root, fsBase, fsBase + 8);
    forall j: nat | sp <= j < UserStackTop(slot) && j < USER_END ensures Flat(m2, root)[j] == Flat(m, root)[j] {
      assert Claims(image, slot, n, j);
      PartsApart(m0, root, image, slot, n + 2, n, n + 1, fsBase, fsBase + 8, j);
    }
  }

  // ----------------------------------------------------------------------- the steps

  /** The program, but for its stack image and the control block, is in memory and apart. */
  ghost predicate Laid(m0: Memory, m: Memory, l: Layout, root: Frame, image: seq<Byte>, slot: nat, loaded: LoadedImage)
    requires slot < 0x1_0000
  {
    && Unclaimed(m0, root, image, slot, HeaderCount(image) + 2)
    && BytesKept(m0, m, l, root)
    && SegmentsLoaded(m, root, image, HeaderCount(image))
    && loaded.entry == Entry(image) && EntryExecutable(image)
    && TlsFound(image, HeaderCount(image), loaded.tls)
    && (loaded.tls.None? ==> loaded.fsBase == 0)
    && (loaded.tls.Some? ==> ControlReady(m, root, image, slot, loaded.tls.value, loaded.fsBase))
    && StackThere(m, root, slot)
  }

  ghost predicate ControlReady(m: Memory, root: Frame, image: seq<Byte>, slot: nat, tls: TlsImage, fsBase: U64)
    requires slot < 0x1_0000
  {
    && TlsBlockThere(m, root, image, slot, tls, fsBase)
    && Within(image, slot, HeaderCount(image) + 1, TlsBase(slot), fsBase)
    && Within(image, slot, HeaderCount(image) + 1, fsBase, fsBase + 8)
  }

  lemma LoadedIsLaid(m0: Memory, m: Memory, l: Layout, root: Frame, image: seq<Byte>, slot: nat, loaded: LoadedImage)
    requires slot < 0x1_0000 && Extends(m0, m, l, root) && Loadable(m0, root, image, slot)
    requires ImageLoaded(m, root, image, slot, loaded)
    ensures Laid(m0, m, l, root, image, slot, loaded)
  {
    hide ValidHeader, TableInImage, SegmentsLoaded, SegmentsApart, StackLoaded, Unclaimed, BytesKept, TlsFound, TlsLoaded,
         ControlReady, EntryExecutable, SegmentsValid, TlsValid, TlsInUserRange, StackThere;
    ExtendsBytes(m0, m, l, root);
    StackIsMapped(m, root, slot);
    assert EntryExecutable(image);
    if loaded.tls.Some? {
      BlockIsReady(m, root, image, slot, loaded.tls.value, loaded.fsBase);
    }
  }

  lemma BlockIsReady(m: Memory, root: Frame, image: seq<Byte>, slot: nat, tls: TlsImage, fsBase: U64)
    requires slot < 0x1_0000 && TlsFound(image, HeaderCount(image), Some(tls))
    requires TlsLoaded(m, root, image, slot, tls, fsBase)
    ensures ControlReady(m, root, image, slot, tls, fsBase)
  {
    hide At, HeaderAt, TlsFound, BlockSize, Claims, ByteLoaded, TlsBlockThere;
    var range, k := TlsRange(slot, tls), HeaderCount(image) + 1;
    ControlBlock(m, root, image, slot, tls, fsBase);
    LoadedTlsIsThere(m, root, image, slot, tls, fsBase);
    CoveredIsUser(m, root, image, range);
    assert range.Covers(fsBase);
    forall b: U64 | TlsBase(slot) <= b < fsBase ensures Claims(image, slot, k, b) {
      assert range.Covers(b);
      TlsClaims(image, slot, tls, b);
    }
  }

  /** The stack is written. */
  lemma LaidAfterStack(m0: Memory, m: Memory, m2: Memory, l: Layout, root: Frame, image: seq<Byte>, slot: nat,
      loaded: LoadedImage, sp: nat)
    requires slot < 0x1_0000 && root in l.roots && Laid(m0, m, l, root, image, slot, loaded)
    requires OnlyBytes(m, m2, l, root, sp, UserStackTop(slot)) && Within(image, slot, HeaderCount(image), sp, UserStackTop(slot))
    ensures Laid(m0, m2, l, root, image, slot, loaded)
  {
    hide Claims, ByteLoaded, OnlyBytes, SegmentsLoaded, Unclaimed, TlsFound, EntryExecutable, UserStackTop, Within, BytesKept,
         TlsRange, BlockSize, ControlReady, StackThere;
    var n := HeaderCount(image);
    StackStaysThere(m, m2, l, root, slot, sp, UserStackTop(slot));
    SegmentsKept(m0, m, m2, l, root, image, slot, n, sp, UserStackTop(slot));
    StoreKeepsMapped(m0, m, m2, l, root, image, slot, n, sp, UserStackTop(slot));
    if loaded.tls.Some? {
      BlockAfterStack(m0, m, m2, l, root, image, slot, loaded.tls.value, loaded.fsBase, sp);
    }
  }

  lemma BlockAfterStack(m0: Memory, m: Memory, m2: Memory, l: Layout, root: Frame, image: seq<Byte>, slot: nat,
      tls: TlsImage, fsBase: U64, sp: nat)
    requires slot < 0x1_0000 && root in l.roots && Unclaimed(m0, root, image, slot, HeaderCount(image) + 2)
    requires OnlyBytes(m, m2, l, root, sp, UserStackTop(slot)) && Within(image, slot, HeaderCount(image), sp, UserStackTop(slot))
    requires ControlReady(m, root, image, slot, tls, fsBase)
    ensures ControlReady(m2, root, image, slot, tls, fsBase)
  {
    hide Claims, ByteLoaded, OnlyBytes, Unclaimed, UserStackTop, TlsRange, BlockSize, DataPage;
    var n, range := HeaderCount(image), TlsRange(slot, tls);
    forall b: U64 | TlsBase(slot) <= b < fsBase ensures ByteLoaded(m2, root, image, range, b) {
      assert Claims(image, slot, n + 1, b);
      NotInStack(m0, root, image, slot, sp, b);
      ByteLoadedBytes(m, m2, l, root, sp, UserStackTop(slot), image, range, b);
    }
    forall b: U64 | fsBase <= b < fsBase + TLS_TCB_SIZE ensures DataPage(m2, root, b) {
      DataStays(m, m2, l, root, sp, UserStackTop(slot), b);
    }
  }

  lemma StackStaysThere(m: Memory, m2: Memory, l: Layout, root: Frame, slot: nat, low: nat, high: nat)
    requires slot < 0x1_0000 && root in l.roots && StackThere(m, root, slot) && OnlyBytes(m, m2, l, root, low, high)
    ensures StackThere(m2, root, slot)
  {
    hide OnlyBytes, UserStackTop;
    StackTopAligned(slot);
    forall b: U64 | UserStackTop(slot) - USER_STACK_PAGES * 4096 <= b < UserStackTop(slot) ensures DataPage(m2, root, b) {
      DataStays(m, m2, l, root, low, high, b);
    }
  }

  lemma DataStays(m: Memory, m2: Memory, l: Layout, root: Frame, low: nat, high: nat, b: U64)
    requires root in l.roots && OnlyBytes(m, m2, l, root, low, high) && b < USER_END && DataPage(m, root, b)
    ensures DataPage(m2, root, b)
  {
    hide EntryAt, UserByte;
    assert EntryAt(m2, root, b) == EntryAt(m, root, b);
  }

  lemma NotInStack(m: Memory, root: Frame, image: seq<Byte>, slot: nat, sp: nat, b: U64)
    requires slot < 0x1_0000 && Unclaimed(m, root, image, slot, HeaderCount(image) + 2)
    requires Within(image, slot, HeaderCount(image), sp, UserStackTop(slot))
    requires b < USER_END && Claims(image, slot, HeaderCount(image) + 1, b)
    ensures !(sp <= b < UserStackTop(slot))
  {
    hide Claims, UserStackTop;
    var inStack := Claims(image, slot, HeaderCount(image), b);
  }

  /** The control block points to itself. */
  lemma ReadyAfterControl(m0: Memory, m: Memory, m2: Memory, l: Layout, root: Frame, image: seq<Byte>, slot: nat,
      loaded: LoadedImage, sp: nat, args: seq<seq<Byte>>, pointers: seq<U64>)
    requires slot < 0x1_0000 && root in l.roots && Laid(m0, m, l, root, image, slot, loaded)
    requires StackImage(Flat(m, root), UserStackTop(slot), sp, args, pointers)
    requires Within(image, slot, HeaderCount(image), sp, UserStackTop(slot))
    requires loaded.tls.Some? && OnlyBytes(m, m2, l, root, loaded.fsBase, loaded.fsBase + 8)
    requires WordAt(Flat(m2, root), loaded.fsBase, loaded.fsBase)
    ensures BytesKept(m0, m2, l, root) && ProgramReady(m2, root, image, slot, loaded, sp, args, pointers)
  {
    hide Claims, ByteLoaded, OnlyBytes, SegmentsLoaded, Unclaimed, TlsFound, EntryExecutable, UserStackTop, BytesKept,
         TlsRange, BlockSize, StackImage, Flat, WordAt, Agree, DataPage, StackThere;
    var n, fsBase := HeaderCount(image), loaded.fsBase;
    forall b: U64 | fsBase <= b < fsBase + TLS_TCB_SIZE ensures DataPage(m2, root, b) {
      DataStays(m, m2, l, root, fsBase, fsBase + 8, b);
    }
    StackStaysThere(m, m2, l, root, slot, fsBase, fsBase + 8);
    SegmentsKept(m0, m, m2, l, root, image, slot, n + 1, fsBase, fsBase + 8);
    StoreKeepsMapped(m0, m, m2, l, root, image, slot, n + 1, fsBase, fsBase + 8);
    PartsAgree(m0, m, m2, l, root, image, slot, fsBase, sp);
    StackImageKept(Flat(m, root), Flat(m2, root), UserStackTop(slot), sp, args, pointers);
    forall b: U64 | TlsBase(slot) <= b < fsBase ensures ByteLoaded(m2, root, image, TlsRange(slot, loaded.tls.value), b) {
      ByteLoadedBytes(m, m2, l, root, fsBase, fsBase + 8, image, TlsRange(slot, loaded.tls.value), b);
    }
  }

  lemma ReadyWithoutTls(m0: Memory, m: Memory, l: Layout, root: Frame, image: seq<Byte>, slot: nat, loaded: LoadedImage,
      sp: nat, args: seq<seq<Byte>>, pointers: seq<U64>)
    requires slot < 0x1_0000 && Laid(m0, m, l, root, image, slot, loaded)
    requires StackImage(Flat(m, root), UserStackTop(slot), sp, args, pointers)
    requires loaded.tls.None?
    ensures BytesKept(m0, m, l, root) && ProgramReady(m, root, image, slot, loaded, sp, args, pointers)
  {
    hide SegmentsLoaded, Unclaimed, TlsFound, EntryExecutable, UserStackTop, BytesKept, StackImage, Flat, StackThere;
  }

  lemma StackIsInImage(m: Memory, root: Frame, image: seq<Byte>, slot: nat, loaded: LoadedImage)
    requires slot < 0x1_0000 && ImageLoaded(m, root, image, slot, loaded)
    ensures loaded.stackPointer == UserStackTop(slot) - 8 && StackLoaded(m, root, slot)
  {
  }

  /** The memory side of `spawn`: load the image, and in its address space write the stack and
      the control block.  The caller's address space is active again afterwards, and no memory
      that was mapped before, in any address space, reads differently. */
  method PrepareProgram(k: Pager, ghost l: Layout, ghost loose: set<nat>, image: seq<Byte>, root: Frame, slot: nat,
      name: seq<Byte>, argv: seq<seq<Byte>>)
      returns (r: Result<LoadedImage, ElfError>, sp: nat, ghost pointers: seq<U64>, ghost held: set<nat>)
    requires k.Valid() && Owned(k.View(), l, loose) && root in l.roots && slot < 0x1_0000
    requires |name| < 64 && forall i: nat | i < |argv| :: |argv[i]| < 64
    modifies k, k.memory, k.allocator.repr
    ensures k.Valid() && k.cr3 == old(k.cr3) && Owned(k.View(), l, held) && loose <= held && (r.Ok? ==> held == loose)
    ensures BytesKept(old(k.Memory()), k.Memory(), l, root)
    ensures r.Ok? ==> ProgramReady(k.Memory(), root, image, slot, r.value, sp, Arguments(name, argv), pointers)
    ensures r.Ok? ==> ProgramReads(k.Memory(), root, image, slot, r.value, sp, name, argv)
    ensures r.Err? ==> LoadFault(old(k.View()), root, image, slot, r.error)
    ensures old(Loadable(k.Memory(), root, image, slot)) && old(|k.View().frames.vacant|) >= FramesFor(image, slot) ==> r.Ok?
  {
    hide Owned, At, Extends, Laid, BytesKept, OnlyBytes, ProgramReady, LoadFault, Loadable, FramesFor, StackImage, Flat,
         UserStackTop, StackLoaded, Within, WordAt, FitsAbove, ImageLoaded, EntryAt, UserByte, ImageInMemory, StackReads,
         ProgramReads, ValidHeader, TableInImage, Arguments;
    ghost var m0 := k.Memory();
    sp, pointers := 0, [];
    r, held := LoadUserElfInto(k, l, loose, image, root, slot);
    if r.Err? {
      ExtendsBytes(m0, k.Memory(), l, root);
      return;
    }
    var loaded := r.value;
    ghost var m1 := k.Memory();
    LoadedIsLaid(m0, m1, l, root, image, slot, loaded);
    StackIsInImage(m1, root, image, slot, loaded);
    StackIsMapped(m1, root, slot);
    var previous := k.cr3;
    k.SwitchAddressSpace(root);
    ghost var low: nat := UserStackTop(slot) - USER_STACK_PAGES * 4096;
    FourPagesSuffice(name, argv, UserStackTop(slot));
    sp, pointers := InitializeProcessStack(k, l, held, low, loaded.stackPointer, name, argv);
    ghost var m2 := k.Memory();
    StackIsPart(image, slot, sp);
    LaidAfterStack(m0, m1, m2, l, root, image, slot, loaded, sp);
    if loaded.fsBase != 0 {
      LaidBlock(m0, m2, l, root, image, slot, loaded);
      WriteUserWord(k, l, held, loaded.fsBase, loaded.fsBase + 8, loaded.fsBase, loaded.fsBase);
      ReadyAfterControl(m0, m2, k.Memory(), l, root, image, slot, loaded, sp, Arguments(name, argv), pointers);
    } else {
      NoBlock(m0, m2, l, root, image, slot, loaded);
      ReadyWithoutTls(m0, m2, l, root, image, slot, loaded, sp, Arguments(name, argv), pointers);
    }
    ProgramReadsArguments(k.Memory(), root, image, slot, loaded, sp, name, argv, pointers);
    k.SwitchAddressSpace(previous);
  }

  lemma LaidBlock(m0: Memory, m: Memory, l: Layout, root: Frame, image: seq<Byte>, slot: nat, loaded: LoadedImage)
    requires slot < 0x1_0000 && Laid(m0, m, l, root, image, slot, loaded) && loaded.fsBase != 0
    ensures loaded.tls.Some? && loaded.fsBase + 8 <= USER_END
    ensures forall b: U64 | loaded.fsBase <= b < loaded.fsBase + 8 :: At(m, root, b).Some?
  {
    hide At, Claims, SegmentsLoaded, Unclaimed, TlsFound, EntryExecutable, BytesKept, BlockSize, StackThere;
    forall b: U64 | loaded.fsBase <= b < loaded.fsBase + 8 ensures At(m, root, b).Some? {
      assert DataPage(m, root, b);
    }
  }

  lemma NoBlock(m0: Memory, m: Memory, l: Layout, root: Frame, image: seq<Byte>, slot: nat, loaded: LoadedImage)
    requires slot < 0x1_0000 && Laid(m0, m, l, root, image, slot, loaded) && loaded.fsBase == 0
    ensures loaded.tls.None?
  {
    hide At, StackThere, Claims, SegmentsLoaded, Unclaimed, TlsFound, EntryExecutable, BytesKept, BlockSize;
  }

  // ------------------------------------------------------------------ what it reads

  /** What the new program finds when it runs, in terms of the bytes of its image and of what its
      caller passed: every segment and the TLS block, its stack of four writable pages with
      name, arguments and environment, and at its thread pointer that pointer. */
  ghost predicate ProgramReads(m: Memory, root: Frame, image: seq<Byte>, slot: nat, loaded: LoadedImage, sp: nat,
      name: seq<Byte>, argv: seq<seq<Byte>>)
  {
    && ImageInMemory(m, root, image, slot, loaded.entry, loaded.fsBase)
    && (var top := 0x8000_0000_0000 - 4096 - slot * 5 * 4096;
        forall b: U64 | top - 4 * 4096 <= b < top :: UserPageAt(m, root, b, true, false))
    && StackReads(Flat(m, root), sp, name, argv)
    && (loaded.fsBase != 0 ==> loaded.fsBase + 8 <= USER_END && Word(Flat(m, root), loaded.fsBase) == loaded.fsBase)
  }

  /** A program that is ready finds what it should. */
  lemma ProgramReadsArguments(m: Memory, root: Frame, image: seq<Byte>, slot: nat, loaded: LoadedImage, sp: nat, name: seq<Byte>,
      argv: seq<seq<Byte>>, pointers: seq<U64>)
    requires slot < 0x1_0000 && ValidHeader(image) && TableInImage(image)
    requires ProgramReady(m, root, image, slot, loaded, sp, Arguments(name, argv), pointers)
    ensures ProgramReads(m, root, image, slot, loaded, sp, name, argv)
  {
    hide Flat, StackImage, SegmentsLoaded, TlsFound, EntryExecutable, Word, WordAt, ValidHeader, TableInImage, ImageInMemory,
         StackReads, Arguments, TlsBlockThere, DataPage, UserPageAt;
    PartsInMemory(m, root, image, slot, loaded);
    StackIsRead(Flat(m, root), UserStackTop(slot), sp, name, argv, pointers);
    forall b: U64 | UserStackTop(slot) - 4 * 4096 <= b < UserStackTop(slot) ensures UserPageAt(m, root, b, true, false) {
      DataPageIsUser(m, root, b);
    }
    if loaded.fsBase != 0 {
      WordFits(Flat(m, root), loaded.fsBase, loaded.fsBase);
      WordIsRead(Flat(m, root), loaded.fsBase, loaded.fsBase);
    }
  }
}
