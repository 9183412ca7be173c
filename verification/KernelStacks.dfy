/** Kernel stacks: four pages in the window, behind one page that stays unmapped. */
module KernelStacks {
  import opened Wrappers
  import opened Words
  import opened FrameSets
  import opened PageWords
  import opened PageTree
  import opened AddressSpaces
  import opened PageWalks
  import opened Mapping
  import opened FiniteMap
  import opened SpaceLife
  import opened PagingRuns
  import opened UserMemory
  import opened UserPages
  import opened Paging

  const KERNEL_STACK_GUARD_PAGE: nat := 0xFFFF_FF10_0000_0000
  const KERNEL_STACK_PAGES: nat := 4
  const WINDOW_START: nat := 0xFFFF_FF00_0000_0000
  const WINDOW_END: nat := 0xFFFF_FF80_0000_0000

  predicate WindowAddress(a: U64) {
    WINDOW_START <= a < WINDOW_END
  }

  /** In the window, as in the user half, addresses share their indices exactly when they
      share a page. */
  lemma WindowPath(a: U64, b: U64)
    requires WindowAddress(a) && WindowAddress(b)
    ensures PathOf(a).l4 == WINDOW_INDEX
    ensures PathOf(a) == PathOf(b) <==> a / 4096 == b / 4096
  {
    hide PathOf;
    WindowDigits(a);
    WindowDigits(b);
    DigitsDetermine(PathOf(a), PathOf(b));
    SamePageOffset(a, b);
  }

  lemma WindowDigits(a: U64)
    requires WindowAddress(a)
    ensures var p := PathOf(a);
            p.l4 == WINDOW_INDEX && (a - WINDOW_START) / 4096 == (p.l3 * 512 + p.l2) * 512 + p.l1
  {
    hide PathOf;
    var o := a - WINDOW_START;
    assert PathOf(a) == Path(510, o / 0x4000_0000 % 512, o / 0x20_0000 % 512, o / 4096 % 512) by {
      OffsetPath(o);
    }
    OffsetDigits(o);
  }

  lemma OffsetPath(o: nat)
    requires o < 0x80_0000_0000
    ensures PathOf(WINDOW_START + o) == Path(510, o / 0x4000_0000 % 512, o / 0x20_0000 % 512, o / 4096 % 512)
  {
    Offset1(o);
    Offset2(o);
    Offset3(o);
    assert (WINDOW_START + o) / 0x80_0000_0000 == 0x1FF_FFFE;
  }

  lemma Offset1(o: nat)
    ensures (WINDOW_START + o) / 4096 % 512 == o / 4096 % 512
  {
    assert (WINDOW_START + o) / 4096 == 512 * 0x7FFFFF80000 + o / 4096;
  }

  lemma Offset2(o: nat)
    ensures (WINDOW_START + o) / 0x20_0000 % 512 == o / 0x20_0000 % 512
  {
    assert (WINDOW_START + o) / 0x20_0000 == 512 * 0x3_FFFF_FC00 + o / 0x20_0000;
  }

  lemma Offset3(o: nat)
    ensures (WINDOW_START + o) / 0x4000_0000 % 512 == o / 0x4000_0000 % 512
  {
    assert (WINDOW_START + o) / 0x4000_0000 == 512 * 0x1FF_FFFE + o / 0x4000_0000;
  }

  lemma OffsetDigits(o: nat)
    requires o < 0x80_0000_0000
    ensures o / 4096 == (o / 0x4000_0000 % 512 * 512 + o / 0x20_0000 % 512) * 512 + o / 4096 % 512
  {
    var n := o / 4096;
    assert o / 0x20_0000 == n / 512;
    var n2 := n / 512;
    assert o / 0x4000_0000 == n2 / 512 by {
      assert o / 0x4000_0000 == o / 0x20_0000 / 512;
    }
    assert n2 / 512 < 512;
  }

  lemma SamePageOffset(a: U64, b: U64)
    requires WindowAddress(a) && WindowAddress(b)
    ensures a / 4096 == b / 4096 <==> (a - WINDOW_START) / 4096 == (b - WINDOW_START) / 4096
  {
    assert a / 4096 == WINDOW_START / 4096 + (a - WINDOW_START) / 4096;
    assert b / 4096 == WINDOW_START / 4096 + (b - WINDOW_START) / 4096;
  }

  function KernelStackBase(slot: nat): U64
    requires slot < 0x1_0000
  {
    KERNEL_STACK_GUARD_PAGE + slot * (KERNEL_STACK_PAGES + 1) * 4096 + 4096
  }

  /** The stack of a slot: 16 KiB behind a page of 4 KiB, slot after slot. */
  lemma KernelStackRange(slot: nat)
    requires slot < 0x1_0000
    ensures KernelStackBase(slot) == 0xFFFF_FF10_0000_0000 + slot * (16384 + 4096) + 4096
    ensures KERNEL_STACK_PAGES * 4096 == 16384
  {
  }

  /** The stacks of different slots do not meet, and the page below a stack is in none. */
  lemma StacksAreGuarded(slot: nat, other: nat, a: U64)
    requires slot < 0x1_0000 && other < 0x1_0000
    requires KernelStackBase(slot) - 4096 <= a < KernelStackBase(slot) + KERNEL_STACK_PAGES * 4096
    requires KernelStackBase(other) <= a < KernelStackBase(other) + KERNEL_STACK_PAGES * 4096
    ensures slot == other && KernelStackBase(slot) <= a
  {
  }

  /** Writable for the kernel, not executable. */
  ghost predicate KernelPage(m: Memory, root: Frame, address: U64) {
    var r := Translate(m, root, PathOf(address));
    r.Some? && r.value.height == 1 && HasFlags(r.value.entry, KernelReadWrite)
  }

  /** Such a page can be written, not executed, and not reached by user code. */
  lemma KernelPageIsPrivate(m: Memory, root: Frame, address: U64)
    requires KernelPage(m, root, address)
    ensures var e := Translate(m, root, PathOf(address)).value.entry;
            Present(e) && WritableBit(e) && NoExecute(e) && !UserBit(e)
  {
    hide Translate, PathOf, LeafEntry;
    LeafEntryFields(FrameOf(Translate(m, root, PathOf(address)).value.entry), KernelReadWrite);
  }

  /** Of the window, only the addresses from `low` up to `high` may differ. */
  ghost predicate WindowOnly(m: Memory, m2: Memory, l: Layout, low: nat, high: nat) {
    forall r: Frame, b: U64 | IsRoot(l, r) && WindowAddress(b) && !(low <= b < high) ::
      Translate(m2, r, PathOf(b)) == Translate(m, r, PathOf(b))
  }

  lemma WindowGrows(m: Memory, m1: Memory, m2: Memory, l: Layout, low: nat, high: nat, root: Frame, page: U64)
    requires WindowOnly(m, m1, l, low, high) && WindowAddress(page) && page % 4096 == 0 && page == high
    requires low <= high && OthersKept(m1, m2, l, root, PathOf(page))
    ensures WindowOnly(m, m2, l, low, high + 4096)
  {
    hide Translate, PathOf;
    forall r: Frame, b: U64 | IsRoot(l, r) && WindowAddress(b) && !(low <= b < high + 4096)
      ensures Translate(m2, r, PathOf(b)) == Translate(m, r, PathOf(b))
    {
      WindowPath(b, page);
      assert b / 4096 != page / 4096;
      assert Described(l, r, PathOf(b)) && !SamePage(root, PathOf(page), r, PathOf(b));
    }
  }

  // ------------------------------------------------------------------- one page

  lemma KernelMapIsQuiet(s: Machine, s2: Machine, l: Layout, loose2: set<nat>, root: Frame, address: U64)
    requires Owned(s2, l, loose2) && PathOf(address).l4 == WINDOW_INDEX
    requires OthersKept(s.memory, s2.memory, l, root, PathOf(address)) && ChangesTables(s.memory, s2.memory, l)
    ensures SameMemory(s.memory, s2.memory, l)
  {
    hide Owned, Translate, ChangesTables, PathOf;
    OwnedParts(s2, l, loose2);
    forall r: Frame, b: U64 | r in l.roots && b < USER_END ensures At(s2.memory, r, b) == At(s.memory, r, b) {
      PathIsPage(b, b);
      TablesKeepContents(s.memory, s2, l, r, PathOf(b));
      assert Described(l, r, PathOf(b)) && !SamePage(root, PathOf(address), r, PathOf(b));
    }
  }

  lemma NoChange(m: Memory, l: Layout, root: Frame, path: Path)
    ensures SameMemory(m, m, l) && OthersKept(m, m, l, root, path) && SameTranslations(m, m, l)
  {
  }

  lemma SameIsKept(m: Memory, m2: Memory, l: Layout, root: Frame, path: Path)
    requires SameTranslations(m, m2, l)
    ensures OthersKept(m, m2, l, root, path)
  {
    hide Translate, Described;
  }

  /** A frame from the allocator, mapped for the kernel in the window. */
  method NewKernelPage(k: Pager, ghost l: Layout, ghost loose: set<nat>, address: U64)
      returns (r: Option<PagingError>, ghost held: set<nat>)
    requires k.Valid() && Owned(k.View(), l, loose) && IsRoot(l, k.cr3) && WindowAddress(address)
    modifies k.memory, k.allocator.repr
    ensures k.Valid() && Owned(k.View(), l, held) && loose <= held && (r.None? ==> held == loose)
    ensures SameMemory(old(k.Memory()), k.Memory(), l)
    ensures OthersKept(old(k.Memory()), k.Memory(), l, k.cr3, PathOf(address))
    ensures r.None? ==> KernelPage(k.Memory(), k.cr3, address)
    ensures r.Some? ==> SameTranslations(old(k.Memory()), k.Memory(), l)
  {
    hide Owned, AddressSpaces.MapPageIn, PathOf, SameMemory, OthersKept, KernelPage, SameTranslations;
    ghost var s := k.View();
    OwnedParts(s, l, loose);
    var frame := k.allocator.Allocate();
    if frame.None? {
      NoChange(s.memory, l, k.cr3, PathOf(address));
      return Some(FrameAllocationFailed), loose;
    }
    var f: Frame := frame.value;
    TakeIsQuiet(s, l, loose);
    TakenWasFree(s, l, loose);
    ghost var s1 := k.View();
    held := loose + {f};
    var mapped := k.MapPage(address, f, KernelReadWrite);
    MapInWindow(s1, l, held, k.cr3, address, f);
    if mapped.Err? {
      return Some(mapped.error), held;
    }
    assert held - {f} == loose;
    return None, loose;
  }

  /** Mapping a held frame in the window. */
  lemma MapInWindow(s: Machine, l: Layout, loose: set<nat>, root: Frame, address: U64, f: Frame)
    requires Owned(s, l, loose) && IsRoot(l, root) && WindowAddress(address) && f in loose
    ensures Sound(s.frames)
    ensures var (s2, r) := AddressSpaces.MapPageIn(s, root, address, f, KernelReadWrite);
            && Owned(s2, l, if r.Ok? then loose - {f} else loose)
            && SameMemory(s.memory, s2.memory, l) && OthersKept(s.memory, s2.memory, l, root, PathOf(address))
            && (r.Ok? ==> KernelPage(s2.memory, root, address))
            && (r.Err? ==> SameTranslations(s.memory, s2.memory, l))
  {
    hide Owned, AddressSpaces.MapPageIn, LeafEntry, Translate, PathOf, Trees;
    WindowPath(address, address);
    OwnedParts(s, l, loose);
    assert Described(l, root, PathOf(address));
    MapRefines(s, l, root, address, f, KernelReadWrite);
    MapKeepsOwned(s, l, loose, root, address, f, KernelReadWrite);
    var (s2, r) := AddressSpaces.MapPageIn(s, root, address, f, KernelReadWrite);
    if r.Err? {
      SameIsKept(s.memory, s2.memory, l, root, PathOf(address));
    }
    KernelMapIsQuiet(s, s2, l, if r.Ok? then loose - {f} else loose, root, address);
    LeafEntryFields(f, KernelReadWrite);
  }

  /** Unmaps a window page and gives its frame back. */
  method DropKernelPage(k: Pager, ghost l: Layout, ghost loose: set<nat>, address: U64)
    requires k.Valid() && Owned(k.View(), l, loose) && IsRoot(l, k.cr3) && WindowAddress(address)
    modifies k.memory, k.allocator.repr
    ensures k.Valid() && Owned(k.View(), l, loose)
    ensures SameMemory(old(k.Memory()), k.Memory(), l)
    ensures OthersKept(old(k.Memory()), k.Memory(), l, k.cr3, PathOf(address))
    ensures Dropped(old(k.Memory()), k.Memory(), k.cr3, address)
  {
    hide Owned, AddressSpaces.UnmapPage, LeafEntry, Translate, PathOf, HasFlags;
    ghost var s := k.View();
    WindowPath(address, address);
    assert Described(l, k.cr3, PathOf(address));
    ghost var y := System(s, l, loose, k.cr3);
    OwnedParts(s, l, loose);
    UnmapRefines(s, l, k.cr3, address);
    UnmapKept(y, address);
    var frame := k.UnmapPage(address);
    if frame.Some? {
      k.FreeFrame(frame.value);
    }
    assert k.View() == Do(y, UnmapAndFree(address)).s;
    KernelMapIsQuiet(s, k.View(), l, loose, k.cr3, address);
  }

  // ------------------------------------------------------------------ whole stacks

  lemma StackPagesInWindow(slot: nat, page: nat)
    requires slot < 0x1_0000 && page <= KERNEL_STACK_PAGES
    ensures WindowAddress(KernelStackBase(slot) + page * 4096) && KernelStackBase(slot) % 4096 == 0
  {
  }

  /** `allocate_kernel_stack`: the four pages are mapped for the kernel; the page below them
      is left alone, and so is all user memory. */
  method AllocateKernelStack(k: Pager, ghost l: Layout, ghost loose: set<nat>, slot: nat)
      returns (r: Result<U64, PagingError>, ghost held: set<nat>)
    requires k.Valid() && Owned(k.View(), l, loose) && IsRoot(l, k.cr3) && slot < 0x1_0000
    modifies k.memory, k.allocator.repr
    ensures k.Valid() && Owned(k.View(), l, held) && loose <= held && (r.Ok? ==> held == loose)
    ensures SameMemory(old(k.Memory()), k.Memory(), l)
    ensures WindowOnly(old(k.Memory()), k.Memory(), l, KernelStackBase(slot), KernelStackBase(slot) + KERNEL_STACK_PAGES * 4096)
    ensures r.Ok? ==> && r.value == KernelStackBase(slot) + KERNEL_STACK_PAGES * 4096
                      && StackPages(k.Memory(), k.cr3, slot, KERNEL_STACK_PAGES)
  {
    hide Owned, SameMemory, WindowOnly, KernelPage, OthersKept, StackPages, KernelStackBase, PathOf, SameTranslations;
    assert StackPages(k.Memory(), k.cr3, slot, 0) by { NoStackPages(k.Memory(), k.cr3, slot); }
    ghost var m := k.Memory();
    var base := KernelStackBase(slot);
    StackPagesInWindow(slot, KERNEL_STACK_PAGES);
    held := loose;
    StackStartQuiet(m, l, base);
    for page := 0 to KERNEL_STACK_PAGES
      invariant k.Valid() && Owned(k.View(), l, held) && held == loose
      invariant SameMemory(m, k.Memory(), l)
      invariant WindowOnly(m, k.Memory(), l, base, base + page * 4096)
      invariant StackPages(k.Memory(), k.cr3, slot, page)
    {
      StackPagesInWindow(slot, page);
      ghost var m1 := k.Memory();
      var error;
      error, held := NewKernelPage(k, l, held, base + page * 4096);
      SameMemoryTransitive(m, m1, k.Memory(), l);
      WindowGrows(m, m1, k.Memory(), l, base, base + page * 4096, k.cr3, base + page * 4096);
      if error.Some? {
        WindowWeaker(m, k.Memory(), l, base, base + (page + 1) * 4096, base + KERNEL_STACK_PAGES * 4096);
        return Err(error.value), held;
      }
      StackPagesGrow(m1, k.Memory(), l, k.cr3, slot, page);
    }
    return Ok(base + KERNEL_STACK_PAGES * 4096), held;
  }

  /** The first `n` pages of a stack are mapped for the kernel. */
  ghost predicate StackPages(m: Memory, root: Frame, slot: nat, n: nat)
    requires slot < 0x1_0000 && n <= KERNEL_STACK_PAGES
  {
    forall page: nat | page < n :: KernelPage(m, root, KernelStackBase(slot) + page * 4096)
  }

  lemma StackPagesGrow(m: Memory, m2: Memory, l: Layout, root: Frame, slot: nat, page: nat)
    requires slot < 0x1_0000 && page < KERNEL_STACK_PAGES && StackPages(m, root, slot, page) && IsRoot(l, root)
    requires var address := KernelStackBase(slot) + page * 4096;
             OthersKept(m, m2, l, root, PathOf(address)) && KernelPage(m2, root, address)
    ensures StackPages(m2, root, slot, page + 1)
  {
    hide KernelPage, OthersKept, PathOf;
    forall i: nat | i < page ensures KernelPage(m2, root, KernelStackBase(slot) + i * 4096) {
      StackPagesInWindow(slot, i);
      StackPagesInWindow(slot, page);
      OtherPageStays(m, m2, l, root, KernelStackBase(slot) + page * 4096, KernelStackBase(slot) + i * 4096);
    }
  }

  /** `release_kernel_stack`: afterwards no small page of the stack is mapped, whatever its flags
      were, and every frame that came from the allocator has gone back. */
  method ReleaseKernelStack(k: Pager, ghost l: Layout, ghost loose: set<nat>, slot: nat)
    requires k.Valid() && Owned(k.View(), l, loose) && IsRoot(l, k.cr3) && slot < 0x1_0000
    modifies k.memory, k.allocator.repr
    ensures k.Valid() && Owned(k.View(), l, loose)
    ensures SameMemory(old(k.Memory()), k.Memory(), l)
    ensures WindowOnly(old(k.Memory()), k.Memory(), l, KernelStackBase(slot), KernelStackBase(slot) + KERNEL_STACK_PAGES * 4096)
    ensures forall page: nat | page < KERNEL_STACK_PAGES ::
              Dropped(old(k.Memory()), k.Memory(), k.cr3, KernelStackBase(slot) + page * 4096)
  {
    hide Owned, SameMemory, WindowOnly, OthersKept, Translate, PathOf, KernelStackBase;
    ghost var m := k.Memory();
    var base := KernelStackBase(slot);
    StackPagesInWindow(slot, KERNEL_STACK_PAGES);
    StackStartQuiet(m, l, base);
    for page := 0 to KERNEL_STACK_PAGES
      invariant k.Valid() && Owned(k.View(), l, loose)
      invariant SameMemory(m, k.Memory(), l)
      invariant WindowOnly(m, k.Memory(), l, base, base + page * 4096)
      invariant forall i: nat | i < page :: Dropped(m, k.Memory(), k.cr3, base + i * 4096)
    {
      StackPagesInWindow(slot, page);
      ghost var m1 := k.Memory();
      DropKernelPage(k, l, loose, base + page * 4096);
      SameMemoryTransitive(m, m1, k.Memory(), l);
      WindowGrows(m, m1, k.Memory(), l, base, base + page * 4096, k.cr3, base + page * 4096);
      NotYetReached(m, m1, l, base, base + page * 4096, k.cr3);
      forall i: nat | i < page ensures Dropped(m, k.Memory(), k.cr3, base + i * 4096) {
        StackPagesInWindow(slot, i);
        OtherPageStays(m1, k.Memory(), l, k.cr3, base + page * 4096, base + i * 4096);
        assert Dropped(m, m1, k.cr3, base + i * 4096);
      }
    }
    assert forall page: nat | page < KERNEL_STACK_PAGES :: Dropped(m, k.Memory(), k.cr3, base + page * 4096);
  }

  /** A small page is gone; anything else the address was translated to is still there. */
  ghost predicate Dropped(m: Memory, m2: Memory, root: Frame, address: U64) {
    var was := Translate(m, root, PathOf(address));
    Translate(m2, root, PathOf(address)) == if was.Some? && was.value.height == 1 then None else was
  }

  lemma NoStackPages(m: Memory, root: Frame, slot: nat)
    requires slot < 0x1_0000
    ensures StackPages(m, root, slot, 0)
  {
  }

  lemma StackStartQuiet(m: Memory, l: Layout, base: nat)
    ensures SameMemory(m, m, l) && WindowOnly(m, m, l, base, base)
  {
  }

  lemma WindowWeaker(m: Memory, m2: Memory, l: Layout, low: nat, high: nat, high2: nat)
    requires WindowOnly(m, m2, l, low, high) && high <= high2
    ensures WindowOnly(m, m2, l, low, high2)
  {
    hide Translate, PathOf;
  }

  lemma NotYetReached(m: Memory, m1: Memory, l: Layout, low: nat, address: U64, root: Frame)
    requires WindowOnly(m, m1, l, low, address) && WindowAddress(address) && IsRoot(l, root)
    ensures Translate(m1, root, PathOf(address)) == Translate(m, root, PathOf(address))
  {
    hide Translate, PathOf;
  }

  lemma OtherPageStays(m: Memory, m2: Memory, l: Layout, root: Frame, page: U64, other: U64)
    requires OthersKept(m, m2, l, root, PathOf(page)) && IsRoot(l, root)
    requires WindowAddress(page) && WindowAddress(other) && page / 4096 != other / 4096
    ensures Translate(m2, root, PathOf(other)) == Translate(m, root, PathOf(other))
    ensures KernelPage(m2, root, other) == KernelPage(m, root, other)
  {
    hide Translate, PathOf;
    WindowPath(page, other);
    WindowPath(other, page);
    assert Described(l, root, PathOf(other)) && !SamePage(root, PathOf(page), root, PathOf(other));
  }
}
