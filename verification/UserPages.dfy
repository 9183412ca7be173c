/** Fresh user pages, and the stacks of `kernel-core/src/paging.rs` built from pages. */
module UserPages {
  import opened Wrappers
  import opened Words
  import opened FrameSets
  import opened PageWords
  import opened PageTree
  import opened AddressSpaces
  import opened UserMemory
  import opened Paging
  import SpaceLife

  /** `write_physical_frame`, for bytes that stay inside the frame. */
  method WritePhysicalFrame(k: Pager, frame: Frame, offset: nat, bytes: seq<Byte>)
    requires k.Valid() && offset + |bytes| <= 4096
    modifies k.memory
    ensures k.Valid()
    ensures k.View() == old(k.View()).(memory := old(k.Memory())[frame := Overlay(old(k.Memory())[frame], offset, bytes)])
  {
    hide SetByte;
    ghost var m := k.Memory();
    for i := 0 to |bytes|
      invariant forall f: Frame | f != frame :: k.memory[f] == m[f]
      invariant Overlay(k.memory[frame], offset + i, bytes[i..]) == Overlay(m[frame], offset, bytes)
    {
      k.memory[frame] := SetByte(k.memory[frame], offset + i, bytes[i]);
      assert bytes[i..][1..] == bytes[i + 1..];
    }
    assert k.Memory() == m[frame := Overlay(m[frame], offset, bytes)];
  }

  /** Why a user page cannot be added: it takes one frame and at most three tables. */
  ghost predicate PageFault(s: Machine, root: Frame, address: U64, error: PagingError) {
    match error
    case FrameAllocationFailed => |s.frames.vacant| < 4
    case InvalidUserAddress => !UserAddress(address)
    case AlreadyMapped => UserAddress(address) && At(s.memory, root, address).Some?
    case HugePageConflict => false
  }

  /** A frame from the allocator, zeroed and mapped as a user page.  A frame that could not
      be mapped stays handed out: it joins the `held` ones. */
  method NewUserPage(k: Pager, ghost l: Layout, ghost loose: set<nat>, root: Frame, address: U64, flags: PageFlags)
      returns (r: Result<Frame, PagingError>, ghost held: set<nat>)
    requires k.Valid() && Owned(k.View(), l, loose) && root in l.roots && flags.User()
    modifies k.memory, k.allocator.repr
    ensures k.Valid() && Owned(k.View(), l, held)
    ensures loose <= held && (r.Ok? ==> held == loose)
    ensures r.Ok? ==> && UserAddress(address) && old(At(k.Memory(), root, address)) == None
                      && At(k.Memory(), root, address) == Some(Page(LeafEntry(r.value, flags), ZeroTable()))
                      && OnlyPage(old(k.Memory()), k.Memory(), l, root, address)
    ensures r.Err? ==> SameMemory(old(k.Memory()), k.Memory(), l)
    ensures r.Err? ==> PageFault(old(k.View()), root, address, r.error)
    ensures r.Ok? ==> |old(k.View()).frames.vacant| <= |k.View().frames.vacant| + 4
    ensures r.Ok? ==> r.value < MAX_FRAMES
  {
    hide Owned, At, AddressSpaces.MapUserPageIn, LeafEntry, SameMemory, OnlyPage, PageFault;
    ghost var s := k.View();
    OwnedParts(s, l, loose);
    var frame := k.allocator.Allocate();
    if frame.None? {
      Same(s.memory, l);
      assert PageFault(s, root, address, FrameAllocationFailed) by { NoFrames(s, root, address); }
      return Err(FrameAllocationFailed), loose;
    }
    var f: Frame := frame.value;
    k.ZeroFrame(f);
    ghost var s1 := k.View();
    assert s1 == ZeroedFrame(s);
    var mapped := k.MapUserPageIn(root, address, f, flags);
    FreshPage(s, l, loose, root, address, flags);
    if mapped.Err? {
      return Err(mapped.error), loose + {f};
    }
    return Ok(f), loose;
  }

  lemma NoFrames(s: Machine, root: Frame, address: U64)
    requires s.frames.vacant == {}
    ensures PageFault(s, root, address, FrameAllocationFailed)
  {
  }

  /** The lowest free frame is taken and cleared. */
  ghost function ZeroedFrame(s: Machine): Machine
    requires Sound(s.frames) && s.frames.vacant != {}
  {
    var (frames, f) := Allocate(s.frames);
    Machine(s.memory[f.value := ZeroTable()], frames)
  }

  /** What mapping a cleared frame comes to. */
  lemma FreshPage(s: Machine, l: Layout, loose: set<nat>, root: Frame, address: U64, flags: PageFlags)
    requires Owned(s, l, loose) && root in l.roots && flags.User()
    requires Sound(s.frames) && s.frames.vacant != {}
    ensures Sound(ZeroedFrame(s).frames)
    ensures var f: Frame := Lowest(s.frames.vacant);
            var (s2, r) := AddressSpaces.MapUserPageIn(ZeroedFrame(s), root, address, f, flags);
            && Owned(s2, l, if r.Ok? then loose else loose + {f})
            && (r.Ok? ==> && UserAddress(address) && At(s.memory, root, address) == None
                          && At(s2.memory, root, address) == Some(Page(LeafEntry(f, flags), ZeroTable()))
                          && OnlyPage(s.memory, s2.memory, l, root, address)
                          && |s.frames.vacant| <= |s2.frames.vacant| + 4)
            && (r.Err? ==> SameMemory(s.memory, s2.memory, l) && PageFault(s, root, address, r.error))
  {
    hide Owned, At, AddressSpaces.MapUserPageIn, LeafEntry, SameMemory, OnlyPage;
    var f: Frame := Lowest(s.frames.vacant);
    var held := loose + {f};
    TakeIsQuiet(s, l, loose);
    var s1 := s.(frames := Allocate(s.frames).0);
    FillLooseIsQuiet(s1, l, held, f, ZeroTable());
    var z := ZeroedFrame(s);
    assert z == s1.(memory := s1.memory[f := ZeroTable()]);
    MapAddsPage(z, l, held, root, address, f, flags);
    var (s2, r) := AddressSpaces.MapUserPageIn(z, root, address, f, flags);
    assert |z.frames.vacant| == |s.frames.vacant| - 1;
    if UserAddress(address) {
      SameAtOne(s.memory, z.memory, l, root, address);
    }
    if r.Err? {
      SameMemoryTransitive(s.memory, z.memory, s2.memory, l);
    } else {
      assert held - {f} == loose by { TakenWasFree(s, l, loose); }
      SameThenOnly(s.memory, z.memory, s2.memory, l, root, address);
    }
  }

  lemma TakeIsQuiet(s: Machine, l: Layout, loose: set<nat>)
    requires Owned(s, l, loose) && s.frames.vacant != {}
    ensures var (frames, f) := Allocate(s.frames);
            f.Some? && Owned(s.(frames := frames), l, loose + {f.value})
  {
    SpaceLife.AllocateKeepsOwned(s, l, loose);
  }

  lemma TakenWasFree(s: Machine, l: Layout, loose: set<nat>)
    requires Owned(s, l, loose) && s.frames.vacant != {}
    ensures Lowest(s.frames.vacant) !in loose
  {
    hide Trees, LeavesHeld, NodesApart;
    OwnedParts(s, l, loose);
  }

  lemma SameAtOne(m: Memory, m2: Memory, l: Layout, root: Frame, address: U64)
    requires SameMemory(m, m2, l) && root in l.roots && address < USER_END
    ensures At(m2, root, address) == At(m, root, address)
  {
  }

  lemma SameMemoryTransitive(m: Memory, m1: Memory, m2: Memory, l: Layout)
    requires SameMemory(m, m1, l) && SameMemory(m1, m2, l)
    ensures SameMemory(m, m2, l)
  {
    hide At;
  }

  lemma SameThenOnly(m: Memory, m1: Memory, m2: Memory, l: Layout, root: Frame, address: U64)
    requires SameMemory(m, m1, l) && OnlyPage(m1, m2, l, root, address)
    ensures OnlyPage(m, m2, l, root, address)
  {
    hide At;
  }

  /** What was mapped stays as it was, and other address spaces do not change at all. */
  ghost predicate Extends(m: Memory, m2: Memory, l: Layout, root: Frame) {
    forall r: Frame, b: U64 | r in l.roots && b < USER_END && (r != root || At(m, r, b).Some?) :: At(m2, r, b) == At(m, r, b)
  }

  lemma ExtendsTransitive(m: Memory, m1: Memory, m2: Memory, l: Layout, root: Frame)
    requires Extends(m, m1, l, root) && Extends(m1, m2, l, root)
    ensures Extends(m, m2, l, root)
  {
    hide At;
    forall r: Frame, b: U64 | r in l.roots && b < USER_END && (r != root || At(m, r, b).Some?) ensures At(m2, r, b) == At(m, r, b) {
      assert At(m1, r, b) == At(m, r, b);
    }
  }

  lemma ExtendsItself(m: Memory, l: Layout, root: Frame)
    ensures Extends(m, m, l, root)
  {
  }

  lemma ExtendsQuiet(m: Memory, m1: Memory, m2: Memory, l: Layout, root: Frame)
    requires Extends(m, m1, l, root) && SameMemory(m1, m2, l)
    ensures Extends(m, m2, l, root)
  {
    hide At;
  }

  lemma PageWasNone(m: Memory, m1: Memory, l: Layout, root: Frame, page: U64)
    requires page < USER_END && page % 4096 == 0 && At(m1, root, page) == None && At(m1, root, page) == At(m, root, page)
    ensures forall b: U64 | page <= b < page + 4096 :: At(m, root, b) == None
  {
    hide At;
    forall b: U64 | page <= b < page + 4096 ensures At(m, root, b) == None {
      assert b < USER_END;
      SamePageSameAt(m, root, b, page);
    }
  }

  lemma ExtendsByPage(m: Memory, m1: Memory, m2: Memory, l: Layout, root: Frame, page: U64)
    requires Extends(m, m1, l, root) && OnlyPage(m1, m2, l, root, page) && page % 4096 == 0 && page < USER_END
    requires forall b: U64 | page <= b < page + 4096 :: At(m, root, b) == None
    ensures Extends(m, m2, l, root)
  {
    hide At;
    forall r: Frame, b: U64 | r in l.roots && b < USER_END && (r != root || At(m, r, b).Some?) ensures At(m2, r, b) == At(m, r, b) {
      assert r == root && b / 4096 == page / 4096 ==> page <= b < page + 4096;
    }
  }

  // -------------------------------------------------------------------- user stacks

  predicate HasFlags(e: U64, flags: PageFlags) {
    e == LeafEntry(FrameOf(e), flags)
  }

  /** A mapped page of zeros. */
  predicate ZeroPage(m: Memory, root: Frame, address: U64, flags: PageFlags) {
    var p := At(m, root, address);
    p.Some? && HasFlags(p.value.entry, flags) && p.value.content == ZeroTable()
  }

  /** Nothing but the addresses from `low` up to `high` of one address space may differ. */
  ghost predicate OnlyRange(m: Memory, m2: Memory, l: Layout, root: Frame, low: nat, high: nat) {
    forall r: Frame, b: U64 | r in l.roots && b < USER_END && !(r == root && low <= b < high) :: At(m2, r, b) == At(m, r, b)
  }

  lemma OnlyRangeGrows(m: Memory, m1: Memory, m2: Memory, l: Layout, root: Frame, low: nat, high: nat, page: U64)
    requires OnlyRange(m, m1, l, root, low, high) && OnlyPage(m1, m2, l, root, page) && page % 4096 == 0
    requires page + 4096 == low || page == high || (low <= page && page + 4096 <= high)
    ensures OnlyRange(m, m2, l, root, if page < low then page else low, if page + 4096 > high then page + 4096 else high)
  {
    hide At;
    var low2 := if page < low then page else low;
    var high2 := if page + 4096 > high then page + 4096 else high;
    forall r: Frame, b: U64 | r in l.roots && b < USER_END && !(r == root && low2 <= b < high2) ensures At(m2, r, b) == At(m, r, b) {
      assert !(r == root && b / 4096 == page / 4096);
    }
  }

  lemma FreshIsZero(m: Memory, root: Frame, page: U64, f: Frame, flags: PageFlags, b: U64)
    requires At(m, root, page) == Some(Page(LeafEntry(f, flags), ZeroTable()))
    requires page < USER_END && b < USER_END && b / 4096 == page / 4096
    ensures ZeroPage(m, root, b, flags)
  {
    hide At, LeafEntry;
    LeafEntryFields(f, flags);
    SamePageSameAt(m, root, b, page);
  }

  const USER_STACK_PAGES: nat := 4

  function UserStackTop(slot: nat): U64
    requires slot < 0x1000_0000
  {
    USER_END - 4096 - slot * (USER_STACK_PAGES + 1) * 4096
  }

  lemma StackTopAligned(slot: nat)
    requires slot < 0x1000_0000
    ensures UserStackTop(slot) % 4096 == 0 && USER_STACK_PAGES * 4096 <= UserStackTop(slot) <= USER_END
  {
    hide UserStackTop;
    StackTopInPages(slot);
    WholePages(0x7_FFFF_FFFF - slot * 5);
  }

  lemma StackTopInPages(slot: nat)
    requires slot < 0x1000_0000
    ensures UserStackTop(slot) == 4096 * (0x7_FFFF_FFFF - slot * 5)
  {
  }

  lemma WholePages(k: nat)
    ensures 4096 * k % 4096 == 0
  {
  }

  /** The stacks of different slots do not meet, and the page below a stack is in none. */
  lemma UserStacksAreGuarded(slot: nat, other: nat, a: nat)
    requires slot < 0x1000_0000 && other < 0x1000_0000
    requires UserStackTop(slot) - (USER_STACK_PAGES + 1) * 4096 <= a < UserStackTop(slot)
    requires UserStackTop(other) - USER_STACK_PAGES * 4096 <= a < UserStackTop(other)
    ensures slot == other && UserStackTop(slot) - USER_STACK_PAGES * 4096 <= a
  {
  }

  /** Why a stack cannot be added. */
  ghost predicate StackFault(s: Machine, root: Frame, slot: nat, error: PagingError)
    requires slot < 0x1000_0000
  {
    match error
    case FrameAllocationFailed => |s.frames.vacant| < 4 * USER_STACK_PAGES
    case AlreadyMapped =>
      exists b: U64 :: UserStackTop(slot) - USER_STACK_PAGES * 4096 <= b < UserStackTop(slot) && At(s.memory, root, b).Some?
    case _ => false
  }

  /** Four zeroed pages below the top; the page above them and the page below them belong to
      no stack, so every stack has an unmapped neighbour. */
  method AllocateUserStackIn(k: Pager, ghost l: Layout, ghost loose: set<nat>, root: Frame, slot: nat)
      returns (r: Result<U64, PagingError>, ghost held: set<nat>)
    requires k.Valid() && Owned(k.View(), l, loose) && root in l.roots && slot < 0x1000_0000
    modifies k.memory, k.allocator.repr
    ensures k.Valid() && Owned(k.View(), l, held) && loose <= held
    ensures r.Ok? ==> && held == loose && r.value == UserStackTop(slot)
                      && (forall b: U64 | r.value - USER_STACK_PAGES * 4096 <= b < r.value :: ZeroPage(k.Memory(), root, b, UserReadWrite))
    ensures Extends(old(k.Memory()), k.Memory(), l, root)
    ensures OnlyRange(old(k.Memory()), k.Memory(), l, root, UserStackTop(slot) - USER_STACK_PAGES * 4096, UserStackTop(slot))
    ensures r.Ok? ==> |old(k.View()).frames.vacant| <= |k.View().frames.vacant| + 4 * USER_STACK_PAGES
    ensures r.Ok? ==> forall b: U64 | r.value - USER_STACK_PAGES * 4096 <= b < r.value :: old(At(k.Memory(), root, b)) == None
    ensures r.Err? ==> StackFault(old(k.View()), root, slot, r.error)
  {
    hide Owned, PageFault, StackFault, At, StackSoFar, Extends, OnlyRange, ZeroPage, UserStackTop, OnlyPage;
    ghost var s := k.View();
    ghost var m := k.Memory();
    var top := UserStackTop(slot);
    StackTopAligned(slot);
    held := loose;
    StackStart(m, l, root, top);
    for page := 1 to USER_STACK_PAGES + 1
      invariant k.Valid() && Owned(k.View(), l, held) && held == loose
      invariant StackSoFar(m, k.Memory(), l, root, top, page - 1)
      invariant |s.frames.vacant| <= |k.View().frames.vacant| + 4 * (page - 1)
    {
      var address := top - page * 4096;
      ghost var s1, m1 := k.View(), k.Memory();
      var frame;
      frame, held := NewUserPage(k, l, held, root, address, UserReadWrite);
      if frame.Err? {
        StackFails(s, s1, l, root, slot, page, frame.error);
        StackQuiet(m, m1, k.Memory(), l, root, top, page - 1);
        return Err(frame.error), held;
      }
      StackStep(m, m1, k.Memory(), l, root, top, page, frame.value);
    }
    StackEnd(m, k.Memory(), l, root, top);
    return Ok(top), held;
  }

  lemma StackFails(s: Machine, s1: Machine, l: Layout, root: Frame, slot: nat, page: nat, error: PagingError)
    requires slot < 0x1000_0000 && 1 <= page <= USER_STACK_PAGES && root in l.roots
    requires USER_STACK_PAGES * 4096 <= UserStackTop(slot) <= USER_END && UserStackTop(slot) % 4096 == 0
    requires StackSoFar(s.memory, s1.memory, l, root, UserStackTop(slot), page - 1)
    requires |s.frames.vacant| <= |s1.frames.vacant| + 4 * (page - 1)
    requires PageFault(s1, root, UserStackTop(slot) - page * 4096, error)
    ensures StackFault(s, root, slot, error)
  {
    hide At;
    var address: U64 := UserStackTop(slot) - page * 4096;
    assert At(s1.memory, root, address) == At(s.memory, root, address);
  }

  /** The first `n` pages below `top` are mapped and zero, and were unmapped before. */
  ghost predicate StackSoFar(m: Memory, m1: Memory, l: Layout, root: Frame, top: nat, n: nat)
    requires n * 4096 <= top
  {
    && Extends(m, m1, l, root)
    && OnlyRange(m, m1, l, root, top - n * 4096, top)
    && (forall b: U64 | top - n * 4096 <= b < top :: ZeroPage(m1, root, b, UserReadWrite))
    && (forall b: U64 | top - n * 4096 <= b < top :: At(m, root, b) == None)
  }

  lemma StackStart(m: Memory, l: Layout, root: Frame, top: nat)
    ensures StackSoFar(m, m, l, root, top, 0)
  {
  }

  lemma StackEnd(m: Memory, m1: Memory, l: Layout, root: Frame, top: nat)
    requires USER_STACK_PAGES * 4096 <= top && StackSoFar(m, m1, l, root, top, USER_STACK_PAGES)
    ensures Extends(m, m1, l, root) && OnlyRange(m, m1, l, root, top - USER_STACK_PAGES * 4096, top)
    ensures forall b: U64 | top - USER_STACK_PAGES * 4096 <= b < top :: ZeroPage(m1, root, b, UserReadWrite)
    ensures forall b: U64 | top - USER_STACK_PAGES * 4096 <= b < top :: At(m, root, b) == None
  {
    hide At, ZeroPage;
  }

  lemma StackQuiet(m: Memory, m1: Memory, m2: Memory, l: Layout, root: Frame, top: nat, n: nat)
    requires n <= USER_STACK_PAGES && USER_STACK_PAGES * 4096 <= top
    requires StackSoFar(m, m1, l, root, top, n) && SameMemory(m1, m2, l)
    ensures Extends(m, m2, l, root) && OnlyRange(m, m2, l, root, top - USER_STACK_PAGES * 4096, top)
  {
    ExtendsQuiet(m, m1, m2, l, root);
    OnlyRangeQuiet(m, m1, m2, l, root, top - n * 4096, top);
    OnlyRangeWeaker(m, m2, l, root, top - n * 4096, top, top - USER_STACK_PAGES * 4096);
  }

  lemma StackStep(m: Memory, m1: Memory, m2: Memory, l: Layout, root: Frame, top: U64, page: nat, f: Frame)
    requires 1 <= page <= USER_STACK_PAGES && USER_STACK_PAGES * 4096 <= top <= USER_END && top % 4096 == 0 && root in l.roots
    requires StackSoFar(m, m1, l, root, top, page - 1)
    requires var address := top - page * 4096;
             At(m1, root, address) == None && OnlyPage(m1, m2, l, root, address)
             && At(m2, root, address) == Some(Page(LeafEntry(f, UserReadWrite), ZeroTable()))
    ensures StackSoFar(m, m2, l, root, top, page)
  {
    hide At, HasFlags, LeafEntry;
    var address := top - page * 4096;
    PageWasNone(m, m1, l, root, address);
    ExtendsByPage(m, m1, m2, l, root, address);
    OnlyRangeGrows(m, m1, m2, l, root, top - (page - 1) * 4096, top, address);
    forall b: U64 | top - page * 4096 <= b < top ensures ZeroPage(m2, root, b, UserReadWrite) {
      if b < address + 4096 {
        FreshIsZero(m2, root, address, f, UserReadWrite, b);
      } else {
        assert ZeroPage(m1, root, b, UserReadWrite);
        assert b / 4096 != address / 4096;
      }
    }
  }

  lemma OnlyRangeQuiet(m: Memory, m1: Memory, m2: Memory, l: Layout, root: Frame, low: nat, high: nat)
    requires OnlyRange(m, m1, l, root, low, high) && SameMemory(m1, m2, l)
    ensures OnlyRange(m, m2, l, root, low, high)
  {
    hide At;
  }

  lemma OnlyRangeWeaker(m: Memory, m2: Memory, l: Layout, root: Frame, low: nat, high: nat, low2: nat)
    requires OnlyRange(m, m2, l, root, low, high) && low2 <= low
    ensures OnlyRange(m, m2, l, root, low2, high)
  {
    hide At;
  }
}
