/** Runs of the paging and allocator calls: nothing is lost, nothing is used twice, and the
    kernel half stays common to all roots. */
module PagingRuns {
  import opened Wrappers
  import opened Words
  import opened FrameSets
  import opened PageWords
  import opened PageTree
  import opened AddressSpaces
  import opened PageLinks
  import opened PageWalks
  import opened PageLeaves
  import opened Mapping
  import opened FiniteMap
  import opened SpaceLife
  import opened Teardown

  const DEVICE_WINDOW_BASE: U64 := 0xFFFF_FF00_0000_0000
  const VGA_FRAME: Frame := 0xB8

  /** Machine, bookkeeping, and the root in CR3.  `loose` are frames callers hold without
      having mapped them: fresh ones, and those whose mapping failed. */
  datatype System = System(s: Machine, l: Layout, loose: set<nat>, active: Frame)

  datatype Call =
    | TakeFrame
    | GiveFrame(frame: Frame)
    | MapUser(root: Frame, address: U64, frame: Frame, flags: PageFlags)
    | MapKernel(address: U64, frame: Frame, flags: PageFlags)
    | UnmapAndFree(address: U64)
    | Create
    | Destroy(root: Frame)
    | Switch(root: Frame)
    | Fill(frame: Frame, content: Table)

  ghost predicate Consistent(y: System) {
    Owned(y.s, y.l, y.loose) && IsRoot(y.l, y.active)
  }

  /** Callers map frames they hold (or device frames outside the allocator's memory into the
      window), give back frames they hold, write to frames that are no tables, and do not
      destroy the active address space. */
  ghost predicate Permitted(y: System, call: Call) {
    match call
    case TakeFrame => true
    case GiveFrame(frame) => frame in y.loose
    case MapUser(root, address, frame, flags) => root in y.l.roots && frame in y.loose && flags.User()
    case MapKernel(address, frame, flags) =>
      PathOf(address).l4 == WINDOW_INDEX
      && (frame in y.loose || (frame !in y.s.frames.vacant && frame !in y.s.frames.taken))
    case UnmapAndFree(address) => Described(y.l, y.active, PathOf(address))
    case Create => true
    case Destroy(root) => root in y.l.roots && root != y.active
    case Switch(root) => IsRoot(y.l, root)
    case Fill(frame, content) => frame in y.s.frames.taken && forall p: Place :: !IsTable(y.s.memory, y.l, p, frame)
  }

  ghost function Do(y: System, call: Call): System
    requires Consistent(y) && Permitted(y, call)
  {
    SoundSystem(y);
    match call
    case TakeFrame =>
      var (frames, f) := Allocate(y.s.frames);
      if f.None? then y else y.(s := y.s.(frames := frames), loose := y.loose + {f.value})
    case GiveFrame(frame) => y.(s := y.s.(frames := Release(y.s.frames, frame)), loose := y.loose - {frame})
    case MapUser(root, address, frame, flags) =>
      var (s2, r) := MapUserPageIn(y.s, root, address, frame, flags);
      y.(s := s2, loose := if r.Ok? then y.loose - {frame} else y.loose)
    case MapKernel(address, frame, flags) =>
      var (s2, r) := MapPageIn(y.s, y.active, address, frame, flags);
      y.(s := s2, loose := if r.Ok? then y.loose - {frame} else y.loose)
    case UnmapAndFree(address) =>
      var (m2, r) := UnmapPage(y.s.memory, y.active, address);
      if r.None? then y else y.(s := Machine(m2, Release(y.s.frames, r.value)))
    case Create =>
      var (s2, r) := CreateSpace(y.s, y.active);
      if r.None? then y else y.(s := s2, l := Grown(y.l, r.value))
    case Destroy(root) => y.(s := DestroySpace(y.s, root).0, l := Shrunk(y.l, root))
    case Switch(root) => y.(active := root)
    case Fill(frame, content) => y.(s := y.s.(memory := y.s.memory[frame := content]))
  }

  lemma SoundSystem(y: System)
    requires Consistent(y)
    ensures Sound(y.s.frames)
  {
  }

  // ------------------------------------------------------------------- each call

  /** What every call keeps: the invariant, the frames in circulation, and the entries that
      make up the kernel half. */
  ghost predicate Kept(y: System, z: System) {
    && Consistent(z)
    && z.s.frames.vacant + z.s.frames.taken == y.s.frames.vacant + y.s.frames.taken
    && z.l.boot == y.l.boot && z.l.window == y.l.window
    && z.s.memory[z.l.boot] == y.s.memory[y.l.boot]
  }

  lemma UserAddressIsDescribed(l: Layout, root: Frame, address: U64)
    requires root in l.roots && UserAddress(address)
    ensures Described(l, root, PathOf(address)) && PathOf(address).l4 < 256
  {
    PathIsPage(address, address);
  }

  lemma MapKept(y: System, root: Frame, address: U64, frame: Frame, flags: PageFlags)
    requires Consistent(y) && Described(y.l, root, PathOf(address)) && (PathOf(address).l4 < 256 ==> flags.User())
    requires frame in y.loose
          || (PathOf(address).l4 >= 256 && frame !in y.s.frames.vacant && frame !in y.s.frames.taken)
    ensures Sound(y.s.frames)
    ensures var (s2, r) := MapPageIn(y.s, root, address, frame, flags);
            Kept(y, y.(s := s2, loose := if r.Ok? then y.loose - {frame} else y.loose))
  {
    hide Trees, LeavesHeld, NodesApart, Accounted, MapPageIn, Described, PathOf;
    TreesApart(y.s, y.l);
    MapRefines(y.s, y.l, root, address, frame, flags);
    MapKeepsOwned(y.s, y.l, y.loose, root, address, frame, flags);
  }

  lemma UnmapKept(y: System, address: U64)
    requires Consistent(y) && Permitted(y, UnmapAndFree(address))
    ensures Kept(y, Do(y, UnmapAndFree(address)))
  {
    hide Trees, LeavesHeld, NodesApart, Accounted, UnmapPage, Described, PathOf;
    var (m2, r) := UnmapPage(y.s.memory, y.active, address);
    UnmapRefines(y.s, y.l, y.active, address);
    UnmapKeepsOwned(y.s, y.l, y.loose, y.active, address);
    if r.Some? {
      var loose2 := if r.value in y.s.frames.taken then y.loose + {r.value} else y.loose;
      ReleaseKeepsOwned(y.s.(memory := m2), y.l, loose2, r.value);
      if r.value in y.s.frames.taken {
        UnmappedWasNotLoose(y, address);
        assert loose2 - {r.value} == y.loose;
      } else {
        LooseIsTaken(y);
        assert loose2 - {r.value} == y.loose;
      }
    }
  }

  lemma LooseIsTaken(y: System)
    requires Consistent(y)
    ensures y.loose <= y.s.frames.taken
  {
  }

  /** A mapped frame is not set aside. */
  lemma UnmappedWasNotLoose(y: System, address: U64)
    requires Consistent(y) && Described(y.l, y.active, PathOf(address))
    ensures var r := UnmapPage(y.s.memory, y.active, address).1;
            r.Some? ==> r.value !in y.loose
  {
    hide TablesApart, TablesHeld, LowerLinks, HalfShared, LeafTable, PathOf, Described, LeavesHeld, NodesApart;
    var path := PathOf(address);
    var table := LeafTable(y.s.memory, y.active, 4, path);
    UnmapTable(y.s, y.l, y.active, path);
    if table.Some? && Present(y.s.memory[table.value][path.l1]) {
      var p := TablePlace(y.l, y.active, path);
      assert IsNode(y.s.memory, y.l, Under(p, path.l1), FrameOf(y.s.memory[table.value][path.l1]));
    }
  }

  lemma CreateKept(y: System)
    requires Consistent(y)
    ensures Kept(y, Do(y, Create))
  {
    hide Trees, LeavesHeld, NodesApart, Accounted, CreateSpace;
    CreateIsEmpty(y.s, y.l, y.active);
    var (s2, r) := CreateSpace(y.s, y.active);
    if r.Some? {
      NewRootIsFree(y.s, y.active);
      NewRootKeepsOwned(y.s, s2, y.l, r.value, y.loose);
    }
  }

  lemma NewRootIsFree(s: Machine, active: Frame)
    requires Sound(s.frames)
    ensures var r := CreateSpace(s, active).1; r.Some? ==> r.value in s.frames.vacant
  {
  }

  lemma DestroyKept(y: System, root: Frame)
    requires Consistent(y) && Permitted(y, Destroy(root))
    ensures Kept(y, Do(y, Destroy(root)))
  {
    hide TablesApart, TablesHeld, LowerLinks, HalfShared, LeavesHeld, NodesApart, Accounted, DestroySpace;
    DestroyKeepsOwned(y.s, y.l, root, y.loose);
    DestroyKeepsTrees(y.s, y.l, root);
    DestroyFrees(y.s, y.l, root);
  }

  lemma FillKept(y: System, frame: Frame, content: Table)
    requires Consistent(y) && Permitted(y, Fill(frame, content))
    ensures Kept(y, Do(y, Fill(frame, content)))
    ensures SameTranslations(y.s.memory, Do(y, Fill(frame, content)).s.memory, y.l)
  {
    hide IsNode, TablesApart, TablesHeld, LowerLinks, HalfShared, SameTranslations;
    var z := Do(y, Fill(frame, content));
    FillNodes(y.s, y.l, frame, content);
    FillKeepsTrees(y.s, y.l, frame, content);
    FillKeepsTranslations(y.s, y.l, frame, content);
    forall q: Place, f: Frame | IsNode(z.s.memory, z.l, q, f) && Height(q) == 0 ensures LeafHeld(z.s, q, f) {
      assert IsNode(y.s.memory, y.l, q, f);
      assert LeafHeld(y.s, q, f);
    }
    assert forall q: Place, g: Frame :: IsNode(z.s.memory, z.l, q, g) <==> IsNode(y.s.memory, y.l, q, g);
    assert NodesApart(z.s, z.l);
    forall f: Frame | f in z.s.frames.taken ensures f in z.loose <==> !Mapped(z.s.memory, z.l, f) {
      if Mapped(y.s.memory, y.l, f) {
        var q: Place :| IsNode(y.s.memory, y.l, q, f);
        assert IsNode(z.s.memory, z.l, q, f);
      }
    }
  }

  /** Data may be written to any frame that is no table. */
  lemma FillNodes(s: Machine, l: Layout, frame: Frame, content: Table)
    requires Trees(s, l) && forall p: Place :: !IsTable(s.memory, l, p, frame)
    ensures forall q: Place, g: Frame :: IsNode(s.memory[frame := content], l, q, g) <==> IsNode(s.memory, l, q, g)
  {
    hide NodeAt, TablesApart, LowerLinks, HalfShared;
    if l.boot in l.roots {
      RootsAreTaken(s, l, l.boot);
    }
    forall q: Place, g: Frame ensures IsNode(s.memory[frame := content], l, q, g) <==> IsNode(s.memory, l, q, g) {
      if InTree(l, q) {
        BootIsNoPlace(l, q);
        FramesKeepNode(s.memory, s.memory[frame := content], l, {frame}, Root(l.boot), q);
      }
    }
  }

  lemma FillKeepsTrees(s: Machine, l: Layout, frame: Frame, content: Table)
    requires Trees(s, l) && frame in s.frames.taken && forall p: Place :: !IsTable(s.memory, l, p, frame)
    ensures Trees(s.(memory := s.memory[frame := content]), l)
    ensures s.memory[frame := content][l.boot] == s.memory[l.boot]
  {
    hide NodeAt;
    var m2 := s.memory[frame := content];
    FillNodes(s, l, frame, content);
    assert forall q: Place, f: Frame :: IsTable(m2, l, q, f) ==> IsTable(s.memory, l, q, f);
    forall q: Place, f: Frame | IsTable(m2, l, q, f) ensures Held(s.(memory := m2), l, q, f) {
      assert Held(s, l, q, f);
    }
    forall q: Place, f: Frame, i: Index |
      IsTable(m2, l, q, f) && Lower(q) && Height(q) >= 2 && (q.Root? ==> i < 256) && Present(m2[f][i])
      ensures !Huge(m2[f][i]) && UserBit(m2[f][i])
    {
      assert IsTable(s.memory, l, q, f);
    }
    forall r: Frame, i: Index | r in l.roots && 256 <= i ensures m2[r][i] == m2[l.boot][i] {
      RootIsTable(s, l, r);
    }
  }

  lemma RootIsTable(s: Machine, l: Layout, r: Frame)
    requires r in l.roots
    ensures IsTable(s.memory, l, Root(r), r)
  {
  }

  lemma FillKeepsTranslations(s: Machine, l: Layout, frame: Frame, content: Table)
    requires Trees(s, l) && frame in s.frames.taken && (forall p: Place :: !IsTable(s.memory, l, p, frame))
    ensures SameTranslations(s.memory, s.memory[frame := content], l)
  {
    hide NodeAt, Walk, TablesApart, LowerLinks, TablesHeld;
    var m2 := s.memory[frame := content];
    FillKeepsTrees(s, l, frame, content);
    if l.boot in l.roots {
      TreesApart(s, l);
      RootsAreTaken(s, l, l.boot);
    }
    forall r: Frame, path: Path | Described(l, r, path) ensures Translate(m2, r, path) == Translate(s.memory, r, path) {
      TranslateIs(s.memory, l, r, path);
      TranslateIs(m2, l, r, path);
      var q := Entrance(l, r, path);
      var t := if path.l4 == WINDOW_INDEX then l.window else r;
      PageOnInTree(l, q, path);
      BootIsNoPlace(l, PageOn(q, path));
      FramesKeepWalk(s.memory, m2, l, {frame}, Root(l.boot), q, t, path,
                     path.l4 == WINDOW_INDEX ==> UserBit(s.memory[l.boot][WINDOW_INDEX]));
    }
  }

  lemma TakeKept(y: System)
    requires Consistent(y)
    ensures Kept(y, Do(y, TakeFrame))
  {
    hide Trees, LeavesHeld, NodesApart, Accounted;
    SoundSystem(y);
    if y.s.frames.vacant != {} {
      AllocateKeepsOwned(y.s, y.l, y.loose);
      StepKeepsCirculation(y.s.frames, Take);
    }
  }

  lemma GiveKept(y: System, frame: Frame)
    requires Consistent(y) && Permitted(y, GiveFrame(frame))
    ensures Kept(y, Do(y, GiveFrame(frame)))
  {
    hide Trees, LeavesHeld, NodesApart, Accounted;
    LooseIsTaken(y);
    ReleaseKeepsOwned(y.s, y.l, y.loose, frame);
  }

  lemma MapUserKept(y: System, root: Frame, address: U64, frame: Frame, flags: PageFlags)
    requires Consistent(y) && Permitted(y, MapUser(root, address, frame, flags))
    ensures Kept(y, Do(y, MapUser(root, address, frame, flags)))
  {
    hide Owned, MapPageIn, PathOf, Described;
    SoundSystem(y);
    if UserAddress(address) {
      UserAddressIsDescribed(y.l, root, address);
      MapKept(y, root, address, frame, flags);
    }
  }

  lemma MapKernelKept(y: System, address: U64, frame: Frame, flags: PageFlags)
    requires Consistent(y) && Permitted(y, MapKernel(address, frame, flags))
    ensures Kept(y, Do(y, MapKernel(address, frame, flags)))
  {
    hide Owned, MapPageIn, PathOf, Described;
    SoundSystem(y);
    WindowIsDescribed(y, address);
    MapKept(y, y.active, address, frame, flags);
  }

  /** Every permitted call keeps the invariant. */
  lemma CallKept(y: System, call: Call)
    requires Consistent(y) && Permitted(y, call)
    ensures Kept(y, Do(y, call))
  {
    hide Permitted, Owned;
    match call
    case TakeFrame => TakeKept(y);
    case GiveFrame(frame) => GiveKept(y, frame);
    case MapUser(root, address, frame, flags) => MapUserKept(y, root, address, frame, flags);
    case MapKernel(address, frame, flags) => MapKernelKept(y, address, frame, flags);
    case UnmapAndFree(address) => UnmapKept(y, address);
    case Create => CreateKept(y);
    case Destroy(root) => DestroyKept(y, root);
    case Switch(root) => SwitchKept(y, root);
    case Fill(frame, content) => FillKept(y, frame, content);
  }

  lemma SwitchKept(y: System, root: Frame)
    requires Consistent(y) && Permitted(y, Switch(root))
    ensures Kept(y, Do(y, Switch(root)))
  {
    hide Owned;
  }

  lemma WindowIsDescribed(y: System, address: U64)
    requires Consistent(y) && PathOf(address).l4 == WINDOW_INDEX
    ensures Described(y.l, y.active, PathOf(address))
  {
  }

  // ------------------------------------------------------------------------ runs

  ghost predicate PermittedRun(y: System, calls: seq<Call>)
    requires Consistent(y)
    decreases |calls|
  {
    calls == [] ||
    (Permitted(y, calls[0]) && (CallKept(y, calls[0]); PermittedRun(Do(y, calls[0]), calls[1..])))
  }

  ghost function Run(y: System, calls: seq<Call>): (z: System)
    requires Consistent(y) && PermittedRun(y, calls)
    ensures Consistent(z)
    decreases |calls|
  {
    if calls == [] then y
    else
      CallKept(y, calls[0]);
      Run(Do(y, calls[0]), calls[1..])
  }

  lemma {:induction false} RunKept(y: System, calls: seq<Call>)
    requires Consistent(y) && PermittedRun(y, calls)
    ensures Kept(y, Run(y, calls))
    decreases |calls|
  {
    hide Consistent, Do;
    if calls != [] {
      CallKept(y, calls[0]);
      RunKept(Do(y, calls[0]), calls[1..]);
    }
  }

  /** After any run the free frames are exactly the frames in circulation that no tree uses
      and no caller holds. */
  lemma FreeIsWhatIsUnused(y: System, calls: seq<Call>, f: Frame)
    requires Consistent(y) && PermittedRun(y, calls)
    ensures var z := Run(y, calls);
            f in z.s.frames.vacant <==>
              f in y.s.frames.vacant + y.s.frames.taken && f !in z.loose && !Mapped(z.s.memory, z.l, f)
  {
    hide TablesApart, LowerLinks, HalfShared, NodesApart, Run, PermittedRun;
    var z := Run(y, calls);
    RunKept(y, calls);
    assert f in y.s.frames.vacant + y.s.frames.taken <==> f in z.s.frames.vacant || f in z.s.frames.taken;
    if f in z.s.frames.vacant {
      FreeIsNoNode(z.s, z.l, f);
    }
  }

  /** Once every address space has been destroyed, only the kernel window and frames that
      callers still hold are missing from the free frames. */
  lemma NothingIsLost(y: System, calls: seq<Call>, f: Frame)
    requires Consistent(y) && PermittedRun(y, calls) && Run(y, calls).l.roots == {}
    requires f in y.s.frames.vacant + y.s.frames.taken
    ensures var z := Run(y, calls);
            f in z.s.frames.vacant || f in z.loose
            || exists p: Place :: IsNode(z.s.memory, z.l, p, f) && Within(p, Window(z.l.window))
  {
    hide Run, PermittedRun, Consistent, IsNode;
    var z := Run(y, calls);
    FreeIsWhatIsUnused(y, calls, f);
    if Mapped(z.s.memory, z.l, f) {
      var p: Place :| IsNode(z.s.memory, z.l, p, f);
      NodeInTree(z.s.memory, z.l, p, f);
      OnlyWindow(z.l, p);
    }
  }

  lemma NodeInTree(m: Memory, l: Layout, p: Place, f: Frame)
    requires IsNode(m, l, p, f)
    ensures InTree(l, p)
  {
  }

  lemma {:induction false} OnlyWindow(l: Layout, p: Place)
    requires InTree(l, p) && l.roots == {}
    ensures Within(p, Window(l.window))
  {
    if p.Under? {
      OnlyWindow(l, p.parent);
    }
  }

  /** In every later state, all roots translate every upper-half address alike, through the
      entries the boot root had when the window was set up. */
  lemma KernelHalfStaysShared(y: System, calls: seq<Call>, r: Frame, path: Path)
    requires Consistent(y) && PermittedRun(y, calls) && path.l4 >= 256 && IsRoot(Run(y, calls).l, r)
    ensures var z := Run(y, calls);
            && Translate(z.s.memory, r, path) == Translate(z.s.memory, y.l.boot, path)
            && z.s.memory[r][path.l4] == y.s.memory[y.l.boot][path.l4]
  {
    hide Run, PermittedRun, Translate, Walk;
    var z := Run(y, calls);
    RunKept(y, calls);
    KernelHalfAgrees(z.s.memory, z.l, r, z.l.boot, path);
    var i: Index := path.l4;
    assert r in z.l.roots ==> z.s.memory[r][i] == z.s.memory[z.l.boot][i];
  }

  // ------------------------------------------------------------------------ boot

  /** What the boot loader leaves behind.  Its root is not memory the allocator gives out,
      and what it may already have put under entry 510 is a separate tree of such memory. */
  ghost predicate BootLoaded(s: Machine, boot: Frame) {
    && Sound(s.frames) && s.frames.taken == {}
    && boot !in s.frames.vacant && VGA_FRAME !in s.frames.vacant
    && var e := s.memory[boot][WINDOW_INDEX];
       Target(4, e).Some? ==>
         var l := Layout(boot, FrameOf(e), {});
         TablesApart(s.memory, l) && TablesHeld(s, l) && LeavesHeld(s, l)
  }

  /** A machine with one empty window table. */
  ghost predicate FreshWindow(s: Machine, l: Layout) {
    && l.roots == {} && s.memory[l.window] == ZeroTable()
    && s.frames.taken == {l.window} && Sound(s.frames)
    && l.boot !in s.frames.vacant && l.boot != l.window
    && Target(4, s.memory[l.boot][WINDOW_INDEX]) == Some(l.window)
  }

  lemma {:induction false} FreshWindowNodes(s: Machine, l: Layout, q: Place)
    requires FreshWindow(s, l) && InTree(l, q)
    ensures NodeAt(s.memory, q) == if q == Window(l.window) then Some(l.window) else None
  {
    if q.Under? {
      FreshWindowNodes(s, l, q.parent);
    }
  }

  lemma FreshWindowOwned(s: Machine, l: Layout)
    requires FreshWindow(s, l)
    ensures Owned(s, l, {})
  {
    hide NodeAt;
    forall q: Place, g: Frame ensures IsNode(s.memory, l, q, g) <==> q == Window(l.window) && g == l.window {
      if InTree(l, q) {
        FreshWindowNodes(s, l, q);
      }
    }
    forall p: Place, f: Frame | IsTable(s.memory, l, p, f) ensures Held(s, l, p, f) {
    }
    assert IsNode(s.memory, l, Window(l.window), l.window);
  }

  /** `initialize_virtual_memory`, when it succeeds, establishes the invariant. */
  lemma InitializeEstablishes(s: Machine, boot: Frame) returns (l: Layout)
    requires BootLoaded(s, boot)
    requires MapPageIn(s, boot, DEVICE_WINDOW_BASE, VGA_FRAME, Device).1.Ok?
    ensures var s2 := MapPageIn(s, boot, DEVICE_WINDOW_BASE, VGA_FRAME, Device).0;
            l.boot == boot && l.roots == {} && Consistent(System(s2, l, {}, boot))
  {
    hide Walk, LeavesHeld, NodesApart, TablesApart, TablesHeld, Accounted;
    var none: set<nat> := {};
    assert none - {VGA_FRAME} == none;
    var path := PathOf(DEVICE_WINDOW_BASE);
    assert path.l4 == WINDOW_INDEX;
    var e := s.memory[boot][WINDOW_INDEX];
    if Present(e) {
      l := Layout(boot, FrameOf(e), {});
      BootTreeOwned(s, l);
      MapKept(System(s, l, {}, boot), boot, DEVICE_WINDOW_BASE, VGA_FRAME, Device);
    } else {
      var f := Lowest(s.frames.vacant);
      l := Layout(boot, f, {});
      var s1 := LinkedState(s, boot, WINDOW_INDEX, f, false);
      TableEntryFields(f, false);
      assert Descend(s, boot, WINDOW_INDEX, false) == (s1, Ok(f));
      FreshWindowOwned(s1, l);
      assert WalkDown(s, boot, 4, path, false) == WalkDown(s1, f, 3, path, false);
      ThroughWindow(s1, l, boot, path, false);
      MapKept(System(s1, l, {}, boot), boot, DEVICE_WINDOW_BASE, VGA_FRAME, Device);
    }
  }

  lemma BootTreeOwned(s: Machine, l: Layout)
    requires BootLoaded(s, l.boot) && l.roots == {} && Target(4, s.memory[l.boot][WINDOW_INDEX]) == Some(l.window)
    ensures Owned(s, l, {})
  {
    hide NodeAt;
    forall p: Place, f: Frame ensures IsTable(s.memory, l, p, f) ==> !Lower(p) {
      if InTree(l, p) {
        OnlyWindow(l, p);
        WithinLower(p, Window(l.window));
      }
    }
  }
}
