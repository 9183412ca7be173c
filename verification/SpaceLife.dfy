/** Unmapping a page, creating an address space, and the checks on user addresses. */
module SpaceLife {
  import opened Wrappers
  import opened Words
  import opened FrameSets
  import opened PageWords
  import opened PageTree
  import opened AddressSpaces
  import opened PageLinks
  import opened PageWalks
  import opened PageLeaves
  import opened Mapping
  import opened FiniteMap

  // --------------------------------------------------------------------- unmapping

  lemma {:induction false} LeafTableIs(m: Memory, l: Layout, q: Place, t: Frame, path: Path, user: bool)
    requires WalksFrom(m, l, q, t, path)
    ensures var r := LeafTable(m, t, Height(q), path);
            var w := Walk(m, t, Height(q), path, user);
            && (r.Some? ==> IsTable(m, l, LeafTablePlace(q, path), r.value))
            && (r.None? ==> w == None || w.value.height >= 2)
    decreases Height(q)
  {
    if Height(q) >= 2 {
      NextTable(m, l, q, t, path);
      var e := m[t][IndexAt(path, Height(q))];
      if Present(e) && !Huge(e) {
        LeafTableIs(m, l, Under(q, IndexAt(path, Height(q))), FrameOf(e), path, user && UserBit(e));
      }
    }
  }

  lemma UnmapTable(s: Machine, l: Layout, root: Frame, path: Path)
    requires Trees(s, l) && Described(l, root, path)
    ensures var table := LeafTable(s.memory, root, 4, path);
            var was := Translate(s.memory, root, path);
            && (table.Some? ==> AtLeaf(s.memory, l, TablePlace(l, root, path), table.value, path.l1))
            && (table.None? ==> was == None || was.value.height >= 2)
  {
    hide Walk, LeafTable;
    var q := Entrance(l, root, path);
    var t := if path.l4 == WINDOW_INDEX then l.window else root;
    TranslateIs(s.memory, l, root, path);
    LeafTableIs(s.memory, l, q, t, path, path.l4 == WINDOW_INDEX ==> UserBit(s.memory[l.boot][WINDOW_INDEX]));
    if path.l4 == WINDOW_INDEX {
      ThroughWindow(s, l, root, path, true);
    }
    TablePlaceOfPage(l, root, path);
  }

  /** `unmap_page` removes exactly the pages that are mapped, one at a time, and answers
      with the frame that was mapped. */
  lemma UnmapRefines(s: Machine, l: Layout, root: Frame, address: U64)
    requires Trees(s, l) && Described(l, root, PathOf(address))
    ensures var path := PathOf(address);
            var (m2, r) := UnmapPage(s.memory, root, address);
            var was := Translate(s.memory, root, path);
            && Trees(s.(memory := m2), l) && m2[l.boot] == s.memory[l.boot]
            && (r.Some? <==> was.Some? && was.value.height == 1)
            && (r.Some? ==> r.value == FrameOf(was.value.entry) && Translate(m2, root, path) == None)
            && (r.None? ==> m2 == s.memory)
            && OthersKept(s.memory, m2, l, root, path)
            && ChangesTables(s.memory, m2, l)
  {
    hide Walk, LeafTable, Trees, Described, PathOf, FrameOf;
    var path := PathOf(address);
    var table := LeafTable(s.memory, root, 4, path);
    UnmapTable(s, l, root, path);
    TablePlaceOfPage(l, root, path);
    TreesApart(s, l);
    var p := TablePlace(l, root, path);
    if table.Some? {
      LeafTranslates(s, l, p, table.value, path.l1, root, path);
      var s2 := s.(memory := WithEntry(s.memory, table.value, path.l1, 0));
      LeafKeepsTrees(s, l, p, table.value, path.l1, 0);
      LeafNodes(s.memory, l, p, table.value, path.l1, 0);
      assert IsNode(s2.memory, l, p, table.value);
      LeafTranslates(s2, l, p, table.value, path.l1, root, path);
      ChangesOnePage(s, l, root, path, table.value, 0);
      assert ChangesTables(s.memory, s.memory, l);
      LeafChangesTables(s.memory, s, l, p, table.value, path.l1, 0);
    }
  }

  lemma UnmapKeepsOwned(s: Machine, l: Layout, loose: set<nat>, root: Frame, address: U64)
    requires Owned(s, l, loose) && Described(l, root, PathOf(address))
    ensures var (m2, r) := UnmapPage(s.memory, root, address);
            Owned(s.(memory := m2), l, if r.Some? && r.value in s.frames.taken then loose + {r.value} else loose)
  {
    hide Walk, LeafTable, Trees, NodesApart, LeavesHeld, Accounted, Described, PathOf, FrameOf;
    var path := PathOf(address);
    var table := LeafTable(s.memory, root, 4, path);
    UnmapTable(s, l, root, path);
    if table.Some? && Present(s.memory[table.value][path.l1]) {
      ClearedLeafKeepsOwned(s, l, loose, TablePlace(l, root, path), table.value, path.l1);
    }
  }

  /** Giving back a set-aside frame. */
  lemma ReleaseKeepsOwned(s: Machine, l: Layout, loose: set<nat>, f: Frame)
    requires Owned(s, l, loose) && (f in s.frames.taken ==> f in loose)
    ensures Owned(s.(frames := Release(s.frames, f)), l, loose - {f})
  {
    hide TablesApart, LowerLinks, HalfShared, NodeAt;
    var s2 := s.(frames := Release(s.frames, f));
    if f in s.frames.taken {
      assert !Mapped(s.memory, l, f);
      forall q: Place, g: Frame | IsTable(s.memory, l, q, g) ensures Held(s2, l, q, g) {
        assert Held(s, l, q, g);
      }
      forall q: Place, g: Frame | IsNode(s.memory, l, q, g) && Height(q) == 0 ensures LeafHeld(s2, q, g) {
        assert LeafHeld(s, q, g);
      }
      assert l.boot != f;
    }
  }

  /** Setting a frame aside. */
  lemma AllocateKeepsOwned(s: Machine, l: Layout, loose: set<nat>)
    requires Owned(s, l, loose) && s.frames.vacant != {}
    ensures var (frames, f) := Allocate(s.frames);
            f.Some? && Owned(s.(frames := frames), l, loose + {f.value})
  {
    hide TablesApart, LowerLinks, HalfShared, NodeAt;
    var (frames, f) := Allocate(s.frames);
    var s2 := s.(frames := frames);
    FreeIsNoNode(s, l, f.value);
    forall q: Place, g: Frame | IsTable(s.memory, l, q, g) ensures Held(s2, l, q, g) {
      assert Held(s, l, q, g);
    }
    forall q: Place, g: Frame | IsNode(s.memory, l, q, g) && Height(q) == 0 ensures LeafHeld(s2, q, g) {
      assert LeafHeld(s, q, g);
    }
    forall q: Place, r: Place, g: Frame | IsNode(s.memory, l, q, g) && IsNode(s.memory, l, r, g) && g in s2.frames.taken
      ensures q == r
    {
      assert g in s.frames.taken;
    }
  }

  // ---------------------------------------------------------------- a new root

  function Grown(l: Layout, f: Frame): Layout {
    l.(roots := l.roots + {f})
  }

  lemma {:induction false} GrownTree(l: Layout, f: Frame, q: Place)
    requires f !in l.roots
    ensures InTree(Grown(l, f), q) <==> InTree(l, q) || (Within(q, Root(f)) && InTree(Grown(l, f), q))
    ensures InTree(l, q) ==> !Within(q, Root(f)) && InTree(Grown(l, f), q)
  {
    if q.Under? {
      GrownTree(l, f, q.parent);
    }
  }

  /** Memory after the free frame `f` became the root of an empty user half. */
  ghost predicate EmptyRoot(m: Memory, m2: Memory, l: Layout, f: Frame) {
    && (forall g: Frame | g != f :: m2[g] == m[g])
    && (forall i: Index | i < 256 :: m2[f][i] == 0)
    && (forall i: Index | 256 <= i :: m2[f][i] == m[l.boot][i])
  }

  lemma {:induction false} NothingInEmptyRoot(m: Memory, m2: Memory, l: Layout, f: Frame, q: Place)
    requires EmptyRoot(m, m2, l, f) && InTree(Grown(l, f), q) && Within(q, Root(f))
    ensures NodeAt(m2, q) == if q == Root(f) then Some(f) else None
  {
    if q != Root(f) {
      NothingInEmptyRoot(m, m2, l, f, q.parent);
    }
  }

  lemma NewRootNodes(s: Machine, m2: Memory, l: Layout, f: Frame)
    requires TablesHeld(s, l) && f in s.frames.vacant && f !in l.roots && EmptyRoot(s.memory, m2, l, f)
    ensures forall q: Place, g: Frame :: IsNode(m2, Grown(l, f), q, g) <==> IsNode(s.memory, l, q, g) || (q == Root(f) && g == f)
  {
    FreeIsNoTable(s, l, f);
    forall q: Place, g: Frame
      ensures IsNode(m2, Grown(l, f), q, g) <==> IsNode(s.memory, l, q, g) || (q == Root(f) && g == f)
    {
      GrownTree(l, f, q);
      if InTree(l, q) {
        FramesKeepNode(s.memory, m2, l, {f}, Root(f), q);
      } else if InTree(Grown(l, f), q) {
        NothingInEmptyRoot(s.memory, m2, l, f, q);
      }
    }
  }

  lemma RootsAreTaken(s: Machine, l: Layout, r: Frame)
    requires TablesHeld(s, l) && r in l.roots
    ensures r in s.frames.taken && r !in s.frames.vacant && r != l.boot
  {
    assert IsTable(s.memory, l, Root(r), r);
    assert Held(s, l, Root(r), r);
  }

  lemma NewRootKeepsTrees(s: Machine, s2: Machine, l: Layout, f: Frame)
    requires Trees(s, l) && f in s.frames.vacant && EmptyRoot(s.memory, s2.memory, l, f)
    requires s2.frames == Frames(s.frames.vacant - {f}, s.frames.taken + {f})
    ensures f !in l.roots && Trees(s2, Grown(l, f))
  {
    hide NodeAt;
    var l2 := Grown(l, f);
    if f in l.roots {
      RootsAreTaken(s, l, f);
    }
    NewRootNodes(s, s2.memory, l, f);
    FreeIsNoTable(s, l, f);
    forall q: Place, g: Frame | IsTable(s2.memory, l2, q, g) ensures Held(s2, l2, q, g) {
      assert IsTable(s.memory, l, q, g) ==> Held(s, l, q, g);
    }
    forall q: Place, r: Place, g: Frame | IsTable(s2.memory, l2, q, g) && IsTable(s2.memory, l2, r, g) ensures q == r {
      assert IsTable(s.memory, l, q, g) || (q == Root(f) && g == f);
      assert IsTable(s.memory, l, r, g) || (r == Root(f) && g == f);
    }
    forall q: Place, g: Frame, i: Index |
      IsTable(s2.memory, l2, q, g) && Lower(q) && Height(q) >= 2 && (q.Root? ==> i < 256) && Present(s2.memory[g][i])
      ensures !Huge(s2.memory[g][i]) && UserBit(s2.memory[g][i])
    {
      assert IsTable(s.memory, l, q, g) || (q == Root(f) && g == f);
    }
  }

  lemma NewRootKeepsOwned(s: Machine, s2: Machine, l: Layout, f: Frame, loose: set<nat>)
    requires Owned(s, l, loose) && f in s.frames.vacant && EmptyRoot(s.memory, s2.memory, l, f)
    requires s2.frames == Frames(s.frames.vacant - {f}, s.frames.taken + {f})
    ensures Owned(s2, Grown(l, f), loose)
  {
    hide NodeAt, TablesApart, LowerLinks, HalfShared;
    var l2 := Grown(l, f);
    NewRootKeepsTrees(s, s2, l, f);
    NewRootNodes(s, s2.memory, l, f);
    FreeIsNoNode(s, l, f);
    forall q: Place, g: Frame | IsNode(s2.memory, l2, q, g) && Height(q) == 0 ensures LeafHeld(s2, q, g) {
      assert IsNode(s.memory, l, q, g);
      assert LeafHeld(s, q, g);
    }
    forall q: Place, r: Place, g: Frame | IsNode(s2.memory, l2, q, g) && IsNode(s2.memory, l2, r, g) && g in s2.frames.taken
      ensures q == r
    {
      assert IsNode(s.memory, l, q, g) || (q == Root(f) && g == f);
      assert IsNode(s.memory, l, r, g) || (r == Root(f) && g == f);
    }
    forall g: Frame | g in s2.frames.taken ensures g in loose <==> !Mapped(s2.memory, l2, g) {
      if g == f {
        assert IsNode(s2.memory, l2, Root(f), f);
      } else if Mapped(s.memory, l, g) {
        var q: Place :| IsNode(s.memory, l, q, g);
        assert IsNode(s2.memory, l2, q, g);
      }
    }
  }

  /** Walks that do not start at the new root are as before. */
  lemma NewRootKeepsTranslations(s: Machine, s2: Machine, l: Layout, f: Frame)
    requires Trees(s, l) && f in s.frames.vacant && EmptyRoot(s.memory, s2.memory, l, f)
    requires s2.frames == Frames(s.frames.vacant - {f}, s.frames.taken + {f})
    ensures SameTranslations(s.memory, s2.memory, l)
  {
    hide Walk, NodeAt, TablesApart, LowerLinks;
    NewRootKeepsTrees(s, s2, l, f);
    FreeIsNoTable(s, l, f);
    forall root: Frame, path: Path | Described(l, root, path) ensures Translate(s2.memory, root, path) == Translate(s.memory, root, path) {
      TranslateIs(s.memory, l, root, path);
      TranslateIs(s2.memory, Grown(l, f), root, path);
      var q := Entrance(l, root, path);
      var t := if path.l4 == WINDOW_INDEX then l.window else root;
      PageOnInTree(l, q, path);
      GrownTree(l, f, PageOn(q, path));
      FramesKeepWalk(s.memory, s2.memory, l, {f}, Root(f), q, t, path,
                     path.l4 == WINDOW_INDEX ==> UserBit(s.memory[l.boot][WINDOW_INDEX]));
    }
  }

  /** `create_user_address_space` from any root gives a root with an empty user half and
      everybody's kernel half; no other translation changes. */
  lemma CreateIsEmpty(s: Machine, l: Layout, active: Frame)
    requires Trees(s, l) && IsRoot(l, active)
    ensures Sound(s.frames)
    ensures var (s2, r) := CreateSpace(s, active);
            && (r.None? <==> s.frames.vacant == {})
            && (r.None? ==> s2 == s)
            && (r.Some? ==> var l2 := Grown(l, r.value);
                  && r.value !in l.roots && Trees(s2, l2) && SameTranslations(s.memory, s2.memory, l)
                  && s2.memory[l.boot] == s.memory[l.boot]
                  && (forall path: Path | path.l4 < 256 :: Translate(s2.memory, r.value, path) == None)
                  && EmptyRoot(s.memory, s2.memory, l, r.value)
                  && s2.frames == Frames(s.frames.vacant - {r.value}, s.frames.taken + {r.value}))
  {
    hide Walk, TablesApart, TablesHeld, LowerLinks;
    if s.frames.vacant != {} {
      var (s2, r) := CreateSpace(s, active);
      var f := r.value;
      if active in l.roots {
        TreesApart(s, l);
        RootsAreTaken(s, l, active);
      }
      assert EmptyRoot(s.memory, s2.memory, l, f);
      NewRootKeepsTrees(s, s2, l, f);
      NewRootKeepsTranslations(s, s2, l, f);
      forall path: Path | path.l4 < 256 ensures Translate(s2.memory, f, path) == None {
        WalkAtZero(s2.memory, f, path);
      }
    }
  }

  lemma WalkAtZero(m: Memory, f: Frame, path: Path)
    requires m[f][path.l4] == 0
    ensures Translate(m, f, path) == None
  {
  }

  // ----------------------------------------------------------- the kernel half

  /** All roots translate every upper-half address alike. */
  lemma KernelHalfAgrees(m: Memory, l: Layout, r1: Frame, r2: Frame, path: Path)
    requires HalfShared(m, l) && IsRoot(l, r1) && IsRoot(l, r2) && path.l4 >= 256
    ensures Translate(m, r1, path) == Translate(m, r2, path)
  {
    var i: Index := path.l4;
    assert r1 in l.roots ==> m[r1][i] == m[l.boot][i];
    assert r2 in l.roots ==> m[r2][i] == m[l.boot][i];
  }

  // ------------------------------------------------- is_user_mapped, is_user_executable

  /** The leaf table of a walk whose links all have PRESENT and USER and no HUGE_PAGE. */
  function UserTable(m: Memory, table: Frame, height: nat, path: Path): Option<Frame>
    decreases height
  {
    if height <= 1 then Some(table)
    else
      var e := m[table][IndexAt(path, height)];
      if Present(e) && UserBit(e) && !Huge(e) then UserTable(m, FrameOf(e), height - 1, path) else None
  }

  predicate IsUserMapped(m: Memory, root: Frame, address: U64) {
    UserAddress(address) &&
    match UserTable(m, root, 4, PathOf(address))
    case None => false
    case Some(table) => var leaf := m[table][PathOf(address).l1]; Present(leaf) && UserBit(leaf)
  }

  predicate IsUserExecutable(m: Memory, root: Frame, address: U64) {
    UserAddress(address) &&
    match UserTable(m, root, 4, PathOf(address))
    case None => false
    case Some(table) =>
      var leaf := m[table][PathOf(address).l1];
      Present(leaf) && UserBit(leaf) && !NoExecute(leaf)
  }

  /** The checks accept exactly the addresses of the user half that the processor lets user
      code reach through 4 KiB pages. */
  lemma UserChecksAreExact(m: Memory, root: Frame, address: U64)
    ensures IsUserMapped(m, root, address) <==>
            UserAddress(address) && var r := Translate(m, root, PathOf(address)); r.Some? && r.value.height == 1 && r.value.user
    ensures IsUserExecutable(m, root, address) <==>
            IsUserMapped(m, root, address) && !NoExecute(Translate(m, root, PathOf(address)).value.entry)
  {
    UserTableIsWalk(m, root, 4, PathOf(address), true);
  }

  lemma {:induction false} UserTableIsWalk(m: Memory, table: Frame, height: nat, path: Path, user: bool)
    requires height >= 1
    ensures var t := UserTable(m, table, height, path);
            var r := Walk(m, table, height, path, user);
            && (t.None? ==> r == None || r.value.height >= 2 || !r.value.user)
            && (t.Some? ==> var e := m[t.value][path.l1]; r == if Present(e) then Some(Leaf(e, 1, user && UserBit(e))) else None)
    decreases height
  {
    if height >= 2 {
      var e := m[table][IndexAt(path, height)];
      if Present(e) && !Huge(e) {
        UserTableIsWalk(m, FrameOf(e), height - 1, path, user && UserBit(e));
        if !UserBit(e) {
          NeverUser(m, FrameOf(e), height - 1, path);
        }
      }
    }
  }

  lemma {:induction false} NeverUser(m: Memory, table: Frame, height: nat, path: Path)
    ensures var r := Walk(m, table, height, path, false); r.Some? ==> !r.value.user
    decreases height
  {
    var e := m[table][IndexAt(path, height)];
    if Present(e) && height > 1 && !Huge(e) {
      NeverUser(m, FrameOf(e), height - 1, path);
    }
  }
}
