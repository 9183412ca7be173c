/** The mapping operations as operations on a finite map from pages to leaf entries. */
module FiniteMap {
  import opened Wrappers
  import opened Words
  import opened FrameSets
  import opened PageWords
  import opened PageTree
  import opened AddressSpaces
  import opened PageWalks
  import opened PageLeaves
  import opened Mapping

  /** The walk through the window starts at the window's own table. */
  lemma ThroughWindow(s: Machine, l: Layout, root: Frame, path: Path, user: bool)
    requires HalfShared(s.memory, l) && Sound(s.frames) && IsRoot(l, root) && path.l4 == WINDOW_INDEX
    ensures WalkDown(s, root, 4, path, user) == WalkDown(s, l.window, 3, path, user)
    ensures LeafTable(s.memory, root, 4, path) == LeafTable(s.memory, l.window, 3, path)
    ensures MissingTables(s.memory, root, 4, path) == MissingTables(s.memory, l.window, 3, path)
  {
    assert s.memory[root][WINDOW_INDEX] == s.memory[l.boot][WINDOW_INDEX];
  }

  /** The table whose entry maps an address. */
  function TablePlace(l: Layout, root: Frame, path: Path): Place {
    LeafTablePlace(Entrance(l, root, path), path)
  }

  lemma TablePlaceOfPage(l: Layout, root: Frame, path: Path)
    requires Described(l, root, path)
    ensures var p := TablePlace(l, root, path);
            InTree(l, p) && Height(p) == 1 && PagePlace(l, root, path) == Under(p, path.l1)
            && InTree(l, Under(p, path.l1)) && (Lower(p) <==> path.l4 < 256)
  {
    PageOnTable(l, Entrance(l, root, path), path);
  }

  /** How the descent of `map_page_in` ends. */
  lemma DescentFromRoot(s: Machine, l: Layout, root: Frame, path: Path, user: bool)
    requires Trees(s, l) && Sound(s.frames) && HalfShared(s.memory, l) && Described(l, root, path) && (path.l4 < 256 ==> user)
    ensures var (s2, table) := WalkDown(s, root, 4, path, user);
            var was := Translate(s.memory, root, path);
            && Trees(s2, l) && OnlyLinked(s, s2, l) && KeepsOwned(s, s2, l)
            && (table.Ok? ==> AtLeaf(s2.memory, l, TablePlace(l, root, path), table.value, path.l1))
            && (table.Err? ==> table.error != AlreadyMapped && table.error != InvalidUserAddress)
            && (table == Err(FrameAllocationFailed) ==> s2.frames.vacant == {} && was == None)
            && (table == Err(FrameAllocationFailed) <==> |s.frames.vacant| < MissingTables(s.memory, root, 4, path))
            && (table.Ok? ==> |s2.frames.vacant| == |s.frames.vacant| - MissingTables(s.memory, root, 4, path))
            && (table == Err(HugePageConflict) <==> was.Some? && was.value.height >= 2)
  {
    hide Walk, WalkDown, MissingTables, Trees, OnlyLinked, KeepsOwned, HalfShared;
    var q := Entrance(l, root, path);
    var t := if path.l4 == WINDOW_INDEX then l.window else root;
    var seen := path.l4 == WINDOW_INDEX ==> UserBit(s.memory[l.boot][WINDOW_INDEX]);
    TranslateIs(s.memory, l, root, path);
    WalkDownKeeps(s, l, q, t, path, user, seen);
    DescentFailsExactlyShort(s, l, q, t, path, user);
    if path.l4 == WINDOW_INDEX {
      ThroughWindow(s, l, root, path, user);
    }
    TablePlaceOfPage(l, root, path);
    ErrorsOfDescent(s, t, Height(q), path, user);
  }

  lemma {:induction false} ErrorsOfDescent(s: Machine, t: Frame, height: nat, path: Path, user: bool)
    requires Sound(s.frames)
    ensures WalkDown(s, t, height, path, user).1 != Err(InvalidUserAddress)
    decreases height
  {
    if height >= 2 {
      var (s1, next) := Descend(s, t, IndexAt(path, height), user);
      if next.Ok? {
        ErrorsOfDescent(s1, next.value, height - 1, path, user);
      }
    }
  }

  /** Two described addresses that every root translates through the same entry. */
  predicate SamePage(r1: Frame, path1: Path, r2: Frame, path2: Path) {
    path1 == path2 && (r1 == r2 || path1.l4 == WINDOW_INDEX)
  }

  /** Nothing described but one page may have changed. */
  ghost predicate OthersKept(m: Memory, m2: Memory, l: Layout, root: Frame, path: Path) {
    forall r2: Frame, path2: Path | Described(l, r2, path2) && !SamePage(root, path, r2, path2) ::
      Translate(m2, r2, path2) == Translate(m, r2, path2)
  }

  ghost predicate MapsTo(m: Memory, root: Frame, path: Path, frame: Frame, flags: PageFlags) {
    var r := Translate(m, root, path);
    r.Some? && r.value.entry == LeafEntry(frame, flags) && r.value.height == 1 && (path.l4 < 256 ==> r.value.user)
  }

  /** `map_page_in` adds one page to the map or leaves the map as it is, and the trees stay
      separate either way, even when tables were linked before it failed.  It takes a frame for
      every table missing on the way, and fails for want of frames exactly when fewer are free. */
  lemma MapRefines(s: Machine, l: Layout, root: Frame, address: U64, frame: Frame, flags: PageFlags)
    requires Trees(s, l) && Described(l, root, PathOf(address)) && (PathOf(address).l4 < 256 ==> flags.User())
    ensures Sound(s.frames)
    ensures var (s2, r) := MapPageIn(s, root, address, frame, flags);
            var was := Translate(s.memory, root, PathOf(address));
            && Trees(s2, l)
            && s2.memory[l.boot] == s.memory[l.boot]
            && ChangesTables(s.memory, s2.memory, l)
            && (r.Ok? ==> was == None && MapsTo(s2.memory, root, PathOf(address), frame, flags)
                          && OthersKept(s.memory, s2.memory, l, root, PathOf(address)))
            && (r.Err? ==> SameTranslations(s.memory, s2.memory, l))
            && (r == Err(AlreadyMapped) <==> was.Some? && was.value.height == 1)
            && (r == Err(HugePageConflict) <==> was.Some? && was.value.height >= 2)
            && (r == Err(FrameAllocationFailed) <==> |s.frames.vacant| < MissingTables(s.memory, root, 4, PathOf(address)))
            && (r.Ok? ==> |s2.frames.vacant| == |s.frames.vacant| - MissingTables(s.memory, root, 4, PathOf(address)))
            && (r == Err(FrameAllocationFailed) ==> was == None && s2.frames.vacant == {})
            && r != Err(InvalidUserAddress)
  {
    hide Walk, WalkDown, MissingTables, Trees, KeepsOwned, Described, LeafEntry, PathOf, Translate;
    TreesApart(s, l);
    var path := PathOf(address);
    var (s1, table) := WalkDown(s, root, 4, path, flags.User());
    DescentFromRoot(s, l, root, path, flags.User());
    TreesApart(s1, l);
    SameWalksTranslate(s.memory, s1.memory, l);
    var was := Translate(s.memory, root, path);
    assert Translate(s1.memory, root, path) == was;
    if table.Ok? {
      var p := TablePlace(l, root, path);
      TablePlaceOfPage(l, root, path);
      LeafTranslates(s1, l, p, table.value, path.l1, root, path);
      if !Present(s1.memory[table.value][path.l1]) {
        SetLeafRefines(s1, l, root, path, table.value, frame, flags);
        var s2 := s1.(memory := WithEntry(s1.memory, table.value, path.l1, LeafEntry(frame, flags)));
        OthersKeptAfter(s.memory, s1.memory, s2.memory, l, root, path);
        LeafChangesTables(s.memory, s1, l, p, table.value, path.l1, LeafEntry(frame, flags));
      }
    } else {
      TranslateHeights(s.memory, root, path);
    }
  }

  lemma LeafChangesTables(m: Memory, s: Machine, l: Layout, p: Place, table: Frame, i: Index, e: U64)
    requires Trees(s, l) && AtLeaf(s.memory, l, p, table, i) && ChangesTables(m, s.memory, l)
    ensures ChangesTables(m, WithEntry(s.memory, table, i, e), l)
  {
    hide TablesHeld, LowerLinks, HalfShared, NodeAt;
    var m2 := WithEntry(s.memory, table, i, e);
    LeafNodes(s.memory, l, p, table, i, e);
    forall g: Frame | m2[g] != m[g] ensures TableSomewhere(m2, l, g) {
      if g == table {
        assert IsNode(m2, l, p, table);
        assert IsTable(m2, l, p, table);
      } else {
        assert TableSomewhere(s.memory, l, g);
        var q: Place :| IsTable(s.memory, l, q, g);
        assert IsNode(m2, l, q, g);
        assert IsTable(m2, l, q, g);
      }
    }
  }

  lemma TranslateHeights(m: Memory, root: Frame, path: Path)
    ensures var r := Translate(m, root, path); r.Some? ==> r.value.height >= 1
  {
    WalkHeights(m, root, 4, path, true);
  }

  lemma {:induction false} WalkHeights(m: Memory, t: Frame, height: nat, path: Path, user: bool)
    requires height >= 1
    ensures var r := Walk(m, t, height, path, user); r.Some? ==> r.value.height >= 1
    decreases height
  {
    var e := m[t][IndexAt(path, height)];
    if Present(e) && height > 1 && !Huge(e) {
      WalkHeights(m, FrameOf(e), height - 1, path, user && UserBit(e));
    }
  }

  lemma OthersKeptAfter(m: Memory, m1: Memory, m2: Memory, l: Layout, root: Frame, path: Path)
    requires SameTranslations(m, m1, l) && OthersKept(m1, m2, l, root, path)
    ensures OthersKept(m, m2, l, root, path)
  {
    hide Translate, Described;
  }

  lemma SetLeafRefines(s: Machine, l: Layout, root: Frame, path: Path, table: Frame, frame: Frame, flags: PageFlags)
    requires Trees(s, l) && Described(l, root, path) && (path.l4 < 256 ==> flags.User())
    requires AtLeaf(s.memory, l, TablePlace(l, root, path), table, path.l1)
    ensures var s2 := s.(memory := WithEntry(s.memory, table, path.l1, LeafEntry(frame, flags)));
            && Trees(s2, l) && s2.memory[l.boot] == s.memory[l.boot]
            && MapsTo(s2.memory, root, path, frame, flags) && OthersKept(s.memory, s2.memory, l, root, path)
  {
    hide Walk, LeafEntry, Trees, Target;
    var p := TablePlace(l, root, path);
    var e := LeafEntry(frame, flags);
    var s2 := s.(memory := WithEntry(s.memory, table, path.l1, e));
    TreesApart(s, l);
    LeafKeepsTrees(s, l, p, table, path.l1, e);
    LeafNodes(s.memory, l, p, table, path.l1, e);
    TablePlaceOfPage(l, root, path);
    LeafEntryFields(frame, flags);
    assert p != Under(p, path.l1);
    assert IsNode(s2.memory, l, p, table);
    LeafTranslates(s2, l, p, table, path.l1, root, path);
    ChangesOnePage(s, l, root, path, table, e);
  }

  /** Writing a page's entry changes no other page. */
  lemma ChangesOnePage(s: Machine, l: Layout, root: Frame, path: Path, table: Frame, e: U64)
    requires Trees(s, l) && Described(l, root, path)
    requires AtLeaf(s.memory, l, TablePlace(l, root, path), table, path.l1)
    ensures OthersKept(s.memory, WithEntry(s.memory, table, path.l1, e), l, root, path)
  {
    hide Walk, Trees, Translate;
    var p := TablePlace(l, root, path);
    TablePlaceOfPage(l, root, path);
    forall r2: Frame, path2: Path | Described(l, r2, path2) && !SamePage(root, path, r2, path2)
      ensures Translate(WithEntry(s.memory, table, path.l1, e), r2, path2) == Translate(s.memory, r2, path2)
    {
      if PagePlace(l, r2, path2) == PagePlace(l, root, path) {
        PagePlaceIsPage(l, root, path, r2, path2);
      }
      LeafKeepsTranslations(s, l, p, table, path.l1, e, r2, path2);
    }
  }

  // --------------------------------------------------------------------- ownership

  /** A set-aside frame that is mapped is accounted for in the tree; one that is not stays
      set aside. */
  lemma MapKeepsOwned(s: Machine, l: Layout, loose: set<nat>, root: Frame, address: U64, frame: Frame, flags: PageFlags)
    requires Owned(s, l, loose) && Sound(s.frames)
    requires Described(l, root, PathOf(address)) && (PathOf(address).l4 < 256 ==> flags.User())
    requires frame in loose || (PathOf(address).l4 >= 256 && frame !in s.frames.vacant && frame !in s.frames.taken)
    ensures var (s2, r) := MapPageIn(s, root, address, frame, flags);
            && Owned(s2, l, if r.Ok? then loose - {frame} else loose)
            && s2.frames.vacant + s2.frames.taken == s.frames.vacant + s.frames.taken
            && s2.frames.vacant <= s.frames.vacant
  {
    hide Walk, WalkDown, Trees, NodesApart, LeavesHeld, Accounted, LeafEntry, Described, PathOf, SameWalks;
    var path := PathOf(address);
    TreesApart(s, l);
    var (s1, table) := WalkDown(s, root, 4, path, flags.User());
    DescentFromRoot(s, l, root, path, flags.User());
    assert Owned(s, l, loose) ==> Owned(s1, l, loose);
    if table.Ok? && !Present(s1.memory[table.value][path.l1]) {
      LeafEntryFields(frame, flags);
      TablePlaceOfPage(l, root, path);
      NewLeafKeepsOwned(s1, l, loose, TablePlace(l, root, path), table.value, path.l1, LeafEntry(frame, flags));
    }
  }
}
