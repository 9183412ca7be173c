/** User memory as pages with contents: what mapping a fresh page and writing into a mapped
    frame do to it. */
module UserMemory {
  import opened Wrappers
  import opened Words
  import opened FrameSets
  import opened PageWords
  import opened PageTree
  import opened AddressSpaces
  import opened PageLinks
  import opened PageWalks
  import opened PageLeaves
  import opened Mapping
  import opened FiniteMap
  import opened SpaceLife
  import opened Teardown
  import opened PagingRuns

  /** A mapped page: its entry, and the words of its frame. */
  datatype Page = Page(entry: U64, content: Table)

  function PageOf(m: Memory, leaf: Option<Leaf>): Option<Page> {
    if leaf.Some? && leaf.value.height == 1 then Some(Page(leaf.value.entry, m[FrameOf(leaf.value.entry)])) else None
  }

  /** The page at an address of an address space. */
  function At(m: Memory, root: Frame, address: U64): Option<Page> {
    PageOf(m, Translate(m, root, PathOf(address)))
  }

  /** All user memory but one page is as before, in every address space. */
  ghost predicate OnlyPage(m: Memory, m2: Memory, l: Layout, root: Frame, address: U64) {
    forall r: Frame, b: U64 | r in l.roots && b < USER_END && !(r == root && b / 4096 == address / 4096) ::
      At(m2, r, b) == At(m, r, b)
  }

  ghost predicate SameMemory(m: Memory, m2: Memory, l: Layout) {
    forall r: Frame, b: U64 | r in l.roots && b < USER_END :: At(m2, r, b) == At(m, r, b)
  }

  lemma SamePageSameAt(m: Memory, root: Frame, a: U64, b: U64)
    requires a < USER_END && b < USER_END && a / 4096 == b / 4096
    ensures At(m, root, a) == At(m, root, b)
  {
    PathIsPage(a, b);
  }

  // ------------------------------------------------------- pages are nodes of the trees

  lemma {:induction false} WalkIsNode(m: Memory, l: Layout, q: Place, t: Frame, path: Path, user: bool)
    requires WalksFrom(m, l, q, t, path)
    ensures var r := Walk(m, t, Height(q), path, user);
            r.Some? && r.value.height == 1 ==> IsNode(m, l, PageOn(q, path), FrameOf(r.value.entry))
    decreases Height(q)
  {
    NextTable(m, l, q, t, path);
    var e := m[t][IndexAt(path, Height(q))];
    var next := Under(q, IndexAt(path, Height(q)));
    if Height(q) >= 2 {
      if Present(e) && !Huge(e) {
        WalkIsNode(m, l, next, FrameOf(e), path, user && UserBit(e));
      }
    } else {
      assert PageOn(next, path) == next;
    }
  }

  lemma TranslateIsNode(m: Memory, l: Layout, root: Frame, path: Path)
    requires root in l.roots && path.l4 < 256
    ensures var r := Translate(m, root, path);
            r.Some? && r.value.height == 1 ==> IsNode(m, l, PagePlace(l, root, path), FrameOf(r.value.entry))
  {
    assert WalksFrom(m, l, Root(root), root, path);
    WalkIsNode(m, l, Root(root), root, path, true);
  }

  lemma PagePlaceIsLower(l: Layout, root: Frame, path: Path)
    requires root in l.roots && path.l4 < 256
    ensures var q := PagePlace(l, root, path); InTree(l, q) && Height(q) == 0 && Lower(q)
  {
    PageOnInTree(l, Root(root), path);
    PageOnWithin(Root(root), path);
    WithinLower(PageOn(Root(root), path), Root(root));
  }

  /** A mapped user page's frame was handed out and is no table. */
  lemma PageFrameIsData(s: Machine, l: Layout, root: Frame, path: Path)
    requires TablesHeld(s, l) && LeavesHeld(s, l) && NodesApart(s, l) && root in l.roots && path.l4 < 256
    ensures var r := Translate(s.memory, root, path);
            r.Some? && r.value.height == 1 ==>
              FrameOf(r.value.entry) in s.frames.taken && forall p: Place :: !IsTable(s.memory, l, p, FrameOf(r.value.entry))
  {
    hide NodeAt, Translate;
    var r := Translate(s.memory, root, path);
    if r.Some? && r.value.height == 1 {
      var f := FrameOf(r.value.entry);
      var q := PagePlace(l, root, path);
      TranslateIsNode(s.memory, l, root, path);
      PagePlaceIsLower(l, root, path);
      LowerIsTaken(s, l, q, f);
      forall p: Place ensures !IsTable(s.memory, l, p, f) {
        if IsNode(s.memory, l, p, f) {
          assert p == q;
        }
      }
    }
  }

  /** Changes to tables only do not reach user pages. */
  lemma TablesKeepContents(m: Memory, s: Machine, l: Layout, root: Frame, path: Path)
    requires TablesHeld(s, l) && LeavesHeld(s, l) && NodesApart(s, l) && ChangesTables(m, s.memory, l)
    requires root in l.roots && path.l4 < 256
    ensures var r := Translate(s.memory, root, path);
            r.Some? && r.value.height == 1 ==> s.memory[FrameOf(r.value.entry)] == m[FrameOf(r.value.entry)]
  {
    hide Translate, IsTable;
    PageFrameIsData(s, l, root, path);
    var r := Translate(s.memory, root, path);
    if r.Some? && r.value.height == 1 {
      var f := FrameOf(r.value.entry);
      assert s.memory[f] != m[f] ==> TableSomewhere(s.memory, l, f);
    }
  }

  // ------------------------------------------------------------------ the two steps

  lemma OwnedParts(s: Machine, l: Layout, loose: set<nat>)
    requires Owned(s, l, loose)
    ensures Trees(s, l) && TablesHeld(s, l) && LeavesHeld(s, l) && NodesApart(s, l) && Sound(s.frames)
    ensures loose <= s.frames.taken
  {
  }

  /** No huge page is mapped in a user half. */
  lemma {:induction false} NoHugeOnTheWay(m: Memory, l: Layout, q: Place, t: Frame, path: Path, user: bool)
    requires LowerLinks(m, l) && WalksFrom(m, l, q, t, path) && Lower(q)
    ensures var r := Walk(m, t, Height(q), path, user); r.Some? ==> r.value.height <= 1
    decreases Height(q)
  {
    NextTable(m, l, q, t, path);
    var i := IndexAt(path, Height(q));
    var e := m[t][i];
    if Height(q) >= 2 && Present(e) {
      assert IsTable(m, l, q, t);
      NoHugeOnTheWay(m, l, Under(q, i), FrameOf(e), path, user && UserBit(e));
    }
  }

  lemma NoHugePages(s: Machine, l: Layout, root: Frame, path: Path)
    requires Trees(s, l) && root in l.roots && path.l4 < 256
    ensures var r := Translate(s.memory, root, path); r.Some? ==> r.value.height <= 1
  {
    hide Walk;
    TreesApart(s, l);
    assert WalksFrom(s.memory, l, Root(root), root, path);
    NoHugeOnTheWay(s.memory, l, Root(root), root, path, true);
  }

  /** Mapping a held frame as a user page adds that page, with the frame's content, and
      changes no other; failing to map it changes no page at all. */
  lemma MapAddsPage(s: Machine, l: Layout, loose: set<nat>, root: Frame, address: U64, frame: Frame, flags: PageFlags)
    requires Owned(s, l, loose) && root in l.roots && frame in loose && flags.User()
    ensures Sound(s.frames)
    ensures var (s2, r) := MapUserPageIn(s, root, address, frame, flags);
            && Owned(s2, l, if r.Ok? then loose - {frame} else loose)
            && (r.Ok? ==> UserAddress(address) && At(s.memory, root, address) == None
                          && At(s2.memory, root, address) == Some(Page(LeafEntry(frame, flags), s.memory[frame]))
                          && OnlyPage(s.memory, s2.memory, l, root, address))
            && (r.Err? ==> SameMemory(s.memory, s2.memory, l))
            && (r == Err(AlreadyMapped) <==> UserAddress(address) && At(s.memory, root, address).Some?)
            && (r == Err(InvalidUserAddress) <==> !UserAddress(address))
            && r != Err(HugePageConflict)
            && (r == Err(FrameAllocationFailed) ==> |s.frames.vacant| < 3)
            && (r.Ok? ==> |s.frames.vacant| <= |s2.frames.vacant| + 3)
  {
    hide MissingTables, Owned, MapPageIn, Translate, ChangesTables, LeafEntry, Described, PathOf, Trees;
    OwnedParts(s, l, loose);
    if UserAddress(address) {
      var (s2, r) := MapPageIn(s, root, address, frame, flags);
      UserAddressIsDescribed(l, root, address);
      MapRefines(s, l, root, address, frame, flags);
      NoHugePages(s, l, root, PathOf(address));
      MissingAtMost(s.memory, root, 4, PathOf(address));
      MapKeepsOwned(s, l, loose, root, address, frame, flags);
      var loose2 := if r.Ok? then loose - {frame} else loose;
      OwnedParts(s2, l, loose2);
      if r.Ok? {
        LeafEntryFields(frame, flags);
        TablesKeepContents(s.memory, s2, l, root, PathOf(address));
        MapAddsOnlyPage(s, s2, l, loose2, root, address);
      } else {
        MapFailsQuietly(s, s2, l, loose2);
      }
    } else {
      Same(s.memory, l);
    }
  }

  lemma Same(m: Memory, l: Layout)
    ensures SameMemory(m, m, l)
  {
  }

  lemma MapAddsOnlyPage(s: Machine, s2: Machine, l: Layout, loose2: set<nat>, root: Frame, address: U64)
    requires Owned(s2, l, loose2) && root in l.roots && address < USER_END
    requires OthersKept(s.memory, s2.memory, l, root, PathOf(address)) && ChangesTables(s.memory, s2.memory, l)
    ensures OnlyPage(s.memory, s2.memory, l, root, address)
  {
    hide Owned, Translate, ChangesTables, PathOf;
    OwnedParts(s2, l, loose2);
    forall r: Frame, b: U64 | r in l.roots && b < USER_END && !(r == root && b / 4096 == address / 4096)
      ensures At(s2.memory, r, b) == At(s.memory, r, b)
    {
      PathIsPage(b, address);
      TablesKeepContents(s.memory, s2, l, r, PathOf(b));
      assert !SamePage(root, PathOf(address), r, PathOf(b));
      assert Described(l, r, PathOf(b));
    }
  }

  lemma MapFailsQuietly(s: Machine, s2: Machine, l: Layout, loose2: set<nat>)
    requires Owned(s2, l, loose2)
    requires SameTranslations(s.memory, s2.memory, l) && ChangesTables(s.memory, s2.memory, l)
    ensures SameMemory(s.memory, s2.memory, l)
  {
    hide Owned, Translate, ChangesTables, PathOf;
    OwnedParts(s2, l, loose2);
    forall r: Frame, b: U64 | r in l.roots && b < USER_END ensures At(s2.memory, r, b) == At(s.memory, r, b) {
      PathIsPage(b, b);
      TablesKeepContents(s.memory, s2, l, r, PathOf(b));
      assert Described(l, r, PathOf(b));
    }
  }

  /** Writing into a mapped user page's frame changes that page's content and nothing else. */
  lemma WriteChangesPage(s: Machine, l: Layout, loose: set<nat>, root: Frame, address: U64, content: Table)
    requires Owned(s, l, loose) && root in l.roots && address < USER_END && At(s.memory, root, address).Some?
    ensures var e := At(s.memory, root, address).value.entry;
            var s2 := s.(memory := s.memory[FrameOf(e) := content]);
            && Owned(s2, l, loose)
            && At(s2.memory, root, address) == Some(Page(e, content))
            && OnlyPage(s.memory, s2.memory, l, root, address)
  {
    hide Owned, Translate, PathOf, FrameOf;
    var e := At(s.memory, root, address).value.entry;
    var f := FrameOf(e);
    var s2 := s.(memory := s.memory[f := content]);
    OwnedParts(s, l, loose);
    PathIsPage(address, address);
    PageFrameIsData(s, l, root, PathOf(address));
    FillIsKept(s, l, loose, f, content);
    assert Described(l, root, PathOf(address));
    forall r: Frame, b: U64 | r in l.roots && b < USER_END && !(r == root && b / 4096 == address / 4096)
      ensures At(s2.memory, r, b) == At(s.memory, r, b)
    {
      PathIsPage(b, address);
      PathIsPage(b, b);
      assert Described(l, r, PathOf(b));
      OtherFrame(s, l, loose, root, PathOf(address), r, PathOf(b));
    }
  }

  /** Different user pages are in different frames. */
  lemma OtherFrame(s: Machine, l: Layout, loose: set<nat>, r1: Frame, path1: Path, r2: Frame, path2: Path)
    requires Owned(s, l, loose) && r1 in l.roots && r2 in l.roots && path1.l4 < 256 && path2.l4 < 256
    requires r1 != r2 || path1 != path2
    ensures var a := Translate(s.memory, r1, path1);
            var b := Translate(s.memory, r2, path2);
            a.Some? && a.value.height == 1 && b.Some? && b.value.height == 1 ==> FrameOf(a.value.entry) != FrameOf(b.value.entry)
  {
    hide Trees, Translate, NodeAt;
    OwnedParts(s, l, loose);
    TranslateIsNode(s.memory, l, r1, path1);
    TranslateIsNode(s.memory, l, r2, path2);
    PageFrameIsData(s, l, r1, path1);
    if PagePlace(l, r1, path1) == PagePlace(l, r2, path2) {
      PagePlaceIsPage(l, r1, path1, r2, path2);
    }
  }

  lemma FillIsKept(s: Machine, l: Layout, loose: set<nat>, frame: Frame, content: Table)
    requires Owned(s, l, loose) && frame in s.frames.taken && forall p: Place :: !IsTable(s.memory, l, p, frame)
    ensures Owned(s.(memory := s.memory[frame := content]), l, loose)
    ensures SameTranslations(s.memory, s.memory[frame := content], l)
  {
    hide Owned, IsTable, SameTranslations;
    var y := System(s, l, loose, l.boot);
    FillKept(y, frame, content);
  }

  /** Writing into a frame that a caller holds unmapped changes no user memory. */
  lemma FillLooseIsQuiet(s: Machine, l: Layout, loose: set<nat>, frame: Frame, content: Table)
    requires Owned(s, l, loose) && frame in loose
    ensures Owned(s.(memory := s.memory[frame := content]), l, loose)
    ensures SameMemory(s.memory, s.memory[frame := content], l)
  {
    hide Trees, Translate, PathOf, NodeAt;
    OwnedParts(s, l, loose);
    assert !Mapped(s.memory, l, frame);
    assert forall p: Place :: !IsNode(s.memory, l, p, frame);
    FillIsKept(s, l, loose, frame, content);
    forall r: Frame, b: U64 | r in l.roots && b < USER_END ensures At(s.memory[frame := content], r, b) == At(s.memory, r, b) {
      PathIsPage(b, b);
      assert Described(l, r, PathOf(b));
      TranslateIsNode(s.memory, l, r, PathOf(b));
    }
  }

  /** In a user half the links all have USER, so a page's own entry decides. */
  lemma {:induction false} UserOnTheWay(m: Memory, l: Layout, q: Place, t: Frame, path: Path, user: bool)
    requires LowerLinks(m, l) && WalksFrom(m, l, q, t, path) && Lower(q)
    ensures var r := Walk(m, t, Height(q), path, user);
            r.Some? && r.value.height == 1 ==> r.value.user == (user && UserBit(r.value.entry))
    decreases Height(q)
  {
    NextTable(m, l, q, t, path);
    var i := IndexAt(path, Height(q));
    var e := m[t][i];
    if Height(q) >= 2 && Present(e) && !Huge(e) {
      assert IsTable(m, l, q, t);
      UserOnTheWay(m, l, Under(q, i), FrameOf(e), path, user && UserBit(e));
    }
  }

  /** A page mapped with user flags passes `is_user_mapped`, and `is_user_executable` when
      its flags are executable. */
  lemma PagePassesChecks(s: Machine, l: Layout, root: Frame, address: U64, frame: Frame, flags: PageFlags)
    requires Trees(s, l) && root in l.roots && UserAddress(address) && flags.User()
    requires At(s.memory, root, address).Some? && At(s.memory, root, address).value.entry == LeafEntry(frame, flags)
    ensures IsUserMapped(s.memory, root, address)
    ensures flags.Executable() ==> IsUserExecutable(s.memory, root, address)
  {
    hide Walk, PathOf, LeafEntry;
    TreesApart(s, l);
    PathIsPage(address, address);
    LeafEntryFields(frame, flags);
    UserOnTheWay(s.memory, l, Root(root), root, PathOf(address), true);
    UserChecksAreExact(s.memory, root, address);
  }

  // ------------------------------------------------------------------ single bytes

  /** The byte user code reads at an address. */
  function UserByte(m: Memory, root: Frame, address: U64): Option<Byte> {
    match At(m, root, address)
    case None => None
    case Some(page) => Some(TableByte(page.content, address % 4096))
  }

  /** The permissions and the frame of the page at an address. */
  function EntryAt(m: Memory, root: Frame, address: U64): Option<U64> {
    match At(m, root, address)
    case None => None
    case Some(page) => Some(page.entry)
  }

  /** The same pages are mapped, and only bytes from `low` up to `high` of one address space may
      differ. */
  ghost predicate OnlyBytes(m: Memory, m2: Memory, l: Layout, root: Frame, low: nat, high: nat) {
    forall r: Frame, c: U64 | r in l.roots && c < USER_END ::
      && EntryAt(m2, r, c) == EntryAt(m, r, c)
      && (!(r == root && low <= c < high) ==> UserByte(m2, r, c) == UserByte(m, r, c))
  }

  /** Storing a byte through a mapped page changes the byte at that address, and no other
      byte of any address space: user memory behaves as an array of bytes. */
  lemma StoreChangesOneByte(s: Machine, l: Layout, loose: set<nat>, root: Frame, address: U64, b: Byte)
    requires Owned(s, l, loose) && root in l.roots && address < USER_END && At(s.memory, root, address).Some?
    ensures var page := At(s.memory, root, address).value;
            var s2 := s.(memory := s.memory[FrameOf(page.entry) := SetByte(page.content, address % 4096, b)]);
            && Owned(s2, l, loose)
            && forall r: Frame, c: U64 | r in l.roots && c < USER_END ::
                 && UserByte(s2.memory, r, c) == (if r == root && c == address then Some(b) else UserByte(s.memory, r, c))
                 && EntryAt(s2.memory, r, c) == EntryAt(s.memory, r, c)
  {
    hide Owned, At, FrameOf, SetByte, TableByte;
    var page := At(s.memory, root, address).value;
    var content := SetByte(page.content, address % 4096, b);
    var s2 := s.(memory := s.memory[FrameOf(page.entry) := content]);
    WriteChangesPage(s, l, loose, root, address, content);
    forall r: Frame, c: U64 | r in l.roots && c < USER_END
      ensures UserByte(s2.memory, r, c) == (if r == root && c == address then Some(b) else UserByte(s.memory, r, c))
      ensures EntryAt(s2.memory, r, c) == EntryAt(s.memory, r, c)
    {
      if r == root && c / 4096 == address / 4096 {
        SamePageSameAt(s.memory, root, c, address);
        SamePageSameAt(s2.memory, root, c, address);
        ByteAfterSet(page.content, address % 4096, b, c % 4096);
        assert c % 4096 == address % 4096 <==> c == address;
      }
    }
  }
}
