/** `map_page_in` refines a finite map from described addresses to leaf entries. */
module Mapping {
  import opened Wrappers
  import opened Words
  import opened FrameSets
  import opened PageWords
  import opened PageTree
  import opened AddressSpaces
  import opened PageLinks
  import opened PageWalks

  /** The table of height 1 on the way from `q`. */
  function LeafTablePlace(q: Place, path: Path): Place
    decreases if Height(q) > 1 then Height(q) else 0
  {
    if Height(q) <= 1 then q else LeafTablePlace(Under(q, IndexAt(path, Height(q))), path)
  }

  lemma {:induction false} PageOnTable(l: Layout, q: Place, path: Path)
    requires InTree(l, q) && Height(q) >= 1 && (q.Root? ==> path.l4 < 256)
    ensures var p := LeafTablePlace(q, path);
            InTree(l, p) && Height(p) == 1 && Lower(p) == Lower(q) && PageOn(q, path) == Under(p, path.l1)
            && InTree(l, Under(p, path.l1))
    decreases Height(q)
  {
    if Height(q) >= 2 {
      TreeHeight(l, q);
      PageOnTable(l, Under(q, IndexAt(path, Height(q))), path);
    } else {
      assert PageOn(q, path) == PageOn(Under(q, path.l1), path);
    }
  }

  /** What a descent may change: it links tables, and every walk ends where it did. */
  ghost predicate OnlyLinked(s: Machine, s2: Machine, l: Layout) {
    && SameWalks(s.memory, s2.memory, l)
    && s2.frames.vacant <= s.frames.vacant
    && s.frames.taken <= s2.frames.taken
    && s2.frames.vacant + s2.frames.taken == s.frames.vacant + s.frames.taken
    && ChangesTables(s.memory, s2.memory, l)
  }

  /** Every frame that changed is a table now. */
  ghost predicate ChangesTables(m: Memory, m2: Memory, l: Layout) {
    forall g: Frame | m2[g] != m[g] :: TableSomewhere(m2, l, g)
  }

  ghost predicate TableSomewhere(m: Memory, l: Layout, g: Frame) {
    exists p: Place :: IsTable(m, l, p, g)
  }

  ghost predicate KeepsOwned(s: Machine, s2: Machine, l: Layout) {
    forall loose: set<nat> :: Owned(s, l, loose) ==> Owned(s2, l, loose)
  }

  lemma DescendLinks(s: Machine, l: Layout, q: Place, t: Frame, i: Index, user: bool)
    requires Trees(s, l) && IsTable(s.memory, l, q, t) && !Present(s.memory[t][i]) && s.frames.vacant != {}
    ensures var f: Frame := Lowest(s.frames.vacant);
            Descend(s, t, i, user) == (LinkedState(s, t, i, f, user), Ok(f))
            && LinkedState(s, t, i, f, user).memory[t][i] == TableEntry(f, user)
  {
    var f: Frame := Lowest(s.frames.vacant);
    assert Held(s, l, q, t);
    TableEntryFields(f, user);
  }

  lemma LinkIsFine(s: Machine, l: Layout, q: Place, t: Frame, i: Index, f: Frame, user: bool)
    requires Trees(s, l) && CanLink(s, l, q, t, i, f, user)
    ensures var s2 := LinkedState(s, t, i, f, user);
            Trees(s2, l) && OnlyLinked(s, s2, l) && KeepsOwned(s, s2, l) && IsNode(s2.memory, l, Under(q, i), f)
  {
    hide Trees, Linked, Walk, IsNode;
    var s2 := LinkedState(s, t, i, f, user);
    LinkKeepsTrees(s, l, q, t, i, f, user);
    LinkKeepsWalks(s, l, q, t, i, f, user);
    assert IsNode(s2.memory, l, Under(q, i), f) by {
      TreesApart(s, l);
      LinkNodes(s, l, q, t, i, f, user);
    }
    assert ChangesTables(s.memory, s2.memory, l) by { LinkChangesTables(s, l, q, t, i, f, user); }
    forall loose: set<nat> | Owned(s, l, loose) ensures Owned(s2, l, loose) {
      LinkKeepsOwned(s, l, loose, q, t, i, f, user);
    }
  }

  lemma LinkChangesTables(s: Machine, l: Layout, q: Place, t: Frame, i: Index, f: Frame, user: bool)
    requires Trees(s, l) && CanLink(s, l, q, t, i, f, user)
    ensures ChangesTables(s.memory, Linked(s.memory, t, i, f, user), l)
  {
    hide TablesApart, TablesHeld, LowerLinks, HalfShared, NodeAt;
    LinkNodes(s, l, q, t, i, f, user);
    var m2 := Linked(s.memory, t, i, f, user);
    assert IsTable(m2, l, q, t) && IsTable(m2, l, Under(q, i), f);
    forall g: Frame | m2[g] != s.memory[g] ensures TableSomewhere(m2, l, g) {
      assert g == t || g == f;
    }
  }

  lemma TreesApart(s: Machine, l: Layout)
    requires Trees(s, l)
    ensures TablesApart(s.memory, l) && TablesHeld(s, l) && LowerLinks(s.memory, l) && HalfShared(s.memory, l) && Sound(s.frames)
  {
  }

  predicate Links(m: Memory, t: Frame, i: Index, next: Frame) {
    Present(m[t][i]) && !Huge(m[t][i]) && FrameOf(m[t][i]) == next
  }

  /** One descent from a table in the trees: the next table is in the trees. */
  lemma DescendKeeps(s: Machine, l: Layout, q: Place, t: Frame, path: Path, user: bool)
    requires Trees(s, l) && Sound(s.frames) && WalksFrom(s.memory, l, q, t, path) && Height(q) >= 2 && (Lower(q) ==> user)
    ensures var (s2, next) := Descend(s, t, IndexAt(path, Height(q)), user);
            && Trees(s2, l) && OnlyLinked(s, s2, l) && KeepsOwned(s, s2, l)
            && (next.Ok? ==> WalksFrom(s2.memory, l, Under(q, IndexAt(path, Height(q))), next.value, path))
            && (next.Ok? ==> Links(s2.memory, t, IndexAt(path, Height(q)), next.value))
            && (next.Err? ==> s2 == s && next.error != AlreadyMapped)
            && (next == Err(FrameAllocationFailed) ==> s.frames.vacant == {})
  {
    hide Walk, Trees, Linked, LinkedState, KeepsOwned;
    var i := IndexAt(path, Height(q));
    NextTable(s.memory, l, q, t, path);
    if !Present(s.memory[t][i]) && s.frames.vacant != {} {
      var f: Frame := Lowest(s.frames.vacant);
      DescendLinks(s, l, q, t, i, user);
      TableEntryFields(f, user);
      LinkIsFine(s, l, q, t, i, f, user);
    } else {
      assert KeepsOwned(s, s, l) by { Unchanged(s, l); }
      assert OnlyLinked(s, s, l);
    }
  }

  lemma Unchanged(s: Machine, l: Layout)
    ensures KeepsOwned(s, s, l)
  {
  }

  /** The whole descent.  A huge page is in the way exactly when the walk ended at one. */
  lemma {:induction false} WalkDownKeeps(s: Machine, l: Layout, q: Place, t: Frame, path: Path, user: bool, seen: bool)
    requires Trees(s, l) && Sound(s.frames) && WalksFrom(s.memory, l, q, t, path) && (Lower(q) ==> user)
    ensures var (s2, table) := WalkDown(s, t, Height(q), path, user);
            && Trees(s2, l) && OnlyLinked(s, s2, l) && KeepsOwned(s, s2, l)
            && (table.Ok? ==> IsTable(s2.memory, l, LeafTablePlace(q, path), table.value))
            && (table.Err? ==> table.error != AlreadyMapped)
            && (table == Err(FrameAllocationFailed) ==> s2.frames.vacant == {} && Walk(s.memory, t, Height(q), path, seen) == None)
            && (table == Err(HugePageConflict) <==> EndsHuge(s.memory, t, Height(q), path, seen))
    decreases Height(q)
  {
    hide Trees, Owned, Walk, WalksFrom, MissingTables, Descend, Links, IsTable;
    assert Height(q) >= 1 by { WalksFromTable(s.memory, l, q, t, path); }
    if Height(q) >= 2 {
      var i := IndexAt(path, Height(q));
      var next := Under(q, i);
      var (s1, t1) := Descend(s, t, i, user);
      DescendKeeps(s, l, q, t, path, user);
      DescendErrors(s, t, i, user);
      assert SameWalk(s.memory, s1.memory, l, q, t, path, seen);
      HugeStep(s, s1, l, t, Height(q), path, user, seen);
      if t1.Ok? {
        var seen1 := seen && UserBit(s1.memory[t][i]);
        WalkDownKeeps(s1, l, next, t1.value, path, user, seen1);
        var (s2, table) := WalkDown(s1, t1.value, Height(next), path, user);
        assert OnlyLinked(s, s2, l) by { OnlyLinkedTransitive(s, s1, s2, l); }
      }
    } else {
      assert OnlyLinked(s, s, l);
      WalksFromTable(s.memory, l, q, t, path);
      NotHugeAtOne(s.memory, t, path, seen);
    }
  }

  /** How many tables a descent from here has to link. */
  function MissingTables(m: Memory, t: Frame, height: nat, path: Path): nat
    decreases height
  {
    if height <= 1 then 0
    else
      var e := m[t][IndexAt(path, height)];
      if !Present(e) then height - 1
      else if Huge(e) then 0
      else MissingTables(m, FrameOf(e), height - 1, path)
  }

  lemma MissingFromZero(m: Memory, t: Frame, height: nat, path: Path)
    requires m[t] == ZeroTable()
    ensures MissingTables(m, t, height, path) == if height <= 1 then 0 else height - 1
  {
  }

  /** A descent takes one frame off the free ones and one table off the missing ones. */
  lemma DescendMissing(s: Machine, l: Layout, q: Place, t: Frame, path: Path, user: bool)
    requires Trees(s, l) && Sound(s.frames) && IsTable(s.memory, l, q, t) && Height(q) >= 2
    ensures var (s1, next) := Descend(s, t, IndexAt(path, Height(q)), user);
            var missing := MissingTables(s.memory, t, Height(q), path);
            && (next == Err(FrameAllocationFailed) ==> |s.frames.vacant| == 0 < missing)
            && (next == Err(HugePageConflict) ==> missing == 0)
            && (next.Ok? ==> |s.frames.vacant| - missing ==
                             |s1.frames.vacant| - MissingTables(s1.memory, next.value, Height(q) - 1, path))
  {
    hide Trees, TableEntry;
    var i := IndexAt(path, Height(q));
    if !Present(s.memory[t][i]) && s.frames.vacant != {} {
      var f: Frame := Lowest(s.frames.vacant);
      DescendLinks(s, l, q, t, i, user);
      var s1 := Descend(s, t, i, user).0;
      assert s1.memory[f] == ZeroTable();
      MissingFromZero(s1.memory, f, Height(q) - 1, path);
      assert |s1.frames.vacant| == |s.frames.vacant| - 1;
    }
  }

  /** A descent takes a frame for every missing table, and runs out of frames exactly when
      fewer are free. */
  lemma {:induction false} DescentFailsExactlyShort(s: Machine, l: Layout, q: Place, t: Frame, path: Path, user: bool)
    requires Trees(s, l) && Sound(s.frames) && WalksFrom(s.memory, l, q, t, path) && (Lower(q) ==> user)
    ensures WalkDown(s, t, Height(q), path, user).1 == Err(FrameAllocationFailed) <==>
            |s.frames.vacant| < MissingTables(s.memory, t, Height(q), path)
    ensures var (s2, table) := WalkDown(s, t, Height(q), path, user);
            table.Ok? ==> |s2.frames.vacant| == |s.frames.vacant| - MissingTables(s.memory, t, Height(q), path)
    decreases Height(q)
  {
    hide Trees, Owned, WalksFrom, MissingTables, Descend, OnlyLinked;
    WalksFromTable(s.memory, l, q, t, path);
    if Height(q) >= 2 {
      var i := IndexAt(path, Height(q));
      var (s1, t1) := Descend(s, t, i, user);
      DescendKeeps(s, l, q, t, path, user);
      DescendMissing(s, l, q, t, path, user);
      DescendErrors(s, t, i, user);
      if t1.Ok? {
        DescentFailsExactlyShort(s1, l, Under(q, i), t1.value, path, user);
      }
    } else {
      assert MissingTables(s.memory, t, 1, path) == 0 by { NoneMissing(s.memory, t, path); }
    }
  }

  lemma {:induction false} MissingAtMost(m: Memory, t: Frame, height: nat, path: Path)
    ensures MissingTables(m, t, height, path) <= if height == 0 then 0 else height - 1
    decreases height
  {
    if height > 1 {
      var e := m[t][IndexAt(path, height)];
      if Present(e) && !Huge(e) {
        MissingAtMost(m, FrameOf(e), height - 1, path);
      }
    }
  }

  lemma NoneMissing(m: Memory, t: Frame, path: Path)
    ensures MissingTables(m, t, 1, path) == 0
  {
  }

  lemma DescendErrors(s: Machine, t: Frame, i: Index, user: bool)
    requires Sound(s.frames)
    ensures var r := Descend(s, t, i, user).1; r.Err? ==> r.error in {FrameAllocationFailed, HugePageConflict}
  {
  }

  predicate EndsHuge(m: Memory, t: Frame, height: int, path: Path, user: bool)
    requires height >= 0
  {
    var r := Walk(m, t, height, path, user);
    r.Some? && r.value.height >= 2
  }

  lemma WalksFromTable(m: Memory, l: Layout, q: Place, t: Frame, path: Path)
    requires WalksFrom(m, l, q, t, path)
    ensures IsTable(m, l, q, t) && Height(q) >= 1
  {
  }

  lemma NotHugeAtOne(m: Memory, t: Frame, path: Path, user: bool)
    ensures !EndsHuge(m, t, 1, path, user)
  {
  }

  /** A descent follows the walk: it fails where the walk ends, and otherwise the rest of the
      walk starts at the next table. */
  lemma HugeStep(s: Machine, s1: Machine, l: Layout, t: Frame, height: nat, path: Path, user: bool, seen: bool)
    requires Sound(s.frames) && height >= 2 && s1 == Descend(s, t, IndexAt(path, height), user).0
    requires Walk(s1.memory, t, height, path, seen) == Walk(s.memory, t, height, path, seen)
    requires var next := Descend(s, t, IndexAt(path, height), user).1;
             next.Ok? ==> Links(s1.memory, t, IndexAt(path, height), next.value)
    ensures var next := Descend(s, t, IndexAt(path, height), user).1;
            && (next == Err(HugePageConflict) ==> EndsHuge(s.memory, t, height, path, seen))
            && (next == Err(FrameAllocationFailed) ==> Walk(s.memory, t, height, path, seen) == None)
            && (next.Ok? ==>
                  Walk(s.memory, t, height, path, seen)
                  == Walk(s1.memory, next.value, height - 1, path, seen && UserBit(s1.memory[t][IndexAt(path, height)])))
  {
    var i := IndexAt(path, height);
    var e := s1.memory[t][i];
    if Descend(s, t, i, user).1.Ok? {
      if Present(s.memory[t][i]) {
        assert s1 == s;
      }
    }
  }

  lemma OnlyLinkedTransitive(s: Machine, s1: Machine, s2: Machine, l: Layout)
    requires OnlyLinked(s, s1, l) && OnlyLinked(s1, s2, l)
    ensures OnlyLinked(s, s2, l)
  {
    hide Walk, WalksFrom;
    forall q: Place, t: Frame, path: Path, user: bool | WalksFrom(s.memory, l, q, t, path)
      ensures SameWalk(s.memory, s2.memory, l, q, t, path, user)
    {
      assert SameWalk(s.memory, s1.memory, l, q, t, path, user);
      assert SameWalk(s1.memory, s2.memory, l, q, t, path, user);
    }
    forall g: Frame | s2.memory[g] != s.memory[g] ensures TableSomewhere(s2.memory, l, g) {
      if s2.memory[g] == s1.memory[g] {
        assert TableSomewhere(s1.memory, l, g);
        var p: Place :| IsTable(s1.memory, l, p, g);
        TableStays(s1.memory, s2.memory, l, p, g);
      }
    }
  }

  lemma TableStays(m: Memory, m2: Memory, l: Layout, p: Place, g: Frame)
    requires SameWalks(m, m2, l) && IsTable(m, l, p, g)
    ensures IsTable(m2, l, p, g)
  {
    var path := Path(0, 0, 0, 0);
    assert WalksFrom(m, l, p, g, path);
    assert SameWalk(m, m2, l, p, g, path, true);
  }
}
