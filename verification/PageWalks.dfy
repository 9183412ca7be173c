/** What the processor's walk sees when an entry is written or a table is linked. */
module PageWalks {
  import opened Wrappers
  import opened Words
  import opened FrameSets
  import opened PageWords
  import opened PageTree
  import opened AddressSpaces
  import opened PageLinks

  /** A walk from place `q` that stays in the trees. */
  ghost predicate WalksFrom(m: Memory, l: Layout, q: Place, t: Frame, path: Path) {
    IsTable(m, l, q, t) && (q.Root? ==> path.l4 < 256)
  }

  lemma {:induction false} PageOnWithin(p: Place, path: Path)
    ensures Within(PageOn(p, path), p)
    decreases if Height(p) > 0 then Height(p) else 0
  {
    if Height(p) > 0 {
      var next := Under(p, IndexAt(path, Height(p)));
      PageOnWithin(next, path);
      WithinTransitive(PageOn(next, path), next, p);
    }
  }

  lemma {:induction false} WithinTransitive(a: Place, b: Place, c: Place)
    requires Within(a, b) && Within(b, c)
    ensures Within(a, c)
  {
    if a != b {
      WithinTransitive(a.parent, b, c);
    }
  }

  /** One step of a walk in the trees. */
  lemma NextTable(m: Memory, l: Layout, q: Place, t: Frame, path: Path)
    requires WalksFrom(m, l, q, t, path)
    ensures var e := m[t][IndexAt(path, Height(q))];
            var next := Under(q, IndexAt(path, Height(q)));
            InTree(l, next) && PageOn(q, path) == PageOn(next, path)
            && (Height(q) >= 2 && Present(e) && !Huge(e) ==> WalksFrom(m, l, next, FrameOf(e), path))
  {
    TreeHeight(l, q);
  }

  /** A walk that does not use a written entry is as before. */
  lemma {:induction false} EntryKeepsWalk(m: Memory, l: Layout, p: Place, table: Frame, i: Index, e: U64,
                                          q: Place, t: Frame, path: Path, user: bool)
    requires TablesApart(m, l) && IsTable(m, l, p, table) && InTree(l, Under(p, i))
    requires WalksFrom(m, l, q, t, path) && !Within(PageOn(q, path), Under(p, i))
    ensures Walk(WithEntry(m, table, i, e), t, Height(q), path, user) == Walk(m, t, Height(q), path, user)
    decreases Height(q)
  {
    var index := IndexAt(path, Height(q));
    var next := Under(q, index);
    NextTable(m, l, q, t, path);
    PageOnWithin(next, path);
    assert t == table ==> q == p;
    var w := m[t][index];
    if Height(q) >= 2 && Present(w) && !Huge(w) {
      EntryKeepsWalk(m, l, p, table, i, e, next, FrameOf(w), path, user && UserBit(w));
    }
  }

  /** Linking an empty table changes no walk at all: what was unmapped stays unmapped. */
  lemma {:induction false} LinkKeepsWalk(s: Machine, l: Layout, p: Place, table: Frame, i: Index, frame: Frame,
      link: bool,
                                         q: Place, t: Frame, path: Path, user: bool)
    requires TablesApart(s.memory, l) && TablesHeld(s, l) && CanLink(s, l, p, table, i, frame, link)
    requires WalksFrom(s.memory, l, q, t, path)
    ensures Walk(Linked(s.memory, table, i, frame, link), t, Height(q), path, user) == Walk(s.memory, t, Height(q), path, user)
    decreases Height(q)
  {
    var m, m2 := s.memory, Linked(s.memory, table, i, frame, link);
    var index := IndexAt(path, Height(q));
    assert Held(s, l, q, t) && Held(s, l, p, table);
    if t == table && index == i {
      assert q == p;
      TableEntryFields(frame, link);
      assert m2[frame] == ZeroTable();
    } else {
      assert m2[t][index] == m[t][index];
      NextTable(m, l, q, t, path);
      var w := m[t][index];
      if Height(q) >= 2 && Present(w) && !Huge(w) {
        LinkKeepsWalk(s, l, p, table, i, frame, link, Under(q, index), FrameOf(w), path, user && UserBit(w));
      }
    }
  }

  /** Changed frames that are no tables outside `top` do not matter to walks outside it. */
  lemma {:induction false} FramesKeepWalk(m: Memory, m2: Memory, l: Layout, changed: set<Frame>, top: Place,
                                          q: Place, t: Frame, path: Path, user: bool)
    requires forall f: Frame | f !in changed :: m2[f] == m[f]
    requires forall p: Place, f: Frame :: IsTable(m, l, p, f) && !Within(p, top) ==> f !in changed
    requires WalksFrom(m, l, q, t, path) && !Within(PageOn(q, path), top)
    ensures Walk(m2, t, Height(q), path, user) == Walk(m, t, Height(q), path, user)
    decreases Height(q)
  {
    PageOnWithin(q, path);
    if Within(q, top) {
      WithinTransitive(PageOn(q, path), q, top);
      assert false;
    }
    assert m2[t] == m[t];
    NextTable(m, l, q, t, path);
    var w := m[t][IndexAt(path, Height(q))];
    if Height(q) >= 2 && Present(w) && !Huge(w) {
      FramesKeepWalk(m, m2, l, changed, top, Under(q, IndexAt(path, Height(q))), FrameOf(w), path, user && UserBit(w));
    }
  }

  /** A walk to a table of height 1 that is there ends at that table's entry, and in a user
      half every link on the way has USER. */
  lemma {:induction false} WalkArrives(m: Memory, l: Layout, p: Place, table: Frame, i: Index, q: Place, t: Frame,
      path: Path, user: bool)
    requires LowerLinks(m, l) && IsTable(m, l, p, table) && Height(p) == 1
    requires WalksFrom(m, l, q, t, path) && PageOn(q, path) == Under(p, i)
    ensures var e := m[table][i];
            var r := Walk(m, t, Height(q), path, user);
            if Present(e) then
              r.Some? && r.value.entry == e && r.value.height == 1 && (Lower(q) ==> r.value.user == (user && UserBit(e)))
            else r == None
    decreases Height(q)
  {
    var index := IndexAt(path, Height(q));
    var next := Under(q, index);
    NextTable(m, l, q, t, path);
    PageOnWithin(next, path);
    if Height(q) == 1 {
      WithinIsBelow(Under(p, i), next);
      assert next == Under(p, i);
    } else {
      assert Within(p, next) by {
        assert Height(next) >= 1;
        assert Within(Under(p, i), next);
      }
      if NodeAt(m, next) == None {
        NothingBelow(m, next, p);
        assert false;
      }
      var w := m[t][index];
      if Lower(q) {
        assert IsTable(m, l, q, t);
      }
      WalkArrives(m, l, p, table, i, next, FrameOf(w), path, user && UserBit(w));
    }
  }

  // ---------------------------------------------------------------- from the root

  /** A walk of a described address is a walk in the trees from its entrance. */
  lemma TranslateIs(m: Memory, l: Layout, root: Frame, path: Path)
    requires HalfShared(m, l) && Described(l, root, path)
    ensures var q := Entrance(l, root, path);
            var t := if path.l4 == WINDOW_INDEX then l.window else root;
            WalksFrom(m, l, q, t, path)
            && Translate(m, root, path) == Walk(m, t, Height(q), path, path.l4 == WINDOW_INDEX ==> UserBit(m[l.boot][WINDOW_INDEX]))
  {
  }

  /** Memory in which every described address translates as before. */
  ghost predicate SameTranslations(m: Memory, m2: Memory, l: Layout) {
    forall root: Frame, path: Path | Described(l, root, path) :: Translate(m2, root, path) == Translate(m, root, path)
  }

  ghost predicate SameWalk(m: Memory, m2: Memory, l: Layout, q: Place, t: Frame, path: Path, user: bool) {
    WalksFrom(m2, l, q, t, path) && Walk(m2, t, Height(q), path, user) == Walk(m, t, Height(q), path, user)
  }

  /** Memory in which every walk in the trees is the same, from whichever table. */
  ghost predicate SameWalks(m: Memory, m2: Memory, l: Layout) {
    && m2[l.boot] == m[l.boot]
    && forall q: Place, t: Frame, path: Path, user: bool | WalksFrom(m, l, q, t, path) :: SameWalk(m, m2, l, q, t, path, user)
  }

  lemma SameWalksTranslate(m: Memory, m2: Memory, l: Layout)
    requires SameWalks(m, m2, l) && HalfShared(m, l) && HalfShared(m2, l)
    ensures SameTranslations(m, m2, l)
  {
    hide Walk, WalksFrom, HalfShared, Described, Translate;
    forall root: Frame, path: Path | Described(l, root, path) ensures Translate(m2, root, path) == Translate(m, root, path) {
      TranslateIs(m, l, root, path);
      TranslateIs(m2, l, root, path);
      var t := if path.l4 == WINDOW_INDEX then l.window else root;
      assert SameWalk(m, m2, l, Entrance(l, root, path), t, path, path.l4 == WINDOW_INDEX ==> UserBit(m[l.boot][WINDOW_INDEX]));
    }
  }

  lemma LinkKeepsWalks(s: Machine, l: Layout, p: Place, table: Frame, i: Index, frame: Frame, link: bool)
    requires Trees(s, l) && CanLink(s, l, p, table, i, frame, link)
    ensures SameWalks(s.memory, Linked(s.memory, table, i, frame, link), l)
  {
    hide Walk, Linked, TablesApart, TablesHeld, LowerLinks, HalfShared;
    var m2 := Linked(s.memory, table, i, frame, link);
    LinkKeepsBoot(s, l, p, table, i, frame, link);
    LinkNodes(s, l, p, table, i, frame, link);
    forall q: Place, t: Frame, path: Path, user: bool | WalksFrom(s.memory, l, q, t, path)
      ensures SameWalk(s.memory, m2, l, q, t, path, user)
    {
      assert IsNode(m2, l, q, t);
      LinkKeepsWalk(s, l, p, table, i, frame, link, q, t, path, user);
    }
  }

  lemma LinkKeepsBoot(s: Machine, l: Layout, p: Place, table: Frame, i: Index, frame: Frame, link: bool)
    requires Trees(s, l) && CanLink(s, l, p, table, i, frame, link)
    ensures Linked(s.memory, table, i, frame, link)[l.boot] == s.memory[l.boot]
  {
    assert Held(s, l, p, table);
  }

  /** Two described addresses with the same page place share the page. */
  lemma PagePlaceIsPage(l: Layout, r1: Frame, path1: Path, r2: Frame, path2: Path)
    requires PagePlace(l, r1, path1) == PagePlace(l, r2, path2)
    ensures path1 == path2 && (r1 == r2 || path1.l4 == WINDOW_INDEX)
  {
    PagePlaceSpelled(l, r1, path1);
    PagePlaceSpelled(l, r2, path2);
  }

  lemma PagePlaceSpelled(l: Layout, r: Frame, path: Path)
    ensures PagePlace(l, r, path)
         == Under(Under(Under(if path.l4 == WINDOW_INDEX then Window(l.window) else Under(Root(r), path.l4), path.l3), path.l2), path.l1)
  {
    var top := if path.l4 == WINDOW_INDEX then Window(l.window) else Under(Root(r), path.l4);
    assert PagePlace(l, r, path) == PageOn(top, path);
    var second := Under(top, path.l3);
    assert PageOn(top, path) == PageOn(second, path);
    var third := Under(second, path.l2);
    assert PageOn(second, path) == PageOn(third, path);
  }
}
