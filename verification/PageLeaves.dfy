/** Writing the entry of one page. */
module PageLeaves {
  import opened Wrappers
  import opened Words
  import opened FrameSets
  import opened PageWords
  import opened PageTree
  import opened AddressSpaces
  import opened PageWalks

  /** `table` is the table at `p`, one level above the pages. */
  ghost predicate AtLeaf(m: Memory, l: Layout, p: Place, table: Frame, i: Index) {
    IsTable(m, l, p, table) && Height(p) == 1 && InTree(l, Under(p, i))
  }

  lemma OnlyPageBelow(l: Layout, p: Place, i: Index, q: Place)
    requires InTree(l, q) && Height(p) == 1 && Within(q, Under(p, i))
    ensures q == Under(p, i)
  {
    TreeHeight(l, q);
    WithinIsBelow(q, Under(p, i));
  }

  /** Exactly one node depends on the entry. */
  lemma LeafNodes(m: Memory, l: Layout, p: Place, table: Frame, i: Index, e: U64)
    requires TablesApart(m, l) && AtLeaf(m, l, p, table, i)
    ensures var m2 := WithEntry(m, table, i, e);
            forall q: Place, g: Frame ::
              IsNode(m2, l, q, g) <==> if q == Under(p, i) then Target(1, e) == Some(g) else IsNode(m, l, q, g)
  {
    hide TablesApart, WithEntry, Target;
    var m2 := WithEntry(m, table, i, e);
    forall q: Place, g: Frame
      ensures IsNode(m2, l, q, g) <==> if q == Under(p, i) then Target(1, e) == Some(g) else IsNode(m, l, q, g)
    {
      if q == Under(p, i) {
        EntrySetsNode(m, l, p, table, i, e);
      } else if InTree(l, q) {
        if Within(q, Under(p, i)) {
          OnlyPageBelow(l, p, i, q);
        }
        EntryKeepsNode(m, l, p, table, i, e, q);
      }
    }
  }

  lemma LeafKeepsTrees(s: Machine, l: Layout, p: Place, table: Frame, i: Index, e: U64)
    requires Trees(s, l) && AtLeaf(s.memory, l, p, table, i)
    ensures Trees(s.(memory := WithEntry(s.memory, table, i, e)), l)
    ensures WithEntry(s.memory, table, i, e)[l.boot] == s.memory[l.boot]
  {
    hide Target;
    var s2 := s.(memory := WithEntry(s.memory, table, i, e));
    LeafNodes(s.memory, l, p, table, i, e);
    assert forall q: Place, f: Frame :: IsTable(s2.memory, l, q, f) ==> IsTable(s.memory, l, q, f);
    assert Held(s, l, p, table);
    forall q: Place, f: Frame | IsTable(s2.memory, l, q, f) ensures Held(s2, l, q, f) {
      assert Held(s, l, q, f);
    }
    forall q: Place, f: Frame, j: Index |
      IsTable(s2.memory, l, q, f) && Lower(q) && Height(q) >= 2 && (q.Root? ==> j < 256) && Present(s2.memory[f][j])
      ensures !Huge(s2.memory[f][j]) && UserBit(s2.memory[f][j])
    {
      assert IsTable(s.memory, l, q, f);
      assert f == table ==> q == p;
    }
    assert HalfShared(s2.memory, l) by {
      forall r: Frame, j: Index | r in l.roots && 256 <= j ensures s2.memory[r][j] == s2.memory[l.boot][j] {
        assert IsTable(s.memory, l, Root(r), r);
        assert r == table ==> Root(r) == p;
      }
    }
  }

  /** Every described address but the entry's own translates as before. */
  lemma LeafKeepsTranslations(s: Machine, l: Layout, p: Place, table: Frame, i: Index, e: U64, root: Frame, path: Path)
    requires Trees(s, l) && AtLeaf(s.memory, l, p, table, i)
    requires Described(l, root, path) && PagePlace(l, root, path) != Under(p, i)
    ensures Translate(WithEntry(s.memory, table, i, e), root, path) == Translate(s.memory, root, path)
  {
    hide Walk, TablesApart, TablesHeld, LowerLinks, WithEntry;
    var m2 := WithEntry(s.memory, table, i, e);
    LeafKeepsTrees(s, l, p, table, i, e);
    TranslateIs(s.memory, l, root, path);
    TranslateIs(m2, l, root, path);
    var q := Entrance(l, root, path);
    var t := if path.l4 == WINDOW_INDEX then l.window else root;
    if Within(PageOn(q, path), Under(p, i)) {
      PageOnInTree(l, q, path);
      OnlyPageBelow(l, p, i, PageOn(q, path));
    }
    EntryKeepsWalk(s.memory, l, p, table, i, e, q, t, path,
                   path.l4 == WINDOW_INDEX ==> UserBit(s.memory[l.boot][WINDOW_INDEX]));
  }

  lemma {:induction false} PageOnInTree(l: Layout, q: Place, path: Path)
    requires InTree(l, q) && (q.Root? ==> path.l4 < 256)
    ensures InTree(l, PageOn(q, path)) && Height(PageOn(q, path)) == 0
    decreases if Height(q) > 0 then Height(q) else 0
  {
    TreeHeight(l, q);
    if Height(q) > 0 {
      PageOnInTree(l, Under(q, IndexAt(path, Height(q))), path);
    }
  }

  /** The entry's own address translates to the entry. */
  lemma LeafTranslates(s: Machine, l: Layout, p: Place, table: Frame, i: Index, root: Frame, path: Path)
    requires Trees(s, l) && AtLeaf(s.memory, l, p, table, i)
    requires Described(l, root, path) && PagePlace(l, root, path) == Under(p, i)
    ensures var e := s.memory[table][i];
            var r := Translate(s.memory, root, path);
            if Present(e) then r.Some? && r.value.entry == e && r.value.height == 1 && (path.l4 < 256 ==> r.value.user == UserBit(e))
            else r == None
  {
    hide Walk, TablesApart, TablesHeld, LowerLinks;
    TranslateIs(s.memory, l, root, path);
    var q := Entrance(l, root, path);
    var t := if path.l4 == WINDOW_INDEX then l.window else root;
    WalkArrives(s.memory, l, p, table, i, q, t, path, path.l4 == WINDOW_INDEX ==> UserBit(s.memory[l.boot][WINDOW_INDEX]));
  }

  // ------------------------------------------------------------------- ownership

  /** A set-aside frame that becomes a page is accounted for there; a frame the allocator
      does not know may become a page of the window. */
  lemma NewLeafKeepsOwned(s: Machine, l: Layout, loose: set<nat>, p: Place, table: Frame, i: Index, e: U64)
    requires Owned(s, l, loose) && AtLeaf(s.memory, l, p, table, i)
    requires !Present(s.memory[table][i]) && Present(e)
    requires FrameOf(e) in loose || (!Lower(p) && FrameOf(e) !in s.frames.vacant && FrameOf(e) !in s.frames.taken)
    ensures Owned(s.(memory := WithEntry(s.memory, table, i, e)), l, loose - {FrameOf(e)})
  {
    hide TablesApart, TablesHeld, LowerLinks, HalfShared, WithEntry;
    var s2 := s.(memory := WithEntry(s.memory, table, i, e));
    var c := Under(p, i);
    LeafKeepsTrees(s, l, p, table, i, e);
    LeafNodes(s.memory, l, p, table, i, e);
    assert NodeAt(s.memory, c) == None;
    forall q: Place, f: Frame | IsNode(s2.memory, l, q, f) && Height(q) == 0 ensures LeafHeld(s2, q, f) {
      if q != c {
        assert IsNode(s.memory, l, q, f);
        assert LeafHeld(s, q, f);
      }
    }
    forall q: Place, r: Place, f: Frame | IsNode(s2.memory, l, q, f) && IsNode(s2.memory, l, r, f) && f in s2.frames.taken
      ensures q == r
    {
      if f == FrameOf(e) {
        assert !Mapped(s.memory, l, f);
        assert !IsNode(s.memory, l, q, f) && !IsNode(s.memory, l, r, f);
      } else {
        assert IsNode(s.memory, l, q, f) && IsNode(s.memory, l, r, f);
      }
    }
    forall f: Frame | f in s2.frames.taken ensures f in loose - {FrameOf(e)} <==> !Mapped(s2.memory, l, f) {
      if f == FrameOf(e) {
        assert IsNode(s2.memory, l, c, f);
      } else if Mapped(s.memory, l, f) {
        var q: Place :| IsNode(s.memory, l, q, f);
        assert IsNode(s2.memory, l, q, f);
      }
    }
  }

  /** A frame that stops being a page is set aside. */
  lemma ClearedLeafKeepsOwned(s: Machine, l: Layout, loose: set<nat>, p: Place, table: Frame, i: Index)
    requires Owned(s, l, loose) && AtLeaf(s.memory, l, p, table, i) && Present(s.memory[table][i])
    ensures var f := FrameOf(s.memory[table][i]);
            Owned(s.(memory := WithEntry(s.memory, table, i, 0)), l, if f in s.frames.taken then loose + {f} else loose)
  {
    hide TablesApart, TablesHeld, LowerLinks, HalfShared, WithEntry;
    var s2 := s.(memory := WithEntry(s.memory, table, i, 0));
    var c := Under(p, i);
    var freed := FrameOf(s.memory[table][i]);
    LeafKeepsTrees(s, l, p, table, i, 0);
    LeafNodes(s.memory, l, p, table, i, 0);
    assert IsNode(s.memory, l, c, freed);
    forall q: Place, f: Frame | IsNode(s2.memory, l, q, f) && Height(q) == 0 ensures LeafHeld(s2, q, f) {
      assert IsNode(s.memory, l, q, f);
      assert LeafHeld(s, q, f);
    }
    var loose2 := if freed in s.frames.taken then loose + {freed} else loose;
    forall f: Frame | f in s2.frames.taken ensures f in loose2 <==> !Mapped(s2.memory, l, f) {
      if Mapped(s.memory, l, f) {
        var q: Place :| IsNode(s.memory, l, q, f);
        if q != c {
          assert IsNode(s2.memory, l, q, f);
          assert f != freed;
        }
      }
    }
  }
}
