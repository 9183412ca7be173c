/** Linking a new table into a tree: nothing is translated differently, and the trees stay
    separate. */
module PageLinks {
  import opened Wrappers
  import opened Words
  import opened FrameSets
  import opened PageWords
  import opened PageTree
  import opened AddressSpaces

  /** Memory after `frame` was linked at entry `i` of `table` and cleared. */
  function Linked(m: Memory, table: Frame, i: Index, frame: Frame, user: bool): Memory {
    WithEntry(m, table, i, TableEntry(frame, user))[frame := ZeroTable()]
  }

  /** A free frame is no table. */
  lemma FreeIsNoTable(s: Machine, l: Layout, f: Frame)
    requires TablesHeld(s, l) && f in s.frames.vacant
    ensures forall p: Place :: !IsTable(s.memory, l, p, f)
  {
    forall p: Place ensures !IsTable(s.memory, l, p, f) {
      assert IsTable(s.memory, l, p, f) ==> Held(s, l, p, f);
    }
  }

  /** The places outside the new link keep their nodes. */
  lemma LinkKeepsOthers(s: Machine, l: Layout, p: Place, table: Frame, i: Index, frame: Frame, user: bool, q: Place)
    requires TablesApart(s.memory, l) && TablesHeld(s, l)
    requires IsTable(s.memory, l, p, table) && InTree(l, Under(p, i)) && frame in s.frames.vacant
    requires InTree(l, q) && !Within(q, Under(p, i))
    ensures NodeAt(Linked(s.memory, table, i, frame, user), q) == NodeAt(s.memory, q)
  {
    hide TableEntry;
    var m1 := WithEntry(s.memory, table, i, TableEntry(frame, user));
    var m2 := m1[frame := ZeroTable()];
    var c := Under(p, i);
    forall p2: Place, f: Frame | IsTable(m1, l, p2, f) && !Within(p2, c) ensures f !in {frame} {
      EntryKeepsNode(s.memory, l, p, table, i, TableEntry(frame, user), p2);
      assert IsTable(s.memory, l, p2, f);
      assert Held(s, l, p2, f);
    }
    EntryKeepsNode(s.memory, l, p, table, i, TableEntry(frame, user), q);
    FramesKeepNode(m1, m2, l, {frame}, c, q);
  }

  lemma ParentOutside(p: Place, i: Index)
    ensures !Within(p, Under(p, i))
  {
    if Within(p, Under(p, i)) {
      WithinIsBelow(p, Under(p, i));
    }
  }

  /** The new table itself, and the empty places below it. */
  lemma {:induction false} LinkBelow(s: Machine, l: Layout, p: Place, table: Frame, i: Index, frame: Frame,
      user: bool, q: Place)
    requires TablesApart(s.memory, l) && TablesHeld(s, l) && Height(p) >= 2
    requires IsTable(s.memory, l, p, table) && InTree(l, Under(p, i)) && frame in s.frames.vacant
    requires InTree(l, q) && Within(q, Under(p, i))
    ensures NodeAt(Linked(s.memory, table, i, frame, user), q) == if q == Under(p, i) then Some(frame) else None
  {
    var m := Linked(s.memory, table, i, frame, user);
    var c := Under(p, i);
    if q == c {
      ParentOutside(p, i);
      LinkKeepsOthers(s, l, p, table, i, frame, user, p);
      assert Held(s, l, p, table);
      TableEntryFields(frame, user);
      assert m[table][i] == TableEntry(frame, user);
    } else {
      LinkBelow(s, l, p, table, i, frame, user, q.parent);
      assert m[frame] == ZeroTable();
    }
  }

  /** Exactly one node is new. */
  lemma LinkNodes(s: Machine, l: Layout, p: Place, table: Frame, i: Index, frame: Frame, user: bool)
    requires TablesApart(s.memory, l) && TablesHeld(s, l) && Height(p) >= 2
    requires IsTable(s.memory, l, p, table) && InTree(l, Under(p, i)) && frame in s.frames.vacant
    requires !Present(s.memory[table][i])
    ensures var m := Linked(s.memory, table, i, frame, user);
            forall q: Place, g: Frame ::
              IsNode(m, l, q, g) <==> IsNode(s.memory, l, q, g) || (q == Under(p, i) && g == frame)
  {
    hide Linked, TablesApart, TablesHeld;
    var m := Linked(s.memory, table, i, frame, user);
    var c := Under(p, i);
    assert NodeAt(s.memory, c) == None;
    forall q: Place, g: Frame
      ensures IsNode(m, l, q, g) <==> IsNode(s.memory, l, q, g) || (q == c && g == frame)
    {
      if InTree(l, q) {
        if Within(q, c) {
          LinkBelow(s, l, p, table, i, frame, user, q);
          NothingBelow(s.memory, c, q);
        } else {
          LinkKeepsOthers(s, l, p, table, i, frame, user, q);
        }
      }
    }
  }

  // ------------------------------------------------------------------ separation

  /** The state after the free frame `frame` was linked. */
  ghost function LinkedState(s: Machine, table: Frame, i: Index, frame: Frame, user: bool): Machine {
    Machine(Linked(s.memory, table, i, frame, user), Frames(s.frames.vacant - {frame}, s.frames.taken + {frame}))
  }

  /** A link is made at a present table, at an absent entry, with a free frame, and in a
      user half only for user pages. */
  ghost predicate CanLink(s: Machine, l: Layout, p: Place, table: Frame, i: Index, frame: Frame, user: bool) {
    && IsTable(s.memory, l, p, table) && InTree(l, Under(p, i)) && Height(p) >= 2
    && frame in s.frames.vacant && !Present(s.memory[table][i])
    && (Lower(p) ==> user)
  }

  lemma LinkKeepsTables(s: Machine, l: Layout, p: Place, table: Frame, i: Index, frame: Frame, user: bool)
    requires Trees(s, l) && CanLink(s, l, p, table, i, frame, user)
    ensures var s2 := LinkedState(s, table, i, frame, user);
            TablesApart(s2.memory, l) && TablesHeld(s2, l)
  {
    hide Linked, HalfShared, LowerLinks;
    var s2 := LinkedState(s, table, i, frame, user);
    LinkNodes(s, l, p, table, i, frame, user);
    FreeIsNoTable(s, l, frame);
    forall q: Place, r: Place, f: Frame | IsTable(s2.memory, l, q, f) && IsTable(s2.memory, l, r, f) ensures q == r {
      assert IsTable(s.memory, l, q, f) || (q == Under(p, i) && f == frame);
      assert IsTable(s.memory, l, r, f) || (r == Under(p, i) && f == frame);
    }
    forall q: Place, f: Frame | IsTable(s2.memory, l, q, f) ensures Held(s2, l, q, f) {
      assert IsTable(s.memory, l, q, f) ==> Held(s, l, q, f);
    }
  }

  lemma LinkKeepsLowerLinks(s: Machine, l: Layout, p: Place, table: Frame, i: Index, frame: Frame, user: bool)
    requires Trees(s, l) && CanLink(s, l, p, table, i, frame, user)
    ensures LowerLinks(Linked(s.memory, table, i, frame, user), l)
  {
    hide HalfShared, TableEntry;
    var m := Linked(s.memory, table, i, frame, user);
    LinkNodes(s, l, p, table, i, frame, user);
    assert Held(s, l, p, table);
    forall q: Place, f: Frame, j: Index |
      IsTable(m, l, q, f) && Lower(q) && Height(q) >= 2 && (q.Root? ==> j < 256) && Present(m[f][j])
      ensures !Huge(m[f][j]) && UserBit(m[f][j])
    {
      if f != frame {
        assert IsTable(s.memory, l, q, f);
        if f == table && j == i {
          assert q == p;
          TableEntryFields(frame, user);
        }
      }
    }
  }

  lemma LinkKeepsHalf(s: Machine, l: Layout, p: Place, table: Frame, i: Index, frame: Frame, user: bool)
    requires Trees(s, l) && CanLink(s, l, p, table, i, frame, user)
    ensures HalfShared(Linked(s.memory, table, i, frame, user), l)
  {
    var m := Linked(s.memory, table, i, frame, user);
    assert Held(s, l, p, table);
    forall r: Frame, j: Index | r in l.roots && 256 <= j ensures m[r][j] == m[l.boot][j] {
      assert IsTable(s.memory, l, Root(r), r);
      assert Held(s, l, Root(r), r);
      if r == table {
        assert p == Root(r);
      }
    }
  }

  /** Linking keeps the trees separate. */
  lemma LinkKeepsTrees(s: Machine, l: Layout, p: Place, table: Frame, i: Index, frame: Frame, user: bool)
    requires Trees(s, l) && CanLink(s, l, p, table, i, frame, user)
    ensures Trees(LinkedState(s, table, i, frame, user), l)
  {
    hide TablesApart, TablesHeld, LowerLinks, HalfShared, Linked;
    LinkKeepsTables(s, l, p, table, i, frame, user);
    LinkKeepsLowerLinks(s, l, p, table, i, frame, user);
    LinkKeepsHalf(s, l, p, table, i, frame, user);
  }

  lemma FreeIsNoNode(s: Machine, l: Layout, f: Frame)
    requires TablesHeld(s, l) && LeavesHeld(s, l) && f in s.frames.vacant
    ensures forall p: Place :: !IsNode(s.memory, l, p, f)
  {
    FreeIsNoTable(s, l, f);
    forall p: Place ensures !IsNode(s.memory, l, p, f) {
      if InTree(l, p) {
        TreeHeight(l, p);
      }
      assert IsNode(s.memory, l, p, f) && Height(p) == 0 ==> LeafHeld(s, p, f);
      assert IsNode(s.memory, l, p, f) && Height(p) >= 1 ==> IsTable(s.memory, l, p, f);
    }
  }

  /** Linking accounts for the frame it takes. */
  lemma LinkKeepsOwned(s: Machine, l: Layout, loose: set<nat>, p: Place, table: Frame, i: Index, frame: Frame,
      user: bool)
    requires Owned(s, l, loose) && CanLink(s, l, p, table, i, frame, user)
    ensures Owned(LinkedState(s, table, i, frame, user), l, loose)
  {
    hide TablesApart, TablesHeld, LowerLinks, HalfShared, Linked;
    var s2 := LinkedState(s, table, i, frame, user);
    LinkKeepsTrees(s, l, p, table, i, frame, user);
    LinkNodes(s, l, p, table, i, frame, user);
    FreeIsNoNode(s, l, frame);
    forall q: Place, f: Frame | IsNode(s2.memory, l, q, f) && Height(q) == 0 ensures LeafHeld(s2, q, f) {
      assert IsNode(s.memory, l, q, f);
      assert LeafHeld(s, q, f);
    }
    forall q: Place, r: Place, f: Frame | IsNode(s2.memory, l, q, f) && IsNode(s2.memory, l, r, f) && f in s2.frames.taken
      ensures q == r
    {
      assert IsNode(s.memory, l, q, f) || (q == Under(p, i) && f == frame);
      assert IsNode(s.memory, l, r, f) || (r == Under(p, i) && f == frame);
    }
    forall f: Frame | f in s2.frames.taken ensures f in loose <==> !Mapped(s2.memory, l, f) {
      if f == frame {
        assert IsNode(s2.memory, l, Under(p, i), f);
      } else if Mapped(s.memory, l, f) {
        var q: Place :| IsNode(s.memory, l, q, f);
        assert IsNode(s2.memory, l, q, f);
      }
    }
  }
}
