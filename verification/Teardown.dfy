/** `destroy_user_address_space`: the recursion that clears entries while it frees. */
module Teardown {
  import opened Wrappers
  import opened Words
  import opened FrameSets
  import opened PageWords
  import opened PageTree
  import opened AddressSpaces
  import opened PageWalks
  import opened PageLeaves
  import opened Mapping
  import opened SpaceLife

  /** A root gives up its user half only. */
  function Entries(height: int): nat {
    if height == 4 then 256 else 512
  }

  /** Whether the recursion frees what an entry leads to, rather than entering it. */
  predicate FreesChild(height: int, e: U64) {
    height <= 1 || (height < 4 && Huge(e))
  }

  /** `release_user_table` from entry `i` on, and `destroy_user_address_space` at height 4:
      the state afterwards and the frames passed to `free_physical_frame`, in order. */
  ghost function ReleaseFrom(s: Machine, table: Frame, height: nat, i: nat): (Machine, seq<Frame>)
    decreases height, 512 - i
  {
    if i >= Entries(height) then (s.(frames := Release(s.frames, table)), [table])
    else
      var e := s.memory[table][i];
      if !Present(e) then ReleaseFrom(s, table, height, i + 1)
      else
        var (s1, log) :=
          if FreesChild(height, e) then (s.(frames := Release(s.frames, FrameOf(e))), [FrameOf(e)])
          else ReleaseFrom(s, FrameOf(e), height - 1, 0);
        var (s2, rest) := ReleaseFrom(s1.(memory := WithEntry(s1.memory, table, i, 0)), table, height, i + 1);
        (s2, log + rest)
  }

  ghost function DestroySpace(s: Machine, root: Frame): (Machine, seq<Frame>) {
    ReleaseFrom(s, root, 4, 0)
  }

  /** The same list of frames, read off memory that nobody changes meanwhile. */
  function Freed(m: Memory, table: Frame, height: nat, i: nat): (r: seq<Frame>)
    ensures table in r
    decreases height, 512 - i
  {
    if i >= Entries(height) then [table]
    else
      var e := m[table][i];
      if !Present(e) then Freed(m, table, height, i + 1)
      else FreedChild(m, table, height, i) + Freed(m, table, height, i + 1)
  }

  function FreedChild(m: Memory, table: Frame, height: nat, i: nat): seq<Frame>
    requires i < Entries(height)
    decreases height, 512 - i, 0
  {
    var e := m[table][i];
    if FreesChild(height, e) then [FrameOf(e)] else Freed(m, FrameOf(e), height - 1, 0)
  }

  lemma DistinctParts(a: seq<Frame>, b: seq<Frame>)
    requires Distinct(a + b)
    ensures Distinct(a) && Distinct(b)
    ensures forall f: Frame :: !(f in a && f in b)
  {
    assert forall i | 0 <= i < |a| :: (a + b)[i] == a[i];
    assert forall j | 0 <= j < |b| :: (a + b)[|a| + j] == b[j];
  }

  lemma DistinctJoin(a: seq<Frame>, b: seq<Frame>)
    requires Distinct(a) && Distinct(b) && forall f: Frame :: !(f in a && f in b)
    ensures Distinct(a + b)
  {
    forall i, j | 0 <= i < j < |a + b| ensures (a + b)[i] != (a + b)[j] {
      if i < |a| && |a| <= j {
        assert (a + b)[i] in a && (a + b)[j] in b;
      }
    }
  }

  /** `m` still has what the recursion has yet to read of `m0`. */
  ghost predicate StillThere(m0: Memory, m: Memory, table: Frame, height: nat, i: nat) {
    && (forall f: Frame | f in Freed(m0, table, height, i) && f != table :: m[f] == m0[f])
    && (forall j: Index | i <= j :: m[table][j] == m0[table][j])
  }

  /** Clearing entries on the way does not mislead the recursion when no frame occurs
      twice below the table. */
  lemma {:induction false} ReleaseIsFreed(m0: Memory, s: Machine, table: Frame, height: nat, i: nat)
    requires Distinct(Freed(m0, table, height, i)) && StillThere(m0, s.memory, table, height, i)
    ensures var (s2, log) := ReleaseFrom(s, table, height, i);
            && log == Freed(m0, table, height, i)
            && s2.frames == ReleaseAll(s.frames, log)
            && (forall f: Frame | f !in log :: s2.memory[f] == s.memory[f])
    decreases height, 512 - i
  {
    if i >= Entries(height) {
      assert ReleaseAll(s.frames, [table]) == Release(s.frames, table);
    } else {
      var e := s.memory[table][i];
      var rest := Freed(m0, table, height, i + 1);
      var index: Index := i;
      assert m0[table][index] == e;
      if !Present(e) {
        ReleaseIsFreed(m0, s, table, height, i + 1);
      } else {
        var part := FreedChild(m0, table, height, i);
        DistinctParts(part, rest);
        var s1 := ReleaseChild(m0, s, table, height, i);
        var s1c := s1.(memory := WithEntry(s1.memory, table, i, 0));
        assert StillThere(m0, s1c.memory, table, height, i + 1);
        ReleaseIsFreed(m0, s1c, table, height, i + 1);
        ReleaseAllConcat(s.frames, part, rest);
      }
    }
  }

  lemma {:induction false} ReleaseChild(m0: Memory, s: Machine, table: Frame, height: nat, i: nat) returns (s1: Machine)
    requires i < Entries(height) && Present(m0[table][i])
    requires Distinct(Freed(m0, table, height, i)) && StillThere(m0, s.memory, table, height, i)
    ensures var e := s.memory[table][i];
            var part := FreedChild(m0, table, height, i);
            && e == m0[table][i]
            && (s1, part) == (if FreesChild(height, e) then (s.(frames := Release(s.frames, FrameOf(e))), [FrameOf(e)])
                              else ReleaseFrom(s, FrameOf(e), height - 1, 0))
            && s1.frames == ReleaseAll(s.frames, part)
            && (forall f: Frame | f !in part :: s1.memory[f] == s.memory[f])
    decreases height, 512 - i, 0
  {
    var index: Index := i;
    var e := s.memory[table][index];
    assert m0[table][index] == e;
    var part := FreedChild(m0, table, height, i);
    DistinctParts(part, Freed(m0, table, height, i + 1));
    if FreesChild(height, e) {
      s1 := s.(frames := Release(s.frames, FrameOf(e)));
      assert ReleaseAll(s.frames, [FrameOf(e)]) == Release(s.frames, FrameOf(e));
    } else {
      assert FrameOf(e) in part;
      assert StillThere(m0, s.memory, FrameOf(e), height - 1, 0);
      ReleaseIsFreed(m0, s, FrameOf(e), height - 1, 0);
      s1 := ReleaseFrom(s, FrameOf(e), height - 1, 0).0;
    }
  }

  // ------------------------------------------------------- the frames and the places

  /** The entry of `p` under which `q` hangs. */
  function IndexUnder(q: Place, p: Place): nat {
    if !q.Under? then 0 else if q.parent == p then q.index else IndexUnder(q.parent, p)
  }

  /** `q` is `p` itself, or hangs from an entry of `p` not before `i`. */
  predicate BelowFrom(q: Place, p: Place, i: nat) {
    Within(q, p) && (q == p || IndexUnder(q, p) >= i)
  }

  lemma {:induction false} UnderItsIndex(q: Place, p: Place, i: Index)
    ensures Within(q, Under(p, i)) ==> Within(q, p) && q != p && IndexUnder(q, p) == i
    ensures Within(q, p) && q != p && IndexUnder(q, p) == i ==> Within(q, Under(p, i))
  {
    if q.Under? {
      UnderItsIndex(q.parent, p, i);
    }
    if Within(q, Under(p, i)) {
      WithinTransitive(q, Under(p, i), p);
      WithinIsBelow(q, Under(p, i));
    }
  }

  /** A node strictly below a table hangs from a present entry of it. */
  lemma {:induction false} EntryAbove(m: Memory, l: Layout, p: Place, table: Frame, q: Place, g: Frame)
    requires IsNode(m, l, p, table) && IsNode(m, l, q, g) && Within(q, p) && q != p
    ensures IndexUnder(q, p) < 512
    ensures var i: Index := IndexUnder(q, p);
            && InTree(l, Under(p, i)) && Height(p) >= 1 && Within(q, Under(p, i))
            && Target(Height(p), m[table][i]).Some? && IsTableOrPage(m, l, Under(p, i), m[table][i])
  {
    var up := q.parent;
    if up == p {
      assert q == Under(p, q.index);
    } else {
      EntryAbove(m, l, p, table, up, NodeAt(m, up).value);
    }
  }

  ghost predicate IsTableOrPage(m: Memory, l: Layout, p: Place, e: U64) {
    IsNode(m, l, p, FrameOf(e))
  }

  /** A user table with no entry before `i` freed yet. */
  ghost predicate UserTableAt(m: Memory, l: Layout, p: Place, table: Frame, height: nat, i: nat) {
    IsTable(m, l, p, table) && Lower(p) && Height(p) == height && i <= Entries(height)
  }

  lemma {:induction false} LowerRoot(l: Layout, p: Place)
    requires InTree(l, p) && Lower(p)
    ensures Height(p) == 4 ==> p.Root?
    ensures 0 <= Height(p) <= 4
  {
    TreeHeight(l, p);
  }

  /** What a present entry of a user table leads to. */
  lemma ChildNode(m: Memory, l: Layout, p: Place, table: Frame, height: nat, i: nat)
    requires LowerLinks(m, l) && UserTableAt(m, l, p, table, height, i) && i < Entries(height) && Present(m[table][i])
    ensures var c := Under(p, i);
            && IsNode(m, l, c, FrameOf(m[table][i])) && Lower(c) && Height(c) == height - 1
            && (FreesChild(height, m[table][i]) <==> height == 1)
  {
    LowerRoot(l, p);
    var index: Index := i;
    assert height >= 2 ==> !Huge(m[table][index]);
  }

  /** Every frame freed is a node below the table. */
  lemma {:induction false} FreedIsNode(m: Memory, l: Layout, p: Place, table: Frame, height: nat, i: nat,
      g: Frame) returns (q: Place)
    requires LowerLinks(m, l) && UserTableAt(m, l, p, table, height, i) && g in Freed(m, table, height, i)
    ensures IsNode(m, l, q, g) && BelowFrom(q, p, i)
    decreases height, 512 - i
  {
    if i >= Entries(height) {
      q := p;
    } else if !Present(m[table][i]) {
      q := FreedIsNode(m, l, p, table, height, i + 1, g);
    } else if g in FreedChild(m, table, height, i) {
      q := FreedChildIsNode(m, l, p, table, height, i, g);
      UnderItsIndex(q, p, i);
    } else {
      q := FreedIsNode(m, l, p, table, height, i + 1, g);
    }
  }

  lemma {:induction false} FreedChildIsNode(m: Memory, l: Layout, p: Place, table: Frame, height: nat, i: nat,
      g: Frame) returns (q: Place)
    requires LowerLinks(m, l) && UserTableAt(m, l, p, table, height, i) && i < Entries(height) && Present(m[table][i])
    requires g in FreedChild(m, table, height, i)
    ensures IsNode(m, l, q, g) && Within(q, Under(p, i))
    decreases height, 512 - i, 0
  {
    ChildNode(m, l, p, table, height, i);
    if height == 1 {
      q := Under(p, i);
    } else {
      q := FreedIsNode(m, l, Under(p, i), FrameOf(m[table][i]), height - 1, 0, g);
    }
  }

  /** Every node below the table is freed. */
  lemma {:induction false} NodeIsFreed(m: Memory, l: Layout, p: Place, table: Frame, height: nat, i: nat, q: Place,
      g: Frame)
    requires LowerLinks(m, l) && UserTableAt(m, l, p, table, height, i) && IsNode(m, l, q, g) && BelowFrom(q, p, i)
    ensures g in Freed(m, table, height, i)
    decreases height, 512 - i
  {
    if q == p {
    } else {
      EntryAbove(m, l, p, table, q, g);
      LowerRoot(l, p);
      if !Present(m[table][i]) {
        NodeIsFreed(m, l, p, table, height, i + 1, q, g);
      } else if IndexUnder(q, p) == i {
        ChildNode(m, l, p, table, height, i);
        UnderItsIndex(q, p, i);
        if height == 1 {
          TreeHeight(l, q);
          WithinIsBelow(q, Under(p, i));
        } else {
          NodeIsFreed(m, l, Under(p, i), FrameOf(m[table][i]), height - 1, 0, q, g);
        }
      } else {
        NodeIsFreed(m, l, p, table, height, i + 1, q, g);
      }
    }
  }

  /** A user node's frame came from the allocator. */
  lemma {:induction false} LowerIsTaken(s: Machine, l: Layout, q: Place, g: Frame)
    requires TablesHeld(s, l) && LeavesHeld(s, l) && IsNode(s.memory, l, q, g) && Lower(q)
    ensures g in s.frames.taken
  {
    TreeHeight(l, q);
    if Height(q) >= 1 {
      assert IsTable(s.memory, l, q, g);
      assert Held(s, l, q, g);
    } else {
      assert LeafHeld(s, q, g);
    }
  }

  lemma {:induction false} WithinLower(q: Place, p: Place)
    requires Within(q, p)
    ensures Lower(q) == Lower(p)
  {
    if q != p {
      WithinLower(q.parent, p);
    }
  }

  /** No frame is freed twice, because no frame is at two places. */
  lemma {:induction false} FreedOnce(s: Machine, l: Layout, p: Place, table: Frame, height: nat, i: nat)
    requires TablesHeld(s, l) && LeavesHeld(s, l) && NodesApart(s, l) && LowerLinks(s.memory, l)
    requires UserTableAt(s.memory, l, p, table, height, i)
    ensures Distinct(Freed(s.memory, table, height, i))
    decreases height, 512 - i
  {
    hide TablesHeld, LeavesHeld, LowerLinks;
    var m := s.memory;
    if i < Entries(height) {
      FreedOnce(s, l, p, table, height, i + 1);
      if Present(m[table][i]) {
        var a, b := FreedChild(m, table, height, i), Freed(m, table, height, i + 1);
        ChildNode(m, l, p, table, height, i);
        if height >= 2 {
          FreedOnce(s, l, Under(p, i), FrameOf(m[table][i]), height - 1, 0);
        }
        forall g: Frame ensures !(g in a && g in b) {
          if g in a && g in b {
            FreedApart(s, l, p, table, height, i, g);
          }
        }
        DistinctJoin(a, b);
      }
    }
  }

  lemma FreedApart(s: Machine, l: Layout, p: Place, table: Frame, height: nat, i: nat, g: Frame)
    requires TablesHeld(s, l) && LeavesHeld(s, l) && NodesApart(s, l) && LowerLinks(s.memory, l)
    requires UserTableAt(s.memory, l, p, table, height, i) && i < Entries(height) && Present(s.memory[table][i])
    requires g in FreedChild(s.memory, table, height, i)
    ensures g !in Freed(s.memory, table, height, i + 1)
  {
    if g in Freed(s.memory, table, height, i + 1) {
      var q := FreedChildIsNode(s.memory, l, p, table, height, i, g);
      var r := FreedIsNode(s.memory, l, p, table, height, i + 1, g);
      UnderItsIndex(q, p, i);
      WithinLower(r, p);
      LowerIsTaken(s, l, r, g);
    }
  }

  // --------------------------------------------------------------- the main results

  function Shrunk(l: Layout, root: Frame): Layout {
    l.(roots := l.roots - {root})
  }

  /** The frames an address space owns: its root, its user tables and its user pages. */
  ghost predicate OwnedBy(m: Memory, l: Layout, root: Frame, g: Frame) {
    exists q: Place :: IsNode(m, l, q, g) && Within(q, Root(root))
  }

  /** What `destroy_user_address_space` frees, in which order it does not matter: every frame
      the address space owns, each once, and no other frame. */
  lemma DestroyFrees(s: Machine, l: Layout, root: Frame)
    requires Trees(s, l) && LeavesHeld(s, l) && NodesApart(s, l) && root in l.roots
    ensures var (s2, log) := DestroySpace(s, root);
            && Distinct(log)
            && (forall g: Frame :: g in log <==> OwnedBy(s.memory, l, root, g))
            && (forall g: Frame | g in log :: g in s.frames.taken)
            && s2.frames == Frames(s.frames.vacant + (set g: Frame | g in log), s.frames.taken - (set g: Frame | g in log))
            && (forall g: Frame | g !in log :: s2.memory[g] == s.memory[g])
  {
    hide Freed, ReleaseFrom, Distinct, TablesApart, HalfShared, NodesApart, LowerLinks, LeavesHeld, TablesHeld;
    assert TablesHeld(s, l) && LowerLinks(s.memory, l);
    var p := Root(root);
    var log := Freed(s.memory, root, 4, 0);
    assert UserTableAt(s.memory, l, p, root, 4, 0);
    FreedOnce(s, l, p, root, 4, 0);
    ReleaseIsFreed(s.memory, s, root, 4, 0);
    forall g: Frame ensures g in log <==> OwnedBy(s.memory, l, root, g) {
      if g in log {
        var q := FreedIsNode(s.memory, l, p, root, 4, 0, g);
        assert Within(q, p);
      }
      if OwnedBy(s.memory, l, root, g) {
        var q: Place :| IsNode(s.memory, l, q, g) && Within(q, p);
        NodeIsFreed(s.memory, l, p, root, 4, 0, q, g);
      }
    }
    forall g: Frame | g in log ensures g in s.frames.taken {
      var q := FreedIsNode(s.memory, l, p, root, 4, 0, g);
      WithinLower(q, p);
      LowerIsTaken(s, l, q, g);
    }
    LogMoves(s.frames, log);
  }

  lemma LogMoves(frames: Frames, log: seq<Frame>)
    requires Sound(frames) && Distinct(log) && forall g: Frame | g in log :: g in frames.taken
    ensures ReleaseAll(frames, log)
         == Frames(frames.vacant + (set g: Frame | g in log), frames.taken - (set g: Frame | g in log))
  {
    ReleaseAllIs(frames, log);
    assert (set g: Frame | g in log) == (set g: nat | g in log);
  }

  lemma {:induction false} ShrunkTree(l: Layout, root: Frame, q: Place)
    ensures InTree(Shrunk(l, root), q) <==> InTree(l, q) && !Within(q, Root(root))
  {
    if q.Under? {
      ShrunkTree(l, root, q.parent);
    }
  }

  /** Nothing outside the address space moves. */
  lemma DestroyNodes(s: Machine, l: Layout, root: Frame)
    requires Trees(s, l) && LeavesHeld(s, l) && NodesApart(s, l) && root in l.roots
    ensures var (s2, log) := DestroySpace(s, root);
            && (forall q: Place, g: Frame :: IsNode(s2.memory, Shrunk(l, root), q, g) <==> IsNode(s.memory, l, q, g) && !Within(q, Root(root)))
            && (forall q: Place, g: Frame :: IsNode(s.memory, l, q, g) && !Within(q, Root(root)) ==> g !in log)
  {
    hide DestroySpace, NodeAt, TablesApart, HalfShared, LowerLinks, LeavesHeld, TablesHeld;
    var (s2, log) := DestroySpace(s, root);
    DestroyFrees(s, l, root);
    forall q: Place, g: Frame | IsNode(s.memory, l, q, g) && !Within(q, Root(root)) ensures g !in log {
      assert g in log ==> OwnedBy(s.memory, l, root, g);
    }
    var changed := set g: Frame | g in log;
    forall q: Place, g: Frame
      ensures IsNode(s2.memory, Shrunk(l, root), q, g) <==> IsNode(s.memory, l, q, g) && !Within(q, Root(root))
    {
      ShrunkTree(l, root, q);
      if InTree(Shrunk(l, root), q) {
        FramesKeepNode(s.memory, s2.memory, l, changed, Root(root), q);
      }
    }
  }

  lemma DestroyKeepsTrees(s: Machine, l: Layout, root: Frame)
    requires Trees(s, l) && LeavesHeld(s, l) && NodesApart(s, l) && root in l.roots
    ensures Trees(DestroySpace(s, root).0, Shrunk(l, root))
    ensures DestroySpace(s, root).0.memory[l.boot] == s.memory[l.boot]
  {
    hide DestroySpace, NodeAt, LeavesHeld, NodesApart;
    var (s2, log) := DestroySpace(s, root);
    var l2 := Shrunk(l, root);
    DestroyFrees(s, l, root);
    DestroyNodes(s, l, root);
    assert forall q: Place, f: Frame :: IsTable(s2.memory, l2, q, f) ==> IsTable(s.memory, l, q, f);
    forall q: Place, f: Frame | IsTable(s2.memory, l2, q, f) ensures Held(s2, l2, q, f) && s2.memory[f] == s.memory[f] {
      assert Held(s, l, q, f);
      assert IsNode(s.memory, l, q, f) && !Within(q, Root(root));
    }
    assert l.boot !in log;
    assert s2.memory[l.boot] == s.memory[l.boot];
    forall r: Frame, i: Index | r in l2.roots && 256 <= i ensures s2.memory[r][i] == s2.memory[l.boot][i] {
      RootStands(s, l, root, r);
      assert s2.memory[r] == s.memory[r];
    }
    forall q: Place, f: Frame, i: Index |
      IsTable(s2.memory, l2, q, f) && Lower(q) && Height(q) >= 2 && (q.Root? ==> i < 256) && Present(s2.memory[f][i])
      ensures !Huge(s2.memory[f][i]) && UserBit(s2.memory[f][i])
    {
      assert IsTable(s.memory, l, q, f);
    }
  }

  lemma RootStands(s: Machine, l: Layout, root: Frame, r: Frame)
    requires Trees(s, l) && LeavesHeld(s, l) && NodesApart(s, l) && root in l.roots && r in l.roots && r != root
    ensures r !in DestroySpace(s, root).1
  {
    hide DestroySpace, Trees, LeavesHeld, NodesApart;
    DestroyNodes(s, l, root);
    assert IsNode(s.memory, l, Root(r), r) && !Within(Root(r), Root(root));
  }

  lemma DestroyKeepsOwned(s: Machine, l: Layout, root: Frame, loose: set<nat>)
    requires Owned(s, l, loose) && root in l.roots
    ensures Owned(DestroySpace(s, root).0, Shrunk(l, root), loose)
  {
    hide DestroySpace, NodeAt, TablesApart, HalfShared, LowerLinks, TablesHeld;
    var (s2, log) := DestroySpace(s, root);
    var l2 := Shrunk(l, root);
    DestroyKeepsTrees(s, l, root);
    DestroyNodes(s, l, root);
    DestroyFrees(s, l, root);
    forall q: Place, f: Frame | IsNode(s2.memory, l2, q, f) && Height(q) == 0 ensures LeafHeld(s2, q, f) {
      assert IsNode(s.memory, l, q, f);
      assert LeafHeld(s, q, f);
    }
    assert NodesApart(s2, l2) by {
      forall q: Place, r: Place, f: Frame | IsNode(s2.memory, l2, q, f) && IsNode(s2.memory, l2, r, f) && f in s2.frames.taken
        ensures q == r
      {
        assert IsNode(s.memory, l, q, f) && IsNode(s.memory, l, r, f);
      }
    }
    DestroyAccounts(s, l, root, loose);
  }

  lemma DestroyAccounts(s: Machine, l: Layout, root: Frame, loose: set<nat>)
    requires Owned(s, l, loose) && root in l.roots
    ensures Accounted(DestroySpace(s, root).0, Shrunk(l, root), loose)
  {
    hide DestroySpace, NodeAt, TablesApart, HalfShared, LowerLinks, TablesHeld;
    var (s2, log) := DestroySpace(s, root);
    var l2 := Shrunk(l, root);
    DestroyNodes(s, l, root);
    DestroyFrees(s, l, root);
    forall f: nat | f in loose ensures f in s2.frames.taken {
      assert f < FRAME_COUNT;
      var g: Frame := f;
      assert !Mapped(s.memory, l, g);
      assert !OwnedBy(s.memory, l, root, g);
    }
    forall f: Frame | f in s2.frames.taken ensures f in loose <==> !Mapped(s2.memory, l2, f) {
      if Mapped(s.memory, l, f) {
        var q: Place :| IsNode(s.memory, l, q, f);
        assert Within(q, Root(root)) ==> OwnedBy(s.memory, l, root, f);
        assert IsNode(s2.memory, l2, q, f);
      }
    }
  }

  /** The other address spaces, and the kernel half, translate as before. */
  lemma DestroyKeepsTranslations(s: Machine, l: Layout, root: Frame)
    requires Trees(s, l) && LeavesHeld(s, l) && NodesApart(s, l) && root in l.roots
    ensures SameTranslations(s.memory, DestroySpace(s, root).0.memory, Shrunk(l, root))
  {
    hide DestroySpace, NodeAt, Walk, TablesApart, TablesHeld, LowerLinks, LeavesHeld, NodesApart;
    var (s2, log) := DestroySpace(s, root);
    var l2 := Shrunk(l, root);
    DestroyKeepsTrees(s, l, root);
    DestroyFrees(s, l, root);
    DestroyNodes(s, l, root);
    var changed := set g: Frame | g in log;
    forall r: Frame, path: Path | Described(l2, r, path) ensures Translate(s2.memory, r, path) == Translate(s.memory, r, path) {
      TranslateIs(s.memory, l, r, path);
      TranslateIs(s2.memory, l2, r, path);
      var q := Entrance(l, r, path);
      var t := if path.l4 == WINDOW_INDEX then l.window else r;
      PageOnInTree(l2, q, path);
      ShrunkTree(l, root, PageOn(q, path));
      FramesKeepWalk(s.memory, s2.memory, l, changed, Root(root), q, t, path,
                     path.l4 == WINDOW_INDEX ==> UserBit(s.memory[l.boot][WINDOW_INDEX]));
    }
  }
}
