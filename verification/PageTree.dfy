/**
 Four-level page tables inside one flat physical memory.

 A `Place` names a table or a page by the way to it, not by its frame: from the root of
 an address space, or from the window, the level-3 table that every root shares through
 PML4 entry 510.  `NodeAt` follows the entries in memory to the frame found there.  The
 trees are separate when no frame is found at two places.
 */
module PageTree {
  import opened Wrappers
  import opened Words
  import opened FrameSets
  import opened PageWords

  type Table = t: seq<U64> | |t| == 512 witness seq(512, _ => 0)

  type Memory = m: seq<Table> | |m| == FRAME_COUNT ghost witness seq<Table>(FRAME_COUNT, _ => ZeroTable())

  function ZeroTable(): Table {
    seq(512, _ => 0)
  }

  /** Byte `o` of a frame. */
  function TableByte(t: Table, o: nat): Byte
    requires o < 4096
  {
    ByteOf(t[o / 8], o % 8)
  }

  function SetByte(t: Table, o: nat, b: Byte): Table
    requires o < 4096
  {
    WordIsEightBytes();
    WithByteFits(t[o / 8], o % 8, b, 8);
    t[o / 8 := WithByte(t[o / 8], o % 8, b)]
  }

  /** The frame after `bytes` were written at `offset`, one after another. */
  function Overlay(t: Table, offset: nat, bytes: seq<Byte>): Table
    requires offset + |bytes| <= 4096
    decreases |bytes|
  {
    if bytes == [] then t else Overlay(SetByte(t, offset, bytes[0]), offset + 1, bytes[1..])
  }

  lemma ByteAfterSet(t: Table, o: nat, b: Byte, j: nat)
    requires o < 4096 && j < 4096
    ensures TableByte(SetByte(t, o, b), j) == if j == o then b else TableByte(t, j)
  {
    hide ByteOf, WithByte;
    assert j == o <==> j / 8 == o / 8 && j % 8 == o % 8;
    ByteOfWithByte(t[o / 8], o % 8, b, j % 8);
  }

  /** Writing bytes into a frame changes those bytes and no others. */
  lemma {:induction false} ByteAfterOverlay(t: Table, offset: nat, bytes: seq<Byte>, j: nat)
    requires offset + |bytes| <= 4096 && j < 4096
    ensures TableByte(Overlay(t, offset, bytes), j)
         == if offset <= j < offset + |bytes| then bytes[j - offset] else TableByte(t, j)
    decreases |bytes|
  {
    hide TableByte, SetByte;
    if bytes != [] {
      ByteAfterSet(t, offset, bytes[0], j);
      ByteAfterOverlay(SetByte(t, offset, bytes[0]), offset + 1, bytes[1..], j);
    }
  }

  lemma {:induction false} ZeroBytes(k: nat)
    ensures ByteOf(0, k) == 0
  {
    if k > 0 {
      ZeroBytes(k - 1);
    }
  }

  /** PML4 entry of the device window and the kernel stacks. */
  const WINDOW_INDEX: Index := 510

  datatype Place = Root(frame: Frame) | Window(frame: Frame) | Under(parent: Place, index: Index)

  /** What is not in memory: the boot loader's root, the window's table, and the roots of
      the user address spaces. */
  datatype Layout = Layout(boot: Frame, window: Frame, roots: set<Frame>)

  datatype Machine = Machine(memory: Memory, frames: Frames)

  /** 4 for a root, 1 for a table of pages, 0 for a page. */
  function Height(p: Place): int {
    match p
    case Root(_) => 4
    case Window(_) => 3
    case Under(parent, _) => Height(parent) - 1
  }

  /** In the user half of some address space. */
  predicate Lower(p: Place) {
    match p
    case Root(_) => true
    case Window(_) => false
    case Under(parent, _) => Lower(parent)
  }

  predicate InTree(l: Layout, p: Place) {
    match p
    case Root(frame) => frame in l.roots
    case Window(frame) => frame == l.window
    case Under(parent, index) => InTree(l, parent) && Height(parent) >= 1 && (parent.Root? ==> index < 256)
  }

  /** `p` is `top` or lies below it. */
  predicate Within(p: Place, top: Place) {
    p == top || (p.Under? && Within(p.parent, top))
  }

  /** What an entry of a table at height `height` leads to. */
  function Target(height: int, e: U64): Option<Frame> {
    if Present(e) && (height == 1 || !Huge(e)) then Some(FrameOf(e)) else None
  }

  function NodeAt(m: Memory, p: Place): Option<Frame> {
    match p
    case Root(frame) => Some(frame)
    case Window(frame) => Some(frame)
    case Under(parent, index) =>
      match NodeAt(m, parent)
      case None => None
      case Some(table) => Target(Height(parent), m[table][index])
  }

  ghost predicate IsNode(m: Memory, l: Layout, p: Place, f: Frame) {
    InTree(l, p) && NodeAt(m, p) == Some(f)
  }

  ghost predicate IsTable(m: Memory, l: Layout, p: Place, f: Frame) {
    IsNode(m, l, p, f) && Height(p) >= 1
  }

  // ------------------------------------------------------------------ separation

  ghost predicate TablesApart(m: Memory, l: Layout) {
    forall p: Place, q: Place, f: Frame :: IsTable(m, l, p, f) && IsTable(m, l, q, f) ==> p == q
  }

  /** A table's frame is not free, and a user table's was handed out by the allocator. */
  ghost predicate Held(s: Machine, l: Layout, p: Place, f: Frame) {
    f !in s.frames.vacant && f != l.boot && (Lower(p) ==> f in s.frames.taken)
  }

  ghost predicate TablesHeld(s: Machine, l: Layout) {
    forall p: Place, f: Frame :: IsTable(s.memory, l, p, f) ==> Held(s, l, p, f)
  }

  /** User halves hold no huge pages, and only links that user code may follow. */
  ghost predicate LowerLinks(m: Memory, l: Layout) {
    forall p: Place, f: Frame, i: Index ::
      IsTable(m, l, p, f) && Lower(p) && Height(p) >= 2 && (p.Root? ==> i < 256) && Present(m[f][i]) ==>
        !Huge(m[f][i]) && UserBit(m[f][i])
  }

  /** Every root has the boot root's upper half, with the window in it. */
  ghost predicate HalfShared(m: Memory, l: Layout) {
    && (forall r: Frame, i: Index | r in l.roots && 256 <= i :: m[r][i] == m[l.boot][i])
    && Target(4, m[l.boot][WINDOW_INDEX]) == Some(l.window)
  }

  ghost predicate Trees(s: Machine, l: Layout) {
    && Sound(s.frames)
    && l.boot !in s.frames.vacant && l.boot !in s.frames.taken
    && TablesApart(s.memory, l) && TablesHeld(s, l) && LowerLinks(s.memory, l) && HalfShared(s.memory, l)
  }

  // ------------------------------------------------------------------- ownership

  ghost predicate LeafHeld(s: Machine, p: Place, f: Frame) {
    f !in s.frames.vacant && (Lower(p) ==> f in s.frames.taken)
  }

  ghost predicate LeavesHeld(s: Machine, l: Layout) {
    forall p: Place, f: Frame :: IsNode(s.memory, l, p, f) && Height(p) == 0 ==> LeafHeld(s, p, f)
  }

  /** A frame from the allocator is in one place only, as a table or as a page. */
  ghost predicate NodesApart(s: Machine, l: Layout) {
    forall p: Place, q: Place, f: Frame :: IsNode(s.memory, l, p, f) && IsNode(s.memory, l, q, f) && f in s.frames.taken ==> p == q
  }

  ghost predicate Mapped(m: Memory, l: Layout, f: Frame) {
    exists p: Place :: IsNode(m, l, p, f)
  }

  /** Every frame handed out is in a tree or set aside in `loose`, never both. */
  ghost predicate Accounted(s: Machine, l: Layout, loose: set<nat>) {
    && loose <= s.frames.taken
    && (forall f: Frame | f in s.frames.taken :: f in loose <==> !Mapped(s.memory, l, f))
  }

  ghost predicate Owned(s: Machine, l: Layout, loose: set<nat>) {
    Trees(s, l) && LeavesHeld(s, l) && NodesApart(s, l) && Accounted(s, l, loose)
  }

  // ---------------------------------------------------------- writing one entry

  function WithEntry(m: Memory, table: Frame, i: Index, e: U64): Memory {
    m[table := m[table][i := e]]
  }

  lemma {:induction false} WithinIsBelow(p: Place, top: Place)
    requires Within(p, top)
    ensures Height(p) <= Height(top)
    ensures Height(p) == Height(top) ==> p == top
  {
    if p != top {
      WithinIsBelow(p.parent, top);
    }
  }

  /** Writing an entry moves nothing but what hangs from it. */
  lemma {:induction false} EntryKeepsNode(m: Memory, l: Layout, p: Place, table: Frame, i: Index, e: U64, q: Place)
    requires TablesApart(m, l) && IsTable(m, l, p, table) && InTree(l, Under(p, i))
    requires InTree(l, q) && !Within(q, Under(p, i))
    ensures NodeAt(WithEntry(m, table, i, e), q) == NodeAt(m, q)
  {
    if q.Under? {
      EntryKeepsNode(m, l, p, table, i, e, q.parent);
      if NodeAt(m, q.parent) == Some(table) {
        assert IsTable(m, l, q.parent, table);
        assert q.parent == p;
      }
    }
  }

  /** The entry itself. */
  lemma EntrySetsNode(m: Memory, l: Layout, p: Place, table: Frame, i: Index, e: U64)
    requires TablesApart(m, l) && IsTable(m, l, p, table) && InTree(l, Under(p, i))
    ensures NodeAt(WithEntry(m, table, i, e), Under(p, i)) == Target(Height(p), e)
  {
    if Within(p, Under(p, i)) {
      WithinIsBelow(p, Under(p, i));
      assert false;
    }
    EntryKeepsNode(m, l, p, table, i, e, p);
  }

  /** Nothing hangs from an entry that leads nowhere. */
  lemma {:induction false} NothingBelow(m: Memory, top: Place, q: Place)
    requires Within(q, top) && NodeAt(m, top) == None
    ensures NodeAt(m, q) == None
  {
    if q != top {
      NothingBelow(m, top, q.parent);
    }
  }

  // ------------------------------------------------------- changing whole frames

  /** Memory may change in frames that are not tables outside `top`. */
  lemma {:induction false} FramesKeepNode(m: Memory, m2: Memory, l: Layout, changed: set<Frame>, top: Place, q: Place)
    requires forall f: Frame | f !in changed :: m2[f] == m[f]
    requires forall p: Place, f: Frame :: IsTable(m, l, p, f) && !Within(p, top) ==> f !in changed
    requires InTree(l, q) && !Within(q, top)
    ensures NodeAt(m2, q) == NodeAt(m, q)
  {
    if q.Under? {
      FramesKeepNode(m, m2, l, changed, top, q.parent);
      if NodeAt(m, q.parent).Some? {
        assert IsTable(m, l, q.parent, NodeAt(m, q.parent).value);
      }
    }
  }

  lemma {:induction false} BootIsNoPlace(l: Layout, q: Place)
    requires InTree(l, q) && l.boot !in l.roots
    ensures !Within(q, Root(l.boot))
  {
    if q.Under? {
      BootIsNoPlace(l, q.parent);
    }
  }

  lemma {:induction false} TreeHeight(l: Layout, p: Place)
    requires InTree(l, p)
    ensures 0 <= Height(p) <= 4
    ensures Height(p) == 4 ==> p.Root?
  {
    if p.Under? {
      TreeHeight(l, p.parent);
    }
  }
}
