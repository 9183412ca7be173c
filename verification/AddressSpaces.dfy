/**
 Mapping, unmapping and creating address spaces (`kernel-core/src/paging.rs`), as
 functions from one memory and allocator state to the next.
 */
module AddressSpaces {
  import opened Wrappers
  import opened Words
  import opened FrameSets
  import opened PageWords
  import opened PageTree

  datatype PagingError = FrameAllocationFailed | HugePageConflict | AlreadyMapped | InvalidUserAddress

  function IndexAt(path: Path, height: int): Index {
    if height == 4 then path.l4 else if height == 3 then path.l3 else if height == 2 then path.l2 else path.l1
  }

  /** One step of the walk in `map_page_in`: the entry is written before the new table
      is cleared, and read back afterwards. */
  ghost function Descend(s: Machine, table: Frame, i: Index, user: bool): (r: (Machine, Result<Frame, PagingError>))
    requires Sound(s.frames)
    ensures Sound(r.0.frames)
  {
    var e := s.memory[table][i];
    if !Present(e) then
      var (frames, frame) := Allocate(s.frames);
      match frame
      case None => (s, Err(FrameAllocationFailed))
      case Some(f) =>
        var m := WithEntry(s.memory, table, i, TableEntry(f, user))[f := ZeroTable()];
        (Machine(m, frames), Ok(FrameOf(m[table][i])))
    else if Huge(e) then (s, Err(HugePageConflict))
    else (s, Ok(FrameOf(e)))
  }

  /** Down to the table of height 1. */
  ghost function WalkDown(s: Machine, table: Frame, height: nat, path: Path, user: bool):
      (r: (Machine, Result<Frame, PagingError>))
    requires Sound(s.frames)
    ensures Sound(r.0.frames)
    decreases height
  {
    if height <= 1 then (s, Ok(table))
    else
      var (s1, next) := Descend(s, table, IndexAt(path, height), user);
      match next
      case Err(error) => (s1, Err(error))
      case Ok(t) => WalkDown(s1, t, height - 1, path, user)
  }

  ghost function SetLeaf(s: Machine, table: Frame, i: Index, frame: Frame, flags: PageFlags):
      (r: (Machine, Result<(), PagingError>))
    ensures r.0.frames == s.frames
  {
    if Present(s.memory[table][i]) then (s, Err(AlreadyMapped))
    else (s.(memory := WithEntry(s.memory, table, i, LeafEntry(frame, flags))), Ok(()))
  }

  /** `map_page_in`; `map_page` is the same for the active root. */
  ghost function MapPageIn(s: Machine, root: Frame, address: U64, frame: Frame, flags: PageFlags):
      (r: (Machine, Result<(), PagingError>))
    requires Sound(s.frames)
    ensures Sound(r.0.frames)
  {
    var (s1, table) := WalkDown(s, root, 4, PathOf(address), flags.User());
    match table
    case Err(error) => (s1, Err(error))
    case Ok(t) => SetLeaf(s1, t, PathOf(address).l1, frame, flags)
  }

  ghost function MapUserPageIn(s: Machine, root: Frame, address: U64, frame: Frame, flags: PageFlags):
      (r: (Machine, Result<(), PagingError>))
    requires Sound(s.frames)
    ensures Sound(r.0.frames)
  {
    if !UserAddress(address) then (s, Err(InvalidUserAddress)) else MapPageIn(s, root, address, frame, flags)
  }

  /** The table `unmap_page` reaches, if every entry on the way links one. */
  function LeafTable(m: Memory, table: Frame, height: nat, path: Path): Option<Frame>
    decreases height
  {
    if height <= 1 then Some(table)
    else
      var e := m[table][IndexAt(path, height)];
      if Present(e) && !Huge(e) then LeafTable(m, FrameOf(e), height - 1, path) else None
  }

  function UnmapPage(m: Memory, root: Frame, address: U64): (Memory, Option<Frame>) {
    match LeafTable(m, root, 4, PathOf(address))
    case None => (m, None)
    case Some(table) =>
      var i := PathOf(address).l1;
      if !Present(m[table][i]) then (m, None) else (WithEntry(m, table, i, 0), Some(FrameOf(m[table][i])))
  }

  function NewRoot(source: Table): Table {
    seq(512, i requires 0 <= i < 512 => if i < 256 then 0 else source[i])
  }

  /** `create_user_address_space`. */
  ghost function CreateSpace(s: Machine, active: Frame): (r: (Machine, Option<Frame>))
    requires Sound(s.frames)
    ensures Sound(r.0.frames)
  {
    var (frames, frame) := Allocate(s.frames);
    match frame
    case None => (s, None)
    case Some(f) =>
      var m := s.memory[f := ZeroTable()];
      (Machine(m[f := NewRoot(m[active])], frames), Some(f))
  }

  // ---------------------------------------------------------------- translation

  /** Where the processor's walk ends; `user` says whether every entry had USER. */
  datatype Leaf = Leaf(entry: U64, height: nat, user: bool)

  function Walk(m: Memory, table: Frame, height: nat, path: Path, user: bool): Option<Leaf>
    decreases height
  {
    var e := m[table][IndexAt(path, height)];
    if !Present(e) then None
    else if height <= 1 || Huge(e) then Some(Leaf(e, height, user && UserBit(e)))
    else Walk(m, FrameOf(e), height - 1, path, user && UserBit(e))
  }

  function Translate(m: Memory, root: Frame, path: Path): Option<Leaf> {
    Walk(m, root, 4, path, true)
  }

  /** Roots the processor may have active. */
  predicate IsRoot(l: Layout, root: Frame) {
    root == l.boot || root in l.roots
  }

  /** The part of an address space this model describes: its user half and the window. */
  predicate Described(l: Layout, root: Frame, path: Path) {
    (root in l.roots && path.l4 < 256) || (IsRoot(l, root) && path.l4 == WINDOW_INDEX)
  }

  /** The place a walk from `p` along `path` arrives at. */
  function PageOn(p: Place, path: Path): Place
    decreases if Height(p) > 0 then Height(p) else 0
  {
    if Height(p) <= 0 then p else PageOn(Under(p, IndexAt(path, Height(p))), path)
  }

  /** The first table below the root that a described walk passes, or the root itself. */
  function Entrance(l: Layout, root: Frame, path: Path): Place {
    if path.l4 == WINDOW_INDEX then Window(l.window) else Root(root)
  }

  function PagePlace(l: Layout, root: Frame, path: Path): Place {
    PageOn(Entrance(l, root, path), path)
  }
}
