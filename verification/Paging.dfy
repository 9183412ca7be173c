/** The page-table code of `kernel-core/src/paging.rs` over an array of frames and the bitmap
    allocator.  Each method does to memory what its function in `AddressSpaces` or
    `Teardown` says. */
module Paging {
  import opened Wrappers
  import opened Words
  import opened FrameSets
  import opened PageWords
  import opened PageTree
  import opened AddressSpaces
  import opened SpaceLife
  import opened Teardown
  import FrameAllocator

  class Pager {
    const memory: array<Table>
    const allocator: FrameAllocator.BitmapFrameAllocator
    var cr3: Frame

    ghost const repr: set<object> := {this, memory} + allocator.repr

    ghost predicate Valid()
      reads repr
    {
      && memory.Length == FRAME_COUNT
      && this !in allocator.repr && memory !in allocator.repr
      && allocator.Valid()
    }

    ghost function Memory(): Memory
      requires memory.Length == FRAME_COUNT
      reads memory
    {
      memory[..]
    }

    ghost function View(): Machine
      requires Valid()
      reads repr
    {
      Machine(Memory(), allocator.Frames())
    }

    /** A machine whose frames hold `content`, with an initialized allocator. */
    constructor (content: seq<Table>, frames: FrameAllocator.BitmapFrameAllocator, root: Frame)
      requires |content| == FRAME_COUNT && frames.Valid()
      ensures Valid() && allocator == frames
      ensures View() == Machine(content, frames.Frames())
    {
      memory := new Table[FRAME_COUNT](i requires 0 <= i < |content| => content[i]);
      allocator := frames;
      cr3 := root;
      new;
      assert memory[..] == content;
    }

    method WriteEntry(table: Frame, i: Index, e: U64)
      requires Valid()
      modifies memory
      ensures Valid() && View() == old(View()).(memory := WithEntry(old(View()).memory, table, i, e))
    {
      ghost var m := Memory();
      memory[table] := memory[table][i := e];
      assert Memory() == WithEntry(m, table, i, e);
    }

    /** `zero_table`. */
    method ZeroFrame(frame: Frame)
      requires Valid()
      modifies memory
      ensures Valid() && View() == old(View()).(memory := old(View()).memory[frame := ZeroTable()])
    {
      ghost var m := Memory();
      for i := 0 to 512
        invariant forall f: Frame | f != frame :: memory[f] == m[f]
        invariant forall j | 0 <= j < i :: memory[frame][j] == 0
      {
        memory[frame] := memory[frame][i := 0];
      }
      assert memory[frame] == ZeroTable();
      assert Memory() == m[frame := ZeroTable()];
    }

    // ------------------------------------------------------------------- mapping

    method MapPageIn(root: Frame, address: U64, frame: Frame, flags: PageFlags) returns (r: Result<(), PagingError>)
      requires Valid()
      modifies memory, allocator.repr
      ensures Valid() && (View(), r) == AddressSpaces.MapPageIn(old(View()), root, address, frame, flags)
    {
      hide Present, Huge, FrameOf, PathOf, TableEntry, LeafEntry;
      var path := PathOf(address);
      var table := root;
      var height := 4;
      while height > 1
        invariant 1 <= height <= 4 && Valid()
        invariant WalkDown(View(), table, height, path, flags.User()) == WalkDown(old(View()), root, 4, path, flags.User())
      {
        var i := IndexAt(path, height);
        var next := Enter(table, i, flags.User());
        if next.Err? {
          return Err(next.error);
        }
        table := next.value;
        height := height - 1;
      }
      if Present(memory[table][path.l1]) {
        return Err(AlreadyMapped);
      }
      WriteEntry(table, path.l1, LeafEntry(frame, flags));
      return Ok(());
    }

    /** The table an entry links, linking a new one if there is none. */
    method Enter(table: Frame, i: Index, user: bool) returns (r: Result<Frame, PagingError>)
      requires Valid()
      modifies memory, allocator.repr
      ensures Valid() && (View(), r) == Descend(old(View()), table, i, user)
    {
      hide Present, Huge, FrameOf, TableEntry;
      if !Present(memory[table][i]) {
        var frame := allocator.Allocate();
        if frame.None? {
          return Err(FrameAllocationFailed);
        }
        WriteEntry(table, i, TableEntry(frame.value, user));
        ZeroFrame(frame.value);
      } else if Huge(memory[table][i]) {
        return Err(HugePageConflict);
      }
      return Ok(FrameOf(memory[table][i]));
    }

    method MapUserPageIn(root: Frame, address: U64, frame: Frame, flags: PageFlags) returns (r: Result<(), PagingError>)
      requires Valid()
      modifies memory, allocator.repr
      ensures Valid() && (View(), r) == AddressSpaces.MapUserPageIn(old(View()), root, address, frame, flags)
    {
      if address < USER_BASE || address >= USER_END {
        return Err(InvalidUserAddress);
      }
      r := MapPageIn(root, address, frame, flags);
    }

    /** `map_page`: in the active address space. */
    method MapPage(address: U64, frame: Frame, flags: PageFlags) returns (r: Result<(), PagingError>)
      requires Valid()
      modifies memory, allocator.repr
      ensures Valid() && (View(), r) == AddressSpaces.MapPageIn(old(View()), cr3, address, frame, flags)
    {
      r := MapPageIn(cr3, address, frame, flags);
    }

    method UnmapPage(address: U64) returns (r: Option<Frame>)
      requires Valid()
      modifies memory
      ensures Valid() && (View().memory, r) == AddressSpaces.UnmapPage(old(View()).memory, cr3, address)
      ensures View().frames == old(View()).frames
    {
      hide Present, Huge, FrameOf, PathOf;
      var path := PathOf(address);
      var table := cr3;
      var height := 4;
      while height > 1
        invariant 1 <= height <= 4
        invariant LeafTable(Memory(), table, height, path) == LeafTable(Memory(), cr3, 4, path)
      {
        var e := memory[table][IndexAt(path, height)];
        if !Present(e) || Huge(e) {
          return None;
        }
        table := FrameOf(e);
        height := height - 1;
      }
      var leaf := memory[table][path.l1];
      if !Present(leaf) {
        return None;
      }
      WriteEntry(table, path.l1, 0);
      return Some(FrameOf(leaf));
    }

    // ---------------------------------------------------------------- address spaces

    method CreateUserAddressSpace() returns (r: Option<Frame>)
      requires Valid()
      modifies memory, allocator.repr
      ensures Valid()
      ensures (View(), r) == CreateSpace(old(View()), cr3)
    {
      var frame := allocator.Allocate();
      if frame.None? {
        return None;
      }
      var f: Frame := frame.value;
      ZeroFrame(f);
      CopyKernelHalf(f);
      return Some(f);
    }

    /** The loop of `create_user_address_space`; the lower entries are already zero. */
    method CopyKernelHalf(f: Frame)
      requires Valid() && forall j | 0 <= j < 256 :: memory[f][j] == 0
      modifies memory
      ensures Valid()
      ensures View() == old(View()).(memory := old(View()).memory[f := NewRoot(old(View()).memory[cr3])])
    {
      ghost var m := Memory();
      for i := 256 to 512
        invariant forall g: Frame | g != f :: memory[g] == m[g]
        invariant forall j | 0 <= j < 512 :: memory[f][j] == if 256 <= j < i then m[cr3][j] else m[f][j]
      {
        memory[f] := memory[f][i := memory[cr3][i]];
      }
      assert memory[f] == NewRoot(m[cr3]);
      assert Memory() == m[f := NewRoot(m[cr3])];
    }

    method FreeFrame(frame: Frame)
      requires Valid()
      modifies allocator.repr
      ensures Valid() && View() == old(View()).(frames := Release(old(View()).frames, frame))
    {
      assert frame * 4096 % PAGE_SIZE == 0 && frame * 4096 / PAGE_SIZE == frame;
      allocator.Free(frame * 4096);
    }

    /** `release_user_table`; `log` lists the frames passed to `free_physical_frame`. */
    method ReleaseUserTable(table: Frame, level: nat) returns (ghost log: seq<Frame>)
      requires Valid() && 1 <= level <= 3
      modifies memory, allocator.repr
      ensures Valid() && (View(), log) == ReleaseFrom(old(View()), table, level, 0)
      decreases level
    {
      hide Huge, FrameOf, ReleaseFrom;
      log := [];
      ghost var s := View();
      RemainingStart(s, table, level);
      for i := 0 to 512
        invariant Valid()
        invariant Remaining(s, View(), table, level, i, log)
      {
        var e := memory[table][i];
        if Present(e) {
          ghost var before := View();
          ghost var freed;
          if level == 1 || Huge(e) {
            FreeFrame(FrameOf(e));
            freed := [FrameOf(e)];
          } else {
            freed := ReleaseUserTable(FrameOf(e), level - 1);
          }
          RemainingStep(s, before, table, level, i, log, View(), freed);
          WriteEntry(table, i, 0);
          log := log + freed;
        } else {
          RemainingSkip(s, View(), table, level, i, log);
        }
      }
      RemainingEnd(s, View(), table, level, log);
      FreeFrame(table);
      log := log + [table];
    }

    method DestroyUserAddressSpace(root: Frame) returns (ghost log: seq<Frame>)
      requires Valid()
      modifies memory, allocator.repr
      ensures Valid() && (View(), log) == DestroySpace(old(View()), root)
    {
      hide Huge, FrameOf, ReleaseFrom;
      log := [];
      ghost var s := View();
      RemainingStart(s, root, 4);
      for i := 0 to 256
        invariant Valid()
        invariant Remaining(s, View(), root, 4, i, log)
      {
        var e := memory[root][i];
        if Present(e) {
          ghost var before := View();
          ghost var freed := ReleaseUserTable(FrameOf(e), 3);
          RemainingStep(s, before, root, 4, i, log, View(), freed);
          WriteEntry(root, i, 0);
          log := log + freed;
        } else {
          RemainingSkip(s, View(), root, 4, i, log);
        }
      }
      RemainingEnd(s, View(), root, 4, log);
      FreeFrame(root);
      log := log + [root];
    }

    method SwitchAddressSpace(root: Frame)
      requires Valid()
      modifies this
      ensures Valid() && View() == old(View()) && cr3 == root
    {
      cr3 := root;
    }

    // ------------------------------------------------------------- checks on addresses

    method IsUserMapped(address: U64) returns (b: bool)
      requires Valid()
      ensures b == SpaceLife.IsUserMapped(Memory(), cr3, address)
    {
      var leaf := UserLeaf(address);
      b := leaf.Some? && Present(leaf.value) && UserBit(leaf.value);
    }

    method IsUserExecutable(address: U64) returns (b: bool)
      requires Valid()
      ensures b == SpaceLife.IsUserExecutable(Memory(), cr3, address)
    {
      var leaf := UserLeaf(address);
      b := leaf.Some? && Present(leaf.value) && UserBit(leaf.value) && !NoExecute(leaf.value);
    }

    /** The walk the two checks share. */
    method UserLeaf(address: U64) returns (leaf: Option<U64>)
      requires Valid()
      ensures leaf == if !UserAddress(address) then None
                      else match UserTable(Memory(), cr3, 4, PathOf(address))
                           case None => None
                           case Some(table) => Some(Memory()[table][PathOf(address).l1])
    {
      hide Present, Huge, UserBit, FrameOf, PathOf;
      if address < USER_BASE || address >= USER_END {
        return None;
      }
      var path := PathOf(address);
      var table := cr3;
      var height := 4;
      while height > 1
        invariant 1 <= height <= 4
        invariant UserTable(Memory(), table, height, path) == UserTable(Memory(), cr3, 4, path)
      {
        var e := memory[table][IndexAt(path, height)];
        if !(Present(e) && UserBit(e) && !Huge(e)) {
          return None;
        }
        table := FrameOf(e);
        height := height - 1;
      }
      return Some(memory[table][path.l1]);
    }
  }

  /** With `log` freed and the table released up to entry `i`, the rest completes what the
      whole recursion does from `start`. */
  ghost predicate Remaining(start: Machine, s: Machine, table: Frame, height: nat, i: nat, log: seq<Frame>) {
    var (s2, rest) := ReleaseFrom(s, table, height, i);
    ReleaseFrom(start, table, height, 0) == (s2, log + rest)
  }

  lemma RemainingStep(start: Machine, s: Machine, table: Frame, height: nat, i: nat, log: seq<Frame>, s1: Machine,
      freed: seq<Frame>)
    requires Remaining(start, s, table, height, i, log) && i < Entries(height) && Present(s.memory[table][i])
    requires var e := s.memory[table][i];
             (s1, freed) == if FreesChild(height, e) then (s.(frames := Release(s.frames, FrameOf(e))), [FrameOf(e)])
                            else ReleaseFrom(s, FrameOf(e), height - 1, 0)
    ensures Remaining(start, s1.(memory := WithEntry(s1.memory, table, i, 0)), table, height, i + 1, log + freed)
  {
    var rest := ReleaseFrom(s1.(memory := WithEntry(s1.memory, table, i, 0)), table, height, i + 1).1;
    assert log + (freed + rest) == (log + freed) + rest;
  }

  lemma RemainingSkip(start: Machine, s: Machine, table: Frame, height: nat, i: nat, log: seq<Frame>)
    requires Remaining(start, s, table, height, i, log) && i < Entries(height) && !Present(s.memory[table][i])
    ensures Remaining(start, s, table, height, i + 1, log)
  {
  }

  lemma RemainingEnd(start: Machine, s: Machine, table: Frame, height: nat, log: seq<Frame>)
    requires Remaining(start, s, table, height, Entries(height), log)
    ensures ReleaseFrom(start, table, height, 0) == (s.(frames := Release(s.frames, table)), log + [table])
  {
  }

  lemma RemainingStart(s: Machine, table: Frame, height: nat)
    ensures Remaining(s, s, table, height, 0, [])
  {
    assert [] + ReleaseFrom(s, table, height, 0).1 == ReleaseFrom(s, table, height, 0).1;
  }
}
