/** The initial stack of a process: `initialize_process_stack` in `kernel-core/src/user.rs`
    writes it through the new process's page tables, and `_start` in `openkernel-rt/src/lib.rs`
    reads it. */
module InitialStack {
  import opened Wrappers
  import opened Words
  import opened PageWords
  import opened PageTree
  import opened AddressSpaces
  import opened UserMemory
  import opened Paging

  const PATH_ENTRY: seq<Byte> := [0x50, 0x41, 0x54, 0x48, 0x3D, 0x2F, 0x62, 0x69, 0x6E]
  const PWD_ENTRY: seq<Byte> := [0x50, 0x57, 0x44, 0x3D, 0x2F]
  const MAX_ARGUMENTS: nat := 5

  // -------------------------------------------------------------------- contents

  /** Memory outside `low` up to `high` is as before. */
  ghost predicate Only(m: seq<Byte>, m2: seq<Byte>, low: nat, high: nat) {
    |m2| == |m| && forall j: nat | j < |m| && !(low <= j < high) :: m2[j] == m[j]
  }

  /** `s` and a terminating zero are at `a`. */
  ghost predicate StringAt(m: seq<Byte>, a: nat, s: seq<Byte>) {
    a + |s| < |m| && (forall i: nat | i < |s| :: m[a + i] == s[i]) && m[a + |s|] == 0
  }

  ghost predicate WordAt(m: seq<Byte>, a: nat, w: U64) {
    a + 8 <= |m| && forall i: nat | i < 8 :: m[a + i] == ByteOf(w, i)
  }

  ghost predicate WordsAt(m: seq<Byte>, a: nat, words: seq<U64>) {
    forall i: nat | i < |words| :: WordAt(m, a + 8 * i, words[i])
  }

  /** Strings `from` and on are where their pointers say. */
  ghost predicate StringsAt(m: seq<Byte>, strings: seq<seq<Byte>>, pointers: seq<U64>, from: nat) {
    |pointers| == |strings| && forall i: nat | from <= i < |strings| :: StringAt(m, pointers[i], strings[i])
  }

  lemma OnlyKeepsString(m: seq<Byte>, m2: seq<Byte>, low: nat, high: nat, a: nat, s: seq<Byte>)
    requires Only(m, m2, low, high) && StringAt(m, a, s) && high <= a
    ensures StringAt(m2, a, s)
  {
  }

  lemma OnlyKeepsWords(m: seq<Byte>, m2: seq<Byte>, low: nat, high: nat, a: nat, words: seq<U64>)
    requires Only(m, m2, low, high) && WordsAt(m, a, words) && high <= a
    ensures WordsAt(m2, a, words)
  {
    forall i: nat | i < |words| ensures WordAt(m2, a + 8 * i, words[i]) {
      assert WordAt(m, a + 8 * i, words[i]);
    }
  }

  // ------------------------------------------------------------------ user memory

  /** The bytes of an address space, by address; zero where nothing is mapped. */
  ghost function Flat(m: Memory, root: Frame): (r: seq<Byte>)
    ensures |r| == USER_END
  {
    seq(USER_END, b requires 0 <= b < USER_END => UserByte(m, root, b).GetOr(0))
  }

  /** Every address from `low` up to `high` is mapped in the active address space. */
  ghost predicate CanWrite(k: Pager, l: Layout, loose: set<nat>, low: nat, high: nat)
    reads k, k.repr
  {
    && k.Valid() && Owned(k.View(), l, loose) && k.cr3 in l.roots && high <= USER_END
    && forall b: U64 | low <= b < high :: At(k.Memory(), k.cr3, b).Some?
  }

  lemma FlatOnly(m: Memory, m2: Memory, l: Layout, root: Frame, low: nat, high: nat)
    requires OnlyBytes(m, m2, l, root, low, high) && root in l.roots
    ensures Only(Flat(m, root), Flat(m2, root), low, high)
  {
    hide UserByte, EntryAt;
  }

  lemma OnlyBytesTwice(m: Memory, m1: Memory, m2: Memory, l: Layout, root: Frame, low: nat, high: nat)
    requires OnlyBytes(m, m1, l, root, low, high) && OnlyBytes(m1, m2, l, root, low, high)
    ensures OnlyBytes(m, m2, l, root, low, high)
  {
    hide UserByte, EntryAt;
  }

  lemma OnlyBytesWider(m: Memory, m2: Memory, l: Layout, root: Frame, low: nat, high: nat, low2: nat, high2: nat)
    requires OnlyBytes(m, m2, l, root, low, high) && low2 <= low && high <= high2
    ensures OnlyBytes(m, m2, l, root, low2, high2)
  {
    hide UserByte, EntryAt;
  }

  lemma NothingStored(m: Memory, l: Layout, root: Frame, low: nat, high: nat)
    ensures OnlyBytes(m, m, l, root, low, high)
  {
  }

  // --------------------------------------------------------------------- writing

  /** A store by the kernel to a user address, through the active page tables. */
  method StoreByte(k: Pager, ghost l: Layout, ghost loose: set<nat>, ghost low: nat, ghost high: nat, address: U64,
      b: Byte)
    requires CanWrite(k, l, loose, low, high) && low <= address < high
    modifies k.memory
    ensures CanWrite(k, l, loose, low, high)
    ensures OnlyBytes(old(k.Memory()), k.Memory(), l, k.cr3, address, address + 1)
    ensures Flat(k.Memory(), k.cr3)[address] == b
  {
    hide Owned, At, SetByte;
    ghost var s := k.View();
    var page := At(k.memory[..], k.cr3, address).value;
    var f := FrameOf(page.entry);
    AtIsFrame(s.memory, k.cr3, address);
    k.memory[f] := SetByte(k.memory[f], address % 4096, b);
    StoreChangesOneByte(s, l, loose, k.cr3, address, b);
    assert k.View() == s.(memory := s.memory[f := SetByte(page.content, address % 4096, b)]);
    StillMapped(s.memory, k.Memory(), l, k.cr3, low, high);
  }

  lemma AtIsFrame(m: Memory, root: Frame, address: U64)
    ensures var p := At(m, root, address); p.Some? ==> p.value.content == m[FrameOf(p.value.entry)]
  {
  }

  lemma StillMapped(m: Memory, m2: Memory, l: Layout, root: Frame, low: nat, high: nat)
    requires root in l.roots && high <= USER_END
    requires forall c: U64 | c < USER_END :: EntryAt(m2, root, c) == EntryAt(m, root, c)
    requires forall b: U64 | low <= b < high :: At(m, root, b).Some?
    ensures forall b: U64 | low <= b < high :: At(m2, root, b).Some?
  {
    hide At;
    forall b: U64 | low <= b < high ensures At(m2, root, b).Some? {
      assert EntryAt(m2, root, b) == EntryAt(m, root, b);
    }
  }

  method WriteUserBytes(k: Pager, ghost l: Layout, ghost loose: set<nat>, ghost low: nat, ghost high: nat, address: U64,
      bytes: seq<Byte>)
    requires CanWrite(k, l, loose, low, high) && low <= address && address + |bytes| <= high
    modifies k.memory
    ensures CanWrite(k, l, loose, low, high)
    ensures OnlyBytes(old(k.Memory()), k.Memory(), l, k.cr3, address, address + |bytes|)
    ensures forall i: nat | i < |bytes| :: Flat(k.Memory(), k.cr3)[address + i] == bytes[i]
  {
    hide CanWrite, OnlyBytes, Flat;
    CanWriteRange(k, l, loose, low, high);
    ghost var m := k.Memory();
    NothingStored(m, l, k.cr3, address, address + |bytes|);
    for i := 0 to |bytes|
      invariant CanWrite(k, l, loose, low, high) && k.memory.Length == FRAME_COUNT
      invariant OnlyBytes(m, k.Memory(), l, k.cr3, address, address + |bytes|)
      invariant forall j: nat | j < i :: Flat(k.Memory(), k.cr3)[address + j] == bytes[j]
    {
      ghost var m1 := k.Memory();
      StoreByte(k, l, loose, low, high, address + i, bytes[i]);
      CanWriteRange(k, l, loose, low, high);
      FlatOnly(m1, k.Memory(), l, k.cr3, address + i, address + i + 1);
      OnlyBytesWider(m1, k.Memory(), l, k.cr3, address + i, address + i + 1, address, address + |bytes|);
      OnlyBytesTwice(m, m1, k.Memory(), l, k.cr3, address, address + |bytes|);
    }
  }

  lemma CanWriteRange(k: Pager, l: Layout, loose: set<nat>, low: nat, high: nat)
    requires CanWrite(k, l, loose, low, high)
    ensures k.memory.Length == FRAME_COUNT && k.Valid() && k.cr3 in l.roots && high <= USER_END
  {
  }

  /** The string and then its terminating zero. */
  method WriteUserString(k: Pager, ghost l: Layout, ghost loose: set<nat>, ghost low: nat, ghost high: nat, address: U64,
      s: seq<Byte>)
    requires CanWrite(k, l, loose, low, high) && low <= address && address + |s| < high
    modifies k.memory
    ensures CanWrite(k, l, loose, low, high)
    ensures OnlyBytes(old(k.Memory()), k.Memory(), l, k.cr3, address, address + |s| + 1)
    ensures StringAt(Flat(k.Memory(), k.cr3), address, s)
  {
    hide CanWrite, OnlyBytes, Flat;
    CanWriteRange(k, l, loose, low, high);
    ghost var m := k.Memory();
    WriteUserBytes(k, l, loose, low, high, address, s);
    CanWriteRange(k, l, loose, low, high);
    ghost var m1 := k.Memory();
    var zero: seq<Byte> := [0];
    WriteUserBytes(k, l, loose, low, high, address + |s|, zero);
    CanWriteRange(k, l, loose, low, high);
    assert Flat(k.Memory(), k.cr3)[address + |s| + 0] == zero[0];
    FlatOnly(m1, k.Memory(), l, k.cr3, address + |s|, address + |s| + 1);
    OnlyBytesWider(m, m1, l, k.cr3, address, address + |s|, address, address + |s| + 1);
    OnlyBytesWider(m1, k.Memory(), l, k.cr3, address + |s|, address + |s| + 1, address, address + |s| + 1);
    OnlyBytesTwice(m, m1, k.Memory(), l, k.cr3, address, address + |s| + 1);
  }

  method WriteUserWord(k: Pager, ghost l: Layout, ghost loose: set<nat>, ghost low: nat, ghost high: nat, address: U64,
      w: U64)
    requires CanWrite(k, l, loose, low, high) && low <= address && address + 8 <= high
    modifies k.memory
    ensures CanWrite(k, l, loose, low, high)
    ensures OnlyBytes(old(k.Memory()), k.Memory(), l, k.cr3, address, address + 8)
    ensures WordAt(Flat(k.Memory(), k.cr3), address, w)
  {
    hide CanWrite, OnlyBytes, Flat, ByteOf;
    CanWriteRange(k, l, loose, low, high);
    var bytes := seq(8, i requires 0 <= i < 8 => ByteOf(w, i));
    WriteUserBytes(k, l, loose, low, high, address, bytes);
    CanWriteRange(k, l, loose, low, high);
    forall i: nat | i < 8 ensures Flat(k.Memory(), k.cr3)[address + i] == ByteOf(w, i) {
      assert Flat(k.Memory(), k.cr3)[address + i] == bytes[i];
    }
  }

  /** One more word below those at `cursor`. */
  method Push(k: Pager, ghost l: Layout, ghost loose: set<nat>, ghost low: nat, ghost high: nat, cursor: nat, w: U64,
      ghost words: seq<U64>)
    requires CanWrite(k, l, loose, low, high) && low + 8 <= cursor <= high
    requires WordsAt(Flat(k.Memory(), k.cr3), cursor, words)
    modifies k.memory
    ensures CanWrite(k, l, loose, low, high)
    ensures OnlyBytes(old(k.Memory()), k.Memory(), l, k.cr3, cursor - 8, cursor)
    ensures WordsAt(Flat(k.Memory(), k.cr3), cursor - 8, [w] + words)
  {
    hide CanWrite, OnlyBytes, Flat, WordsAt;
    CanWriteRange(k, l, loose, low, high);
    ghost var m := k.Memory();
    WriteUserWord(k, l, loose, low, high, cursor - 8, w);
    CanWriteRange(k, l, loose, low, high);
    FlatOnly(m, k.Memory(), l, k.cr3, cursor - 8, cursor);
    OnlyKeepsWords(Flat(m, k.cr3), Flat(k.Memory(), k.cr3), cursor - 8, cursor, cursor, words);
    OneMoreWord(Flat(k.Memory(), k.cr3), cursor, w, words);
  }

  lemma OneMoreWord(m: seq<Byte>, cursor: nat, w: U64, words: seq<U64>)
    requires cursor >= 8 && WordAt(m, cursor - 8, w) && WordsAt(m, cursor, words)
    ensures WordsAt(m, cursor - 8, [w] + words)
  {
    hide WordAt;
    var all := [w] + words;
    forall i: nat | i < |all| ensures WordAt(m, cursor - 8 + 8 * i, all[i]) {
      if i > 0 {
        assert WordAt(m, cursor + 8 * (i - 1), words[i - 1]);
      }
    }
  }

  // ---------------------------------------------------------------------- layout

  /** The program's name, and at most four of the caller's arguments. */
  function Arguments(name: seq<Byte>, argv: seq<seq<Byte>>): (r: seq<seq<Byte>>)
    ensures 1 <= |r| <= MAX_ARGUMENTS
  {
    [name] + if |argv| < MAX_ARGUMENTS then argv else argv[..MAX_ARGUMENTS - 1]
  }

  /** Bytes the strings of arguments `i` and on take. */
  function StringBytes(args: seq<seq<Byte>>, i: nat): nat
    requires i <= |args|
    decreases |args| - i
  {
    if i == |args| then 0 else |args[i]| + 1 + StringBytes(args, i + 1)
  }

  const ENVIRONMENT_BYTES: nat := 10 + 6

  function AlignDown(a: nat): nat {
    a - a % 16
  }

  /** Where the vector of words ends. */
  function VectorEnd(args: seq<seq<Byte>>, top: nat): nat
    requires StringBytes(args, 0) + ENVIRONMENT_BYTES <= top
  {
    AlignDown(top - StringBytes(args, 0) - ENVIRONMENT_BYTES)
  }

  /** There is room for everything below `top`. */
  predicate Fits(args: seq<seq<Byte>>, top: nat) {
    StringBytes(args, 0) + ENVIRONMENT_BYTES <= top && 8 * (|args| + 6) <= VectorEnd(args, top)
  }

  /** The words from the stack pointer up: the count, the argument pointers, a null, the two
      environment pointers, a null, and one word of padding. */
  function Vector(pointers: seq<U64>, path: U64, pwd: U64): seq<U64>
    requires |pointers| < TWO_64
  {
    [|pointers|] + (pointers + [0, path, pwd, 0, 0])
  }

  /** Strings from `from` on lie one after another, the last one ending at `top`. */
  ghost predicate Stacked(args: seq<seq<Byte>>, pointers: seq<U64>, top: nat, from: nat) {
    |pointers| == |args| && forall i: nat | from <= i < |args| :: pointers[i] + StringBytes(args, i) == top
  }

  /** What the process finds on its stack.  The vector ends below the strings, and the
      strings lie side by side. */
  ghost predicate StackImage(m: seq<Byte>, top: nat, sp: nat, args: seq<seq<Byte>>, pointers: seq<U64>) {
    && Fits(args, top) && |args| < TWO_64 && top < TWO_64
    && sp + 8 * (|args| + 6) == VectorEnd(args, top)
    && Stacked(args, pointers, top, 0) && StringsAt(m, args, pointers, 0)
    && var strings := top - StringBytes(args, 0);
       && StringAt(m, strings - 10, PATH_ENTRY) && StringAt(m, strings - 16, PWD_ENTRY)
       && WordsAt(m, sp, Vector(pointers, strings - 10, strings - 16))
  }

  lemma {:induction false} StringBytesBelow(args: seq<seq<Byte>>, i: nat, j: nat)
    requires i <= j <= |args|
    ensures StringBytes(args, j) <= StringBytes(args, i)
    decreases j - i
  {
    if i < j {
      StringBytesBelow(args, i + 1, j);
    }
  }

  /** Later writes below the strings leave the strings alone. */
  lemma OnlyKeepsStrings(m: seq<Byte>, m2: seq<Byte>, low: nat, high: nat, args: seq<seq<Byte>>, pointers: seq<U64>,
      top: nat, from: nat)
    requires Only(m, m2, low, high) && from <= |args| && high + StringBytes(args, from) <= top
    requires StringsAt(m, args, pointers, from) && Stacked(args, pointers, top, from)
    ensures StringsAt(m2, args, pointers, from)
  {
    hide StringAt;
    forall i: nat | from <= i < |args| ensures StringAt(m2, pointers[i], args[i]) {
      StringBytesBelow(args, from, i);
      OnlyKeepsString(m, m2, low, high, pointers[i], args[i]);
    }
  }

  // ----------------------------------------------------------------- the algorithm

  /** Writes the stack of a new process below `stackPointer + 8`, in the active address space,
      and stores nothing anywhere else. */
  method InitializeProcessStack(k: Pager, ghost l: Layout, ghost loose: set<nat>, ghost low: nat, stackPointer: nat,
      name: seq<Byte>, argv: seq<seq<Byte>>)
      returns (sp: nat, ghost pointers: seq<U64>)
    requires CanWrite(k, l, loose, low, stackPointer + 8)
    requires FitsAbove(Arguments(name, argv), low, stackPointer + 8)
    modifies k.memory
    ensures CanWrite(k, l, loose, low, stackPointer + 8) && low <= sp
    ensures StackImage(Flat(k.Memory(), k.cr3), stackPointer + 8, sp, Arguments(name, argv), pointers)
    ensures StackReads(Flat(k.Memory(), k.cr3), sp, name, argv)
    ensures OnlyBytes(old(k.Memory()), k.Memory(), l, k.cr3, sp, stackPointer + 8)
  {
    hide CanWrite, OnlyBytes, Flat, StringAt, WordsAt, Only, StringsAt, Stacked, StackReads;
    var args := Arguments(name, argv);
    var top := stackPointer + 8;
    CanWriteRange(k, l, loose, low, top);
    ghost var m := k.Memory();
    var strings, arguments := WriteStrings(k, l, loose, low, top, args);
    CanWriteRange(k, l, loose, low, top);
    ghost var m1 := k.Memory();
    WriteUserString(k, l, loose, low, top, strings - 10, PATH_ENTRY);
    CanWriteRange(k, l, loose, low, top);
    ghost var m2 := k.Memory();
    WriteUserString(k, l, loose, low, top, strings - 16, PWD_ENTRY);
    CanWriteRange(k, l, loose, low, top);
    ghost var m3 := k.Memory();
    var vector := AlignDown(strings - ENVIRONMENT_BYTES);
    sp := WriteVector(k, l, loose, low, top, vector, arguments, strings - 10, strings - 16);
    CanWriteRange(k, l, loose, low, top);
    pointers := arguments;
    Phases(m, m1, m2, m3, k.Memory(), l, k.cr3, top, strings, vector, sp, args, pointers);
    StackIsRead(Flat(k.Memory(), k.cr3), top, sp, name, argv, pointers);
  }

  /** There is room for everything between `low` and `top`. */
  predicate FitsAbove(args: seq<seq<Byte>>, low: nat, top: nat) {
    Fits(args, top) && low <= VectorEnd(args, top) - 8 * (|args| + 6)
  }

  lemma Phases(m: Memory, m1: Memory, m2: Memory, m3: Memory, m4: Memory, l: Layout, root: Frame, top: nat, strings: nat,
      vector: nat, sp: nat, args: seq<seq<Byte>>, pointers: seq<U64>)
    requires strings + StringBytes(args, 0) == top && ENVIRONMENT_BYTES <= strings && sp <= vector <= strings - 16
    requires root in l.roots
    requires OnlyBytes(m, m1, l, root, strings, top) && OnlyBytes(m1, m2, l, root, strings - 10, strings)
    requires OnlyBytes(m2, m3, l, root, strings - 16, strings - 10) && OnlyBytes(m3, m4, l, root, sp, vector)
    requires StringsAt(Flat(m1, root), args, pointers, 0) && Stacked(args, pointers, top, 0)
    requires StringAt(Flat(m2, root), strings - 10, PATH_ENTRY) && StringAt(Flat(m3, root), strings - 16, PWD_ENTRY)
    ensures OnlyBytes(m, m4, l, root, sp, top) && StringsAt(Flat(m4, root), args, pointers, 0)
    ensures StringAt(Flat(m4, root), strings - 10, PATH_ENTRY) && StringAt(Flat(m4, root), strings - 16, PWD_ENTRY)
  {
    hide OnlyBytes, Flat, StringAt, StringsAt, Stacked, Only;
    FlatOnly(m, m1, l, root, strings, top);
    FlatOnly(m1, m2, l, root, strings - 10, strings);
    FlatOnly(m2, m3, l, root, strings - 16, strings - 10);
    FlatOnly(m3, m4, l, root, sp, vector);
    Rest(Flat(m, root), Flat(m1, root), Flat(m2, root), Flat(m3, root), Flat(m4, root), top, strings, vector, sp, args, pointers);
    OnlyBytesWider(m, m1, l, root, strings, top, sp, top);
    OnlyBytesWider(m1, m2, l, root, strings - 10, strings, sp, top);
    OnlyBytesWider(m2, m3, l, root, strings - 16, strings - 10, sp, top);
    OnlyBytesWider(m3, m4, l, root, sp, vector, sp, top);
    OnlyBytesTwice(m, m1, m2, l, root, sp, top);
    OnlyBytesTwice(m, m2, m3, l, root, sp, top);
    OnlyBytesTwice(m, m3, m4, l, root, sp, top);
  }

  /** Each phase writes below the one before. */
  lemma Rest(m: seq<Byte>, m1: seq<Byte>, m2: seq<Byte>, m3: seq<Byte>, m4: seq<Byte>, top: nat, strings: nat,
      vector: nat, sp: nat,
             args: seq<seq<Byte>>, pointers: seq<U64>)
    requires strings + StringBytes(args, 0) == top && ENVIRONMENT_BYTES <= strings && sp <= vector <= strings - 16
    requires Only(m, m1, strings, top) && Only(m1, m2, strings - 10, strings) && Only(m2, m3, strings - 16, strings - 10)
    requires Only(m3, m4, sp, vector)
    requires StringsAt(m1, args, pointers, 0) && Stacked(args, pointers, top, 0)
    requires StringAt(m2, strings - 10, PATH_ENTRY) && StringAt(m3, strings - 16, PWD_ENTRY)
    ensures StringsAt(m4, args, pointers, 0)
    ensures StringAt(m4, strings - 10, PATH_ENTRY) && StringAt(m4, strings - 16, PWD_ENTRY)
  {
    hide StringAt, StringsAt, Stacked;
    assert Only(m1, m4, sp, strings) && Only(m2, m4, sp, strings - 10);
    OnlyKeepsStrings(m1, m4, sp, strings, args, pointers, top, 0);
    OnlyKeepsString(m2, m4, sp, strings - 10, strings - 10, PATH_ENTRY);
    OnlyKeepsString(m3, m4, sp, vector, strings - 16, PWD_ENTRY);
  }

  /** The argument strings, last one highest; `arguments` records where each one is. */
  method WriteStrings(k: Pager, ghost l: Layout, ghost loose: set<nat>, ghost low: nat, top: nat, args: seq<seq<Byte>>)
      returns (strings: nat, arguments: seq<U64>)
    requires CanWrite(k, l, loose, low, top) && low + StringBytes(args, 0) <= top
    modifies k.memory
    ensures CanWrite(k, l, loose, low, top)
    ensures strings + StringBytes(args, 0) == top
    ensures OnlyBytes(old(k.Memory()), k.Memory(), l, k.cr3, strings, top)
    ensures Stacked(args, arguments, top, 0) && StringsAt(Flat(k.Memory(), k.cr3), args, arguments, 0)
    ensures |arguments| == |args|
  {
    hide CanWrite, OnlyBytes, Flat, StringAt, Only;
    CanWriteRange(k, l, loose, low, top);
    ghost var m := k.Memory();
    strings := top;
    arguments := seq(|args|, _ => 0);
    var index: nat := |args|;
    NothingStored(m, l, k.cr3, top, top);
    while index > 0
      invariant CanWrite(k, l, loose, low, top) && k.memory.Length == FRAME_COUNT
      invariant index <= |args| && strings + StringBytes(args, index) == top
      invariant OnlyBytes(m, k.Memory(), l, k.cr3, strings, top)
      invariant Stacked(args, arguments, top, index) && StringsAt(Flat(k.Memory(), k.cr3), args, arguments, index)
    {
      StringBytesBelow(args, 0, index - 1);
      ghost var m1, above := k.Memory(), strings;
      index := index - 1;
      assert StringBytes(args, index) == |args[index]| + 1 + StringBytes(args, index + 1);
      strings := strings - (|args[index]| + 1);
      WriteUserString(k, l, loose, low, top, strings, args[index]);
      CanWriteRange(k, l, loose, low, top);
      FlatOnly(m1, k.Memory(), l, k.cr3, strings, above);
      OnlyKeepsStrings(Flat(m1, k.cr3), Flat(k.Memory(), k.cr3), strings, above, args, arguments, top, index + 1);
      OnlyBytesBelow(m, m1, k.Memory(), l, k.cr3, strings, above, top);
      arguments := arguments[index := strings];
    }
  }

  lemma OnlyBytesBelow(m: Memory, m1: Memory, m2: Memory, l: Layout, root: Frame, low: nat, middle: nat, high: nat)
    requires OnlyBytes(m, m1, l, root, middle, high) && OnlyBytes(m1, m2, l, root, low, middle) && low <= middle <= high
    ensures OnlyBytes(m, m2, l, root, low, high)
  {
    hide OnlyBytes;
    OnlyBytesWider(m, m1, l, root, middle, high, low, high);
    OnlyBytesWider(m1, m2, l, root, low, middle, low, high);
    OnlyBytesTwice(m, m1, m2, l, root, low, high);
  }

  /** The words below `vector`, pushed from the padding to the argument count. */
  method WriteVector(k: Pager, ghost l: Layout, ghost loose: set<nat>, ghost low: nat, ghost high: nat, vector: nat,
      arguments: seq<U64>, path: U64, pwd: U64) returns (sp: nat)
    requires CanWrite(k, l, loose, low, high) && vector <= high && low + 8 * (|arguments| + 6) <= vector
    modifies k.memory
    ensures CanWrite(k, l, loose, low, high)
    ensures sp + 8 * (|arguments| + 6) == vector && |arguments| < TWO_64
    ensures OnlyBytes(old(k.Memory()), k.Memory(), l, k.cr3, sp, vector)
    ensures WordsAt(Flat(k.Memory(), k.cr3), sp, Vector(arguments, path, pwd))
  {
    hide CanWrite, OnlyBytes, Flat, WordsAt, Only;
    CanWriteRange(k, l, loose, low, high);
    ghost var m := k.Memory();
    NoWords(Flat(m, k.cr3), vector);
    Push(k, l, loose, low, high, vector, 0, []);
    CanWriteRange(k, l, loose, low, high);
    ghost var m1 := k.Memory();
    var cursor := PushAll(k, l, loose, low, high, vector - 8, [0, path, pwd, 0], [0] + []);
    assert [0, path, pwd, 0] + ([0] + []) == [0, path, pwd, 0, 0];
    CanWriteRange(k, l, loose, low, high);
    ghost var m2, words := k.Memory(), cursor;
    OnlyBytesBelow(m, m1, m2, l, k.cr3, cursor, vector - 8, vector);
    cursor := PushAll(k, l, loose, low, high, cursor, arguments, [0, path, pwd, 0, 0]);
    CanWriteRange(k, l, loose, low, high);
    ghost var m3 := k.Memory();
    OnlyBytesBelow(m, m2, m3, l, k.cr3, cursor, words, vector);
    Push(k, l, loose, low, high, cursor, |arguments|, arguments + [0, path, pwd, 0, 0]);
    sp := cursor - 8;
    OnlyBytesBelow(m, m3, k.Memory(), l, k.cr3, sp, cursor, vector);
  }

  lemma NoWords(m: seq<Byte>, a: nat)
    ensures WordsAt(m, a, [])
  {
  }

  /** Pushes words, the last one first. */
  method PushAll(k: Pager, ghost l: Layout, ghost loose: set<nat>, ghost low: nat, ghost high: nat, end: nat,
      values: seq<U64>, ghost words: seq<U64>) returns (cursor: nat)
    requires CanWrite(k, l, loose, low, high) && low + 8 * |values| <= end <= high
    requires WordsAt(Flat(k.Memory(), k.cr3), end, words)
    modifies k.memory
    ensures CanWrite(k, l, loose, low, high)
    ensures cursor + 8 * |values| == end
    ensures OnlyBytes(old(k.Memory()), k.Memory(), l, k.cr3, cursor, end)
    ensures WordsAt(Flat(k.Memory(), k.cr3), cursor, values + words)
  {
    hide CanWrite, OnlyBytes, Flat, WordsAt, Only;
    CanWriteRange(k, l, loose, low, high);
    ghost var m := k.Memory();
    cursor := end;
    var index: nat := |values|;
    assert values[index..] + words == words;
    NothingStored(m, l, k.cr3, end, end);
    while index > 0
      invariant CanWrite(k, l, loose, low, high) && k.memory.Length == FRAME_COUNT
      invariant index <= |values| && cursor + 8 * (|values| - index) == end
      invariant OnlyBytes(m, k.Memory(), l, k.cr3, cursor, end)
      invariant WordsAt(Flat(k.Memory(), k.cr3), cursor, values[index..] + words)
    {
      ghost var m1 := k.Memory();
      index := index - 1;
      Push(k, l, loose, low, high, cursor, values[index], values[index + 1..] + words);
      CanWriteRange(k, l, loose, low, high);
      assert [values[index]] + (values[index + 1..] + words) == values[index..] + words;
      cursor := cursor - 8;
      OnlyBytesBelow(m, m1, k.Memory(), l, k.cr3, cursor, cursor + 8, end);
    }
    assert values[0..] == values;
  }

  // --------------------------------------------------------------------- reading

  /** The word at an address, as the processor reads it. */
  function Word(m: seq<Byte>, a: nat): nat
    requires a + 8 <= |m|
  {
    LittleEndian(m[a..a + 8])
  }

  lemma WordIsRead(m: seq<Byte>, a: nat, w: U64)
    requires WordAt(m, a, w)
    ensures Word(m, a) == w
  {
    WordIsEightBytes();
    BytesSpellWord(m[a..a + 8], w);
  }

  /** The bytes from an address up to the next zero. */
  function CString(m: seq<Byte>, a: nat): seq<Byte>
    decreases |m| - a
  {
    if a >= |m| || m[a] == 0 then [] else [m[a]] + CString(m, a + 1)
  }

  lemma {:induction false} StringIsRead(m: seq<Byte>, a: nat, s: seq<Byte>)
    requires StringAt(m, a, s) && forall i: nat | i < |s| :: s[i] != 0
    ensures CString(m, a) == s
    decreases |s|
  {
    if s != [] {
      assert m[a + 0] == s[0];
      forall i: nat | i < |s[1..]| ensures m[a + 1 + i] == s[1..][i] {
        assert m[a + (i + 1)] == s[i + 1];
      }
      StringIsRead(m, a + 1, s[1..]);
    }
  }

  /** Argument `i` as a program finds it: through the pointer vector that starts one word
      above the stack pointer. */
  function ReadArgument(m: seq<Byte>, sp: nat, i: nat): seq<Byte>
    requires sp + 8 * (i + 2) <= |m|
  {
    CString(m, Word(m, sp + 8 + 8 * i))
  }

  predicate ZeroFree(s: seq<Byte>) {
    forall j: nat | j < |s| :: s[j] != 0
  }

  lemma VectorWord(m: seq<Byte>, sp: nat, words: seq<U64>, i: nat)
    requires WordsAt(m, sp, words) && i < |words|
    ensures sp + 8 * i + 8 <= |m| && Word(m, sp + 8 * i) == words[i]
  {
    hide WordAt, Word;
    assert WordAt(m, sp + 8 * i, words[i]);
    assert sp + 8 * i + 8 <= |m| by { WordFits(m, sp + 8 * i, words[i]); }
    WordIsRead(m, sp + 8 * i, words[i]);
  }

  lemma WordFits(m: seq<Byte>, a: nat, w: U64)
    requires WordAt(m, a, w)
    ensures a + 8 <= |m|
  {
  }

  /** What was written is what `_start` and `main` read: the count at the stack pointer, each
      argument through `argv`, the null after them, and the environment with its own null. */
  lemma StackRoundTrip(m: seq<Byte>, top: nat, sp: nat, args: seq<seq<Byte>>, pointers: seq<U64>)
    requires StackImage(m, top, sp, args, pointers)
    ensures sp + 8 * (|args| + 5) <= |m|
    ensures Word(m, sp) == |args|
    ensures forall i: nat | i < |args| && ZeroFree(args[i]) :: ReadArgument(m, sp, i) == args[i]
    ensures Word(m, sp + 8 * (|args| + 1)) == 0
    ensures CString(m, Word(m, sp + 8 * (|args| + 2))) == PATH_ENTRY
    ensures CString(m, Word(m, sp + 8 * (|args| + 3))) == PWD_ENTRY
    ensures Word(m, sp + 8 * (|args| + 4)) == 0
  {
    hide WordsAt, StringAt, Word, CString, Vector, StringsAt, Fits, VectorEnd, StringBytes, ZeroFree, ReadArgument;
    var strings := top - StringBytes(args, 0);
    assert |pointers| == |args|;
    RoomForStrings(args, top);
    VectorReads(m, sp, pointers, strings - 10, strings - 16);
    EnvironmentIsRead(m, strings);
    forall i: nat | i < |args| && ZeroFree(args[i]) ensures ReadArgument(m, sp, i) == args[i] {
      ArgumentIsRead(m, sp, args, pointers, i);
    }
  }

  lemma RoomForStrings(args: seq<seq<Byte>>, top: nat)
    requires Fits(args, top)
    ensures StringBytes(args, 0) + ENVIRONMENT_BYTES <= top
  {
  }

  lemma EnvironmentIsRead(m: seq<Byte>, strings: int)
    requires strings >= 16 && StringAt(m, strings - 10, PATH_ENTRY) && StringAt(m, strings - 16, PWD_ENTRY)
    ensures CString(m, strings - 10) == PATH_ENTRY && CString(m, strings - 16) == PWD_ENTRY
  {
    hide StringAt, CString;
    StringIsRead(m, strings - 10, PATH_ENTRY);
    StringIsRead(m, strings - 16, PWD_ENTRY);
  }

  lemma ArgumentIsRead(m: seq<Byte>, sp: nat, args: seq<seq<Byte>>, pointers: seq<U64>, i: nat)
    requires StringsAt(m, args, pointers, 0) && i < |args| && ZeroFree(args[i]) && sp + 8 * (i + 2) <= |m|
    requires Word(m, sp + 8 + 8 * i) == pointers[i]
    ensures ReadArgument(m, sp, i) == args[i]
  {
    hide StringAt, CString, Word;
    StringIsRead(m, pointers[i], args[i]);
  }

  lemma VectorReads(m: seq<Byte>, sp: nat, pointers: seq<U64>, path: U64, pwd: U64)
    requires |pointers| < TWO_64 && WordsAt(m, sp, Vector(pointers, path, pwd))
    ensures sp + 8 * (|pointers| + 5) <= |m|
    ensures Word(m, sp) == |pointers|
    ensures forall i: nat | i < |pointers| :: Word(m, sp + 8 + 8 * i) == pointers[i]
    ensures Word(m, sp + 8 * (|pointers| + 1)) == 0
    ensures Word(m, sp + 8 * (|pointers| + 2)) == path && Word(m, sp + 8 * (|pointers| + 3)) == pwd
    ensures Word(m, sp + 8 * (|pointers| + 4)) == 0
  {
    hide WordsAt, Word;
    var words := Vector(pointers, path, pwd);
    var n := |pointers|;
    VectorWord(m, sp, words, 0);
    VectorWord(m, sp, words, n + 1);
    VectorWord(m, sp, words, n + 2);
    VectorWord(m, sp, words, n + 3);
    VectorWord(m, sp, words, n + 4);
    forall i: nat | i < n ensures Word(m, sp + 8 + 8 * i) == pointers[i] {
      VectorWord(m, sp, words, i + 1);
    }
  }

  /** Characters as the bytes they are stored as. */
  function Ascii(text: string): seq<Byte> {
    seq(|text|, i requires 0 <= i < |text| => text[i] as int % 256)
  }

  /** What a program finds that is started as `name` with the caller's arguments `argv`, of which
      it gets at most four: the count, its name, the arguments, a null, the two entries of its
      environment, a null.  Strings end at their first zero byte. */
  ghost predicate StackReads(m: seq<Byte>, sp: nat, name: seq<Byte>, argv: seq<seq<Byte>>) {
    var n := if |argv| < 4 then |argv| else 4;
    && sp + 8 * (n + 6) <= |m|
    && Word(m, sp) == 1 + n
    && (ZeroFree(name) ==> ReadArgument(m, sp, 0) == name)
    && (forall i: nat | i < n && ZeroFree(argv[i]) :: ReadArgument(m, sp, i + 1) == argv[i])
    && Word(m, sp + 8 * (n + 2)) == 0
    && CString(m, Word(m, sp + 8 * (n + 3))) == Ascii("PATH=/bin")
    && CString(m, Word(m, sp + 8 * (n + 4))) == Ascii("PWD=/")
    && Word(m, sp + 8 * (n + 5)) == 0
  }

  /** The image of a stack reads as what it was made of. */
  lemma StackIsRead(m: seq<Byte>, top: nat, sp: nat, name: seq<Byte>, argv: seq<seq<Byte>>, pointers: seq<U64>)
    requires StackImage(m, top, sp, Arguments(name, argv), pointers)
    ensures StackReads(m, sp, name, argv)
  {
    hide StackImage, Word, CString, ReadArgument, ZeroFree;
    var args := Arguments(name, argv);
    var n := if |argv| < 4 then |argv| else 4;
    assert |args| == 1 + n && args[0] == name;
    StackRoundTrip(m, top, sp, args, pointers);
    forall i: nat | i < n && ZeroFree(argv[i]) ensures ReadArgument(m, sp, i + 1) == argv[i] {
      assert args[i + 1] == argv[i];
    }
    assert PATH_ENTRY == Ascii("PATH=/bin") && PWD_ENTRY == Ascii("PWD=/");
  }

  /** The stack pointer is 8 times the argument count modulo 16: misaligned by 8, as on entry
      to a called function, exactly when the count is odd. */
  lemma FinalAlignment(m: seq<Byte>, top: nat, sp: nat, args: seq<seq<Byte>>, pointers: seq<U64>)
    requires StackImage(m, top, sp, args, pointers)
    ensures sp % 16 == 8 * |args| % 16
    ensures sp % 16 == 8 <==> |args| % 2 == 1
  {
    var k := (top - StringBytes(args, 0) - ENVIRONMENT_BYTES) / 16;
    assert VectorEnd(args, top) == 16 * k;
    assert sp == 16 * k - 8 * (|args| + 6);
    if |args| % 2 == 0 {
      var h := |args| / 2;
      assert sp == 16 * (k - h - 3);
    } else {
      var h := |args| / 2;
      assert sp == 16 * (k - h - 4) + 8;
    }
  }

  /** For the sizes the system call lets through, the four pages of a user stack suffice. */
  lemma FourPagesSuffice(name: seq<Byte>, argv: seq<seq<Byte>>, top: nat)
    requires |name| < 64 && forall i: nat | i < |argv| :: |argv[i]| < 64
    requires 4 * 4096 <= top
    ensures FitsAbove(Arguments(name, argv), top - 4 * 4096, top)
  {
    var args := Arguments(name, argv);
    ShortStrings(args, 0);
  }

  lemma {:induction false} ShortStrings(args: seq<seq<Byte>>, i: nat)
    requires i <= |args| && forall j: nat | j < |args| :: |args[j]| < 64
    ensures StringBytes(args, i) <= 64 * (|args| - i)
    decreases |args| - i
  {
    if i < |args| {
      ShortStrings(args, i + 1);
    }
  }
}
