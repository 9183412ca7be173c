/** What the frame allocator of `kernel-core/src/memory.rs` keeps track of: which frames
    are free and which it has handed out. */
module FrameSets {
  import opened Wrappers

  const PAGE_SIZE: nat := 4096
  const MAX_FRAMES: nat := 0x10_0000
  const MAX_PHYSICAL_ADDRESS: nat := 0x1_0000_0000
  const FIRST_MEGABYTE: nat := 0x10_0000

  datatype Frames = Frames(vacant: set<nat>, taken: set<nat>)

  /** No frame is both free and handed out, and every one of them is tracked. */
  ghost predicate Sound(s: Frames) {
    && s.vacant !! s.taken
    && (forall f | f in s.vacant :: f < MAX_FRAMES)
    && (forall f | f in s.taken :: f < MAX_FRAMES)
  }

  ghost predicate IsLowest(s: set<nat>, f: nat) {
    f in s && forall g | g in s :: f <= g
  }

  lemma {:induction false} LowestExists(s: set<nat>)
    requires s != {}
    ensures exists f :: IsLowest(s, f)
    decreases s
  {
    var f :| f in s;
    if s - {f} == {} {
      assert forall g | g in s :: g == f || g in s - {f};
      assert IsLowest(s, f);
    } else {
      LowestExists(s - {f});
      var g :| IsLowest(s - {f}, g);
      var low := if f < g then f else g;
      assert forall h | h in s :: h == f || h in s - {f};
      assert IsLowest(s, low);
    }
  }

  ghost function Lowest(s: set<nat>): (f: nat)
    requires s != {}
    ensures IsLowest(s, f)
  {
    LowestExists(s);
    var f :| IsLowest(s, f);
    f
  }

  /** `allocate`: the lowest free frame. */
  ghost function Allocate(s: Frames): (r: (Frames, Option<nat>))
    ensures r.1.Some? ==> r.1.value in s.vacant
    ensures Sound(s) ==> Sound(r.0)
  {
    if s.vacant == {} then (s, None)
    else
      var f := Lowest(s.vacant);
      (Frames(s.vacant - {f}, s.taken + {f}), Some(f))
  }

  /** `free` of the frame at a page-aligned address. */
  ghost function Release(s: Frames, f: nat): Frames {
    if f in s.taken then Frames(s.vacant + {f}, s.taken - {f}) else s
  }

  ghost function ReleaseAll(s: Frames, log: seq<nat>): Frames
    decreases |log|
  {
    if log == [] then s else ReleaseAll(Release(s, log[0]), log[1..])
  }

  datatype Call = Take | Give(address: nat)

  ghost function Apply(s: Frames, call: Call): Frames {
    match call
    case Take => Allocate(s).0
    case Give(address) => if address % PAGE_SIZE == 0 then Release(s, address / PAGE_SIZE) else s
  }

  ghost function ApplyAll(s: Frames, calls: seq<Call>): Frames
    decreases |calls|
  {
    if calls == [] then s else ApplyAll(Apply(s, calls[0]), calls[1..])
  }

  /** Whatever is allocated and freed, in whatever order and with whatever addresses, the
      frames in circulation stay the ones that were free at boot. */
  lemma {:induction false} CirculationIsConstant(s: Frames, calls: seq<Call>)
    requires Sound(s)
    ensures var t := ApplyAll(s, calls);
            Sound(t) && t.vacant + t.taken == s.vacant + s.taken
            && |t.vacant| + |t.taken| == |s.vacant| + |s.taken|
    decreases |calls|
  {
    if calls != [] {
      StepKeepsCirculation(s, calls[0]);
      CirculationIsConstant(Apply(s, calls[0]), calls[1..]);
    }
  }

  lemma MoveOne(a: set<nat>, b: set<nat>, f: nat)
    requires f in a && f !in b
    ensures |a - {f}| + |b + {f}| == |a| + |b|
    ensures (a - {f}) + (b + {f}) == a + b
  {
  }

  lemma StepKeepsCirculation(s: Frames, call: Call)
    requires Sound(s)
    ensures var t := Apply(s, call);
            Sound(t) && t.vacant + t.taken == s.vacant + s.taken
            && |t.vacant| + |t.taken| == |s.vacant| + |s.taken|
  {
    match call
    case Take =>
      if s.vacant != {} {
        MoveOne(s.vacant, s.taken, Lowest(s.vacant));
      }
    case Give(address) =>
      var f := address / PAGE_SIZE;
      if f in s.taken {
        MoveOne(s.taken, s.vacant, f);
      }
  }

  /** Freeing distinct handed-out frames moves exactly those frames. */
  lemma {:induction false} ReleaseAllIs(s: Frames, log: seq<nat>)
    requires s.vacant !! s.taken
    requires forall i | 0 <= i < |log| :: log[i] in s.taken
    requires forall i, j | 0 <= i < j < |log| :: log[i] != log[j]
    ensures ReleaseAll(s, log) == Frames(s.vacant + (set f | f in log), s.taken - (set f | f in log))
    decreases |log|
  {
    if log != [] {
      var s1 := Release(s, log[0]);
      assert forall i | 0 <= i < |log[1..]| :: log[1..][i] == log[i + 1];
      ReleaseAllIs(s1, log[1..]);
      assert (set f | f in log) == {log[0]} + set f | f in log[1..];
    }
  }

  lemma {:induction false} ReleaseAllConcat(s: Frames, a: seq<nat>, b: seq<nat>)
    ensures ReleaseAll(s, a + b) == ReleaseAll(ReleaseAll(s, a), b)
    decreases |a|
  {
    if a == [] {
      assert a + b == b;
    } else {
      assert (a + b)[1..] == a[1..] + b;
      ReleaseAllConcat(Release(s, a[0]), a[1..], b);
    }
  }
}
