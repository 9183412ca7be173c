/** The order in which `init/src/main.rs` starts services, and stops them. */
module StartOrder {

  /** A service table entry; names are compared, so any type with equality will do. */
  datatype Service<Name> = Service(name: Name, dependsOn: seq<Name>)

  ghost predicate DistinctNames<Name>(table: seq<Service<Name>>) {
    forall i: nat, j: nat | i < j < |table| :: table[i].name != table[j].name
  }

  function Names<Name>(services: seq<Service<Name>>): (r: seq<Name>)
    ensures |r| == |services|
    ensures forall i: nat | i < |r| :: r[i] == services[i].name
  {
    seq(|services|, i requires 0 <= i < |services| => services[i].name)
  }

  predicate Ready<Name(==)>(service: Service<Name>, started: seq<Name>) {
    forall i: nat | i < |service.dependsOn| :: service.dependsOn[i] in started
  }

  // --------------------------------------------------- which services are resolvable

  /** Names that can be started within `rounds` rounds, each round starting everything whose
      dependencies the rounds before have started. */
  ghost function Rounds<Name>(table: seq<Service<Name>>, rounds: nat): set<Name> {
    if rounds == 0 then {}
    else
      var before := Rounds(table, rounds - 1);
      before + set i: nat | i < |table| && DependsWithin(table[i], before) :: table[i].name
  }

  ghost predicate DependsWithin<Name>(service: Service<Name>, names: set<Name>) {
    forall i: nat | i < |service.dependsOn| :: service.dependsOn[i] in names
  }

  /** Started eventually: the least set that contains every service whose dependencies it
      contains. */
  ghost predicate Resolvable<Name(!new)>(table: seq<Service<Name>>, name: Name) {
    exists rounds: nat :: name in Rounds(table, rounds)
  }

  ghost predicate Closed<Name>(table: seq<Service<Name>>, names: set<Name>) {
    forall i: nat | i < |table| && DependsWithin(table[i], names) :: table[i].name in names
  }

  /** No closed set misses a resolvable service. */
  lemma {:induction false} RoundsInClosed<Name>(table: seq<Service<Name>>, names: set<Name>, rounds: nat)
    requires Closed(table, names)
    ensures Rounds(table, rounds) <= names
  {
    if rounds > 0 {
      RoundsInClosed(table, names, rounds - 1);
      forall i: nat | i < |table| && DependsWithin(table[i], Rounds(table, rounds - 1)) ensures table[i].name in names {
        assert DependsWithin(table[i], names);
      }
    }
  }

  // ------------------------------------------------------------------ the algorithm

  /** `order` holds table entries, each with all its dependencies before it. */
  ghost predicate InDependencyOrder<Name>(order: seq<Service<Name>>) {
    forall k: nat | k < |order| :: Ready(order[k], Names(order[..k]))
  }

  ghost predicate FromTable<Name>(table: seq<Service<Name>>, order: seq<Service<Name>>) {
    && (forall k: nat | k < |order| :: order[k] in table)
    && DistinctNames(order)
  }

  /** `started` and `order` grow together. */
  ghost predicate Built<Name(!new)>(table: seq<Service<Name>>, started: seq<Name>, order: seq<Service<Name>>) {
    && started == Names(order) && FromTable(table, order) && InDependencyOrder(order)
    && forall k: nat | k < |order| :: Resolvable(table, order[k].name)
  }

  lemma BuiltGrows<Name(!new)>(table: seq<Service<Name>>, started: seq<Name>, order: seq<Service<Name>>, i: nat)
    requires Built(table, started, order) && i < |table|
    requires table[i].name !in started && Ready(table[i], started)
    ensures Built(table, started + [table[i].name], order + [table[i]])
  {
    var order2 := order + [table[i]];
    assert order2[..|order|] == order;
    assert Names(order2) == started + [table[i].name];
    forall k: nat | k < |order2| ensures Ready(order2[k], Names(order2[..k])) && Resolvable(table, order2[k].name) {
      if k < |order| {
        assert order2[..k] == order[..k];
        assert Ready(order[k], Names(order[..k]));
      } else {
        ReadyIsResolvable(table, started, order, i);
      }
    }
    forall j: nat, k: nat | j < k < |order2| ensures order2[j].name != order2[k].name {
      if k == |order| {
        assert started[j] == order[j].name;
      }
    }
  }

  /** A service whose dependencies are all resolvable is resolvable. */
  lemma ReadyIsResolvable<Name(!new)>(table: seq<Service<Name>>, started: seq<Name>, order: seq<Service<Name>>, i: nat)
    requires Built(table, started, order) && i < |table| && Ready(table[i], started)
    ensures Resolvable(table, table[i].name)
  {
    var rounds := EnoughRounds(table, order, |order|);
    var names := Rounds(table, rounds);
    forall d: nat | d < |table[i].dependsOn| ensures table[i].dependsOn[d] in names {
      var k: nat :| k < |started| && started[k] == table[i].dependsOn[d];
    }
    assert DependsWithin(table[i], names);
    assert table[i].name in Rounds(table, rounds + 1);
  }

  lemma {:induction false} EnoughRounds<Name(!new)>(table: seq<Service<Name>>, order: seq<Service<Name>>,
      n: nat) returns (rounds: nat)
    requires n <= |order| && forall k: nat | k < |order| :: Resolvable(table, order[k].name)
    ensures forall k: nat | k < n :: order[k].name in Rounds(table, rounds)
  {
    if n == 0 {
      rounds := 0;
    } else {
      var before := EnoughRounds(table, order, n - 1);
      assert Resolvable(table, order[n - 1].name);
      var last: nat :| order[n - 1].name in Rounds(table, last);
      rounds := if before > last then before else last;
      MoreRounds(table, before, rounds);
      MoreRounds(table, last, rounds);
    }
  }

  lemma {:induction false} MoreRounds<Name>(table: seq<Service<Name>>, a: nat, b: nat)
    requires a <= b
    ensures Rounds(table, a) <= Rounds(table, b)
  {
    hide DependsWithin;
    if a < b {
      MoreRounds(table, a, b - 1);
      OneMoreRound(table, b - 1);
    }
  }

  lemma OneMoreRound<Name>(table: seq<Service<Name>>, a: nat)
    ensures Rounds(table, a) <= Rounds(table, a + 1)
  {
    hide DependsWithin;
  }

  /** What `start_order` promises: `resolved` services in dependency order, which are exactly
      the resolvable ones, and then the others in table order. */
  ghost predicate StartOrdered<Name(!new)>(table: seq<Service<Name>>, order: seq<Service<Name>>, resolved: nat) {
    && resolved <= |order|
    && Built(table, Names(order[..resolved]), order[..resolved])
    && (forall i: nat | i < |table| :: Resolvable(table, table[i].name) <==> table[i].name in Names(order[..resolved]))
    && order[resolved..] == Unstarted(table, Names(order[..resolved]), 0)
  }

  /** Table entries from `i` on whose names have not been started. */
  ghost function Unstarted<Name>(table: seq<Service<Name>>, started: seq<Name>, i: nat): seq<Service<Name>>
    requires i <= |table|
    decreases |table| - i
  {
    if i == |table| then []
    else (if table[i].name in started then [] else [table[i]]) + Unstarted(table, started, i + 1)
  }

  method ComputeStartOrder<Name(==, !new)>(table: seq<Service<Name>>) returns (order: seq<Service<Name>>,
      ghost resolved: nat)
    requires DistinctNames(table)
    ensures StartOrdered(table, order, resolved)
    ensures |order| == |table|
  {
    var started: seq<Name> := [];
    order := [];
    while |order| < |table|
      invariant Built(table, started, order)
      decreases |table| - |order|
    {
      var progressed := false;
      ghost var before := order;
      for i := 0 to |table|
        invariant Built(table, started, order)
        invariant progressed <==> |order| > |before|
        invariant |before| <= |order|
        invariant !progressed ==> order == before
        invariant !progressed ==> forall j: nat | j < i :: table[j].name in started || !Ready(table[j], started)
      {
        if table[i].name !in started && Ready(table[i], started) {
          BuiltGrows(table, started, order, i);
          started := started + [table[i].name];
          order := order + [table[i]];
          progressed := true;
        }
      }
      if !progressed {
        resolved := |order|;
        StuckIsComplete(table, started, order);
        order := StartTheRest(table, started, order);
        return;
      }
      CannotOvershoot(table, order);
    }
    resolved := |order|;
    CannotOvershoot(table, order);
    AllStarted(table, started, order);
  }

  // ------------------------------------------------------------------- counting

  ghost function NameSet<Name>(services: seq<Service<Name>>): set<Name> {
    set k: nat | k < |services| :: services[k].name
  }

  lemma {:induction false} NamesAreCounted<Name(!new)>(services: seq<Service<Name>>)
    requires DistinctNames(services)
    ensures |NameSet(services)| == |services|
    decreases |services|
  {
    if services == [] {
      assert NameSet(services) == {};
    } else {
      var last := services[|services| - 1];
      var front := services[..|services| - 1];
      NamesAreCounted(front);
      assert NameSet(services) == NameSet(front) + {last.name};
      assert last.name !in NameSet(front);
    }
  }

  lemma SubsetIsSmaller<T>(a: set<T>, b: set<T>)
    requires a <= b
    ensures |a| <= |b| && (|a| == |b| ==> a == b)
  {
    assert b == a + (b - a);
  }

  lemma FromTableNames<Name(!new)>(table: seq<Service<Name>>, order: seq<Service<Name>>)
    requires FromTable(table, order)
    ensures NameSet(order) <= NameSet(table)
  {
    forall k: nat | k < |order| ensures order[k].name in NameSet(table) {
      assert order[k] in table;
    }
  }

  lemma CannotOvershoot<Name(!new)>(table: seq<Service<Name>>, order: seq<Service<Name>>)
    requires DistinctNames(table) && FromTable(table, order)
    ensures |order| <= |table|
    ensures |order| == |table| ==> NameSet(order) == NameSet(table)
  {
    NamesAreCounted(table);
    NamesAreCounted(order);
    FromTableNames(table, order);
    SubsetIsSmaller(NameSet(order), NameSet(table));
  }

  // ------------------------------------------------------------------ the two exits

  lemma StartedIsResolvable<Name(!new)>(table: seq<Service<Name>>, started: seq<Name>, order: seq<Service<Name>>,
      i: nat)
    requires Built(table, started, order) && i < |table| && table[i].name in started
    ensures Resolvable(table, table[i].name)
  {
    var k: nat :| k < |started| && started[k] == table[i].name;
    assert order[k].name == table[i].name;
  }

  /** A pass without progress has found everything there is to find. */
  lemma StuckIsComplete<Name(!new)>(table: seq<Service<Name>>, started: seq<Name>, order: seq<Service<Name>>)
    requires Built(table, started, order)
    requires forall j: nat | j < |table| :: table[j].name in started || !Ready(table[j], started)
    ensures forall i: nat | i < |table| :: Resolvable(table, table[i].name) <==> table[i].name in started
  {
    var names := set k: nat | k < |started| :: started[k];
    assert Closed(table, names) by {
      forall i: nat | i < |table| && DependsWithin(table[i], names) ensures table[i].name in names {
        forall d: nat | d < |table[i].dependsOn| ensures table[i].dependsOn[d] in started {
          assert table[i].dependsOn[d] in names;
        }
        assert Ready(table[i], started);
      }
    }
    forall i: nat | i < |table| ensures Resolvable(table, table[i].name) <==> table[i].name in started {
      if Resolvable(table, table[i].name) {
        var rounds: nat :| table[i].name in Rounds(table, rounds);
        RoundsInClosed(table, names, rounds);
      }
      if table[i].name in started {
        StartedIsResolvable(table, started, order, i);
      }
    }
  }

  lemma AllStarted<Name(!new)>(table: seq<Service<Name>>, started: seq<Name>, order: seq<Service<Name>>)
    requires DistinctNames(table) && Built(table, started, order) && |order| == |table|
    ensures StartOrdered(table, order, |order|)
  {
    CannotOvershoot(table, order);
    assert order[..|order|] == order;
    forall i: nat | i < |table| ensures table[i].name in started && Resolvable(table, table[i].name) {
      assert table[i].name in NameSet(order);
      var k: nat :| k < |order| && order[k].name == table[i].name;
      assert started[k] == table[i].name;
      StartedIsResolvable(table, started, order, i);
    }
    NothingUnstarted(table, started, 0);
  }

  lemma {:induction false} NothingUnstarted<Name>(table: seq<Service<Name>>, started: seq<Name>, i: nat)
    requires i <= |table| && forall j: nat | i <= j < |table| :: table[j].name in started
    ensures Unstarted(table, started, i) == []
    decreases |table| - i
  {
    if i < |table| {
      NothingUnstarted(table, started, i + 1);
    }
  }

  /** The fallback loop: everything left over, in table order. */
  method StartTheRest<Name(==, !new)>(table: seq<Service<Name>>, started: seq<Name>, resolved: seq<Service<Name>>)
      returns (order: seq<Service<Name>>)
    requires DistinctNames(table) && Built(table, started, resolved)
    requires forall i: nat | i < |table| :: Resolvable(table, table[i].name) <==> table[i].name in started
    ensures StartOrdered(table, order, |resolved|) && |order| == |table|
  {
    hide Built, Resolvable, StartOrdered, DistinctNames;
    order := resolved;
    for i := 0 to |table|
      invariant order + Unstarted(table, started, i) == resolved + Unstarted(table, started, 0)
    {
      ghost var rest := Unstarted(table, started, i + 1);
      if table[i].name !in started {
        assert order + ([table[i]] + rest) == (order + [table[i]]) + rest;
        order := order + [table[i]];
      } else {
        assert [] + rest == rest;
      }
    }
    RestIsOrdered(table, started, resolved, order);
  }

  lemma RestIsOrdered<Name(!new)>(table: seq<Service<Name>>, started: seq<Name>, resolved: seq<Service<Name>>,
      order: seq<Service<Name>>)
    requires DistinctNames(table) && Built(table, started, resolved)
    requires forall i: nat | i < |table| :: Resolvable(table, table[i].name) <==> table[i].name in started
    requires order + [] == resolved + Unstarted(table, started, 0)
    ensures StartOrdered(table, order, |resolved|) && |order| == |table|
  {
    hide DistinctNames, Resolvable, Unstarted;
    assert order == resolved + Unstarted(table, started, 0);
    assert order[..|resolved|] == resolved;
    RestCounts(table, started, resolved, 0);
    CountStarted(table, started, resolved);
  }

  /** Indices from `i` on of entries that were started. */
  ghost function StartedFrom<Name>(table: seq<Service<Name>>, started: seq<Name>, i: nat): set<nat> {
    set j: nat | i <= j < |table| && table[j].name in started
  }

  lemma {:induction false} RestCounts<Name>(table: seq<Service<Name>>, started: seq<Name>,
      resolved: seq<Service<Name>>, i: nat)
    requires i <= |table|
    ensures |Unstarted(table, started, i)| + |StartedFrom(table, started, i)| == |table| - i
    decreases |table| - i
  {
    if i == |table| {
      assert StartedFrom(table, started, i) == {};
    } else {
      RestCounts(table, started, resolved, i + 1);
      if table[i].name in started {
        assert StartedFrom(table, started, i) == {i} + StartedFrom(table, started, i + 1);
      } else {
        assert StartedFrom(table, started, i) == StartedFrom(table, started, i + 1);
      }
    }
  }

  /** As many entries were started as the order has. */
  lemma CountStarted<Name(!new)>(table: seq<Service<Name>>, started: seq<Name>, order: seq<Service<Name>>)
    requires DistinctNames(table) && Built(table, started, order)
    ensures |StartedFrom(table, started, 0)| == |order|
  {
    var indices := StartedFrom(table, started, 0);
    var names := set j: nat | j in indices :: table[j].name;
    NamesAreCounted(order);
    assert names == NameSet(order) by {
      forall k: nat | k < |order| ensures order[k].name in names {
        assert order[k] in table;
        var j: nat :| j < |table| && table[j] == order[k];
        assert started[k] == table[j].name;
        assert j in indices;
      }
      forall j: nat | j in indices ensures table[j].name in NameSet(order) {
        var k: nat :| k < |started| && started[k] == table[j].name;
        assert order[k].name == table[j].name;
      }
    }
    ImageCount(table, indices);
  }

  lemma {:induction false} ImageCount<Name(!new)>(table: seq<Service<Name>>, indices: set<nat>)
    requires DistinctNames(table) && forall j | j in indices :: j < |table|
    ensures |set j: nat | j in indices :: table[j].name| == |indices|
    decreases |indices|
  {
    var names := set j: nat | j in indices :: table[j].name;
    if indices != {} {
      var i :| i in indices;
      ImageCount(table, indices - {i});
      var rest := set j: nat | j in indices - {i} :: table[j].name;
      assert names == rest + {table[i].name};
      assert table[i].name !in rest;
    }
  }

  // ------------------------------------------------------------------ consequences

  /** Every service is started exactly once. */
  lemma OrderIsPermutation<Name(!new)>(table: seq<Service<Name>>, order: seq<Service<Name>>, resolved: nat)
    requires DistinctNames(table) && StartOrdered(table, order, resolved)
    ensures multiset(order) == multiset(table)
  {
    var started := Names(order[..resolved]);
    assert order == order[..resolved] + order[resolved..];
    RestIsMultiset(table, started, 0);
    StartedIsMultiset(table, started, order[..resolved]);
    assert table[0..] == table;
  }

  /** Entries from `i` on whose names have been started, in table order. */
  ghost function StartedPart<Name>(table: seq<Service<Name>>, started: seq<Name>, i: nat): seq<Service<Name>>
    requires i <= |table|
    decreases |table| - i
  {
    if i == |table| then []
    else (if table[i].name in started then [table[i]] else []) + StartedPart(table, started, i + 1)
  }

  lemma {:induction false} RestIsMultiset<Name>(table: seq<Service<Name>>, started: seq<Name>, i: nat)
    requires i <= |table|
    ensures multiset(Unstarted(table, started, i)) + multiset(StartedPart(table, started, i)) == multiset(table[i..])
    decreases |table| - i
  {
    hide Unstarted, StartedPart;
    if i < |table| {
      var rest, done := Unstarted(table, started, i + 1), StartedPart(table, started, i + 1);
      RestIsMultiset(table, started, i + 1);
      AddOne(table[i], rest, done, table[i + 1..]);
      PartsUnfold(table, started, i);
      assert table[i..] == [table[i]] + table[i + 1..];
    } else {
      PartsEnd(table, started);
      assert table[i..] == [];
    }
  }

  lemma PartsEnd<Name>(table: seq<Service<Name>>, started: seq<Name>)
    ensures Unstarted(table, started, |table|) == [] && StartedPart(table, started, |table|) == []
  {
  }

  lemma PartsUnfold<Name>(table: seq<Service<Name>>, started: seq<Name>, i: nat)
    requires i < |table|
    ensures table[i].name in started ==>
              Unstarted(table, started, i) == Unstarted(table, started, i + 1)
              && StartedPart(table, started, i) == [table[i]] + StartedPart(table, started, i + 1)
    ensures table[i].name !in started ==>
              Unstarted(table, started, i) == [table[i]] + Unstarted(table, started, i + 1)
              && StartedPart(table, started, i) == StartedPart(table, started, i + 1)
  {
  }

  lemma AddOne<T>(x: T, a: seq<T>, b: seq<T>, c: seq<T>)
    requires multiset(a) + multiset(b) == multiset(c)
    ensures multiset([x] + a) + multiset(b) == multiset([x] + c)
    ensures multiset(a) + multiset([x] + b) == multiset([x] + c)
  {
    assert multiset([x] + a) == multiset{x} + multiset(a);
    assert multiset([x] + b) == multiset{x} + multiset(b);
    assert multiset([x] + c) == multiset{x} + multiset(c);
  }

  lemma NotLater<Name>(services: seq<Service<Name>>, i: nat)
    requires DistinctNames(services) && i < |services|
    ensures services[i] !in services[i + 1..]
  {
    var later := services[i + 1..];
    forall j: nat | j < |later| ensures later[j] != services[i] {
      assert services[i].name != services[i + 1 + j].name;
    }
  }

  lemma LastIsNew<Name>(services: seq<Service<Name>>)
    requires DistinctNames(services) && services != []
    ensures services[|services| - 1] !in services[..|services| - 1]
  {
    forall k: nat | k < |services| - 1 ensures services[k] != services[|services| - 1] {
      assert services[k].name != services[|services| - 1].name;
    }
  }

  lemma {:induction false} StartedPartHas<Name(!new)>(table: seq<Service<Name>>, started: seq<Name>, i: nat,
      x: Service<Name>)
    requires DistinctNames(table) && i <= |table|
    ensures multiset(StartedPart(table, started, i))[x] == if x in table[i..] && x.name in started then 1 else 0
    decreases |table| - i
  {
    if i < |table| {
      StartedPartHas(table, started, i + 1, x);
      assert table[i..] == [table[i]] + table[i + 1..];
      NotLater(table, i);
    }
  }

  lemma {:induction false} DistinctHas<Name(!new)>(services: seq<Service<Name>>, x: Service<Name>)
    requires DistinctNames(services)
    ensures multiset(services)[x] == if x in services then 1 else 0
    decreases |services|
  {
    if services != [] {
      var last := services[|services| - 1];
      var front := services[..|services| - 1];
      assert services == front + [last];
      DistinctHas(front, x);
      LastIsNew(services);
    }
  }

  lemma StartedIsMultiset<Name(!new)>(table: seq<Service<Name>>, started: seq<Name>, order: seq<Service<Name>>)
    requires DistinctNames(table) && Built(table, started, order)
    ensures multiset(order) == multiset(StartedPart(table, started, 0))
  {
    assert table[0..] == table;
    forall x: Service<Name> ensures multiset(order)[x] == multiset(StartedPart(table, started, 0))[x] {
      StartedPartHas(table, started, 0, x);
      DistinctHas(order, x);
      StartedIsOrdered(table, started, order, x);
    }
  }

  lemma StartedIsOrdered<Name(!new)>(table: seq<Service<Name>>, started: seq<Name>, order: seq<Service<Name>>,
      x: Service<Name>)
    requires DistinctNames(table) && Built(table, started, order)
    ensures x in order <==> x in table && x.name in started
  {
    if x in order {
      var k: nat :| k < |order| && order[k] == x;
      assert started[k] == x.name;
    }
    if x in table && x.name in started {
      var k: nat :| k < |started| && started[k] == x.name;
      assert order[k] in table;
      var i: nat :| i < |table| && table[i] == order[k];
      var j: nat :| j < |table| && table[j] == x;
      assert table[i].name == table[j].name;
    }
  }

  /** Dependencies name table entries and lead down some ranking, so there is no cycle. */
  ghost predicate ClosedAcyclic<Name(!new)>(table: seq<Service<Name>>, rank: Name -> nat) {
    forall i: nat, d: nat | i < |table| && d < |table[i].dependsOn| ::
      Known(table, table[i].dependsOn[d]) && rank(table[i].dependsOn[d]) < rank(table[i].name)
  }

  ghost predicate Known<Name(!new)>(table: seq<Service<Name>>, name: Name) {
    exists j: nat :: j < |table| && table[j].name == name
  }

  lemma {:induction false} RankIsRound<Name(!new)>(table: seq<Service<Name>>, rank: Name -> nat, i: nat, bound: nat)
    requires ClosedAcyclic(table, rank) && i < |table| && rank(table[i].name) < bound
    ensures table[i].name in Rounds(table, bound)
    decreases bound
  {
    hide Rounds;
    forall d: nat | d < |table[i].dependsOn| ensures table[i].dependsOn[d] in Rounds(table, bound - 1) {
      assert Known(table, table[i].dependsOn[d]);
      var j: nat :| j < |table| && table[j].name == table[i].dependsOn[d];
      RankIsRound(table, rank, j, bound - 1);
    }
    assert DependsWithin(table[i], Rounds(table, bound - 1));
    NextRound(table, i, bound);
  }

  lemma NextRound<Name>(table: seq<Service<Name>>, i: nat, bound: nat)
    requires i < |table| && bound > 0 && DependsWithin(table[i], Rounds(table, bound - 1))
    ensures table[i].name in Rounds(table, bound)
  {
  }

  /** When no dependency is missing or cyclic, nothing is left to the fallback. */
  lemma AcyclicNeedsNoFallback<Name(!new)>(table: seq<Service<Name>>, order: seq<Service<Name>>, resolved: nat,
      rank: Name -> nat)
    requires ClosedAcyclic(table, rank) && StartOrdered(table, order, resolved)
    ensures resolved == |order| && InDependencyOrder(order)
  {
    var started := Names(order[..resolved]);
    forall i: nat | i < |table| ensures table[i].name in started {
      RankIsRound(table, rank, i, rank(table[i].name) + 1);
      assert Resolvable(table, table[i].name);
    }
    NothingUnstarted(table, started, 0);
    assert order[..resolved] == order;
  }

  // --------------------------------------------------------------------- shutdown

  lemma OrderIsDistinct<Name(!new)>(table: seq<Service<Name>>, order: seq<Service<Name>>)
    requires DistinctNames(table) && multiset(order) == multiset(table)
    ensures DistinctNames(order)
    ensures forall name: Name :: Known(order, name) <==> Known(table, name)
  {
    forall j: nat, k: nat | j < k < |order| ensures order[j].name != order[k].name {
      InBoth(table, order, j);
      InBoth(table, order, k);
      DistinctHas(table, order[j]);
      TwiceCounts(order, j, k);
    }
    forall name: Name ensures Known(order, name) <==> Known(table, name) {
      if Known(order, name) {
        var j: nat :| j < |order| && order[j].name == name;
        InBoth(table, order, j);
      }
      if Known(table, name) {
        var j: nat :| j < |table| && table[j].name == name;
        InBoth(order, table, j);
      }
    }
  }

  lemma TwiceCounts<Name>(order: seq<Service<Name>>, j: nat, k: nat)
    requires j < k < |order|
    ensures order[j] == order[k] ==> multiset(order)[order[j]] >= 2
  {
    assert order == order[..k] + order[k..];
    assert order[j] in order[..k];
    assert order[k] in order[k..];
  }

  lemma InBoth<Name>(table: seq<Service<Name>>, order: seq<Service<Name>>, j: nat)
    requires multiset(order) == multiset(table) && j < |order|
    ensures exists i: nat :: i < |table| && table[i] == order[j]
  {
    assert order[j] in multiset(order);
    assert order[j] in table;
  }

  /** The running names among the entries from `k` on, last one first. */
  ghost function RunningFrom<Name>(order: seq<Service<Name>>, k: nat, running: set<Name>): seq<Name>
    requires k <= |order|
    decreases |order| - k
  {
    if k == |order| then []
    else RunningFrom(order, k + 1, running) + if order[k].name in running then [order[k].name] else []
  }

  /** Where a stopped name stands in the order. */
  lemma {:induction false} StoppedFrom<Name>(order: seq<Service<Name>>, k: nat, running: set<Name>,
      a: nat) returns (j: nat)
    requires k <= |order| && a < |RunningFrom(order, k, running)|
    ensures k <= j < |order| && order[j].name == RunningFrom(order, k, running)[a] && order[j].name in running
    decreases |order| - k
  {
    if a < |RunningFrom(order, k + 1, running)| {
      j := StoppedFrom(order, k + 1, running, a);
    } else {
      j := k;
    }
  }

  /** What is stopped earlier stands later in the order. */
  lemma {:induction false} StoppedBackwards<Name>(order: seq<Service<Name>>, k: nat, running: set<Name>, a: nat,
      b: nat) returns (j: nat, i: nat)
    requires k <= |order| && a < b < |RunningFrom(order, k, running)|
    ensures k <= i < j < |order|
    ensures order[j].name == RunningFrom(order, k, running)[a] && order[i].name == RunningFrom(order, k, running)[b]
    decreases |order| - k
  {
    if b < |RunningFrom(order, k + 1, running)| {
      j, i := StoppedBackwards(order, k + 1, running, a, b);
    } else {
      j := StoppedFrom(order, k + 1, running, a);
      i := k;
    }
  }

  lemma {:induction false} RunningIsStopped<Name>(order: seq<Service<Name>>, k: nat, running: set<Name>, j: nat)
    requires k <= j < |order| && order[j].name in running
    ensures order[j].name in RunningFrom(order, k, running)
    decreases |order| - k
  {
    if k < j {
      RunningIsStopped(order, k + 1, running, j);
    }
  }

  /** `shutdown_sequence`: stops what is running, in the reverse of the start order.  A service
      is stopped before one it depends on if and only if that one is resolvable or stands
      earlier in the table; so services that the fallback started may outlive their users. */
  method Shutdown<Name(==, !new)>(table: seq<Service<Name>>, running: set<Name>) returns (stopped: seq<Name>)
    requires DistinctNames(table)
    ensures forall name: Name :: name in stopped <==> name in running && Known(table, name)
    ensures forall a: nat, b: nat | a < b < |stopped| :: stopped[a] != stopped[b]
    ensures forall i: nat, a: nat, b: nat |
              i < |table| && a < |stopped| && b < |stopped| && table[i].name == stopped[a] && stopped[b] in table[i].dependsOn
              && Resolvable(table, stopped[a]) :: a < b
    ensures forall i: nat, j: nat, a: nat, b: nat |
              i < |table| && j < |table| && a < |stopped| && b < |stopped|
              && table[i].name == stopped[a] && table[j].name == stopped[b] && table[j].name in table[i].dependsOn ::
              a < b <==> Resolvable(table, table[j].name) || j < i
  {
    var order;
    ghost var resolved;
    order, resolved := ComputeStartOrder(table);
    OrderIsPermutation(table, order, resolved);
    OrderIsDistinct(table, order);
    stopped := [];
    var left := running;
    var k: nat := |order|;
    while k > 0
      invariant k <= |order| && stopped == RunningFrom(order, k, running)
      invariant forall name: Name :: name in left <==> name in running && name !in stopped
    {
      k := k - 1;
      NotStoppedYet(order, k, running);
      if order[k].name in left {
        left := left - {order[k].name};
        stopped := stopped + [order[k].name];
      }
    }
    StoppedIsRunning(table, order, running);
    forall i: nat, a: nat, b: nat |
      i < |table| && a < |stopped| && b < |stopped| && table[i].name == stopped[a] && stopped[b] in table[i].dependsOn
      && Resolvable(table, stopped[a]) ensures a < b
    {
      DependentsFirst(table, order, resolved, running, i, a, b);
    }
    forall i: nat, j: nat, a: nat, b: nat |
      i < |table| && j < |table| && a < |stopped| && b < |stopped|
      && table[i].name == stopped[a] && table[j].name == stopped[b] && table[j].name in table[i].dependsOn
      ensures a < b <==> Resolvable(table, table[j].name) || j < i
    {
      StoppedFirstExactly(table, order, resolved, running, i, j, a, b);
    }
  }

  lemma NotStoppedYet<Name(!new)>(order: seq<Service<Name>>, k: nat, running: set<Name>)
    requires DistinctNames(order) && k < |order|
    ensures order[k].name !in RunningFrom(order, k + 1, running)
  {
    var later := RunningFrom(order, k + 1, running);
    if order[k].name in later {
      var a: nat :| a < |later| && later[a] == order[k].name;
      var j := StoppedFrom(order, k + 1, running, a);
    }
  }

  lemma StoppedIsRunning<Name(!new)>(table: seq<Service<Name>>, order: seq<Service<Name>>, running: set<Name>)
    requires DistinctNames(order) && forall name: Name :: Known(order, name) <==> Known(table, name)
    ensures var stopped := RunningFrom(order, 0, running);
            && (forall name: Name :: name in stopped <==> name in running && Known(table, name))
            && (forall a: nat, b: nat | a < b < |stopped| :: stopped[a] != stopped[b])
  {
    var stopped := RunningFrom(order, 0, running);
    forall name: Name ensures name in stopped <==> name in running && Known(table, name) {
      if name in stopped {
        var a: nat :| a < |stopped| && stopped[a] == name;
        var j := StoppedFrom(order, 0, running, a);
        assert Known(order, name);
      }
      if name in running && Known(table, name) {
        assert Known(order, name);
        var j: nat :| j < |order| && order[j].name == name;
        RunningIsStopped(order, 0, running, j);
      }
    }
    forall a: nat, b: nat | a < b < |stopped| ensures stopped[a] != stopped[b] {
      var j, i := StoppedBackwards(order, 0, running, a, b);
    }
  }

  /** A resolvable service stands behind its dependencies. */
  lemma DependencyBefore<Name(!new)>(table: seq<Service<Name>>, order: seq<Service<Name>>, resolved: nat, i: nat,
      dependency: Name)
      returns (k: nat, j: nat)
    requires DistinctNames(table) && StartOrdered(table, order, resolved)
    requires i < |table| && Resolvable(table, table[i].name) && dependency in table[i].dependsOn
    ensures j < k < |order| && order[k] == table[i] && order[j].name == dependency
  {
    var front := order[..resolved];
    var started := Names(front);
    k :| k < |started| && started[k] == table[i].name;
    assert front[k] in table;
    assert front[k] == table[i] by {
      var i2: nat :| i2 < |table| && table[i2] == front[k];
      assert table[i2].name == table[i].name;
    }
    assert Ready(front[k], Names(front[..k]));
    var d: nat :| d < |table[i].dependsOn| && table[i].dependsOn[d] == dependency;
    assert dependency in Names(front[..k]);
    j :| j < |Names(front[..k])| && Names(front[..k])[j] == dependency;
  }

  lemma SameName<Name>(services: seq<Service<Name>>, i: nat, j: nat)
    requires DistinctNames(services) && i < |services| && j < |services| && services[i].name == services[j].name
    ensures i == j
  {
  }

  lemma DependentsFirst<Name(!new)>(table: seq<Service<Name>>, order: seq<Service<Name>>, resolved: nat,
      running: set<Name>,
                                   i: nat, a: nat, b: nat)
    requires DistinctNames(table) && DistinctNames(order) && StartOrdered(table, order, resolved)
    requires var stopped := RunningFrom(order, 0, running);
             i < |table| && a < |stopped| && b < |stopped| && table[i].name == stopped[a] && stopped[b] in table[i].dependsOn
             && Resolvable(table, stopped[a])
    ensures a < b
  {
    hide DistinctNames, RunningFrom, StartOrdered, Resolvable;
    var stopped := RunningFrom(order, 0, running);
    var k, j := DependencyBefore(table, order, resolved, i, stopped[b]);
    if b < a {
      var later, earlier := StoppedBackwards(order, 0, running, b, a);
      SameName(order, later, j);
      SameName(order, earlier, k);
    } else if a == b {
      SameName(order, j, k);
    }
  }

  /** What the fallback starts is in table order. */
  lemma {:induction false} UnstartedInOrder<Name>(table: seq<Service<Name>>, started: seq<Name>, from: nat, j: nat,
      i: nat) returns (l: nat, k: nat)
    requires from <= j <= i < |table| && table[j].name !in started && table[i].name !in started
    ensures l <= k < |Unstarted(table, started, from)| && (l < k <==> j < i)
    ensures Unstarted(table, started, from)[l] == table[j] && Unstarted(table, started, from)[k] == table[i]
    decreases |table| - from
  {
    if from < j {
      l, k := UnstartedInOrder(table, started, from + 1, j, i);
      if table[from].name !in started {
        l, k := l + 1, k + 1;
      }
    } else {
      l := 0;
      if j == i {
        k := 0;
      } else {
        var l2, k2 := UnstartedInOrder(table, started, from + 1, i, i);
        k := k2 + 1;
      }
    }
  }

  /** Where two services stand in the start order when one depends on the other. */
  lemma DependencyPositions<Name(!new)>(table: seq<Service<Name>>, order: seq<Service<Name>>, resolved: nat, i: nat,
      j: nat) returns (k: nat, l: nat)
    requires DistinctNames(table) && StartOrdered(table, order, resolved)
    requires i < |table| && j < |table| && table[j].name in table[i].dependsOn
    ensures k < |order| && l < |order| && order[k].name == table[i].name && order[l].name == table[j].name
    ensures l < k <==> Resolvable(table, table[j].name) || j < i
  {
    hide DistinctNames, Resolvable, Built, Unstarted;
    var started := Names(order[..resolved]);
    if Resolvable(table, table[i].name) {
      k, l := DependencyBefore(table, order, resolved, i, table[j].name);
      DependencyIsResolvable(table, order, resolved, i, table[j].name);
    } else if Resolvable(table, table[j].name) {
      l :| l < |started| && started[l] == table[j].name;
      var k1, k2 := UnstartedInOrder(table, started, 0, i, i);
      k := resolved + k2;
      assert order[k] == order[resolved..][k2];
    } else if j <= i {
      var l1, k1 := UnstartedInOrder(table, started, 0, j, i);
      l, k := resolved + l1, resolved + k1;
      assert order[l] == order[resolved..][l1] && order[k] == order[resolved..][k1];
    } else {
      var k1, l1 := UnstartedInOrder(table, started, 0, i, j);
      l, k := resolved + l1, resolved + k1;
      assert order[l] == order[resolved..][l1] && order[k] == order[resolved..][k1];
    }
  }

  lemma DependencyIsResolvable<Name(!new)>(table: seq<Service<Name>>, order: seq<Service<Name>>, resolved: nat, i: nat,
      dependency: Name)
    requires DistinctNames(table) && StartOrdered(table, order, resolved)
    requires i < |table| && Resolvable(table, table[i].name) && dependency in table[i].dependsOn
    ensures Resolvable(table, dependency)
  {
    hide Resolvable;
    var front := order[..resolved];
    var started := Names(front);
    var k: nat :| k < |started| && started[k] == table[i].name;
    assert front[k] in table;
    var i2: nat :| i2 < |table| && table[i2] == front[k];
    SameName(table, i, i2);
    assert Ready(front[k], Names(front[..k]));
    var d: nat :| d < |table[i].dependsOn| && table[i].dependsOn[d] == dependency;
    assert dependency in Names(front[..k]);
    var j: nat :| j < |Names(front[..k])| && Names(front[..k])[j] == dependency;
    assert front[j].name == dependency;
  }

  lemma StoppedFirstExactly<Name(!new)>(table: seq<Service<Name>>, order: seq<Service<Name>>, resolved: nat,
      running: set<Name>, i: nat, j: nat, a: nat, b: nat)
    requires DistinctNames(table) && DistinctNames(order) && StartOrdered(table, order, resolved)
    requires i < |table| && j < |table| && table[j].name in table[i].dependsOn
    requires var stopped := RunningFrom(order, 0, running);
             a < |stopped| && b < |stopped| && stopped[a] == table[i].name && stopped[b] == table[j].name
    ensures a < b <==> Resolvable(table, table[j].name) || j < i
  {
    hide DistinctNames, RunningFrom, StartOrdered, Resolvable;
    var k, l := DependencyPositions(table, order, resolved, i, j);
    if a < b {
      var later, earlier := StoppedBackwards(order, 0, running, a, b);
      SameName(order, later, k);
      SameName(order, earlier, l);
    } else if b < a {
      var later, earlier := StoppedBackwards(order, 0, running, b, a);
      SameName(order, later, l);
      SameName(order, earlier, k);
    } else {
      SameName(order, k, l);
    }
  }

  // ------------------------------------------- a service stopped after its dependency

  /** Service 1 depends on 2, and 2 on a service that does not exist. */
  const BROKEN: seq<Service<nat>> := [Service(1, [2]), Service(2, [3])]

  lemma {:induction false} NothingResolvable(rounds: nat)
    ensures Rounds(BROKEN, rounds) == {}
  {
    if rounds > 0 {
      NothingResolvable(rounds - 1);
      assert BROKEN[0].dependsOn[0] !in Rounds(BROKEN, rounds - 1);
      assert BROKEN[1].dependsOn[0] !in Rounds(BROKEN, rounds - 1);
    }
  }

  /** Every order `start_order` can give for these two stops 2 before 1, which depends on it. */
  lemma StoppedUnderItsUser(order: seq<Service<nat>>, resolved: nat)
    requires StartOrdered(BROKEN, order, resolved)
    ensures 2 in BROKEN[0].dependsOn && RunningFrom(order, 0, {1, 2}) == [2, 1]
  {
    if resolved > 0 {
      var front := order[..resolved];
      assert Resolvable(BROKEN, front[0].name);
      var rounds: nat :| front[0].name in Rounds(BROKEN, rounds);
      NothingResolvable(rounds);
    }
    assert order[resolved..] == order;
    assert Unstarted(BROKEN, [], 2) == [];
    assert Unstarted(BROKEN, [], 1) == [BROKEN[1]];
    assert order == BROKEN;
    assert RunningFrom(order, 1, {1, 2}) == [2];
  }
}
