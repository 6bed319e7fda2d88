/** Planning the way from the current map to the desired one, and the two executors of the
    plan: key by key, and in batches. */
module Reconcile {
  import opened Prelude
  import opened Ports
  import opened PortPolicy
  import opened OpenPorts

  datatype Plan = Plan(putPrimary: seq<Port>, putTls: seq<Port>, delete: seq<Port>)

  /** The map that carries out `desired`. */
  function Slots(desired: Desired): SlotMap {
    map p | p in desired :: desired[p].slot
  }

  /** Every binding names one of the two slots of the listen table. A loaded file and a
      central state hold only such bindings. */
  predicate TwoSlots(desired: Desired) {
    forall p | p in desired :: desired[p].slot <= REDIR_TLS
  }

  ghost predicate IsPlan(plan: Plan, desired: Desired, current: SlotMap) {
    && Increasing(plan.putPrimary) && Increasing(plan.putTls) && Increasing(plan.delete)
    && (forall p :: p in plan.putPrimary <==>
          p in desired && desired[p].slot != REDIR_TLS && Lookup(current, p) != Some(desired[p].slot))
    && (forall p :: p in plan.putTls <==>
          p in desired && desired[p].slot == REDIR_TLS && Lookup(current, p) != Some(REDIR_TLS))
    && (forall p :: p in plan.delete <==> p in current && p !in desired)
  }

  predicate WantsPrimary(desired: Desired, current: SlotMap, p: Port) {
    p in desired && desired[p].slot != REDIR_TLS && Lookup(current, p) != Some(desired[p].slot)
  }

  predicate WantsTls(desired: Desired, current: SlotMap, p: Port) {
    p in desired && desired[p].slot == REDIR_TLS && Lookup(current, p) != Some(REDIR_TLS)
  }

  function Picked(ports: seq<Port>, want: Port -> bool): seq<Port>
    decreases |ports|
  {
    if ports == [] then []
    else Picked(ports[..|ports| - 1], want) + if want(ports[|ports| - 1]) then [ports[|ports| - 1]] else []
  }

  lemma {:induction false} PickedAre(ports: seq<Port>, want: Port -> bool)
    requires Increasing(ports)
    ensures forall p :: p in Picked(ports, want) <==> p in ports && want(p)
    ensures Increasing(Picked(ports, want))
    decreases |ports|
  {
    if ports != [] {
      var n := |ports| - 1;
      var r := Picked(ports[..n], want);
      PickedAre(ports[..n], want);
      assert forall i | 0 <= i < |r| :: r[i] in ports[..n];
    }
  }

  lemma PickedNext(ports: seq<Port>, want: Port -> bool, i: nat)
    requires i < |ports|
    ensures Picked(ports[..i + 1], want) == Picked(ports[..i], want) + if want(ports[i]) then [ports[i]] else []
  {
    assert ports[..i + 1][..i] == ports[..i];
  }

  lemma PutsNext(desired: Desired, current: SlotMap, ports: seq<Port>, want: (Port -> bool, Port -> bool), i: nat)
    requires i < |ports| && ports[i] in desired && Sorts(desired, current, want)
    ensures
      var wrong, slot := Lookup(current, ports[i]) != Some(desired[ports[i]].slot), desired[ports[i]].slot;
      && Picked(ports[..i + 1], want.0) ==
           Picked(ports[..i], want.0) + (if wrong && slot != REDIR_TLS then [ports[i]] else [])
      && Picked(ports[..i + 1], want.1) ==
           Picked(ports[..i], want.1) + (if wrong && slot == REDIR_TLS then [ports[i]] else [])
  {
    PickedNext(ports, want.0, i);
    PickedNext(ports, want.1, i);
    assert want.0(ports[i]) == WantsPrimary(desired, current, ports[i]);
    assert want.1(ports[i]) == WantsTls(desired, current, ports[i]);
  }

  /** The loop over the desired ports. `want[0]` and `want[1]` say which of them go where. */
  method PlanPuts(desired: Desired, current: SlotMap, ports: seq<Port>, ghost want: (Port -> bool, Port -> bool))
    returns (putPrimary: seq<Port>, putTls: seq<Port>)
    requires forall p | p in ports :: p in desired
    requires Sorts(desired, current, want)
    ensures putPrimary == Picked(ports, want.0) && putTls == Picked(ports, want.1)
  {
    putPrimary, putTls := [], [];
    for i := 0 to |ports|
      invariant putPrimary == Picked(ports[..i], want.0) && putTls == Picked(ports[..i], want.1)
    {
      PutsNext(desired, current, ports, want, i);
      var slot := desired[ports[i]].slot;
      if Lookup(current, ports[i]) != Some(slot) {
        if slot == REDIR_TLS {
          putTls := putTls + [ports[i]];
        } else {
          putPrimary := putPrimary + [ports[i]];
        }
      }
    }
    assert ports[..|ports|] == ports;
  }

  ghost predicate Sorts(desired: Desired, current: SlotMap, want: (Port -> bool, Port -> bool)) {
    forall p :: want.0(p) == WantsPrimary(desired, current, p) && want.1(p) == WantsTls(desired, current, p)
  }

  /** `desired::plan`: puts in port order, then the extra keys, which come in no particular
      order and are sorted. */
  method MakePlan(desired: Desired, current: SlotMap) returns (plan: Plan)
    ensures IsPlan(plan, desired, current)
  {
    ghost var want := ((p: Port) => WantsPrimary(desired, current, p), (p: Port) => WantsTls(desired, current, p));
    var putPrimary, putTls := PlanPuts(desired, current, Sorted(desired.Keys), want);
    PickedAre(Sorted(desired.Keys), want.0);
    PickedAre(Sorted(desired.Keys), want.1);
    var keys, extra: set<Port> := current.Keys, {};
    while keys != {}
      invariant keys <= current.Keys && extra == (current.Keys - keys) - desired.Keys
      decreases keys
    {
      var p :| p in keys;
      keys := keys - {p};
      if p !in desired {
        extra := extra + {p};
      }
    }
    return Plan(putPrimary, putTls, Sorted(extra));
  }

  // ---- Key operations ---------------------------------------------------------------

  datatype KeyOp = PutKey(port: Port, slot: Slot) | DropKey(port: Port)

  function Apply(m: SlotMap, op: KeyOp): SlotMap {
    match op
    case PutKey(p, slot) => m[p := slot]
    case DropKey(p) => m - {p}
  }

  function Run(m: SlotMap, ops: seq<KeyOp>): SlotMap
    decreases |ops|
  {
    if ops == [] then m else Apply(Run(m, ops[..|ops| - 1]), ops[|ops| - 1])
  }

  function Puts(ports: seq<Port>, slot: Slot): seq<KeyOp> {
    seq(|ports|, i requires 0 <= i < |ports| => PutKey(ports[i], slot))
  }

  function Drops(ports: seq<Port>): seq<KeyOp> {
    seq(|ports|, i requires 0 <= i < |ports| => DropKey(ports[i]))
  }

  /** The key operations of a plan, in the order both executors take them. */
  function Ops(plan: Plan): seq<KeyOp> {
    Puts(plan.putPrimary, REDIR_PRIMARY) + Puts(plan.putTls, REDIR_TLS) + Drops(plan.delete)
  }

  /** The one operation that gives `p` its value in `target`. */
  function Fix(target: SlotMap, p: Port): KeyOp {
    if p in target then PutKey(p, target[p]) else DropKey(p)
  }

  predicate Touches(ops: seq<KeyOp>, p: Port) {
    exists i :: 0 <= i < |ops| && ops[i].port == p
  }

  /** The operations put right exactly the ports that are wrong, each once. */
  ghost predicate Fixes(ops: seq<KeyOp>, current: SlotMap, target: SlotMap) {
    && (forall i | 0 <= i < |ops| :: ops[i] == Fix(target, ops[i].port))
    && (forall i, j | 0 <= i < j < |ops| :: ops[i].port != ops[j].port)
    && (forall p: Port :: Touches(ops, p) <==> Lookup(current, p) != Lookup(target, p))
  }

  lemma PlanPorts(plan: Plan, p: Port)
    ensures Touches(Ops(plan), p) <==> p in plan.putPrimary || p in plan.putTls || p in plan.delete
  {
    var a, b := |plan.putPrimary|, |plan.putTls|;
    var ops := Ops(plan);
    if p in plan.putPrimary {
      var i :| 0 <= i < a && plan.putPrimary[i] == p;
      assert ops[i].port == p;
    } else if p in plan.putTls {
      var i :| 0 <= i < b && plan.putTls[i] == p;
      assert ops[a + i].port == p;
    } else if p in plan.delete {
      var i :| 0 <= i < |plan.delete| && plan.delete[i] == p;
      assert ops[a + b + i].port == p;
    }
  }

  /** A plan touches exactly the ports whose value is not the desired one: a port that is
      already right is left alone. */
  lemma PlanFixes(plan: Plan, desired: Desired, current: SlotMap)
    requires IsPlan(plan, desired, current) && TwoSlots(desired)
    ensures Fixes(Ops(plan), current, Slots(desired))
  {
    var ops, target := Ops(plan), Slots(desired);
    forall i | 0 <= i < |ops|
      ensures ops[i] == Fix(target, ops[i].port)
    {
      assert ops[i].port in plan.putPrimary || ops[i].port in plan.putTls || ops[i].port in plan.delete;
    }
    forall p: Port
      ensures Touches(ops, p) <==> Lookup(current, p) != Lookup(target, p)
    {
      PlanPorts(plan, p);
    }
    PlanDistinct(plan, desired, current);
  }

  lemma PlanDistinct(plan: Plan, desired: Desired, current: SlotMap)
    requires IsPlan(plan, desired, current)
    ensures forall i, j | 0 <= i < j < |Ops(plan)| :: Ops(plan)[i].port != Ops(plan)[j].port
  {
    assert forall i | 0 <= i < |plan.putPrimary| :: plan.putPrimary[i] in plan.putPrimary;
    assert forall i | 0 <= i < |plan.putTls| :: plan.putTls[i] in plan.putTls;
    assert forall i | 0 <= i < |plan.delete| :: plan.delete[i] in plan.delete;
  }

  /** After `n` operations the ports of those have their target value, every other port has
      the value it started with. */
  lemma {:induction false} Halfway(ops: seq<KeyOp>, current: SlotMap, target: SlotMap, n: nat, p: Port)
    requires Fixes(ops, current, target) && n <= |ops|
    ensures Lookup(Run(current, ops[..n]), p) == Lookup(if Touches(ops[..n], p) then target else current, p)
    decreases n
  {
    if n > 0 {
      Halfway(ops, current, target, n - 1, p);
      assert ops[..n][..n - 1] == ops[..n - 1];
      assert Touches(ops[..n], p) <==> Touches(ops[..n - 1], p) || ops[n - 1].port == p by {
        assert ops[..n][n - 1] == ops[n - 1];
        assert forall i | 0 <= i < n - 1 :: ops[..n][i] == ops[..n - 1][i];
      }
      assert ops[n - 1] == Fix(target, ops[n - 1].port);
    }
  }

  /** Interrupted anywhere, every port has its old or its desired value; run to the end, the
      map is the desired one. */
  lemma InterruptedIsBetween(ops: seq<KeyOp>, current: SlotMap, target: SlotMap, n: nat)
    requires Fixes(ops, current, target) && n <= |ops|
    ensures Between(current, target, Run(current, ops[..n]))
    ensures Run(current, ops) == target
  {
    forall p: Port
      ensures
        || Lookup(Run(current, ops[..n]), p) == Lookup(current, p)
        || Lookup(Run(current, ops[..n]), p) == Lookup(target, p)
      ensures Lookup(Run(current, ops), p) == Lookup(target, p)
    {
      Halfway(ops, current, target, n, p);
      Halfway(ops, current, target, |ops|, p);
      assert ops[..|ops|] == ops;
    }
    SameLookups(Run(current, ops), target);
  }

  /** Planning again from any map between the old and the desired one asks only for
      operations the first plan asked for, and ends in the same map. */
  lemma ReplanIsContained(plan: Plan, again: Plan, desired: Desired, current: SlotMap, m: SlotMap)
    requires TwoSlots(desired) && Between(current, Slots(desired), m)
    requires IsPlan(plan, desired, current) && IsPlan(again, desired, m)
    ensures forall op | op in Ops(again) :: op in Ops(plan)
    ensures Run(m, Ops(again)) == Slots(desired) == Run(current, Ops(plan))
  {
    PlanFixes(plan, desired, current);
    PlanFixes(again, desired, m);
    InterruptedIsBetween(Ops(plan), current, Slots(desired), 0);
    InterruptedIsBetween(Ops(again), m, Slots(desired), 0);
    forall op | op in Ops(again)
      ensures op in Ops(plan)
    {
      assert Touches(Ops(again), op.port);
      assert Lookup(m, op.port) != Lookup(Slots(desired), op.port);
      assert Touches(Ops(plan), op.port);
      var i :| 0 <= i < |Ops(plan)| && Ops(plan)[i].port == op.port;
      assert Ops(plan)[i] == Fix(Slots(desired), op.port);
    }
  }

  lemma {:induction false} IncreasingIsUnique(a: seq<Port>, b: seq<Port>)
    requires Increasing(a) && Increasing(b) && forall p :: p in a <==> p in b
    ensures a == b
    decreases |a|
  {
    SizeOfDistinct(a);
    SizeOfDistinct(b);
    assert Elements(a) == Elements(b);
    if a != [] {
      LastIsGreatest(a, b);
      LastIsGreatest(b, a);
      var m, n := |a| - 1, |b| - 1;
      ButLast(a);
      ButLast(b);
      assert a[m] == b[n];
      forall p
        ensures p in a[..m] <==> p in b[..n]
      {
        assert p in a <==> p in b;
      }
      IncreasingIsUnique(a[..m], b[..n]);
      assert a == a[..m] + [a[m]] && b == b[..n] + [b[n]];
    }
  }

  lemma ButLast(a: seq<Port>)
    requires a != [] && Increasing(a)
    ensures forall p :: p in a[..|a| - 1] <==> p in a && p != a[|a| - 1]
  {}

  lemma LastIsGreatest(a: seq<Port>, b: seq<Port>)
    requires a != [] && b != [] && Increasing(b) && forall p | p in a :: p in b
    ensures a[|a| - 1] <= b[|b| - 1]
  {
    assert a[|a| - 1] in a;
    var i :| 0 <= i < |b| && b[i] == a[|a| - 1];
  }

  /** The part of a plan its first `n` operations carry out, and the part they leave. */
  function Done(plan: Plan, n: nat): Plan {
    var a, b, c := |plan.putPrimary|, |plan.putTls|, |plan.delete|;
    if n <= a then Plan(plan.putPrimary[..n], [], [])
    else if n <= a + b then Plan(plan.putPrimary, plan.putTls[..n - a], [])
    else if n <= a + b + c then Plan(plan.putPrimary, plan.putTls, plan.delete[..n - a - b])
    else plan
  }

  function Remaining(plan: Plan, n: nat): Plan {
    var a, b, c := |plan.putPrimary|, |plan.putTls|, |plan.delete|;
    if n <= a then plan.(putPrimary := plan.putPrimary[n..])
    else if n <= a + b then Plan([], plan.putTls[n - a..], plan.delete)
    else if n <= a + b + c then Plan([], [], plan.delete[n - a - b..])
    else Plan([], [], [])
  }

  lemma CutPlan(plan: Plan, n: nat)
    requires n <= |Ops(plan)|
    ensures Ops(Done(plan, n)) == Ops(plan)[..n]
    ensures Ops(Remaining(plan, n)) == Ops(plan)[n..]
  {}

  lemma RightAfter(plan: Plan, desired: Desired, current: SlotMap, n: nat, p: Port)
    requires TwoSlots(desired) && IsPlan(plan, desired, current) && n <= |Ops(plan)|
    ensures
      var done := Done(plan, n);
      Lookup(Run(current, Ops(plan)[..n]), p) ==
        Lookup(if p in done.putPrimary || p in done.putTls || p in done.delete then Slots(desired) else current, p)
  {
    PlanFixes(plan, desired, current);
    Halfway(Ops(plan), current, Slots(desired), n, p);
    CutPlan(plan, n);
    PlanPorts(Done(plan, n), p);
  }

  /** Planning again after `n` key operations gives exactly the operations that were left. */
  lemma ReplanIsTheRest(plan: Plan, again: Plan, desired: Desired, current: SlotMap, n: nat)
    requires TwoSlots(desired) && IsPlan(plan, desired, current) && n <= |Ops(plan)|
    requires IsPlan(again, desired, Run(current, Ops(plan)[..n]))
    ensures Ops(again) == Ops(plan)[n..]
  {
    var m, done := Run(current, Ops(plan)[..n]), Done(plan, n);
    forall p
      ensures p in again.putPrimary <==> p in plan.putPrimary && p !in done.putPrimary
      ensures p in again.putTls <==> p in plan.putTls && p !in done.putTls
      ensures p in again.delete <==> p in plan.delete && p !in done.delete
    {
      RightAfter(plan, desired, current, n, p);
    }
    Suffix(plan.putPrimary, again.putPrimary, |done.putPrimary|);
    Suffix(plan.putTls, again.putTls, |done.putTls|);
    Suffix(plan.delete, again.delete, |done.delete|);
    assert again == Remaining(plan, n);
    CutPlan(plan, n);
  }

  lemma Suffix(a: seq<Port>, b: seq<Port>, n: nat)
    requires n <= |a| && Increasing(a) && Increasing(b)
    requires forall p :: p in b <==> p in a && p !in a[..n]
    ensures b == a[n..]
  {
    assert a == a[..n] + a[n..];
    assert forall i, j | 0 <= i < n && 0 <= j < |a| - n :: a[..n][i] < a[n..][j];
    forall p
      ensures p in a[n..] <==> p in a && p !in a[..n]
    {
      if p in a[n..] {
        var j :| 0 <= j < |a| - n && a[n..][j] == p;
        assert forall i | 0 <= i < n :: a[..n][i] != p;
      }
    }
    IncreasingIsUnique(b, a[n..]);
  }

  // ---- The executors ----------------------------------------------------------------

  lemma RunNext(m: SlotMap, ops: seq<KeyOp>, n: nat)
    requires n < |ops|
    ensures Run(m, ops[..n + 1]) == Apply(Run(m, ops[..n]), ops[n])
  {
    assert ops[..n + 1][..n] == ops[..n];
  }

  lemma {:induction false} RunConcat(m: SlotMap, a: seq<KeyOp>, b: seq<KeyOp>)
    ensures Run(m, a + b) == Run(Run(m, a), b)
    decreases |b|
  {
    if b == [] {
      assert a + b == a;
    } else {
      var n := |b| - 1;
      assert (a + b)[..|a| + n] == a + b[..n];
      RunConcat(m, a, b[..n]);
    }
  }

  lemma PutNext(m: SlotMap, ports: seq<Port>, slot: Slot, n: nat)
    requires n < |ports|
    ensures Run(m, Puts(ports, slot)[..n + 1]) == Run(m, Puts(ports, slot)[..n])[ports[n] := slot]
  {
    RunNext(m, Puts(ports, slot), n);
  }

  lemma DropNext(m: SlotMap, ports: seq<Port>, n: nat)
    requires n < |ports|
    ensures Run(m, Drops(ports)[..n + 1]) == Run(m, Drops(ports)[..n]) - {ports[n]}
  {
    RunNext(m, Drops(ports), n);
  }

  /** Of `total` operations from number `base` on, the first `n` worked and the next did not. */
  predicate StopsAt(works: nat -> bool, base: nat, n: nat, total: nat) {
    n <= total && (forall i | base <= i < base + n :: works(i)) && (n < total ==> !works(base + n))
  }

  method PutEach(table: PortTable, ports: seq<Port>, slot: Slot, base: nat, works: nat -> bool) returns (n: nat)
    modifies table
    ensures StopsAt(works, base, n, |ports|)
    ensures table.entries == Run(old(table.entries), Puts(ports, slot)[..n])
  {
    n := 0;
    while n < |ports|
      invariant n <= |ports| && table.entries == Run(old(table.entries), Puts(ports, slot)[..n])
      invariant forall i | base <= i < base + n :: works(i)
    {
      PutNext(old(table.entries), ports, slot, n);
      var ok := table.Update(ports[n], slot, works(base + n));
      if !ok {
        return;
      }
      n := n + 1;
    }
  }

  method DropEach(table: PortTable, ports: seq<Port>, base: nat, works: nat -> bool) returns (n: nat)
    requires Increasing(ports) && forall p | p in ports :: p in table.entries
    modifies table
    ensures StopsAt(works, base, n, |ports|)
    ensures table.entries == Run(old(table.entries), Drops(ports)[..n])
  {
    n := 0;
    while n < |ports|
      invariant n <= |ports| && table.entries == Run(old(table.entries), Drops(ports)[..n])
      invariant forall i | n <= i < |ports| :: ports[i] in table.entries
      invariant forall i | base <= i < base + n :: works(i)
    {
      DropNext(old(table.entries), ports, n);
      var reply := table.Delete(ports[n], works(base + n));
      if reply != Removed {
        return;
      }
      n := n + 1;
    }
  }

  lemma RunPart(start: SlotMap, ops: seq<KeyOp>, a: nat, part: seq<KeyOp>, n: nat)
    requires n <= |part| && a + |part| <= |ops| && ops[a..a + |part|] == part
    ensures Run(Run(start, ops[..a]), part[..n]) == Run(start, ops[..a + n])
  {
    RunConcat(start, ops[..a], part[..n]);
    assert ops[..a] + part[..n] == ops[..a + n];
  }

  method PutBoth(table: PortTable, plan: Plan, works: nat -> bool) returns (n: nat)
    modifies table
    ensures StopsAt(works, 0, n, |plan.putPrimary| + |plan.putTls|)
    ensures table.entries == Run(old(table.entries), Ops(plan)[..n])
  {
    ghost var start, ops := table.entries, Ops(plan);
    RunPart(start, ops, 0, Puts(plan.putPrimary, REDIR_PRIMARY), 0);
    n := PutEach(table, plan.putPrimary, REDIR_PRIMARY, 0, works);
    RunPart(start, ops, 0, Puts(plan.putPrimary, REDIR_PRIMARY), n);
    if n < |plan.putPrimary| {
      return;
    }
    var more := PutEach(table, plan.putTls, REDIR_TLS, n, works);
    RunPart(start, ops, n, Puts(plan.putTls, REDIR_TLS), more);
    n := n + more;
  }

  /** `reconcile_map`: plan, then one key after another, stopping at the first that fails.
      `n` counts the operations carried out. */
  method ReconcileMap(table: PortTable, desired: Desired, works: nat -> bool)
    returns (r: Result<Plan>, ghost plan: Plan, n: nat)
    modifies table
    ensures IsPlan(plan, desired, old(table.entries))
    ensures StopsAt(works, 0, n, |Ops(plan)|)
    ensures table.entries == Run(old(table.entries), Ops(plan)[..n])
    ensures r == if n == |Ops(plan)| then Ok(plan) else Err
    ensures r.Ok? && TwoSlots(desired) ==> table.entries == Slots(desired)
  {
    var p := MakePlan(desired, table.entries);
    plan := p;
    ghost var start, ops := table.entries, Ops(p);
    n := PutBoth(table, p, works);
    var puts := |p.putPrimary| + |p.putTls|;
    if n < puts {
      return Err, plan, n;
    }
    PutsKeepExtras(plan, desired, start, n);
    var more := DropEach(table, p.delete, n, works);
    RunPart(start, ops, n, Drops(p.delete), more);
    n := n + more;
    if more < |p.delete| {
      return Err, plan, n;
    }
    assert ops[..n] == ops;
    ReachesTarget(plan, desired, start);
    return Ok(p), plan, n;
  }

  lemma ReachesTarget(plan: Plan, desired: Desired, start: SlotMap)
    requires IsPlan(plan, desired, start)
    ensures TwoSlots(desired) ==> Run(start, Ops(plan)) == Slots(desired)
  {
    if TwoSlots(desired) {
      PlanFixes(plan, desired, start);
      InterruptedIsBetween(Ops(plan), start, Slots(desired), 0);
    }
  }

  lemma {:induction false} PutsKeepExtras(plan: Plan, desired: Desired, current: SlotMap, n: nat)
    requires IsPlan(plan, desired, current) && n <= |plan.putPrimary| + |plan.putTls|
    ensures forall p | p in plan.delete :: p in Run(current, Ops(plan)[..n])
    decreases n
  {
    if n > 0 {
      PutsKeepExtras(plan, desired, current, n - 1);
      RunNext(current, Ops(plan), n - 1);
    } else {
      assert Ops(plan)[..0] == [];
    }
  }

  /** What the three bulk calls of a reconcile run against. */
  datatype PlanEnv = PlanEnv(primary: BulkEnv, tls: BulkEnv, delete: BulkEnv)

  ghost predicate PlanWorks(env: PlanEnv) {
    PutsWork(env.primary) && PutsWork(env.tls) && DeletesWork(env.delete)
  }

  /** One put of the plan, towards `target`. */
  method PutPart(
    table: PortTable, ports: seq<Port>, slot: Slot, batchSize: nat, env: BulkEnv,
    ghost start: SlotMap, ghost target: SlotMap)
    returns (ok: bool)
    requires Between(start, target, table.entries) && forall p | p in ports :: Lookup(target, p) == Some(slot)
    modifies table
    ensures Between(start, target, table.entries)
    ensures ok ==> table.entries == Stored(old(table.entries), ports, slot)
    ensures PutsWork(env) ==> ok
  {
    StoredNothing(table.entries, slot);
    if ports == [] {
      return true;
    }
    var r, at := BulkPut(table, ports, slot, batchSize, env);
    PutTowards(start, old(table.entries), target, ports, slot, table.entries);
    return r.Ok?;
  }

  method DeletePart(
    table: PortTable, ports: seq<Port>, batchSize: nat, env: BulkEnv, ghost start: SlotMap, ghost target: SlotMap)
    returns (ok: bool)
    requires Between(start, target, table.entries) && forall p | p in ports :: p !in target
    modifies table
    ensures Between(start, target, table.entries)
    ensures ok ==> table.entries == Cleared(old(table.entries), ports)
    ensures DeletesWork(env) ==> ok
  {
    StoredNothing(table.entries, REDIR_PRIMARY);
    if ports == [] {
      return true;
    }
    var r, at := BulkDelete(table, ports, batchSize, env);
    DeleteTowards(start, old(table.entries), target, ports, table.entries);
    return r.Ok?;
  }

  /** The batched executor of `ctl_reconcile`. It reaches the map the key-by-key executor
      reaches, and however its batches fail every port keeps its old value or has its
      desired one. */
  method CarryOut(table: PortTable, plan: Plan, ghost desired: Desired, batchSize: nat, env: PlanEnv) returns (ok: bool)
    requires IsPlan(plan, desired, table.entries) && TwoSlots(desired)
    modifies table
    ensures ok ==> table.entries == Slots(desired) == Run(old(table.entries), Ops(plan))
    ensures Between(old(table.entries), Slots(desired), table.entries)
    ensures PlanWorks(env) ==> ok
  {
    ghost var start, target := table.entries, Slots(desired);
    AllPartsReach(plan, desired, start);
    ReachesTarget(plan, desired, start);
    ok := PutPart(table, plan.putPrimary, REDIR_PRIMARY, batchSize, env.primary, start, target);
    if ok {
      ok := PutPart(table, plan.putTls, REDIR_TLS, batchSize, env.tls, start, target);
    }
    if ok {
      ok := DeletePart(table, plan.delete, batchSize, env.delete, start, target);
    }
  }

  lemma PutTowards(start: SlotMap, m: SlotMap, target: SlotMap, ports: seq<Port>, slot: Slot, m': SlotMap)
    requires Between(start, target, m) && Between(m, Stored(m, ports, slot), m')
    requires forall p | p in ports :: Lookup(target, p) == Some(slot)
    ensures Between(start, target, m')
  {}

  lemma DeleteTowards(start: SlotMap, m: SlotMap, target: SlotMap, ports: seq<Port>, m': SlotMap)
    requires Between(start, target, m) && Between(m, Cleared(m, ports), m')
    requires forall p | p in ports :: p !in target
    ensures Between(start, target, m')
  {}

  lemma StoredNothing(m: SlotMap, slot: Slot)
    ensures Stored(m, [], slot) == m && Cleared(m, []) == m
  {}

  lemma AfterStored(m: SlotMap, ports: seq<Port>, slot: Slot, p: Port)
    ensures Lookup(Stored(m, ports, slot), p) == if p in ports then Some(slot) else Lookup(m, p)
  {}

  lemma AfterCleared(m: SlotMap, ports: seq<Port>, p: Port)
    ensures Lookup(Cleared(m, ports), p) == if p in ports then None else Lookup(m, p)
  {}

  lemma PartsReach(plan: Plan, desired: Desired, start: SlotMap, p: Port)
    requires IsPlan(plan, desired, start) && TwoSlots(desired)
    ensures
      var first := Stored(start, plan.putPrimary, REDIR_PRIMARY);
      var second := Stored(first, plan.putTls, REDIR_TLS);
      Lookup(Cleared(second, plan.delete), p) == Lookup(Slots(desired), p)
  {
    var first := Stored(start, plan.putPrimary, REDIR_PRIMARY);
    var second := Stored(first, plan.putTls, REDIR_TLS);
    AfterStored(start, plan.putPrimary, REDIR_PRIMARY, p);
    AfterStored(first, plan.putTls, REDIR_TLS, p);
    AfterCleared(second, plan.delete, p);
  }

  lemma AllPartsReach(plan: Plan, desired: Desired, start: SlotMap)
    requires IsPlan(plan, desired, start) && TwoSlots(desired)
    ensures
      Cleared(Stored(Stored(start, plan.putPrimary, REDIR_PRIMARY), plan.putTls, REDIR_TLS), plan.delete) ==
        Slots(desired)
  {
    var first := Stored(start, plan.putPrimary, REDIR_PRIMARY);
    var second := Stored(first, plan.putTls, REDIR_TLS);
    var third := Cleared(second, plan.delete);
    forall p: Port
      ensures Lookup(third, p) == Lookup(Slots(desired), p)
    {
      PartsReach(plan, desired, start, p);
    }
    SameLookups(third, Slots(desired));
  }
}
