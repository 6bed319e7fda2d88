/** The number of ports a bulk delete reports as absent. The command prints it as ports that
    were already absent from the map; it also counts ports that a refused batch has removed just
    before, and ports listed twice. */
module DeleteCounts {
  import opened Prelude
  import opened Ports
  import opened PortPolicy
  import opened OpenPorts

  predicate Distinct(ports: seq<Port>) {
    forall i, j | 0 <= i < j < |ports| :: ports[i] != ports[j]
  }

  lemma DistinctFirst(ports: seq<Port>)
    requires ports != []
    ensures Distinct(ports) <==> ports[0] !in ports[1..] && Distinct(ports[1..])
  {
    if ports[0] !in ports[1..] && Distinct(ports[1..]) {
      forall i, j | 0 <= i < j < |ports|
        ensures ports[i] != ports[j]
      {
        assert ports[j] == ports[1..][j - 1];
        assert i > 0 ==> ports[i] == ports[1..][i - 1];
      }
    }
    if k :| 0 <= k < |ports[1..]| && ports[1..][k] == ports[0] {
      assert ports[k + 1] == ports[0];
    }
    if Distinct(ports) {
      forall i, j | 0 <= i < j < |ports[1..]|
        ensures ports[1..][i] != ports[1..][j]
      {
        assert ports[i + 1] != ports[j + 1];
      }
    }
  }

  /** The absent ones are at least the ports not in the map, and are exactly those if and only
      if no port is listed twice. */
  lemma {:induction false} AbsentIs(m: SlotMap, ports: seq<Port>)
    ensures |Elements(ports) - m.Keys| <= Absent(m, ports)
    ensures Absent(m, ports) == |Elements(ports) - m.Keys| <==> Distinct(ports)
    decreases |ports|
  {
    if ports != [] {
      AbsentIs(m - {ports[0]}, ports[1..]);
      DistinctFirst(ports);
      FirstApart(m.Keys, ports);
      assert (m - {ports[0]}).Keys == m.Keys - {ports[0]};
    }
  }

  /** A first port that comes again is counted once more. */
  lemma FirstApart(keys: set<Port>, ports: seq<Port>)
    requires ports != []
    ensures
      |Elements(ports) - keys| + (if ports[0] in ports[1..] then 1 else 0) ==
        (if ports[0] in keys then 0 else 1) + |Elements(ports[1..]) - (keys - {ports[0]})|
  {
    var p, rest := ports[0], Elements(ports[1..]);
    FirstAndRest(ports);
    CountAll(p, rest, keys);
    CountRest(p, rest, keys);
  }

  lemma FirstAndRest(ports: seq<Port>)
    requires ports != []
    ensures Elements(ports) == {ports[0]} + Elements(ports[1..])
  {
    assert forall q :: q in ports <==> q == ports[0] || q in ports[1..];
  }

  lemma CountAll(p: Port, rest: set<Port>, keys: set<Port>)
    ensures |{p} + rest - keys| == (if p in keys then 0 else 1) + |rest - keys - {p}|
  {
    var all, others := {p} + rest - keys, rest - keys - {p};
    assert forall q :: q in all <==> q in others || (q == p && p !in keys);
    WithOrWithout(p, others, p !in keys, all);
  }

  lemma CountRest(p: Port, rest: set<Port>, keys: set<Port>)
    ensures |rest - (keys - {p})| == (if p in rest then 1 else 0) + |rest - keys - {p}|
  {
    var all, others := rest - (keys - {p}), rest - keys - {p};
    assert forall q :: q in all <==> q in others || (q == p && p in rest);
    WithOrWithout(p, others, p in rest, all);
  }

  lemma WithOrWithout(p: Port, others: set<Port>, has: bool, all: set<Port>)
    requires p !in others && forall q :: q in all <==> q in others || (q == p && has)
    ensures |all| == (if has then 1 else 0) + |others|
  {
    assert all == if has then {p} + others else others;
  }

  lemma {:induction false} AbsentInParts(m: SlotMap, a: seq<Port>, b: seq<Port>)
    ensures Absent(m, a + b) == Absent(m, a) + Absent(Cleared(m, a), b)
    decreases |a|
  {
    if a == [] {
      assert a + b == b && Cleared(m, a) == m;
    } else {
      assert (a + b)[1..] == a[1..] + b;
      AbsentInParts(m - {a[0]}, a[1..], b);
      assert Cleared(m - {a[0]}, a[1..]) == Cleared(m, a);
    }
  }

  lemma MeetApart(a: set<Port>, b: set<Port>, p: Port)
    ensures a !! b <==> !(p in a && p in b) && a - {p} !! b - {p}
  {
    if !(p in a && p in b) && a - {p} !! b - {p} {
      forall q | q in a
        ensures q !in b
      {
        assert q != p ==> q in a - {p} && q !in b - {p};
      }
    }
  }

  /** Keys taken out of the map beforehand can only add to the absent ones, and add none
      exactly when none of them was in the map. */
  lemma {:induction false} AbsentAfter(m: SlotMap, ports: seq<Port>, taken: set<Port>)
    requires taken <= Elements(ports)
    ensures Absent(m, ports) <= Absent(m - taken, ports)
    ensures Absent(m, ports) == Absent(m - taken, ports) <==> taken !! m.Keys
    decreases |ports|
  {
    if ports == [] {
      assert m - taken == m;
    } else {
      var p := ports[0];
      assert forall q :: q in ports <==> q == p || q in ports[1..];
      assert m - taken - {p} == m - {p} - (taken - {p});
      AbsentAfter(m - {p}, ports[1..], taken - {p});
      assert (m - {p}).Keys == m.Keys - {p};
      MeetApart(taken, m.Keys, p);
    }
  }

  /** No refused batch from offset `i` on has removed a port. */
  predicate NoneTaken(m: SlotMap, ports: seq<Port>, size: nat, env: BulkEnv, i: nat)
    requires size > 0
    decreases |ports| - i
  {
    i < |ports| ==>
      var chunk := Chunk(ports, size, i);
      && (BatchGoes(m, chunk, env.batch(i)) || Taken(m, chunk, env.batch(i)) !! m.Keys)
      && NoneTaken(Cleared(m, chunk), ports, size, env, i + |chunk|)
  }

  lemma {:induction false} GoesWithoutAbsent(m: SlotMap, ports: seq<Port>)
    requires Reached(m, ports) == |ports|
    ensures Absent(m, ports) == 0
    decreases |ports|
  {
    if ports != [] {
      GoesWithoutAbsent(m - {ports[0]}, ports[1..]);
    }
  }

  lemma {:induction false} MissedFrom(m: SlotMap, ports: seq<Port>, size: nat, env: BulkEnv, i: nat)
    requires size > 0 && i <= |ports|
    ensures Absent(m, ports[i..]) <= Missed(m, ports, size, env, i)
    ensures Absent(m, ports[i..]) == Missed(m, ports, size, env, i) <==> NoneTaken(m, ports, size, env, i)
    decreases |ports| - i
  {
    if i < |ports| {
      var chunk := Chunk(ports, size, i);
      var taken := Taken(m, chunk, env.batch(i));
      assert ports[i..] == chunk + ports[i + |chunk|..];
      AbsentInParts(m, chunk, ports[i + |chunk|..]);
      AbsentAfter(m, chunk, taken);
      if BatchGoes(m, chunk, env.batch(i)) {
        GoesWithoutAbsent(m, chunk);
      }
      MissedFrom(Cleared(m, chunk), ports, size, env, i + |chunk|);
    }
  }

  /** For every list and every behaviour of the kernel: a delete that gets through reports at
      least the ports that were not in the map, and exactly those if and only if no refused
      batch had removed a port and no port is listed twice. */
  lemma MissingIsAbsentIff(m: SlotMap, ports: seq<Port>, size: nat, env: BulkEnv, r: BulkResult)
    requires size > 0 && Totals(m, ports, size, env, r)
    ensures |Elements(ports) - m.Keys| <= r.missing
    ensures r.missing == |Elements(ports) - m.Keys| <==> NoneTaken(m, ports, size, env, 0) && Distinct(ports)
  {
    AbsentIs(m, ports);
    MissedFrom(m, ports, size, env, 0);
    assert ports[0..] == ports;
  }

  /** With calls that all work it happens as soon as a port that is there comes before one that
      is not: one port absent, two reported. */
  lemma OvercountExample(env: BulkEnv)
    requires env.batch(0).Done?
    ensures Missed(map[18081 := REDIR_PRIMARY], [18081, 18082], DEFAULT_BULK_BATCH, env, 0) == 2
  {
    var m: SlotMap := map[18081 := REDIR_PRIMARY];
    var ports: seq<Port> := [18081, 18082];
    assert Chunk(ports, DEFAULT_BULK_BATCH, 0) == ports;
    assert m - {18081} == map[] && ports[1..] == [18082] && ports[..1] == [18081];
    assert Reached(m, ports) == 1;
    assert m - Taken(m, ports, Done) == map[];
  }

  /** And with a batch call refused that touched nothing, as soon as a port is listed twice: none
      absent, one reported. */
  lemma RepeatExample(env: BulkEnv)
    requires env.batch(0) == Refused({})
    ensures Missed(map[18081 := REDIR_PRIMARY], [18081, 18081], DEFAULT_BULK_BATCH, env, 0) == 1
  {
    var m: SlotMap := map[18081 := REDIR_PRIMARY];
    var ports: seq<Port> := [18081, 18081];
    assert Chunk(ports, DEFAULT_BULK_BATCH, 0) == ports;
    assert m - {18081} == map[] && ports[1..] == [18081];
    assert m - Taken(m, ports, Refused({})) == m;
  }
}
