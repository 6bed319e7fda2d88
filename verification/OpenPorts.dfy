/** The pinned `open_ports` map and the batched writers with their per-key fallback. */
module OpenPorts {
  import opened Prelude
  import opened Ports
  import opened PortPolicy

  type SlotMap = map<Port, Slot>

  const DEFAULT_BULK_BATCH := 4096

  function Lookup(m: SlotMap, p: Port): Option<Slot> {
    if p in m then Some(m[p]) else None
  }

  /** `m` with every listed port sent to `slot`. */
  function Stored(m: SlotMap, ports: seq<Port>, slot: Slot): SlotMap {
    m + map p | p in ports :: slot
  }

  /** `m` without the listed ports. */
  function Cleared(m: SlotMap, ports: seq<Port>): SlotMap {
    m - Elements(ports)
  }

  /** Every port has the value it has in `a` or the one it has in `b`. */
  ghost predicate Between(a: SlotMap, b: SlotMap, m: SlotMap) {
    forall p: Port :: Lookup(m, p) == Lookup(a, p) || Lookup(m, p) == Lookup(b, p)
  }

  /** How a batch call goes. A refused call may still have handled some of its keys. */
  datatype BatchReply = Done | Refused(handled: set<Port>)

  datatype DeleteReply = Removed | Missing | Failed

  /** The environment of one bulk call: the reply to the batch call at each offset, whether
      the single-key call at each index works, and whether the progress line after each
      offset can be written. */
  datatype BulkEnv = BulkEnv(batch: nat -> BatchReply, key: nat -> bool, report: nat -> bool)

  /** How many keys a batch delete gets through before the first one that is not there. */
  function Reached(m: SlotMap, ports: seq<Port>): (n: nat)
    ensures n <= |ports|
    decreases |ports|
  {
    if ports == [] || ports[0] !in m then 0 else 1 + Reached(m - {ports[0]}, ports[1..])
  }

  predicate BatchGoes(m: SlotMap, ports: seq<Port>, reply: BatchReply) {
    reply.Done? && Reached(m, ports) == |ports|
  }

  /** The keys a batch delete removes, whether or not it goes through. */
  function Taken(m: SlotMap, ports: seq<Port>, reply: BatchReply): (taken: set<Port>)
    ensures taken <= Elements(ports)
  {
    match reply
    case Done => Elements(ports[..Reached(m, ports)])
    case Refused(handled) => Elements(ports) * handled
  }

  class PortTable {
    var entries: SlotMap

    constructor (initial: SlotMap)
      ensures entries == initial
    {
      entries := initial;
    }

    /** The kernel refuses a new key when the table is full. With 65536 possible keys in a
        table of 131072 that never happens: only the environment can make it fail. */
    method Update(p: Port, slot: Slot, works: bool) returns (ok: bool)
      modifies this
      ensures ok == works
      ensures entries == if ok then old(entries)[p := slot] else old(entries)
    {
      RoomForAll(entries);
      ok := works && (p in entries || |entries| < MAX_ENTRIES);
      if ok {
        entries := entries[p := slot];
      }
    }

    method Delete(p: Port, works: bool) returns (r: DeleteReply)
      modifies this
      ensures r == if !works then Failed else if p in old(entries) then Removed else Missing
      ensures entries == if works then old(entries) - {p} else old(entries)
    {
      if !works {
        return Failed;
      }
      r := if p in entries then Removed else Missing;
      entries := entries - {p};
    }

    method UpdateBatch(ports: seq<Port>, slot: Slot, reply: BatchReply) returns (ok: bool)
      modifies this
      ensures ok == reply.Done?
      ensures ok ==> entries == Stored(old(entries), ports, slot)
      ensures Between(old(entries), Stored(old(entries), ports, slot), entries)
    {
      ok := reply.Done?;
      entries := entries + map p | p in ports && (reply.Done? || p in reply.handled) :: slot;
    }

    /** The kernel stops a batch delete at the first missing key, so the call succeeds only
        when every key is there. */
    method DeleteBatch(ports: seq<Port>, reply: BatchReply) returns (ok: bool)
      modifies this
      ensures ok == BatchGoes(old(entries), ports, reply)
      ensures entries == old(entries) - Taken(old(entries), ports, reply)
      ensures ok ==> entries == Cleared(old(entries), ports)
      ensures Between(old(entries), Cleared(old(entries), ports), entries)
    {
      ok := BatchGoes(entries, ports, reply);
      assert ports[..|ports|] == ports;
      entries := entries - Taken(entries, ports, reply);
    }
  }

  datatype BulkResult = BulkResult(n: nat, usedBatch: bool, missing: nat)

  lemma RoomForAll(m: SlotMap)
    ensures |m| < MAX_ENTRIES
  {
    PortSetFits(m.Keys);
    assert |m| == |m.Keys|;
  }

  // ---- Batched put ------------------------------------------------------------------

  /** A put under way: only listed ports differ from `start`, and they hold `slot`; the
      first `i` of them certainly do. */
  ghost predicate Putting(start: SlotMap, ports: seq<Port>, slot: Slot, i: nat, m: SlotMap)
    requires i <= |ports|
  {
    && Between(start, Stored(start, ports, slot), m)
    && forall p | p in ports[..i] :: Lookup(m, p) == Some(slot)
  }

  lemma PutBatch(start: SlotMap, ports: seq<Port>, slot: Slot, i: nat, j: nat, m: SlotMap, m': SlotMap)
    requires i <= j <= |ports| && Putting(start, ports, slot, i, m)
    requires Between(m, Stored(m, ports[i..j], slot), m')
    ensures Putting(start, ports, slot, i, m')
    ensures m' == Stored(m, ports[i..j], slot) ==> Putting(start, ports, slot, j, m')
  {
    assert ports[..j] == ports[..i] + ports[i..j];
    forall p: Port
      ensures Lookup(m', p) == Lookup(start, p) || Lookup(m', p) == Lookup(Stored(start, ports, slot), p)
    {
      assert p in ports[i..j] ==> p in ports;
    }
  }

  lemma PutKey(start: SlotMap, ports: seq<Port>, slot: Slot, i: nat, m: SlotMap)
    requires i < |ports| && Putting(start, ports, slot, i, m)
    ensures Putting(start, ports, slot, i + 1, m[ports[i] := slot])
  {}

  lemma PutDone(start: SlotMap, ports: seq<Port>, slot: Slot, m: SlotMap)
    requires Putting(start, ports, slot, |ports|, m)
    ensures m == Stored(start, ports, slot)
  {
    assert ports[..|ports|] == ports;
    var all := Stored(start, ports, slot);
    forall p: Port
      ensures Lookup(m, p) == Lookup(all, p)
    {}
    SameLookups(m, all);
  }

  lemma SameLookups(a: SlotMap, b: SlotMap)
    requires forall p: Port :: Lookup(a, p) == Lookup(b, p)
    ensures a == b
  {
    forall p: Port
      ensures p in a <==> p in b
      ensures p in a ==> a[p] == b[p]
    {
      assert Lookup(a, p) == Lookup(b, p);
    }
  }

  ghost predicate PutsWork(env: BulkEnv) {
    forall n: nat :: env.key(n) && env.report(n) && (n > 0 ==> env.batch(n).Done?)
  }

  /** `bulk_put_ports`. When it fails, `at` is the offset its error names. A refused first
      batch falls back to single keys; a later refusal is an error. */
  method BulkPut(table: PortTable, ports: seq<Port>, slot: Slot, batchSize: nat, env: BulkEnv)
    returns (r: Result<BulkResult>, at: nat)
    modifies table
    ensures r.Ok? ==> table.entries == Stored(old(table.entries), ports, slot) && r.value.n == |ports|
    ensures r.Ok? ==> r.value.usedBatch == (ports != [] && env.batch(0).Done?) && r.value.missing == 0
    ensures at <= |ports| && Putting(old(table.entries), ports, slot, at, table.entries)
    ensures r.Err? ==>
      || (at < |ports| && !env.key(at))
      || !env.report(at)
      || (0 < at < |ports| && env.batch(at).Refused?)
    ensures PutsWork(env) ==> r.Ok?
  {
    if ports == [] {
      return Ok(BulkResult(0, false, 0)), 0;
    }
    ghost var start := table.entries;
    var size := BatchSize(batchSize);
    var useBatch, usedBatch, done, i := true, false, 0, 0;
    while i < |ports|
      invariant 0 <= i <= |ports| && done == i
      invariant i == 0 ==> !usedBatch && (useBatch || env.batch(0) != Done)
      invariant i > 0 ==> usedBatch == useBatch == env.batch(0).Done?
      invariant Putting(start, ports, slot, i, table.entries)
      decreases |ports| - i, useBatch
    {
      var end := if i + size < |ports| then i + size else |ports|;
      if useBatch {
        ghost var before := table.entries;
        var ok := table.UpdateBatch(ports[i..end], slot, env.batch(i));
        PutBatch(start, ports, slot, i, end, before, table.entries);
        if ok {
          done := done + (end - i);
          usedBatch := true;
        } else if done == 0 {
          useBatch := false;
          continue;
        } else {
          return Err, i;
        }
      } else {
        var j := i;
        while j < end
          invariant i <= j <= end && done == j
          invariant Putting(start, ports, slot, j, table.entries)
        {
          PutKey(start, ports, slot, j, table.entries);
          var ok := table.Update(ports[j], slot, env.key(j));
          if !ok {
            return Err, j;
          }
          done := done + 1;
          j := j + 1;
        }
      }
      i := end;
      if !env.report(i) {
        return Err, i;
      }
    }
    PutDone(start, ports, slot, table.entries);
    return Ok(BulkResult(done, usedBatch, 0)), i;
  }

  // ---- Batched delete ---------------------------------------------------------------

  /** A delete under way: only listed ports differ from `start`, and they are gone; the
      first `i` of them certainly are. */
  ghost predicate Deleting(start: SlotMap, ports: seq<Port>, i: nat, m: SlotMap)
    requires i <= |ports|
  {
    && Between(start, Cleared(start, ports), m)
    && forall p | p in ports[..i] :: p !in m
  }

  lemma DeleteChunk(start: SlotMap, ports: seq<Port>, i: nat, j: nat, m: SlotMap, m': SlotMap)
    requires i <= j <= |ports| && Deleting(start, ports, i, m)
    requires Between(m, Cleared(m, ports[i..j]), m')
    ensures Deleting(start, ports, i, m')
    ensures m' == Cleared(m, ports[i..j]) ==> Deleting(start, ports, j, m')
  {
    assert ports[..j] == ports[..i] + ports[i..j];
    forall p: Port
      ensures Lookup(m', p) == Lookup(start, p) || Lookup(m', p) == Lookup(Cleared(start, ports), p)
      ensures p in ports[..i] ==> p !in m'
    {
      assert p in ports[i..j] ==> p in ports;
      assert Lookup(m', p) == Lookup(m, p) || Lookup(m', p) == Lookup(Cleared(m, ports[i..j]), p);
    }
  }

  lemma DeleteKey(start: SlotMap, ports: seq<Port>, i: nat, m: SlotMap)
    requires i < |ports| && Deleting(start, ports, i, m)
    ensures Deleting(start, ports, i + 1, m - {ports[i]})
  {}

  lemma DeleteDone(start: SlotMap, ports: seq<Port>, m: SlotMap)
    requires Deleting(start, ports, |ports|, m)
    ensures m == Cleared(start, ports)
  {
    assert ports[..|ports|] == ports;
    var all := Cleared(start, ports);
    forall p: Port
      ensures Lookup(m, p) == Lookup(all, p)
    {}
    SameLookups(m, all);
  }

  ghost predicate DeletesWork(env: BulkEnv) {
    forall n: nat :: env.key(n) && env.report(n)
  }

  /** How many of the ports are not there when their turn comes. */
  function Absent(m: SlotMap, ports: seq<Port>): nat
    decreases |ports|
  {
    if ports == [] then 0 else (if ports[0] in m then 0 else 1) + Absent(m - {ports[0]}, ports[1..])
  }

  function BatchSize(batchSize: nat): (size: nat)
    ensures size > 0
  {
    if batchSize == 0 then DEFAULT_BULK_BATCH else batchSize
  }

  function Chunk(ports: seq<Port>, size: nat, i: nat): seq<Port>
    requires i < |ports|
  {
    ports[i..if i + size < |ports| then i + size else |ports|]
  }

  /** How many ports of one chunk a delete finds missing: none if the batch goes through, else
      those not there when retried, among them the ones the refused batch has removed. */
  function Found(m: SlotMap, chunk: seq<Port>, reply: BatchReply): nat {
    if BatchGoes(m, chunk, reply) then 0 else Absent(m - Taken(m, chunk, reply), chunk)
  }

  /** The same from offset `i` to the end, when the map holds `m` at that offset. */
  function Missed(m: SlotMap, ports: seq<Port>, size: nat, env: BulkEnv, i: nat): nat
    requires size > 0
    decreases |ports| - i
  {
    if i >= |ports| then 0
    else
      var chunk := Chunk(ports, size, i);
      Found(m, chunk, env.batch(i)) + Missed(Cleared(m, chunk), ports, size, env, i + |chunk|)
  }

  /** Some batch from offset `i` on goes through. */
  predicate SomeGoes(m: SlotMap, ports: seq<Port>, size: nat, env: BulkEnv, i: nat)
    requires size > 0
    decreases |ports| - i
  {
    i < |ports|
    && var chunk := Chunk(ports, size, i);
       BatchGoes(m, chunk, env.batch(i)) || SomeGoes(Cleared(m, chunk), ports, size, env, i + |chunk|)
  }

  /** What the counters of a delete come to. */
  predicate Totals(m: SlotMap, ports: seq<Port>, size: nat, env: BulkEnv, r: BulkResult)
    requires size > 0
  {
    r == BulkResult(|ports|, SomeGoes(m, ports, size, env, 0), Missed(m, ports, size, env, 0))
  }

  /** `bulk_delete_ports`. Every refused batch is retried key by key, and a key that is
      already gone counts as deleted. */
  method BulkDelete(table: PortTable, ports: seq<Port>, batchSize: nat, env: BulkEnv)
    returns (r: Result<BulkResult>, at: nat)
    modifies table
    ensures r.Ok? ==> table.entries == Cleared(old(table.entries), ports) && r.value.missing <= r.value.n == |ports|
    ensures r.Ok? ==> Totals(old(table.entries), ports, BatchSize(batchSize), env, r.value)
    ensures at <= |ports| && Deleting(old(table.entries), ports, at, table.entries)
    ensures r.Err? ==> (at < |ports| && !env.key(at)) || !env.report(at)
    ensures DeletesWork(env) ==> r.Ok?
  {
    if ports == [] {
      return Ok(BulkResult(0, false, 0)), 0;
    }
    ghost var start := table.entries;
    var failed, usedBatch, missing, i := DeleteChunks(table, ports, BatchSize(batchSize), env);
    if failed {
      return Err, i;
    }
    DeleteDone(start, ports, table.entries);
    return Ok(BulkResult(i, usedBatch, missing)), i;
  }

  /** The loop over the chunks. `i` is how far it got. */
  method DeleteChunks(table: PortTable, ports: seq<Port>, size: nat, env: BulkEnv)
    returns (failed: bool, usedBatch: bool, missing: nat, i: nat)
    requires size > 0
    modifies table
    ensures missing <= i <= |ports| && Deleting(old(table.entries), ports, i, table.entries)
    ensures failed ==> (i < |ports| && !env.key(i)) || !env.report(i)
    ensures !failed ==>
      i == |ports| && Totals(old(table.entries), ports, size, env, BulkResult(i, usedBatch, missing))
  {
    ghost var start := table.entries;
    usedBatch, missing, i := false, 0, 0;
    while i < |ports|
      invariant missing <= i <= |ports| && Deleting(start, ports, i, table.entries)
      invariant Tally(start, ports, size, env, table.entries, i, usedBatch, missing)
    {
      var end := if i + size < |ports| then i + size else |ports|;
      ghost var before := table.entries;
      var went, gone, j;
      failed, went, gone, j := DeleteOne(table, ports, i, end, env, start);
      if failed {
        return true, usedBatch, missing, j;
      }
      NextTally(start, ports, size, env, before, table.entries, i, end,
                usedBatch, usedBatch || went, missing, missing + gone);
      usedBatch, missing, i := usedBatch || went, missing + gone, end;
      if !env.report(i) {
        return true, usedBatch, missing, i;
      }
    }
    return false, usedBatch, missing, i;
  }

  /** The counters so far, with what is still to come, make up the totals. */
  ghost predicate Tally(
    start: SlotMap, ports: seq<Port>, size: nat, env: BulkEnv, m: SlotMap, i: nat, usedBatch: bool, missing: nat)
    requires size > 0
  {
    && missing + Missed(m, ports, size, env, i) == Missed(start, ports, size, env, 0)
    && (usedBatch || SomeGoes(m, ports, size, env, i) <==> SomeGoes(start, ports, size, env, 0))
  }

  lemma NextTally(
    start: SlotMap, ports: seq<Port>, size: nat, env: BulkEnv, m: SlotMap, m': SlotMap, i: nat, end: nat,
    used: bool, used': bool, missing: nat, missing': nat)
    requires size > 0 && i < |ports| && Tally(start, ports, size, env, m, i, used, missing)
    requires end == if i + size < |ports| then i + size else |ports|
    requires m' == Cleared(m, ports[i..end])
    requires used' == (used || BatchGoes(m, ports[i..end], env.batch(i)))
    requires missing' == missing + Found(m, ports[i..end], env.batch(i))
    ensures Tally(start, ports, size, env, m', end, used', missing')
  {
    assert ports[i..end] == Chunk(ports, size, i);
  }

  /** One chunk: the batch call, and the retry if it is refused. `j` is how far it got. */
  method DeleteOne(table: PortTable, ports: seq<Port>, i: nat, end: nat, env: BulkEnv, ghost start: SlotMap)
    returns (failed: bool, went: bool, gone: nat, j: nat)
    requires i <= end <= |ports| && Deleting(start, ports, i, table.entries)
    modifies table
    ensures i <= j <= end && Deleting(start, ports, j, table.entries)
    ensures failed ==> j < end && !env.key(j)
    ensures !failed ==> j == end && gone <= end - i && table.entries == Cleared(old(table.entries), ports[i..end])
    ensures !failed ==>
      && went == BatchGoes(old(table.entries), ports[i..end], env.batch(i))
      && gone == Found(old(table.entries), ports[i..end], env.batch(i))
  {
    ghost var before := table.entries;
    went := table.DeleteBatch(ports[i..end], env.batch(i));
    DeleteChunk(start, ports, i, end, before, table.entries);
    if went {
      return false, true, 0, end;
    }
    failed, gone, j := DeleteKeys(table, ports, i, end, env, start);
    TakenThenCleared(before, ports[i..end], env.batch(i));
  }

  lemma TakenThenCleared(m: SlotMap, chunk: seq<Port>, reply: BatchReply)
    ensures Cleared(m - Taken(m, chunk, reply), chunk) == Cleared(m, chunk)
  {}

  /** The retry of one chunk, key by key, up to the first failing call. */
  method DeleteKeys(table: PortTable, ports: seq<Port>, i: nat, end: nat, env: BulkEnv, ghost start: SlotMap)
    returns (failed: bool, gone: nat, j: nat)
    requires i <= end <= |ports| && Deleting(start, ports, i, table.entries)
    modifies table
    ensures i <= j <= end && Deleting(start, ports, j, table.entries)
    ensures failed ==> j < end && !env.key(j)
    ensures !failed ==> j == end && gone == Absent(old(table.entries), ports[i..end]) <= end - i
    ensures !failed ==> table.entries == Cleared(old(table.entries), ports[i..end])
  {
    ghost var first := table.entries;
    gone, j := 0, i;
    while j < end
      invariant i <= j <= end && gone <= j - i
      invariant Deleting(start, ports, j, table.entries)
      invariant table.entries == Cleared(first, ports[i..j])
      invariant gone + Absent(table.entries, ports[j..end]) == Absent(first, ports[i..end])
    {
      DeleteKey(start, ports, j, table.entries);
      NextKey(first, ports, i, j, end);
      var reply := table.Delete(ports[j], env.key(j));
      match reply {
        case Removed =>
        case Missing => gone := gone + 1;
        case Failed => return true, gone, j;
      }
      j := j + 1;
    }
    return false, gone, j;
  }

  lemma NextKey(m: SlotMap, ports: seq<Port>, i: nat, j: nat, end: nat)
    requires i <= j < end <= |ports|
    ensures ports[j..end][0] == ports[j] && ports[j..end][1..] == ports[j + 1..end]
    ensures Cleared(m, ports[i..j]) - {ports[j]} == Cleared(m, ports[i..j + 1])
  {
    assert ports[i..j + 1] == ports[i..j] + [ports[j]];
  }
}
