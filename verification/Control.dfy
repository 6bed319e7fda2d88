/** The control plane: the operations that change `ports.conf` and the pinned map together,
    in the order the commands take their steps. */
module Control {
  import opened Prelude
  import opened Ports
  import opened PortPolicy
  import opened DesiredFile
  import opened FileRoundTrip
  import opened OpenPorts
  import opened Reconcile
  import opened Central
  import opened NginxImport

  /** What stays fixed while the operations run: the policy and the ports nginx listens on. */
  datatype World = World(policy: Policy, listens: set<Port>)

  datatype State = State(file: Option<string>, entries: SlotMap, frozen: bool)

  /** Which of the foreign calls of one operation work. */
  datatype Env = Env(
    policyReads: bool, nginxReads: bool, fileReads: bool, mapOpens: bool, mapReads: bool,
    fileWrites: bool, centralWrites: bool, bulk: BulkEnv, plan: PlanEnv)

  ghost predicate Works(env: Env) {
    && env.policyReads && env.nginxReads && env.fileReads && env.mapOpens && env.mapReads
    && env.fileWrites && env.centralWrites
    && PutsWork(env.bulk) && DeletesWork(env.bulk) && PlanWorks(env.plan)
  }

  /** Who asks for a port, and for which slot. */
  datatype Names = Names(tls: bool, tenant: string, site: string, cert: Option<string>, policy: Option<string>)

  function CtlSlot(tls: bool): (s: Slot)
    ensures s <= REDIR_TLS
  {
    if tls then REDIR_TLS else REDIR_PRIMARY
  }

  function Bind(n: Names): Binding {
    Binding(CtlSlot(n.tls), n.tenant, n.site, n.cert, n.policy)
  }

  /** `desired_or_empty`: a missing file stands for no ports. */
  function Content(s: State, w: World): (r: Result<Desired>)
    ensures r.Ok? && s.file.Some? ==> Admissible(r.value, w.policy)
  {
    if s.file.None? then Ok(map[]) else Load(s.file.value, w.policy)
  }

  function Spread(ports: seq<Port>, b: Binding): Desired {
    map p | p in ports :: b
  }

  function Assigned(desired: Desired, ports: seq<Port>, b: Binding): Desired {
    desired + Spread(ports, b)
  }

  function Overlap(listens: set<Port>, desired: Desired, current: SlotMap, adding: seq<Port>): set<Port> {
    listens * (desired.Keys + current.Keys + Elements(adding))
  }

  const LADDER := 10000

  lemma StoredSlots(m: SlotMap, ports: seq<Port>, n: Names)
    ensures forall p | p in ports :: Lookup(Stored(m, ports, CtlSlot(n.tls)), p) == Some(if n.tls then 1 else 0)
    ensures forall p: Port | p !in ports :: Lookup(Stored(m, ports, CtlSlot(n.tls)), p) == Lookup(m, p)
  {}

  lemma AddedAreClear(w: World, desired: Desired, ports: seq<Port>, n: Names)
    requires w.listens !! Assigned(desired, ports, Bind(n)).Keys
    ensures w.listens !! Elements(ports)
  {
    forall p | p in ports
      ensures p !in w.listens
    {
      assert p in Assigned(desired, ports, Bind(n)).Keys;
    }
  }

  // ---- What each operation asks of the state ----------------------------------------

  /** An add is in order when the file reads, and neither the resulting desired state nor the
      live map meets a real listen, and the policy admits the result. */
  predicate Addable(w: World, s: State, ports: seq<Port>, n: Names) {
    && Content(s, w).Ok?
    && Admissible(Assigned(Content(s, w).value, ports, Bind(n)), w.policy)
    && w.listens !! Assigned(Content(s, w).value, ports, Bind(n)).Keys
    && w.listens !! s.entries.Keys
  }

  predicate Reconcilable(w: World, s: State) {
    s.file.Some? && Content(s, w).Ok? && w.listens !! Content(s, w).value.Keys && w.listens !! s.entries.Keys
  }

  // ---- What each operation does -----------------------------------------------------

  /** `gated` tells whether the caller checks the freeze file; all do but the `open-port`
      mode. Refused before any change, or: the file holds the new desired state (unless the add is
      to the live map only), and the map is on its way to holding the ports. */
  ghost predicate AddStep(
    w: World, s: State, ports: seq<Port>, n: Names, sync: bool, gated: bool, s': State, ok: bool)
  {
    || (!ok && s' == s)
    || (&& !(gated && s.frozen) && Addable(w, s, ports, n)
        && s'.frozen == s.frozen
        && s'.file == (if sync then Some(Print(Assigned(Content(s, w).value, ports, Bind(n)))) else s.file)
        && Between(s.entries, Stored(s.entries, ports, CtlSlot(n.tls)), s'.entries)
        && (ok ==> s'.entries == Stored(s.entries, ports, CtlSlot(n.tls))))
  }

  ghost predicate RemoveStep(w: World, s: State, ports: seq<Port>, sync: bool, gated: bool, s': State, ok: bool) {
    || (!ok && s' == s)
    || (&& !(gated && s.frozen)
        && (sync ==> s.file.Some? && Content(s, w).Ok?)
        && s'.frozen == s.frozen
        && s'.file == (if sync then Some(Print(Content(s, w).value - Elements(ports))) else s.file)
        && Between(s.entries, Cleared(s.entries, ports), s'.entries)
        && (ok ==> s'.entries == Cleared(s.entries, ports)))
  }

  ghost predicate ReconcileStep(w: World, s: State, s': State, ok: bool) {
    || (!ok && s' == s)
    || (&& !s.frozen && Reconcilable(w, s)
        && s'.frozen == s.frozen && s'.file == s.file
        && Between(s.entries, Slots(Content(s, w).value), s'.entries)
        && (ok ==> s'.entries == Slots(Content(s, w).value)))
  }

  /** A reload on SIGHUP: no freeze gate and no look at the real listens. */
  ghost predicate ReloadStep(w: World, s: State, s': State, ok: bool) {
    || (!ok && s' == s)
    || (&& s.file.Some? && Content(s, w).Ok?
        && s'.frozen == s.frozen && s'.file == s.file
        && Between(s.entries, Slots(Content(s, w).value), s'.entries)
        && (ok ==> s'.entries == Slots(Content(s, w).value)))
  }

  ghost predicate CloseAllStep(s: State, s': State, ok: bool) {
    && s'.frozen == s.frozen && s'.file == s.file
    && Between(s.entries, map[], s'.entries)
    && (ok ==> s'.entries == map[])
  }

  /** The desired state an import would write. */
  function Imported(w: World, s: State, listens: seq<Port>, extraSkip: set<Port>, n: Names): Desired
    requires Content(s, w).Ok?
  {
    Assigned(Content(s, w).value, Importable(listens, w.policy, extraSkip), Bind(n))
  }

  /** The file reads, and the policy admits it with these ports on top. */
  predicate Mergeable(w: World, s: State, ports: seq<Port>, n: Names) {
    Content(s, w).Ok? && Admissible(Assigned(Content(s, w).value, ports, Bind(n)), w.policy)
  }

  /** An import is in order: the gate is open, and unless it is a dry run the file reads and
      the policy admits the result. */
  predicate ImportInOrder(w: World, s: State, listens: seq<Port>, extraSkip: set<Port>, n: Names, dryRun: bool) {
    && !s.frozen
    && (dryRun || Mergeable(w, s, Importable(listens, w.policy, extraSkip), n))
  }

  /** The part of an import that writes: refused with nothing changed, or nothing to write, or
      the file is written, after which only the central file beside it can fail. */
  ghost predicate WriteStep(w: World, s: State, ports: seq<Port>, n: Names, s': State, ok: bool) {
    || (!ok && s' == s)
    || (&& Mergeable(w, s, ports, n)
        && if ports == [] then ok && s' == s
           else s' == s.(file := Some(Print(Assigned(Content(s, w).value, ports, Bind(n))))))
  }

  /** Imports write the file only; the live map is not looked at. Refused with nothing changed,
      or: a dry run succeeds with nothing changed, any other import goes on to the writing. */
  ghost predicate ImportStep(
    w: World, s: State, listens: seq<Port>, extraSkip: set<Port>, n: Names, dryRun: bool, s': State, ok: bool)
  {
    || (!ok && s' == s)
    || (!s.frozen
        && if dryRun then ok && s' == s
           else WriteStep(w, s, Importable(listens, w.policy, extraSkip), n, s', ok))
  }

  /** A written central state describes `desired` exactly when every port is usable and every
      slot is one of the two. */
  ghost predicate Describes(central: CentralState, desired: Desired) {
    && central.version == 1
    && (Says(central.ports, desired) <==> forall p | p in desired :: p != 0 && desired[p].slot <= REDIR_TLS)
  }

  /** The central state an import writes beside the file: it describes what the file holds. */
  ghost predicate CentralBeside(
    w: World, s: State, listens: seq<Port>, extraSkip: set<Port>, n: Names, s': State, central: CentralState)
  {
    && Content(s, w).Ok? && s'.file == Some(Print(Imported(w, s, listens, extraSkip, n)))
    && Describes(central, Imported(w, s, listens, extraSkip, n))
  }

  /** What a central state must be for its text to replace `ports.conf`. */
  ghost predicate Acceptable(w: World, incoming: Desired) {
    Admissible(incoming, w.policy) && w.listens !! incoming.Keys
  }

  /** Refused before any change, or the file is replaced and then reconciled. `looked` tells
      whether the map could be read at the first look, before anything is written. */
  ghost predicate CentralStep(w: World, s: State, central: CentralState, looked: bool, s': State, ok: bool) {
    || (!ok && s' == s)
    || (&& !s.frozen && central.version == 1 && (looked ==> w.listens !! s.entries.Keys)
        && exists incoming: Desired ::
             && Says(central.ports, incoming) && Acceptable(w, incoming)
             && ReconcileStep(w, s.(file := Some(Print(incoming))), s', ok))
  }

  /** A file that holds an admissible desired state reads back as that state exactly when the
      format can hold it. */
  lemma ReadsBack(w: World, s: State, d: Desired)
    requires s.file == Some(Print(d)) && Admissible(d, w.policy)
    ensures Content(s, w) == Ok(d) <==> Printable(d)
  {
    ReloadsIff(d, w.policy);
  }

  /** Once an acceptable state is in the file, a reconcile is in order exactly when the file
      reads and the live map is clear of real listens; it then goes by what the file reads as. */
  lemma ReplacedIff(w: World, s: State, incoming: Desired)
    requires Acceptable(w, incoming) && s.file == Some(Print(incoming))
    ensures Content(s, w) == if AllReadable(incoming) then Ok(Reread(incoming)) else Err
    ensures Reconcilable(w, s) <==> AllReadable(incoming) && w.listens !! s.entries.Keys
  {
    PrintedReadsAs(incoming, w.policy);
    RereadKeeps(incoming);
  }

  /** `open_ports` and `ports.conf` of one machine. */
  class ControlPlane {
    const w: World
    const table: PortTable
    var file: Option<string>
    var frozen: bool

    constructor (world: World, pinned: PortTable, text: Option<string>)
      ensures w == world && table == pinned && file == text && !frozen
    {
      w, table, file, frozen := world, pinned, text, false;
    }

    function Now(): State
      reads this, table
    {
      State(file, table.entries, frozen)
    }

    method DesiredOrEmpty(env: Env) returns (r: Result<Desired>)
      ensures r.Ok? ==> r == Content(Now(), w)
      ensures env.fileReads && env.policyReads ==> r == Content(Now(), w)
    {
      if file.None? {
        return Ok(map[]);
      }
      if !env.fileReads || !env.policyReads {
        return Err;
      }
      r := ReadDesired(file.value, w.policy);
    }

    /** `load_with_policy`: here a missing file is an error. */
    method LoadFile(env: Env) returns (r: Result<Desired>)
      ensures r.Ok? ==> file.Some? && r == Content(Now(), w)
      ensures env.fileReads && env.policyReads && file.Some? ==> r == Content(Now(), w)
    {
      if file.None? || !env.fileReads || !env.policyReads {
        return Err;
      }
      r := ReadDesired(file.value, w.policy);
    }

    /** `desired::write`: the new text replaces the old one in a single rename, or nothing
        changes. */
    method WriteFile(desired: Desired, works: bool)
      modifies `file
      ensures file == if works then Some(Print(desired)) else old(file)
    {
      var text := WriteDesired(desired);
      if works {
        file := Some(text);
      }
    }

    /** `ctl_add` and its relatives: the limit on the number of ports, the freeze gate, then
        `apply_add`. */
    method Add(ports: seq<Port>, n: Names, sync: bool, fullLadder: bool, batchSize: nat, env: Env) returns (ok: bool)
      modifies this, table
      ensures AddStep(w, old(Now()), ports, n, sync, true, Now(), ok)
      ensures ok ==> forall p | p in ports :: Lookup(table.entries, p) == Some(if n.tls then 1 else 0)
      ensures ok ==> w.listens !! Elements(ports) && w.listens !! old(table.entries).Keys
      ensures |ports| > 10000 && !fullLadder ==> !ok && Now() == old(Now())
      ensures Works(env) && (|ports| > 10000 ==> fullLadder) && !old(frozen) && Addable(w, old(Now()), ports, n) ==> ok
    {
      if |ports| > LADDER && !fullLadder {
        return false;
      }
      if frozen {
        return false;
      }
      ok := ApplyAdd(ports, n, sync, batchSize, env);
    }

    /** The checks of `apply_add`, in its order; they change nothing. */
    method CheckAdd(ports: seq<Port>, n: Names, env: Env) returns (r: Result<Desired>)
      ensures r.Ok? ==> Addable(w, Now(), ports, n) && r.value == Assigned(Content(Now(), w).value, ports, Bind(n))
      ensures Works(env) && Addable(w, Now(), ports, n) ==> r.Ok?
    {
      var read := DesiredOrEmpty(env);
      if read.Err? || !env.nginxReads {
        return Err;
      }
      if Overlap(w.listens, read.value, map[], ports) != {} {
        return Err;
      }
      var desired := InsertAll(read.value, ports, Bind(n));
      if !env.policyReads {
        return Err;
      }
      var admitted := Validate(desired, w.policy);
      if !admitted || !env.mapOpens || !env.mapReads {
        return Err;
      }
      if Overlap(w.listens, desired, table.entries, []) != {} {
        return Err;
      }
      return Ok(desired);
    }

    method ApplyAdd(ports: seq<Port>, n: Names, sync: bool, batchSize: nat, env: Env) returns (ok: bool)
      modifies this, table
      ensures AddStep(w, old(Now()), ports, n, sync, false, Now(), ok)
      ensures ok ==> forall p | p in ports :: Lookup(table.entries, p) == Some(if n.tls then 1 else 0)
      ensures ok ==> w.listens !! Elements(ports) && w.listens !! old(table.entries).Keys
      ensures Works(env) && Addable(w, old(Now()), ports, n) ==> ok
    {
      var desired := CheckAdd(ports, n, env);
      if desired.Err? {
        return false;
      }
      if sync {
        WriteFile(desired.value, env.fileWrites);
        if !env.fileWrites {
          return false;
        }
      }
      var r, at := BulkPut(table, ports, CtlSlot(n.tls), batchSize, env.bulk);
      StoredSlots(old(table.entries), ports, n);
      AddedAreClear(w, Content(old(Now()), w).value, ports, n);
      return r.Ok?;
    }

    /** `open_pinned_ports`, the loader's `open-port` mode: two adds one after the other, with
        no freeze gate. `middle` and `first` are how the first one ended. */
    method OpenPinned(http: seq<Port>, tls: seq<Port>, n: Names, env: Env, later: Env)
      returns (ok: bool, ghost middle: State, ghost first: bool)
      modifies this, table
      ensures (exists p :: p in http && p in tls) ==> !ok && !first && middle == old(Now())
      ensures !(exists p :: p in http && p in tls) ==>
        if http == [] then first && middle == old(Now())
        else AddStep(w, old(Now()), http, n.(tls := false), true, false, middle, first)
      ensures
        if first && tls != [] then AddStep(w, middle, tls, n.(tls := true), true, false, Now(), ok)
        else Now() == middle && ok == first
      ensures ok ==> forall p | p in http :: Lookup(table.entries, p) == Some(0)
      ensures ok ==> forall p | p in tls :: Lookup(table.entries, p) == Some(1)
      ensures
        && Works(env) && http != [] && !(exists p :: p in http && p in tls)
        && Addable(w, old(Now()), http, n.(tls := false))
        ==> first
      ensures first && Works(later) && Addable(w, middle, tls, n.(tls := true)) ==> ok
    {
      middle, first := Now(), false;
      var overlap := PortSetOverlap(http, tls);
      if overlap != [] {
        assert overlap[0] in overlap;
        return false, middle, first;
      }
      ok := true;
      if http != [] {
        ok := ApplyAdd(http, n.(tls := false), true, DEFAULT_BULK_BATCH, env);
      }
      middle, first := Now(), ok;
      if ok && tls != [] {
        ok := ApplyAdd(tls, n.(tls := true), true, DEFAULT_BULK_BATCH, later);
        StoredSlots(middle.entries, tls, n.(tls := true));
      }
    }

    /** `apply_remove`. Single removals are allowed while frozen, bulk ones are not. The file
        is written without validating it again. */
    method Remove(ports: seq<Port>, sync: bool, gated: bool, fullLadder: bool, batchSize: nat, env: Env)
      returns (ok: bool)
      modifies this, table
      ensures RemoveStep(w, old(Now()), ports, sync, gated, Now(), ok)
      ensures
        ok ==>
          forall p: Port ::
            Lookup(table.entries, p) == if p in ports then None else Lookup(old(table.entries), p)
      ensures |ports| > 10000 && !fullLadder ==> !ok && Now() == old(Now())
      ensures
        && Works(env) && (|ports| > 10000 ==> fullLadder) && !(gated && old(frozen))
        && (sync ==> old(file).Some? && Content(old(Now()), w).Ok?)
        ==> ok
    {
      if gated && frozen {
        return false;
      }
      if |ports| > LADDER && !fullLadder {
        return false;
      }
      if !env.mapOpens {
        return false;
      }
      if sync {
        var read := LoadFile(env);
        if read.Err? {
          return false;
        }
        var desired := RemoveAll(read.value, ports);
        WriteFile(desired, env.fileWrites);
        if !env.fileWrites {
          return false;
        }
      }
      var r, at := BulkDelete(table, ports, batchSize, env.bulk);
      return r.Ok?;
    }

    /** The checks of `ctl_reconcile` after the freeze gate. */
    method CheckReconcile(env: Env) returns (r: Result<Desired>)
      ensures r.Ok? ==> Reconcilable(w, Now()) && r == Content(Now(), w) && TwoSlots(r.value)
      ensures Works(env) && Reconcilable(w, Now()) ==> r.Ok?
    {
      var read := LoadFile(env);
      if read.Err? || !env.nginxReads {
        return Err;
      }
      if Overlap(w.listens, read.value, map[], []) != {} {
        return Err;
      }
      if !env.mapOpens || !env.mapReads {
        return Err;
      }
      if Overlap(w.listens, read.value, table.entries, []) != {} {
        return Err;
      }
      LoadedIsPrintable(file.value, w.policy);
      return read;
    }

    /** `ctl_reconcile`. */
    method ReconcileNow(batchSize: nat, env: Env) returns (ok: bool)
      modifies this, table
      ensures ReconcileStep(w, old(Now()), Now(), ok)
      ensures ok ==> !old(frozen) && w.listens !! old(table.entries).Keys && w.listens !! table.entries.Keys
      ensures Works(env) && !old(frozen) && Reconcilable(w, old(Now())) ==> ok
    {
      if frozen {
        return false;
      }
      var desired := CheckReconcile(env);
      if desired.Err? {
        return false;
      }
      var plan := MakePlan(desired.value, table.entries);
      ok := CarryOut(table, plan, desired.value, batchSize, env.plan);
    }

    /** The loader's reconcile on SIGHUP: the file, then the map key by key. `works` tells for
        each key operation whether it does. */
    method Reload(env: Env, works: nat -> bool) returns (ok: bool)
      modifies table
      ensures ReloadStep(w, old(Now()), Now(), ok)
      ensures Works(env) && (forall n: nat :: works(n)) && file.Some? && Content(old(Now()), w).Ok? ==> ok
    {
      var desired := LoadFile(env);
      if desired.Err? || !env.mapOpens || !env.mapReads {
        return false;
      }
      LoadedIsPrintable(file.value, w.policy);
      ghost var start := table.entries;
      var r, plan, n := ReconcileMap(table, desired.value, works);
      PlanFixes(plan, desired.value, start);
      InterruptedIsBetween(Ops(plan), start, Slots(desired.value), n);
      return r.Ok?;
    }

    /** The imported ports on top of what the file holds, if the policy admits the result. */
    method MergeInto(ports: seq<Port>, n: Names, env: Env) returns (r: Result<Desired>)
      ensures r.Ok? ==> Mergeable(w, Now(), ports, n) && r.value == Assigned(Content(Now(), w).value, ports, Bind(n))
      ensures Works(env) && Mergeable(w, Now(), ports, n) ==> r.Ok?
    {
      var read := DesiredOrEmpty(env);
      if read.Err? {
        return Err;
      }
      var desired := InsertAll(read.value, ports, Bind(n));
      var admitted := Validate(desired, w.policy);
      return if admitted then Ok(desired) else Err;
    }

    /** `ctl_import_listens`. `dryRun` stops after the checks that come before the file is
        read; `centralOut` asks for a central state beside the file. */
    method ImportListens(listens: seq<Port>, extraSkip: set<Port>, n: Names, dryRun: bool, centralOut: bool, env: Env)
      returns (ok: bool, central: Option<CentralState>)
      modifies `file
      ensures ImportStep(w, old(Now()), listens, extraSkip, n, dryRun, Now(), ok)
      ensures dryRun ==> Now() == old(Now())
      ensures ok ==> !old(frozen)
      ensures ok && !dryRun ==>
        && Content(old(Now()), w).Ok? && Admissible(Imported(w, old(Now()), listens, extraSkip, n), w.policy)
        && (Importable(listens, w.policy, extraSkip) != [] ==>
              file == Some(Print(Imported(w, old(Now()), listens, extraSkip, n))))
      ensures
        && Works(env) && n.tenant != [] && n.site != []
        && ImportInOrder(w, old(Now()), listens, extraSkip, n, dryRun)
        ==> ok
      ensures central.Some? ==> CentralBeside(w, old(Now()), listens, extraSkip, n, Now(), central.value)
      ensures central.Some? ==> centralOut
      ensures ok && centralOut && !dryRun && Importable(listens, w.policy, extraSkip) != [] ==> central.Some?
    {
      central := None;
      if n.tenant == [] || n.site == [] || !env.policyReads || !env.nginxReads {
        return false, None;
      }
      var ports, skipped := ImportablePorts(listens, w.policy, extraSkip);
      if frozen {
        return false, None;
      }
      if dryRun {
        return true, None;
      }
      ok, central := WriteImport(ports, n, centralOut, env);
    }

    /** `ctl_import_listens` once the ports to import are known. */
    method WriteImport(ports: seq<Port>, n: Names, centralOut: bool, env: Env)
      returns (ok: bool, central: Option<CentralState>)
      modifies `file
      ensures WriteStep(w, old(Now()), ports, n, Now(), ok)
      ensures Works(env) && Mergeable(w, old(Now()), ports, n) ==> ok
      ensures central.Some? <==> ok && centralOut && ports != []
      ensures central.Some? ==> Describes(central.value, Assigned(Content(old(Now()), w).value, ports, Bind(n)))
    {
      var desired := MergeInto(ports, n, env);
      if desired.Err? {
        return false, None;
      }
      if ports == [] {
        return true, None;
      }
      WriteFile(desired.value, env.fileWrites);
      if !env.fileWrites {
        return false, None;
      }
      ok, central := WriteBeside(desired.value, centralOut, env.centralWrites);
    }

    /** `--central-out`: the central state is written beside the file, after it. */
    method WriteBeside(desired: Desired, centralOut: bool, works: bool)
      returns (ok: bool, central: Option<CentralState>)
      ensures ok <==> !centralOut || works
      ensures central.Some? <==> ok && centralOut
      ensures central.Some? ==> Describes(central.value, desired)
    {
      if !centralOut {
        return true, None;
      }
      var state := WriteCentral(desired);
      return works, if works then Some(state) else None;
    }

    /** The checks of `ctl_apply_central` before anything is written. */
    method CheckCentral(central: CentralState, env: Env) returns (r: Result<Desired>)
      ensures r.Ok? ==> central.version == 1 && Says(central.ports, r.value) && Acceptable(w, r.value)
      ensures forall incoming: Desired |
        && env.policyReads && env.nginxReads && (env.mapOpens && env.mapReads ==> w.listens !! table.entries.Keys)
        && central.version == 1 && Says(central.ports, incoming) && Acceptable(w, incoming)
        :: r == Ok(incoming)
      ensures env.mapOpens && env.mapReads && !(w.listens !! table.entries.Keys) ==> r.Err?
    {
      var read := LoadCentral(central);
      if read.Err? || !env.policyReads {
        return Err;
      }
      var incoming := read.value;
      forall other: Desired | Says(central.ports, other)
        ensures other == incoming
      {
        SaysIsUnique(central.ports, other, incoming);
      }
      var admitted := Validate(incoming, w.policy);
      if !admitted || !env.nginxReads {
        return Err;
      }
      if Overlap(w.listens, incoming, map[], []) != {} {
        return Err;
      }
      if env.mapOpens && env.mapReads && Overlap(w.listens, incoming, table.entries, []) != {} {
        return Err;
      }
      return read;
    }

    /** Replace the file, then reconcile from what the file now reads as. */
    method MoveOver(incoming: Desired, batchSize: nat, env: Env) returns (ok: bool)
      requires Acceptable(w, incoming)
      modifies this, table
      ensures ReconcileStep(w, old(Now()).(file := Some(Print(incoming))), Now(), ok)
      ensures file == Some(Print(incoming))
      ensures Works(env) && !old(frozen) && AllReadable(incoming) && w.listens !! old(table.entries).Keys ==>
        ok && table.entries == Slots(Reread(incoming))
      ensures !AllReadable(incoming) ==> !ok && table.entries == old(table.entries)
    {
      WriteFile(incoming, true);
      ReplacedIff(w, Now(), incoming);
      ok := ReconcileNow(batchSize, env);
    }

    /** `ctl_apply_central`. The central source is read twice and does not change between. Once
        the first checks pass and the file can be written it is replaced, whatever comes next;
        and the reconcile that follows goes by what the new file reads as. */
    method ApplyCentral(central: CentralState, batchSize: nat, env: Env, later: Env) returns (ok: bool)
      modifies this, table
      ensures CentralStep(w, old(Now()), central, env.mapOpens && env.mapReads, Now(), ok)
      ensures forall incoming: Desired |
        && env.policyReads && env.nginxReads && env.fileWrites && !old(frozen) && central.version == 1
        && Says(central.ports, incoming) && Acceptable(w, incoming)
        && (env.mapOpens && env.mapReads ==> w.listens !! old(table.entries).Keys)
        :: file == Some(Print(incoming))
           && (Works(later) && AllReadable(incoming) && w.listens !! old(table.entries).Keys ==>
                 ok && table.entries == Slots(Reread(incoming)))
           && (!AllReadable(incoming) ==> !ok && table.entries == old(table.entries))
      ensures env.mapOpens && env.mapReads && !(w.listens !! old(table.entries).Keys) ==> !ok && Now() == old(Now())
      ensures forall incoming: Desired |
        && env.policyReads && env.nginxReads && !old(frozen) && central.version == 1
        && Says(central.ports, incoming) && Acceptable(w, incoming) && !(w.listens !! old(table.entries).Keys)
        :: !ok && (file == Some(Print(incoming)) <==>
             old(file) == Some(Print(incoming)) || (env.fileWrites && !(env.mapOpens && env.mapReads)))
    {
      if frozen {
        return false;
      }
      var incoming := CheckCentral(central, env);
      if incoming.Err? || !env.fileWrites {
        return false;
      }
      ok := MoveOver(incoming.value, batchSize, later);
    }

    /** `freeze` and `unfreeze`: creating or removing the state file. */
    method SetFrozen(on: bool, works: bool) returns (ok: bool)
      modifies `frozen
      ensures ok == works && frozen == if works then on else old(frozen)
    {
      ok := works;
      if works {
        frozen := on;
      }
    }

    /** `ctl_close_all`: empties the map, leaves the file alone, works while frozen. */
    method CloseAll(batchSize: nat, env: Env) returns (ok: bool)
      modifies this, table
      ensures CloseAllStep(old(Now()), Now(), ok)
      ensures Works(env) ==> ok
    {
      if !env.mapOpens || !env.mapReads {
        return false;
      }
      var ports := Sorted(table.entries.Keys);
      ClearedAll(table.entries, ports);
      var r, at := BulkDelete(table, ports, batchSize, env.bulk);
      return r.Ok?;
    }
  }

  lemma ClearedAll(m: SlotMap, ports: seq<Port>)
    requires forall p :: p in ports <==> p in m
    ensures Cleared(m, ports) == map[]
  {}

  lemma AssignedNext(desired: Desired, ports: seq<Port>, b: Binding, i: nat)
    requires i < |ports|
    ensures Assigned(desired, ports[..i + 1], b) == Assigned(desired, ports[..i], b)[ports[i] := b]
  {}

  method InsertAll(desired: Desired, ports: seq<Port>, b: Binding) returns (out: Desired)
    ensures out == Assigned(desired, ports, b)
  {
    out := desired;
    for i := 0 to |ports|
      invariant out == Assigned(desired, ports[..i], b)
    {
      AssignedNext(desired, ports, b, i);
      out := out[ports[i] := b];
    }
    assert ports[..|ports|] == ports;
  }

  method RemoveAll(desired: Desired, ports: seq<Port>) returns (out: Desired)
    ensures out == desired - Elements(ports)
  {
    out := desired;
    for i := 0 to |ports|
      invariant out == desired - Elements(ports[..i])
    {
      out := out - {ports[i]};
    }
    assert ports[..|ports|] == ports;
  }
}
