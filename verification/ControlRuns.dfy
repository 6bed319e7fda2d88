/** What every run of control-plane operations keeps, whatever fails on the way. */
module ControlRuns {
  import opened Prelude
  import opened Ports
  import opened PortPolicy
  import opened DesiredFile
  import opened FileRoundTrip
  import opened OpenPorts
  import opened Reconcile
  import opened Central
  import opened NginxImport
  import opened Control

  datatype Op =
    | Adding(ports: seq<Port>, names: Names, sync: bool, gated: bool)
    | Removing(ports: seq<Port>, sync: bool, gated: bool)
    | Reconciling
    | Reloading
    | ApplyingCentral(central: CentralState, looked: bool)
    | Importing(listens: seq<Port>, extraSkip: set<Port>, names: Names, dryRun: bool)
    | ClosingAll
    | SettingFrozen(on: bool)

  /** The outcomes an operation can have; each case is the contract of the method of that name. */
  ghost predicate Step(w: World, s: State, op: Op, s': State, ok: bool) {
    match op
    case Adding(ports, n, sync, gated) => AddStep(w, s, ports, n, sync, gated, s', ok)
    case Removing(ports, sync, gated) => RemoveStep(w, s, ports, sync, gated, s', ok)
    case Reconciling => ReconcileStep(w, s, s', ok)
    case Reloading => ReloadStep(w, s, s', ok)
    case ApplyingCentral(central, looked) => CentralStep(w, s, central, looked, s', ok)
    case Importing(listens, skip, n, dryRun) => ImportStep(w, s, listens, skip, n, dryRun, s', ok)
    case ClosingAll => CloseAllStep(s, s', ok)
    case SettingFrozen(on) => s' == if ok then s.(frozen := on) else s
  }

  datatype Event = Event(op: Op, ok: bool)

  ghost predicate Trace(w: World, states: seq<State>, events: seq<Event>) {
    && |states| == |events| + 1
    && forall i | 0 <= i < |events| :: Step(w, states[i], events[i].op, states[i + 1], events[i].ok)
  }

  lemma {:induction false} AlongTrace(w: World, states: seq<State>, events: seq<Event>, inv: State -> bool, n: nat)
    requires Trace(w, states, events) && n < |states| && inv(states[0])
    requires forall i | 0 <= i < |events| && inv(states[i]) :: inv(states[i + 1])
    ensures inv(states[n])
    decreases n
  {
    if n > 0 {
      AlongTrace(w, states, events, inv, n - 1);
      assert inv(states[n - 1 + 1]);
    }
  }

  // ---- The live map -----------------------------------------------------------------

  lemma KeysBetween(a: SlotMap, b: SlotMap, m: SlotMap)
    requires Between(a, b, m)
    ensures m.Keys <= a.Keys + b.Keys
    ensures forall p | p in m :: (p in a && m[p] == a[p]) || (p in b && m[p] == b[p])
  {
    forall p | p in m
      ensures (p in a && m[p] == a[p]) || (p in b && m[p] == b[p])
    {
      assert Lookup(m, p) == Lookup(a, p) || Lookup(m, p) == Lookup(b, p);
    }
  }

  predicate ClearMap(w: World, m: SlotMap) {
    w.listens !! m.Keys && forall p | p in m :: m[p] <= REDIR_TLS
  }

  /** No steered port is one nginx listens on, and every slot is one of the two. */
  predicate Clear(w: World, s: State) {
    ClearMap(w, s.entries)
  }

  lemma BetweenIsClear(w: World, a: SlotMap, b: SlotMap, m: SlotMap)
    requires ClearMap(w, a) && ClearMap(w, b) && Between(a, b, m)
    ensures ClearMap(w, m)
  {
    KeysBetween(a, b, m);
  }

  lemma ReconcileStaysClear(w: World, s: State, s': State, ok: bool)
    requires Clear(w, s) && ReconcileStep(w, s, s', ok)
    ensures Clear(w, s')
  {
    if s' != s {
      LoadedIsPrintable(s.file.value, w.policy);
      BetweenIsClear(w, s.entries, Slots(Content(s, w).value), s'.entries);
    }
  }

  lemma AddStaysClear(w: World, s: State, ports: seq<Port>, n: Names, sync: bool, gated: bool, s': State, ok: bool)
    requires Clear(w, s) && AddStep(w, s, ports, n, sync, gated, s', ok)
    ensures Clear(w, s')
  {
    if s' != s {
      forall p | p in ports
        ensures p !in w.listens
      {
        assert p in Assigned(Content(s, w).value, ports, Bind(n)).Keys;
      }
      BetweenIsClear(w, s.entries, Stored(s.entries, ports, CtlSlot(n.tls)), s'.entries);
    }
  }

  lemma CentralStaysClear(w: World, s: State, central: CentralState, looked: bool, s': State, ok: bool)
    requires Clear(w, s) && CentralStep(w, s, central, looked, s', ok)
    ensures Clear(w, s')
  {
    if s' != s {
      var incoming: Desired :|
        && Says(central.ports, incoming) && Acceptable(w, incoming)
        && ReconcileStep(w, s.(file := Some(Print(incoming))), s', ok);
      ReconcileStaysClear(w, s.(file := Some(Print(incoming))), s', ok);
    }
  }

  /** A reload does not look at the real listens: what it goes by must be clear of them. */
  predicate ReloadsClear(w: World, s: State, op: Op) {
    op.Reloading? && Content(s, w).Ok? ==> w.listens !! Content(s, w).value.Keys
  }

  lemma ReloadStaysClear(w: World, s: State, s': State, ok: bool)
    requires Clear(w, s) && ReloadStep(w, s, s', ok) && ReloadsClear(w, s, Reloading)
    ensures Clear(w, s')
  {
    if s' != s {
      LoadedIsPrintable(s.file.value, w.policy);
      BetweenIsClear(w, s.entries, Slots(Content(s, w).value), s'.entries);
    }
  }

  /** And a reload that gets through leaves the map clear exactly when it is. */
  lemma ReloadClearIff(w: World, s: State, s': State)
    requires ReloadStep(w, s, s', true)
    ensures Clear(w, s') <==> ReloadsClear(w, s, Reloading)
  {
    LoadedIsPrintable(s.file.value, w.policy);
  }

  lemma StepStaysClear(w: World, s: State, op: Op, s': State, ok: bool)
    requires Clear(w, s) && Step(w, s, op, s', ok) && ReloadsClear(w, s, op)
    ensures Clear(w, s')
  {
    if s' != s {
      match op
      case Adding(ports, n, sync, gated) => AddStaysClear(w, s, ports, n, sync, gated, s', ok);
      case Removing(ports, sync, gated) => BetweenIsClear(w, s.entries, Cleared(s.entries, ports), s'.entries);
      case Reconciling => ReconcileStaysClear(w, s, s', ok);
      case Reloading => ReloadStaysClear(w, s, s', ok);
      case ApplyingCentral(central, looked) => CentralStaysClear(w, s, central, looked, s', ok);
      case ClosingAll => BetweenIsClear(w, s.entries, map[], s'.entries);
      case _ =>
    }
  }

  /** Over every run, with batches failing half way or not, in which no reload meets a file that
      names a real listen, the live map and the real listens stay disjoint, and the map holds
      only slots 0 and 1. */
  lemma MapStaysClear(w: World, states: seq<State>, events: seq<Event>, n: nat)
    requires Trace(w, states, events) && n < |states| && Clear(w, states[0])
    requires forall i | 0 <= i < |events| :: ReloadsClear(w, states[i], events[i].op)
    ensures Clear(w, states[n])
  {
    forall i | 0 <= i < |events| && Clear(w, states[i])
      ensures Clear(w, states[i + 1])
    {
      StepStaysClear(w, states[i], events[i].op, states[i + 1], events[i].ok);
    }
    AlongTrace(w, states, events, s => Clear(w, s), n);
  }

  predicate SlotsInRange(m: SlotMap) {
    forall p | p in m :: m[p] <= REDIR_TLS
  }

  lemma BetweenInRange(a: SlotMap, b: SlotMap, m: SlotMap)
    requires SlotsInRange(a) && SlotsInRange(b) && Between(a, b, m)
    ensures SlotsInRange(m)
  {
    KeysBetween(a, b, m);
  }

  lemma TowardsFileInRange(w: World, s: State, m: SlotMap)
    requires SlotsInRange(s.entries) && s.file.Some? && Content(s, w).Ok?
    requires Between(s.entries, Slots(Content(s, w).value), m)
    ensures SlotsInRange(m)
  {
    LoadedIsPrintable(s.file.value, w.policy);
    BetweenInRange(s.entries, Slots(Content(s, w).value), m);
  }

  lemma ReconcileKeepsRange(w: World, s: State, s': State, ok: bool)
    requires SlotsInRange(s.entries) && (ReconcileStep(w, s, s', ok) || ReloadStep(w, s, s', ok))
    ensures SlotsInRange(s'.entries)
  {
    if s' != s {
      TowardsFileInRange(w, s, s'.entries);
    }
  }

  lemma CentralKeepsRange(w: World, s: State, central: CentralState, looked: bool, s': State, ok: bool)
    requires SlotsInRange(s.entries) && CentralStep(w, s, central, looked, s', ok)
    ensures SlotsInRange(s'.entries)
  {
    if s' != s {
      var incoming: Desired :|
        && Says(central.ports, incoming) && Acceptable(w, incoming)
        && ReconcileStep(w, s.(file := Some(Print(incoming))), s', ok);
      ReconcileKeepsRange(w, s.(file := Some(Print(incoming))), s', ok);
    }
  }

  lemma StoredInRange(m: SlotMap, ports: seq<Port>, slot: Slot)
    requires SlotsInRange(m) && slot <= REDIR_TLS
    ensures SlotsInRange(Stored(m, ports, slot))
  {}

  lemma AddKeepsRange(w: World, s: State, ports: seq<Port>, n: Names, sync: bool, gated: bool, s': State, ok: bool)
    requires SlotsInRange(s.entries) && AddStep(w, s, ports, n, sync, gated, s', ok)
    ensures SlotsInRange(s'.entries)
  {
    if s' != s {
      StoredInRange(s.entries, ports, CtlSlot(n.tls));
      BetweenInRange(s.entries, Stored(s.entries, ports, CtlSlot(n.tls)), s'.entries);
    }
  }

  lemma StepKeepsRange(w: World, s: State, op: Op, s': State, ok: bool)
    requires SlotsInRange(s.entries) && Step(w, s, op, s', ok)
    ensures SlotsInRange(s'.entries)
  {
    match op
    case Adding(ports, n, sync, gated) => AddKeepsRange(w, s, ports, n, sync, gated, s', ok);
    case Removing(ports, _, _) =>
      if s' != s {
        BetweenInRange(s.entries, Cleared(s.entries, ports), s'.entries);
      }
    case Reconciling => ReconcileKeepsRange(w, s, s', ok);
    case Reloading => ReconcileKeepsRange(w, s, s', ok);
    case ApplyingCentral(central, looked) => CentralKeepsRange(w, s, central, looked, s', ok);
    case ClosingAll => BetweenInRange(s.entries, map[], s'.entries);
    case _ =>
  }

  /** Over every run, reloads and all, the map holds only slots 0 and 1. */
  lemma SlotsStayInRange(w: World, states: seq<State>, events: seq<Event>, n: nat)
    requires Trace(w, states, events) && n < |states| && SlotsInRange(states[0].entries)
    ensures SlotsInRange(states[n].entries)
  {
    forall i | 0 <= i < |events| && SlotsInRange(states[i].entries)
      ensures SlotsInRange(states[i + 1].entries)
    {
      StepKeepsRange(w, states[i], events[i].op, states[i + 1], events[i].ok);
    }
    AlongTrace(w, states, events, (s: State) => SlotsInRange(s.entries), n);
  }

  // ---- Refusals ---------------------------------------------------------------------

  /** When an operation is in order: the file reads where it must, the result is admissible,
      nothing meets a real listen, and the freeze gate is open. */
  ghost predicate InOrder(w: World, s: State, op: Op) {
    match op
    case Adding(ports, n, sync, gated) => !(gated && s.frozen) && Addable(w, s, ports, n)
    case Removing(ports, sync, gated) => !(gated && s.frozen) && (sync ==> s.file.Some? && Content(s, w).Ok?)
    case Reconciling => !s.frozen && Reconcilable(w, s)
    case Reloading => s.file.Some? && Content(s, w).Ok?
    case ApplyingCentral(central, looked) =>
      !s.frozen && central.version == 1 && (looked ==> w.listens !! s.entries.Keys)
      && exists d: Desired :: Says(central.ports, d) && Acceptable(w, d)
    case Importing(listens, skip, n, dryRun) => ImportInOrder(w, s, listens, skip, n, dryRun)
    case ClosingAll => true
    case SettingFrozen(on) => true
  }

  /** Fail closed: an operation that is not in order leaves the file and the map alone and
      reports failure. */
  lemma RefusalChangesNothing(w: World, s: State, op: Op, s': State, ok: bool)
    requires Step(w, s, op, s', ok) && !InOrder(w, s, op)
    ensures s' == s && !ok
  {
    if op.ApplyingCentral? {
      assert s' == s && !ok;
    }
  }

  /** A map that meets a real listen makes every apply-central fail without touching the map.
      If the map could be read at the first look nothing changes at all; if not, the file may
      already have been replaced by an acceptable state. */
  lemma OverlappingMapRefusesCentral(w: World, s: State, central: CentralState, looked: bool, s': State, ok: bool)
    requires CentralStep(w, s, central, looked, s', ok) && !(w.listens !! s.entries.Keys)
    ensures !ok && s'.entries == s.entries && s'.frozen == s.frozen
    ensures looked ==> s' == s
    ensures s' != s ==>
      exists incoming :: Says(central.ports, incoming) && Acceptable(w, incoming) && s'.file == Some(Print(incoming))
  {
    if s' != s || ok {
      var incoming: Desired :|
        && Says(central.ports, incoming) && Acceptable(w, incoming)
        && ReconcileStep(w, s.(file := Some(Print(incoming))), s', ok);
      assert !Reconcilable(w, s.(file := Some(Print(incoming))));
    }
  }

  /** Exactly when apply-central, with the first checks passed and working calls after that,
      replaces the file and then reports failure: when the new file does not read, or when the
      map meets a real listen and could not be read at the first look. */
  method CentralReplacesIff(
    plane: ControlPlane, central: CentralState, batchSize: nat, env: Env, later: Env, ghost incoming: Desired)
    returns (ok: bool)
    requires !plane.frozen && central.version == 1 && Says(central.ports, incoming) && Acceptable(plane.w, incoming)
    requires env.policyReads && env.nginxReads && env.fileWrites && Works(later)
    requires plane.file != Some(Print(incoming))
    modifies plane, plane.table
    ensures !ok && plane.file != old(plane.file) <==>
      if plane.w.listens !! old(plane.table.entries).Keys then !AllReadable(incoming)
      else !(env.mapOpens && env.mapReads)
    ensures plane.file != old(plane.file) ==> plane.file == Some(Print(incoming))
  {
    ok := plane.ApplyCentral(central, batchSize, env, later);
  }

  /** And that is what the code does: run on a map that meets a real listen, with a first look
      that fails, it replaces the file and then reports failure. */
  method ReplacedThenRefused(
    plane: ControlPlane, central: CentralState, batchSize: nat, env: Env, later: Env, ghost incoming: Desired)
    returns (ok: bool)
    requires !plane.frozen && !(plane.w.listens !! plane.table.entries.Keys)
    requires central.version == 1 && Says(central.ports, incoming) && Acceptable(plane.w, incoming)
    requires env.policyReads && env.nginxReads && env.fileWrites && !(env.mapOpens && env.mapReads)
    requires plane.file != Some(Print(incoming))
    modifies plane, plane.table
    ensures !ok && plane.file == Some(Print(incoming)) != old(plane.file)
    ensures plane.table.entries == old(plane.table.entries)
  {
    ghost var before := plane.Now();
    ok := plane.ApplyCentral(central, batchSize, env, later);
    OverlappingMapRefusesCentral(plane.w, before, central, false, plane.Now(), ok);
  }

  lemma PartlyCleared(m: SlotMap, ports: seq<Port>, m': SlotMap)
    requires Between(m, Cleared(m, ports), m')
    ensures Between(m, map[], m')
  {}

  /** While the machine is frozen no operation but an ungated add and a reload adds a port to the
      live map or moves one;
      the file changes only by single removals. */
  lemma FrozenOnlyShrinks(w: World, s: State, op: Op, s': State, ok: bool)
    requires Step(w, s, op, s', ok) && s.frozen && (op.Adding? ==> op.gated) && !op.Reloading?
    ensures Between(s.entries, map[], s'.entries)
    ensures s'.file == s.file || (op.Removing? && !op.gated)
  {
    match op
    case Removing(ports, sync, gated) =>
      if s' != s {
        PartlyCleared(s.entries, ports, s'.entries);
      }
    case _ =>
  }

  // ---- The file ---------------------------------------------------------------------

  /** No name an operation would write carries the comment mark. */
  ghost predicate CleanNames(op: Op) {
    match op
    case Adding(ports, n, sync, _) => HashFree(Bind(n))
    case Importing(listens, skip, n, dryRun) => !dryRun ==> HashFree(Bind(n))
    case ApplyingCentral(central, _) =>
      forall i | 0 <= i < |central.ports| :: HashFree(CentralBinding(central.ports[i]))
    case _ => true
  }

  /** The desired state an operation asks for, from the one the file held. */
  ghost predicate Asks(w: World, s: State, op: Op, d: Desired)
    requires Content(s, w).Ok?
  {
    var was := Content(s, w).value;
    match op
    case Adding(ports, n, sync, _) => d == if sync then Assigned(was, ports, Bind(n)) else was
    case Removing(ports, sync, gated) => d == if sync then was - Elements(ports) else was
    case Importing(listens, skip, n, dryRun) => d == if dryRun then was else Imported(w, s, listens, skip, n)
    case ApplyingCentral(central, _) => Says(central.ports, d)
    case _ => d == was
  }

  lemma ContentIsPrintable(w: World, s: State)
    requires Content(s, w).Ok?
    ensures Printable(Content(s, w).value)
  {
    if s.file.Some? {
      LoadedIsPrintable(s.file.value, w.policy);
    }
  }

  lemma AssignedIsPrintable(w: World, s: State, ports: seq<Port>, n: Names)
    requires Content(s, w).Ok? && 0 !in w.policy.allowPrivileged
    requires Admissible(Assigned(Content(s, w).value, ports, Bind(n)), w.policy)
    ensures Printable(Assigned(Content(s, w).value, ports, Bind(n))) <==> ports == [] || HashFree(Bind(n))
  {
    ContentIsPrintable(w, s);
    PortZeroIsNotAdmissible(Assigned(Content(s, w).value, ports, Bind(n)), w.policy);
    PrintableWith(Content(s, w).value, ports, Bind(n));
  }

  lemma PrintableWith(was: Desired, ports: seq<Port>, b: Binding)
    requires Printable(was) && 0 !in Assigned(was, ports, b) && b.slot <= REDIR_TLS
    ensures Printable(Assigned(was, ports, b)) <==> ports == [] || HashFree(b)
  {
    var d := Assigned(was, ports, b);
    forall p | p in d
      ensures d[p] == if p in ports then b else if p in was then was[p] else b
      ensures p in ports || p in was
    {}
    if ports != [] {
      assert ports[0] in d && d[ports[0]] == b;
    }
  }

  /** An accepted add reads back as what was written exactly when its names carry no comment
      mark. */
  lemma AddReadsBackIff(w: World, s: State, ports: seq<Port>, n: Names)
    requires Addable(w, s, ports, n) && ports != [] && 0 !in w.policy.allowPrivileged
    ensures
      var d := Assigned(Content(s, w).value, ports, Bind(n));
      Load(Print(d), w.policy) == Ok(d) <==> HashFree(Bind(n))
  {
    AssignedIsPrintable(w, s, ports, n);
    ReloadsIff(Assigned(Content(s, w).value, ports, Bind(n)), w.policy);
  }

  lemma CentralIsPrintable(central: CentralState, d: Desired)
    requires Says(central.ports, d)
    ensures Printable(d) <==> forall i | 0 <= i < |central.ports| :: HashFree(CentralBinding(central.ports[i]))
  {}

  /** So does a central state. */
  lemma CentralReadsBackIff(w: World, central: CentralState, d: Desired)
    requires Says(central.ports, d) && Admissible(d, w.policy)
    ensures
      Load(Print(d), w.policy) == Ok(d) <==>
        forall i | 0 <= i < |central.ports| :: HashFree(CentralBinding(central.ports[i]))
  {
    CentralIsPrintable(central, d);
    ReloadsIff(d, w.policy);
  }

  /** And an import. */
  lemma ImportReadsBackIff(w: World, s: State, listens: seq<Port>, skip: set<Port>, n: Names)
    requires Content(s, w).Ok? && Importable(listens, w.policy, skip) != [] && 0 !in w.policy.allowPrivileged
    requires Admissible(Imported(w, s, listens, skip, n), w.policy)
    ensures
      var d := Imported(w, s, listens, skip, n);
      Load(Print(d), w.policy) == Ok(d) <==> HashFree(Bind(n))
  {
    AssignedIsPrintable(w, s, Importable(listens, w.policy, skip), n);
    ReloadsIff(Imported(w, s, listens, skip, n), w.policy);
  }

  lemma RemovalReadsBack(w: World, s: State, ports: seq<Port>, s': State)
    requires s.file.Some? && Content(s, w).Ok? && s'.file == Some(Print(Content(s, w).value - Elements(ports)))
    ensures Content(s', w) == Ok(Content(s, w).value - Elements(ports))
  {
    ContentIsPrintable(w, s);
    RemovalStaysAdmissible(Content(s, w).value, Elements(ports), w.policy);
    ReadsBack(w, s', Content(s, w).value - Elements(ports));
  }

  lemma SameFile(w: World, s: State, s': State)
    requires s'.file == s.file
    ensures Content(s', w) == Content(s, w)
  {}

  lemma AddTracks(w: World, s: State, ports: seq<Port>, n: Names, sync: bool, gated: bool, s': State, ok: bool)
    requires AddStep(w, s, ports, n, sync, gated, s', ok) && Content(s, w).Ok?
    requires HashFree(Bind(n)) && 0 !in w.policy.allowPrivileged
    ensures
      || (s' == s && !ok)
      || Content(s', w) == if sync then Ok(Assigned(Content(s, w).value, ports, Bind(n))) else Content(s, w)
  {
    if s' != s || ok {
      if sync {
        AssignedIsPrintable(w, s, ports, n);
        ReadsBack(w, s', Assigned(Content(s, w).value, ports, Bind(n)));
      } else {
        SameFile(w, s, s');
      }
    }
  }

  predicate Plain(n: Names) {
    '#' !in n.tenant && '#' !in n.site && (n.cert.Some? ==> '#' !in n.cert.value)
    && (n.policy.Some? ==> '#' !in n.policy.value)
  }

  /** A port that was added for plain names reads back with those names and the slot asked for,
      and every other port as before. */
  lemma AddedReadsBack(w: World, s: State, ports: seq<Port>, n: Names, gated: bool, s': State)
    requires AddStep(w, s, ports, n, true, gated, s', true) && Plain(n) && 0 !in w.policy.allowPrivileged
    ensures Content(s, w).Ok? && Content(s', w).Ok?
    ensures
      var was, now := Content(s, w).value, Content(s', w).value;
      && (forall p | p in ports ::
            p in now && now[p] == Binding(if n.tls then 1 else 0, n.tenant, n.site, n.cert, n.policy))
      && (forall p: Port | p !in ports :: (p in now <==> p in was) && (p in now ==> now[p] == was[p]))
  {
    AddTracks(w, s, ports, n, true, gated, s', true);
  }

  /** An imported port likewise, behind the one slot and names of the import. */
  lemma ImportedReadsBack(w: World, s: State, listens: seq<Port>, skip: set<Port>, n: Names, s': State)
    requires ImportStep(w, s, listens, skip, n, false, s', true) && Plain(n) && 0 !in w.policy.allowPrivileged
    ensures Content(s, w).Ok? && Content(s', w).Ok?
    ensures
      var was, now := Content(s, w).value, Content(s', w).value;
      && (forall p | p in Importable(listens, w.policy, skip) ::
            p in now && now[p] == Binding(if n.tls then 1 else 0, n.tenant, n.site, n.cert, n.policy))
      && (forall p: Port | p !in Importable(listens, w.policy, skip) ::
            (p in now <==> p in was) && (p in now ==> now[p] == was[p]))
  {
    ImportTracks(w, s, listens, skip, n, false, s', true);
  }

  lemma RemoveTracks(w: World, s: State, ports: seq<Port>, sync: bool, gated: bool, s': State, ok: bool)
    requires RemoveStep(w, s, ports, sync, gated, s', ok) && Content(s, w).Ok?
    ensures
      || (s' == s && !ok)
      || Content(s', w) == if sync then Ok(Content(s, w).value - Elements(ports)) else Content(s, w)
  {
    if s' != s || ok {
      if sync {
        RemovalReadsBack(w, s, ports, s');
      } else {
        SameFile(w, s, s');
      }
    }
  }

  lemma NothingAssigned(d: Desired, b: Binding)
    ensures Assigned(d, [], b) == d
  {}

  lemma ImportTracks(
    w: World, s: State, listens: seq<Port>, skip: set<Port>, n: Names, dryRun: bool, s': State, ok: bool)
    requires ImportStep(w, s, listens, skip, n, dryRun, s', ok) && Content(s, w).Ok?
    requires (!dryRun ==> HashFree(Bind(n))) && 0 !in w.policy.allowPrivileged
    ensures
      || (s' == s && !ok)
      || Content(s', w) == if dryRun then Content(s, w) else Ok(Imported(w, s, listens, skip, n))
  {
    var ports := Importable(listens, w.policy, skip);
    if (s' == s && !ok) || dryRun {
    } else if ports == [] {
      NothingAssigned(Content(s, w).value, Bind(n));
    } else {
      AssignedIsPrintable(w, s, ports, n);
      ReadsBack(w, s', Imported(w, s, listens, skip, n));
    }
  }

  lemma CentralTracks(w: World, s: State, central: CentralState, looked: bool, s': State, ok: bool)
    requires CentralStep(w, s, central, looked, s', ok) && CleanNames(ApplyingCentral(central, looked))
    ensures (s' == s && !ok) || (Content(s', w).Ok? && Says(central.ports, Content(s', w).value))
  {
    if s' != s || ok {
      var incoming: Desired :|
        && Says(central.ports, incoming) && Acceptable(w, incoming)
        && ReconcileStep(w, s.(file := Some(Print(incoming))), s', ok);
      CentralIsPrintable(central, incoming);
      ReadsBack(w, s', incoming);
    }
  }

  /** One operation: the file still reads, and reads as what it held before or as exactly the
      desired state the operation asks for; as the latter if the operation reports success. */
  lemma StepTracks(w: World, s: State, op: Op, s': State, ok: bool)
    requires Step(w, s, op, s', ok) && Content(s, w).Ok? && CleanNames(op) && 0 !in w.policy.allowPrivileged
    ensures Content(s', w).Ok?
    ensures Content(s', w) == Content(s, w) || Asks(w, s, op, Content(s', w).value)
    ensures ok ==> Asks(w, s, op, Content(s', w).value)
  {
    match op
    case Adding(ports, n, sync, gated) => AddTracks(w, s, ports, n, sync, gated, s', ok);
    case Removing(ports, sync, gated) => RemoveTracks(w, s, ports, sync, gated, s', ok);
    case ApplyingCentral(central, looked) => CentralTracks(w, s, central, looked, s', ok);
    case Importing(listens, skip, n, dryRun) => ImportTracks(w, s, listens, skip, n, dryRun, s', ok);
    case _ => SameFile(w, s, s');
  }

  /** Over every run whose names carry no comment mark, under a policy read from text, the
      file always reads, and each operation moves what it reads as from one desired state to
      that same one or to the one asked for. */
  lemma FileTracks(w: World, states: seq<State>, events: seq<Event>, n: nat)
    requires Trace(w, states, events) && n < |events| && 0 !in w.policy.allowPrivileged
    requires Content(states[0], w).Ok? && forall i | 0 <= i < |events| :: CleanNames(events[i].op)
    ensures Content(states[n], w).Ok? && Content(states[n + 1], w).Ok?
    ensures
      || Content(states[n + 1], w) == Content(states[n], w)
      || Asks(w, states[n], events[n].op, Content(states[n + 1], w).value)
    ensures events[n].ok ==> Asks(w, states[n], events[n].op, Content(states[n + 1], w).value)
  {
    forall i | 0 <= i < |events| && Content(states[i], w).Ok?
      ensures Content(states[i + 1], w).Ok?
    {
      StepTracks(w, states[i], events[i].op, states[i + 1], events[i].ok);
    }
    AlongTrace(w, states, events, s => Content(s, w).Ok?, n);
    StepTracks(w, states[n], events[n].op, states[n + 1], events[n].ok);
  }

  // ---- A comment mark in a name -----------------------------------------------------

  /** The smallest case: on an empty machine with the default policy, adding one port for
      tenant `a#b` is in order, and the file it writes does not read. */
  lemma MarkedTenantExample(w: World, s: State)
    requires w == World(DEFAULT_POLICY, {80, 443, 8080, 8443}) && s == State(None, map[], false)
    ensures
      var n := Names(false, "a#b", "www", None, None);
      && Addable(w, s, [18081], n)
      && Load(Print(Assigned(map[], [18081], Bind(n))), w.policy).Err?
  {
    var n := Names(false, "a#b", "www", None, None);
    MarkedNames();
    FirstPort(w, s, 18081, n);
    PrintedReadsAs(Assigned(map[], [18081], Bind(n)), w.policy);
    assert !Readable(18081, Bind(n));
  }

  lemma MarkedNames()
    ensures ValidIdentity("a#b") && ValidIdentity("www") && '#' in "a#b"
  {}

  lemma FirstPort(w: World, s: State, p: Port, n: Names)
    requires s.file.None? && s.entries == map[] && p !in w.listens
    requires BindingAllowed(p, Bind(n), w.policy) && w.policy.maxPerTenant > 0 && w.policy.maxPerMachine > 0
    ensures Addable(w, s, [p], n)
    ensures Assigned(map[], [p], Bind(n)) == map[p := Bind(n)]
  {
    var d := Assigned(map[], [p], Bind(n));
    assert d == map[p := Bind(n)];
    assert d.Keys == {p};
    SubsetSize(TenantPorts(d, n.tenant), {p});
  }

  /** A file that does not read blocks every operation that goes through it: only a central
      state can replace it. */
  lemma UnreadableFileStays(w: World, s: State, op: Op, s': State, ok: bool)
    requires Step(w, s, op, s', ok) && Content(s, w).Err? && !op.ApplyingCentral?
    ensures s'.file == s.file
    ensures Between(s.entries, map[], s'.entries)
  {
    match op
    case Removing(ports, sync, gated) =>
      if s' != s {
        PartlyCleared(s.entries, ports, s'.entries);
      }
    case _ =>
  }
}
