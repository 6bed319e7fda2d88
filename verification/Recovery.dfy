/** What runs of control-plane operations can and cannot get a machine into. */
module Recovery {
  import opened Prelude
  import opened Ports
  import opened PortPolicy
  import opened DesiredFile
  import opened FileRoundTrip
  import opened OpenPorts
  import opened Reconcile
  import opened Central
  import opened NginxImport
  import opened Control
  import opened ControlRuns

  // ---- Frozen machines --------------------------------------------------------------

  /** Nothing is in the map that was not there at the start with the same slot. */
  ghost predicate Within(was: SlotMap, m: SlotMap) {
    Between(was, map[], m)
  }

  lemma WithinIsTransitive(a: SlotMap, b: SlotMap, c: SlotMap)
    requires Within(a, b) && Within(b, c)
    ensures Within(a, c)
  {}

  ghost predicate StillFrozen(start: State, s: State) {
    s.frozen && Within(start.entries, s.entries)
  }

  /** From a freeze until an unfreeze, whatever else is run but an ungated add or a reload: the
      map never gains a port and no port changes slot. */
  lemma FrozenRunOnlyShrinks(w: World, states: seq<State>, events: seq<Event>, n: nat)
    requires Trace(w, states, events) && n < |states| && states[0].frozen
    requires forall i | 0 <= i < |events| ::
      && events[i].op != SettingFrozen(false) && !events[i].op.Reloading?
      && (events[i].op.Adding? ==> events[i].op.gated)
    ensures states[n].frozen && Within(states[0].entries, states[n].entries)
  {
    var start := states[0];
    assert Within(start.entries, start.entries);
    forall i | 0 <= i < |events| && StillFrozen(start, states[i])
      ensures StillFrozen(start, states[i + 1])
    {
      FrozenOnlyShrinks(w, states[i], events[i].op, states[i + 1], events[i].ok);
      WithinIsTransitive(start.entries, states[i].entries, states[i + 1].entries);
    }
    AlongTrace(w, states, events, s => StillFrozen(start, s), n);
  }

  /** Storing ports leaves the map within what it was exactly when each is there already, in
      that slot. */
  lemma StoredWithinIff(m: SlotMap, ports: seq<Port>, slot: Slot)
    ensures forall p | p in ports :: Lookup(Stored(m, ports, slot), p) == Some(slot)
    ensures Within(m, Stored(m, ports, slot)) <==> forall p | p in ports :: Lookup(m, p) == Some(slot)
  {
    forall p: Port
      ensures Lookup(Stored(m, ports, slot), p) == if p in ports then Some(slot) else Lookup(m, p)
    {}
    if forall p | p in ports :: Lookup(m, p) == Some(slot) {
      assert forall p: Port :: Lookup(Stored(m, ports, slot), p) == Lookup(m, p);
    } else {
      var p :| p in ports && Lookup(m, p) != Some(slot);
      assert Lookup(Stored(m, ports, slot), p) == Some(slot);
    }
  }

  /** The gate is what does it. On a frozen machine only an add that is not behind the gate, as
      in the `open-port` mode, succeeds, and it opens or moves a port exactly when one of its
      ports is not already steered to its slot. */
  lemma UngatedAddOpensFrozen(
    w: World, s: State, ports: seq<Port>, n: Names, sync: bool, gated: bool, s': State)
    requires s.frozen && AddStep(w, s, ports, n, sync, gated, s', true)
    ensures !gated && s'.frozen && forall p | p in ports :: Lookup(s'.entries, p) == Some(CtlSlot(n.tls))
    ensures Within(s.entries, s'.entries) <==> forall p | p in ports :: Lookup(s.entries, p) == Some(CtlSlot(n.tls))
  {
    FrozenAdd(w, s, ports, n, sync, gated, s');
    StoredWithinIff(s.entries, ports, CtlSlot(n.tls));
  }

  lemma FrozenAdd(w: World, s: State, ports: seq<Port>, n: Names, sync: bool, gated: bool, s': State)
    requires s.frozen && AddStep(w, s, ports, n, sync, gated, s', true)
    ensures !gated && s'.frozen && s'.entries == Stored(s.entries, ports, CtlSlot(n.tls))
  {}

  /** On every frozen machine where the add would be in order, and with working calls, the
      `open-port` mode opens the port; the same add behind the gate is refused. */
  method OpenPortOnFrozen(plane: ControlPlane, port: Port, n: Names, env: Env) returns (added: bool, steered: bool)
    requires plane.frozen && !n.tls && Works(env)
    requires port !in plane.table.entries && Addable(plane.w, plane.Now(), [port], n)
    modifies plane, plane.table
    ensures !added && steered
    ensures plane.frozen && port in plane.table.entries && !Within(old(plane.table.entries), plane.table.entries)
  {
    ghost var before := plane.Now();
    added := plane.Add([port], n, true, false, 0, env);
    var ok, middle, first := plane.OpenPinned([port], [], n, env, env);
    assert n.(tls := false) == n;
    UngatedAddOpensFrozen(plane.w, before, [port], n, true, false, plane.Now());
    assert port in [port] && Lookup(before.entries, port) == None;
    return added, ok;
  }

  /** Such machines exist: frozen, nothing steered yet, default policy. What the code does on
      them is the contract of `OpenPortOnFrozen`. */
  lemma FrozenOpenExample(w: World, s: State)
    requires w == World(DEFAULT_POLICY, {80, 443, 8080, 8443}) && s == State(None, map[], true)
    ensures Addable(w, s, [18081], Names(false, "acme", "www", None, None))
    ensures
      var n := Names(false, "acme", "www", None, None);
      var s' := State(Some(Print(map[18081 := Bind(n)])), map[18081 := REDIR_PRIMARY], true);
      AddStep(w, s, [18081], n, true, false, s', true)
  {
    var n := Names(false, "acme", "www", None, None);
    PlainNames();
    FirstPort(w, s, 18081, n);
    assert Stored(map[], [18081], REDIR_PRIMARY) == map[18081 := REDIR_PRIMARY];
  }

  /** And machines on which apply-central replaces the file and then refuses: one port that
      nginx listens on is steered, and the incoming state is acceptable. What the code does on
      them is the contract of `ControlRuns.ReplacedThenRefused`. */
  lemma BlindCentralExample(w: World, central: CentralState)
    requires w == World(DEFAULT_POLICY, {80, 443, 8080, 8443})
    requires central == CentralState(1, [CentralPort("acme", "www", 18081, None, None, false)])
    ensures
      var incoming := map[18081 := Bind(Names(false, "acme", "www", None, None))];
      Says(central.ports, incoming) && Acceptable(w, incoming)
    ensures
      var entries: SlotMap := map[443 := REDIR_PRIMARY];
      !(w.listens !! entries.Keys)
  {
    var n := Names(false, "acme", "www", None, None);
    PlainNames();
    FirstPort(w, State(None, map[], false), 18081, n);
    var incoming := map[18081 := Bind(n)];
    assert central.ports[0].port == 18081;
    assert Listed(central.ports, 18081);
    assert 443 in w.listens;
  }

  /** And ones with a clear map on which it does so for another reason: the tenant of one entry
      holds a comment mark, so the new file does not read. */
  lemma MarkedCentralExample(w: World, central: CentralState)
    requires w == World(DEFAULT_POLICY, {80, 443, 8080, 8443})
    requires central == CentralState(1, [CentralPort("a#b", "www", 18081, None, None, false)])
    ensures
      var incoming := map[18081 := Bind(Names(false, "a#b", "www", None, None))];
      Says(central.ports, incoming) && Acceptable(w, incoming) && !AllReadable(incoming)
  {
    var n := Names(false, "a#b", "www", None, None);
    MarkedNames();
    FirstPort(w, State(None, map[], false), 18081, n);
    var incoming := map[18081 := Bind(n)];
    assert central.ports[0].port == 18081 && Listed(central.ports, 18081);
    assert !Readable(18081, incoming[18081]);
  }

  lemma PlainNames()
    ensures ValidIdentity("acme") && ValidIdentity("www")
  {}

  // ---- Reloads ----------------------------------------------------------------------

  lemma TargetWithinIff(m: SlotMap, d: Desired)
    ensures Within(m, Slots(d)) <==> forall p | p in d :: Lookup(m, p) == Some(d[p].slot)
  {
    forall p: Port
      ensures Lookup(Slots(d), p) == if p in d then Some(d[p].slot) else None
    {}
    if p :| p in d && Lookup(m, p) != Some(d[p].slot) {
      assert Lookup(Slots(d), p) == Some(d[p].slot);
    }
  }

  /** A reload has no gate. On a frozen machine it keeps the gate closed, and if it gets through
      it opens or moves a port exactly when the map does not already have what the file says. */
  lemma ReloadOpensFrozenIff(w: World, s: State, s': State)
    requires s.frozen && ReloadStep(w, s, s', true)
    ensures s'.frozen && Content(s, w).Ok?
    ensures
      var d := Content(s, w).value;
      Within(s.entries, s'.entries) <==> forall p | p in d :: Lookup(s.entries, p) == Some(d[p].slot)
  {
    TargetWithinIff(s.entries, Content(s, w).value);
  }

  /** `freeze --close-all` and then a SIGHUP to the loader, all calls working: the machine is
      frozen, and every port of the file is steered again. */
  method ReloadUndoesCloseAll(plane: ControlPlane, batchSize: nat, env: Env, works: nat -> bool)
    returns (closed: bool, ok: bool)
    requires Works(env) && (forall n: nat :: works(n))
    requires plane.file.Some? && Content(plane.Now(), plane.w).Ok?
    modifies plane, plane.table
    ensures closed && ok && plane.frozen && plane.file == old(plane.file)
    ensures plane.table.entries == Slots(Content(old(plane.Now()), plane.w).value)
  {
    ghost var before := plane.Now();
    var frozen := plane.SetFrozen(true, true);
    closed := plane.CloseAll(batchSize, env);
    SameFile(plane.w, before, plane.Now());
    ok := plane.Reload(env, works);
  }

  /** The real listens are not looked at either. Import a port nginx listens on, which every
      reconcile then refuses, and reload: the port is steered. */
  method ReloadSteersRealListen(
    plane: ControlPlane, listens: seq<Port>, skip: set<Port>, n: Names, port: Port, env: Env, works: nat -> bool)
    returns (ok: bool)
    requires !plane.frozen && Works(env) && (forall i: nat :: works(i)) && n.tenant != [] && n.site != []
    requires Content(plane.Now(), plane.w).Ok?
    requires Admissible(Imported(plane.w, plane.Now(), listens, skip, n), plane.w.policy)
    requires HashFree(Bind(n)) && 0 !in plane.w.policy.allowPrivileged
    requires port in Importable(listens, plane.w.policy, skip) && port in plane.w.listens
    modifies plane, plane.table
    ensures ok && port in plane.table.entries && !Clear(plane.w, plane.Now())
  {
    ghost var before := plane.Now();
    ok := ImportOfRealListenBlocks(plane, listens, skip, n, port, env);
    ghost var s := plane.Now();
    AssignedIsPrintable(plane.w, before, Importable(listens, plane.w.policy, skip), n);
    ReadsBack(plane.w, s, Imported(plane.w, before, listens, skip, n));
    ok := plane.Reload(env, works);
  }

  // ---- A file that reads otherwise -----------------------------------------------------

  /** Adding a TLS port for a site that holds a comment mark behind its first character is
      accepted and steers it to the TLS slot; the next reconcile is accepted too, and moves it to
      the plain one. */
  method ReconcileMovesTlsPort(plane: ControlPlane, port: Port, n: Names, env: Env)
    returns (added: bool, reconciled: bool)
    requires !plane.frozen && Works(env) && Addable(plane.w, plane.Now(), [port], n)
    requires 0 !in plane.w.policy.allowPrivileged
    requires n.tls && '#' !in n.tenant && '#' in n.site && n.site[0] != '#'
    modifies plane, plane.table
    ensures added && reconciled && port in plane.table.entries && plane.table.entries[port] == REDIR_PRIMARY
  {
    ghost var before := plane.Now();
    added := plane.Add([port], n, true, false, 0, env);
    AddedReadsAs(plane.w, before, port, n, plane.Now());
    reconciled := plane.ReconcileNow(0, env);
  }

  lemma AddedReadsAs(w: World, s: State, port: Port, n: Names, s': State)
    requires AddStep(w, s, [port], n, true, true, s', true) && 0 !in w.policy.allowPrivileged
    requires port != 0 ==> Readable(port, Bind(n))
    ensures Reconcilable(w, s') && port in Content(s', w).value
    ensures Content(s', w).value[port] == ReadBinding(Bind(n))
  {
    var was := Content(s, w).value;
    var d := Assigned(was, [port], Bind(n));
    ContentIsPrintable(w, s);
    PortZeroIsNotAdmissible(d, w.policy);
    assert port in d;
    StillReadable(was, port, Bind(n));
    RereadKeeps(d);
    ReplacedIff(w, s', d);
    AddedStaysClear(w, s, port, n);
  }

  lemma AddedStaysClear(w: World, s: State, port: Port, n: Names)
    requires Addable(w, s, [port], n)
    ensures w.listens !! Stored(s.entries, [port], CtlSlot(n.tls)).Keys
  {
    assert port in Assigned(Content(s, w).value, [port], Bind(n)).Keys;
  }

  lemma StillReadable(was: Desired, port: Port, b: Binding)
    requires Printable(was) && Readable(port, b)
    ensures AllReadable(Assigned(was, [port], b)) && Assigned(was, [port], b)[port] == b
  {
    var d := Assigned(was, [port], b);
    forall p | p in d
      ensures Readable(p, d[p])
    {
      assert p == port || (p in was && d[p] == was[p]);
    }
  }

  // ---- A file that does not read -----------------------------------------------------

  ghost predicate Stuck(w: World, start: State, s: State) {
    Content(s, w).Err? && s.file == start.file && Within(start.entries, s.entries)
  }

  /** Once the file does not read, no run without apply-central repairs it: the file stays as
      it is, and the map can only lose ports. */
  lemma UnreadableFileBlocks(w: World, states: seq<State>, events: seq<Event>, n: nat)
    requires Trace(w, states, events) && n < |states| && Content(states[0], w).Err?
    requires forall i | 0 <= i < |events| :: !events[i].op.ApplyingCentral?
    ensures states[n].file == states[0].file && Within(states[0].entries, states[n].entries)
  {
    var start := states[0];
    assert Within(start.entries, start.entries);
    forall i | 0 <= i < |events| && Stuck(w, start, states[i])
      ensures Stuck(w, start, states[i + 1])
    {
      UnreadableFileStays(w, states[i], events[i].op, states[i + 1], events[i].ok);
      SameFile(w, states[i], states[i + 1]);
      WithinIsTransitive(start.entries, states[i].entries, states[i + 1].entries);
    }
    AlongTrace(w, states, events, s => Stuck(w, start, s), n);
  }

  // ---- Reconcile can always repair ---------------------------------------------------

  /** The file reads, and neither it nor the map meets a real listen. */
  predicate Sound(w: World, s: State) {
    Clear(w, s) && Content(s, w).Ok? && w.listens !! Content(s, w).value.Keys
  }

  /** Names without a comment mark, and no import of a port that nginx listens on. */
  ghost predicate Careful(w: World, op: Op) {
    && CleanNames(op)
    && (op.Importing? && !op.dryRun ==>
          forall p | p in Importable(op.listens, w.policy, op.extraSkip) :: p !in w.listens)
  }

  lemma AskedIsClear(w: World, s: State, op: Op, d: Desired)
    requires Sound(w, s) && Careful(w, op) && InOrder(w, s, op) && Asks(w, s, op, d)
    requires !op.ApplyingCentral?
    ensures w.listens !! d.Keys
  {
    if op.Importing? && !op.dryRun {
      var ports := Importable(op.listens, w.policy, op.extraSkip);
      forall p | p in d
        ensures p !in w.listens
      {
        assert p in Content(s, w).value || p in ports;
      }
    }
  }

  lemma CentralIsSound(w: World, s: State, central: CentralState, looked: bool, s': State, ok: bool)
    requires CentralStep(w, s, central, looked, s', ok) && Sound(w, s) && CleanNames(ApplyingCentral(central, looked))
    ensures Content(s', w).Ok? && w.listens !! Content(s', w).value.Keys
  {
    if s' != s || ok {
      var incoming: Desired :|
        && Says(central.ports, incoming) && Acceptable(w, incoming)
        && ReconcileStep(w, s.(file := Some(Print(incoming))), s', ok);
      CentralIsPrintable(central, incoming);
      ReadsBack(w, s', incoming);
    }
  }

  lemma StepIsSound(w: World, s: State, op: Op, s': State, ok: bool)
    requires Step(w, s, op, s', ok) && Sound(w, s) && Careful(w, op) && 0 !in w.policy.allowPrivileged
    ensures Sound(w, s')
  {
    StepStaysClear(w, s, op, s', ok);
    if op.ApplyingCentral? {
      CentralIsSound(w, s, op.central, op.looked, s', ok);
    } else {
      StepTracks(w, s, op, s', ok);
      if Content(s', w) != Content(s, w) {
        if !InOrder(w, s, op) {
          RefusalChangesNothing(w, s, op, s', ok);
        }
        AskedIsClear(w, s, op, Content(s', w).value);
      }
    }
  }

  /** No run of careful operations, whatever fails in it, reaches a state that a reconcile
      would refuse: where there is a file, it is in order, so with working calls it succeeds
      and the map is what the file says. */
  lemma EveryRunCanBeReconciled(w: World, states: seq<State>, events: seq<Event>, n: nat)
    requires Trace(w, states, events) && n < |states| && Sound(w, states[0]) && 0 !in w.policy.allowPrivileged
    requires forall i | 0 <= i < |events| :: Careful(w, events[i].op)
    ensures states[n].file.Some? ==> Reconcilable(w, states[n])
  {
    forall i | 0 <= i < |events| && Sound(w, states[i])
      ensures Sound(w, states[i + 1])
    {
      StepIsSound(w, states[i], events[i].op, states[i + 1], events[i].ok);
    }
    AlongTrace(w, states, events, s => Sound(w, s), n);
  }

  /** In a machine whose file has taken in a port nginx still listens on, every reconcile and
      every add is out of order. */
  lemma ImportedListenBlocks(
    w: World, s: State, listens: seq<Port>, skip: set<Port>, n: Names, s': State, port: Port)
    requires Content(s, w).Ok? && s' == s.(file := Some(Print(Imported(w, s, listens, skip, n))))
    requires Admissible(Imported(w, s, listens, skip, n), w.policy)
    requires HashFree(Bind(n)) && 0 !in w.policy.allowPrivileged
    requires port in Importable(listens, w.policy, skip) && port in w.listens
    ensures !Reconcilable(w, s')
    ensures forall ports, m :: !Addable(w, s', ports, m)
  {
    var kept := Importable(listens, w.policy, skip);
    AssignedIsPrintable(w, s, kept, n);
    ReadsBack(w, s', Imported(w, s, listens, skip, n));
    var d := Content(s', w).value;
    assert port in d;
    forall ports, m
      ensures !Addable(w, s', ports, m)
    {
      assert port in Assigned(d, ports, Bind(m)).Keys;
    }
  }

  /** Importing such a port is the way out of the sound states: with working calls the import
      is accepted and writes the file, and in the state after it every reconcile and every add
      is out of order. */
  method ImportOfRealListenBlocks(
    plane: ControlPlane, listens: seq<Port>, skip: set<Port>, n: Names, port: Port, env: Env) returns (ok: bool)
    requires !plane.frozen && Works(env) && n.tenant != [] && n.site != []
    requires Content(plane.Now(), plane.w).Ok?
    requires Admissible(Imported(plane.w, plane.Now(), listens, skip, n), plane.w.policy)
    requires HashFree(Bind(n)) && 0 !in plane.w.policy.allowPrivileged
    requires port in Importable(listens, plane.w.policy, skip) && port in plane.w.listens
    modifies plane
    ensures ok && plane.file == Some(Print(Imported(plane.w, old(plane.Now()), listens, skip, n)))
    ensures !Reconcilable(plane.w, plane.Now())
    ensures forall ports, m :: !Addable(plane.w, plane.Now(), ports, m)
  {
    ghost var before := plane.Now();
    var central;
    ok, central := plane.ImportListens(listens, skip, n, false, false, env);
    ImportedListenBlocks(plane.w, before, listens, skip, n, plane.Now(), port);
  }

  /** The file reads and names `port`. */
  predicate FileNames(w: World, s: State, port: Port) {
    Content(s, w).Ok? && port in Content(s, w).value
  }

  /** What the operation does not take out of the file: anything but a removal of the port or
      a central state leaves it there. */
  predicate Leaves(op: Op, port: Port) {
    match op
    case Removing(ports, sync, _) => !sync || port !in ports
    case ApplyingCentral(_, _) => false
    case _ => true
  }

  lemma StepKeepsPort(w: World, s: State, op: Op, s': State, ok: bool, port: Port)
    requires Step(w, s, op, s', ok) && FileNames(w, s, port) && Leaves(op, port) && CleanNames(op)
    requires 0 !in w.policy.allowPrivileged
    ensures FileNames(w, s', port)
  {
    StepTracks(w, s, op, s', ok);
  }

  /** As long as the file names a port nginx listens on, every reconcile and every add is
      refused with nothing changed; and no run takes the port out of the file but by removing
      it or by a central state. */
  lemma RealListenInFileBlocks(w: World, states: seq<State>, events: seq<Event>, n: nat, port: Port)
    requires Trace(w, states, events) && n < |events| && FileNames(w, states[0], port) && port in w.listens
    requires 0 !in w.policy.allowPrivileged
    requires forall i | 0 <= i < |events| :: CleanNames(events[i].op) && Leaves(events[i].op, port)
    ensures FileNames(w, states[n], port)
    ensures events[n].op.Adding? || events[n].op.Reconciling? ==> !events[n].ok && states[n + 1] == states[n]
  {
    forall i | 0 <= i < |events| && FileNames(w, states[i], port)
      ensures FileNames(w, states[i + 1], port)
    {
      StepKeepsPort(w, states[i], events[i].op, states[i + 1], events[i].ok, port);
    }
    AlongTrace(w, states, events, s => FileNames(w, s, port), n);
    var e, s := events[n], states[n];
    if e.op.Adding? {
      assert port in Assigned(Content(s, w).value, e.op.ports, Bind(e.op.names)).Keys;
      RefusalChangesNothing(w, s, e.op, states[n + 1], e.ok);
    } else if e.op.Reconciling? {
      assert port in Content(s, w).value.Keys;
      RefusalChangesNothing(w, s, e.op, states[n + 1], e.ok);
    }
  }
}
