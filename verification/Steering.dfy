/** What a new connection sees: the dispatch decision, and the control plane behind it. */
module Steering {
  import opened Prelude
  import opened Ports
  import opened PortPolicy
  import opened DesiredFile
  import opened FileRoundTrip
  import opened OpenPorts
  import opened Reconcile
  import opened Central
  import opened Control
  import opened ControlRuns
  import Rescan

  datatype Outcome = PassThrough | Steered(socket: nat) | Dropped

  /** `dispatch`: `redir` is the listen table, `assigns` whether the kernel takes the socket. */
  function Dispatch(tcp: bool, port: Port, open: SlotMap, redir: map<nat, nat>, assigns: bool): Outcome {
    if !tcp then PassThrough
    else if port !in open then PassThrough
    else
      var key := open[port];
      if key > 1 then Dropped
      else if key !in redir then Dropped
      else if assigns then Steered(redir[key])
      else Dropped
  }

  /** Only a TCP connection to a steered port is touched at all. */
  lemma PassesIff(tcp: bool, port: Port, open: SlotMap, redir: map<nat, nat>, assigns: bool)
    ensures Dispatch(tcp, port, open, redir, assigns) == PassThrough <==> !tcp || port !in open
  {}

  /** And it is steered to the socket of its slot, the first or the second, when that slot holds
      one and the kernel takes it. */
  lemma SteeredIff(tcp: bool, port: Port, open: SlotMap, redir: map<nat, nat>, assigns: bool, socket: nat)
    ensures
      Dispatch(tcp, port, open, redir, assigns) == Steered(socket) <==>
        && tcp && port in open && (open[port] == 0 || open[port] == 1)
        && open[port] in redir && redir[open[port]] == socket && assigns
  {}

  /** Over every run of the control plane, a connection is dropped only because its slot is
      empty or the assignment fails: the check on the slot number never fires. */
  lemma DropsOnlyForTheSocket(
    w: World, states: seq<State>, events: seq<Event>, n: nat, port: Port, redir: map<nat, nat>, assigns: bool)
    requires Trace(w, states, events) && n < |states| && SlotsInRange(states[0].entries)
    ensures
      var open := states[n].entries;
      Dispatch(true, port, open, redir, assigns).Dropped? <==> port in open && (open[port] !in redir || !assigns)
  {
    SlotsStayInRange(w, states, events, n);
  }

  /** Over every run in which no reload meets a file that names a real listen, a port nginx
      itself listens on is never steered and never dropped. */
  lemma RealListensPassThrough(
    w: World, states: seq<State>, events: seq<Event>, n: nat, port: Port, redir: map<nat, nat>, assigns: bool)
    requires Trace(w, states, events) && n < |states| && Clear(w, states[0]) && port in w.listens
    requires forall i | 0 <= i < |events| :: ReloadsClear(w, states[i], events[i].op)
    ensures Dispatch(true, port, states[n].entries, redir, assigns) == PassThrough
  {
    MapStaysClear(w, states, events, n);
  }

  /** The operations that carry the whole file into the map. */
  predicate CarriesFile(op: Op) {
    op.Reconciling? || op.Reloading? || op.ApplyingCentral?
  }

  /** When one of them gets through, the map is what the file then says. */
  lemma FileSettles(w: World, s: State, op: Op, s': State)
    requires Step(w, s, op, s', true) && CarriesFile(op)
    ensures s'.file.Some? && Content(s', w).Ok? && s'.entries == Slots(Content(s', w).value)
    ensures SlotsInRange(s'.entries)
  {
    if op.ApplyingCentral? {
      var incoming: Desired :|
        && Says(op.central.ports, incoming) && Acceptable(w, incoming)
        && ReconcileStep(w, s.(file := Some(Print(incoming))), s', true);
      SameFile(w, s.(file := Some(Print(incoming))), s');
    } else {
      SameFile(w, s, s');
    }
    LoadedIsPrintable(s'.file.value, w.policy);
  }

  /** After a successful reconcile, reload or apply-central the file decides: a connection to a
      port the file does not name passes through, any other goes to the socket in the slot the
      file names, or is dropped when that slot is empty or the kernel refuses. */
  lemma FileDecides(w: World, s: State, op: Op, s': State, port: Port, redir: map<nat, nat>, assigns: bool)
    requires Step(w, s, op, s', true) && CarriesFile(op)
    ensures Content(s', w).Ok?
    ensures
      var d := Content(s', w).value;
      Dispatch(true, port, s'.entries, redir, assigns) ==
        if port !in d then PassThrough
        else if d[port].slot as nat in redir && assigns then Steered(redir[d[port].slot])
        else Dropped
  {
    FileSettles(w, s, op, s');
  }

  /** With a loader in step behind it, that socket is the one the loader holds for the slot,
      captured from another process. */
  lemma FileSteersToHeldListener(
    w: World, s: State, op: Op, s': State, port: Port, own: nat, held: seq<Rescan.Captured>, redir: map<nat, nat>)
    requires Step(w, s, op, s', true) && CarriesFile(op)
    requires Content(s', w).Ok? && port in Content(s', w).value
    requires Rescan.InStep(own, held, redir) && Content(s', w).value[port].slot < |held|
    ensures
      var c := held[Content(s', w).value[port].slot];
      Dispatch(true, port, s'.entries, redir, true) == Steered(c.inode) && c.pid != own
  {
    FileSettles(w, s, op, s');
  }

  /** While a change is under way, or after it stopped half way, a connection meets the old
      decision for its port or the new one, never a third. */
  lemma OldOrNewDecision(a: SlotMap, b: SlotMap, m: SlotMap, tcp: bool, port: Port, redir: map<nat, nat>, assigns: bool)
    requires Between(a, b, m)
    ensures
      || Dispatch(tcp, port, m, redir, assigns) == Dispatch(tcp, port, a, redir, assigns)
      || Dispatch(tcp, port, m, redir, assigns) == Dispatch(tcp, port, b, redir, assigns)
  {
    assert Lookup(m, port) == Lookup(a, port) || Lookup(m, port) == Lookup(b, port);
  }
}
