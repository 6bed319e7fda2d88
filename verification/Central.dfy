/** The central desired state, from its decoded entries on. */
module Central {
  import opened Prelude
  import opened Ports
  import opened PortPolicy

  datatype CentralPort = CentralPort(
    tenant: string, site: string, port: Port, cert: Option<string>, policy: Option<string>, tls: bool)

  datatype CentralState = CentralState(version: nat, ports: seq<CentralPort>)

  function CentralBinding(e: CentralPort): Binding {
    Binding(if e.tls then REDIR_TLS else REDIR_PRIMARY, e.tenant, e.site, e.cert, e.policy)
  }

  /** `desired` is exactly what the entries say. */
  predicate Says(entries: seq<CentralPort>, desired: Desired) {
    && (forall i | 0 <= i < |entries| ::
          && entries[i].port != 0
          && entries[i].port in desired && desired[entries[i].port] == CentralBinding(entries[i]))
    && (forall p | p in desired :: Listed(entries, p))
  }

  /** The binding an entry asks for, field by field: slot 1 for TLS. */
  lemma SaysFields(entries: seq<CentralPort>, desired: Desired, i: nat)
    requires Says(entries, desired) && i < |entries|
    ensures
      var e := entries[i];
      e.port in desired && desired[e.port] == Binding(if e.tls then 1 else 0, e.tenant, e.site, e.cert, e.policy)
  {}

  predicate Listed(entries: seq<CentralPort>, p: Port) {
    exists i :: 0 <= i < |entries| && entries[i].port == p
  }

  /** `load_from_str` on the decoded entries. It accepts exactly the version-1 lists that
      describe some desired state, and returns that state. */
  method LoadCentral(state: CentralState) returns (r: Result<Desired>)
    ensures r.Ok? ==> state.version == 1 && Says(state.ports, r.value)
    ensures r.Err? && state.version == 1 ==> forall d: Desired :: !Says(state.ports, d)
  {
    if state.version != 1 {
      return Err;
    }
    var desired: Desired := map[];
    for i := 0 to |state.ports|
      invariant Says(state.ports[..i], desired)
    {
      var e := state.ports[i];
      if e.port == 0 {
        return Err;
      }
      ghost var before := desired;
      var earlier := if e.port in desired then Some(desired[e.port]) else None;
      desired := desired[e.port := CentralBinding(e)];
      if earlier.Some? && earlier.value != CentralBinding(e) {
        Conflict(state.ports, before, i);
        return Err;
      }
      SaysNext(state.ports, before, i);
    }
    assert state.ports[..|state.ports|] == state.ports;
    PortSetFits(desired.Keys);
    if |desired| > MAX_ENTRIES {
      return Err;
    }
    return Ok(desired);
  }

  lemma SaysNext(entries: seq<CentralPort>, desired: Desired, i: nat)
    requires i < |entries| && Says(entries[..i], desired) && entries[i].port != 0
    requires entries[i].port in desired ==> desired[entries[i].port] == CentralBinding(entries[i])
    ensures Says(entries[..i + 1], desired[entries[i].port := CentralBinding(entries[i])])
  {
    var next := desired[entries[i].port := CentralBinding(entries[i])];
    var now := entries[..i + 1];
    assert now[..i] == entries[..i];
    forall p | p in next
      ensures Listed(now, p)
    {
      if p in desired {
        assert Listed(entries[..i], p);
        var j :| 0 <= j < i && entries[..i][j].port == p;
        assert now[j].port == p;
      } else {
        assert now[i].port == p;
      }
    }
  }

  lemma Conflict(entries: seq<CentralPort>, desired: Desired, i: nat)
    requires i < |entries| && Says(entries[..i], desired)
    requires entries[i].port in desired && desired[entries[i].port] != CentralBinding(entries[i])
    ensures forall d: Desired :: !Says(entries, d)
  {}

  /** A list of entries describes at most one desired state. */
  lemma SaysIsUnique(entries: seq<CentralPort>, a: Desired, b: Desired)
    requires Says(entries, a) && Says(entries, b)
    ensures a == b
  {}

  function CentralEntry(p: Port, b: Binding): CentralPort {
    CentralPort(b.tenant, b.site, p, b.cert, b.policy, b.slot == REDIR_TLS)
  }

  /** `central::write`, and when it round-trips: exactly when every port is usable and every
      slot is one of the two. */
  method WriteCentral(desired: Desired) returns (state: CentralState)
    ensures state.version == 1
    ensures Says(state.ports, desired) <==> forall p | p in desired :: p != 0 && desired[p].slot <= REDIR_TLS
  {
    var ports := Sorted(desired.Keys);
    var entries: seq<CentralPort> := [];
    for i := 0 to |ports|
      invariant |entries| == i
      invariant forall j | 0 <= j < i :: entries[j] == CentralEntry(ports[j], desired[ports[j]])
    {
      entries := entries + [CentralEntry(ports[i], desired[ports[i]])];
    }
    EntriesSay(desired, ports, entries);
    return CentralState(1, entries);
  }

  lemma EntriesSay(desired: Desired, ports: seq<Port>, entries: seq<CentralPort>)
    requires |entries| == |ports| && forall p :: p in ports <==> p in desired
    requires forall j | 0 <= j < |ports| :: entries[j] == CentralEntry(ports[j], desired[ports[j]])
    ensures Says(entries, desired) <==> forall p | p in desired :: p != 0 && desired[p].slot <= REDIR_TLS
  {}
}
