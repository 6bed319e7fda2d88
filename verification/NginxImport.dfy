/** Which nginx listens may become steered ports. */
module NginxImport {
  import opened Prelude
  import opened Ports
  import opened PortPolicy

  datatype SkipReason = ReservedRealBind | ReservedByPolicy | SkippedRealListen | DeniedByPolicy | Privileged

  function Reason(port: Port, policy: Policy, extraSkip: set<Port>): (r: Option<SkipReason>)
    ensures r.None? <==>
      && port != 80 && port != 443 && port !in extraSkip
      && port !in policy.deny && port !in policy.reserve && (port <= 1023 ==> port in policy.allowPrivileged)
  {
    if port == 80 || port == 443 then Some(ReservedRealBind)
    else if port in policy.reserve then Some(ReservedByPolicy)
    else if port in extraSkip then Some(SkippedRealListen)
    else if port in policy.deny then Some(DeniedByPolicy)
    else if port <= 1023 && port !in policy.allowPrivileged then Some(Privileged)
    else None
  }

  /** The reason given is the first that applies. */
  lemma ReasonsAre(port: Port, policy: Policy, extraSkip: set<Port>)
    ensures port in {80, 443} <==> Reason(port, policy, extraSkip) == Some(ReservedRealBind)
    ensures
      port !in {80, 443} ==>
        (port in policy.reserve <==> Reason(port, policy, extraSkip) == Some(ReservedByPolicy))
    ensures
      port !in policy.reserve + {80, 443} ==>
        (port in extraSkip <==> Reason(port, policy, extraSkip) == Some(SkippedRealListen))
    ensures
      port !in policy.reserve + extraSkip + {80, 443} ==>
        (port in policy.deny <==> Reason(port, policy, extraSkip) == Some(DeniedByPolicy))
  {}

  predicate Kept(port: Port, policy: Policy, extraSkip: set<Port>) {
    Reason(port, policy, extraSkip).None?
  }

  /** The ports kept, in discovery order. */
  function Importable(listens: seq<Port>, policy: Policy, extraSkip: set<Port>): (r: seq<Port>)
    ensures forall p :: p in r <==> p in listens && Kept(p, policy, extraSkip)
    decreases |listens|
  {
    if listens == [] then []
    else
      var n := |listens| - 1;
      Importable(listens[..n], policy, extraSkip) + if Kept(listens[n], policy, extraSkip) then [listens[n]] else []
  }

  /** The others with their reasons, in discovery order. */
  function Skipped(listens: seq<Port>, policy: Policy, extraSkip: set<Port>): (r: seq<(Port, SkipReason)>)
    ensures forall x :: x in r <==> x.0 in listens && Reason(x.0, policy, extraSkip) == Some(x.1)
    ensures |r| + |Importable(listens, policy, extraSkip)| == |listens|
    decreases |listens|
  {
    if listens == [] then []
    else
      var n := |listens| - 1;
      Skipped(listens[..n], policy, extraSkip) +
      match Reason(listens[n], policy, extraSkip) case None => [] case Some(reason) => [(listens[n], reason)]
  }

  lemma {:induction false} ImportableInOrder(a: seq<Port>, b: seq<Port>, policy: Policy, extraSkip: set<Port>)
    ensures
      Importable(a + b, policy, extraSkip) == Importable(a, policy, extraSkip) + Importable(b, policy, extraSkip)
    decreases |b|
  {
    if b == [] {
      assert a + b == a;
    } else {
      var m, p := b[..|b| - 1], b[|b| - 1];
      LastOfBoth(a, b);
      ImportableInOrder(a, m, policy, extraSkip);
      ImportableNext(a + m, p, policy, extraSkip);
      ImportableNext(m, p, policy, extraSkip);
      Associative(
        Importable(a, policy, extraSkip), Importable(m, policy, extraSkip),
        if Kept(p, policy, extraSkip) then [p] else []);
    }
  }

  lemma {:induction false} SkippedInOrder(a: seq<Port>, b: seq<Port>, policy: Policy, extraSkip: set<Port>)
    ensures Skipped(a + b, policy, extraSkip) == Skipped(a, policy, extraSkip) + Skipped(b, policy, extraSkip)
    decreases |b|
  {
    if b == [] {
      assert a + b == a;
    } else {
      var m, p := b[..|b| - 1], b[|b| - 1];
      LastOfBoth(a, b);
      SkippedInOrder(a, m, policy, extraSkip);
      ImportableNext(a + m, p, policy, extraSkip);
      ImportableNext(m, p, policy, extraSkip);
      Associative(
        Skipped(a, policy, extraSkip), Skipped(m, policy, extraSkip),
        match Reason(p, policy, extraSkip) case None => [] case Some(reason) => [(p, reason)]);
    }
  }

  lemma ImportableNext(listens: seq<Port>, p: Port, policy: Policy, extraSkip: set<Port>)
    ensures
      Importable(listens + [p], policy, extraSkip) ==
        Importable(listens, policy, extraSkip) + if Kept(p, policy, extraSkip) then [p] else []
    ensures
      Skipped(listens + [p], policy, extraSkip) ==
        Skipped(listens, policy, extraSkip)
        + match Reason(p, policy, extraSkip) case None => [] case Some(reason) => [(p, reason)]
  {
    assert (listens + [p])[..|listens|] == listens;
  }

  /** Every listen is either kept or skipped with its reason, both in discovery order. */
  method ImportablePorts(listens: seq<Port>, policy: Policy, extraSkip: set<Port>)
    returns (accepted: seq<Port>, skipped: seq<(Port, SkipReason)>)
    ensures accepted == Importable(listens, policy, extraSkip)
    ensures skipped == Skipped(listens, policy, extraSkip)
  {
    accepted, skipped := [], [];
    for i := 0 to |listens|
      invariant accepted == Importable(listens[..i], policy, extraSkip)
      invariant skipped == Skipped(listens[..i], policy, extraSkip)
    {
      assert listens[..i + 1][..i] == listens[..i];
      match Reason(listens[i], policy, extraSkip)
      case Some(reason) => skipped := skipped + [(listens[i], reason)];
      case None => accepted := accepted + [listens[i]];
    }
    assert listens[..|listens|] == listens;
  }

  /** An imported port can be refused by the policy only for its names or for a quota. */
  lemma ImportedPortIsPermitted(port: Port, b: Binding, policy: Policy, extraSkip: set<Port>)
    requires Kept(port, policy, extraSkip)
    ensures BindingAllowed(port, b, policy) <==>
      && ValidIdentity(b.tenant) && ValidIdentity(b.site)
      && (b.cert.Some? ==> ValidIdentity(b.cert.value)) && (b.policy.Some? ==> ValidIdentity(b.policy.value))
  {}

  /** A listen is kept exactly when it is none of 80, 443 and the ports to skip, and the policy's
      port rules allow it. */
  lemma KeptIff(port: Port, b: Binding, policy: Policy, extraSkip: set<Port>)
    requires ValidIdentity(b.tenant) && ValidIdentity(b.site)
    requires (b.cert.Some? ==> ValidIdentity(b.cert.value)) && (b.policy.Some? ==> ValidIdentity(b.policy.value))
    ensures
      Kept(port, policy, extraSkip) <==> port !in {80, 443} && port !in extraSkip && BindingAllowed(port, b, policy)
  {}
}
