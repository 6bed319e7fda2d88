/** Which bindings one machine may steer: denied, reserved and privileged ports, identities,
    and the per-tenant and per-machine quotas. */
module PortPolicy {
  import opened Prelude
  import opened Text
  import opened Ports

  type Slot = s: int | 0 <= s < 256

  const REDIR_PRIMARY: Slot := 0
  const REDIR_TLS: Slot := 1

  datatype Binding = Binding(slot: Slot, tenant: string, site: string, cert: Option<string>, policy: Option<string>)

  type Desired = map<Port, Binding>

  datatype Policy = Policy(
    deny: set<Port>, reserve: set<Port>, allowPrivileged: set<Port>, maxPerTenant: nat, maxPerMachine: nat)

  const DEFAULT_POLICY := Policy({22, 25, 53, 3306, 6379}, {}, {}, 32, 128)

  // ---- policy.conf ------------------------------------------------------------------

  const USIZE_LIMIT := 0x1_0000_0000_0000_0000

  function ParseSize(raw: string): Result<nat> {
    match ParseNat(Trim(raw))
    case Err => Err
    case Ok(n) => if n < USIZE_LIMIT then Ok(n) else Err
  }

  datatype Reading = Reading(policy: Policy, allowSeen: bool)

  /** One setting of `policy.conf`. Lists add up; the first `allow_privileged` replaces the
      built-in list; a quota replaces the one before. */
  function Setting(r: Reading, key: string, value: string): (out: Result<Reading>)
    ensures out.Ok? && 0 !in r.policy.allowPrivileged ==> 0 !in out.value.policy.allowPrivileged
    ensures out.Ok? ==> r.policy.deny <= out.value.policy.deny && r.policy.reserve <= out.value.policy.reserve
  {
    if key == "deny" then
      match ParsePortList(value)
      case Err => Err
      case Ok(ports) => Ok(r.(policy := r.policy.(deny := r.policy.deny + Elements(ports))))
    else if key == "reserve" then
      match ParsePortList(value)
      case Err => Err
      case Ok(ports) => Ok(r.(policy := r.policy.(reserve := r.policy.reserve + Elements(ports))))
    else if key == "allow_privileged" then
      var before := if r.allowSeen then r.policy.allowPrivileged else {};
      if value == [] then Ok(Reading(r.policy.(allowPrivileged := before), true))
      else
        match ParsePortList(value)
        case Err => Err
        case Ok(ports) => Ok(Reading(r.policy.(allowPrivileged := before + Elements(ports)), true))
    else if key == "max_ports_per_tenant" then
      match ParseSize(value)
      case Err => Err
      case Ok(n) => Ok(r.(policy := r.policy.(maxPerTenant := n)))
    else if key == "max_ports_per_machine" then
      match ParseSize(value)
      case Err => Err
      case Ok(n) => Ok(r.(policy := r.policy.(maxPerMachine := n)))
    else Err
  }

  function KeyOf(line: string): string {
    Trim(Before(line, '='))
  }

  function ValueOf(line: string): string
    requires '=' in line
  {
    Trim(line[IndexOf(line, '=') + 1..])
  }

  function PolicyLine(r: Reading, raw: string): (out: Result<Reading>)
    ensures out.Ok? && 0 !in r.policy.allowPrivileged ==> 0 !in out.value.policy.allowPrivileged
    ensures out.Ok? ==> r.policy.deny <= out.value.policy.deny && r.policy.reserve <= out.value.policy.reserve
  {
    var line := Trim(Before(raw, '#'));
    if line == [] then Ok(r)
    else if '=' !in line then Err
    else Setting(r, KeyOf(line), ValueOf(line))
  }

  function ReadPolicy(raw: string): Result<Reading> {
    Fold(PolicyLine, Reading(DEFAULT_POLICY, false), Lines(raw))
  }

  /** A policy read from text never allows port 0 and never drops a default-denied port. */
  method ParsePolicy(raw: string) returns (out: Result<Policy>)
    ensures out == match ReadPolicy(raw) case Err => Err case Ok(r) => Ok(r.policy)
    ensures out.Ok? ==> 0 !in out.value.allowPrivileged && {22, 25, 53, 3306, 6379} <= out.value.deny
  {
    var lines, start := Lines(raw), Reading(DEFAULT_POLICY, false);
    var r := start;
    for i := 0 to |lines|
      invariant Fold(PolicyLine, start, lines[..i]) == Ok(r)
      invariant 0 !in r.policy.allowPrivileged && DEFAULT_POLICY.deny <= r.policy.deny
    {
      FoldNext(PolicyLine, start, lines, i);
      var next := PolicyLine(r, lines[i]);
      if next.Err? {
        FoldFails(PolicyLine, start, lines, i + 1);
        return Err;
      }
      r := next.value;
    }
    assert lines[..|lines|] == lines;
    return Ok(r.policy);
  }

  // ---- Bindings ---------------------------------------------------------------------

  predicate ValidIdentity(value: string) {
    value != [] && NoSpace(value)
  }

  predicate BindingAllowed(port: Port, b: Binding, policy: Policy) {
    && ValidIdentity(b.tenant) && ValidIdentity(b.site)
    && (b.cert.Some? ==> ValidIdentity(b.cert.value))
    && (b.policy.Some? ==> ValidIdentity(b.policy.value))
    && port !in policy.deny && port !in policy.reserve
    && (port <= 1023 ==> port in policy.allowPrivileged)
  }

  // ---- What the text decides --------------------------------------------------------

  predicate Lists(value: string, port: Port) {
    ParsePortList(value).Ok? && port in ParsePortList(value).value
  }

  /** The line sets `key` to a list that names `port`. */
  predicate NamesPort(raw: string, key: string, port: Port) {
    var line := Trim(Before(raw, '#'));
    '=' in line && KeyOf(line) == key && Lists(ValueOf(line), port)
  }

  lemma NamedSetting(r: Reading, key: string, value: string, port: Port)
    requires (key == "deny" || key == "reserve") && Lists(value, port)
    ensures
      Setting(r, key, value).Ok? ==>
        var policy := Setting(r, key, value).value.policy;
        port in policy.deny || port in policy.reserve
  {}

  lemma NamedLine(r: Reading, raw: string, port: Port)
    requires NamesPort(raw, "deny", port) || NamesPort(raw, "reserve", port)
    ensures
      PolicyLine(r, raw).Ok? ==>
        var policy := PolicyLine(r, raw).value.policy;
        port in policy.deny || port in policy.reserve
  {
    var line := Trim(Before(raw, '#'));
    NamedSetting(r, KeyOf(line), ValueOf(line), port);
  }

  lemma UnnamedSetting(r: Reading, key: string, value: string, port: Port)
    requires port !in r.policy.allowPrivileged && (key == "allow_privileged" ==> !Lists(value, port))
    ensures Setting(r, key, value).Ok? ==> port !in Setting(r, key, value).value.policy.allowPrivileged
  {}

  lemma UnnamedLine(r: Reading, raw: string, port: Port)
    requires port !in r.policy.allowPrivileged && !NamesPort(raw, "allow_privileged", port)
    ensures PolicyLine(r, raw).Ok? ==> port !in PolicyLine(r, raw).value.policy.allowPrivileged
  {
    var line := Trim(Before(raw, '#'));
    if '=' in line {
      UnnamedSetting(r, KeyOf(line), ValueOf(line), port);
    }
  }

  /** A port on any `deny` or `reserve` line is refused to every binding, whatever the other
      lines say. */
  lemma NamedPortIsRefused(raw: string, k: nat, port: Port, b: Binding)
    requires ReadPolicy(raw).Ok? && k < |Lines(raw)|
    requires NamesPort(Lines(raw)[k], "deny", port) || NamesPort(Lines(raw)[k], "reserve", port)
    ensures !BindingAllowed(port, b, ReadPolicy(raw).value.policy)
  {
    var lines := Lines(raw);
    forall r | PolicyLine(r, lines[k]).Ok?
      ensures port in PolicyLine(r, lines[k]).value.policy.deny || port in PolicyLine(r, lines[k]).value.policy.reserve
    {
      NamedLine(r, lines[k], port);
    }
    FoldKeepsFrom(PolicyLine, Reading(DEFAULT_POLICY, false), lines, k,
      (r: Reading) => port in r.policy.deny || port in r.policy.reserve);
  }

  /** A privileged port is allowed only if some line allows it by name. */
  lemma PrivilegedNeedsNaming(raw: string, port: Port, b: Binding)
    requires ReadPolicy(raw).Ok? && port <= 1023
    requires forall k | 0 <= k < |Lines(raw)| :: !NamesPort(Lines(raw)[k], "allow_privileged", port)
    ensures !BindingAllowed(port, b, ReadPolicy(raw).value.policy)
  {
    var lines := Lines(raw);
    forall r: Reading, i | port !in r.policy.allowPrivileged && 0 <= i < |lines| && PolicyLine(r, lines[i]).Ok?
      ensures port !in PolicyLine(r, lines[i]).value.policy.allowPrivileged
    {
      UnnamedLine(r, lines[i], port);
    }
    FoldKeeps(PolicyLine, Reading(DEFAULT_POLICY, false), lines, (r: Reading) => port !in r.policy.allowPrivileged);
  }

  // ---- Quotas -----------------------------------------------------------------------

  function TenantPorts(desired: Desired, tenant: string): set<Port> {
    set p | p in desired && desired[p].tenant == tenant
  }

  /** What the policy means: every binding is allowed, and the map and each tenant's set of
      ports are within quota. */
  predicate Admissible(desired: Desired, policy: Policy) {
    && |desired| <= policy.maxPerMachine
    && (forall p | p in desired :: BindingAllowed(p, desired[p], policy))
    && (forall p | p in desired :: |TenantPorts(desired, desired[p].tenant)| <= policy.maxPerTenant)
  }

  /** The quotas are how many ports may be used, not one fewer: allowed bindings of one tenant are
      admissible exactly when there are no more of them than either quota. */
  lemma QuotaIff(desired: Desired, tenant: string, policy: Policy)
    requires forall p | p in desired :: BindingAllowed(p, desired[p], policy) && desired[p].tenant == tenant
    ensures
      Admissible(desired, policy) <==>
        |desired| <= policy.maxPerMachine && (desired == map[] || |desired| <= policy.maxPerTenant)
  {
    assert TenantPorts(desired, tenant) == desired.Keys && |desired| == |desired.Keys|;
  }

  /** Validation with its running counter per tenant accepts exactly the admissible maps. */
  method Validate(desired: Desired, policy: Policy) returns (ok: bool)
    ensures ok <==> Admissible(desired, policy)
  {
    PortSetFits(desired.Keys);
    if |desired| > MAX_ENTRIES {
      return false;
    }
    if |desired| > policy.maxPerMachine {
      return false;
    }
    ok := CheckBindings(desired, Sorted(desired.Keys), policy);
  }

  /** The loop of the validation, over the ports in order. */
  method CheckBindings(desired: Desired, ports: seq<Port>, policy: Policy) returns (ok: bool)
    requires |desired| <= policy.maxPerMachine
    requires Increasing(ports) && forall p :: p in ports <==> p in desired
    ensures ok <==> Admissible(desired, policy)
  {
    var tenants: map<string, nat> := map[];
    for i := 0 to |ports|
      invariant Accepted(desired, ports[..i], tenants, policy)
    {
      var b := desired[ports[i]];
      var allowed, n := BindingAllowed(ports[i], b, policy), Count(tenants, b.tenant) + 1;
      AcceptNext(desired, ports, i, tenants, policy, allowed, n);
      if !allowed {
        return false;
      }
      if n > policy.maxPerTenant {
        return false;
      }
      tenants := tenants[b.tenant := n];
    }
    assert ports[..|ports|] == ports;
    AcceptedAll(desired, ports, tenants, policy);
    return true;
  }

  function Counted(desired: Desired, ports: seq<Port>, tenant: string): set<Port> {
    set p | p in ports && p in desired && desired[p].tenant == tenant
  }

  /** Every port seen so far is allowed, and the counters hold the number of ports seen of
      each tenant, all within quota. */
  predicate Accepted(desired: Desired, seen: seq<Port>, tenants: map<string, nat>, policy: Policy) {
    && (forall p | p in seen && p in desired :: BindingAllowed(p, desired[p], policy))
    && (forall p | p in seen && p in desired :: desired[p].tenant in tenants)
    && (forall t | t in tenants :: tenants[t] == |Counted(desired, seen, t)| <= policy.maxPerTenant)
  }

  function Count(tenants: map<string, nat>, tenant: string): nat {
    if tenant in tenants then tenants[tenant] else 0
  }

  lemma CounterIsRight(desired: Desired, seen: seq<Port>, tenants: map<string, nat>, policy: Policy, tenant: string)
    requires Accepted(desired, seen, tenants, policy)
    ensures Count(tenants, tenant) == |Counted(desired, seen, tenant)|
  {}

  lemma AcceptNext(
    desired: Desired, ports: seq<Port>, i: nat, tenants: map<string, nat>, policy: Policy, allowed: bool, n: nat)
    requires i < |ports| && Increasing(ports) && forall p :: p in ports <==> p in desired
    requires Accepted(desired, ports[..i], tenants, policy)
    requires allowed == BindingAllowed(ports[i], desired[ports[i]], policy)
    requires n == Count(tenants, desired[ports[i]].tenant) + 1
    ensures !allowed || n > policy.maxPerTenant ==> !Admissible(desired, policy)
    ensures allowed && n <= policy.maxPerTenant ==>
      Accepted(desired, ports[..i + 1], tenants[desired[ports[i]].tenant := n], policy)
  {
    var t := desired[ports[i]].tenant;
    CountNext(desired, ports, i);
    CounterIsRight(desired, ports[..i], tenants, policy, t);
    if n > policy.maxPerTenant {
      SubsetSize(Counted(desired, ports[..i + 1], t), TenantPorts(desired, t));
      assert |TenantPorts(desired, t)| > policy.maxPerTenant;
    }
  }

  lemma AcceptedAll(desired: Desired, ports: seq<Port>, tenants: map<string, nat>, policy: Policy)
    requires |desired| <= policy.maxPerMachine && forall p :: p in ports <==> p in desired
    requires Accepted(desired, ports, tenants, policy)
    ensures Admissible(desired, policy)
  {
    forall p | p in desired
      ensures |TenantPorts(desired, desired[p].tenant)| <= policy.maxPerTenant
    {
      assert Counted(desired, ports, desired[p].tenant) == TenantPorts(desired, desired[p].tenant);
    }
  }

  lemma CountNext(desired: Desired, ports: seq<Port>, i: nat)
    requires i < |ports| && Increasing(ports) && ports[i] in desired
    ensures forall p :: p in ports[..i + 1] <==> p in ports[..i] || p == ports[i]
    ensures
      var t := desired[ports[i]].tenant;
      |Counted(desired, ports[..i + 1], t)| == |Counted(desired, ports[..i], t)| + 1
    ensures
      forall t | t != desired[ports[i]].tenant ::
        Counted(desired, ports[..i + 1], t) == Counted(desired, ports[..i], t)
  {
    var t := desired[ports[i]].tenant;
    assert ports[..i + 1] == ports[..i] + [ports[i]];
    assert ports[i] !in ports[..i];
    assert Counted(desired, ports[..i + 1], t) == Counted(desired, ports[..i], t) + {ports[i]};
  }

  /** Dropping ports from an admissible map leaves an admissible map, which is why a removal
      may write its result without validating it again. */
  lemma RemovalStaysAdmissible(desired: Desired, gone: set<Port>, policy: Policy)
    requires Admissible(desired, policy)
    ensures Admissible(desired - gone, policy)
  {
    var rest := desired - gone;
    SubsetSize(rest.Keys, desired.Keys);
    forall p | p in rest
      ensures |TenantPorts(rest, rest[p].tenant)| <= policy.maxPerTenant
    {
      SubsetSize(TenantPorts(rest, rest[p].tenant), TenantPorts(desired, rest[p].tenant));
    }
  }

  /** Under a policy that does not allow it, port 0 is in no admissible map. */
  lemma PortZeroIsNotAdmissible(desired: Desired, policy: Policy)
    requires Admissible(desired, policy) && 0 !in policy.allowPrivileged
    ensures 0 !in desired
  {}
}
