/** When a written `ports.conf` reads back as the state that was written. */
module FileRoundTrip {
  import opened Prelude
  import opened Text
  import opened Ports
  import opened PortPolicy
  import opened DesiredFile

  predicate HashFree(b: Binding) {
    '#' !in b.tenant && '#' !in b.site
    && (b.cert.Some? ==> '#' !in b.cert.value) && (b.policy.Some? ==> '#' !in b.policy.value)
  }

  /** What the file format can hold: a usable port, one of the two slots, no comment mark. */
  predicate Faithful(port: Port, b: Binding) {
    port != 0 && b.slot <= REDIR_TLS && HashFree(b)
  }

  predicate Printable(desired: Desired) {
    forall p | p in desired :: Faithful(p, desired[p])
  }

  predicate ValidNames(b: Binding) {
    && ValidIdentity(b.tenant) && ValidIdentity(b.site)
    && (b.cert.Some? ==> ValidIdentity(b.cert.value))
    && (b.policy.Some? ==> ValidIdentity(b.policy.value))
  }

  // ---- One line ---------------------------------------------------------------------

  lemma FieldsAreWords(port: Port, b: Binding)
    requires ValidNames(b)
    ensures AllWords(Fields(port, b))
  {
    DigitsAreTame(Decimal(port));
  }

  /** The extra fields alone. */
  function Extra(b: Binding): seq<string> {
    AddPolicy(AddCert(AddTls([], b), b), b)
  }

  lemma FieldsSplit(port: Port, b: Binding)
    ensures Fields(port, b) == [Decimal(port), b.tenant, b.site] + Extra(b)
  {}

  lemma ExtrasAppend(tokens: seq<string>, t: string)
    ensures
      ParseExtras(tokens + [t]) ==
        match ParseExtras(tokens) case Err => Err case Ok(e) => AddToken(e, t)
  {}

  function ReadSlot(b: Binding): Slot {
    if b.slot == REDIR_TLS then REDIR_TLS else REDIR_PRIMARY
  }

  lemma AddTokenCert(e: Extras, cert: string)
    requires e.cert.None?
    ensures AddToken(e, "cert=" + cert) == Ok(e.(cert := Some(cert)))
  {}

  lemma AddTokenPolicy(e: Extras, policy: string)
    requires e.policy.None?
    ensures AddToken(e, "policy=" + policy) == Ok(e.(policy := Some(policy)))
  {
    var t := "policy=" + policy;
    assert t[0] == 'p' && t[..7] == "policy=" && t[7..] == policy;
  }

  lemma TlsBack(b: Binding)
    ensures ParseExtras(AddTls([], b)) == Ok(Extras(ReadSlot(b), None, None))
  {
    ExtrasAppend([], "tls");
  }

  lemma CertBack(b: Binding)
    ensures ParseExtras(AddCert(AddTls([], b), b)) == Ok(Extras(ReadSlot(b), b.cert, None))
  {
    TlsBack(b);
    if b.cert.Some? {
      ExtrasAppend(AddTls([], b), "cert=" + b.cert.value);
      AddTokenCert(Extras(ReadSlot(b), None, None), b.cert.value);
    }
  }

  lemma ExtraBack(b: Binding)
    ensures ParseExtras(Extra(b)) == Ok(Extras(ReadSlot(b), b.cert, b.policy))
  {
    CertBack(b);
    if b.policy.Some? {
      ExtrasAppend(AddCert(AddTls([], b), b), "policy=" + b.policy.value);
      AddTokenPolicy(Extras(ReadSlot(b), b.cert, None), b.policy.value);
    }
  }

  lemma ParseNamed(port: Port, tenant: string, site: string, extra: seq<string>)
    ensures
      ParseFields([Decimal(port), tenant, site] + extra) ==
        match ParseExtras(extra)
        case Err => Err
        case Ok(e) =>
          if port == 0 then Err else Ok(Some(Entry([port], Binding(e.slot, tenant, site, e.cert, e.policy))))
  {
    var fields := [Decimal(port), tenant, site] + extra;
    assert fields[3..] == extra;
    PortListOfDecimal(port);
  }

  lemma UnmarkedWords(port: Port, b: Binding)
    requires ValidNames(b) && HashFree(b)
    ensures Words(Before(PrintLine(port, b), '#')) == Fields(port, b)
  {
    var ws := Fields(port, b);
    FieldsAreWords(port, b);
    DigitsAreTame(Decimal(port));
    JoinLacks(ws, '#');
    BeforeLacks(Join(ws), '#');
    WordsJoin(ws);
  }

  /** A line without a comment mark reads back as its own port and binding, except that
      port 0 is refused and any slot but 1 reads as 0. */
  lemma LineWithoutMark(port: Port, b: Binding)
    requires ValidNames(b) && HashFree(b)
    ensures
      ParseLine(PrintLine(port, b)) ==
        if port == 0 then Err else Ok(Some(Entry([port], b.(slot := ReadSlot(b)))))
  {
    UnmarkedWords(port, b);
    FieldsSplit(port, b);
    ExtraBack(b);
    ParseNamed(port, b.tenant, b.site, Extra(b));
  }

  // ---- What a printed line reads as ---------------------------------------------------

  /** What is left of a binding when its line is cut at the first comment mark: the field with
      the mark loses what follows it, and the fields behind it are gone. */
  function ReadBinding(b: Binding): Binding {
    if '#' in b.site then Binding(REDIR_PRIMARY, b.tenant, Before(b.site, '#'), None, None)
    else if b.cert.Some? && '#' in b.cert.value then
      Binding(ReadSlot(b), b.tenant, b.site, Some(Before(b.cert.value, '#')), None)
    else if b.policy.Some? && '#' in b.policy.value then
      Binding(ReadSlot(b), b.tenant, b.site, b.cert, Some(Before(b.policy.value, '#')))
    else b.(slot := ReadSlot(b))
  }

  /** The line still names its port, a tenant and a site. */
  predicate KeepsNames(port: Port, b: Binding) {
    port != 0 && '#' !in b.tenant && Before(b.site, '#') != []
  }

  /** It reads as a binding the policy can allow: the tenant holds no comment mark, and the
      first field that does, if any, does not start with it. */
  predicate Readable(port: Port, b: Binding) {
    && port != 0 && '#' !in b.tenant
    && if '#' in b.site then b.site[0] != '#'
       else if b.cert.Some? && '#' in b.cert.value then b.cert.value[0] != '#'
       else b.policy.Some? && '#' in b.policy.value ==> b.policy.value[0] != '#'
  }

  /** The words left of a line whose first comment mark is in field `k`. */
  lemma MarkedWords(port: Port, b: Binding, k: nat)
    requires ValidNames(b) && 0 < k < |Fields(port, b)|
    requires '#' in Fields(port, b)[k] && forall i | 0 < i < k :: '#' !in Fields(port, b)[i]
    ensures
      var cut := Before(Fields(port, b)[k], '#');
      Words(Before(PrintLine(port, b), '#')) == Fields(port, b)[..k] + (if cut == [] then [] else [cut])
  {
    FieldsAreWords(port, b);
    DigitsAreTame(Decimal(port));
    FieldsSplit(port, b);
    WordsOfCutJoin(Fields(port, b), k, '#');
  }

  lemma MarkInTenant(port: Port, b: Binding)
    requires ValidNames(b) && '#' in b.tenant
    ensures ParseLine(PrintLine(port, b)).Err?
  {
    FieldsSplit(port, b);
    MarkedWords(port, b, 1);
  }

  lemma FirstTwo(a: string, b: string, c: string, rest: seq<string>, cut: string)
    ensures ([a, b, c] + rest)[..2] + [cut] == [a, b, cut] + []
    ensures ([a, b, c] + rest)[..2] + [] == [a, b]
  {}

  lemma MarkInSite(port: Port, b: Binding)
    requires ValidNames(b) && '#' !in b.tenant && '#' in b.site
    ensures
      ParseLine(PrintLine(port, b)) ==
        if KeepsNames(port, b) then Ok(Some(Entry([port], ReadBinding(b)))) else Err
  {
    FieldsSplit(port, b);
    MarkedWords(port, b, 2);
    var cut := Before(b.site, '#');
    FirstTwo(Decimal(port), b.tenant, b.site, Extra(b), cut);
    if cut != [] {
      ParseNamed(port, b.tenant, cut, []);
    }
  }

  /** The words left of a line whose first comment mark is in an extra field. */
  lemma MarkedExtra(port: Port, b: Binding, before: seq<string>, field: string)
    requires ValidNames(b) && '#' !in b.tenant && '#' !in b.site
    requires before + [field] <= Extra(b)
    requires '#' in field && field[0] != '#'
    requires forall i | 0 <= i < |before| :: '#' !in before[i]
    ensures
      Words(Before(PrintLine(port, b), '#')) ==
        [Decimal(port), b.tenant, b.site] + (before + [Before(field, '#')])
  {
    FieldsSplit(port, b);
    var named := [Decimal(port), b.tenant, b.site];
    var k := 3 + |before|;
    var cut := Before(field, '#');
    CutAt(named, Extra(b), before, field, cut);
    UnmarkedUpTo(named, Extra(b), before, field);
    MarkedWords(port, b, k);
  }

  lemma UnmarkedUpTo(named: seq<string>, extra: seq<string>, before: seq<string>, field: string)
    requires before + [field] <= extra
    requires forall i | 0 < i < |named| :: '#' !in named[i]
    requires forall i | 0 <= i < |before| :: '#' !in before[i]
    ensures forall i | 0 < i < |named| + |before| :: '#' !in (named + extra)[i]
  {}

  lemma CutAt(named: seq<string>, extra: seq<string>, before: seq<string>, field: string, cut: string)
    requires before + [field] <= extra
    ensures
      var k := |named| + |before|;
      (named + extra)[..k] == named + before && (named + extra)[k] == field
    ensures named + before + [cut] == named + (before + [cut])
  {}

  lemma MarkInCert(port: Port, b: Binding)
    requires ValidNames(b) && '#' !in b.tenant && '#' !in b.site
    requires b.cert.Some? && '#' in b.cert.value
    ensures ParseLine(PrintLine(port, b)) == if port == 0 then Err else Ok(Some(Entry([port], ReadBinding(b))))
  {
    var before, field := AddTls([], b), "cert=" + b.cert.value;
    BeforeSkips("cert=", b.cert.value, '#');
    MarkedExtra(port, b, before, field);
    var cert := Before(b.cert.value, '#');
    ParseNamed(port, b.tenant, b.site, before + ["cert=" + cert]);
    TlsBack(b);
    ExtrasAppend(before, "cert=" + cert);
    AddTokenCert(Extras(ReadSlot(b), None, None), cert);
  }

  lemma MarkInPolicy(port: Port, b: Binding)
    requires ValidNames(b) && '#' !in b.tenant && '#' !in b.site && (b.cert.Some? ==> '#' !in b.cert.value)
    requires b.policy.Some? && '#' in b.policy.value
    ensures ParseLine(PrintLine(port, b)) == if port == 0 then Err else Ok(Some(Entry([port], ReadBinding(b))))
  {
    var before, field := AddCert(AddTls([], b), b), "policy=" + b.policy.value;
    BeforeSkips("policy=", b.policy.value, '#');
    MarkedExtra(port, b, before, field);
    var policy := Before(b.policy.value, '#');
    ParseNamed(port, b.tenant, b.site, before + ["policy=" + policy]);
    CertBack(b);
    ExtrasAppend(before, "policy=" + policy);
    AddTokenPolicy(Extras(ReadSlot(b), b.cert, None), policy);
  }

  /** Every printed line: refused, or its own port with what is left of the binding. */
  lemma LineReadsAs(port: Port, b: Binding)
    requires ValidNames(b)
    ensures
      ParseLine(PrintLine(port, b)) ==
        if KeepsNames(port, b) then Ok(Some(Entry([port], ReadBinding(b)))) else Err
  {
    if '#' in b.tenant {
      MarkInTenant(port, b);
    } else if '#' in b.site {
      MarkInSite(port, b);
    } else {
      BeforeLacks(b.site, '#');
      if b.cert.Some? && '#' in b.cert.value {
        MarkInCert(port, b);
      } else if b.policy.Some? && '#' in b.policy.value {
        MarkInPolicy(port, b);
      } else {
        LineWithoutMark(port, b);
      }
    }
  }

  lemma BeforeIsShorter(s: string, c: char)
    requires c in s
    ensures Before(s, c) != s && c !in Before(s, c)
    ensures Before(s, c) == [] <==> s[0] == c
    ensures NoSpace(s) ==> NoSpace(Before(s, c))
  {}

  lemma BeforeMark(b: Binding)
    ensures '#' in b.site ==> Before(b.site, '#') != b.site
    ensures b.cert.Some? && '#' in b.cert.value ==> Before(b.cert.value, '#') != b.cert.value
    ensures b.policy.Some? && '#' in b.policy.value ==> Before(b.policy.value, '#') != b.policy.value
  {}

  /** A line reads back as its own binding exactly when the format can hold it. */
  lemma FaithfulIff(port: Port, b: Binding)
    ensures Readable(port, b) && ReadBinding(b) == b <==> Faithful(port, b)
  {
    BeforeMark(b);
  }

  predicate Differs(r: Result<Option<Entry>>, port: Port, b: Binding) {
    r.Err? || (r.value.Some? && r.value.value.ports == [port] && r.value.value.binding != b)
  }

  /** A line the format cannot hold is refused, or names the same port with another binding. */
  lemma LineDiffers(port: Port, b: Binding)
    requires ValidNames(b) && !Faithful(port, b)
    ensures Differs(ParseLine(PrintLine(port, b)), port, b)
  {
    LineReadsAs(port, b);
    BeforeMark(b);
  }

  /** What a line reads as is allowed exactly when it is readable. */
  lemma ReadAllowedIff(port: Port, b: Binding, policy: Policy)
    requires BindingAllowed(port, b, policy)
    ensures KeepsNames(port, b) && BindingAllowed(port, ReadBinding(b), policy) <==> Readable(port, b)
  {
    if '#' in b.site {
      BeforeIsShorter(b.site, '#');
    } else {
      BeforeLacks(b.site, '#');
      if b.cert.Some? && '#' in b.cert.value {
        BeforeIsShorter(b.cert.value, '#');
      } else if b.policy.Some? && '#' in b.policy.value {
        BeforeIsShorter(b.policy.value, '#');
      }
    }
  }

  // ---- The whole file ---------------------------------------------------------------

  predicate OneLine(line: string) {
    '\n' !in line && '\r' !in line
  }

  predicate AllOneLine(lines: seq<string>) {
    forall i | 0 <= i < |lines| :: OneLine(lines[i])
  }

  lemma {:induction false} LinesOfUnlines(lines: seq<string>)
    requires AllOneLine(lines)
    ensures Lines(Unlines(lines)) == lines
    decreases |lines|
  {
    if lines != [] {
      LinesOfUnlines(lines[1..]);
      LinesFirst(lines[0], Unlines(lines[1..]));
    }
  }

  lemma PrintedOnOneLine(port: Port, b: Binding)
    requires ValidNames(b)
    ensures OneLine(PrintLine(port, b))
  {
    var ws := Fields(port, b);
    FieldsAreWords(port, b);
    assert IsSpace('\n') && IsSpace('\r');
    JoinLacks(ws, '\n');
    JoinLacks(ws, '\r');
  }

  lemma BindingsOnOneLine(desired: Desired, ports: seq<Port>)
    requires forall p | p in ports :: p in desired && ValidNames(desired[p])
    ensures AllOneLine(BindingLines(desired, ports))
  {
    forall i | 0 <= i < |ports|
      ensures OneLine(BindingLines(desired, ports)[i])
    {
      assert ports[i] in ports;
      PrintedOnOneLine(ports[i], desired[ports[i]]);
    }
  }

  lemma AllOneLineAppend(a: seq<string>, b: seq<string>)
    requires AllOneLine(a) && AllOneLine(b)
    ensures AllOneLine(a + b)
  {}

  /** Header lines are comments: one line each, starting with the comment mark. */
  predicate Comments(header: seq<string>) {
    AllOneLine(header) && forall i | 0 <= i < |header| :: header[i] != [] && header[i][0] == '#'
  }

  lemma LinesOfFile(header: seq<string>, desired: Desired)
    requires Comments(header) && forall p | p in desired :: ValidNames(desired[p])
    ensures Lines(Unlines(FileLines(header, desired))) == FileLines(header, desired)
  {
    BindingsOnOneLine(desired, Sorted(desired.Keys));
    AllOneLineAppend(header, BindingLines(desired, Sorted(desired.Keys)));
    LinesOfUnlines(FileLines(header, desired));
  }

  /** A line that starts with the comment mark has no words. */
  lemma CommentIsBlank(line: string)
    requires line != [] && line[0] == '#'
    ensures ParseLine(line) == Ok(None)
  {}

  lemma {:induction false} LoadHeader(header: seq<string>, policy: Policy)
    requires Comments(header)
    ensures LoadLines(header, policy) == Ok(map[])
    decreases |header|
  {
    if header != [] {
      var n := |header| - 1;
      LoadHeader(header[..n], policy);
      CommentIsBlank(header[n]);
    }
  }

  lemma PutOne(acc: Desired, p: Port, b: Binding, policy: Policy)
    ensures PutAll(acc, [p], b, policy) == Put(acc, p, b, policy)
  {
    FoldNext(PutStep(b, policy), acc, [p], 0);
    assert [p][..0] == [] && [p][..1] == [p];
  }

  function Restrict(desired: Desired, ports: seq<Port>): Desired {
    map p | p in ports && p in desired :: desired[p]
  }

  /** The line adds exactly this binding, to any state that does not have the port. */
  ghost predicate Adds(step: (Desired, string) -> Result<Desired>, line: string, p: Port, b: Binding) {
    forall acc: Desired | p !in acc :: step(acc, line) == Ok(acc[p := b])
  }

  lemma {:induction false} LoadAdding(
    step: (Desired, string) -> Result<Desired>, header: seq<string>, lines: seq<string>, desired: Desired,
    ports: seq<Port>, n: nat)
    requires Increasing(ports) && (forall p | p in ports :: p in desired) && n <= |ports| == |lines|
    requires Fold(step, map[], header) == Ok(map[])
    requires forall i | 0 <= i < n :: Adds(step, lines[i], ports[i], desired[ports[i]])
    ensures Fold(step, map[], Head(header, lines, n)) == Ok(Restrict(desired, ports[..n]))
  {
    if n == 0 {
      assert Head(header, lines, 0) == header;
      assert Restrict(desired, ports[..0]) == map[];
    } else {
      LoadAdding(step, header, lines, desired, ports, n - 1);
      HeadNext(header, lines, n - 1);
      var all := Head(header, lines, n);
      assert all[..|all| - 1] == Head(header, lines, n - 1) && all[|all| - 1] == lines[n - 1];
      RestrictNext(desired, ports, n);
      assert Adds(step, lines[n - 1], ports[n - 1], desired[ports[n - 1]]);
    }
  }

  lemma RestrictNext(desired: Desired, ports: seq<Port>, n: nat)
    requires 0 < n <= |ports| && Increasing(ports) && ports[n - 1] in desired
    ensures ports[n - 1] !in Restrict(desired, ports[..n - 1])
    ensures
      Restrict(desired, ports[..n]) == Restrict(desired, ports[..n - 1])[ports[n - 1] := desired[ports[n - 1]]]
  {}

  lemma {:induction false} PutAllKeeps(acc: Desired, ports: seq<Port>, b: Binding, policy: Policy)
    requires PutAll(acc, ports, b, policy).Ok?
    ensures
      var d := PutAll(acc, ports, b, policy).value;
      && (forall p | p in acc :: p in d && d[p] == acc[p])
      && (forall p | p in ports :: p in d && d[p] == b)
      && (forall p | p in d && p !in acc :: p in ports)
    decreases |ports|
  {
    if ports != [] {
      PutAllKeeps(acc, ports[..|ports| - 1], b, policy);
    }
  }

  lemma LineOfPort(header: seq<string>, desired: Desired, p: Port) returns (k: nat)
    requires p in desired
    ensures
      var lines := FileLines(header, desired);
      k < |lines| && lines[k] == PrintLine(p, desired[p])
  {
    var ports := Sorted(desired.Keys);
    var i :| 0 <= i < |ports| && ports[i] == p;
    var bodies := BindingLines(desired, ports);
    assert bodies[i] == PrintLine(p, desired[p]);
    k := AfterHeader(header, bodies, i);
  }

  lemma AfterHeader(header: seq<string>, bodies: seq<string>, i: nat) returns (k: nat)
    requires i < |bodies|
    ensures k < |header + bodies| && (header + bodies)[k] == bodies[i]
  {
    k := |header| + i;
  }

  /** What a file reads as when its bindings are written and read again. */
  function Reread(desired: Desired): Desired {
    map p | p in desired :: ReadBinding(desired[p])
  }

  predicate AllReadable(desired: Desired) {
    forall p | p in desired :: Readable(p, desired[p])
  }

  lemma PrintedAdds(p: Port, b: Binding, policy: Policy)
    requires Readable(p, b) && BindingAllowed(p, b, policy)
    ensures Adds(LineStep(policy), PrintLine(p, b), p, ReadBinding(b))
  {
    LineReadsAs(p, b);
    ReadAllowedIff(p, b, policy);
    forall acc: Desired | p !in acc
      ensures LineStep(policy)(acc, PrintLine(p, b)) == Ok(acc[p := ReadBinding(b)])
    {
      PutOne(acc, p, ReadBinding(b), policy);
    }
  }

  lemma LoadOwnFile(header: seq<string>, desired: Desired, policy: Policy)
    requires Comments(header)
    requires AllReadable(desired) && forall p | p in desired :: BindingAllowed(p, desired[p], policy)
    ensures LoadLines(FileLines(header, desired), policy) == Ok(Reread(desired))
  {
    var ports := Sorted(desired.Keys);
    var lines := BindingLines(desired, ports);
    forall i | 0 <= i < |ports|
      ensures Adds(LineStep(policy), lines[i], ports[i], Reread(desired)[ports[i]])
    {
      assert ports[i] in ports;
      PrintedAdds(ports[i], desired[ports[i]], policy);
    }
    LoadHeader(header, policy);
    LoadAdding(LineStep(policy), header, lines, Reread(desired), ports, |ports|);
    WholeHead(header, Reread(desired), lines, ports);
  }

  lemma BadLine(lines: seq<string>, policy: Policy, k: nat)
    requires k < |lines| && forall acc :: LoadLine(acc, lines[k], policy).Err?
    ensures LoadLines(lines, policy).Err?
  {
    if LoadLines(lines, policy).Ok? {
      var a := FoldPasses(LineStep(policy), map[], lines, k);
      assert false;
    }
  }

  lemma UnreadableSpoils(header: seq<string>, desired: Desired, policy: Policy, p: Port)
    requires p in desired && BindingAllowed(p, desired[p], policy) && !Readable(p, desired[p])
    ensures LoadLines(FileLines(header, desired), policy).Err?
  {
    var lines := FileLines(header, desired);
    var k := LineOfPort(header, desired, p);
    LineReadsAs(p, desired[p]);
    ReadAllowedIff(p, desired[p], policy);
    forall acc
      ensures LoadLine(acc, lines[k], policy).Err?
    {
      PutOne(acc, p, ReadBinding(desired[p]), policy);
    }
    BadLine(lines, policy, k);
  }

  /** The same ports for the same tenants use the same quotas. */
  lemma SameQuotas(d: Desired, e: Desired, tenant: string)
    requires d.Keys == e.Keys && forall p | p in d :: d[p].tenant == e[p].tenant
    ensures |d| == |e| && TenantPorts(d, tenant) == TenantPorts(e, tenant)
  {
    assert |d| == |d.Keys| && |e| == |e.Keys|;
  }

  lemma RereadIsAdmissible(desired: Desired, policy: Policy)
    requires Admissible(desired, policy) && AllReadable(desired)
    ensures Admissible(Reread(desired), policy)
  {
    var d := Reread(desired);
    RereadKeeps(desired);
    SameQuotas(desired, d, "");
    forall p | p in d
      ensures BindingAllowed(p, d[p], policy)
    {
      ReadAllowedIff(p, desired[p], policy);
    }
    forall p | p in d
      ensures |TenantPorts(d, d[p].tenant)| <= policy.maxPerTenant
    {
      SameQuotas(desired, d, d[p].tenant);
    }
  }

  lemma RereadKeeps(desired: Desired)
    ensures Reread(desired).Keys == desired.Keys
    ensures forall p | p in desired :: Reread(desired)[p] == ReadBinding(desired[p])
    ensures forall p | p in desired :: desired[p].tenant == Reread(desired)[p].tenant
  {}

  lemma WholeHead(header: seq<string>, desired: Desired, lines: seq<string>, ports: seq<Port>)
    requires |lines| == |ports| && forall p :: p in ports <==> p in desired
    ensures Head(header, lines, |ports|) == header + lines
    ensures Restrict(desired, ports[..|ports|]) == desired
  {}

  lemma ReadsUnder(header: seq<string>, desired: Desired, policy: Policy)
    requires Comments(header) && Admissible(desired, policy)
    ensures
      Load(Unlines(FileLines(header, desired)), policy) ==
        if AllReadable(desired) then Ok(Reread(desired)) else Err
  {
    LinesOfFile(header, desired);
    if AllReadable(desired) {
      LoadOwnFile(header, desired, policy);
      RereadIsAdmissible(desired, policy);
    } else {
      var p :| p in desired && !Readable(p, desired[p]);
      UnreadableSpoils(header, desired, policy, p);
    }
  }

  /** What any admissible state reads as once it is written: nothing, if some tenant holds a
      comment mark, some line is cut at the start of a field, or some port is 0; else the same
      ports, each with what is left of its binding. */
  lemma PrintedReadsAs(desired: Desired, policy: Policy)
    requires Admissible(desired, policy)
    ensures Load(Print(desired), policy) == if AllReadable(desired) then Ok(Reread(desired)) else Err
  {
    HeaderIsComments();
    ReadsUnder(HEADER, desired, policy);
  }

  lemma PrintableIff(desired: Desired)
    ensures AllReadable(desired) && Reread(desired) == desired <==> Printable(desired)
  {
    forall p | p in desired
      ensures Readable(p, desired[p]) && ReadBinding(desired[p]) == desired[p] <==> Faithful(p, desired[p])
    {
      FaithfulIff(p, desired[p]);
    }
    if Reread(desired) == desired {
      assert forall p | p in desired :: Reread(desired)[p] == desired[p];
    }
  }

  /** The file format is lossless for exactly the printable states: an admissible state,
      written and read back under its policy, is the same state if and only if every port
      is usable, every slot is one of the two, and no identity holds a comment mark. */
  lemma ReloadsIff(desired: Desired, policy: Policy)
    requires Admissible(desired, policy)
    ensures Load(Print(desired), policy) == Ok(desired) <==> Printable(desired)
  {
    PrintedReadsAs(desired, policy);
    PrintableIff(desired);
  }

  lemma HeaderIsComments()
    ensures Comments(HEADER)
  {
    TitleOnOneLine();
    ColumnsOnOneLine();
    CommentOfWords(TITLE);
    CommentOfWords(COLUMNS);
  }

  lemma TitleOnOneLine()
    ensures AllOneLine(TITLE)
  {}

  lemma ColumnsOnOneLine()
    ensures AllOneLine(COLUMNS)
  {}

  lemma CommentOfWords(ws: seq<string>)
    requires AllOneLine(ws) && ws != [] && ws[0] == "#"
    ensures Comments([Join(ws)])
  {
    JoinLacks(ws, '\n');
    JoinLacks(ws, '\r');
  }

  /** Whatever text is loaded, the result is printable: the reader never yields port 0, a
      third slot or a comment mark. So a state that was ever read can be written back. */
  lemma LoadedIsPrintable(text: string, policy: Policy)
    requires Load(text, policy).Ok?
    ensures Printable(Load(text, policy).value)
  {
    var step, lines := LineStep(policy), Lines(text);
    forall a, i | Printable(a) && 0 <= i < |lines| && step(a, lines[i]).Ok?
      ensures Printable(step(a, lines[i]).value)
    {
      LoadLinePrintable(a, lines[i], policy);
    }
    FoldKeeps(step, map[], lines, d => Printable(d));
  }

  lemma LoadLinePrintable(acc: Desired, raw: string, policy: Policy)
    requires Printable(acc) && LoadLine(acc, raw, policy).Ok?
    ensures Printable(LoadLine(acc, raw, policy).value)
  {
    var e := ParseLine(raw).value;
    if e.Some? {
      ParsedIsFaithful(raw);
      PutAllKeeps(acc, e.value.ports, e.value.binding, policy);
    }
  }

  predicate Unmarked(words: seq<string>) {
    forall i | 0 <= i < |words| :: '#' !in words[i]
  }

  lemma ParsedIsFaithful(raw: string)
    requires ParseLine(raw).Ok? && ParseLine(raw).value.Some?
    ensures
      var e := ParseLine(raw).value.value;
      forall p | p in e.ports :: Faithful(p, e.binding)
  {
    WordsUnmarked(Before(raw, '#'));
    FieldsFaithful(Words(Before(raw, '#')));
  }

  lemma FieldsFaithful(fields: seq<string>)
    requires Unmarked(fields) && ParseFields(fields).Ok? && ParseFields(fields).value.Some?
    ensures
      var e := ParseFields(fields).value.value;
      forall p | p in e.ports :: Faithful(p, e.binding)
  {
    ExtrasUnmarked(fields[3..]);
  }

  lemma {:induction false} WordsUnmarked(s: string)
    requires '#' !in s
    ensures Unmarked(Words(s))
    decreases |s|
  {
    var t := TrimStart(s);
    if t != [] {
      WordsUnmarked(t[Word(t)..]);
    }
  }

  predicate ExtraFaithful(e: Extras) {
    && e.slot <= REDIR_TLS
    && (e.cert.Some? ==> '#' !in e.cert.value) && (e.policy.Some? ==> '#' !in e.policy.value)
  }

  lemma ExtrasUnmarked(tokens: seq<string>)
    requires ParseExtras(tokens).Ok? && Unmarked(tokens)
    ensures ExtraFaithful(ParseExtras(tokens).value)
  {
    FoldKeeps(AddToken, NO_EXTRAS, tokens, e => ExtraFaithful(e));
  }
}
