/** What a `ports.conf` says, line by line, and that the reader returns exactly that. */
module FileMeaning {
  import opened Prelude
  import opened Text
  import opened Ports
  import opened PortPolicy
  import opened DesiredFile

  // ---- The extra fields of a line -----------------------------------------------------

  datatype Kind = TlsToken | CertToken | PolicyToken | OtherToken

  function KindOf(token: string): Kind {
    if token == "tls" then TlsToken
    else if "cert=" <= token then CertToken
    else if "policy=" <= token then PolicyToken
    else OtherToken
  }

  /** Only known tokens, and none of a kind twice. */
  predicate WellFormed(tokens: seq<string>) {
    && (forall i | 0 <= i < |tokens| :: !KindOf(tokens[i]).OtherToken?)
    && (forall i, j | 0 <= i < j < |tokens| :: KindOf(tokens[i]) != KindOf(tokens[j]))
  }

  predicate Has(tokens: seq<string>, kind: Kind) {
    exists i :: 0 <= i < |tokens| && KindOf(tokens[i]) == kind
  }

  /** `e` records exactly which kinds occur, and their values. */
  predicate Records(tokens: seq<string>, e: Extras) {
    && e.slot == (if Has(tokens, TlsToken) then REDIR_TLS else REDIR_PRIMARY)
    && (e.cert.Some? <==> Has(tokens, CertToken)) && (e.policy.Some? <==> Has(tokens, PolicyToken))
    && (forall i | 0 <= i < |tokens| && KindOf(tokens[i]).CertToken? :: e.cert == Some(tokens[i][5..]))
    && (forall i | 0 <= i < |tokens| && KindOf(tokens[i]).PolicyToken? :: e.policy == Some(tokens[i][7..]))
  }

  lemma HasNext(tokens: seq<string>, token: string, kind: Kind)
    ensures Has(tokens + [token], kind) <==> Has(tokens, kind) || KindOf(token) == kind
  {
    var all := tokens + [token];
    if Has(tokens, kind) {
      var i :| 0 <= i < |tokens| && KindOf(tokens[i]) == kind;
      assert KindOf(all[i]) == kind;
    }
    if KindOf(token) == kind {
      assert KindOf(all[|tokens|]) == kind;
    }
  }

  lemma WellFormedNext(tokens: seq<string>, token: string)
    ensures
      WellFormed(tokens + [token]) <==>
        WellFormed(tokens) && !KindOf(token).OtherToken? && !Has(tokens, KindOf(token))
  {
    var all := tokens + [token];
    if WellFormed(all) {
      assert KindOf(all[|tokens|]) == KindOf(token);
      forall i, j | 0 <= i < j < |tokens|
        ensures KindOf(tokens[i]) != KindOf(tokens[j])
      {
        assert KindOf(all[i]) != KindOf(all[j]);
      }
      forall i | 0 <= i < |tokens|
        ensures !KindOf(tokens[i]).OtherToken? && KindOf(tokens[i]) != KindOf(token)
      {
        assert KindOf(all[i]) != KindOf(all[|tokens|]);
      }
    }
  }

  lemma PrefixesDiffer(token: string)
    ensures "cert=" <= token ==> token != "tls" && !("policy=" <= token)
    ensures "policy=" <= token ==> token != "tls"
  {
    assert "cert=" <= token ==> token[0] == 'c';
    assert "policy=" <= token ==> token[0] == 'p';
    assert "tls"[0] == 't';
  }

  lemma AddTokenIff(tokens: seq<string>, e: Extras, token: string)
    requires Records(tokens, e)
    ensures AddToken(e, token).Ok? <==> !KindOf(token).OtherToken? && !Has(tokens, KindOf(token))
    ensures AddToken(e, token).Ok? ==> Records(tokens + [token], AddToken(e, token).value)
  {
    PrefixesDiffer(token);
    HasNext(tokens, token, TlsToken);
    HasNext(tokens, token, CertToken);
    HasNext(tokens, token, PolicyToken);
  }

  /** The extra fields are accepted exactly when each is known and no kind repeats, and then
      the result records exactly what they say. */
  lemma {:induction false} ExtrasIff(tokens: seq<string>)
    ensures ParseExtras(tokens).Ok? <==> WellFormed(tokens)
    ensures ParseExtras(tokens).Ok? ==> Records(tokens, ParseExtras(tokens).value)
    decreases |tokens|
  {
    if tokens != [] {
      var n := |tokens| - 1;
      ExtrasIff(tokens[..n]);
      assert tokens == tokens[..n] + [tokens[n]];
      WellFormedNext(tokens[..n], tokens[n]);
      if ParseExtras(tokens[..n]).Ok? {
        AddTokenIff(tokens[..n], ParseExtras(tokens[..n]).value, tokens[n]);
      }
    }
  }

  // ---- The file ---------------------------------------------------------------------

  /** The line gives `port` the binding `b`. */
  predicate Gives(raw: string, port: Port, b: Binding) {
    ParseLine(raw).Ok? && ParseLine(raw).value.Some?
    && port in ParseLine(raw).value.value.ports && ParseLine(raw).value.value.binding == b
  }

  /** The line can be read, and `d` has every binding it gives. */
  ghost predicate LineSays(raw: string, d: Desired) {
    ParseLine(raw).Ok? && forall p, b | Gives(raw, p, b) :: p in d && d[p] == b
  }

  predicate GivenBy(lines: seq<string>, p: Port, b: Binding) {
    exists k :: 0 <= k < |lines| && Gives(lines[k], p, b)
  }

  /** Every line can be read, `d` has every binding a line gives, and no other. */
  ghost predicate FileSays(lines: seq<string>, d: Desired) {
    && (forall k | 0 <= k < |lines| :: LineSays(lines[k], d))
    && (forall p | p in d :: GivenBy(lines, p, d[p]))
  }

  function Plus(acc: Desired, ports: seq<Port>, b: Binding): Desired {
    acc + map p | p in ports :: b
  }

  predicate AllPuttable(acc: Desired, ports: seq<Port>, b: Binding, policy: Policy) {
    forall p | p in ports :: BindingAllowed(p, b, policy) && (p in acc ==> acc[p] == b)
  }

  lemma PuttableNext(acc: Desired, ports: seq<Port>, port: Port, b: Binding, policy: Policy)
    ensures
      AllPuttable(acc, ports + [port], b, policy) <==>
        AllPuttable(acc, ports, b, policy) && BindingAllowed(port, b, policy) && (port in acc ==> acc[port] == b)
    ensures Plus(acc, ports + [port], b) == Plus(acc, ports, b)[port := b]
    ensures port in Plus(acc, ports, b) && Plus(acc, ports, b)[port] != b ==> port in acc && acc[port] != b
    ensures port in acc && acc[port] != b ==> port in ports || Plus(acc, ports, b)[port] == acc[port]
  {
    assert forall p :: p in ports + [port] <==> p in ports || p == port;
  }

  /** A line's ports go in together or not at all. */
  lemma {:induction false} PutAllIff(acc: Desired, ports: seq<Port>, b: Binding, policy: Policy)
    ensures PutAll(acc, ports, b, policy) == if AllPuttable(acc, ports, b, policy) then Ok(Plus(acc, ports, b)) else Err
    decreases |ports|
  {
    if ports == [] {
      assert Plus(acc, ports, b) == acc;
    } else {
      var n := |ports| - 1;
      PutAllIff(acc, ports[..n], b, policy);
      assert ports == ports[..n] + [ports[n]];
      PuttableNext(acc, ports[..n], ports[n], b, policy);
    }
  }

  lemma GivenByMore(lines: seq<string>, line: string, p: Port, b: Binding)
    ensures GivenBy(lines, p, b) ==> GivenBy(lines + [line], p, b)
    ensures Gives(line, p, b) ==> GivenBy(lines + [line], p, b)
  {
    var all := lines + [line];
    assert all[|lines|] == line;
    if GivenBy(lines, p, b) {
      var k :| 0 <= k < |lines| && Gives(lines[k], p, b);
      assert all[k] == lines[k];
    }
  }

  /** `next` has every binding of `acc`. */
  predicate Extends(acc: Desired, next: Desired) {
    forall p | p in acc :: p in next && next[p] == acc[p]
  }

  lemma SaysNext(lines: seq<string>, line: string, acc: Desired, next: Desired)
    requires FileSays(lines, acc) && LineSays(line, next) && Extends(acc, next)
    requires forall p | p in next && p !in acc :: Gives(line, p, next[p])
    ensures FileSays(lines + [line], next)
  {
    var all := lines + [line];
    forall k | 0 <= k < |all|
      ensures LineSays(all[k], next)
    {
      if k < |lines| {
        assert LineSays(lines[k], acc);
      }
    }
    forall p | p in next
      ensures GivenBy(all, p, next[p])
    {
      GivenByMore(lines, line, p, next[p]);
    }
  }

  /** One line more: the reader takes it exactly when every port it names is allowed and is
      not bound otherwise already. */
  lemma LineIff(acc: Desired, raw: string, policy: Policy)
    ensures
      LoadLine(acc, raw, policy).Ok? <==>
        ParseLine(raw).Ok?
        && forall p, b | Gives(raw, p, b) :: BindingAllowed(p, b, policy) && (p in acc ==> acc[p] == b)
    ensures LoadLine(acc, raw, policy).Ok? ==>
      var next := LoadLine(acc, raw, policy).value;
      && Extends(acc, next) && LineSays(raw, next)
      && (forall p | p in next && p !in acc :: Gives(raw, p, next[p]))
  {
    if ParseLine(raw).Ok? && ParseLine(raw).value.Some? {
      var e := ParseLine(raw).value.value;
      PutAllIff(acc, e.ports, e.binding, policy);
      assert forall p, b :: Gives(raw, p, b) <==> p in e.ports && b == e.binding;
    }
  }

  /** What the reader returns is what the lines say. */
  lemma {:induction false} LoadedIsSaid(lines: seq<string>, policy: Policy)
    requires LoadLines(lines, policy).Ok?
    ensures FileSays(lines, LoadLines(lines, policy).value)
    decreases |lines|
  {
    if lines != [] {
      var n := |lines| - 1;
      LoadedIsSaid(lines[..n], policy);
      var acc := LoadLines(lines[..n], policy).value;
      LineIff(acc, lines[n], policy);
      SaysNext(lines[..n], lines[n], acc, LoadLines(lines, policy).value);
      assert lines == lines[..n] + [lines[n]];
    }
  }

  ghost predicate LineAllowed(raw: string, policy: Policy) {
    forall p, b | Gives(raw, p, b) :: BindingAllowed(p, b, policy)
  }

  lemma NextIsTaken(acc: Desired, raw: string, policy: Policy, d: Desired)
    requires LineSays(raw, d) && LineAllowed(raw, policy) && Extends(acc, d)
    ensures LoadLine(acc, raw, policy).Ok? && Extends(LoadLine(acc, raw, policy).value, d)
  {
    LineIff(acc, raw, policy);
  }

  /** Lines that say something allowed are read to the end. */
  lemma {:induction false} SaidIsLoaded(lines: seq<string>, policy: Policy, d: Desired)
    requires forall k | 0 <= k < |lines| :: LineSays(lines[k], d) && LineAllowed(lines[k], policy)
    ensures LoadLines(lines, policy).Ok? && Extends(LoadLines(lines, policy).value, d)
    decreases |lines|
  {
    if lines != [] {
      var n := |lines| - 1;
      SaidIsLoaded(lines[..n], policy, d);
      NextIsTaken(LoadLines(lines[..n], policy).value, lines[n], policy, d);
    }
  }

  lemma SaidIsAllowed(raw: string, policy: Policy, d: Desired)
    requires LineSays(raw, d) && forall p | p in d :: BindingAllowed(p, d[p], policy)
    ensures LineAllowed(raw, policy)
  {}

  lemma SaysIsUnique(lines: seq<string>, a: Desired, b: Desired)
    requires FileSays(lines, a) && FileSays(lines, b)
    ensures a == b
  {
    OneInOther(lines, a, b);
    OneInOther(lines, b, a);
  }

  lemma OneInOther(lines: seq<string>, a: Desired, b: Desired)
    requires FileSays(lines, a) && FileSays(lines, b)
    ensures Extends(a, b)
  {}

  /** The reader returns `d` exactly when the lines say `d` and the policy admits it. In
      particular a file that binds one port in two ways is refused, and so is one with a line
      that cannot be read. */
  lemma LoadIff(text: string, policy: Policy, d: Desired)
    ensures Load(text, policy) == Ok(d) <==> FileSays(Lines(text), d) && Admissible(d, policy)
  {
    var lines := Lines(text);
    if FileSays(lines, d) && Admissible(d, policy) {
      forall k | 0 <= k < |lines|
        ensures LineAllowed(lines[k], policy)
      {
        SaidIsAllowed(lines[k], policy, d);
      }
      SaidIsLoaded(lines, policy, d);
      LoadedIsSaid(lines, policy);
      SaysIsUnique(lines, d, LoadLines(lines, policy).value);
    }
    if Load(text, policy) == Ok(d) {
      LoadedIsSaid(lines, policy);
    }
  }
}
