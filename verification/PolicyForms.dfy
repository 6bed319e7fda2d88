/** What a `policy.conf` means: which lines decide each set of ports and each quota, and how a
    line is laid out. */
module PolicyForms {
  import opened Prelude
  import opened Text
  import opened TextForms
  import opened Ports
  import opened PortForms
  import opened PortPolicy

  // ---- One line ---------------------------------------------------------------------

  /** A key and a value with blanks around both and a remark behind, read back. */
  lemma LaidSetting(
    r: Reading, first: string, key: string, gap: string, gap2: string, value: string, tail: string, remark: string)
    requires Blank(first) && Blank(gap) && Blank(gap2) && Blank(tail)
    requires IsWord(key) && '=' !in key && '#' !in key && '#' !in value
    requires value == "" || (!IsSpace(value[0]) && !IsSpace(value[|value| - 1]))
    requires remark == "" || remark[0] == '#'
    ensures PolicyLine(r, first + key + gap + "=" + gap2 + value + tail + remark) == Setting(r, key, value)
  {
    var line := first + key + gap + "=" + gap2 + value + tail;
    Unmarked(first, key, gap, gap2, value, tail);
    CutSetting(line, remark);
    if value == "" {
      EmptyParts(first, key, gap, gap2, tail);
    } else {
      FullParts(first, key, gap, gap2, value, tail);
    }
  }

  lemma Unmarked(first: string, key: string, gap: string, gap2: string, value: string, tail: string)
    requires Blank(first) && Blank(gap) && Blank(gap2) && Blank(tail) && '#' !in key && '#' !in value
    ensures '#' !in first + key + gap + "=" + gap2 + value + tail
  {
    SpacesNamed('#');
  }

  lemma CutSetting(line: string, remark: string)
    requires '#' !in line && (remark == "" || remark[0] == '#')
    ensures Before(line + remark, '#') == line
  {
    BeforeSkips(line, remark, '#');
    if remark != "" {
      IndexOfIs(remark, '#', 0);
    }
    assert line + "" == line;
  }

  /** A trimmed line split at its first equals sign. */
  predicate SplitsTo(line: string, key: string, value: string) {
    '=' in line && KeyOf(line) == key && ValueOf(line) == value
  }

  lemma SplitAtSign(left: string, right: string)
    requires '=' !in left
    ensures
      SplitsTo(left + "=" + right, Trim(left), Trim(right))
  {
    var line := left + "=" + right;
    assert line[|left|] == '=';
    assert line[..|left|] == left;
    IndexOfIs(line, '=', |left|);
    assert line[|left| + 1..] == right;
  }

  lemma KeyTrims(key: string, gap: string)
    requires IsWord(key) && '=' !in key && Blank(gap)
    ensures Trim(key + gap) == key && '=' !in key + gap
  {
    SpacesNamed('=');
    TrimAround("", key, gap);
    assert "" + key == key;
  }

  lemma FullParts(first: string, key: string, gap: string, gap2: string, value: string, tail: string)
    requires Blank(first) && Blank(gap) && Blank(gap2) && Blank(tail) && IsWord(key) && '=' !in key
    requires value != "" && !IsSpace(value[0]) && !IsSpace(value[|value| - 1])
    ensures
      var line := Trim(first + key + gap + "=" + gap2 + value + tail);
      line != [] && SplitsTo(line, key, value)
  {
    var core := (key + gap) + "=" + (gap2 + value);
    KeyTrims(key, gap);
    assert core[0] == key[0] && core[|core| - 1] == value[|value| - 1];
    assert first + key + gap + "=" + gap2 + value + tail == first + core + tail;
    TrimAround(first, core, tail);
    SplitAtSign(key + gap, gap2 + value);
    TrimAround(gap2, value, "");
    assert gap2 + value + "" == gap2 + value;
  }

  lemma EmptyParts(first: string, key: string, gap: string, gap2: string, tail: string)
    requires Blank(first) && Blank(gap) && Blank(gap2) && Blank(tail) && IsWord(key) && '=' !in key
    ensures
      var line := Trim(first + key + gap + "=" + gap2 + "" + tail);
      line != [] && SplitsTo(line, key, "")
  {
    var core := (key + gap) + "=" + "";
    SpacesNamed('=');
    KeyTrims(key, gap);
    assert core[0] == key[0] && core[|core| - 1] == '=';
    assert first + key + gap + "=" + gap2 + "" + tail == first + core + (gap2 + tail);
    TrimAround(first, core, gap2 + tail);
    SplitAtSign(key + gap, "");
    TrimNoSpace("");
  }

  // ---- What each setting does ---------------------------------------------------------

  /** The three lists: refused if some item is not usable, else the ports of the list are added to
      that set, and nothing else changes. The first `allow_privileged` starts from nothing. */
  lemma ListSettings(r: Reading, tokens: seq<Token>)
    requires tokens != [] && AllValid(tokens)
    ensures Setting(r, "deny", ListText(tokens)).Ok? <==> AllUsable(tokens)
    ensures Setting(r, "reserve", ListText(tokens)).Ok? <==> AllUsable(tokens)
    ensures ListText(tokens) != "" ==> (Setting(r, "allow_privileged", ListText(tokens)).Ok? <==> AllUsable(tokens))
    ensures AllUsable(tokens) ==>
      var p := Setting(r, "deny", ListText(tokens)).value.policy;
      p == r.policy.(deny := p.deny) && forall q :: q in p.deny <==> q in r.policy.deny || Names(tokens, q)
    ensures AllUsable(tokens) ==>
      var p := Setting(r, "reserve", ListText(tokens)).value.policy;
      p == r.policy.(reserve := p.reserve) && forall q :: q in p.reserve <==> q in r.policy.reserve || Names(tokens, q)
    ensures AllUsable(tokens) && ListText(tokens) != "" ==>
      var p := Setting(r, "allow_privileged", ListText(tokens)).value.policy;
      && p == r.policy.(allowPrivileged := p.allowPrivileged)
      && forall q :: q in p.allowPrivileged <==> (r.allowSeen && q in r.policy.allowPrivileged) || Names(tokens, q)
  {
    ListReads(tokens);
  }

  /** The two quotas. */
  lemma QuotaSettings(r: Reading, n: nat)
    requires n < USIZE_LIMIT
    ensures Setting(r, "max_ports_per_tenant", Decimal(n)) == Ok(r.(policy := r.policy.(maxPerTenant := n)))
    ensures Setting(r, "max_ports_per_machine", Decimal(n)) == Ok(r.(policy := r.policy.(maxPerMachine := n)))
  {
    DigitsAreTame(Decimal(n));
    TrimNoSpace(Decimal(n));
    ParseNatOfDecimal(n);
  }

  lemma OtherSettings(r: Reading, key: string, value: string)
    requires key != "deny" && key != "reserve" && key != "allow_privileged"
    requires key != "max_ports_per_tenant" && key != "max_ports_per_machine"
    ensures Setting(r, key, value).Err?
  {}

  // ---- The whole text ---------------------------------------------------------------

  /** Some line of this key names the port. */
  predicate NamedIn(lines: seq<string>, key: string, p: Port)
    decreases |lines|
  {
    lines != [] && (NamedIn(lines[..|lines| - 1], key, p) || NamesPort(lines[|lines| - 1], key, p))
  }

  lemma {:induction false} NamedAt(lines: seq<string>, key: string, p: Port, k: nat)
    requires k < |lines| && NamesPort(lines[k], key, p)
    ensures NamedIn(lines, key, p)
    decreases |lines|
  {
    if k < |lines| - 1 {
      NamedAt(lines[..|lines| - 1], key, p, k);
    }
  }

  lemma {:induction false} NamedBy(lines: seq<string>, key: string, p: Port) returns (k: nat)
    requires NamedIn(lines, key, p)
    ensures k < |lines| && NamesPort(lines[k], key, p)
    decreases |lines|
  {
    var n := |lines| - 1;
    if NamedIn(lines[..n], key, p) {
      k := NamedBy(lines[..n], key, p);
    } else {
      k := n;
    }
  }

  predicate Sets(raw: string, key: string) {
    var line := Trim(Before(raw, '#'));
    '=' in line && KeyOf(line) == key
  }

  function SizeSet(raw: string, otherwise: nat): nat {
    var line := Trim(Before(raw, '#'));
    if '=' !in line then otherwise
    else match ParseSize(ValueOf(line)) case Ok(n) => n case Err => otherwise
  }

  /** The number on the last line of this key. */
  function LastSize(lines: seq<string>, key: string, default: nat): nat
    decreases |lines|
  {
    if lines == [] then default
    else
      var before := LastSize(lines[..|lines| - 1], key, default);
      if Sets(lines[|lines| - 1], key) then SizeSet(lines[|lines| - 1], before) else before
  }

  /** What the reader has after some lines. */
  ghost predicate DecidedBy(r: Reading, lines: seq<string>) {
    && (forall p: Port :: p in r.policy.deny <==> p in {22, 25, 53, 3306, 6379} || NamedIn(lines, "deny", p))
    && (forall p: Port :: p in r.policy.reserve <==> NamedIn(lines, "reserve", p))
    && (forall p: Port :: p in r.policy.allowPrivileged <==> NamedIn(lines, "allow_privileged", p))
    && (!r.allowSeen ==> r.policy.allowPrivileged == {})
    && r.policy.maxPerTenant == LastSize(lines, "max_ports_per_tenant", 32)
    && r.policy.maxPerMachine == LastSize(lines, "max_ports_per_machine", 128)
  }

  lemma EmptyListNamesNone(p: Port)
    ensures !Lists("", p)
  {
    SplitNone("", ',');
    assert [""][1..] == [];
    assert ParsePortToken("") == Ok([]) && ParseTokens([]) == Ok([]);
  }

  lemma SettingStep(r: Reading, key: string, value: string)
    requires Setting(r, key, value).Ok? && (!r.allowSeen ==> r.policy.allowPrivileged == {})
    ensures
      var out := Setting(r, key, value).value;
      && (forall p: Port :: p in out.policy.deny <==> p in r.policy.deny || (key == "deny" && Lists(value, p)))
      && (forall p: Port :: p in out.policy.reserve <==> p in r.policy.reserve || (key == "reserve" && Lists(value, p)))
      && (forall p: Port :: p in out.policy.allowPrivileged <==>
            p in r.policy.allowPrivileged || (key == "allow_privileged" && Lists(value, p)))
      && (!out.allowSeen ==> out.policy.allowPrivileged == {})
    ensures
      var out := Setting(r, key, value).value.policy;
      && (key == "max_ports_per_tenant" || key == "max_ports_per_machine" ==> ParseSize(value).Ok?)
      && out.maxPerTenant ==
           (if key == "max_ports_per_tenant" then ParseSize(value).value else r.policy.maxPerTenant)
      && out.maxPerMachine ==
           (if key == "max_ports_per_machine" then ParseSize(value).value else r.policy.maxPerMachine)
  {
    forall p: Port
      ensures !Lists("", p)
    {
      EmptyListNamesNone(p);
    }
  }

  /** One line: what it does to the sets and quotas, in terms of the line. */
  ghost predicate LineDoes(r: Reading, raw: string, out: Reading) {
    && (forall p: Port :: p in out.policy.deny <==> p in r.policy.deny || NamesPort(raw, "deny", p))
    && (forall p: Port :: p in out.policy.reserve <==> p in r.policy.reserve || NamesPort(raw, "reserve", p))
    && (forall p: Port :: p in out.policy.allowPrivileged <==>
          p in r.policy.allowPrivileged || NamesPort(raw, "allow_privileged", p))
    && (!out.allowSeen ==> out.policy.allowPrivileged == {})
    && out.policy.maxPerTenant ==
         (if Sets(raw, "max_ports_per_tenant") then SizeSet(raw, r.policy.maxPerTenant) else r.policy.maxPerTenant)
    && out.policy.maxPerMachine ==
         (if Sets(raw, "max_ports_per_machine") then SizeSet(raw, r.policy.maxPerMachine) else r.policy.maxPerMachine)
  }

  lemma BlankLineDoes(r: Reading, raw: string)
    requires Trim(Before(raw, '#')) == [] && (!r.allowSeen ==> r.policy.allowPrivileged == {})
    ensures PolicyLine(r, raw) == Ok(r) && LineDoes(r, raw, r)
  {
    forall key: string, p: Port
      ensures !NamesPort(raw, key, p)
    {}
  }

  lemma NamesIff(raw: string, line: string, key: string, p: Port)
    requires line == Trim(Before(raw, '#')) && '=' in line
    ensures NamesPort(raw, key, p) <==> KeyOf(line) == key && Lists(ValueOf(line), p)
  {}

  lemma SetsIff(raw: string, line: string, key: string, otherwise: nat)
    requires line == Trim(Before(raw, '#')) && '=' in line
    ensures Sets(raw, key) <==> KeyOf(line) == key
    ensures ParseSize(ValueOf(line)).Ok? ==> SizeSet(raw, otherwise) == ParseSize(ValueOf(line)).value
  {}

  lemma SettingLineDoes(r: Reading, raw: string, line: string, out: Reading)
    requires line == Trim(Before(raw, '#')) && '=' in line && Setting(r, KeyOf(line), ValueOf(line)) == Ok(out)
    requires !r.allowSeen ==> r.policy.allowPrivileged == {}
    ensures LineDoes(r, raw, out)
  {
    var key, value := KeyOf(line), ValueOf(line);
    SettingStep(r, key, value);
    SetsIff(raw, line, "max_ports_per_tenant", r.policy.maxPerTenant);
    SetsIff(raw, line, "max_ports_per_machine", r.policy.maxPerMachine);
    forall p: Port
      ensures NamesPort(raw, "deny", p) <==> key == "deny" && Lists(value, p)
      ensures NamesPort(raw, "reserve", p) <==> key == "reserve" && Lists(value, p)
      ensures NamesPort(raw, "allow_privileged", p) <==> key == "allow_privileged" && Lists(value, p)
    {
      NamesIff(raw, line, "deny", p);
      NamesIff(raw, line, "reserve", p);
      NamesIff(raw, line, "allow_privileged", p);
    }
  }

  lemma LineStepDoes(r: Reading, raw: string)
    requires PolicyLine(r, raw).Ok? && (!r.allowSeen ==> r.policy.allowPrivileged == {})
    ensures LineDoes(r, raw, PolicyLine(r, raw).value)
  {
    var line := Trim(Before(raw, '#'));
    if line == [] {
      BlankLineDoes(r, raw);
    } else {
      SettingLineDoes(r, raw, line, PolicyLine(r, raw).value);
    }
  }

  lemma Decides(r: Reading, out: Reading, lines: seq<string>)
    requires lines != [] && DecidedBy(r, lines[..|lines| - 1]) && LineDoes(r, lines[|lines| - 1], out)
    ensures DecidedBy(out, lines)
  {
    forall p: Port
      ensures p in out.policy.deny <==> p in {22, 25, 53, 3306, 6379} || NamedIn(lines, "deny", p)
      ensures p in out.policy.reserve <==> NamedIn(lines, "reserve", p)
      ensures p in out.policy.allowPrivileged <==> NamedIn(lines, "allow_privileged", p)
    {}
  }

  lemma {:induction false} PolicyIs(lines: seq<string>)
    requires Fold(PolicyLine, Reading(DEFAULT_POLICY, false), lines).Ok?
    ensures DecidedBy(Fold(PolicyLine, Reading(DEFAULT_POLICY, false), lines).value, lines)
    decreases |lines|
  {
    if lines != [] {
      var n := |lines| - 1;
      PolicyIs(lines[..n]);
      var r := Fold(PolicyLine, Reading(DEFAULT_POLICY, false), lines[..n]).value;
      LineStepDoes(r, lines[n]);
      Decides(r, PolicyLine(r, lines[n]).value, lines);
    }
  }

  /** Whatever is read from a text: a port is denied exactly if it is by default or some line says
      so, reserved or allowed exactly if some line says so, and the last line decides a quota. */
  lemma PolicyTextIs(raw: string)
    requires ReadPolicy(raw).Ok?
    ensures DecidedBy(ReadPolicy(raw).value, Lines(raw))
  {
    PolicyIs(Lines(raw));
  }

  /** Hence which bindings a text allows: those with names, on ports that are not denied by default,
      on no `deny` or `reserve` line, and, up to 1023, on some `allow_privileged` line. */
  lemma AllowedByText(raw: string, port: Port, b: Binding)
    requires ReadPolicy(raw).Ok?
    ensures
      BindingAllowed(port, b, ReadPolicy(raw).value.policy) <==>
        && IsWord(b.tenant) && IsWord(b.site)
        && (b.cert.Some? ==> IsWord(b.cert.value)) && (b.policy.Some? ==> IsWord(b.policy.value))
        && port !in {22, 25, 53, 3306, 6379}
        && !NamedIn(Lines(raw), "deny", port) && !NamedIn(Lines(raw), "reserve", port)
        && (port <= 1023 ==> NamedIn(Lines(raw), "allow_privileged", port))
  {
    PolicyTextIs(raw);
  }
}
