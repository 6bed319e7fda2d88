/** What a written port list means: single ports, ranges and empty places, with blanks around
    them, between commas. */
module PortForms {
  import opened Prelude
  import opened Text
  import opened TextForms
  import opened Ports

  datatype Item = Nothing | One(p: Port) | Span(first: Port, gap: string, gap2: string, last: Port) {
    predicate Valid() {
      Span? ==> Blank(gap) && Blank(gap2)
    }

    predicate Tight() {
      Span? ==> gap == "" && gap2 == ""
    }

    predicate Usable() {
      match this
      case Nothing => true
      case One(p) => p != 0
      case Span(first, _, _, last) => 0 < first <= last
    }

    function Text(): string {
      match this
      case Nothing => ""
      case One(p) => Decimal(p)
      case Span(first, gap, gap2, last) => Decimal(first) + gap + "-" + gap2 + Decimal(last)
    }

    predicate Has(p: Port) {
      match this
      case Nothing => false
      case One(q) => p == q
      case Span(first, _, _, last) => first <= p <= last
    }
  }

  /** An item with the blanks before and after it. */
  datatype Token = Token(before: string, item: Item, after: string) {
    predicate Valid() {
      Blank(before) && Blank(after) && item.Valid()
    }

    function Text(): string {
      before + item.Text() + after
    }
  }

  function ListText(tokens: seq<Token>): string
    requires tokens != []
    decreases |tokens|
  {
    if |tokens| == 1 then tokens[0].Text() else tokens[0].Text() + "," + ListText(tokens[1..])
  }

  predicate Names(tokens: seq<Token>, p: Port) {
    exists i :: 0 <= i < |tokens| && tokens[i].item.Has(p)
  }

  predicate AllUsable(tokens: seq<Token>) {
    forall i | 0 <= i < |tokens| :: tokens[i].item.Usable()
  }

  predicate AllValid(tokens: seq<Token>) {
    forall i | 0 <= i < |tokens| :: tokens[i].Valid()
  }

  lemma BlankHasNoComma(s: string)
    requires Blank(s)
    ensures ',' !in s && '-' !in s && '=' !in s && '#' !in s
  {
    SpacesNamed(',');
  }

  lemma DigitsAtEnds(s: string)
    requires AllDigits(s) && s != ""
    ensures !IsSpace(s[0]) && !IsSpace(s[|s| - 1])
  {
    DigitsAreTame(s);
  }

  lemma ItemIsTame(item: Item)
    requires item.Valid()
    ensures
      var s := item.Text();
      && (s == "" || (!IsSpace(s[0]) && !IsSpace(s[|s| - 1])))
      && ',' !in s && '#' !in s && ('-' in s <==> item.Span?) && (s == "" <==> item.Nothing?)
    ensures item.Tight() ==> NoSpace(item.Text()) && '\n' !in item.Text() && '\r' !in item.Text()
  {
    match item
    case Nothing =>
    case One(p) =>
      DigitsAreTame(Decimal(p));
    case Span(first, gap, gap2, last) =>
      SpanIsTame(Decimal(first), gap, gap2, Decimal(last));
  }

  lemma SpanIsTame(a: string, gap: string, gap2: string, b: string)
    requires AllDigits(a) && AllDigits(b) && a != "" && b != "" && Blank(gap) && Blank(gap2)
    ensures
      var s := a + gap + "-" + gap2 + b;
      && s != "" && !IsSpace(s[0]) && !IsSpace(s[|s| - 1]) && ',' !in s && '#' !in s && '-' in s
      && (gap == "" && gap2 == "" ==> NoSpace(s) && '\n' !in s && '\r' !in s)
  {
    DigitsAreTame(a);
    DigitsAreTame(b);
    BlankHasNoComma(gap);
    BlankHasNoComma(gap2);
    SpacesNamed('-');
    var s := a + gap + "-" + gap2 + b;
    assert s[0] == a[0] && s[|s| - 1] == b[|b| - 1] && s[|a| + |gap|] == '-';
  }

  lemma TokenReads(token: Token)
    requires token.Valid()
    ensures ',' !in token.Text()
    ensures ParsePortToken(token.Text()).Ok? <==> token.item.Usable()
    ensures
      ParsePortToken(token.Text()).Ok? ==>
        forall p :: p in ParsePortToken(token.Text()).value <==> token.item.Has(p)
  {
    var core := token.item.Text();
    ItemIsTame(token.item);
    BlankHasNoComma(token.before);
    BlankHasNoComma(token.after);
    TrimAround(token.before, core, token.after);
    CoreReads(token.item);
    TrimCore(core);
    SameToken(token.Text(), core);
  }

  lemma TrimCore(s: string)
    requires s == "" || (!IsSpace(s[0]) && !IsSpace(s[|s| - 1]))
    ensures Trim(s) == s
  {
    TrimAround("", s, "");
    assert "" + s + "" == s;
  }

  lemma SameToken(a: string, b: string)
    requires Trim(a) == b == Trim(b)
    ensures ParsePortToken(a) == ParsePortToken(b)
  {}

  /** The bounds of a range may have blanks on the inside. */
  lemma SpanReads(first: Port, gap: string, gap2: string, last: Port)
    requires Blank(gap) && Blank(gap2)
    ensures
      ParsePortRange(Decimal(first) + gap + "-" + gap2 + Decimal(last)) ==
        if first == 0 || last < first then Err else Ok(Interval(first, last))
  {
    var s := Decimal(first) + gap + "-" + gap2 + Decimal(last);
    SpanIsTame(Decimal(first), gap, gap2, Decimal(last));
    TrimCore(s);
    BoundReads(first, gap);
    BoundReads(last, gap2);
    BoundsApart(first, gap, gap2, last);
    SpanText(Decimal(first), gap, gap2, Decimal(last));
    RangeSplits(s, Decimal(first) + gap, gap2 + Decimal(last));
  }

  lemma SpanText(a: string, gap: string, gap2: string, b: string)
    ensures a + gap + "-" + gap2 + b == (a + gap) + ['-'] + (gap2 + b)
  {}

  lemma BoundReads(p: Port, gap: string)
    requires Blank(gap)
    ensures ParsePortNumber(Decimal(p) + gap) == ParsePortNumber(gap + Decimal(p)) == if p == 0 then Err else Ok(p)
  {
    NoneAround(Decimal(p), gap);
    NumberWithGap(p, "", gap);
    NumberWithGap(p, gap, "");
  }

  lemma NoneAround(s: string, gap: string)
    ensures "" + s + gap == s + gap && gap + s + "" == gap + s
  {}

  lemma NumberWithGap(p: Port, before: string, after: string)
    requires Blank(before) && Blank(after)
    ensures ParsePortNumber(before + Decimal(p) + after) == if p == 0 then Err else Ok(p)
  {
    DigitsAtEnds(Decimal(p));
    TrimAround(before, Decimal(p), after);
    ParseNatOfDecimal(p);
  }

  lemma BoundsApart(first: Port, gap: string, gap2: string, last: Port)
    requires Blank(gap) && Blank(gap2)
    ensures '-' !in Decimal(first) + gap && '-' !in gap2 + Decimal(last)
  {
    DigitsAreTame(Decimal(first));
    DigitsAreTame(Decimal(last));
    BlankHasNoComma(gap);
    BlankHasNoComma(gap2);
  }

  lemma RangeSplits(s: string, a: string, b: string)
    requires s == a + ['-'] + b && Trim(s) == s && a != [] && b != [] && '-' !in a && '-' !in b
    ensures
      ParsePortRange(s) ==
        match (ParsePortNumber(a), ParsePortNumber(b))
        case (Ok(x), Ok(y)) => if y < x then Err else Ok(Interval(x, y))
        case _ => Err
  {
    FirstDash(s, a, b);
  }

  lemma FirstDash(s: string, a: string, b: string)
    requires s == a + ['-'] + b && '-' !in a
    ensures '-' in s && Before(s, '-') == a && s[IndexOf(s, '-') + 1..] == b
  {
    assert s[|a|] == '-';
    IndexOfIs(s, '-', |a|);
    assert s[..|a|] == a && s[|a| + 1..] == b;
  }

  /** Ports are the numbers from 1 to 65535. */
  lemma NumberIs(n: nat)
    ensures ParsePortNumber(Decimal(n)).Ok? <==> 1 <= n <= 65535
    ensures ParsePortNumber(Decimal(n)).Ok? ==> ParsePortNumber(Decimal(n)).value == n
  {
    DigitsAreTame(Decimal(n));
    TrimNoSpace(Decimal(n));
    ParseNatOfDecimal(n);
  }

  lemma CoreReads(item: Item)
    requires item.Valid()
    ensures ParsePortToken(item.Text()).Ok? <==> item.Usable()
    ensures
      ParsePortToken(item.Text()).Ok? ==> forall p :: p in ParsePortToken(item.Text()).value <==> item.Has(p)
  {
    ItemIsTame(item);
    TrimCore(item.Text());
    match item
    case Nothing =>
    case One(p) => NumberOfDecimal(p);
    case Span(first, gap, gap2, last) => SpanReads(first, gap, gap2, last);
  }

  /** The text is accepted exactly when every item is usable, and then gives exactly the ports that
      the items name. */
  predicate ReadsAs(text: string, tokens: seq<Token>) {
    && (ParsePortList(text).Ok? <==> AllUsable(tokens))
    && (ParsePortList(text).Ok? ==> forall p :: p in ParsePortList(text).value <==> Names(tokens, p))
  }

  /** A list is accepted exactly when every item is usable, and then gives exactly the ports that
      its items name. */
  lemma {:induction false} ListReads(tokens: seq<Token>)
    requires tokens != [] && AllValid(tokens)
    ensures ReadsAs(ListText(tokens), tokens)
    decreases |tokens|
  {
    TokenReads(tokens[0]);
    if |tokens| == 1 {
      OneToken(tokens[0].Text());
    } else {
      ListReads(tokens[1..]);
      TokenThenList(tokens, ListText(tokens[1..]));
    }
  }

  lemma TokenThenList(tokens: seq<Token>, rest: string)
    requires tokens != [] && tokens[0].Valid() && ReadsAs(rest, tokens[1..])
    ensures ReadsAs(tokens[0].Text() + "," + rest, tokens)
  {
    TokenReads(tokens[0]);
    ListInParts(tokens[0].Text(), rest);
    forall p
      ensures Names(tokens, p) <==> tokens[0].item.Has(p) || Names(tokens[1..], p)
    {
      NamesFirst(tokens, p);
    }
    assert AllUsable(tokens) <==> tokens[0].item.Usable() && AllUsable(tokens[1..]);
  }

  lemma NamesFirst(tokens: seq<Token>, p: Port)
    requires tokens != []
    ensures Names(tokens, p) <==> tokens[0].item.Has(p) || Names(tokens[1..], p)
  {
    if i :| 0 <= i < |tokens[1..]| && tokens[1..][i].item.Has(p) {
      assert tokens[i + 1].item.Has(p);
    }
    if i :| 0 <= i < |tokens| && tokens[i].item.Has(p) {
      assert i > 0 ==> tokens[1..][i - 1].item.Has(p);
    }
  }

  lemma OneToken(s: string)
    requires ',' !in s
    ensures ParsePortList(s).Ok? <==> ParsePortToken(s).Ok?
    ensures ParsePortList(s).Ok? ==> ParsePortList(s).value == ParsePortToken(s).value
  {
    SplitNone(s, ',');
    assert ParseTokens([]) == Ok([]) && [s][1..] == [];
    if ParsePortToken(s).Ok? {
      assert ParsePortToken(s).value + [] == ParsePortToken(s).value;
    }
  }

  /** A list without blanks, as it stands in a field of a line. */
  predicate Tight(tokens: seq<Token>) {
    forall i | 0 <= i < |tokens| :: tokens[i].before == "" && tokens[i].after == "" && tokens[i].item.Tight()
  }

  lemma {:induction false} TightIsWord(tokens: seq<Token>)
    requires tokens != [] && Tight(tokens)
    ensures NoSpace(ListText(tokens)) && '#' !in ListText(tokens)
    ensures '\n' !in ListText(tokens) && '\r' !in ListText(tokens)
    decreases |tokens|
  {
    ItemIsTame(tokens[0].item);
    SpacesNamed(',');
    if |tokens| > 1 {
      TightIsWord(tokens[1..]);
    }
  }
}
