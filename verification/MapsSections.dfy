/** Merging the duplicate `.maps` sections of the object file into the first one. */
module MapsSections {
  import opened Prelude
  import opened BtfStrings

  const PROGBITS := 1
  const SYMBOL_SIZE := 24
  const WORD_LIMIT := 0x1_0000_0000_0000_0000

  datatype SectionRest = SectionRest(flags: nat, addr: nat, link: nat, info: nat, align: nat, entsize: nat)

  datatype Section = Section(name: nat, kind: nat, offset: nat, size: nat, rest: SectionRest)

  datatype SymbolRest = SymbolRest(name: nat, info: nat, other: nat, size: nat)

  datatype Symbol = Symbol(shndx: nat, value: nat, rest: SymbolRest)

  /** The indices of the `.maps` sections, in order. */
  predicate Indices(maps: seq<nat>, count: nat) {
    (forall i | 0 <= i < |maps| :: maps[i] < count) && (forall i, j | 0 <= i < j < |maps| :: maps[i] < maps[j])
  }

  /** The size of the first `n` of them together. */
  function Total(sections: seq<Section>, maps: seq<nat>, n: nat): nat
    requires Indices(maps, |sections|) && n <= |maps|
  {
    if n == 0 then 0 else Total(sections, maps, n - 1) + sections[maps[n - 1]].size
  }

  predicate Joins(sections: seq<Section>, maps: seq<nat>, n: nat)
    requires Indices(maps, |sections|) && 0 < n < |maps|
  {
    && sections[maps[n]].kind == PROGBITS
    && sections[maps[n]].offset == sections[maps[0]].offset + Total(sections, maps, n)
  }

  /** Program data, one directly after the other in the file. */
  predicate Adjacent(sections: seq<Section>, maps: seq<nat>)
    requires Indices(maps, |sections|) && maps != []
  {
    sections[maps[0]].kind == PROGBITS && forall n | 0 < n < |maps| :: Joins(sections, maps, n)
  }

  // ---- What the merge makes of a symbol and of a section -------------------------------

  /** The symbol after the first `n` sections have been merged. */
  function Moved(sections: seq<Section>, maps: seq<nat>, n: nat, s: Symbol): Symbol
    requires Indices(maps, |sections|) && 0 < n <= |maps|
  {
    if i :| 0 < i < n && maps[i] == s.shndx then Symbol(maps[0], s.value + Total(sections, maps, i), s.rest) else s
  }

  /** Section header `k` at the end. */
  function Merged(sections: seq<Section>, maps: seq<nat>, k: nat): Section
    requires Indices(maps, |sections|) && maps != [] && k < |sections|
  {
    if k == maps[0] then sections[k].(size := Total(sections, maps, |maps|))
    else if k in maps then sections[k].(name := 0)
    else sections[k]
  }

  function MoveOne(first: nat, extra: nat, shift: nat, s: Symbol): Symbol {
    if s.shndx == extra then Symbol(first, s.value + shift, s.rest) else s
  }

  lemma MovedNext(sections: seq<Section>, maps: seq<nat>, n: nat, s: Symbol)
    requires Indices(maps, |sections|) && 0 < n < |maps|
    ensures
      Moved(sections, maps, n + 1, s) ==
        MoveOne(maps[0], maps[n], Total(sections, maps, n), Moved(sections, maps, n, s))
    ensures Moved(sections, maps, n, s).shndx == maps[n] <==> s.shndx == maps[n]
  {}

  /** The moved value of every symbol still fits its field, and so does the merged size. */
  predicate Fitting(sections: seq<Section>, symbols: seq<Symbol>, maps: seq<nat>, n: nat)
    requires Indices(maps, |sections|) && n <= |maps|
  {
    forall i, k | 0 < i < n && 0 <= k < |symbols| && symbols[k].shndx == maps[i] ::
      symbols[k].value + Total(sections, maps, i) < WORD_LIMIT
  }

  predicate SymtabFits(sections: seq<Section>, symtab: Option<nat>) {
    symtab.Some? && symtab.value < |sections|
    && sections[symtab.value].rest.entsize >= SYMBOL_SIZE && sections[symtab.value].size % SYMBOL_SIZE == 0
  }

  /** When a merge goes through. */
  predicate Mergeable(sections: seq<Section>, symbols: seq<Symbol>, maps: seq<nat>, symtab: Option<nat>)
    requires Indices(maps, |sections|) && maps != []
  {
    && Adjacent(sections, maps) && SymtabFits(sections, symtab)
    && Fitting(sections, symbols, maps, |maps|) && Total(sections, maps, |maps|) < WORD_LIMIT
  }

  /** In numbers: the sections are program data back to back, symbols take 24 bytes each, and every
      new value and the new size fit 64 bits. */
  lemma MergeableIs(sections: seq<Section>, symbols: seq<Symbol>, maps: seq<nat>, symtab: Option<nat>)
    requires Indices(maps, |sections|) && maps != []
    ensures
      Mergeable(sections, symbols, maps, symtab) <==>
        && (forall i | 0 <= i < |maps| :: sections[maps[i]].kind == 1)
        && Chained(sections, maps)
        && symtab.Some? && symtab.value < |sections|
        && sections[symtab.value].rest.entsize >= 24 && sections[symtab.value].size % 24 == 0
        && (forall i, k | 0 < i < |maps| && 0 <= k < |symbols| && symbols[k].shndx == maps[i] ::
              symbols[k].value + (sections[maps[i]].offset - sections[maps[0]].offset) < 0x1_0000_0000_0000_0000)
        && sections[maps[|maps| - 1]].offset + sections[maps[|maps| - 1]].size - sections[maps[0]].offset
             < 0x1_0000_0000_0000_0000
  {
    AdjacentIs(sections, maps);
    if Chained(sections, maps) {
      forall i | 0 <= i < |maps|
        ensures sections[maps[i]].offset == sections[maps[0]].offset + Total(sections, maps, i)
      {
        BackToBack(sections, maps, i);
      }
    }
  }

  /** Each section starts where the one before it ends. */
  predicate Chained(sections: seq<Section>, maps: seq<nat>)
    requires Indices(maps, |sections|)
  {
    forall i | 0 < i < |maps| ::
      sections[maps[i]].offset == sections[maps[i - 1]].offset + sections[maps[i - 1]].size
  }

  lemma AdjacentIs(sections: seq<Section>, maps: seq<nat>)
    requires Indices(maps, |sections|) && maps != []
    ensures
      Adjacent(sections, maps) <==>
        Chained(sections, maps) && forall i | 0 <= i < |maps| :: sections[maps[i]].kind == 1
  {
    if Chained(sections, maps) {
      forall i | 0 <= i < |maps|
        ensures sections[maps[i]].offset == sections[maps[0]].offset + Total(sections, maps, i)
      {
        BackToBack(sections, maps, i);
      }
    }
    if Adjacent(sections, maps) {
      forall i | 0 < i < |maps|
        ensures sections[maps[i]].kind == 1
        ensures sections[maps[i]].offset == sections[maps[i - 1]].offset + sections[maps[i - 1]].size
      {
        assert Joins(sections, maps, i);
        assert i > 1 ==> Joins(sections, maps, i - 1);
        assert Total(sections, maps, i) == Total(sections, maps, i - 1) + sections[maps[i - 1]].size;
      }
    }
  }

  lemma {:induction false} BackToBack(sections: seq<Section>, maps: seq<nat>, n: nat)
    requires Indices(maps, |sections|) && n < |maps| && Chained(sections, maps)
    ensures sections[maps[n]].offset == sections[maps[0]].offset + Total(sections, maps, n)
    decreases n
  {
    if n > 0 {
      BackToBack(sections, maps, n - 1);
    }
  }

  /** The inner loop: symbols of section `extra` go to `first`, `shift` further on. */
  method MoveSymbols(symbols: array<Symbol>, first: nat, extra: nat, shift: nat) returns (ok: bool)
    modifies symbols
    ensures ok <==> forall k | 0 <= k < symbols.Length ::
      old(symbols[k]).shndx == extra ==> old(symbols[k]).value + shift < WORD_LIMIT
    ensures ok ==> forall k | 0 <= k < symbols.Length :: symbols[k] == MoveOne(first, extra, shift, old(symbols[k]))
  {
    for k := 0 to symbols.Length
      invariant forall j | 0 <= j < k ::
        && symbols[j] == MoveOne(first, extra, shift, old(symbols[j]))
        && (old(symbols[j]).shndx == extra ==> old(symbols[j]).value + shift < WORD_LIMIT)
      invariant forall j | k <= j < symbols.Length :: symbols[j] == old(symbols[j])
    {
      var s := symbols[k];
      if s.shndx == extra {
        if s.value + shift >= WORD_LIMIT {
          return false;
        }
        symbols[k] := Symbol(first, s.value + shift, s.rest);
      }
    }
    return true;
  }

  /** Headers after the first `n` sections have been merged; the first is written last. */
  function Hidden(sections: seq<Section>, maps: seq<nat>, n: nat, k: nat): Section
    requires k < |sections| && n <= |maps|
  {
    if k in maps[..n] && k != maps[0] then sections[k].(name := 0) else sections[k]
  }

  /** Half way through: `n` sections are merged. */
  ghost predicate Merging(
    sections: seq<Section>, symbols: seq<Symbol>, maps: seq<nat>, n: nat, now: seq<Section>, syms: seq<Symbol>)
    requires Indices(maps, |sections|) && 0 < n <= |maps|
  {
    && |now| == |sections| && |syms| == |symbols|
    && (forall k | 0 <= k < |now| :: now[k] == Hidden(sections, maps, n, k))
    && (forall k | 0 <= k < |syms| :: syms[k] == Moved(sections, maps, n, symbols[k]))
    && (forall i | 0 < i < n :: Joins(sections, maps, i))
    && Fitting(sections, symbols, maps, n)
  }

  lemma MergingNext(sections: seq<Section>, symbols: seq<Symbol>, maps: seq<nat>, n: nat,
                    now: seq<Section>, syms: seq<Symbol>, now': seq<Section>, syms': seq<Symbol>)
    requires Indices(maps, |sections|) && 0 < n < |maps| && Merging(sections, symbols, maps, n, now, syms)
    requires Joins(sections, maps, n)
    requires now' == now[maps[n] := now[maps[n]].(name := 0)] && |syms'| == |syms|
    requires forall k | 0 <= k < |syms| :: syms'[k] == MoveOne(maps[0], maps[n], Total(sections, maps, n), syms[k])
    requires forall k | 0 <= k < |syms| && syms[k].shndx == maps[n] ::
      syms[k].value + Total(sections, maps, n) < WORD_LIMIT
    ensures Merging(sections, symbols, maps, n + 1, now', syms')
  {
    forall k | 0 <= k < |now|
      ensures now'[k] == Hidden(sections, maps, n + 1, k)
    {
      HiddenNext(sections, maps, n, k);
    }
    forall k | 0 <= k < |syms|
      ensures syms'[k] == Moved(sections, maps, n + 1, symbols[k])
    {
      MovedNext(sections, maps, n, symbols[k]);
    }
    FittingNext(sections, symbols, maps, n, syms);
  }

  lemma HiddenNext(sections: seq<Section>, maps: seq<nat>, n: nat, k: nat)
    requires Indices(maps, |sections|) && 0 < n < |maps| && k < |sections|
    ensures
      Hidden(sections, maps, n + 1, k) ==
        if k == maps[n] then Hidden(sections, maps, n, k).(name := 0) else Hidden(sections, maps, n, k)
  {}

  lemma FittingNext(sections: seq<Section>, symbols: seq<Symbol>, maps: seq<nat>, n: nat, syms: seq<Symbol>)
    requires Indices(maps, |sections|) && 0 < n < |maps| && |syms| == |symbols| && Fitting(sections, symbols, maps, n)
    requires forall k | 0 <= k < |syms| :: syms[k] == Moved(sections, maps, n, symbols[k])
    requires forall k | 0 <= k < |syms| && syms[k].shndx == maps[n] ::
      syms[k].value + Total(sections, maps, n) < WORD_LIMIT
    ensures Fitting(sections, symbols, maps, n + 1)
  {}

  lemma NotFitting(sections: seq<Section>, symbols: seq<Symbol>, maps: seq<nat>, n: nat, syms: seq<Symbol>, k: nat)
    requires Indices(maps, |sections|) && 0 < n < |maps| && |syms| == |symbols| && k < |syms|
    requires syms[k] == Moved(sections, maps, n, symbols[k])
    requires syms[k].shndx == maps[n] && syms[k].value + Total(sections, maps, n) >= WORD_LIMIT
    ensures !Fitting(sections, symbols, maps, |maps|)
  {}

  /** One extra section: checked, its symbols moved, its header hidden. */
  method MergeOne(
    sections: array<Section>, symbols: array<Symbol>, maps: seq<nat>, n: nat, size: nat, symtab: Option<nat>,
    ghost before: seq<Section>, ghost was: seq<Symbol>)
    returns (ok: bool)
    requires Indices(maps, |before|) && 0 < n < |maps| && Merging(before, was, maps, n, sections[..], symbols[..])
    requires size == Total(before, maps, n)
    requires symtab.Some? ==> symtab.value < |before| && symtab.value !in maps
    modifies sections, symbols
    ensures ok ==> Merging(before, was, maps, n + 1, sections[..], symbols[..]) && SymtabFits(before, symtab)
    ensures !ok ==> !Mergeable(before, was, maps, symtab)
  {
    var first, extra := maps[0], sections[maps[n]];
    assert extra == before[maps[n]] && sections[first].offset == before[first].offset;
    if extra.kind != PROGBITS || extra.offset != sections[first].offset + size {
      assert !Joins(before, maps, n);
      return false;
    }
    if symtab.None? || sections[symtab.value].rest.entsize < SYMBOL_SIZE
       || sections[symtab.value].size % SYMBOL_SIZE != 0 {
      return false;
    }
    ghost var now, syms := sections[..], symbols[..];
    ok := MoveSymbols(symbols, first, maps[n], size);
    if !ok {
      ghost var k :| 0 <= k < |syms| && syms[k].shndx == maps[n] && syms[k].value + size >= WORD_LIMIT;
      NotFitting(before, was, maps, n, syms, k);
      return;
    }
    sections[maps[n]] := extra.(name := 0);
    MergingNext(before, was, maps, n, now, syms, sections[..], symbols[..]);
  }

  /** The merge. It goes through exactly when there is nothing to merge or the sections are
      mergeable, and then every symbol and every header is where it should be. */
  method MergeMaps(sections: array<Section>, symbols: array<Symbol>, maps: seq<nat>, symtab: Option<nat>)
    returns (ok: bool)
    requires Indices(maps, sections.Length)
    requires symtab.Some? ==> symtab.value < sections.Length && symtab.value !in maps
    modifies sections, symbols
    ensures ok <==> |maps| <= 1 || Mergeable(old(sections[..]), old(symbols[..]), maps, symtab)
    ensures |maps| <= 1 ==> sections[..] == old(sections[..]) && symbols[..] == old(symbols[..])
    ensures ok && |maps| > 1 ==>
      && (forall k | 0 <= k < sections.Length :: sections[k] == Merged(old(sections[..]), maps, k))
      && (forall k | 0 <= k < symbols.Length :: symbols[k] == Moved(old(sections[..]), maps, |maps|, old(symbols[k])))
  {
    if |maps| <= 1 {
      return true;
    }
    ghost var before, was := sections[..], symbols[..];
    var first := maps[0];
    if symtab.None? || sections[first].kind != PROGBITS {
      return false;
    }
    var size := sections[first].size;
    assert Total(before, maps, 1) == Total(before, maps, 0) + size;
    var n := 1;
    while n < |maps|
      invariant 1 <= n <= |maps| && Merging(before, was, maps, n, sections[..], symbols[..])
      invariant size == Total(before, maps, n)
      invariant n > 1 ==> SymtabFits(before, symtab)
    {
      var extra := sections[maps[n]].size;
      assert sections[..][maps[n]] == Hidden(before, maps, n, maps[n]);
      ok := MergeOne(sections, symbols, maps, n, size, symtab, before, was);
      if !ok {
        return;
      }
      size := size + extra;
      n := n + 1;
    }
    if size >= WORD_LIMIT {
      return false;
    }
    ghost var now := sections[..];
    sections[first] := sections[first].(size := size);
    MergingEnds(before, was, maps, symtab, now, symbols[..], sections[..]);
    return true;
  }

  lemma MergingEnds(
    sections: seq<Section>, symbols: seq<Symbol>, maps: seq<nat>, symtab: Option<nat>,
    now: seq<Section>, syms: seq<Symbol>, now': seq<Section>)
    requires Indices(maps, |sections|) && |maps| > 1 && Merging(sections, symbols, maps, |maps|, now, syms)
    requires sections[maps[0]].kind == PROGBITS && SymtabFits(sections, symtab)
    requires Total(sections, maps, |maps|) < WORD_LIMIT
    requires now' == now[maps[0] := now[maps[0]].(size := Total(sections, maps, |maps|))]
    ensures Mergeable(sections, symbols, maps, symtab)
    ensures forall k | 0 <= k < |sections| :: now'[k] == Merged(sections, maps, k)
    ensures forall k | 0 <= k < |symbols| :: syms[k] == Moved(sections, maps, |maps|, symbols[k])
  {
    assert maps[..|maps|] == maps;
    forall k | 0 <= k < |sections|
      ensures now'[k] == Merged(sections, maps, k)
    {
      assert now[k] == Hidden(sections, maps, |maps|, k);
    }
  }

  // ---- What the merge means ---------------------------------------------------------

  /** Where in the file a symbol is. */
  function Position(sections: seq<Section>, s: Symbol): nat
    requires s.shndx < |sections|
  {
    sections[s.shndx].offset + s.value
  }

  function MergedAll(sections: seq<Section>, maps: seq<nat>): (r: seq<Section>)
    requires Indices(maps, |sections|) && maps != []
    ensures |r| == |sections|
  {
    seq(|sections|, k requires 0 <= k < |sections| => Merged(sections, maps, k))
  }

  /** Every symbol stays where it is in the file. A symbol of another section is not touched
      at all; one of a merged section now belongs to the first. */
  lemma PositionsKept(sections: seq<Section>, maps: seq<nat>, s: Symbol)
    requires Indices(maps, |sections|) && maps != [] && Adjacent(sections, maps) && s.shndx < |sections|
    ensures
      var moved := Moved(sections, maps, |maps|, s);
      && moved.shndx < |sections| && moved.rest == s.rest
      && Position(MergedAll(sections, maps), moved) == Position(sections, s)
      && (s.shndx !in maps ==> moved == s)
      && (s.shndx in maps ==> moved.shndx == maps[0])
  {
    if i :| 0 < i < |maps| && maps[i] == s.shndx {
      assert Joins(sections, maps, i);
    }
  }

  lemma {:induction false} TotalGrows(sections: seq<Section>, maps: seq<nat>, i: nat, n: nat)
    requires Indices(maps, |sections|) && i < n <= |maps|
    ensures Total(sections, maps, i) + sections[maps[i]].size <= Total(sections, maps, n)
    decreases n
  {
    if i < n - 1 {
      TotalGrows(sections, maps, i, n - 1);
    }
  }

  /** A symbol inside its section is inside the merged one. */
  lemma SymbolsStayInside(sections: seq<Section>, maps: seq<nat>, s: Symbol)
    requires Indices(maps, |sections|) && maps != [] && s.shndx in maps && s.value < sections[s.shndx].size
    ensures Moved(sections, maps, |maps|, s).value < MergedAll(sections, maps)[maps[0]].size
  {
    var i :| 0 <= i < |maps| && maps[i] == s.shndx;
    TotalGrows(sections, maps, i, |maps|);
  }

  /** The merged section reaches from the start of the first to the end of the last; the others of
      that name lose it and nothing else, and all other sections stay. */
  lemma MergedSpan(sections: seq<Section>, maps: seq<nat>, k: nat)
    requires Indices(maps, |sections|) && maps != [] && Chained(sections, maps) && k < |sections|
    ensures
      var s, m, last := sections[k], MergedAll(sections, maps)[k], sections[maps[|maps| - 1]];
      && (k == maps[0] ==> m == s.(size := m.size) && m.offset + m.size == last.offset + last.size)
      && (k != maps[0] && k in maps ==> m == s.(name := 0))
      && (k !in maps ==> m == s)
  {
    BackToBack(sections, maps, |maps| - 1);
  }

  // ---- Names ------------------------------------------------------------------------

  const MAPS_NAME: seq<Byte> := [46, 109, 97, 112, 115]
  const SYMTAB_NAME: seq<Byte> := [46, 115, 121, 109, 116, 97, 98]
  const BTF_NAME: seq<Byte> := [46, 66, 84, 70]

  function NameAt(names: seq<Byte>, at: nat): seq<Byte> {
    if at <= |names| then Entry(names, at) else []
  }

  /** The sections with a given name. */
  function Named(names: seq<Byte>, sections: seq<Section>, name: seq<Byte>): set<nat> {
    set k: nat | k < |sections| && NameAt(names, sections[k].name) == name
  }

  lemma LeftAfter(names: seq<Byte>, sections: seq<Section>, maps: seq<nat>, k: nat)
    requires Indices(maps, |sections|) && |maps| > 1 && k < |sections|
    requires forall k: nat :: k in maps <==> k in Named(names, sections, MAPS_NAME)
    ensures
      NameAt(names, MergedAll(sections, maps)[k].name) == MAPS_NAME <==>
        k == maps[0] || (k in maps && NameAt(names, 0) == MAPS_NAME)
  {
    assert MergedAll(sections, maps)[k] == Merged(sections, maps, k);
    assert k in maps <==> k in Named(names, sections, MAPS_NAME);
    assert maps[0] in Named(names, sections, MAPS_NAME);
  }

  lemma AtLeastTwo(s: set<nat>, a: nat, b: nat)
    requires a in s && b in s && a != b
    ensures |s| >= 2
  {
    assert b in s - {a};
    assert |s - {a}| >= 1;
  }

  /** After a merge exactly one `.maps` section is left, unless the name table itself starts
      with that name, which offset 0 then picks up. */
  lemma OneMapsLeft(names: seq<Byte>, sections: seq<Section>, maps: seq<nat>)
    requires Indices(maps, |sections|) && |maps| > 1
    requires forall k: nat :: k in maps <==> k in Named(names, sections, MAPS_NAME)
    ensures |Named(names, MergedAll(sections, maps), MAPS_NAME)| == 1 <==> NameAt(names, 0) != MAPS_NAME
  {
    var left := Named(names, MergedAll(sections, maps), MAPS_NAME);
    forall k: nat | k < |sections|
      ensures k in left <==> k == maps[0] || (k in maps && NameAt(names, 0) == MAPS_NAME)
    {
      LeftAfter(names, sections, maps, k);
    }
    if NameAt(names, 0) != MAPS_NAME {
      assert left == {maps[0]};
    } else {
      AtLeastTwo(left, maps[0], maps[1]);
    }
  }

  lemma SectionNamesSpelled()
    ensures Ascii(MAPS_NAME, ".maps") && Ascii(SYMTAB_NAME, ".symtab") && Ascii(BTF_NAME, ".BTF")
  {}

  // ---- The script -------------------------------------------------------------------

  /** The parts of an object file the script works on: section names and headers, the
      contents of `.symtab`, and the BTF string table. */
  datatype Image = Image(names: seq<Byte>, sections: seq<Section>, symbols: seq<Symbol>, table: seq<Byte>)

  /** The sections with a given name, in order. */
  function Positions(image: Image, name: seq<Byte>, n: nat): seq<nat>
    requires n <= |image.sections|
    decreases n
  {
    if n == 0 then []
    else Positions(image, name, n - 1) + if NameOf(image, n - 1) == name then [n - 1] else []
  }

  function NameOf(image: Image, k: nat): seq<Byte>
    requires k < |image.sections|
  {
    NameAt(image.names, image.sections[k].name)
  }

  lemma {:induction false} PositionsAre(image: Image, name: seq<Byte>, n: nat)
    requires n <= |image.sections|
    ensures Indices(Positions(image, name, n), n)
    ensures forall k: nat :: k in Positions(image, name, n) <==> k < n && NameOf(image, k) == name
    decreases n
  {
    if n > 0 {
      PositionsAre(image, name, n - 1);
      var before, last := Positions(image, name, n - 1), if NameOf(image, n - 1) == name then [n - 1] else [];
      Extended(before, last, n);
    }
  }

  lemma Extended(before: seq<nat>, last: seq<nat>, n: nat)
    requires n > 0 && Indices(before, n - 1) && (last == [] || last == [n - 1])
    ensures Indices(before + last, n) && forall k: nat :: k in before + last <==> k in before || k in last
  {}

  function Every(image: Image, name: seq<Byte>): (r: seq<nat>)
    ensures Indices(r, |image.sections|)
    ensures forall k: nat :: k in r <==> k in Named(image.names, image.sections, name)
  {
    PositionsAre(image, name, |image.sections|);
    Positions(image, name, |image.sections|)
  }

  function LastOf(positions: seq<nat>): Option<nat> {
    if positions == [] then None else Some(positions[|positions| - 1])
  }

  /** The symbol table used is the last one. */
  lemma LastOfIs(image: Image, name: seq<Byte>)
    ensures LastOf(Every(image, name)).None? <==> forall k: nat | k < |image.sections| :: NameOf(image, k) != name
    ensures
      LastOf(Every(image, name)).Some? ==>
        var last := LastOf(Every(image, name)).value;
        && last < |image.sections| && NameOf(image, last) == name
        && forall k: nat | last < k < |image.sections| :: NameOf(image, k) != name
  {
    var all := Every(image, name);
    forall k: nat
      ensures k in all <==> k < |image.sections| && NameOf(image, k) == name
    {
      EveryIs(image, name, k);
    }
    if all != [] {
      LastIsLargest(all, |image.sections|);
    }
  }

  lemma EveryIs(image: Image, name: seq<Byte>, k: nat)
    ensures k in Every(image, name) <==> k < |image.sections| && NameOf(image, k) == name
  {
    assert k in Every(image, name) <==> k in Named(image.names, image.sections, name);
  }

  lemma LastIsLargest(all: seq<nat>, count: nat)
    requires Indices(all, count) && all != []
    ensures all[|all| - 1] in all && forall k | k in all :: k <= all[|all| - 1]
  {}

  predicate NamesValid(image: Image) {
    forall k | 0 <= k < |image.sections| :: image.sections[k].name < |image.names|
  }

  /** When the script succeeds. */
  predicate Patchable(image: Image) {
    var maps := Every(image, MAPS_NAME);
    && NamesValid(image) && Every(image, BTF_NAME) != [] && Verified(Patched(image.table))
    && maps != []
    && (|maps| > 1 ==>
          && Mergeable(image.sections, image.symbols, maps, LastOf(Every(image, SYMTAB_NAME)))
          && NameAt(image.names, 0) != MAPS_NAME)
  }

  predicate Scanned(image: Image, name: seq<Byte>, k: nat, found: seq<nat>) {
    k <= |image.sections| && found == Positions(image, name, k)
  }

  lemma ScanNext(image: Image, name: seq<Byte>, k: nat, found: seq<nat>)
    requires Scanned(image, name, k, found) && k < |image.sections|
    ensures Scanned(image, name, k + 1, found + if NameOf(image, k) == name then [k] else [])
  {}

  /** The scan over the section names; a name offset outside the name table is an error. */
  method FindSections(image: Image, btfName: seq<Byte>, mapsName: seq<Byte>, symtabName: seq<Byte>)
    returns (ok: bool, btf: bool, maps: seq<nat>, symtab: Option<nat>)
    requires btfName != mapsName && btfName != symtabName && mapsName != symtabName
    ensures ok <==> NamesValid(image)
    ensures ok ==>
      && btf == (Positions(image, btfName, |image.sections|) != [])
      && maps == Positions(image, mapsName, |image.sections|)
      && symtab == LastOf(Positions(image, symtabName, |image.sections|))
  {
    btf, maps, symtab := false, [], None;
    ghost var btfs: seq<nat>, symtabs: seq<nat> := [], [];
    for k := 0 to |image.sections|
      invariant forall j | 0 <= j < k :: image.sections[j].name < |image.names|
      invariant Scanned(image, btfName, k, btfs) && btf == (btfs != [])
      invariant Scanned(image, mapsName, k, maps)
      invariant Scanned(image, symtabName, k, symtabs) && symtab == LastOf(symtabs)
    {
      if image.sections[k].name >= |image.names| {
        return false, btf, maps, symtab;
      }
      ScanNext(image, btfName, k, btfs);
      ScanNext(image, mapsName, k, maps);
      ScanNext(image, symtabName, k, symtabs);
      var name := NameOf(image, k);
      if name == btfName {
        btf := true;
        btfs := btfs + [k];
      } else if name == mapsName {
        maps := maps + [k];
      } else if name == symtabName {
        symtab := Some(k);
        symtabs := symtabs + [k];
      }
    }
    return true, btf, maps, symtab;
  }

  method CountNamed(names: seq<Byte>, sections: seq<Section>, name: seq<Byte>) returns (n: nat)
    ensures n == |Named(names, sections, name)|
  {
    n := 0;
    ghost var seen: set<nat> := {};
    for k := 0 to |sections|
      invariant seen == (set j: nat | j < k && NameAt(names, sections[j].name) == name) && n == |seen|
    {
      if NameAt(names, sections[k].name) == name {
        n := n + 1;
        seen := seen + {k};
      }
    }
    assert seen == Named(names, sections, name);
  }

  /** What the script writes back. */
  function PatchedImage(image: Image): Image
    requires Every(image, MAPS_NAME) != []
  {
    var maps := Every(image, MAPS_NAME);
    var patched := image.(table := Patched(image.table));
    if |maps| == 1 then patched
    else
      patched.(
        sections := MergedAll(image.sections, maps),
        symbols := seq(|image.symbols|, k requires 0 <= k < |image.symbols| =>
          Moved(image.sections, maps, |maps|, image.symbols[k])))
  }

  method MergeImage(image: Image, maps: seq<nat>, symtab: Option<nat>) returns (r: Result<(seq<Section>, seq<Symbol>)>)
    requires Indices(maps, |image.sections|)
    requires symtab.Some? ==> symtab.value < |image.sections| && symtab.value !in maps
    ensures r.Ok? <==> |maps| <= 1 || Mergeable(image.sections, image.symbols, maps, symtab)
    ensures r.Ok? && |maps| <= 1 ==> r.value == (image.sections, image.symbols)
    ensures r.Ok? && |maps| > 1 ==>
      && r.value.0 == MergedAll(image.sections, maps) && |r.value.1| == |image.symbols|
      && forall k | 0 <= k < |image.symbols| :: r.value.1[k] == Moved(image.sections, maps, |maps|, image.symbols[k])
  {
    var sections := new Section[|image.sections|](i requires 0 <= i < |image.sections| => image.sections[i]);
    var symbols := new Symbol[|image.symbols|](i requires 0 <= i < |image.symbols| => image.symbols[i]);
    assert sections[..] == image.sections && symbols[..] == image.symbols;
    var ok := MergeMaps(sections, symbols, maps, symtab);
    return if ok then Ok((sections[..], symbols[..])) else Err;
  }

  method PatchTable(table: seq<Byte>) returns (patched: seq<Byte>)
    ensures patched == Patched(table)
  {
    var data := new Byte[|table|](i requires 0 <= i < |table| => table[i]);
    assert data[..] == table && data[..][0..data.Length] == table;
    var replacements := RewriteMarks(data, 0, data.Length);
    return data[..];
  }

  lemma NamesDiffer()
    ensures BTF_NAME != MAPS_NAME && BTF_NAME != SYMTAB_NAME && MAPS_NAME != SYMTAB_NAME
  {}

  lemma SymtabIsNoMap(image: Image, mapsName: seq<Byte>, symtabName: seq<Byte>)
    requires mapsName != symtabName
    ensures
      var symtab := LastOf(Every(image, symtabName));
      symtab.Some? ==> symtab.value < |image.sections| && symtab.value !in Every(image, mapsName)
  {
    var all := Every(image, symtabName);
    if all != [] {
      assert all[|all| - 1] in all;
    }
  }

  /** The script: it succeeds exactly on the patchable images, and only then is the file
      written, with exactly the patched image. */
  method PatchObject(image: Image) returns (r: Result<Image>)
    ensures r == if Patchable(image) then Ok(PatchedImage(image)) else Err
  {
    NamesDiffer();
    SymtabIsNoMap(image, MAPS_NAME, SYMTAB_NAME);
    var named, btf, maps, symtab := FindSections(image, BTF_NAME, MAPS_NAME, SYMTAB_NAME);
    if !named || !btf {
      return Err;
    }
    assert maps == Every(image, MAPS_NAME) && symtab == LastOf(Every(image, SYMTAB_NAME));
    var table := PatchTable(image.table);
    if !Verified(table) {
      return Err;
    }
    var merged := MergeImage(image, maps, symtab);
    if merged.Err? {
      return Err;
    }
    CountIs(image, merged.value.0);
    var left := CountNamed(image.names, merged.value.0, MAPS_NAME);
    if left != 1 {
      return Err;
    }
    assert |maps| > 1 ==> merged.value.1 == PatchedImage(image).symbols;
    return Ok(Image(image.names, merged.value.0, merged.value.1, table));
  }

  lemma CountIs(image: Image, sections: seq<Section>)
    requires var maps := Every(image, MAPS_NAME);
      sections == if |maps| > 1 then MergedAll(image.sections, maps) else image.sections
    ensures |Named(image.names, sections, MAPS_NAME)| == 1 <==>
      var maps := Every(image, MAPS_NAME);
      maps != [] && (|maps| > 1 ==> NameAt(image.names, 0) != MAPS_NAME)
  {
    var maps := Every(image, MAPS_NAME);
    var left := Named(image.names, sections, MAPS_NAME);
    if |maps| > 1 {
      OneMapsLeft(image.names, image.sections, maps);
    } else if |maps| == 1 {
      assert left == {maps[0]};
    } else {
      assert left == {};
    }
  }
}
