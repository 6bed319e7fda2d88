/** The in-place rewrite of the BTF string table: every entry `type_` becomes `type`. */
module BtfStrings {

  type Byte = b: int | 0 <= b < 256

  const TYPE: seq<Byte> := [116, 121, 112, 101]
  const TYPE_MARK: seq<Byte> := TYPE + [95]
  const TERMINATED: seq<Byte> := TYPE_MARK + [0]

  /** Bytes that spell a text. */
  predicate Ascii(bytes: seq<Byte>, text: string) {
    |bytes| == |text| && forall i | 0 <= i < |text| :: bytes[i] as int == text[i] as int
  }

  lemma NamesSpelled()
    ensures Ascii(TYPE, "type") && Ascii(TYPE_MARK, "type_") && Ascii(TERMINATED, "type_\0")
  {}

  // ---- Entries ----------------------------------------------------------------------

  /** An entry starts where the table starts and after every NUL. */
  predicate IsStart(t: seq<Byte>, s: nat) {
    s <= |t| && (s == 0 || t[s - 1] == 0)
  }

  function EntryEnd(t: seq<Byte>, s: nat): (e: nat)
    requires s <= |t|
    ensures s <= e <= |t| && (e < |t| ==> t[e] == 0) && 0 !in t[s..e]
    decreases |t| - s
  {
    if s == |t| || t[s] == 0 then s
    else
      var e := EntryEnd(t, s + 1);
      assert t[s..e] == [t[s]] + t[s + 1..e];
      e
  }

  function Entry(t: seq<Byte>, s: nat): seq<Byte>
    requires s <= |t|
  {
    t[s..EntryEnd(t, s)]
  }

  predicate HasEntry(t: seq<Byte>, x: seq<Byte>) {
    exists s :: 0 <= s <= |t| && IsStart(t, s) && Entry(t, s) == x
  }

  lemma NoNulInside(t: seq<Byte>, s: nat, e: nat)
    requires s <= e <= |t| && 0 !in t[s..e]
    ensures forall i | s <= i < e :: t[i] != 0
  {}

  lemma EntryEndIs(t: seq<Byte>, s: nat, e: nat)
    requires s <= e <= |t| && (e < |t| ==> t[e] == 0) && 0 !in t[s..e]
    ensures EntryEnd(t, s) == e
  {}

  // ---- The rewrite ------------------------------------------------------------------

  predicate FoundAt(t: seq<Byte>, s: nat) {
    s + 6 <= |t| && Spells(t, s)
  }

  /** The six bytes of `type_` and its NUL. */
  predicate Spells(t: seq<Byte>, s: nat)
    requires s + 6 <= |t|
  {
    t[s] == 116 && t[s + 1] == 121 && t[s + 2] == 112 && t[s + 3] == 101 && t[s + 4] == 95 && t[s + 5] == 0
  }

  /** A terminated entry `type_` starts at `s`. */
  predicate Marked(t: seq<Byte>, s: nat) {
    FoundAt(t, s) && IsStart(t, s)
  }

  function PatchedByte(t: seq<Byte>, i: nat): Byte
    requires i < |t|
  {
    if i >= 4 && Marked(t, i - 4) then 0 else t[i]
  }

  /** Where the entries to rewrite start, up to `limit`. */
  function MarksBelow(t: seq<Byte>, limit: nat): set<nat> {
    set s: nat | s < limit && Marked(t, s)
  }

  /** The table with the mark of every such entry overwritten by a NUL. */
  function Patched(t: seq<Byte>): (r: seq<Byte>)
    ensures |r| == |t|
  {
    seq(|t|, i requires 0 <= i < |t| => PatchedByte(t, i))
  }

  lemma SpellsTerminated(u: seq<Byte>)
    requires |u| == 6
    ensures u == TERMINATED <==> Spells(u, 0)
  {}

  /** Two occurrences never overlap: the first byte of the entry occurs in it only once. */
  lemma NoOverlap(t: seq<Byte>, a: nat, b: nat)
    requires FoundAt(t, a) && FoundAt(t, b) && a < b
    ensures a + 6 <= b
  {}

  predicate NoneBetween(t: seq<Byte>, a: nat, b: nat) {
    forall s: nat | a <= s < b :: !FoundAt(t, s)
  }

  /** `bytearray.find(TERMINATED, from, end)`, in positions of the table `data[start..end]`. */
  method Find(data: array<Byte>, start: nat, end: nat, from: nat) returns (found: bool, c: nat)
    requires start <= end <= data.Length
    ensures found ==> from <= c && FoundAt(data[..][start..end], c)
    ensures NoneBetween(data[..][start..end], from, if found then c else end - start)
  {
    ghost var t := data[..][start..end];
    c := from;
    while start + c + 6 <= end
      invariant from <= c
      invariant NoneBetween(t, from, c)
    {
      SameBytes(data, start, end, c);
      if data[start + c..start + c + 6] == TERMINATED {
        return true, c;
      }
      c := c + 1;
    }
    return false, c;
  }

  lemma SameBytes(data: array<Byte>, start: nat, end: nat, c: nat)
    requires start + c + 6 <= end <= data.Length
    ensures FoundAt(data[..][start..end], c) <==> data[start + c..start + c + 6] == TERMINATED
  {
    var u := data[start + c..start + c + 6];
    SpellsTerminated(u);
  }

  /** Bytes before `cursor` are done, the rest are as they were, and no marked entry lies
      across the cursor. */
  ghost predicate Rewriting(t: seq<Byte>, now: seq<Byte>, cursor: nat) {
    && |now| == |t| && cursor <= |t|
    && (forall i {:trigger now[i]} | 0 <= i < cursor :: now[i] == PatchedByte(t, i))
    && (forall i {:trigger now[i]} | cursor <= i < |t| :: now[i] == t[i])
    && (forall s | 0 <= s < cursor && FoundAt(t, s) :: s + 6 <= cursor)
  }

  /** From the cursor on the table shows the same occurrences as at first. */
  lemma SameFound(t: seq<Byte>, now: seq<Byte>, cursor: nat, s: nat)
    requires Rewriting(t, now, cursor) && cursor <= s
    ensures FoundAt(now, s) <==> FoundAt(t, s)
  {}

  /** The byte before an occurrence is still NUL exactly if it was. */
  lemma SameStart(t: seq<Byte>, now: seq<Byte>, cursor: nat, c: nat)
    requires Rewriting(t, now, cursor) && cursor <= c && FoundAt(t, c)
    ensures IsStart(now, c) <==> IsStart(t, c)
  {}

  lemma NoneLeft(t: seq<Byte>, now: seq<Byte>, cursor: nat)
    requires Rewriting(t, now, cursor) && NoneBetween(now, cursor, |now|)
    ensures now == Patched(t)
    ensures |MarksBelow(t, cursor)| == |MarksBelow(t, |t|)|
  {
    forall s: nat | cursor <= s
      ensures !FoundAt(t, s)
    {
      SameFound(t, now, cursor, s);
    }
    assert MarksBelow(t, cursor) == MarksBelow(t, |t|);
  }

  lemma NextFound(t: seq<Byte>, now: seq<Byte>, cursor: nat, c: nat)
    requires Rewriting(t, now, cursor) && cursor <= c && FoundAt(now, c)
    requires NoneBetween(now, cursor, c)
    ensures Rewriting(t, if IsStart(now, c) then now[c + 4 := 0] else now, c + 6)
    ensures IsStart(now, c) <==> Marked(t, c)
    ensures |MarksBelow(t, c + 6)| == |MarksBelow(t, cursor)| + if Marked(t, c) then 1 else 0
  {
    forall s: nat | cursor <= s
      ensures FoundAt(now, s) <==> FoundAt(t, s)
    {
      SameFound(t, now, cursor, s);
    }
    SameStart(t, now, cursor, c);
    var next := if IsStart(t, c) then now[c + 4 := 0] else now;
    forall s | 0 <= s < c + 6 && FoundAt(t, s)
      ensures s <= c && (s < cursor || s == c)
    {
      if s > c {
        NoOverlap(t, c, s);
      }
    }
    assert forall i | 0 <= i < c + 6 :: next[i] == PatchedByte(t, i);
    assert MarksBelow(t, c + 6) == MarksBelow(t, cursor) + (if Marked(t, c) then {c} else {});
  }

  /** The six bytes written over an occurrence: only the mark changes. */
  method Overwrite(data: array<Byte>, at: nat)
    requires at + 6 <= data.Length && FoundAt(data[..], at)
    modifies data
    ensures data[..] == old(data[..])[at + 4 := 0]
  {
    data[at], data[at + 1], data[at + 2] := 116, 121, 112;
    data[at + 3], data[at + 4], data[at + 5] := 101, 0, 0;
  }

  lemma TableOf(all: seq<Byte>, start: nat, end: nat, c: nat)
    requires start + c + 6 <= end <= |all|
    ensures FoundAt(all[start..end], c) <==> FoundAt(all, start + c)
    ensures IsStart(all[start..end], c) <==> c == 0 || all[start + c - 1] == 0
    ensures all[start + c + 4 := 0][start..end] == all[start..end][c + 4 := 0]
    ensures all[start + c + 4 := 0][..start] == all[..start] && all[start + c + 4 := 0][end..] == all[end..]
  {}

  /** Outside the table nothing differs. */
  predicate SameAround(was: seq<Byte>, now: seq<Byte>, start: nat, end: nat) {
    |was| == |now| && start <= end <= |was| && now[..start] == was[..start] && now[end..] == was[end..]
  }

  /** The step of `NextFound` in the whole file. */
  lemma NextTable(t: seq<Byte>, all: seq<Byte>, start: nat, end: nat, cursor: nat, c: nat)
    requires start + c + 6 <= end <= |all| && cursor <= c
    requires Rewriting(t, all[start..end], cursor)
    requires FoundAt(all[start..end], c) && NoneBetween(all[start..end], cursor, c)
    ensures
      var now := if c == 0 || all[start + c - 1] == 0 then all[start + c + 4 := 0] else all;
      SameAround(all, now, start, end) && Rewriting(t, now[start..end], c + 6)
    ensures c == 0 || all[start + c - 1] == 0 <==> Marked(t, c)
    ensures |MarksBelow(t, c + 6)| == |MarksBelow(t, cursor)| + if Marked(t, c) then 1 else 0
  {
    TableOf(all, start, end, c);
    NextFound(t, all[start..end], cursor, c);
  }

  /** One occurrence: rewritten if it is a whole entry, passed over if it only ends one. */
  method RewriteAt(data: array<Byte>, start: nat, end: nat, c: nat, ghost t: seq<Byte>, ghost cursor: nat)
    returns (rewritten: bool)
    requires start + c + 6 <= end <= data.Length && cursor <= c
    requires Rewriting(t, data[..][start..end], cursor)
    requires FoundAt(data[..][start..end], c) && NoneBetween(data[..][start..end], cursor, c)
    modifies data
    ensures SameAround(old(data[..]), data[..], start, end)
    ensures Rewriting(t, data[..][start..end], c + 6)
    ensures rewritten <==> Marked(t, c)
    ensures |MarksBelow(t, c + 6)| == |MarksBelow(t, cursor)| + if Marked(t, c) then 1 else 0
  {
    ghost var all := data[..];
    TableOf(all, start, end, c);
    rewritten := c == 0 || data[start + c - 1] == 0;
    if rewritten {
      Overwrite(data, start + c);
    }
    NextTable(t, all, start, end, cursor, c);
  }

  /** The rewrite loop, on the table `data[start..end]` of the object file. Nothing outside the
      table changes, and the table keeps its length. */
  method RewriteMarks(data: array<Byte>, start: nat, end: nat) returns (replacements: nat)
    requires start <= end <= data.Length
    modifies data
    ensures SameAround(old(data[..]), data[..], start, end)
    ensures data[..][start..end] == Patched(old(data[..][start..end]))
    ensures replacements == |MarksBelow(old(data[..][start..end]), end - start)|
  {
    ghost var t := data[..][start..end];
    replacements := 0;
    var cursor := 0;
    while true
      invariant Rewriting(t, data[..][start..end], cursor)
      invariant SameAround(old(data[..]), data[..], start, end)
      invariant replacements == |MarksBelow(t, cursor)|
      decreases |t| - cursor
    {
      var found, c := Find(data, start, end, cursor);
      if !found {
        NoneLeft(t, data[..][start..end], cursor);
        return;
      }
      var rewritten := RewriteAt(data, start, end, c, t, cursor);
      if rewritten {
        replacements := replacements + 1;
      }
      cursor := c + 6;
    }
  }

  // ---- What the rewrite means -------------------------------------------------------

  lemma MarkedEntry(t: seq<Byte>, s: nat)
    requires IsStart(t, s)
    ensures Marked(t, s) <==> Entry(t, s) == TYPE_MARK && EntryEnd(t, s) < |t|
  {}

  /** Every entry keeps its offset. An entry that was `type_`, NUL and all, now reads `type`;
      every other entry reads as before. */
  lemma EntriesAfter(t: seq<Byte>, s: nat)
    requires IsStart(t, s)
    ensures IsStart(Patched(t), s)
    ensures Entry(Patched(t), s) == if Entry(t, s) == TYPE_MARK && EntryEnd(t, s) < |t| then TYPE else Entry(t, s)
  {
    MarkedEntry(t, s);
    if Marked(t, s) {
      MarkedReadsType(t, s);
    } else {
      UnmarkedReadsSame(t, s);
    }
    if s > 0 && s - 1 >= 4 && Marked(t, s - 5) {
    }
  }

  lemma MarkedReadsType(t: seq<Byte>, s: nat)
    requires Marked(t, s)
    ensures Entry(Patched(t), s) == TYPE
  {
    var r := Patched(t);
    MarkedEntry(t, s);
    UnmarkedInside(t, s, s + 4);
    assert 0 !in r[s..s + 4];
    assert r[s + 4] == PatchedByte(t, s + 4);
    EntryEndIs(r, s, s + 4);
  }

  lemma UnmarkedReadsSame(t: seq<Byte>, s: nat)
    requires IsStart(t, s) && !Marked(t, s)
    ensures Entry(Patched(t), s) == Entry(t, s)
  {
    var e := EntryEnd(t, s);
    UnmarkedInside(t, s, e);
    EntryEndIs(Patched(t), s, e);
  }

  /** Inside an entry only its own mark can be overwritten. */
  lemma UnmarkedInside(t: seq<Byte>, s: nat, e: nat)
    requires IsStart(t, s) && s <= e <= EntryEnd(t, s)
    requires Marked(t, s) ==> e <= s + 4
    ensures Patched(t)[s..e] == t[s..e]
    ensures e < |t| && t[e] == 0 ==> Patched(t)[e] == 0
  {
    NoNulInside(t, s, EntryEnd(t, s));
    assert forall i | s <= i < e :: PatchedByte(t, i) == t[i];
    SameSlice(Patched(t), t, s, e);
  }

  lemma SameSlice(a: seq<Byte>, b: seq<Byte>, s: nat, e: nat)
    requires |a| == |b| && s <= e <= |a| && forall i | s <= i < e :: a[i] == b[i]
    ensures a[s..e] == b[s..e]
  {}

  /** The final check of the script, on the patched table. */
  predicate Verified(t: seq<Byte>) {
    !HasEntry(t, TYPE_MARK) && HasEntry(t, TYPE)
  }

  /** The table ends inside an entry `type_`. */
  predicate EndsMarked(t: seq<Byte>) {
    |t| >= 5 && t[|t| - 5..] == TYPE_MARK && IsStart(t, |t| - 5)
  }

  lemma MarkLeft(t: seq<Byte>, s: nat)
    requires s <= |t| && IsStart(Patched(t), s) && Entry(Patched(t), s) == TYPE_MARK
    ensures EndsMarked(t)
  {
    NewStart(t, s);
    EntriesAfter(t, s);
    LastEntry(t, s, EntryEnd(t, s));
  }

  lemma LastEntry(t: seq<Byte>, s: nat, end: nat)
    requires s <= end <= |t| && IsStart(t, s)
    requires TYPE_MARK == if t[s..end] == TYPE_MARK && end < |t| then TYPE else t[s..end]
    ensures EndsMarked(t)
  {
    assert |TYPE| == 4 && |TYPE_MARK| == 5;
  }

  /** After the rewrite a `type_` entry can be left only if the table ends inside it. */
  lemma MarkLeftIff(t: seq<Byte>)
    ensures HasEntry(Patched(t), TYPE_MARK) <==> EndsMarked(t)
  {
    if EndsMarked(t) {
      EntryEndIs(t, |t| - 5, |t|);
      EntriesAfter(t, |t| - 5);
      assert Entry(Patched(t), |t| - 5) == TYPE_MARK;
    }
    if s :| 0 <= s <= |t| && IsStart(Patched(t), s) && Entry(Patched(t), s) == TYPE_MARK {
      MarkLeft(t, s);
    }
  }

  /** The only new entry starts are just past an overwritten mark, and an empty entry starts
      there. */
  lemma NewStart(t: seq<Byte>, s: nat)
    requires s <= |t| && IsStart(Patched(t), s)
    ensures IsStart(t, s) || (s >= 5 && Marked(t, s - 5) && Entry(Patched(t), s) == [])
  {}

  /** The patch is accepted exactly when the table had an entry `type` or a terminated one
      `type_`, and does not end inside an unterminated `type_`. */
  lemma VerifiedIff(t: seq<Byte>)
    ensures Verified(Patched(t)) <==>
      && !EndsMarked(t)
      && (HasEntry(t, TYPE) || exists s: nat :: Marked(t, s))
  {
    MarkLeftIff(t);
    if HasEntry(t, TYPE) {
      var s :| 0 <= s <= |t| && IsStart(t, s) && Entry(t, s) == TYPE;
      EntriesAfter(t, s);
    } else if s: nat :| Marked(t, s) {
      MarkedEntry(t, s);
      EntriesAfter(t, s);
    } else if HasEntry(Patched(t), TYPE) {
      var s :| 0 <= s <= |t| && IsStart(Patched(t), s) && Entry(Patched(t), s) == TYPE;
      NewStart(t, s);
      EntriesAfter(t, s);
      MarkedEntry(t, s);
    }
  }
}
