/** The loader's own view of the two listen sockets, and how it keeps the SOCKMAP in step. */
module Rescan {
  import opened Prelude

  /** One open descriptor under `/proc`: who holds which socket, and whether it can be
      duplicated. */
  datatype FdEntry = FdEntry(pid: nat, inode: nat, capturable: bool)

  /** What one look at the system shows: the sockets listening at the target address and at
      the wildcard address, the open descriptors, and which processes are alive. `life` tells
      apart processes that had the same number one after the other. */
  datatype Snapshot = Snapshot(
    tcpReads: bool, procReads: bool, specific: seq<nat>, wildcard: seq<nat>, fds: seq<FdEntry>,
    life: nat -> nat, alive: set<nat>, accepting: set<nat>)
  {
    function Listening(): seq<nat> {
      if specific == [] then wildcard else specific
    }

    predicate Holds(pid: nat, inode: nat) {
      exists i :: 0 <= i < |fds| && fds[i].pid == pid && fds[i].inode == inode
    }

    predicate Capturable(own: nat, inode: nat) {
      procReads && exists i :: 0 <= i < |fds| && fds[i].pid != own && fds[i].inode == inode && fds[i].capturable
    }

    predicate Discoverable(own: nat) {
      tcpReads && exists i :: 0 <= i < |Listening()| && Capturable(own, Listening()[i])
    }
  }

  datatype Captured = Captured(inode: nat, pid: nat, life: nat)

  /** A process other than the loader holds the captured socket, and the socket listens at the
      target. */
  predicate Live(own: nat, snap: Snapshot, c: Captured) {
    c.inode in snap.Listening() && c.pid != own && snap.Holds(c.pid, c.inode)
  }

  /** The loader's own test of a held listener: its owner still runs and still holds the socket,
      the socket still accepts, and it still listens at the target. */
  predicate Healthy(snap: Snapshot, c: Captured) {
    c.life in snap.alive && snap.Holds(c.pid, c.inode) && c.inode in snap.accepting && c.inode in snap.Listening()
  }

  predicate CanCapture(own: nat, snap: Snapshot, inode: nat, i: nat)
    requires i < |snap.fds|
  {
    snap.fds[i].pid != own && snap.fds[i].inode == inode && snap.fds[i].capturable
  }

  /** What can be captured of a socket: the first descriptor that allows it, from `i` on. */
  function FirstFd(own: nat, snap: Snapshot, inode: nat, i: nat): Option<Captured>
    requires i <= |snap.fds|
    decreases |snap.fds| - i
  {
    if i == |snap.fds| || !snap.procReads then None
    else if CanCapture(own, snap, inode, i) then Some(Captured(inode, snap.fds[i].pid, snap.life(snap.fds[i].pid)))
    else FirstFd(own, snap, inode, i + 1)
  }

  /** And of the listening sockets, from number `i` on. */
  function FirstListener(own: nat, snap: Snapshot, i: nat): Option<Captured>
    requires i <= |snap.Listening()|
    decreases |snap.Listening()| - i
  {
    if i == |snap.Listening()| || !snap.tcpReads then None
    else
      match FirstFd(own, snap, snap.Listening()[i], 0)
      case Some(c) => Some(c)
      case None => FirstListener(own, snap, i + 1)
  }

  /** What a slot's rescan comes to: nothing for a healthy listener or one that is found again,
      else a fresh one if it can be found and registered. */
  function Rescanned(own: nat, have: Option<Captured>, snap: Snapshot, works: bool): Result<Option<Captured>> {
    if !snap.tcpReads then Err
    else if have.Some? && Healthy(snap, have.value) then Ok(None)
    else
      match FirstListener(own, snap, 0)
      case None => Err
      case Some(c) =>
        if have.Some? && have.value.inode == c.inode && have.value.pid == c.pid then Ok(None)
        else if works then Ok(Some(c)) else Err
  }

  /** The loader looks at the target address, and at the wildcard address if nothing is there. */
  predicate AtTarget(snap: Snapshot, inode: nat) {
    inode in snap.specific || (snap.specific == [] && inode in snap.wildcard)
  }

  predicate Usable(own: nat, snap: Snapshot, e: FdEntry) {
    e.pid != own && e.capturable && AtTarget(snap, e.inode)
  }

  /** A listener can be found exactly when another process has a descriptor of a socket at the
      target that can be captured. */
  lemma DiscoverableIff(own: nat, snap: Snapshot)
    ensures
      snap.Discoverable(own) <==>
        snap.tcpReads && snap.procReads && exists i :: 0 <= i < |snap.fds| && Usable(own, snap, snap.fds[i])
  {
    if snap.Discoverable(own) {
      var k :| 0 <= k < |snap.Listening()| && snap.Capturable(own, snap.Listening()[k]);
      CapturableIff(own, snap, snap.Listening()[k]);
      var i :| 0 <= i < |snap.fds| && CanCapture(own, snap, snap.Listening()[k], i);
      assert Usable(own, snap, snap.fds[i]);
    }
    if snap.tcpReads && snap.procReads {
      if i :| 0 <= i < |snap.fds| && Usable(own, snap, snap.fds[i]) {
        var k :| 0 <= k < |snap.Listening()| && snap.Listening()[k] == snap.fds[i].inode;
        assert snap.Capturable(own, snap.Listening()[k]);
      }
    }
  }

  /** `open_socket_by_inode`: the first descriptor of another process that can be captured. */
  method OpenByInode(own: nat, snap: Snapshot, inode: nat) returns (r: Result<Captured>)
    ensures r == match FirstFd(own, snap, inode, 0) case None => Err case Some(c) => Ok(c)
    ensures r.Ok? <==> snap.Capturable(own, inode)
    ensures r.Ok? ==> r.value.inode == inode && r.value.pid != own && snap.Holds(r.value.pid, inode)
    ensures r.Ok? ==> r.value.life == snap.life(r.value.pid)
  {
    if !snap.procReads {
      return Err;
    }
    for i := 0 to |snap.fds|
      invariant FirstFd(own, snap, inode, 0) == FirstFd(own, snap, inode, i)
      invariant forall j | 0 <= j < i :: snap.fds[j].pid == own || snap.fds[j].inode != inode || !snap.fds[j].capturable
    {
      var e := snap.fds[i];
      if e.pid == own || e.inode != inode {
        continue;
      }
      if e.capturable {
        return Ok(Captured(inode, e.pid, snap.life(e.pid)));
      }
    }
    return Err;
  }

  /** `find_listen_socket_file`: the first listening inode that some other process lets us
      capture. It fails only when there is none. */
  method FindListener(own: nat, snap: Snapshot) returns (r: Result<Captured>)
    ensures r == match FirstListener(own, snap, 0) case None => Err case Some(c) => Ok(c)
    ensures r.Ok? <==> snap.Discoverable(own)
    ensures r.Ok? ==> Live(own, snap, r.value) && r.value.life == snap.life(r.value.pid)
  {
    if !snap.tcpReads {
      return Err;
    }
    var inodes := snap.Listening();
    for i := 0 to |inodes|
      invariant FirstListener(own, snap, 0) == FirstListener(own, snap, i)
      invariant forall j | 0 <= j < i :: !snap.Capturable(own, inodes[j])
    {
      r := OpenByInode(own, snap, inodes[i]);
      if r.Ok? {
        return;
      }
    }
    return Err;
  }

  /** One round of the rescan loop: what each slot's look shows, whether the SOCKMAP accepts
      each update, and whether there is a TLS target. */
  datatype Round = Round(primary: Snapshot, tls: Option<Snapshot>, putPrimary: bool, putTls: bool)

  function Slot(held: seq<Captured>, slot: nat): Option<Captured> {
    if slot < |held| then Some(held[slot]) else None
  }

  function Put(held: seq<Captured>, slot: nat, c: Captured): seq<Captured>
    requires slot <= |held|
  {
    if slot < |held| then held[slot := c] else held + [c]
  }

  /** The descriptors after one round: the slots one after the other, up to the first that fails. */
  function HeldAfter(own: nat, held: seq<Captured>, round: Round): seq<Captured> {
    match Rescanned(own, Slot(held, 0), round.primary, round.putPrimary)
    case Err => held
    case Ok(first) =>
      var now := if first.Some? then Put(held, 0, first.value) else held;
      if round.tls.None? || now == [] then now
      else
        match Rescanned(own, Slot(now, 1), round.tls.value, round.putTls)
        case Ok(Some(c)) => Put(now, 1, c)
        case _ => now
  }

  function HeldOver(own: nat, held: seq<Captured>, rounds: seq<Round>): seq<Captured>
    decreases |rounds|
  {
    if rounds == [] then held else HeldAfter(own, HeldOver(own, held, rounds[..|rounds| - 1]), rounds[|rounds| - 1])
  }

  lemma {:induction false} FirstFdIs(own: nat, snap: Snapshot, inode: nat, i: nat)
    requires i <= |snap.fds|
    ensures
      FirstFd(own, snap, inode, i).Some? <==>
        snap.procReads && exists j :: i <= j < |snap.fds| && CanCapture(own, snap, inode, j)
    ensures
      FirstFd(own, snap, inode, i).Some? ==>
        var c := FirstFd(own, snap, inode, i).value;
        c.inode == inode && c.pid != own && snap.Holds(c.pid, inode) && c.life == snap.life(c.pid)
    decreases |snap.fds| - i
  {
    if i < |snap.fds| {
      FirstFdIs(own, snap, inode, i + 1);
    }
  }

  lemma {:induction false} FirstListenerIs(own: nat, snap: Snapshot, i: nat)
    requires i <= |snap.Listening()|
    ensures
      FirstListener(own, snap, i).Some? <==>
        snap.tcpReads && exists j :: i <= j < |snap.Listening()| && snap.Capturable(own, snap.Listening()[j])
    ensures FirstListener(own, snap, i).Some? ==> Live(own, snap, FirstListener(own, snap, i).value)
    decreases |snap.Listening()| - i
  {
    if i < |snap.Listening()| {
      var inode := snap.Listening()[i];
      FirstFdIs(own, snap, inode, 0);
      CapturableIff(own, snap, inode);
      FirstListenerIs(own, snap, i + 1);
    }
  }

  lemma CapturableIff(own: nat, snap: Snapshot, inode: nat)
    ensures
      snap.Capturable(own, inode) <==>
        snap.procReads && exists j :: 0 <= j < |snap.fds| && CanCapture(own, snap, inode, j)
  {
    if snap.Capturable(own, inode) {
      var j :| 0 <= j < |snap.fds| && snap.fds[j].pid != own && snap.fds[j].inode == inode && snap.fds[j].capturable;
      assert CanCapture(own, snap, inode, j);
    }
  }

  lemma FoundIsLive(own: nat, snap: Snapshot)
    ensures FirstListener(own, snap, 0).Some? <==> snap.Discoverable(own)
    ensures FirstListener(own, snap, 0).Some? ==> Live(own, snap, FirstListener(own, snap, 0).value)
  {
    FirstListenerIs(own, snap, 0);
  }

  /** When a rescan that can read the listens leaves a held listener alone: its owner runs and holds
      the socket, which accepts and listens at the target; or it is what a fresh search finds. */
  lemma KeptIff(own: nat, c: Captured, snap: Snapshot, works: bool)
    requires snap.tcpReads
    ensures
      Rescanned(own, Some(c), snap, works) == Ok(None) <==>
        || (c.life in snap.alive && snap.Holds(c.pid, c.inode) && c.inode in snap.accepting && AtTarget(snap, c.inode))
        || (var found := FirstListener(own, snap, 0);
            found.Some? && found.value.inode == c.inode && found.value.pid == c.pid)
  {}

  /** After a round whose look at a slot shows a listener that can be captured and registered, the
      descriptor held for it is live, whatever it was before and whatever the other slot does; a
      healthy one stays. */
  lemma RoundRevives(own: nat, held: seq<Captured>, round: Round)
    requires |held| <= 2 && forall i | 0 <= i < |held| :: held[i].pid != own
    ensures
      var now := HeldAfter(own, held, round);
      && |held| <= |now| <= 2 && (forall i | 0 <= i < |now| :: now[i].pid != own)
      && (round.primary.Discoverable(own) && round.putPrimary ==> |now| >= 1 && Live(own, round.primary, now[0]))
      && (|held| >= 1 && Healthy(round.primary, held[0]) ==> now[0] == held[0])
    ensures
      var now := HeldAfter(own, held, round);
      round.tls.Some? && Rescanned(own, Slot(held, 0), round.primary, round.putPrimary).Ok? ==>
        && (round.tls.value.Discoverable(own) && round.putTls ==> |now| == 2 && Live(own, round.tls.value, now[1]))
        && (|held| == 2 && Healthy(round.tls.value, held[1]) ==> now[1] == held[1])
  {
    FoundIsLive(own, round.primary);
    if round.tls.Some? {
      FoundIsLive(own, round.tls.value);
    }
  }

  /** Each held descriptor is the socket in its SOCKMAP slot, and was captured from another
      process. */
  predicate InStep(own: nat, held: seq<Captured>, redir: map<nat, nat>) {
    && |held| <= 2
    && forall i | 0 <= i < |held| :: i in redir && redir[i] == held[i].inode && held[i].pid != own
  }

  class Loader {
    const own: nat
    var held: seq<Captured>
    var redir: map<nat, nat>

    constructor (pid: nat, pinned: map<nat, nat>)
      ensures own == pid && held == [] && redir == pinned
    {
      own, held, redir := pid, [], pinned;
    }

    predicate Agrees()
      reads this
    {
      InStep(own, held, redir)
    }

    method Register(slot: nat, c: Captured, works: bool) returns (ok: bool)
      modifies `redir
      ensures ok == (works && slot <= 1)
      ensures redir == if ok then old(redir)[slot := c.inode] else old(redir)
    {
      ok := works && slot <= 1;
      if ok {
        redir := redir[slot := c.inode];
      }
    }

    /** `rescan_slot`: nothing when the held listener is healthy or is found again, else a
        fresh listener that is now in the slot. Success means the slot has a live listener. */
    method RescanSlot(slot: nat, have: Option<Captured>, snap: Snapshot, works: bool)
      returns (r: Result<Option<Captured>>)
      requires slot <= 1 && (have.Some? ==> have.value.pid != own)
      modifies `redir
      ensures r == Rescanned(own, have, snap, works)
      ensures r.Err? ==> redir == old(redir)
      ensures r == Ok(None) ==> redir == old(redir) && have.Some? && Live(own, snap, have.value)
      ensures r.Ok? && r.value.Some? ==>
        Live(own, snap, r.value.value) && redir == old(redir)[slot := r.value.value.inode]
      ensures r.Ok? && r.value.Some? && have.Some? ==> r.value.value != have.value
      ensures snap.Discoverable(own) && works ==> r.Ok?
    {
      if have.Some? {
        var c := have.value;
        var ownerOk := c.life in snap.alive && snap.Holds(c.pid, c.inode);
        if !snap.tcpReads {
          return Err;
        }
        if ownerOk && c.inode in snap.accepting && c.inode in snap.Listening() {
          return Ok(None);
        }
      }
      var found := FindListener(own, snap);
      if found.Err? {
        return Err;
      }
      var c := found.value;
      if have.Some? && have.value.inode == c.inode && have.value.pid == c.pid {
        return Ok(None);
      }
      var ok := Register(slot, c, works);
      return if ok then Ok(Some(c)) else Err;
    }

    /** A slot's rescan, and the new descriptor in its place. */
    method RescanInto(slot: nat, snap: Snapshot, works: bool) returns (r: Result<bool>)
      requires Agrees() && slot <= 1 && slot <= |held|
      modifies `held, `redir
      ensures Agrees() && |held| >= |old(held)|
      ensures
        match Rescanned(own, Slot(old(held), slot), snap, works)
        case Err => r.Err? && held == old(held)
        case Ok(None) => r == Ok(false) && held == old(held)
        case Ok(Some(c)) => r == Ok(true) && held == Put(old(held), slot, c)
      ensures r.Ok? ==> slot < |held| && Live(own, snap, held[slot])
      ensures r == Ok(true) ==> held != old(held)
      ensures snap.Discoverable(own) && works ==> r.Ok?
    {
      var found := RescanSlot(slot, Slot(held, slot), snap, works);
      if found.Err? {
        return Err;
      }
      if found.value.Some? {
        held := Put(held, slot, found.value.value);
      }
      return Ok(found.value.Some?);
    }

    /** `rescan_held`. A slot whose rescan fails keeps what it had; the other slot may already
        have moved, and then both its descriptor and its SOCKMAP entry moved. */
    method RescanHeld(round: Round) returns (r: Result<nat>)
      requires Agrees()
      modifies `held, `redir
      ensures Agrees() && |held| >= |old(held)|
      ensures held == HeldAfter(own, old(held), round)
      ensures r.Ok? ==> (r.value == 0 <==> held == old(held)) && r.value <= 2
      ensures r.Ok? ==> |held| >= 1 && Live(own, round.primary, held[0])
      ensures r.Ok? && round.tls.Some? ==> |held| == 2 && Live(own, round.tls.value, held[1])
      ensures round.tls.None? && |old(held)| == 2 ==> held[1] == old(held[1])
      ensures
        && round.primary.Discoverable(own) && round.putPrimary
        && (round.tls.Some? ==> round.tls.value.Discoverable(own) && round.putTls)
        ==> r.Ok?
    {
      var primary := RescanInto(0, round.primary, round.putPrimary);
      if primary.Err? {
        return Err;
      }
      var changed := if primary.value then 1 else 0;
      if round.tls.Some? {
        var tls := RescanInto(1, round.tls.value, round.putTls);
        if tls.Err? {
          return Err;
        }
        changed := changed + if tls.value then 1 else 0;
      }
      return Ok(changed);
    }

    /** Poll until a listener shows up; the polls end at the deadline. */
    method WaitForListener(polls: seq<Snapshot>) returns (r: Result<Captured>)
      ensures r.Ok? <==> exists i :: 0 <= i < |polls| && polls[i].Discoverable(own)
      ensures r.Ok? ==> r.value.pid != own && exists i :: 0 <= i < |polls| && Live(own, polls[i], r.value)
    {
      for i := 0 to |polls|
        invariant forall j | 0 <= j < i :: !polls[j].Discoverable(own)
      {
        r := FindListener(own, polls[i]);
        if r.Ok? {
          return;
        }
      }
      return Err;
    }

    /** One slot of the start-up: wait, register, open its ports, keep the descriptor. */
    method Hold(slot: nat, polls: seq<Snapshot>, puts: bool, opens: bool) returns (ok: bool)
      requires Agrees() && |held| == slot <= 1
      modifies `held, `redir
      ensures Agrees() && |held| == if ok then slot + 1 else slot
      ensures held[..slot] == old(held)
      ensures ok ==> exists i :: 0 <= i < |polls| && Live(own, polls[i], held[slot])
      ensures ok <==> puts && opens && exists i :: 0 <= i < |polls| && polls[i].Discoverable(own)
    {
      var found := WaitForListener(polls);
      if found.Err? {
        return false;
      }
      var stored := Register(slot, found.value, puts);
      if !stored || !opens {
        return false;
      }
      held := held + [found.value];
      return true;
    }

    /** `run_openresty_mode`, whatever the pinned SOCKMAP held before. `opens` tells whether
        the ports of each slot could be opened. */
    method StartUp(polls: seq<Snapshot>, tls: bool, tlsPolls: seq<Snapshot>, puts: (bool, bool), opens: (bool, bool))
      returns (ok: bool)
      requires held == []
      modifies `held, `redir
      ensures Agrees()
      ensures ok ==> |held| == if tls then 2 else 1
      ensures
        ok <==>
          && puts.0 && opens.0 && (exists i :: 0 <= i < |polls| && polls[i].Discoverable(own))
          && (tls ==> puts.1 && opens.1 && exists i :: 0 <= i < |tlsPolls| && tlsPolls[i].Discoverable(own))
      ensures ok ==> exists i :: 0 <= i < |polls| && Live(own, polls[i], held[0])
      ensures ok && tls ==> exists i :: 0 <= i < |tlsPolls| && Live(own, tlsPolls[i], held[1])
    {
      ok := Hold(0, polls, puts.0, opens.0);
      if ok && tls {
        ok := Hold(1, tlsPolls, puts.1, opens.1);
      }
    }

    /** The health loop: any number of rounds, each of which may fail. */
    method Serve(rounds: seq<Round>)
      requires Agrees()
      modifies `held, `redir
      ensures Agrees() && |held| >= |old(held)|
      ensures held == HeldOver(own, old(held), rounds)
    {
      for i := 0 to |rounds|
        invariant Agrees() && |held| >= |old(held)|
        invariant held == HeldOver(own, old(held), rounds[..i])
      {
        assert rounds[..i + 1][..i] == rounds[..i];
        var r := RescanHeld(rounds[i]);
      }
      assert rounds[..|rounds|] == rounds;
    }
  }

  lemma {:induction false} HeldStaysForeign(own: nat, held: seq<Captured>, rounds: seq<Round>)
    requires |held| <= 2 && forall i | 0 <= i < |held| :: held[i].pid != own
    ensures
      var now := HeldOver(own, held, rounds);
      |held| <= |now| <= 2 && forall i | 0 <= i < |now| :: now[i].pid != own
    decreases |rounds|
  {
    if rounds != [] {
      var n := |rounds| - 1;
      HeldStaysForeign(own, held, rounds[..n]);
      RoundRevives(own, HeldOver(own, held, rounds[..n]), rounds[n]);
    }
  }

  /** However the earlier rounds went: if the last one can find and register a listener for the
      first slot, what is held for it is live. */
  lemma LastRoundRevives(own: nat, held: seq<Captured>, rounds: seq<Round>)
    requires rounds != [] && |held| <= 2 && forall i | 0 <= i < |held| :: held[i].pid != own
    ensures
      var last, now := rounds[|rounds| - 1], HeldOver(own, held, rounds);
      last.primary.Discoverable(own) && last.putPrimary ==> |now| >= 1 && Live(own, last.primary, now[0])
    ensures
      var last, now := rounds[|rounds| - 1], HeldOver(own, held, rounds);
      && last.primary.Discoverable(own) && last.putPrimary
      && last.tls.Some? && last.tls.value.Discoverable(own) && last.putTls
      ==> |now| == 2 && Live(own, last.tls.value, now[1])
  {
    var n := |rounds| - 1;
    HeldStaysForeign(own, held, rounds[..n]);
    RoundRevives(own, HeldOver(own, held, rounds[..n]), rounds[n]);
    FoundIsLive(own, rounds[n].primary);
  }
}
