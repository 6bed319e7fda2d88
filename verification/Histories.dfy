/** Loader restarts, and histories that mix restarts, upgrades, rollbacks and crashes. Runs
    follow one another; a crash ends a run and the next event starts a new one. */
module Histories {
  import opened Prelude
  import opened Pins
  import opened Transaction
  import opened ActivateRuns
  import opened RollbackRuns

  // ---- Loader restart ---------------------------------------------------------------

  /** What a restart may have changed so far. */
  predicate RestartChanged(s: PinState, t: PinState, loaded: Prog) {
    && (t.link == s.link || (!s.link.Detached? && t.link == Attached(loaded)))
    && (t.backup == s.backup || (s.backup.Unpinned? && t.backup == Attached(loaded)))
    && (t.prog == s.prog || (s.prog.None? && t.prog == Some(loaded)))
    && (s.openPorts ==> t.openPorts) && (s.redirSocket ==> t.redirSocket)
    && t.previous == s.previous && t.candidate == s.candidate && t.journal == s.journal
  }

  predicate Loading(c: Config, s: PinState, loaded: Prog) {
    && RestartChanged(s, c.pins, loaded)
    && (c.proc.Running? ==>
          && c.proc.loaded == loaded
          && match c.proc.at
             case Ld(_) => true
             case Keep(a) =>
               && c.pins.link == Attached(loaded)
               && (a.PinOpenPorts? || a.PinRedirSocket? ==> c.pins.prog.Some?)
               && (a.PinRedirSocket? ==> c.pins.openPorts)
             case _ => false)
    && (c.proc == Returned(true) ==> c.pins.link == Attached(loaded) && c.pins.prog.Some? && c.pins.MapsPinned())
  }

  lemma LoadStep(c: Config, s: PinState, loaded: Prog, faults: set<Site>)
    requires c.proc.Running? && Loading(c, s, loaded)
    ensures Loading(Step(c, faults), s, loaded)
  {
    match c.proc.at
    case Ld(a) => AttachStep(c, s, loaded, a, c.proc.at !in faults);
    case Keep(a) => KeepStep(c, s, loaded, a, c.proc.at !in faults);
    case _ => assert false;
  }

  lemma AttachStep(c: Config, s: PinState, loaded: Prog, a: LoaderSite, works: bool)
    requires c.proc.Running? && Loading(c, s, loaded) && c.proc.at == Ld(a)
    ensures Loading(StepLoader(c.pins, c.proc, a, works), s, loaded)
  {}

  lemma KeepStep(c: Config, s: PinState, loaded: Prog, a: PinSite, works: bool)
    requires c.proc.Running? && Loading(c, s, loaded) && c.proc.at == Keep(a)
    ensures Loading(StepKeep(c.pins, c.proc, a, works), s, loaded)
  {}

  lemma {:induction false} CutLoading(c: Config, s: PinState, loaded: Prog, faults: set<Site>, n: nat)
    requires Loading(c, s, loaded)
    ensures Loading(Cut(c, faults, n), s, loaded)
    decreases n
  {
    if n > 0 && c.proc.Running? {
      LoadStep(c, s, loaded, faults);
      CutLoading(Step(c, faults), s, loaded, faults, n - 1);
    }
  }

  function Restart(s: PinState, loaded: Prog, faults: set<Site>): Config {
    Finish(StartLoader(s, loaded), faults)
  }

  /** A completed restart puts the loaded program on the primary link but keeps an existing
      `prog` pin, so link and `prog` agree afterwards exactly when there was no such pin or
      it held the loaded program. */
  lemma RestartAgreesIff(s: PinState, loaded: Prog, faults: set<Site>)
    requires Restart(s, loaded, faults).proc.ok
    ensures
      var t := Restart(s, loaded, faults).pins;
      && t.link == Attached(loaded) && t.MapsPinned()
      && (s.prog.Some? ==> t.prog == s.prog)
      && (t.Agrees() <==> s.prog.None? || s.prog == Some(loaded))
  {
    FinishIsCut(StartLoader(s, loaded), faults, 13);
    CutLoading(StartLoader(s, loaded), s, loaded, faults, 13);
  }

  // ---- Where a cut restart leaves the link ------------------------------------------

  /** The restart gets past the backup link: kept when it is seen, else attached and pinned. */
  predicate PassesBackup(s: PinState, faults: set<Site>) {
    if Ld(ProbeBackup) !in faults && !s.backup.Unpinned? then true
    else faults !! {Ld(AttachBackup), Ld(PinBackup)} && s.backup.Unpinned?
  }

  /** A restart carried to its end puts the loaded program on the primary link. */
  predicate LinkMoves(s: PinState, faults: set<Site>) {
    && Ld(Load) !in faults && PassesBackup(s, faults)
    && if Ld(ProbePrimary) !in faults && !s.link.Unpinned?
       then faults !! {Ld(OpenPrimary), Ld(UpdatePrimary)} && s.link.Attached?
       else faults !! {Ld(AttachPrimary), Ld(PinPrimary)} && s.link.Unpinned?
  }

  /** And keeps or pins `prog`, and the maps. */
  predicate KeepsPins(s: PinState, faults: set<Site>) {
    && (if Keep(ProbeProg) !in faults && s.prog.Some? then true else Keep(PinProg) !in faults && s.prog.None?)
    && faults !! {Keep(PinOpenPorts), Keep(PinRedirSocket)}
  }

  /** The link has moved at the crash point: while the restart is under way by its site, after
      it by the calls that failed. */
  predicate MovedAt(c: Config, s: PinState, faults: set<Site>) {
    if c.proc.Running? then c.proc.at.Keep? else LinkMoves(s, faults)
  }

  /** The backup link once the restart is past it: the pinned one, or a new one. */
  function BackupAfter(s: PinState, loaded: Prog): Link {
    if s.backup.Unpinned? then Attached(loaded) else s.backup
  }

  function ProgAfter(s: PinState, loaded: Prog): Option<Prog> {
    if s.prog.None? then Some(loaded) else s.prog
  }

  predicate BeforeBackup(at: LoaderSite) {
    at.Load? || at.ProbeBackup? || at.AttachBackup? || at.PinBackup?
  }

  predicate LoadedBefore(at: LoaderSite, s: PinState, faults: set<Site>) {
    && (!at.Load? ==> Ld(Load) !in faults)
    && (at.AttachBackup? || at.PinBackup? ==> Ld(ProbeBackup) in faults || s.backup.Unpinned?)
    && (at.PinBackup? ==> Ld(AttachBackup) !in faults)
    && (BeforeBackup(at) || PassesBackup(s, faults))
    && (at.OpenPrimary? || at.UpdatePrimary? ==> Ld(ProbePrimary) !in faults && !s.link.Unpinned?)
    && (at.UpdatePrimary? ==> Ld(OpenPrimary) !in faults)
    && (at.AttachPrimary? || at.PinPrimary? ==> Ld(ProbePrimary) in faults || s.link.Unpinned?)
    && (at.PinPrimary? ==> Ld(AttachPrimary) !in faults)
  }

  predicate KeptBefore(at: PinSite, s: PinState, faults: set<Site>) {
    && (at.PinProg? ==> Keep(ProbeProg) in faults || s.prog.None?)
    && (at.PinOpenPorts? || at.PinRedirSocket? ==>
          (Keep(ProbeProg) !in faults && s.prog.Some?) || (Keep(PinProg) !in faults && s.prog.None?))
    && (at.PinRedirSocket? ==> Keep(PinOpenPorts) !in faults)
  }

  /** What the restart has made of the pins when it is about to make the call at this site. */
  function AttachedSoFar(at: Site, s: PinState, loaded: Prog): PinState {
    match at
    case Ld(a) => if BeforeBackup(a) then s else s.(backup := BackupAfter(s, loaded))
    case Keep(a) =>
      var linked := s.(backup := BackupAfter(s, loaded), link := Attached(loaded));
      (match a
       case ProbeProg => linked
       case PinProg => linked
       case PinOpenPorts => linked.(prog := ProgAfter(s, loaded))
       case PinRedirSocket => linked.(prog := ProgAfter(s, loaded), openPorts := true))
    case _ => s
  }

  function Loaded(s: PinState, loaded: Prog): PinState {
    s.(backup := BackupAfter(s, loaded), link := Attached(loaded), prog := ProgAfter(s, loaded),
       openPorts := true, redirSocket := true)
  }

  predicate Attaching(c: Config, s: PinState, loaded: Prog, faults: set<Site>) {
    && c.pins.link == (if MovedAt(c, s, faults) then Attached(loaded) else s.link)
    && (c.proc.Running? ==>
          && c.proc.loaded == loaded && c.pins == AttachedSoFar(c.proc.at, s, loaded)
          && match c.proc.at
             case Ld(a) => LoadedBefore(a, s, faults)
             case Keep(a) => LinkMoves(s, faults) && KeptBefore(a, s, faults)
             case _ => false)
    && (c.proc.Returned? ==>
          && (LinkMoves(s, faults) ==> c.pins.backup == BackupAfter(s, loaded))
          && (c.proc.ok <==> LinkMoves(s, faults) && KeepsPins(s, faults))
          && (c.proc.ok ==> c.pins == Loaded(s, loaded)))
  }

  lemma AttachingStep(c: Config, s: PinState, loaded: Prog, faults: set<Site>)
    requires c.proc.Running? && Attaching(c, s, loaded, faults)
    ensures Attaching(Step(c, faults), s, loaded, faults)
  {
    match c.proc.at
    case Ld(a) =>
      if BeforeBackup(a) {
        BackupStep(c, s, loaded, faults);
      } else {
        PrimaryStep(c, s, loaded, faults);
      }
    case Keep(_) => PinStep(c, s, loaded, faults);
    case _ => assert false;
  }

  lemma BackupStep(c: Config, s: PinState, loaded: Prog, faults: set<Site>)
    requires c.proc.Running? && Attaching(c, s, loaded, faults) && c.proc.at.Ld? && BeforeBackup(c.proc.at.l)
    ensures Attaching(Step(c, faults), s, loaded, faults)
  {}

  lemma PrimaryStep(c: Config, s: PinState, loaded: Prog, faults: set<Site>)
    requires c.proc.Running? && Attaching(c, s, loaded, faults) && c.proc.at.Ld? && !BeforeBackup(c.proc.at.l)
    ensures Attaching(Step(c, faults), s, loaded, faults)
  {}

  lemma PinStep(c: Config, s: PinState, loaded: Prog, faults: set<Site>)
    requires c.proc.Running? && Attaching(c, s, loaded, faults) && c.proc.at.Keep?
    ensures Attaching(Step(c, faults), s, loaded, faults)
  {}

  lemma {:induction false} CutAttaching(c: Config, s: PinState, loaded: Prog, faults: set<Site>, n: nat)
    requires Attaching(c, s, loaded, faults)
    ensures Attaching(Cut(c, faults, n), s, loaded, faults)
    decreases n
  {
    if n > 0 && c.proc.Running? {
      AttachingStep(c, s, loaded, faults);
      CutAttaching(Step(c, faults), s, loaded, faults, n - 1);
    }
  }

  /** When a restart succeeds, for every state and every set of failing calls, and what it leaves:
      both links attached, `prog` and both maps pinned, what was pinned before kept. */
  lemma RestartOkIff(s: PinState, loaded: Prog, faults: set<Site>)
    ensures Restart(s, loaded, faults).proc.ok <==> LinkMoves(s, faults) && KeepsPins(s, faults)
    ensures
      Restart(s, loaded, faults).proc.ok ==>
        Restart(s, loaded, faults).pins ==
          s.(backup := if s.backup.Unpinned? then Attached(loaded) else s.backup,
             link := Attached(loaded), prog := if s.prog.None? then Some(loaded) else s.prog,
             openPorts := true, redirSocket := true)
  {
    FinishIsCut(StartLoader(s, loaded), faults, 13);
    CutAttaching(StartLoader(s, loaded), s, loaded, faults, 13);
  }

  /** At every crash point: a restart that has moved the primary link, or has succeeded, has the
      backup link pinned, the old one if there was one. */
  lemma BackupComesFirst(s: PinState, loaded: Prog, faults: set<Site>, n: nat)
    ensures
      var t := Cut(StartLoader(s, loaded), faults, n);
      t.proc == Returned(true) || t.pins.link != s.link ==>
        t.pins.backup == if s.backup.Unpinned? then Attached(loaded) else s.backup
  {
    CutAttaching(StartLoader(s, loaded), s, loaded, faults, n);
  }

  /** A restart cut anywhere, or carried to its end, with any calls failing: a recoverable state
      stays recoverable exactly when there is a `prog_previous`, `prog` holds the loaded program,
      or the link has not moved. */
  lemma RestartIsRecoverableIff(s: PinState, loaded: Prog, faults: set<Site>, n: nat)
    requires Recoverable(s)
    ensures
      var c := Cut(StartLoader(s, loaded), faults, n);
      Recoverable(c.pins) <==> s.previous.Some? || s.prog == Some(loaded) || !MovedAt(c, s, faults)
  {
    CutLoading(StartLoader(s, loaded), s, loaded, faults, n);
    CutAttaching(StartLoader(s, loaded), s, loaded, faults, n);
  }

  /** For a completed restart that can be told beforehand. */
  lemma CompletedRestartIsRecoverableIff(s: PinState, loaded: Prog, faults: set<Site>)
    requires Recoverable(s) && Restart(s, loaded, faults).proc.ok
    ensures Recoverable(Restart(s, loaded, faults).pins) <==> s.previous.Some? || s.prog == Some(loaded)
  {
    RestartAgreesIff(s, loaded, faults);
    FinishIsCut(StartLoader(s, loaded), faults, 13);
    CutLoading(StartLoader(s, loaded), s, loaded, faults, 13);
  }

  // ---- Histories --------------------------------------------------------------------

  /** `Teardown` stands for detach and unpin, which may leave any pin state. */
  datatype Event =
    | Upgrading(candidate: Prog, faults: set<Site>, steps: nat)
    | RollingBackTo(faults: set<Site>, steps: nat)
    | Restarting(loaded: Prog, faults: set<Site>, steps: nat)
    | Teardown(left: PinState)

  function After(s: PinState, e: Event): PinState {
    match e
    case Upgrading(candidate, faults, steps) => Cut(StartActivate(s, candidate), faults, steps).pins
    case RollingBackTo(faults, steps) => Cut(StartRollback(s), faults, steps).pins
    case Restarting(loaded, faults, steps) => Cut(StartLoader(s, loaded), faults, steps).pins
    case Teardown(left) => left
  }

  function History(s: PinState, events: seq<Event>): PinState
    decreases |events|
  {
    if events == [] then s else History(After(s, events[0]), events[1..])
  }

  /** Programs an event can bring to the primary link. */
  predicate Brings(s: PinState, e: Event, p: Prog) {
    match e
    case Upgrading(candidate, _, _) => p == candidate || s.prog == Some(p)
    case RollingBackTo(_, _) => s.previous == Some(p)
    case Restarting(loaded, _, _) => p == loaded
    case Teardown(_) => true
  }

  /** What no event but a teardown breaks: an attached primary link stays attached, on its
      program or one the event may bring; a pinned backup link and pinned maps stay. */
  predicate NoGap(s: PinState, t: PinState) {
    && (s.link.Attached? ==> t.link.Attached?)
    && (!s.backup.Unpinned? ==> t.backup == s.backup)
    && (s.openPorts ==> t.openPorts) && (s.redirSocket ==> t.redirSocket)
  }

  lemma EventLeavesNoGap(s: PinState, e: Event)
    requires !e.Teardown?
    ensures NoGap(s, After(s, e))
    ensures s.link.Attached? ==> After(s, e).link == s.link || Brings(s, e, After(s, e).link.prog)
  {
    match e
    case Upgrading(candidate, faults, steps) => ActivateLeavesNoGap(s, candidate, faults, steps);
    case RollingBackTo(faults, steps) => RollbackLeavesNoGap(s, faults, steps);
    case Restarting(loaded, faults, steps) => CutLoading(StartLoader(s, loaded), s, loaded, faults, steps);
  }

  /** Over every history without a teardown the primary link is never without a program,
      the backup link never changes and no map is unpinned. */
  lemma {:induction false} HistoryLeavesNoGap(s: PinState, events: seq<Event>)
    requires forall i | 0 <= i < |events| :: !events[i].Teardown?
    ensures NoGap(s, History(s, events))
    decreases |events|
  {
    if events != [] {
      EventLeavesNoGap(s, events[0]);
      HistoryLeavesNoGap(After(s, events[0]), events[1..]);
    }
  }

  // ---- Where programs come from -----------------------------------------------------

  predicate In(p: Option<Prog>, programs: set<Prog>) {
    p.Some? ==> p.value in programs
  }

  /** Every program on a link or in a pin is one of these. */
  predicate AllFrom(s: PinState, programs: set<Prog>) {
    && (s.link.Attached? ==> s.link.prog in programs) && (s.backup.Attached? ==> s.backup.prog in programs)
    && In(s.prog, programs) && In(s.previous, programs) && In(s.candidate, programs)
  }

  /** What an event loads, or a teardown leaves, is one of these. */
  predicate LoadsFrom(e: Event, programs: set<Prog>) {
    match e
    case Upgrading(candidate, _, _) => candidate in programs
    case RollingBackTo(_, _) => true
    case Restarting(loaded, _, _) => loaded in programs
    case Teardown(left) => AllFrom(left, programs)
  }

  lemma UpgradeBringsOnly(c: Config, s: PinState, candidate: Prog, faults: set<Site>, programs: set<Prog>)
    requires c.proc.Running? && OnTrack(c, s, candidate, faults)
    requires AllFrom(s, programs) && candidate in programs
    ensures AllFrom(c.pins, programs)
  {
    match c.proc.at
    case Undo(a) => UndoBringsOnly(a, s, candidate, faults, programs);
    case Revert(a) => RevertBringsOnly(a, s, candidate, faults, programs);
    case _ =>
  }

  lemma UndoBringsOnly(at: UndoSite, s: PinState, candidate: Prog, faults: set<Site>, programs: set<Prog>)
    requires AllFrom(s, programs) && candidate in programs && s.link.Attached? && s.prog.Some?
    ensures AllFrom(ExpectedUndo(at, s, candidate, faults), programs)
  {}

  lemma RevertBringsOnly(at: RevertSite, s: PinState, candidate: Prog, faults: set<Site>, programs: set<Prog>)
    requires AllFrom(s, programs) && candidate in programs && s.link.Attached? && s.prog.Some?
    ensures AllFrom(ExpectedRevert(at, s, candidate, faults), programs)
  {}

  lemma RollbackBringsOnly(c: Config, s: PinState, faults: set<Site>, programs: set<Prog>)
    requires c.proc.Running? && Rolling(c, s, faults) && AllFrom(s, programs)
    ensures AllFrom(c.pins, programs)
  {}

  lemma EventBringsOnly(s: PinState, e: Event, programs: set<Prog>)
    requires AllFrom(s, programs) && LoadsFrom(e, programs)
    ensures AllFrom(After(s, e), programs)
  {
    match e
    case Upgrading(candidate, faults, steps) =>
      var c := Behind(s, candidate, faults, steps);
      UpgradeBringsOnly(c, s, candidate, faults, programs);
    case RollingBackTo(faults, steps) =>
      var c := BehindRollback(s, faults, steps);
      RollbackBringsOnly(c, s, faults, programs);
    case Restarting(loaded, faults, steps) => CutLoading(StartLoader(s, loaded), s, loaded, faults, steps);
    case Teardown(_) =>
  }

  /** Over every history, with any calls failing and any crashes, every program on a link or in
      a pin was there at the start, was loaded by an event, or was left by a teardown. */
  lemma {:induction false} HistoryBringsOnly(s: PinState, events: seq<Event>, programs: set<Prog>)
    requires AllFrom(s, programs) && forall i | 0 <= i < |events| :: LoadsFrom(events[i], programs)
    ensures AllFrom(History(s, events), programs)
    decreases |events|
  {
    if events != [] {
      EventBringsOnly(s, events[0], programs);
      HistoryBringsOnly(After(s, events[0]), events[1..], programs);
    }
  }

  // ---- Recoverable histories --------------------------------------------------------

  /** The events that keep a recoverable state recoverable: an upgrade not cut at, and not
      ending in, a lost state; any rollback; a restart with a `prog_previous` behind it, or with
      the program `prog` holds, or stopped before the link moves; a teardown that leaves a
      recoverable state. */
  predicate Harmless(s: PinState, e: Event) {
    match e
    case Upgrading(candidate, faults, steps) =>
      !LostAt(Cut(StartActivate(s, candidate), faults, steps), s, candidate, faults)
    case RollingBackTo(_, _) => true
    case Restarting(loaded, faults, steps) =>
      || s.previous.Some? || s.prog == Some(loaded)
      || !MovedAt(Cut(StartLoader(s, loaded), faults, steps), s, faults)
    case Teardown(left) => Recoverable(left)
  }

  /** Upgrades load new programs. */
  predicate LoadsNew(s: PinState, e: Event) {
    e.Upgrading? ==> s.prog != Some(e.candidate)
  }

  /** One event: these are exactly the events that keep a recoverable state recoverable. */
  lemma EventIsRecoverableIff(s: PinState, e: Event)
    requires Recoverable(s) && LoadsNew(s, e)
    ensures Recoverable(After(s, e)) <==> Harmless(s, e)
  {
    match e
    case Upgrading(candidate, faults, steps) => CrashPointIsRecoverableIff(s, candidate, faults, steps);
    case RollingBackTo(faults, steps) => RollbackKeepsRecoverable(s, faults, steps);
    case Restarting(loaded, faults, steps) => RestartIsRecoverableIff(s, loaded, faults, steps);
    case Teardown(_) =>
  }

  predicate AllHarmless(s: PinState, events: seq<Event>)
    decreases |events|
  {
    events == [] || (Harmless(s, events[0]) && LoadsNew(s, events[0]) && AllHarmless(After(s, events[0]), events[1..]))
  }

  lemma UndisturbedRollback(s: PinState)
    requires Recoverable(s)
    ensures
      var r := Rollback(s, {});
      r.proc.ok && r.pins.Agrees() && GateOpen(r.pins)
  {
    RollbackOkIff(s, {});
    RollbackAgreesIff(s, {});
    if s.previous.Some? {
      RollbackRestores(s, {});
    } else {
      RollbackClears(s, {});
    }
  }

  /** After any history of such events, restarts among them, each cut anywhere, one undisturbed
      rollback makes link and `prog` agree and opens the journal gate again. */
  lemma {:induction false} HistoryIsRecoverable(s: PinState, events: seq<Event>)
    requires Recoverable(s) && AllHarmless(s, events)
    ensures Recoverable(History(s, events))
    ensures
      var r := Rollback(History(s, events), {});
      r.proc.ok && r.pins.Agrees() && GateOpen(r.pins)
    decreases |events|
  {
    if events == [] {
      UndisturbedRollback(s);
    } else {
      EventIsRecoverableIff(s, events[0]);
      HistoryIsRecoverable(After(s, events[0]), events[1..]);
    }
  }
}
