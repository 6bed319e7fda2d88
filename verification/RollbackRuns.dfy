/** What `rollback` and a loader restart leave behind, for every set of failing calls and
    every crash point, and how rollback repairs a cut upgrade. */
module RollbackRuns {
  import opened Prelude
  import opened Pins
  import opened Transaction
  import opened ActivateRuns

  function Kept(s: PinState): Prog {
    if s.previous.Some? then s.previous.value else 0
  }

  // ---- Closed form of a rollback ----------------------------------------------------

  function ExpectedRollback(at: RollbackSite, s: PinState, faults: set<Site>): PinState {
    match at
    case RbReadJournal => s
    case ProbePrevious => s
    case DropLeftover => s
    case MarkCleared => s.DropCandidate(Rb(DropLeftover) !in faults)
    case ProbeLink => s
    case MarkRollingBack => s
    case _ => s.(journal := Some(RollingBack))
  }

  function ExpectedRestore(at: RestoreSite, s: PinState, faults: set<Site>): PinState {
    var relinked := s.(journal := Some(RollingBack), link := Attached(Kept(s)));
    var moved := relinked.LiveToCandidate(Restore(ProbeLive) !in faults && Restore(MoveLive) !in faults);
    var restored := moved.PreviousToLive(true);
    match at
    case ProbeLive => relinked
    case MoveLive => relinked
    case RestorePin => moved
    case DropReplaced => restored
    case MarkRolledBack => restored.DropCandidate(Restore(DropReplaced) !in faults)
  }

  /** Rollback sees a `prog_previous` to restore. */
  predicate Restores(s: PinState, faults: set<Site>) {
    s.previous.Some? && Rb(ProbePrevious) !in faults
  }

  predicate RestoreTried(at: RollbackSite) {
    at.RestoreLink? || at.MarkRestoreFailed?
  }

  predicate RollbackBefore(at: RollbackSite, s: PinState, faults: set<Site>) {
    && (at.RbReadJournal? || Rb(RbReadJournal) !in faults)
    && (at.DropLeftover? || at.MarkCleared? ==> !Restores(s, faults))
    && (at.RbReadJournal? || at.ProbePrevious? || at.DropLeftover? || at.MarkCleared? || Restores(s, faults))
    && (at.MarkRollingBack? || at.OpenPrevious? || at.RbOpenLink? || RestoreTried(at) ==>
          Rb(ProbeLink) !in faults && !s.link.Unpinned?)
    && (at.OpenPrevious? || at.RbOpenLink? || RestoreTried(at) ==> Rb(MarkRollingBack) !in faults)
    && (at.RbOpenLink? || RestoreTried(at) ==> Rb(OpenPrevious) !in faults)
    && (RestoreTried(at) ==> Rb(RbOpenLink) !in faults)
    && (at.MarkRestoreFailed? ==> Rb(RestoreLink) in faults || !s.link.Attached?)
  }

  predicate RelinkWorks(s: PinState, faults: set<Site>) {
    RollbackBefore(RestoreLink, s, faults) && s.link.Attached? && Rb(RestoreLink) !in faults
  }

  /** The rollback is in the state the closed form says, for the reasons it says. */
  predicate Rolling(c: Config, s: PinState, faults: set<Site>) {
    c.proc.Running? ==>
      match c.proc.at
      case Rb(a) =>
        && c.pins == ExpectedRollback(a, s, faults)
        && RollbackBefore(a, s, faults)
        && (a.RbOpenLink? || a.RestoreLink? ==> c.proc.held == Kept(s))
      case Restore(a) =>
        && c.pins == ExpectedRestore(a, s, faults)
        && RelinkWorks(s, faults)
        && (a.MoveLive? ==> Restore(ProbeLive) !in faults && s.prog.Some?)
        && (a.DropReplaced? || a.MarkRolledBack? ==> Restore(RestorePin) !in faults)
      case _ => false
  }

  lemma Roll(c: Config, s: PinState, faults: set<Site>)
    requires c.proc.Running? && Rolling(c, s, faults)
    ensures Rolling(Step(c, faults), s, faults) && ReturnsClean(c, Step(c, faults))
  {
    match c.proc.at
    case Rb(a) =>
      if Deciding(a) {
        RollDecide(c, s, faults);
      } else {
        RollBack(c, s, faults);
      }
    case Restore(a) => RollOn(c, s, faults);
    case _ => assert false;
  }

  predicate Deciding(at: RollbackSite) {
    at.RbReadJournal? || at.ProbePrevious? || at.DropLeftover? || at.MarkCleared?
  }

  lemma RollDecide(c: Config, s: PinState, faults: set<Site>)
    requires c.proc.Running? && c.proc.at.Rb? && Deciding(c.proc.at.r) && Rolling(c, s, faults)
    ensures Rolling(Step(c, faults), s, faults) && ReturnsClean(c, Step(c, faults))
  {}

  lemma RollBack(c: Config, s: PinState, faults: set<Site>)
    requires c.proc.Running? && c.proc.at.Rb? && !Deciding(c.proc.at.r) && Rolling(c, s, faults)
    ensures Rolling(Step(c, faults), s, faults) && ReturnsClean(c, Step(c, faults))
  {}

  lemma RollOn(c: Config, s: PinState, faults: set<Site>)
    requires c.proc.Running? && c.proc.at.Restore? && Rolling(c, s, faults)
    ensures Rolling(Step(c, faults), s, faults) && ReturnsClean(c, Step(c, faults))
  {}

  lemma {:induction false} CutRolling(c: Config, s: PinState, faults: set<Site>, n: nat)
    requires Rolling(c, s, faults)
    ensures Rolling(Cut(c, faults, n), s, faults)
    decreases n
  {
    if n > 0 && c.proc.Running? {
      Roll(c, s, faults);
      CutRolling(Step(c, faults), s, faults, n - 1);
    }
  }

  /** The running configuration behind a crash point of a rollback. */
  lemma BehindRollback(s: PinState, faults: set<Site>, n: nat) returns (c: Config)
    ensures c.proc.Running? && Rolling(c, s, faults)
    ensures
      var d := Cut(StartRollback(s), faults, n);
      && (d.proc.Running? ==> c == d)
      && (d.proc.Returned? ==> d == Step(c, faults) && d.pins == c.pins.(journal := d.pins.journal))
  {
    var start := StartRollback(s);
    var m := n;
    if Cut(start, faults, n).proc.Returned? {
      m := ReturnedByStep(start, faults, n);
    }
    CutRolling(start, s, faults, m);
    c := Cut(start, faults, m);
    Roll(c, s, faults);
  }

  function Rollback(s: PinState, faults: set<Site>): Config {
    Finish(StartRollback(s), faults)
  }

  /** The step a complete rollback ends with. */
  lemma LastOfRollback(s: PinState, faults: set<Site>) returns (c: Config)
    ensures c.proc.Running? && Rolling(c, s, faults)
    ensures Rollback(s, faults) == Step(c, faults)
  {
    FinishIsCut(StartRollback(s), faults, 15);
    c := BehindRollback(s, faults, 15);
  }

  /** A rollback returns Ok exactly when it sees no `prog_previous` and can write the
      journal, or sees one and every call up to the last journal write works. */
  lemma RollbackOkIff(s: PinState, faults: set<Site>)
    ensures
      Rollback(s, faults).proc.ok <==>
        if Restores(s, faults)
        then RelinkWorks(s, faults) && Restore(RestorePin) !in faults && Restore(MarkRolledBack) !in faults
        else Rb(RbReadJournal) !in faults && Rb(MarkCleared) !in faults
  {
    var c := LastOfRollback(s, faults);
  }

  /** With no `prog_previous` to see, a completed rollback leaves link and `prog` alone. */
  lemma RollbackClears(s: PinState, faults: set<Site>)
    requires Rollback(s, faults).proc.ok && !Restores(s, faults)
    ensures
      Rollback(s, faults).pins ==
        s.(journal := Some(RolledBack), candidate := if Rb(DropLeftover) in faults then s.candidate else None)
  {
    var c := LastOfRollback(s, faults);
  }

  /** Otherwise it moves both to the program `prog_previous` held. */
  lemma RollbackRestores(s: PinState, faults: set<Site>)
    requires Rollback(s, faults).proc.ok && Restores(s, faults)
    ensures
      var r := Rollback(s, faults).pins;
      && r == s.(journal := Some(RolledBack), link := Attached(s.previous.value), prog := s.previous,
                 previous := None, candidate := r.candidate)
      && (Restore(DropReplaced) !in faults ==> r.candidate.None?)
  {
    var c := LastOfRollback(s, faults);
  }

  /** The journal a rollback leaves: unchanged if it gives up before its first write, `failed`
      if the link refuses, `rolling_back` if it stops after its first write. */
  function JournalAfter(s: PinState, faults: set<Site>): Option<Phase> {
    if Rb(RbReadJournal) in faults then s.journal
    else if !Restores(s, faults) then if Rb(MarkCleared) in faults then s.journal else Some(RolledBack)
    else if Rb(ProbeLink) in faults || s.link.Unpinned? || Rb(MarkRollingBack) in faults then s.journal
    else if Rb(OpenPrevious) in faults || Rb(RbOpenLink) in faults then Some(RollingBack)
    else if Rb(RestoreLink) in faults || !s.link.Attached? then
      Some(if Rb(MarkRestoreFailed) in faults then RollingBack else Failed)
    else if Restore(RestorePin) in faults || Restore(MarkRolledBack) in faults then Some(RollingBack)
    else Some(RolledBack)
  }

  /** For every state and every set of failing calls. A rollback whose link update is refused
      leaves every pin as it was, and the gate open unless that write fails too. */
  lemma RollbackJournal(s: PinState, faults: set<Site>)
    ensures Rollback(s, faults).pins.journal == JournalAfter(s, faults)
    ensures
      Restores(s, faults) && (Rb(RestoreLink) in faults || !s.link.Attached?) ==>
        Rollback(s, faults).pins == s.(journal := JournalAfter(s, faults))
  {
    var c := LastOfRollback(s, faults);
  }

  /** At every crash point of a rollback the backup link and both maps are as before, and
      an attached primary link carries the program it had or the one `prog_previous` held. */
  lemma RollbackLeavesNoGap(s: PinState, faults: set<Site>, n: nat)
    ensures
      var t := Cut(StartRollback(s), faults, n).pins;
      && t.backup == s.backup && t.openPorts == s.openPorts && t.redirSocket == s.redirSocket
      && (!s.link.Attached? ==> t.link == s.link)
      && (s.link.Attached? ==> t.link == s.link || (s.previous.Some? && t.link == Attached(s.previous.value)))
  {
    var c := BehindRollback(s, faults, n);
  }

  // ---- Convergence ------------------------------------------------------------------

  /** `target` is still waiting in `prog_previous`, or an earlier run has already moved it
      to the link and to `prog`. */
  predicate Converging(s: PinState, target: Prog) {
    s.link.Attached? && (s.previous == Some(target) || (s.previous.None? && s.Agrees() && s.prog == Some(target)))
  }

  /** No failing call and no crash of a rollback loses the program being restored. */
  lemma CutKeepsConverging(s: PinState, target: Prog, faults: set<Site>, n: nat)
    requires Converging(s, target)
    ensures Converging(Cut(StartRollback(s), faults, n).pins, target)
  {
    var c := BehindRollback(s, faults, n);
  }

  datatype Attempt = Attempt(faults: set<Site>, steps: nat)

  /** Rollback runs one after another, each with its own failing calls and crash point. */
  function Attempts(s: PinState, tries: seq<Attempt>): PinState
    decreases |tries|
  {
    if tries == [] then s
    else Attempts(Cut(StartRollback(s), tries[0].faults, tries[0].steps).pins, tries[1..])
  }

  lemma {:induction false} AttemptsConverge(s: PinState, target: Prog, tries: seq<Attempt>)
    requires Converging(s, target)
    ensures Converging(Attempts(s, tries), target)
    decreases |tries|
  {
    if tries != [] {
      CutKeepsConverging(s, target, tries[0].faults, tries[0].steps);
      AttemptsConverge(Cut(StartRollback(s), tries[0].faults, tries[0].steps).pins, target, tries[1..]);
    }
  }

  /** After any number of failing or crashing rollbacks, one undisturbed rollback ends with
      link and `prog` on the program `prog_previous` held, no other program pin, and a
      journal that lets the next upgrade in. */
  lemma RollbackConverges(s: PinState, target: Prog, tries: seq<Attempt>)
    requires s.link.Attached? && s.previous == Some(target)
    ensures
      var r := Rollback(Attempts(s, tries), {});
      && r.proc.ok
      && r.pins.link == Attached(target) && r.pins.prog == Some(target)
      && r.pins.previous.None? && r.pins.candidate.None?
      && r.pins.journal == Some(RolledBack) && GateOpen(r.pins)
  {
    AttemptsConverge(s, target, tries);
    var t := Attempts(s, tries);
    RollbackOkIff(t, {});
    if t.previous.Some? {
      RollbackRestores(t, {});
    } else {
      RollbackClears(t, {});
    }
  }

  // ---- Rollback after a cut upgrade -------------------------------------------------

  /** A rollback that completes makes link and `prog` agree exactly when it found a
      `prog_previous`, or they agreed already. */
  lemma RollbackAgreesIff(s: PinState, faults: set<Site>)
    requires Rollback(s, faults).proc.ok
    ensures Rollback(s, faults).pins.Agrees() <==> (s.previous.Some? && Rb(ProbePrevious) !in faults) || s.Agrees()
    ensures
      s.previous.None? || Rb(ProbePrevious) in faults ==>
        Rollback(s, faults).pins.link == s.link && Rollback(s, faults).pins.prog == s.prog
  {
    if s.previous.Some? && Rb(ProbePrevious) !in faults {
      RollbackOkIff(s, faults);
      RollbackRestores(s, faults);
    } else {
      RollbackClears(s, faults);
    }
  }

  /** Crash an upgrade anywhere, with any calls failing, or let it return; then complete a
      rollback that finds what is there: link and `prog` agree if and only if the crash point
      is not lost. In the window the candidate stays on the link. */
  lemma CrashThenRollback(s: PinState, candidate: Prog, faults: set<Site>, n: nat, later: set<Site>)
    requires Recoverable(s) && s.prog != Some(candidate)
    requires Rb(ProbePrevious) !in later
    requires Rollback(Cut(StartActivate(s, candidate), faults, n).pins, later).proc.ok
    ensures
      var c := Cut(StartActivate(s, candidate), faults, n);
      var r := Rollback(c.pins, later).pins;
      && (r.Agrees() <==> !LostAt(c, s, candidate, faults))
      && (InWindow(c) ==> r.link == Attached(candidate) && r.prog == s.prog)
  {
    var c := Cut(StartActivate(s, candidate), faults, n);
    CrashPointIsRecoverableIff(s, candidate, faults, n);
    ActivateLeavesNoGap(s, candidate, faults, n);
    WindowPins(s, candidate, faults, n);
    RollbackAgreesIff(c.pins, later);
  }

  /** The pins of a machine that has been loaded and never upgraded. */
  predicate NeverUpgraded(s: PinState) {
    s.Agrees() && s.MapsPinned() && s.previous.None? && s.candidate.None? && s.journal.None?
  }

  /** The window is real: every undisturbed first upgrade is in it after eleven steps. */
  lemma WindowIsReached(s: PinState, candidate: Prog)
    requires NeverUpgraded(s)
    ensures InWindow(Cut(StartActivate(s, candidate), {}, 11))
  {}

  /** Recoverability survives every crash point of a rollback, whatever fails. */
  lemma RollbackKeepsRecoverable(s: PinState, faults: set<Site>, n: nat)
    requires Recoverable(s)
    ensures Recoverable(Cut(StartRollback(s), faults, n).pins)
  {
    var c := BehindRollback(s, faults, n);
  }
}
