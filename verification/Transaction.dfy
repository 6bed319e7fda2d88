/** `activate`, `rollback` and the loader's attach sequence as step machines. Every
    constructor of a site datatype is one syscall, probe or journal write, in the order of
    the source. A run carries the set of sites whose call fails; a crash is a run cut after
    any number of steps. A site is visited at most once per run, so the set decides
    every outcome. */
module Transaction {
  import opened Prelude
  import opened Pins

  /** `activate` before it writes anything, except possibly a failed preflight. */
  datatype CheckSite =
    ReadJournal | RequirePins | OpenLive | LoadCandidate | NotePreflight | FindDispatch | MarkPrepared

  /** From the `prepared` journal to the link update. */
  datatype PrepareSite =
    | DropStale | OpenLink | PinCandidate | MarkPinFailed | MarkActivating
    | UpdateLink | DropRejected | MarkUpdateFailed

  /** The pin swap, the health window and the commit. */
  datatype SwapSite = SwapOut | SwapIn | MarkHealthy | HealthCheck | MarkCommitted

  /** After a failed pin swap. */
  datatype UndoSite = UndoLink | UndoPin | UndoDrop | MarkUndone

  /** After a failed health check. */
  datatype RevertSite = MarkReverting | RevertLink | RevertOut | RevertIn | RevertDrop | MarkReverted

  /** `rollback` up to its link update. */
  datatype RollbackSite =
    | RbReadJournal | ProbePrevious | DropLeftover | MarkCleared | ProbeLink | MarkRollingBack
    | OpenPrevious | RbOpenLink | RestoreLink | MarkRestoreFailed

  /** `rollback` after its link update. */
  datatype RestoreSite = ProbeLive | MoveLive | RestorePin | DropReplaced | MarkRolledBack

  /** The loader's start up to the pinned links. */
  datatype LoaderSite =
    | Load | ProbeBackup | AttachBackup | PinBackup
    | ProbePrimary | OpenPrimary | UpdatePrimary | AttachPrimary | PinPrimary

  /** The loader's program and map pins. */
  datatype PinSite = ProbeProg | PinProg | PinOpenPorts | PinRedirSocket

  datatype Site =
    | Check(c: CheckSite) | Prepare(p: PrepareSite) | Swap(w: SwapSite) | Undo(u: UndoSite) | Revert(v: RevertSite)
    | Rb(r: RollbackSite) | Restore(t: RestoreSite)
    | Ld(l: LoaderSite) | Keep(k: PinSite)

  /** `loaded` is the program this run loaded, `held` the one behind its open descriptor,
      `reverted` the remembered result of the health rollback's link update. */
  datatype Proc =
    | Running(at: Site, loaded: Prog, held: Prog, reverted: bool)
    | Returned(ok: bool)

  datatype Config = Config(pins: PinState, proc: Proc)

  function Go(s: PinState, p: Proc, at: Site): Config
    requires p.Running?
  {
    Config(s, p.(at := at))
  }

  function Stop(s: PinState, ok: bool): Config {
    Config(s, Returned(ok))
  }

  function Start(s: PinState, at: Site, loaded: Prog): Config {
    Config(s, Running(at, loaded, 0, false))
  }

  function StartActivate(s: PinState, candidate: Prog): Config {
    Start(s, Check(ReadJournal), candidate)
  }

  function StartRollback(s: PinState): Config {
    Start(s, Rb(RbReadJournal), 0)
  }

  function StartLoader(s: PinState, loaded: Prog): Config {
    Start(s, Ld(Load), loaded)
  }

  /** Replacing a link's program in place fails on a link that is no longer attached. */
  predicate Updates(s: PinState, works: bool) {
    works && s.link.Attached?
  }

  function StepCheck(s: PinState, p: Proc, at: CheckSite, works: bool): Config
    requires p.Running?
  {
    match at
    case ReadJournal =>
      if works && (s.journal.None? || s.journal.value.Terminal()) then Go(s, p, Check(RequirePins)) else Stop(s, false)
    case RequirePins =>
      if works && s.MapsPinned() && !s.link.Unpinned? && s.prog.Some? then Go(s, p, Check(OpenLive)) else Stop(s, false)
    case OpenLive =>
      if works && s.prog.Some? then Go(s, p.(held := s.prog.value), Check(LoadCandidate)) else Stop(s, false)
    case LoadCandidate => Go(s, p, if works then Check(FindDispatch) else Check(NotePreflight))
    case NotePreflight => Stop(s.Mark(Failed, works), false)
    case FindDispatch => if works then Go(s, p, Check(MarkPrepared)) else Stop(s, false)
    case MarkPrepared => if works then Go(s.Mark(Prepared, true), p, Prepare(DropStale)) else Stop(s, false)
  }

  function StepPrepare(s: PinState, p: Proc, at: PrepareSite, works: bool): Config
    requires p.Running?
  {
    match at
    case DropStale => Go(s.DropCandidate(works), p, Prepare(OpenLink))
    case OpenLink => if works && !s.link.Unpinned? then Go(s, p, Prepare(PinCandidate)) else Stop(s, false)
    case PinCandidate =>
      // Pinning refuses a path that already exists.
      if works && s.candidate.None? then Go(s.(candidate := Some(p.loaded)), p, Prepare(MarkActivating))
      else Go(s, p, Prepare(MarkPinFailed))
    case MarkPinFailed => Stop(s.Mark(Failed, works), false)
    case MarkActivating => if works then Go(s.Mark(Activating, true), p, Prepare(UpdateLink)) else Stop(s, false)
    case UpdateLink =>
      if Updates(s, works) then Go(s.(link := Attached(p.loaded)), p, Swap(SwapOut))
      else Go(s, p, Prepare(DropRejected))
    case DropRejected => Go(s.DropCandidate(works), p, Prepare(MarkUpdateFailed))
    case MarkUpdateFailed => Stop(s.Mark(Failed, works), false)
  }

  function StepSwap(s: PinState, p: Proc, at: SwapSite, works: bool): Config
    requires p.Running?
  {
    match at
    case SwapOut =>
      Go(s.LiveToPrevious(works), p, if works && s.prog.Some? then Swap(SwapIn) else Undo(UndoLink))
    case SwapIn =>
      Go(s.CandidateToLive(works), p, if works && s.candidate.Some? then Swap(MarkHealthy) else Undo(UndoLink))
    case MarkHealthy => if works then Go(s.Mark(Healthy, true), p, Swap(HealthCheck)) else Stop(s, false)
    case HealthCheck =>
      var healthy := works && !s.link.Unpinned? && s.MapsPinned() && s.prog.Some?;
      Go(s, p, if healthy then Swap(MarkCommitted) else Revert(MarkReverting))
    case MarkCommitted => Stop(s.Mark(Committed, works), works)
  }

  function StepUndo(s: PinState, p: Proc, at: UndoSite, works: bool): Config
    requires p.Running?
  {
    match at
    case UndoLink =>
      Go(if Updates(s, works) then s.(link := Attached(p.held)) else s, p, Undo(UndoPin))
    case UndoPin => Go(s.PreviousToLive(works), p, Undo(UndoDrop))
    case UndoDrop => Go(s.DropCandidate(works), p, Undo(MarkUndone))
    case MarkUndone => Stop(s.Mark(RolledBack, works), false)
  }

  function StepRevert(s: PinState, p: Proc, at: RevertSite, works: bool): Config
    requires p.Running?
  {
    match at
    case MarkReverting => if works then Go(s.Mark(RollingBack, true), p, Revert(RevertLink)) else Stop(s, false)
    case RevertLink =>
      var ok := Updates(s, works);
      Go(if ok then s.(link := Attached(p.held)) else s, p.(reverted := ok), Revert(RevertOut))
    case RevertOut => Go(s.LiveToCandidate(works), p, Revert(RevertIn))
    case RevertIn => Go(s.PreviousToLive(works), p, Revert(RevertDrop))
    case RevertDrop => Go(s.DropCandidate(works), p, Revert(MarkReverted))
    case MarkReverted => Stop(s.Mark(if p.reverted then RolledBack else Failed, works), false)
  }

  function StepRollback(s: PinState, p: Proc, at: RollbackSite, works: bool): Config
    requires p.Running?
  {
    match at
    case RbReadJournal => if works then Go(s, p, Rb(ProbePrevious)) else Stop(s, false)
    case ProbePrevious => Go(s, p, Rb(if works && s.previous.Some? then ProbeLink else DropLeftover))
    case DropLeftover => Go(s.DropCandidate(works), p, Rb(MarkCleared))
    case MarkCleared => Stop(s.Mark(RolledBack, works), works)
    case ProbeLink => if works && !s.link.Unpinned? then Go(s, p, Rb(MarkRollingBack)) else Stop(s, false)
    case MarkRollingBack => if works then Go(s.Mark(RollingBack, true), p, Rb(OpenPrevious)) else Stop(s, false)
    case OpenPrevious =>
      if works && s.previous.Some? then Go(s, p.(held := s.previous.value), Rb(RbOpenLink)) else Stop(s, false)
    case RbOpenLink => if works && !s.link.Unpinned? then Go(s, p, Rb(RestoreLink)) else Stop(s, false)
    case RestoreLink =>
      if Updates(s, works) then Go(s.(link := Attached(p.held)), p, Restore(ProbeLive))
      else Go(s, p, Rb(MarkRestoreFailed))
    case MarkRestoreFailed => Stop(s.Mark(Failed, works), false)
  }

  function StepRestore(s: PinState, p: Proc, at: RestoreSite, works: bool): Config
    requires p.Running?
  {
    match at
    case ProbeLive => Go(s, p, if works && s.prog.Some? then Restore(MoveLive) else Restore(RestorePin))
    case MoveLive => Go(s.LiveToCandidate(works), p, Restore(RestorePin))
    case RestorePin =>
      if works && s.previous.Some? then Go(s.PreviousToLive(true), p, Restore(DropReplaced)) else Stop(s, false)
    case DropReplaced => Go(s.DropCandidate(works), p, Restore(MarkRolledBack))
    case MarkRolledBack => Stop(s.Mark(RolledBack, works), works)
  }

  /** A link that is attached but not yet pinned dies with its process, so attaching leaves
      no trace before the pin. Pinning refuses a path that already exists. */
  function StepLoader(s: PinState, p: Proc, at: LoaderSite, works: bool): Config
    requires p.Running?
  {
    match at
    case Load => if works then Go(s, p, Ld(ProbeBackup)) else Stop(s, false)
    case ProbeBackup => Go(s, p, Ld(if works && !s.backup.Unpinned? then ProbePrimary else AttachBackup))
    case AttachBackup => if works then Go(s, p, Ld(PinBackup)) else Stop(s, false)
    case PinBackup =>
      if works && s.backup.Unpinned? then Go(s.(backup := Attached(p.loaded)), p, Ld(ProbePrimary)) else Stop(s, false)
    case ProbePrimary => Go(s, p, Ld(if works && !s.link.Unpinned? then OpenPrimary else AttachPrimary))
    case OpenPrimary => if works && !s.link.Unpinned? then Go(s, p, Ld(UpdatePrimary)) else Stop(s, false)
    case UpdatePrimary =>
      if Updates(s, works) then Go(s.(link := Attached(p.loaded)), p, Keep(ProbeProg)) else Stop(s, false)
    case AttachPrimary => if works then Go(s, p, Ld(PinPrimary)) else Stop(s, false)
    case PinPrimary =>
      if works && s.link.Unpinned? then Go(s.(link := Attached(p.loaded)), p, Keep(ProbeProg)) else Stop(s, false)
  }

  function StepKeep(s: PinState, p: Proc, at: PinSite, works: bool): Config
    requires p.Running?
  {
    match at
    case ProbeProg => Go(s, p, if works && s.prog.Some? then Keep(PinOpenPorts) else Keep(PinProg))
    case PinProg =>
      if works && s.prog.None? then Go(s.(prog := Some(p.loaded)), p, Keep(PinOpenPorts)) else Stop(s, false)
    case PinOpenPorts =>
      if works then Go(s.(openPorts := true), p, Keep(PinRedirSocket)) else Stop(s, false)
    case PinRedirSocket => if works then Stop(s.(redirSocket := true), true) else Stop(s, false)
  }

  function Step(c: Config, faults: set<Site>): Config
    requires c.proc.Running?
  {
    var works := c.proc.at !in faults;
    match c.proc.at
    case Check(a) => StepCheck(c.pins, c.proc, a, works)
    case Prepare(a) => StepPrepare(c.pins, c.proc, a, works)
    case Swap(a) => StepSwap(c.pins, c.proc, a, works)
    case Undo(a) => StepUndo(c.pins, c.proc, a, works)
    case Revert(a) => StepRevert(c.pins, c.proc, a, works)
    case Rb(a) => StepRollback(c.pins, c.proc, a, works)
    case Restore(a) => StepRestore(c.pins, c.proc, a, works)
    case Ld(a) => StepLoader(c.pins, c.proc, a, works)
    case Keep(a) => StepKeep(c.pins, c.proc, a, works)
  }

  /** Steps still possible from a site, an upper bound. */
  function Left(at: Site): nat {
    match at
    case Check(a) => (
      match a
      case ReadJournal => 30 case RequirePins => 29 case OpenLive => 28 case LoadCandidate => 27
      case NotePreflight => 1 case FindDispatch => 26 case MarkPrepared => 25)
    case Prepare(a) => (
      match a
      case DropStale => 24 case OpenLink => 23 case PinCandidate => 22 case MarkPinFailed => 1
      case MarkActivating => 21 case UpdateLink => 20 case DropRejected => 2 case MarkUpdateFailed => 1)
    case Swap(a) => (
      match a
      case SwapOut => 19 case SwapIn => 18 case MarkHealthy => 17 case HealthCheck => 16
      case MarkCommitted => 1)
    case Undo(a) => (
      match a
      case UndoLink => 4 case UndoPin => 3 case UndoDrop => 2 case MarkUndone => 1)
    case Revert(a) => (
      match a
      case MarkReverting => 6 case RevertLink => 5 case RevertOut => 4 case RevertIn => 3
      case RevertDrop => 2 case MarkReverted => 1)
    case Rb(a) => (
      match a
      case RbReadJournal => 15 case ProbePrevious => 14 case DropLeftover => 2 case MarkCleared => 1
      case ProbeLink => 13 case MarkRollingBack => 12 case OpenPrevious => 11 case RbOpenLink => 10
      case RestoreLink => 9 case MarkRestoreFailed => 1)
    case Restore(a) => (
      match a
      case ProbeLive => 8 case MoveLive => 7 case RestorePin => 6 case DropReplaced => 2 case MarkRolledBack => 1)
    case Ld(a) => (
      match a
      case Load => 13 case ProbeBackup => 12 case AttachBackup => 11 case PinBackup => 10
      case ProbePrimary => 9 case OpenPrimary => 8 case UpdatePrimary => 7 case AttachPrimary => 8
      case PinPrimary => 7)
    case Keep(a) => (
      match a
      case ProbeProg => 6 case PinProg => 5 case PinOpenPorts => 4 case PinRedirSocket => 3)
  }

  function StepsLeft(c: Config): nat {
    if c.proc.Running? then Left(c.proc.at) else 0
  }

  lemma Descends(c: Config, faults: set<Site>)
    requires c.proc.Running?
    ensures StepsLeft(Step(c, faults)) < StepsLeft(c)
  {
    var works := c.proc.at !in faults;
    match c.proc.at
    case Check(a) => DescendsCheck(c.pins, c.proc, a, works);
    case Prepare(a) => DescendsPrepare(c.pins, c.proc, a, works);
    case Swap(a) => DescendsSwap(c.pins, c.proc, a, works);
    case Undo(a) => DescendsUndo(c.pins, c.proc, a, works);
    case Revert(a) => DescendsRevert(c.pins, c.proc, a, works);
    case Rb(a) => DescendsRollback(c.pins, c.proc, a, works);
    case Restore(a) => DescendsRestore(c.pins, c.proc, a, works);
    case Ld(a) => DescendsLoader(c.pins, c.proc, a, works);
    case Keep(a) => DescendsKeep(c.pins, c.proc, a, works);
  }

  lemma DescendsCheck(s: PinState, p: Proc, at: CheckSite, works: bool)
    requires p.Running? && p.at == Check(at)
    ensures StepsLeft(StepCheck(s, p, at, works)) < Left(p.at)
  {}

  lemma DescendsPrepare(s: PinState, p: Proc, at: PrepareSite, works: bool)
    requires p.Running? && p.at == Prepare(at)
    ensures StepsLeft(StepPrepare(s, p, at, works)) < Left(p.at)
  {}

  lemma DescendsSwap(s: PinState, p: Proc, at: SwapSite, works: bool)
    requires p.Running? && p.at == Swap(at)
    ensures StepsLeft(StepSwap(s, p, at, works)) < Left(p.at)
  {}

  lemma DescendsUndo(s: PinState, p: Proc, at: UndoSite, works: bool)
    requires p.Running? && p.at == Undo(at)
    ensures StepsLeft(StepUndo(s, p, at, works)) < Left(p.at)
  {}

  lemma DescendsRevert(s: PinState, p: Proc, at: RevertSite, works: bool)
    requires p.Running? && p.at == Revert(at)
    ensures StepsLeft(StepRevert(s, p, at, works)) < Left(p.at)
  {}

  lemma DescendsRollback(s: PinState, p: Proc, at: RollbackSite, works: bool)
    requires p.Running? && p.at == Rb(at)
    ensures StepsLeft(StepRollback(s, p, at, works)) < Left(p.at)
  {}

  lemma DescendsRestore(s: PinState, p: Proc, at: RestoreSite, works: bool)
    requires p.Running? && p.at == Restore(at)
    ensures StepsLeft(StepRestore(s, p, at, works)) < Left(p.at)
  {}

  lemma DescendsLoader(s: PinState, p: Proc, at: LoaderSite, works: bool)
    requires p.Running? && p.at == Ld(at)
    ensures StepsLeft(StepLoader(s, p, at, works)) < Left(p.at)
  {}

  lemma DescendsKeep(s: PinState, p: Proc, at: PinSite, works: bool)
    requires p.Running? && p.at == Keep(at)
    ensures StepsLeft(StepKeep(s, p, at, works)) < Left(p.at)
  {}

  /** The state a run leaves when it is killed after `n` steps. */
  function Cut(c: Config, faults: set<Site>, n: nat): Config
    decreases n
  {
    if n == 0 || c.proc.Returned? then c else Cut(Step(c, faults), faults, n - 1)
  }

  /** The run carried to its return. */
  function Finish(c: Config, faults: set<Site>): (r: Config)
    ensures r.proc.Returned?
    decreases StepsLeft(c)
  {
    if c.proc.Returned? then c else Descends(c, faults); Finish(Step(c, faults), faults)
  }

  /** One step later, or the same returned configuration. */
  lemma {:induction false} CutLast(c: Config, faults: set<Site>, n: nat)
    ensures
      var d := Cut(c, faults, n);
      Cut(c, faults, n + 1) == if d.proc.Running? then Step(d, faults) else d
    decreases n
  {
    if n > 0 && c.proc.Running? {
      CutLast(Step(c, faults), faults, n - 1);
    }
  }

  /** Every run returns within 30 steps, so a complete run is a cut that cuts nothing. */
  lemma {:induction false} FinishIsCut(c: Config, faults: set<Site>, n: nat)
    requires StepsLeft(c) <= n
    ensures Cut(c, faults, n) == Finish(c, faults)
    decreases n
  {
    if c.proc.Running? {
      Descends(c, faults);
      FinishIsCut(Step(c, faults), faults, n - 1);
    }
  }

  /** A cut that has returned was produced by the step of an earlier, running cut. */
  lemma {:induction false} ReturnedByStep(c: Config, faults: set<Site>, n: nat) returns (m: nat)
    requires c.proc.Running? && Cut(c, faults, n).proc.Returned?
    ensures m < n && Cut(c, faults, m).proc.Running?
    ensures Cut(c, faults, n) == Step(Cut(c, faults, m), faults)
    decreases n
  {
    CutLast(c, faults, n - 1);
    if Cut(c, faults, n - 1).proc.Running? {
      m := n - 1;
    } else {
      m := ReturnedByStep(c, faults, n - 1);
    }
  }
}
