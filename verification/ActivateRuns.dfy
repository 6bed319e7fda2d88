/** What `activate` leaves behind, for every set of failing calls and every crash point. */
module ActivateRuns {
  import opened Prelude
  import opened Pins
  import opened Transaction

  function Old(s: PinState): Prog {
    if s.prog.Some? then s.prog.value else 0
  }

  predicate GateOpen(s: PinState) {
    s.journal.None? || s.journal.value.Terminal()
  }

  predicate Ready(s: PinState) {
    s.openPorts && s.redirSocket && !s.link.Unpinned? && s.prog.Some?
  }

  /** The run may get as far as the link update, and the update may work. */
  predicate Admitted(s: PinState, faults: set<Site>) {
    GateOpen(s) && Ready(s) && s.link.Attached? && (s.candidate.None? || Prepare(DropStale) !in faults)
  }

  // ---- Closed form ------------------------------------------------------------------

  /** After `bpf_link_update`, before either pin has moved. */
  function Updated(s: PinState, candidate: Prog): PinState {
    s.(journal := Some(Activating), candidate := Some(candidate), link := Attached(candidate))
  }

  /** After the first pin rename. */
  function HalfSwapped(s: PinState, candidate: Prog): PinState {
    Updated(s, candidate).(prog := None, previous := s.prog)
  }

  /** After both pin renames. */
  function Swapped(s: PinState, candidate: Prog): PinState {
    Updated(s, candidate).(candidate := None, prog := Some(candidate), previous := s.prog)
  }

  function Relinked(s: PinState, prog: Prog, works: bool): PinState {
    if works then s.(link := Attached(prog)) else s
  }

  function ExpectedPrepare(at: PrepareSite, s: PinState, candidate: Prog, faults: set<Site>): PinState {
    var stale := if Prepare(DropStale) in faults then s.candidate else None;
    match at
    case DropStale => s.(journal := Some(Prepared))
    case OpenLink => s.(journal := Some(Prepared), candidate := stale)
    case PinCandidate => s.(journal := Some(Prepared), candidate := stale)
    case MarkPinFailed => s.(journal := Some(Prepared), candidate := stale)
    case MarkActivating => s.(journal := Some(Prepared), candidate := Some(candidate))
    case UpdateLink => s.(journal := Some(Activating), candidate := Some(candidate))
    case DropRejected => s.(journal := Some(Activating), candidate := Some(candidate))
    case MarkUpdateFailed =>
      s.(journal := Some(Activating), candidate := if Prepare(DropRejected) in faults then Some(candidate) else None)
  }

  function ExpectedSwap(at: SwapSite, s: PinState, candidate: Prog): PinState {
    match at
    case SwapOut => Updated(s, candidate)
    case SwapIn => HalfSwapped(s, candidate)
    case MarkHealthy => Swapped(s, candidate)
    case HealthCheck => Swapped(s, candidate).(journal := Some(Healthy))
    case MarkCommitted => Swapped(s, candidate).(journal := Some(Healthy))
  }

  function ExpectedUndo(at: UndoSite, s: PinState, candidate: Prog, faults: set<Site>): PinState {
    var broken := if Swap(SwapOut) in faults then Updated(s, candidate) else HalfSwapped(s, candidate);
    var relinked := Relinked(broken, Old(s), Undo(UndoLink) !in faults);
    var repinned := relinked.PreviousToLive(Undo(UndoPin) !in faults);
    match at
    case UndoLink => broken
    case UndoPin => relinked
    case UndoDrop => repinned
    case MarkUndone => repinned.DropCandidate(Undo(UndoDrop) !in faults)
  }

  function ExpectedRevert(at: RevertSite, s: PinState, candidate: Prog, faults: set<Site>): PinState {
    var reverting := Swapped(s, candidate).(journal := Some(RollingBack));
    var relinked := Relinked(reverting, Old(s), Revert(RevertLink) !in faults);
    var moved := relinked.LiveToCandidate(Revert(RevertOut) !in faults);
    var repinned := moved.PreviousToLive(Revert(RevertIn) !in faults);
    match at
    case MarkReverting => Swapped(s, candidate).(journal := Some(Healthy))
    case RevertLink => reverting
    case RevertOut => relinked
    case RevertIn => moved
    case RevertDrop => repinned
    case MarkReverted => repinned.DropCandidate(Revert(RevertDrop) !in faults)
  }

  /** The pin state a run has at each of its sites, from the state `s` it started in and
      the calls that fail. */
  function Expected(at: Site, s: PinState, candidate: Prog, faults: set<Site>): PinState {
    match at
    case Check(_) => s
    case Prepare(a) => ExpectedPrepare(a, s, candidate, faults)
    case Swap(a) => ExpectedSwap(a, s, candidate)
    case Undo(a) => ExpectedUndo(a, s, candidate, faults)
    case Revert(a) => ExpectedRevert(a, s, candidate, faults)
    case _ => s
  }

  // ---- Which calls must have worked to get to a site -----------------------------------

  predicate CheckedBefore(at: CheckSite, faults: set<Site>) {
    && (at.ReadJournal? || Check(ReadJournal) !in faults)
    && (at.ReadJournal? || at.RequirePins? || Check(RequirePins) !in faults)
    && (at.ReadJournal? || at.RequirePins? || at.OpenLive? || Check(OpenLive) !in faults)
    && (at.NotePreflight? ==> Check(LoadCandidate) in faults)
    && (at.FindDispatch? || at.MarkPrepared? ==> Check(LoadCandidate) !in faults)
    && (at.MarkPrepared? ==> Check(FindDispatch) !in faults)
  }

  predicate CheckWorks(faults: set<Site>) {
    CheckedBefore(MarkPrepared, faults) && Check(MarkPrepared) !in faults
  }

  predicate UpdateTried(at: PrepareSite) {
    at.UpdateLink? || at.DropRejected? || at.MarkUpdateFailed?
  }

  predicate PreparedBefore(at: PrepareSite, s: PinState, faults: set<Site>) {
    && (at.DropStale? || at.OpenLink? || Prepare(OpenLink) !in faults)
    && (at.MarkPinFailed? ==>
          Prepare(PinCandidate) in faults || (Prepare(DropStale) in faults && s.candidate.Some?))
    && (at.MarkActivating? || UpdateTried(at) ==>
          Prepare(PinCandidate) !in faults && (s.candidate.None? || Prepare(DropStale) !in faults))
    && (UpdateTried(at) ==> Prepare(MarkActivating) !in faults)
    && (at.DropRejected? || at.MarkUpdateFailed? ==> Prepare(UpdateLink) in faults || !s.link.Attached?)
  }

  predicate PrepareWorks(s: PinState, faults: set<Site>) {
    PreparedBefore(UpdateLink, s, faults) && Prepare(UpdateLink) !in faults
  }

  /** The run gets the candidate onto the link. */
  predicate Swaps(s: PinState, faults: set<Site>) {
    Admitted(s, faults) && CheckWorks(faults) && PrepareWorks(s, faults)
  }

  predicate SwappedBefore(at: SwapSite, faults: set<Site>) {
    && (at.SwapOut? || Swap(SwapOut) !in faults)
    && (at.SwapOut? || at.SwapIn? || Swap(SwapIn) !in faults)
    && (at.SwapOut? || at.SwapIn? || at.MarkHealthy? || Swap(MarkHealthy) !in faults)
    && (at.MarkCommitted? ==> Swap(HealthCheck) !in faults)
  }

  /** Every call whose failure keeps an upgrade from committing works. */
  predicate MandatoryWorks(s: PinState, faults: set<Site>) {
    CheckWorks(faults) && PrepareWorks(s, faults) && SwappedBefore(MarkCommitted, faults)
    && Swap(MarkCommitted) !in faults
  }

  /** The run is in the state the closed form says, for the reasons it says. */
  predicate OnTrack(c: Config, s: PinState, candidate: Prog, faults: set<Site>) {
    c.proc.Running? ==>
      && c.proc.loaded == candidate
      && c.pins == Expected(c.proc.at, s, candidate, faults)
      && match c.proc.at
         case Check(a) =>
           && CheckedBefore(a, faults)
           && (a.ReadJournal? || GateOpen(s))
           && (a.ReadJournal? || a.RequirePins? || Ready(s))
           && (a.ReadJournal? || a.RequirePins? || a.OpenLive? || c.proc.held == Old(s))
         case Prepare(a) =>
           c.proc.held == Old(s) && GateOpen(s) && Ready(s) && CheckWorks(faults) && PreparedBefore(a, s, faults)
         case Swap(a) =>
           c.proc.held == Old(s) && Swaps(s, faults) && SwappedBefore(a, faults)
         case Undo(a) =>
           c.proc.held == Old(s) && Swaps(s, faults) && (Swap(SwapOut) in faults || Swap(SwapIn) in faults)
         case Revert(a) =>
           && c.proc.held == Old(s) && Swaps(s, faults)
           && SwappedBefore(HealthCheck, faults) && Swap(HealthCheck) in faults
           && (a.MarkReverting? || a.RevertLink? || c.proc.reverted == (Revert(RevertLink) !in faults))
           && (a.MarkReverting? || Revert(MarkReverting) !in faults)
         case _ => false
  }

  // ---- One step -----------------------------------------------------------------------

  /** The phases one run may write after each other. */
  predicate PhaseEdge(from: Option<Phase>, to: Phase) {
    match to
    case Prepared => from.None? || from.value.Terminal()
    case Activating => from == Some(Prepared)
    case Healthy => from == Some(Activating)
    case RollingBack => from == Some(Healthy)
    case Committed => from == Some(Healthy)
    case RolledBack => from == Some(Activating) || from == Some(RollingBack)
    case Failed => from != Some(Healthy)
  }

  /** How far a run that has written `phase` has come. */
  function Progress(phase: Option<Phase>): nat {
    match phase
    case Some(Prepared) => 1
    case Some(Activating) => 2
    case Some(Healthy) => 3
    case Some(RollingBack) => 4
    case _ => 5
  }

  /** A step keeps the journal or follows one edge; a run that has written `prepared`
      strictly advances with every further write. */
  predicate Advances(c: Config, d: Config) {
    d.pins.journal == c.pins.journal ||
    (d.pins.journal.Some? && PhaseEdge(c.pins.journal, d.pins.journal.value)
     && (c.proc.Running? && !c.proc.at.Check? ==> Progress(c.pins.journal) < Progress(d.pins.journal)))
  }

  /** Returning touches nothing but the journal. */
  predicate ReturnsClean(c: Config, d: Config) {
    d.proc.Returned? ==> d.pins == c.pins.(journal := d.pins.journal)
  }

  lemma Track(c: Config, s: PinState, candidate: Prog, faults: set<Site>)
    requires c.proc.Running? && OnTrack(c, s, candidate, faults)
    ensures
      var d := Step(c, faults);
      OnTrack(d, s, candidate, faults) && Advances(c, d) && ReturnsClean(c, d)
  {
    match c.proc.at
    case Check(a) => TrackCheck(c, s, candidate, faults);
    case Prepare(a) => TrackPrepare(c, s, candidate, faults);
    case Swap(a) => TrackSwap(c, s, candidate, faults);
    case Undo(a) => TrackUndo(c, s, candidate, faults);
    case Revert(a) => TrackRevert(c, s, candidate, faults);
    case _ => assert false;
  }

  lemma TrackCheck(c: Config, s: PinState, candidate: Prog, faults: set<Site>)
    requires c.proc.Running? && c.proc.at.Check? && OnTrack(c, s, candidate, faults)
    ensures
      var d := Step(c, faults);
      OnTrack(d, s, candidate, faults) && Advances(c, d) && ReturnsClean(c, d)
  {}

  lemma TrackPrepare(c: Config, s: PinState, candidate: Prog, faults: set<Site>)
    requires c.proc.Running? && c.proc.at.Prepare? && OnTrack(c, s, candidate, faults)
    ensures
      var d := Step(c, faults);
      OnTrack(d, s, candidate, faults) && Advances(c, d) && ReturnsClean(c, d)
  {}

  lemma TrackSwap(c: Config, s: PinState, candidate: Prog, faults: set<Site>)
    requires c.proc.Running? && c.proc.at.Swap? && OnTrack(c, s, candidate, faults)
    ensures
      var d := Step(c, faults);
      OnTrack(d, s, candidate, faults) && Advances(c, d) && ReturnsClean(c, d)
  {}

  lemma TrackUndo(c: Config, s: PinState, candidate: Prog, faults: set<Site>)
    requires c.proc.Running? && c.proc.at.Undo? && OnTrack(c, s, candidate, faults)
    ensures
      var d := Step(c, faults);
      OnTrack(d, s, candidate, faults) && Advances(c, d) && ReturnsClean(c, d)
  {}

  lemma TrackRevert(c: Config, s: PinState, candidate: Prog, faults: set<Site>)
    requires c.proc.Running? && c.proc.at.Revert? && OnTrack(c, s, candidate, faults)
    ensures
      var d := Step(c, faults);
      OnTrack(d, s, candidate, faults) && Advances(c, d) && ReturnsClean(c, d)
  {}

  /** Every crash point of every run is on track. */
  lemma {:induction false} CutOnTrack(c: Config, s: PinState, candidate: Prog, faults: set<Site>, n: nat)
    requires OnTrack(c, s, candidate, faults)
    ensures OnTrack(Cut(c, faults, n), s, candidate, faults)
    decreases n
  {
    if n > 0 && c.proc.Running? {
      Track(c, s, candidate, faults);
      CutOnTrack(Step(c, faults), s, candidate, faults, n - 1);
    }
  }

  /** The running configuration behind a crash point: the point itself, or the one whose
      step returned and may have written the journal. */
  lemma Behind(s: PinState, candidate: Prog, faults: set<Site>, n: nat) returns (c: Config)
    ensures c.proc.Running? && OnTrack(c, s, candidate, faults)
    ensures
      var d := Cut(StartActivate(s, candidate), faults, n);
      && (d.proc.Running? ==> c == d)
      && (d.proc.Returned? ==> d == Step(c, faults) && d.pins == c.pins.(journal := d.pins.journal))
  {
    var start := StartActivate(s, candidate);
    var m := n;
    if Cut(start, faults, n).proc.Returned? {
      m := ReturnedByStep(start, faults, n);
    }
    CutOnTrack(start, s, candidate, faults, m);
    c := Cut(start, faults, m);
    Track(c, s, candidate, faults);
  }

  function Activate(s: PinState, candidate: Prog, faults: set<Site>): Config {
    Finish(StartActivate(s, candidate), faults)
  }

  /** The step a complete run ends with. */
  lemma LastStep(s: PinState, candidate: Prog, faults: set<Site>) returns (c: Config)
    ensures c.proc.Running? && OnTrack(c, s, candidate, faults)
    ensures Activate(s, candidate, faults) == Step(c, faults)
  {
    FinishIsCut(StartActivate(s, candidate), faults, 30);
    c := Behind(s, candidate, faults, 30);
  }

  // ---- Journal ----------------------------------------------------------------------

  /** From a journal that is not terminal, no run changes anything, however it is cut. */
  lemma GateHolds(s: PinState, candidate: Prog, faults: set<Site>, n: nat)
    requires !GateOpen(s)
    ensures Cut(StartActivate(s, candidate), faults, n).pins == s
  {}

  /** Any two successive states of a run are equal in the journal or one edge apart. */
  lemma PhasesAdvance(s: PinState, candidate: Prog, faults: set<Site>, n: nat)
    ensures Advances(Cut(StartActivate(s, candidate), faults, n), Cut(StartActivate(s, candidate), faults, n + 1))
  {
    var c := Behind(s, candidate, faults, n);
    CutLast(StartActivate(s, candidate), faults, n);
    Track(c, s, candidate, faults);
  }

  // ---- Outcomes ---------------------------------------------------------------------

  /** `activate` returns Ok exactly when the gate is open, the pins are in place, the link
      accepts an update, no stale candidate pin is in the way and every mandatory call
      works. It has then promoted the candidate and kept the old program as
      `prog_previous`. */
  lemma OkIff(s: PinState, candidate: Prog, faults: set<Site>)
    ensures Activate(s, candidate, faults).proc.ok <==> Admitted(s, faults) && MandatoryWorks(s, faults)
    ensures
      Activate(s, candidate, faults).proc.ok ==>
        Activate(s, candidate, faults).pins ==
          s.(link := Attached(candidate), prog := Some(candidate), previous := s.prog, candidate := None,
             journal := Some(Committed))
  {
    var c := LastStep(s, candidate, faults);
  }

  /** A health failure whose link update and pin restore work puts the old program back on
      the link and in `prog`, whatever else fails on the way. */
  lemma HealthFailureRestores(s: PinState, candidate: Prog, faults: set<Site>)
    requires Swaps(s, faults)
    requires SwappedBefore(HealthCheck, faults) && Swap(HealthCheck) in faults
    requires faults !! {Revert(MarkReverting), Revert(RevertLink), Revert(RevertIn)}
    ensures
      var r := Activate(s, candidate, faults);
      && !r.proc.ok
      && r.pins.Agrees() && r.pins.prog == s.prog
      && r.pins.previous.None?
      && r.pins.journal == Some(if Revert(MarkReverted) in faults then RollingBack else RolledBack)
  {
    var c := LastStep(s, candidate, faults);
  }

  /** The run itself writes `rolled_back`: the pin swap fails, or the health check does and
      the link goes back. */
  predicate WritesRolledBack(s: PinState, faults: set<Site>) {
    && Swaps(s, faults)
    && if Swap(SwapOut) in faults || Swap(SwapIn) in faults then Undo(MarkUndone) !in faults
       else
         && Swap(MarkHealthy) !in faults && Swap(HealthCheck) in faults
         && faults !! {Revert(MarkReverting), Revert(RevertLink), Revert(MarkReverted)}
  }

  lemma RolledBackIsWritten(s: PinState, candidate: Prog, faults: set<Site>)
    ensures WritesRolledBack(s, faults) ==> Activate(s, candidate, faults).pins.journal == Some(RolledBack)
    ensures
      Activate(s, candidate, faults).pins.journal == Some(RolledBack) && s.journal != Some(RolledBack) ==>
        WritesRolledBack(s, faults)
  {
    var c := LastStep(s, candidate, faults);
  }

  /** The later calls, all of them ignored when they fail, on which it depends whether a run
      that writes `rolled_back` has put the old generation back. */
  predicate PutsBack(s: PinState, faults: set<Site>) {
    if Swap(SwapOut) in faults then
      Undo(UndoLink) !in faults && (Undo(UndoPin) in faults || s.previous.None? || s.previous == s.prog)
    else if Swap(SwapIn) in faults then faults !! {Undo(UndoLink), Undo(UndoPin)}
    else Revert(RevertIn) !in faults
  }

  /** What `rolled_back` promises, for every set of failing calls: the old program is back on
      the link and in `prog` exactly when these calls went well. The candidate is a program
      just loaded, so `prog` does not hold it. */
  lemma RolledBackRestoresIff(s: PinState, candidate: Prog, faults: set<Site>)
    requires WritesRolledBack(s, faults) && s.prog != Some(candidate)
    ensures
      var r := Activate(s, candidate, faults).pins;
      && r.journal == Some(RolledBack)
      && (r.link == Attached(Old(s)) && r.prog == s.prog <==> PutsBack(s, faults))
  {
    var c := LastStep(s, candidate, faults);
  }

  /** When the first pin rename fails, the undo path renames whatever `prog_previous` held
      before this upgrade over `prog`. */
  lemma FailedSwapMovesOlderPin(s: PinState, candidate: Prog, faults: set<Site>)
    requires Swaps(s, faults) && Swap(SwapOut) in faults && Undo(UndoPin) !in faults
    ensures
      var r := Activate(s, candidate, faults);
      && !r.proc.ok
      && r.pins.link == (if Undo(UndoLink) in faults then Attached(candidate) else Attached(Old(s)))
      && r.pins.prog == (if s.previous.Some? then s.previous else s.prog)
      && (Undo(UndoLink) !in faults ==> (r.pins.Agrees() <==> s.previous.None? || s.previous == s.prog))
      && (Undo(MarkUndone) !in faults ==> r.pins.journal == Some(RolledBack))
  {
    var c := LastStep(s, candidate, faults);
  }

  /** An upgrade that ends `rolled_back` with the link on program 2 and `prog` pinning the
      older program 1. */
  lemma FailedSwapExample()
    ensures
      var s := PinState(Attached(2), Attached(1), Some(2), Some(1), None, Some(Committed), true, true);
      var r := Activate(s, 3, {Swap(SwapOut)}).pins;
      s.Agrees() && r.link == Attached(2) && r.prog == Some(1) && r.journal == Some(RolledBack)
  {
    var s := PinState(Attached(2), Attached(1), Some(2), Some(1), None, Some(Committed), true, true);
    FailedSwapMovesOlderPin(s, 3, {Swap(SwapOut)});
  }

  lemma UndoEnds(s: PinState, candidate: Prog, faults: set<Site>)
    requires Swaps(s, faults) && (Swap(SwapOut) in faults || Swap(SwapIn) in faults)
    ensures
      Activate(s, candidate, faults) ==
        Stop(ExpectedUndo(MarkUndone, s, candidate, faults).Mark(RolledBack, Undo(MarkUndone) !in faults), false)
  {
    var c := LastStep(s, candidate, faults);
  }

  lemma RevertEnds(s: PinState, candidate: Prog, faults: set<Site>)
    requires Swaps(s, faults) && SwappedBefore(HealthCheck, faults) && Swap(HealthCheck) in faults
    requires Revert(MarkReverting) !in faults
    ensures
      Activate(s, candidate, faults) ==
        Stop(ExpectedRevert(MarkReverted, s, candidate, faults)
          .Mark(if Revert(RevertLink) in faults then Failed else RolledBack, Revert(MarkReverted) !in faults), false)
  {
    var c := LastStep(s, candidate, faults);
  }

  /** One that ends `rolled_back` with the candidate still on the link. */
  lemma FailedUndoExample()
    ensures
      var s := PinState(Attached(2), Attached(1), Some(2), None, None, None, true, true);
      var r := Activate(s, 3, {Swap(SwapIn), Undo(UndoLink)}).pins;
      s.Agrees() && r.link == Attached(3) && r.prog == Some(2) && r.journal == Some(RolledBack)
  {
    var s := PinState(Attached(2), Attached(1), Some(2), None, None, None, true, true);
    UndoEnds(s, 3, {Swap(SwapIn), Undo(UndoLink)});
  }

  /** And one that ends `rolled_back` with no `prog` at all. */
  lemma FailedRevertExample()
    ensures
      var s := PinState(Attached(2), Attached(1), Some(2), None, None, None, true, true);
      var r := Activate(s, 3, {Swap(HealthCheck), Revert(RevertIn)}).pins;
      s.Agrees() && r.link == Attached(2) && r.prog.None? && r.journal == Some(RolledBack)
  {
    var s := PinState(Attached(2), Attached(1), Some(2), None, None, None, true, true);
    RevertEnds(s, 3, {Swap(HealthCheck), Revert(RevertIn)});
  }

  // ---- The journal afterwards ---------------------------------------------------------

  /** Pinning the candidate fails: the call does, or a leftover is in the way. */
  predicate PinFails(s: PinState, faults: set<Site>) {
    Prepare(PinCandidate) in faults || (s.candidate.Some? && Prepare(DropStale) in faults)
  }

  predicate UpdateFails(s: PinState, faults: set<Site>) {
    Prepare(PrepareSite.UpdateLink) in faults || !s.link.Attached?
  }

  /** The run gets past its checks and writes `prepared`. */
  predicate Prepares(s: PinState, faults: set<Site>) {
    GateOpen(s) && Ready(s) && CheckWorks(faults)
  }

  /** The run itself writes `failed`: at the preflight, when the candidate cannot be pinned, when
      the link refuses it, or when the link cannot go back after a failed health check. */
  predicate WritesFailed(s: PinState, faults: set<Site>) {
    && GateOpen(s) && Ready(s) && faults !! {Check(ReadJournal), Check(RequirePins), Check(OpenLive)}
    && if Check(LoadCandidate) in faults then Check(NotePreflight) !in faults
       else
         && Prepares(s, faults) && Prepare(OpenLink) !in faults
         && if PinFails(s, faults) then Prepare(MarkPinFailed) !in faults
            else
              && Prepare(MarkActivating) !in faults
              && if UpdateFails(s, faults) then Prepare(MarkUpdateFailed) !in faults
                 else
                   && faults !! {Swap(SwapOut), Swap(SwapIn), Swap(MarkHealthy)}
                   && Swap(HealthCheck) in faults && Revert(RevertLink) in faults
                   && faults !! {Revert(MarkReverting), Revert(MarkReverted)}
  }

  /** The runs that end at `failed`, for every set of failing calls. */
  lemma FailedIsWritten(s: PinState, candidate: Prog, faults: set<Site>)
    ensures WritesFailed(s, faults) ==> Activate(s, candidate, faults).pins.journal == Some(Failed)
    ensures
      Activate(s, candidate, faults).pins.journal == Some(Failed) && s.journal != Some(Failed) ==>
        WritesFailed(s, faults)
  {
    var c := LastStep(s, candidate, faults);
  }

  /** The run leaves a journal that keeps the next upgrade out: it wrote `prepared`, and then the
      link could not be opened or a journal write failed. */
  predicate ShutsGate(s: PinState, faults: set<Site>) {
    && Prepares(s, faults)
    && (|| Prepare(OpenLink) in faults
        || if PinFails(s, faults) then Prepare(MarkPinFailed) in faults
           else
             || Prepare(MarkActivating) in faults
             || if UpdateFails(s, faults) then Prepare(MarkUpdateFailed) in faults
                else if Swap(SwapOut) in faults || Swap(SwapIn) in faults then Undo(MarkUndone) in faults
                else
                  || Swap(MarkHealthy) in faults
                  || if Swap(HealthCheck) in faults
                     then Revert(MarkReverting) in faults || Revert(MarkReverted) in faults
                     else Swap(MarkCommitted) in faults)
  }

  /** Once it got in, a run lets the next one in unless it shut the gate that way. So if the link
      opens and the journal can be written, every failed upgrade can be tried again. */
  lemma GateReopensIff(s: PinState, candidate: Prog, faults: set<Site>)
    requires GateOpen(s)
    ensures GateOpen(Activate(s, candidate, faults).pins) <==> !ShutsGate(s, faults)
  {
    var c := LastStep(s, candidate, faults);
  }

  /** What an upgrade leaves that never moved the link: everything as it was but the journal and
      the candidate pin, which is dropped again unless that fails. */
  lemma RefusedUpdateEnds(s: PinState, candidate: Prog, faults: set<Site>)
    requires Prepares(s, faults) && Prepare(OpenLink) !in faults && Prepare(MarkActivating) !in faults
    requires !PinFails(s, faults) && UpdateFails(s, faults)
    ensures
      var r := Activate(s, candidate, faults);
      && !r.proc.ok
      && r.pins == s.(
           candidate := if Prepare(DropRejected) in faults then Some(candidate) else None,
           journal := Some(if Prepare(MarkUpdateFailed) in faults then Activating else Failed))
  {
    var c := LastStep(s, candidate, faults);
  }

  /** And one that never got to move it, whatever stopped it: link, backup, `prog`,
      `prog_previous` and maps are as they were. */
  lemma UnswappedKeepsPins(s: PinState, candidate: Prog, faults: set<Site>)
    requires !Swaps(s, faults)
    ensures
      var r := Activate(s, candidate, faults);
      !r.proc.ok && r.pins == s.(candidate := r.pins.candidate, journal := r.pins.journal)
  {
    var c := LastStep(s, candidate, faults);
  }

  // ---- No gap -----------------------------------------------------------------------

  /** At every crash point the backup link and both maps are as before, and an attached
      primary link carries the program it had, the candidate, or the one `prog` held. */
  lemma ActivateLeavesNoGap(s: PinState, candidate: Prog, faults: set<Site>, n: nat)
    ensures
      var t := Cut(StartActivate(s, candidate), faults, n).pins;
      && t.backup == s.backup && t.openPorts == s.openPorts && t.redirSocket == s.redirSocket
      && (!s.link.Attached? ==> t.link == s.link)
      && (s.link.Attached? ==>
            t.link.Attached? && (t.link == s.link || t.link.prog == candidate || Some(t.link.prog) == s.prog))
  {
    var c := Behind(s, candidate, faults, n);
  }

  // ---- Crash points -----------------------------------------------------------------

  /** A completed rollback will make link and `prog` agree: either `prog_previous` is there
      to be restored to both, or they agree already. */
  predicate Recoverable(s: PinState) {
    s.link.Attached? && (s.previous.Some? || s.Agrees())
  }

  /** Cut after the link update and before the first rename, with no `prog_previous`. */
  predicate InWindow(c: Config) {
    c.proc.Running? && c.proc.at == Swap(SwapOut) && c.pins.previous.None?
  }

  /** The crash points a rollback cannot repair, in terms of the site the run was at, the
      state it started from and the calls that fail: the window; a failed pin swap whose undo
      has not put the link back, or has put an older program into `prog`; and a failed link
      update of an undo or revert whose pin rename then works. */
  predicate Lost(at: Site, s: PinState, candidate: Prog, faults: set<Site>) {
    match at
    case Swap(a) => a.SwapOut? && s.previous.None?
    case Undo(a) => LostInUndo(a, s, candidate, faults)
    case Revert(a) => (a.RevertDrop? || a.MarkReverted?) && Revert(RevertIn) !in faults && Revert(RevertLink) in faults
    case _ => false
  }

  predicate LostInUndo(at: UndoSite, s: PinState, candidate: Prog, faults: set<Site>) {
    if Swap(SwapOut) !in faults then
      (at.UndoDrop? || at.MarkUndone?) && Undo(UndoPin) !in faults && Undo(UndoLink) in faults
    else if s.previous.None? then at.UndoLink? || Undo(UndoLink) in faults
    else
      (at.UndoDrop? || at.MarkUndone?) && Undo(UndoPin) !in faults
      && s.previous != (if Undo(UndoLink) in faults then Some(candidate) else s.prog)
  }

  /** The run returns from a state a rollback cannot repair. */
  predicate EndsLost(s: PinState, candidate: Prog, faults: set<Site>) {
    && Swaps(s, faults)
    && if Swap(SwapOut) in faults || Swap(SwapIn) in faults then LostInUndo(MarkUndone, s, candidate, faults)
       else
         && Swap(MarkHealthy) !in faults && Swap(HealthCheck) in faults && Revert(MarkReverting) !in faults
         && Revert(RevertLink) in faults && Revert(RevertIn) !in faults
  }

  /** Lost at the crash point: while the run is under way by its site, after it by its end. */
  predicate LostAt(c: Config, s: PinState, candidate: Prog, faults: set<Site>) {
    if c.proc.Running? then Lost(c.proc.at, s, candidate, faults) else EndsLost(s, candidate, faults)
  }

  lemma RunningIsRecoverableIff(c: Config, s: PinState, candidate: Prog, faults: set<Site>)
    requires c.proc.Running? && OnTrack(c, s, candidate, faults) && Recoverable(s) && s.prog != Some(candidate)
    ensures Recoverable(c.pins) <==> !Lost(c.proc.at, s, candidate, faults)
  {}

  lemma EndIsRecoverableIff(c: Config, s: PinState, candidate: Prog, faults: set<Site>)
    requires c.proc.Running? && OnTrack(c, s, candidate, faults) && Step(c, faults).proc.Returned?
    ensures Lost(c.proc.at, s, candidate, faults) <==> EndsLost(s, candidate, faults)
  {}

  /** From a recoverable state, for every set of failing calls: a crash point, or the end of
      the run, is recoverable if and only if it is not lost. The candidate is a program just
      loaded, so `prog` does not hold it. */
  lemma CrashPointIsRecoverableIff(s: PinState, candidate: Prog, faults: set<Site>, n: nat)
    requires Recoverable(s) && s.prog != Some(candidate)
    ensures
      var c := Cut(StartActivate(s, candidate), faults, n);
      Recoverable(c.pins) <==> !LostAt(c, s, candidate, faults)
  {
    var c := Behind(s, candidate, faults, n);
    RunningIsRecoverableIff(c, s, candidate, faults);
    if Step(c, faults).proc.Returned? {
      EndIsRecoverableIff(c, s, candidate, faults);
    }
  }

  lemma WindowPins(s: PinState, candidate: Prog, faults: set<Site>, n: nat)
    ensures
      var c := Cut(StartActivate(s, candidate), faults, n);
      InWindow(c) ==> c.pins.prog == s.prog && c.pins.link == Attached(candidate)
  {
    var c := Behind(s, candidate, faults, n);
  }

  /** If the link updates and the first rename work where they are tried, the only crash
      points lost are those in the window. */
  lemma OnlyTheWindowIsLost(s: PinState, candidate: Prog, faults: set<Site>, n: nat)
    requires Recoverable(s)
    requires faults !! {Swap(SwapOut), Undo(UndoLink), Revert(RevertLink)}
    ensures
      var c := Cut(StartActivate(s, candidate), faults, n);
      && (InWindow(c) ==> c.pins.prog == s.prog && c.pins.link == Attached(candidate))
      && (Recoverable(c.pins) <==> !(InWindow(c) && s.prog != Some(candidate)))
  {
    var c := Behind(s, candidate, faults, n);
  }
}
