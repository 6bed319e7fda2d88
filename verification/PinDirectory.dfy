/** The pin directory as an object, with `activate`, `rollback` and the loader's attach
    sequence written as the source writes them. After every call the directory is in the state
    the step machine has there, and each operation ends where the machine ends. A call that
    may fail is guarded by its site: it fails when the site is in `faults`. */
module PinDirectory {
  import opened Prelude
  import opened Pins
  import opened Transaction

  /** `c` finishes where its next step does. */
  lemma Unfold(c: Config, faults: set<Site>)
    requires c.proc.Running?
    ensures Finish(c, faults) == Finish(Step(c, faults), faults)
    ensures Step(c, faults).proc.Returned? ==> Finish(c, faults) == Step(c, faults)
  {}

  /** The configuration after `c`, ready for the call that comes next. `now` is the state of
      the directory between the two calls: a crash there leaves what the machine says. */
  ghost function Next(c: Config, faults: set<Site>, now: PinState): (d: Config)
    requires c.proc.Running? && Step(c, faults).proc.Running? && Step(c, faults).pins == now
    ensures d == Step(c, faults)
    ensures Finish(d, faults) == Finish(c, faults) == Finish(Step(d, faults), faults)
    ensures Step(d, faults).proc.Returned? ==> Finish(d, faults) == Step(d, faults)
  {
    var d := Step(c, faults);
    Unfold(c, faults);
    Unfold(d, faults);
    d
  }

  class PinDir {
    var link: Link
    var backup: Link
    var prog: Option<Prog>
    var previous: Option<Prog>
    var candidate: Option<Prog>
    var journal: Option<Phase>
    var openPorts: bool
    var redirSocket: bool

    constructor (s: PinState)
      ensures State() == s
    {
      link, backup, prog, previous, candidate := s.link, s.backup, s.prog, s.previous, s.candidate;
      journal, openPorts, redirSocket := s.journal, s.openPorts, s.redirSocket;
    }

    function State(): PinState
      reads this
    {
      PinState(link, backup, prog, previous, candidate, journal, openPorts, redirSocket)
    }

    method Mark(phase: Phase, works: bool)
      modifies this`journal
      ensures State() == old(State()).Mark(phase, works)
    {
      if works {
        journal := Some(phase);
      }
    }

    method DropCandidate(works: bool)
      modifies this`candidate
      ensures State() == old(State()).DropCandidate(works)
    {
      if works {
        candidate := None;
      }
    }

    method UpdateLink(program: Prog, works: bool) returns (ok: bool)
      modifies this`link
      ensures ok == Updates(old(State()), works)
      ensures State() == if ok then old(State()).(link := Attached(program)) else old(State())
    {
      ok := works && link.Attached?;
      if ok {
        link := Attached(program);
      }
    }

    method RenameLiveToPrevious(works: bool) returns (ok: bool)
      modifies this`prog, this`previous
      ensures ok == (works && old(prog).Some?) && State() == old(State()).LiveToPrevious(works)
    {
      ok := works && prog.Some?;
      if ok {
        previous, prog := prog, None;
      }
    }

    method RenameLiveToCandidate(works: bool) returns (ok: bool)
      modifies this`prog, this`candidate
      ensures ok == (works && old(prog).Some?) && State() == old(State()).LiveToCandidate(works)
    {
      ok := works && prog.Some?;
      if ok {
        candidate, prog := prog, None;
      }
    }

    method RenameCandidateToLive(works: bool) returns (ok: bool)
      modifies this`prog, this`candidate
      ensures ok == (works && old(candidate).Some?) && State() == old(State()).CandidateToLive(works)
    {
      ok := works && candidate.Some?;
      if ok {
        prog, candidate := candidate, None;
      }
    }

    method RenamePreviousToLive(works: bool) returns (ok: bool)
      modifies this`prog, this`previous
      ensures ok == (works && old(previous).Some?) && State() == old(State()).PreviousToLive(works)
    {
      ok := works && previous.Some?;
      if ok {
        prog, previous := previous, None;
      }
    }

    /** Replace the primary link's program by the candidate that was loaded. */
    method Activate(loaded: Prog, faults: set<Site>) returns (ok: bool)
      modifies this
      ensures Config(State(), Returned(ok)) == Finish(StartActivate(old(State()), loaded), faults)
    {
      ghost var c := StartActivate(State(), loaded);
      Unfold(c, faults);
      if Check(ReadJournal) in faults || (journal.Some? && !journal.value.Terminal()) {
        return false;
      }
      c := Next(c, faults, State());
      if Check(RequirePins) in faults || !openPorts || !redirSocket || link.Unpinned? || prog.None? {
        return false;
      }
      c := Next(c, faults, State());
      if Check(OpenLive) in faults {
        return false;
      }
      var held := prog.value;
      c := Next(c, faults, State());
      if Check(LoadCandidate) in faults {
        c := Next(c, faults, State());
        Mark(Failed, Check(NotePreflight) !in faults);
        return false;
      }
      c := Next(c, faults, State());
      if Check(FindDispatch) in faults {
        return false;
      }
      c := Next(c, faults, State());
      if Check(MarkPrepared) in faults {
        return false;
      }
      Mark(Prepared, true);
      c := Next(c, faults, State());
      ok := ActivatePrepared(loaded, held, faults);
    }

    /** `activate` once `prepared` is in the journal. */
    method ActivatePrepared(loaded: Prog, held: Prog, faults: set<Site>) returns (ok: bool)
      modifies this
      ensures
        Config(State(), Returned(ok)) ==
          Finish(Config(old(State()), Running(Prepare(DropStale), loaded, held, false)), faults)
    {
      ghost var c := Config(State(), Running(Prepare(DropStale), loaded, held, false));
      Unfold(c, faults);
      DropCandidate(Prepare(DropStale) !in faults);
      c := Next(c, faults, State());
      if Prepare(OpenLink) in faults || link.Unpinned? {
        return false;
      }
      c := Next(c, faults, State());
      if Prepare(PinCandidate) in faults || candidate.Some? {
        c := Next(c, faults, State());
        Mark(Failed, Prepare(MarkPinFailed) !in faults);
        return false;
      }
      candidate := Some(loaded);
      c := Next(c, faults, State());
      ok := SwitchLink(loaded, held, faults);
    }

    /** `activate` once the candidate is pinned: the link update. */
    method SwitchLink(loaded: Prog, held: Prog, faults: set<Site>) returns (ok: bool)
      modifies this
      ensures
        Config(State(), Returned(ok)) ==
          Finish(Config(old(State()), Running(Prepare(MarkActivating), loaded, held, false)), faults)
    {
      ghost var c := Config(State(), Running(Prepare(MarkActivating), loaded, held, false));
      Unfold(c, faults);
      if Prepare(MarkActivating) in faults {
        return false;
      }
      Mark(Activating, true);
      c := Next(c, faults, State());
      var updated := UpdateLink(loaded, Prepare(PrepareSite.UpdateLink) !in faults);
      c := Next(c, faults, State());
      if !updated {
        DropCandidate(Prepare(DropRejected) !in faults);
        c := Next(c, faults, State());
        Mark(Failed, Prepare(MarkUpdateFailed) !in faults);
        return false;
      }
      ok := SwapPins(loaded, held, faults);
    }

    /** `activate` once the link runs the candidate: the pin swap and the health window. */
    method SwapPins(loaded: Prog, held: Prog, faults: set<Site>) returns (ok: bool)
      modifies this
      ensures
        Config(State(), Returned(ok)) ==
          Finish(Config(old(State()), Running(Swap(SwapOut), loaded, held, false)), faults)
    {
      ghost var c := Config(State(), Running(Swap(SwapOut), loaded, held, false));
      Unfold(c, faults);
      var swapped := RenameLiveToPrevious(Swap(SwapOut) !in faults);
      c := Next(c, faults, State());
      if swapped {
        swapped := RenameCandidateToLive(Swap(SwapIn) !in faults);
        c := Next(c, faults, State());
      }
      if !swapped {
        ok := UndoSwap(loaded, held, faults);
        return;
      }
      if Swap(MarkHealthy) in faults {
        return false;
      }
      Mark(Healthy, true);
      c := Next(c, faults, State());
      if Swap(HealthCheck) in faults || link.Unpinned? || !openPorts || !redirSocket || prog.None? {
        c := Next(c, faults, State());
        ok := RevertUpgrade(loaded, held, faults);
        return;
      }
      c := Next(c, faults, State());
      Mark(Committed, Swap(MarkCommitted) !in faults);
      ok := Swap(MarkCommitted) !in faults;
    }

    /** `activate` after a failed pin rename. */
    method UndoSwap(loaded: Prog, held: Prog, faults: set<Site>) returns (ok: bool)
      modifies this
      ensures
        Config(State(), Returned(ok)) ==
          Finish(Config(old(State()), Running(Undo(UndoLink), loaded, held, false)), faults)
    {
      ghost var c := Config(State(), Running(Undo(UndoLink), loaded, held, false));
      Unfold(c, faults);
      var _ := UpdateLink(held, Undo(UndoLink) !in faults);
      c := Next(c, faults, State());
      var _ := RenamePreviousToLive(Undo(UndoPin) !in faults);
      c := Next(c, faults, State());
      DropCandidate(Undo(UndoDrop) !in faults);
      c := Next(c, faults, State());
      Mark(RolledBack, Undo(MarkUndone) !in faults);
      return false;
    }

    /** `activate` after a failed health check. */
    method RevertUpgrade(loaded: Prog, held: Prog, faults: set<Site>) returns (ok: bool)
      modifies this
      ensures
        Config(State(), Returned(ok)) ==
          Finish(Config(old(State()), Running(Revert(MarkReverting), loaded, held, false)), faults)
    {
      ghost var c := Config(State(), Running(Revert(MarkReverting), loaded, held, false));
      Unfold(c, faults);
      if Revert(MarkReverting) in faults {
        return false;
      }
      Mark(RollingBack, true);
      c := Next(c, faults, State());
      var reverted := UpdateLink(held, Revert(RevertLink) !in faults);
      c := Next(c, faults, State());
      var _ := RenameLiveToCandidate(Revert(RevertOut) !in faults);
      c := Next(c, faults, State());
      var _ := RenamePreviousToLive(Revert(RevertIn) !in faults);
      c := Next(c, faults, State());
      DropCandidate(Revert(RevertDrop) !in faults);
      c := Next(c, faults, State());
      Mark(if reverted then RolledBack else Failed, Revert(MarkReverted) !in faults);
      return false;
    }

    /** With a `prog_previous` to go back to, both the link and `prog` go back to it; without
        one only leftovers and the journal are cleared. */
    method Rollback(faults: set<Site>) returns (ok: bool)
      modifies this
      ensures Config(State(), Returned(ok)) == Finish(StartRollback(old(State())), faults)
    {
      ghost var c := StartRollback(State());
      Unfold(c, faults);
      if Rb(RbReadJournal) in faults {
        return false;
      }
      c := Next(c, faults, State());
      if Rb(ProbePrevious) in faults || previous.None? {
        c := Next(c, faults, State());
        DropCandidate(Rb(DropLeftover) !in faults);
        c := Next(c, faults, State());
        Mark(RolledBack, Rb(MarkCleared) !in faults);
        return Rb(MarkCleared) !in faults;
      }
      c := Next(c, faults, State());
      ok := RelinkPrevious(faults);
    }

    /** `rollback` once it has seen a `prog_previous`. */
    method RelinkPrevious(faults: set<Site>) returns (ok: bool)
      requires previous.Some?
      modifies this
      ensures
        Config(State(), Returned(ok)) ==
          Finish(Config(old(State()), Running(Rb(ProbeLink), 0, 0, false)), faults)
    {
      ghost var c := Config(State(), Running(Rb(ProbeLink), 0, 0, false));
      Unfold(c, faults);
      if Rb(ProbeLink) in faults || link.Unpinned? {
        return false;
      }
      c := Next(c, faults, State());
      if Rb(MarkRollingBack) in faults {
        return false;
      }
      Mark(RollingBack, true);
      c := Next(c, faults, State());
      if Rb(OpenPrevious) in faults {
        return false;
      }
      var held := previous.value;
      c := Next(c, faults, State());
      if Rb(RbOpenLink) in faults {
        return false;
      }
      c := Next(c, faults, State());
      var updated := UpdateLink(held, Rb(RestoreLink) !in faults);
      c := Next(c, faults, State());
      if !updated {
        Mark(Failed, Rb(MarkRestoreFailed) !in faults);
        return false;
      }
      ok := RestorePins(held, faults);
    }

    /** `rollback` once the link is back on `prog_previous`. */
    method RestorePins(held: Prog, faults: set<Site>) returns (ok: bool)
      modifies this
      ensures
        Config(State(), Returned(ok)) ==
          Finish(Config(old(State()), Running(Restore(ProbeLive), 0, held, false)), faults)
    {
      ghost var c := Config(State(), Running(Restore(ProbeLive), 0, held, false));
      Unfold(c, faults);
      if Restore(ProbeLive) !in faults && prog.Some? {
        c := Next(c, faults, State());
        var _ := RenameLiveToCandidate(Restore(MoveLive) !in faults);
      }
      c := Next(c, faults, State());
      var restored := RenamePreviousToLive(Restore(RestorePin) !in faults);
      if !restored {
        return false;
      }
      c := Next(c, faults, State());
      DropCandidate(Restore(DropReplaced) !in faults);
      c := Next(c, faults, State());
      Mark(RolledBack, Restore(MarkRolledBack) !in faults);
      return Restore(MarkRolledBack) !in faults;
    }

    /** The loader's start: keep or attach the backup link, move or attach the primary
        link, keep or pin `prog`, pin the maps. */
    method LoadAndAttach(loaded: Prog, faults: set<Site>) returns (ok: bool)
      modifies this
      ensures Config(State(), Returned(ok)) == Finish(StartLoader(old(State()), loaded), faults)
    {
      ghost var c := StartLoader(State(), loaded);
      Unfold(c, faults);
      if Ld(Load) in faults {
        return false;
      }
      c := Next(c, faults, State());
      if Ld(ProbeBackup) in faults || backup.Unpinned? {
        c := Next(c, faults, State());
        if Ld(AttachBackup) in faults {
          return false;
        }
        c := Next(c, faults, State());
        if Ld(PinBackup) in faults || !backup.Unpinned? {
          return false;
        }
        backup := Attached(loaded);
      }
      c := Next(c, faults, State());
      ok := AttachPrimary(loaded, faults);
    }

    method AttachPrimary(loaded: Prog, faults: set<Site>) returns (ok: bool)
      modifies this
      ensures
        Config(State(), Returned(ok)) ==
          Finish(Config(old(State()), Running(Ld(ProbePrimary), loaded, 0, false)), faults)
    {
      ghost var c := Config(State(), Running(Ld(ProbePrimary), loaded, 0, false));
      Unfold(c, faults);
      if Ld(ProbePrimary) !in faults && !link.Unpinned? {
        c := Next(c, faults, State());
        if Ld(OpenPrimary) in faults {
          return false;
        }
        c := Next(c, faults, State());
        var updated := UpdateLink(loaded, Ld(UpdatePrimary) !in faults);
        if !updated {
          return false;
        }
        c := Next(c, faults, State());
      } else {
        c := Next(c, faults, State());
        if Ld(LoaderSite.AttachPrimary) in faults {
          return false;
        }
        c := Next(c, faults, State());
        if Ld(PinPrimary) in faults || !link.Unpinned? {
          return false;
        }
        link := Attached(loaded);
        c := Next(c, faults, State());
      }
      ok := PinAll(loaded, faults);
    }

    /** `pin_dispatch_prog` and `ensure_maps_pinned`. */
    method PinAll(loaded: Prog, faults: set<Site>) returns (ok: bool)
      modifies this
      ensures
        Config(State(), Returned(ok)) ==
          Finish(Config(old(State()), Running(Keep(ProbeProg), loaded, 0, false)), faults)
    {
      ghost var c := Config(State(), Running(Keep(ProbeProg), loaded, 0, false));
      Unfold(c, faults);
      if Keep(ProbeProg) in faults || prog.None? {
        c := Next(c, faults, State());
        if Keep(PinProg) in faults || prog.Some? {
          return false;
        }
        prog := Some(loaded);
      }
      c := Next(c, faults, State());
      if Keep(PinOpenPorts) in faults {
        return false;
      }
      openPorts := true;
      c := Next(c, faults, State());
      redirSocket := redirSocket || Keep(PinRedirSocket) !in faults;
      ok := Keep(PinRedirSocket) !in faults;
    }
  }
}
