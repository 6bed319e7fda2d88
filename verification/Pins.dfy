/** The pin directory of one host: the two netns links, the three program pins, the two
    map pins, and the phase recorded in the upgrade journal. */
module Pins {
  import opened Prelude

  /** A kernel program, by identity. */
  type Prog = nat

  /** A link pin. A link that was detached but whose pin is still there accepts no update. */
  datatype Link = Unpinned | Attached(prog: Prog) | Detached

  datatype Phase = Prepared | Activating | Healthy | RollingBack | RolledBack | Committed | Failed {
    predicate Terminal() {
      RolledBack? || Committed? || Failed?
    }
  }

  datatype PinState = PinState(
    link: Link,
    backup: Link,
    prog: Option<Prog>,
    previous: Option<Prog>,
    candidate: Option<Prog>,
    journal: Option<Phase>,
    openPorts: bool,
    redirSocket: bool)
  {
    // `rename(2)` inside the pin directory replaces its target, and changes nothing when
    // the call fails or there is nothing to move.

    function LiveToPrevious(works: bool): PinState {
      if works && prog.Some? then this.(previous := prog, prog := None) else this
    }

    function LiveToCandidate(works: bool): PinState {
      if works && prog.Some? then this.(candidate := prog, prog := None) else this
    }

    function CandidateToLive(works: bool): PinState {
      if works && candidate.Some? then this.(prog := candidate, candidate := None) else this
    }

    function PreviousToLive(works: bool): PinState {
      if works && previous.Some? then this.(prog := previous, previous := None) else this
    }

    function DropCandidate(works: bool): PinState {
      if works then this.(candidate := None) else this
    }

    /** The journal file is replaced by one rename, so a failed write keeps the old phase. */
    function Mark(phase: Phase, works: bool): PinState {
      if works then this.(journal := Some(phase)) else this
    }

    /** The primary link runs the program that `prog` pins. */
    predicate Agrees() {
      link.Attached? && prog == Some(link.prog)
    }

    predicate MapsPinned() {
      openPorts && redirSocket
    }
  }
}
