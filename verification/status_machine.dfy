/**
 The subject status state machine: which status changes are legal and which
 statuses are terminal. The registry imports `isValidTransition` and
 `isTerminalState` from a module that is not part of this model, so this model
 fixes the table itself (ACTIVE and SUSPENDED switch freely and may each end in
 ARCHIVED or DELETED; nothing leaves ARCHIVED or DELETED), and a request for the
 current status counts as valid, which is what lets the registry's no-op branch
 be reached at all.
 */
module StatusMachine {
  import opened SubjectTypes

  /** ARCHIVED and DELETED are permanent. */
  predicate IsTerminal(s: SubjectStatus) {
    s == Archived || s == Deleted
  }

  /** The statuses a subject may move to from `from`, not counting staying put. */
  function Successors(from: SubjectStatus): set<SubjectStatus> {
    match from
    case Active => {Suspended, Archived, Deleted}
    case Suspended => {Active, Archived, Deleted}
    case Archived => {}
    case Deleted => {}
  }

  /** A status change is valid when it stays put or follows the table. */
  predicate IsValidTransition(from: SubjectStatus, to: SubjectStatus) {
    from == to || to in Successors(from)
  }

  /** The table, both directions: exactly the statuses with no way out are terminal. */
  lemma TerminalIffNoSuccessor(s: SubjectStatus)
    ensures IsTerminal(s) <==> (forall t :: IsValidTransition(s, t) ==> t == s)
  {
    if !IsTerminal(s) {
      var other := if s == Active then Suspended else Active;
      assert IsValidTransition(s, other);
    }
  }

  /** A live status may move to any status at all, itself included. */
  lemma LiveStatusMovesAnywhere(a: SubjectStatus, b: SubjectStatus)
    requires !IsTerminal(a)
    ensures IsValidTransition(a, b)
  {
  }

  /** ACTIVE, the status of every new subject, is not terminal and may move to every status. */
  lemma ActiveIsLive()
    ensures !IsTerminal(Active) && forall t :: IsValidTransition(Active, t)
  {
    forall t
      ensures IsValidTransition(Active, t)
    {
      LiveStatusMovesAnywhere(Active, t);
    }
  }

  /** A status reached by a valid transition from a terminal status is that same status. */
  lemma TerminalIsAbsorbing(s: SubjectStatus, t: SubjectStatus)
    requires IsTerminal(s) && IsValidTransition(s, t)
    ensures t == s
  {
  }
}
