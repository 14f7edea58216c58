/**
 The generic IDLE/PROCESSING/COMPLETED/ERROR/TERMINATED state machine: a fixed
 transition table, the current state and the history of transitions taken,
 with `reset` as a shortcut back to IDLE from a finished operation.
 */
module LifecycleMachine {
  import opened Wrappers

  /** The five lifecycle states. */
  datatype State = Idle | Processing | Completed | Error | Terminated

  /** One transition, as a table row and as a history entry. */
  datatype Step = Step(from: State, to: State)

  /** The transition table, in the order the constructor lists it. */
  const Transitions: seq<Step> := [
    Step(Idle, Processing),
    Step(Processing, Completed),
    Step(Processing, Error),
    Step(Completed, Idle),
    Step(Error, Idle),
    Step(Idle, Terminated)
  ]

  /** A state machine: where it is and how it got there. */
  datatype Machine = Machine(current: State, history: seq<Step>)

  /** Why `transition` threw. */
  datatype MachineError = InvalidTransition(from: State, to: State)

  /** A row of the table allows the step. */
  predicate Allowed(from: State, to: State) {
    Step(from, to) in Transitions
  }

  /** The table spelled out: exactly six steps are allowed. */
  lemma AllowedSteps(from: State, to: State)
    ensures Allowed(from, to) <==>
              || (from == Idle && to == Processing)
              || (from == Processing && to == Completed)
              || (from == Processing && to == Error)
              || (from == Completed && to == Idle)
              || (from == Error && to == Idle)
              || (from == Idle && to == Terminated)
  {
    if Allowed(from, to) {
      var i :| 0 <= i < |Transitions| && Transitions[i] == Step(from, to);
    }
  }

  /** The constructor: the given initial state (IDLE when the caller gives none) and an empty history. */
  function NewMachine(initial: State): (m: Machine)
    ensures m.current == initial && m.history == []
    ensures ValidHistory(m)
  {
    Machine(initial, [])
  }

  /** `canTransition`: scans the table for a row from the current state to `to`. */
  method CanTransition(m: Machine, to: State) returns (allowed: bool)
    ensures allowed <==> Allowed(m.current, to)
  {
    var i := 0;
    while i < |Transitions|
      invariant 0 <= i <= |Transitions|
      invariant forall k :: 0 <= k < i ==> Transitions[k] != Step(m.current, to)
    {
      if Transitions[i].from == m.current && Transitions[i].to == to {
        return true;
      }
      i := i + 1;
    }
    return false;
  }

  /**
   `transition`: an allowed step moves the machine and appends exactly one
   history entry; any other step throws and leaves the machine as it was.
   */
  function Transition(m: Machine, to: State): (r: Result<Machine, MachineError>)
    ensures r.Ok? <==> Allowed(m.current, to)
    ensures r.Ok? ==> r.value.current == to && r.value.history == m.history + [Step(m.current, to)]
    ensures r.Err? ==> r.error == InvalidTransition(m.current, to)
  {
    if Allowed(m.current, to) then Ok(Machine(to, m.history + [Step(m.current, to)]))
    else Err(InvalidTransition(m.current, to))
  }

  /** `reset`: back to IDLE from COMPLETED or ERROR, logging the step; otherwise nothing happens. */
  function Reset(m: Machine): (r: Machine)
    ensures m.current == Completed || m.current == Error ==>
              r == Machine(Idle, m.history + [Step(m.current, Idle)])
    ensures m.current != Completed && m.current != Error ==> r == m
  {
    if m.current == Error || m.current == Completed then
      AllowedSteps(m.current, Idle);
      Transition(m, Idle).value
    else m
  }

  /**
   What every history satisfies: each entry is a row of the table, each entry
   starts where the previous one ended, and the last one ends in the current state.
   */
  predicate ValidHistory(m: Machine) {
    && (forall i :: 0 <= i < |m.history| ==> Allowed(m.history[i].from, m.history[i].to))
    && (forall i :: 0 < i < |m.history| ==> m.history[i - 1].to == m.history[i].from)
    && (|m.history| > 0 ==> m.history[|m.history| - 1].to == m.current)
  }

  /** A successful transition keeps the history a chain. */
  lemma TransitionKeepsHistory(m: Machine, to: State)
    requires ValidHistory(m)
    ensures Transition(m, to).Ok? ==> ValidHistory(Transition(m, to).value)
  {
    if Transition(m, to).Ok? {
      var h := Transition(m, to).value.history;
      assert h == m.history + [Step(m.current, to)];
      forall i | 0 < i < |h|
        ensures h[i - 1].to == h[i].from
      {
        if i < |m.history| {
          assert h[i - 1] == m.history[i - 1] && h[i] == m.history[i];
        }
      }
    }
  }

  /** The operations a caller can apply to a machine. */
  datatype Op = TransitionTo(to: State) | ResetOp

  /**
   One operation. Only a step out of the table throws, and then the machine is
   untouched; otherwise the machine either stays as it was or takes one logged
   step, so the history only ever grows by its last entry.
   */
  function Apply(m: Machine, op: Op): (r: Result<Machine, MachineError>)
    ensures r.Err? <==> op.TransitionTo? && !Allowed(m.current, op.to)
    ensures r.Err? ==> r.error == InvalidTransition(m.current, op.to)
    ensures r.Ok? && r.value != m ==>
              && Allowed(m.current, r.value.current)
              && r.value.history == m.history + [Step(m.current, r.value.current)]
  {
    match op
    case TransitionTo(to) => Transition(m, to)
    case ResetOp => Ok(Reset(m))
  }

  /** A sequence of operations, stopping at the first one that throws. */
  function Run(m: Machine, ops: seq<Op>): Result<Machine, MachineError>
    decreases |ops|
  {
    if |ops| == 0 then Ok(m)
    else
      match Apply(m, ops[0])
      case Err(e) => Err(e)
      case Ok(next) => Run(next, ops[1..])
  }

  /**
   However the machine is driven, the history only grows at the end, and it
   stays a chain of table rows ending in the current state.
   */
  lemma {:induction false} RunKeepsHistory(m: Machine, ops: seq<Op>)
    requires ValidHistory(m)
    ensures Run(m, ops).Ok? ==> ValidHistory(Run(m, ops).value)
    ensures Run(m, ops).Ok? ==> m.history <= Run(m, ops).value.history
    decreases |ops|
  {
    if |ops| > 0 && Apply(m, ops[0]).Ok? {
      ApplyKeepsHistory(m, ops[0]);
      RunKeepsHistory(Apply(m, ops[0]).value, ops[1..]);
    }
  }

  /** One operation keeps the history a chain and only appends to it. */
  lemma ApplyKeepsHistory(m: Machine, op: Op)
    requires ValidHistory(m)
    ensures Apply(m, op).Ok? ==> ValidHistory(Apply(m, op).value)
    ensures Apply(m, op).Ok? ==> m.history <= Apply(m, op).value.history
  {
    if op.TransitionTo? {
      TransitionKeepsHistory(m, op.to);
    } else if m.current == Error || m.current == Completed {
      AllowedSteps(m.current, Idle);
      TransitionKeepsHistory(m, Idle);
    }
  }

  /** Nothing leaves TERMINATED: every transition throws and `reset` does nothing. */
  lemma TerminatedIsAbsorbing(m: Machine, to: State)
    requires m.current == Terminated
    ensures Transition(m, to).Err?
    ensures Reset(m) == m
  {
    AllowedSteps(Terminated, to);
  }

  /** Driving a terminated machine either throws or leaves it exactly as it was. */
  lemma {:induction false} TerminatedRunIsInert(m: Machine, ops: seq<Op>)
    requires m.current == Terminated
    ensures Run(m, ops).Ok? ==> Run(m, ops).value == m
    decreases |ops|
  {
    if |ops| > 0 {
      if ops[0].TransitionTo? {
        TerminatedIsAbsorbing(m, ops[0].to);
      } else {
        TerminatedIsAbsorbing(m, Idle);
        TerminatedRunIsInert(m, ops[1..]);
      }
    }
  }
}
