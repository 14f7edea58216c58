/**
 The lifecycle entity (`BoundaryContextEntity`, and `SubjectRegistryEntity`,
 which is the same class under another name): a state guarded by its own
 transition table, operation counters, an audit log of every state change, and
 `execute`, which runs one command through IDLE, PROCESSING, COMPLETED or
 ERROR, and back to IDLE.
 */
module LifecycleEntity {
  import opened Wrappers
  import opened Text
  import opened LifecycleMachine

  /** One audit-log entry; the timestamp and the time-derived correlation id are not modelled. */
  datatype AuditEntry = AuditEntry(id: string, action: string, actor: string, before: State, after: State)

  /** The entity's state. Durations and timestamps are not modelled. */
  datatype Entity = Entity(
    id: string,
    state: State,
    operationCount: nat,
    successCount: nat,
    errorCount: nat,
    auditLog: seq<AuditEntry>
  )

  /** Why a call threw. */
  datatype EntityError =
    | InvalidStateTransition(from: State, to: State)
    | CannotExecute(state: State)

  /** The action every audit entry records. */
  const StateTransitionAction: string := "STATE_TRANSITION"

  /** The constructor: IDLE, all counters zero, an empty audit log. */
  function NewEntity(id: string): (e: Entity)
    ensures e.id == id && e.state == Idle && e.auditLog == []
    ensures e.operationCount == 0 && e.successCount == 0 && e.errorCount == 0
    ensures Consistent(e)
  {
    Entity(id, Idle, 0, 0, 0, [])
  }

  /** The `validTransitions` record inside `validateTransition`. */
  function ValidTargets(from: State): seq<State> {
    match from
    case Idle => [Processing, Terminated]
    case Processing => [Completed, Error]
    case Completed => [Idle]
    case Error => [Idle]
    case Terminated => []
  }

  /** The entity's own table allows exactly the steps of the state machine's table. */
  lemma ValidTargetsMatchMachine(from: State, to: State)
    ensures to in ValidTargets(from) <==> Allowed(from, to)
  {
    AllowedSteps(from, to);
  }

  /** The id of the n-th audit entry (counting from 1): `audit-` and then n in decimal. */
  function AuditId(n: nat): (id: string)
    ensures |id| > |"audit-"| && id[..|"audit-"|] == "audit-"
    ensures IsDecimal(id[|"audit-"|..]) && DecimalToNat(id[|"audit-"|..]) == n
  {
    DecimalRoundTrip(n);
    assert ("audit-" + NatToDecimal(n))[|"audit-"|..] == NatToDecimal(n);
    "audit-" + NatToDecimal(n)
  }

  /** Audit ids never repeat: the number can be read back out of the id. */
  lemma AuditIdsDistinct(m: nat, n: nat)
    requires m != n
    ensures AuditId(m) != AuditId(n)
  {
  }

  /**
   `setState`: a step out of the table throws and nothing changes; an allowed
   step changes the state and appends one audit entry numbered by the new log
   length, recording the states before and after, with the entity as actor.
   */
  function SetState(e: Entity, newState: State): (r: Result<Entity, EntityError>)
    ensures r.Ok? <==> newState in ValidTargets(e.state)
    ensures r.Err? ==> r.error == InvalidStateTransition(e.state, newState)
    ensures r.Ok? ==> r.value == e.(state := newState,
                                     auditLog := e.auditLog + [AuditEntry(AuditId(|e.auditLog| + 1), StateTransitionAction, e.id, e.state, newState)])
  {
    if newState in ValidTargets(e.state) then Ok(Advance(e, newState))
    else Err(InvalidStateTransition(e.state, newState))
  }

  /** Staying put is never a transition, and nothing leaves TERMINATED. */
  lemma SetStateRefusals(e: Entity, newState: State)
    ensures SetState(e, e.state) == Err(InvalidStateTransition(e.state, e.state))
    ensures e.state == Terminated ==> SetState(e, newState) == Err(InvalidStateTransition(Terminated, newState))
  {
  }

  /** The effect of an allowed `setState`. */
  function Advance(e: Entity, newState: State): (r: Entity)
    requires newState in ValidTargets(e.state)
    ensures r.state == newState && |r.auditLog| == |e.auditLog| + 1
  {
    e.(state := newState,
       auditLog := e.auditLog + [AuditEntry(AuditId(|e.auditLog| + 1), StateTransitionAction, e.id, e.state, newState)])
  }

  /** A command as `execute` receives it; the payload's contents are not inspected except by DELETE. */
  datatype Command<V> = Command(kind: string, payload: map<string, V>, correlationId: string)

  /** What `processCommand` returns for each known command type. */
  datatype CommandOutput<V> =
    | Created(createdId: string, fields: map<string, V>)
    | Updated(fields: map<string, V>)
    | Deleted(deletedId: Option<V>)
    | Queried(query: map<string, V>)

  /** The command types `processCommand` knows. */
  predicate KnownKind(kind: string) {
    kind == "CREATE" || kind == "UPDATE" || kind == "DELETE" || kind == "QUERY"
  }

  /**
   `processCommand`: the four known types produce their output (CREATE names
   the new item after the entity and the clock); any other type throws
   "Unknown command type: <type>".
   */
  function ProcessCommand<V>(entityId: string, command: Command<V>, now: nat): (r: Result<CommandOutput<V>, string>)
    ensures r.Ok? <==> KnownKind(command.kind)
    ensures r.Err? ==> r.error == "Unknown command type: " + command.kind
    ensures command.kind == "DELETE" ==>
              r == Ok(Deleted(if "id" in command.payload then Some(command.payload["id"]) else None))
  {
    if command.kind == "CREATE" then Ok(Created(entityId + "-" + NatToDecimal(now), command.payload))
    else if command.kind == "UPDATE" then Ok(Updated(command.payload))
    else if command.kind == "DELETE" then
      Ok(Deleted(if "id" in command.payload then Some(command.payload["id"]) else None))
    else if command.kind == "QUERY" then Ok(Queried(command.payload))
    else Err("Unknown command type: " + command.kind)
  }

  /** The error object of a failed execution. */
  datatype ExecutionError = ExecutionError(code: string, message: string)

  /** The code every failed execution reports. */
  const ExecutionFailed: string := "EXECUTION_FAILED"

  /** What `execute` returns; the duration is not modelled. */
  datatype ExecutionResult<V> = ExecutionResult(
    success: bool,
    data: Option<CommandOutput<V>>,
    error: Option<ExecutionError>,
    correlationId: string
  )

  /**
   `execute`: refused outside IDLE. From IDLE the entity goes to PROCESSING and
   counts the operation; a command `processCommand` handles goes through
   COMPLETED and counts a success, any other through ERROR and counts an
   error; either way the entity is back in IDLE.
   */
  function Execute<V>(e: Entity, command: Command<V>, now: nat): (r: Result<(Entity, ExecutionResult<V>), EntityError>)
    ensures r.Err? <==> e.state != Idle
    ensures r.Err? ==> r.error == CannotExecute(e.state)
    ensures r.Ok? ==> r.value.0.state == Idle && r.value.0.id == e.id
    ensures r.Ok? ==> r.value.0.operationCount == e.operationCount + 1
    ensures r.Ok? ==> r.value.1.correlationId == command.correlationId
    ensures r.Ok? ==> (r.value.1.success <==> KnownKind(command.kind))
    ensures r.Ok? && r.value.1.success ==>
              r.value.0.successCount == e.successCount + 1 && r.value.0.errorCount == e.errorCount
    ensures r.Ok? && !r.value.1.success ==>
              && r.value.0.successCount == e.successCount && r.value.0.errorCount == e.errorCount + 1
              && r.value.1.error == Some(ExecutionError(ExecutionFailed, "Unknown command type: " + command.kind))
  {
    if e.state != Idle then Err(CannotExecute(e.state))
    else
      var started := Advance(e, Processing);
      var counted := started.(operationCount := started.operationCount + 1);
      match ProcessCommand(e.id, command, now)
      case Ok(output) =>
        var completed := Advance(counted, Completed);
        var finished := Advance(completed.(successCount := completed.successCount + 1), Idle);
        Ok((finished, ExecutionResult(true, Some(output), None, command.correlationId)))
      case Err(message) =>
        var failed := Advance(counted, Error);
        var finished := Advance(failed.(errorCount := failed.errorCount + 1), Idle);
        Ok((finished, ExecutionResult(false, None, Some(ExecutionError(ExecutionFailed, message)), command.correlationId)))
  }

  /** The three audit entries `execute` appends, given the log length `n` before it and the middle state. */
  function ExecutionTrail(actor: string, n: nat, outcome: State): seq<AuditEntry> {
    [AuditEntry(AuditId(n + 1), StateTransitionAction, actor, Idle, Processing),
     AuditEntry(AuditId(n + 2), StateTransitionAction, actor, Processing, outcome),
     AuditEntry(AuditId(n + 3), StateTransitionAction, actor, outcome, Idle)]
  }

  /** `execute` from IDLE appends exactly IDLE→PROCESSING, PROCESSING→COMPLETED or ERROR, and back to IDLE. */
  lemma ExecuteAppendsThreeEntries<V>(e: Entity, command: Command<V>, now: nat)
    requires e.state == Idle
    ensures Execute(e, command, now).Ok?
    ensures var outcome := if KnownKind(command.kind) then Completed else Error;
            Execute(e, command, now).value.0.auditLog == e.auditLog + ExecutionTrail(e.id, |e.auditLog|, outcome)
  {
  }

  /**
   What an audit log kept by entity `actor`, now in `state`, satisfies: it is
   numbered 1, 2, 3, ..., every entry records an allowed step by this entity,
   consecutive entries chain, and the last one ends in the current state.
   */
  predicate AuditTrail(actor: string, state: State, log: seq<AuditEntry>) {
    && (forall i :: 0 <= i < |log| ==> log[i].id == AuditId(i + 1))
    && (forall i :: 0 <= i < |log| ==>
          log[i].actor == actor && log[i].action == StateTransitionAction && Allowed(log[i].before, log[i].after))
    && (forall i :: 0 < i < |log| ==> log[i - 1].after == log[i].before)
    && (|log| > 0 ==> log[|log| - 1].after == state)
  }

  /** What every entity reachable from the constructor satisfies: balanced counters and a well-kept audit log. */
  predicate Consistent(e: Entity) {
    && e.successCount + e.errorCount == e.operationCount
    && AuditTrail(e.id, e.state, e.auditLog)
  }

  /** Logging an allowed step keeps the audit trail well kept. */
  lemma AuditTrailGrows(actor: string, state: State, log: seq<AuditEntry>, to: State)
    requires AuditTrail(actor, state, log) && Allowed(state, to)
    ensures AuditTrail(actor, to, log + [AuditEntry(AuditId(|log| + 1), StateTransitionAction, actor, state, to)])
  {
    var entry := AuditEntry(AuditId(|log| + 1), StateTransitionAction, actor, state, to);
    EntriesGrow(actor, log, entry);
    ChainGrows(log, entry);
  }

  /** Appending a well-formed entry with the next id keeps every entry well formed and numbered. */
  lemma EntriesGrow(actor: string, log: seq<AuditEntry>, entry: AuditEntry)
    requires forall i :: 0 <= i < |log| ==> log[i].id == AuditId(i + 1)
    requires forall i :: 0 <= i < |log| ==> log[i].actor == actor && log[i].action == StateTransitionAction && Allowed(log[i].before, log[i].after)
    requires entry.id == AuditId(|log| + 1)
    requires entry.actor == actor && entry.action == StateTransitionAction && Allowed(entry.before, entry.after)
    ensures forall i :: 0 <= i < |log + [entry]| ==> (log + [entry])[i].id == AuditId(i + 1)
    ensures forall i :: 0 <= i < |log + [entry]| ==>
              (log + [entry])[i].actor == actor && (log + [entry])[i].action == StateTransitionAction
              && Allowed((log + [entry])[i].before, (log + [entry])[i].after)
  {
    var longer := log + [entry];
    forall i | 0 <= i < |longer|
      ensures longer[i].id == AuditId(i + 1)
      ensures longer[i].actor == actor && longer[i].action == StateTransitionAction
      ensures Allowed(longer[i].before, longer[i].after)
    {
      if i < |log| {
        assert longer[i] == log[i];
      }
    }
  }

  /** Appending an entry that starts where the log ends keeps the log a chain. */
  lemma ChainGrows(log: seq<AuditEntry>, entry: AuditEntry)
    requires forall i :: 0 < i < |log| ==> log[i - 1].after == log[i].before
    requires |log| > 0 ==> log[|log| - 1].after == entry.before
    ensures forall i :: 0 < i < |log + [entry]| ==> (log + [entry])[i - 1].after == (log + [entry])[i].before
  {
    var longer := log + [entry];
    forall i | 0 < i < |longer|
      ensures longer[i - 1].after == longer[i].before
    {
      if i < |log| {
        assert longer[i - 1] == log[i - 1] && longer[i] == log[i];
      }
    }
  }

  /** `setState` keeps the entity consistent. */
  lemma SetStateKeepsConsistent(e: Entity, newState: State)
    requires Consistent(e)
    ensures SetState(e, newState).Ok? ==> Consistent(SetState(e, newState).value)
  {
    if newState in ValidTargets(e.state) {
      ValidTargetsMatchMachine(e.state, newState);
      AuditTrailGrows(e.id, e.state, e.auditLog, newState);
    }
  }

  /** The three entries of one execution, appended one at a time. */
  lemma ExecutionTrailAsSteps(actor: string, log: seq<AuditEntry>, outcome: State)
    ensures log + ExecutionTrail(actor, |log|, outcome)
         == log + [AuditEntry(AuditId(|log| + 1), StateTransitionAction, actor, Idle, Processing)]
                + [AuditEntry(AuditId(|log| + 2), StateTransitionAction, actor, Processing, outcome)]
                + [AuditEntry(AuditId(|log| + 3), StateTransitionAction, actor, outcome, Idle)]
  {
  }

  /** Logging one execution's three steps from IDLE keeps the audit trail well kept, ending in IDLE. */
  lemma ExecutionTrailKeepsAudit(actor: string, log: seq<AuditEntry>, outcome: State)
    requires AuditTrail(actor, Idle, log)
    requires outcome == Completed || outcome == Error
    ensures AuditTrail(actor, Idle, log + ExecutionTrail(actor, |log|, outcome))
  {
    AllowedSteps(Idle, Processing);
    AllowedSteps(Processing, outcome);
    AllowedSteps(outcome, Idle);
    var log1 := log + [AuditEntry(AuditId(|log| + 1), StateTransitionAction, actor, Idle, Processing)];
    AuditTrailGrows(actor, Idle, log, Processing);
    var log2 := log1 + [AuditEntry(AuditId(|log| + 2), StateTransitionAction, actor, Processing, outcome)];
    AuditTrailGrows(actor, Processing, log1, outcome);
    AuditTrailGrows(actor, outcome, log2, Idle);
    ExecutionTrailAsSteps(actor, log, outcome);
  }

  /** `execute` keeps the entity consistent: in particular successes plus errors still equal operations. */
  lemma ExecuteKeepsConsistent<V>(e: Entity, command: Command<V>, now: nat)
    requires Consistent(e)
    ensures Execute(e, command, now).Ok? ==> Consistent(Execute(e, command, now).value.0)
  {
    if e.state == Idle {
      ExecuteAppendsThreeEntries(e, command, now);
      ExecutionTrailKeepsAudit(e.id, e.auditLog, if KnownKind(command.kind) then Completed else Error);
    }
  }

  /** Executing a sequence of commands, each with its own clock reading; stops at the first refusal. */
  function ExecuteAll<V>(e: Entity, commands: seq<Command<V>>, clock: seq<nat>): Result<Entity, EntityError>
    requires |clock| == |commands|
    decreases |commands|
  {
    if |commands| == 0 then Ok(e)
    else
      match Execute(e, commands[0], clock[0])
      case Err(err) => Err(err)
      case Ok((next, _)) => ExecuteAll(next, commands[1..], clock[1..])
  }

  /**
   From IDLE, a sequence of commands all run: each counts one operation and
   three audit entries, and the entity ends in IDLE, still consistent.
   */
  lemma {:induction false} ExecuteAllFromIdle<V>(e: Entity, commands: seq<Command<V>>, clock: seq<nat>)
    requires e.state == Idle && Consistent(e) && |clock| == |commands|
    ensures ExecuteAll(e, commands, clock).Ok?
    ensures var last := ExecuteAll(e, commands, clock).value;
            && last.state == Idle && Consistent(last)
            && last.operationCount == e.operationCount + |commands|
            && |last.auditLog| == |e.auditLog| + 3 * |commands|
    decreases |commands|
  {
    if |commands| > 0 {
      ExecuteAppendsThreeEntries(e, commands[0], clock[0]);
      ExecuteKeepsConsistent(e, commands[0], clock[0]);
      var next := Execute(e, commands[0], clock[0]).value.0;
      ExecuteAllFromIdle(next, commands[1..], clock[1..]);
    }
  }

  /** The counters `getMetrics` reports; the average duration and the last-operation time are not modelled. */
  datatype Metrics = Metrics(totalOperations: nat, successCount: nat, errorCount: nat)

  /** What `toSnapshot` reports, with the frozen config reduced to the id it was built from; timestamps are not modelled. */
  datatype Snapshot = Snapshot(id: string, state: State, operationCount: nat, successCount: nat, errorCount: nat, auditLogSize: nat)

  /** `getMetrics`: on a consistent entity every operation is a success or an error. */
  function GetMetrics(e: Entity): (m: Metrics)
    ensures m.totalOperations == e.operationCount
    ensures m.successCount == e.successCount && m.errorCount == e.errorCount
    ensures Consistent(e) ==> m.successCount + m.errorCount == m.totalOperations
  {
    Metrics(e.operationCount, e.successCount, e.errorCount)
  }

  /**
   `toSnapshot`: on a consistent entity the counters balance and the audit log
   size names the last audit entry, which ends in the reported state.
   */
  function ToSnapshot(e: Entity): (s: Snapshot)
    ensures s.id == e.id && s.state == e.state && s.auditLogSize == |e.auditLog|
    ensures s.operationCount == e.operationCount
    ensures s.successCount == e.successCount && s.errorCount == e.errorCount
    ensures Consistent(e) ==> s.successCount + s.errorCount == s.operationCount
    ensures Consistent(e) && s.auditLogSize > 0 ==>
              && e.auditLog[s.auditLogSize - 1].id == AuditId(s.auditLogSize)
              && e.auditLog[s.auditLogSize - 1].after == s.state
  {
    Snapshot(e.id, e.state, e.operationCount, e.successCount, e.errorCount, |e.auditLog|)
  }

  /** How many of the commands have a type `processCommand` knows. */
  function KnownCount<V>(commands: seq<Command<V>>): (n: nat)
    ensures n <= |commands|
    decreases |commands|
  {
    if |commands| == 0 then 0
    else (if KnownKind(commands[0].kind) then 1 else 0) + KnownCount(commands[1..])
  }

  /**
   After a run of commands from IDLE, the metrics count every command once, as
   a success exactly when its type is known and as an error otherwise, and the
   snapshot reports three more audit entries per command.
   */
  lemma {:induction false} ExecuteAllMetrics<V>(e: Entity, commands: seq<Command<V>>, clock: seq<nat>)
    requires e.state == Idle && |clock| == |commands|
    ensures ExecuteAll(e, commands, clock).Ok?
    ensures var last := ExecuteAll(e, commands, clock).value;
            && GetMetrics(last) == Metrics(e.operationCount + |commands|,
                                           e.successCount + KnownCount(commands),
                                           e.errorCount + (|commands| - KnownCount(commands)))
            && ToSnapshot(last).auditLogSize == |e.auditLog| + 3 * |commands|
    decreases |commands|
  {
    if |commands| > 0 {
      ExecuteAppendsThreeEntries(e, commands[0], clock[0]);
      var next := Execute(e, commands[0], clock[0]).value.0;
      ExecuteAllMetrics(next, commands[1..], clock[1..]);
    }
  }
}
