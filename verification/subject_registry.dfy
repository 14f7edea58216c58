/**
 The registry operations `registerSubject`, `updateSubjectStatus`,
 `updateSubjectAttributes` and `getSubject`. Each is a pure function from the
 store, the request, the environment (clock, random source, event id) and the
 behaviour of the collaborators to an `Outcome`: the result, the store
 afterwards, the events emitted and how the trace span was closed.
 */
module SubjectRegistry {
  import opened Wrappers
  import opened SubjectTypes
  import opened StatusMachine
  import opened SubjectEntity
  import opened SubjectStorage

  /** The events the registry emits. `timestamp` is the event's own `new Date()`. */
  datatype SubjectEvent =
    | SubjectCreated(
        eventId: string, subjectId: string, timestamp: Timestamp,
        subjectType: SubjectType, status: SubjectStatus, attributes: Attributes, createdAt: Timestamp)
    | SubjectStatusChanged(
        eventId: string, subjectId: string, timestamp: Timestamp,
        oldStatus: SubjectStatus, newStatus: SubjectStatus, reason: Option<string>, changedAt: Timestamp)
    | SubjectAttributesUpdated(
        eventId: string, subjectId: string, timestamp: Timestamp,
        updatedAttributes: Attributes, updatedAt: Timestamp)

  /**
   What one call reads from the outside world: `now` is the `new Date()` that
   stamps the record, `eventTime` the one that stamps the event, `eventId` the
   generated `evt_...` string and `draws` the random source for a new subject id.
   */
  datatype Env = Env(now: Timestamp, eventTime: Timestamp, eventId: string, draws: Draws)

  /**
   How the collaborators behave during one call: the storage read, the storage
   write (store or conditional update) and whether `emit` throws.
   */
  datatype Faults = Faults(retrieve: CallBehaviour, write: CallBehaviour, emitRaises: bool)

  /** Faults under which every collaborator does its job. */
  const NoFaults := Faults(Normal, Normal, false)

  /** The collaborator whose own exception escaped. */
  datatype Collaborator = Storage | EventEmitter

  /**
   Why a call failed: a `SubjectRegistryError` the registry threw, or an
   exception from a collaborator, rethrown unchanged.
   */
  datatype Failure = Rejected(error: RegistryError) | Propagated(source: Collaborator)

  /** How the trace span was closed: `endTrace(span, true)` or `endTrace(span, false, code)`. */
  datatype TraceEnd = TraceSucceeded | TraceFailed(code: ErrorCode)

  /** The full effect of one registry call. */
  datatype Outcome<+T> = Outcome(result: Result<T, Failure>, store: Store, events: seq<SubjectEvent>, trace: TraceEnd)

  /**
   The catch blocks: a registry error closes the span with its own code; any
   other exception is reported as STORAGE_UNAVAILABLE.
   */
  function TraceFor<T>(result: Result<T, Failure>): (t: TraceEnd)
    ensures t == TraceSucceeded <==> result.Ok?
    ensures result.Err? && result.error.Rejected? ==> t == TraceFailed(result.error.error.code)
    ensures result.Err? && result.error.Propagated? ==> t == TraceFailed(StorageUnavailable)
  {
    match result
    case Ok(_) => TraceSucceeded
    case Err(Rejected(e)) => TraceFailed(e.code)
    case Err(Propagated(_)) => TraceFailed(StorageUnavailable)
  }

  /** A call that throws `failure` with the store as it is at that point and no events. */
  function Fail<T>(store: Store, failure: Failure): Outcome<T> {
    var result: Result<T, Failure> := Err(failure);
    Outcome(result, store, [], TraceFor(result))
  }

  /** The last step of a successful write: emit `event`, then return `value`. */
  function Emit<T>(store: Store, event: SubjectEvent, value: T, emitRaises: bool): Outcome<T> {
    if emitRaises then Fail(store, Propagated(EventEmitter))
    else
      var result: Result<T, Failure> := Ok(value);
      Outcome(result, store, [event], TraceFor(result))
  }

  /** The well-formedness every outcome has: its trace matches its result and it emits at most once. */
  predicate Coherent<T>(o: Outcome<T>) {
    && o.trace == TraceFor(o.result)
    && |o.events| <= 1
    && (o.events != [] ==> o.result.Ok?)
  }

  /** The record a successful status change writes: status, `updated_at` and version move, nothing else. */
  function WithStatus(current: SubjectRecord, status: SubjectStatus, now: Timestamp): (updated: SubjectRecord)
    ensures updated.subjectId == current.subjectId && updated.subjectType == current.subjectType
    ensures updated.createdAt == current.createdAt && updated.attributes == current.attributes
    ensures updated.status == status && updated.updatedAt == now && updated.version == current.version + 1
  {
    current.(status := status, updatedAt := now, version := current.version + 1)
  }

  /** The record a successful attribute update writes: the map is replaced, not merged. */
  function WithAttributes(current: SubjectRecord, attributes: Attributes, now: Timestamp): (updated: SubjectRecord)
    ensures updated.subjectId == current.subjectId && updated.subjectType == current.subjectType
    ensures updated.createdAt == current.createdAt && updated.status == current.status
    ensures updated.attributes == attributes && updated.updatedAt == now && updated.version == current.version + 1
  {
    current.(attributes := attributes, updatedAt := now, version := current.version + 1)
  }

  /**
   `registerSubject`: build the record (type, then attributes), store it, then
   emit `SubjectCreated`. Any refusal to store is a SUBJECT_ID_COLLISION.
   */
  function RegisterSubject(store: Store, request: RegisterSubjectRequest, env: Env, faults: Faults): (o: Outcome<SubjectRecord>)
    ensures Coherent(o)
    ensures o.result.Err? && o.result.error.Rejected? ==> o.store == store
    ensures o.result.Ok? ==>
              && o.result.value.subjectId !in store
              && o.store == store[o.result.value.subjectId := o.result.value]
  {
    StoreCreated(store, CreateSubjectRecord(request.subjectType, request.attributes, env.now, env.draws), env, faults)
  }

  /** The part of `registerSubject` after the factory has run: store, then emit. */
  function StoreCreated(store: Store, created: Result<SubjectRecord, RegistryError>, env: Env, faults: Faults): (o: Outcome<SubjectRecord>)
    ensures Coherent(o)
    ensures o.result.Err? && o.result.error.Rejected? ==> o.store == store
    ensures o.store != store ==>
              created.Ok? && created.value.subjectId !in store && o.store == store[created.value.subjectId := created.value]
    ensures o.result.Ok? ==>
              && o.result.value.subjectId !in store
              && o.store == store[o.result.value.subjectId := o.result.value]
  {
    match created
    case Err(e) => Fail(store, Rejected(e))
    case Ok(subject) =>
      match StoreSubject(store, subject, faults.write)
      case Threw => Fail(store, Propagated(Storage))
      case Answered(NotStored, after) => Fail(after, Rejected(RegistryError(SubjectIdCollision, None)))
      case Answered(Stored, after) =>
        var event := SubjectCreated(env.eventId, subject.subjectId, env.eventTime,
                                    subject.subjectType, subject.status, subject.attributes, subject.createdAt);
        Emit(after, event, subject, faults.emitRaises)
  }

  /**
   `updateSubjectStatus`: validate the status, read the subject, refuse a
   terminal subject, check the transition, return early on a no-op, write
   conditionally on the expected version, then emit `SubjectStatusChanged`.
   */
  function UpdateSubjectStatus(store: Store, request: UpdateSubjectStatusRequest, env: Env, faults: Faults): (o: Outcome<SubjectRecord>)
    ensures Coherent(o)
    ensures o.result.Err? && o.result.error.Rejected? ==> o.store == store
    ensures o.store != store ==>
              && request.subjectId in store
              && ValidateSubjectStatus(request.newStatus).Ok?
              && var current := store[request.subjectId];
                 var target := ValidateSubjectStatus(request.newStatus).value;
                 && !IsTerminal(current.status)
                 && current.status != target
                 && current.version == request.expectedVersion
                 && o.store == store[request.subjectId := WithStatus(current, target, env.now)]
    ensures o.events != [] ==> o.store != store
  {
    match ValidateSubjectStatus(request.newStatus)
    case Err(e) => Fail(store, Rejected(e))
    case Ok(target) =>
      match RetrieveSubject(store, request.subjectId, faults.retrieve)
      case Threw => Fail(store, Propagated(Storage))
      case Answered(None, _) => Fail(store, Rejected(RegistryError(SubjectNotFound, None)))
      case Answered(Some(current), _) =>
        match EnsureSubjectNotInTerminalState(current)
        case Some(e) => Fail(store, Rejected(e))
        case None =>
          if !IsValidTransition(current.status, target) then
            Fail(store, Rejected(RegistryError(InvalidStatusTransition, None)))
          else if current.status == target then
            var result: Result<SubjectRecord, Failure> := Ok(current);
            Outcome(result, store, [], TraceFor(result))
          else
            var updated := WithStatus(current, target, env.now);
            match UpdateSubject(store, request.subjectId, request.expectedVersion, updated, faults.write)
            case Threw => Fail(store, Propagated(Storage))
            case Answered(NotUpdated(_), after) =>
              Fail(after, Rejected(RegistryError(ConcurrentModificationConflict, None)))
            case Answered(Updated, after) =>
              var event := SubjectStatusChanged(env.eventId, updated.subjectId, env.eventTime,
                                                current.status, updated.status, request.reason, updated.updatedAt);
              Emit(after, event, updated, faults.emitRaises)
  }

  /**
   `updateSubjectAttributes`: validate the new map before anything else, read
   the subject, refuse a terminal subject, write the replaced map conditionally
   on the expected version, then emit `SubjectAttributesUpdated`.
   */
  function UpdateSubjectAttributes(store: Store, request: UpdateSubjectAttributesRequest, env: Env, faults: Faults): (o: Outcome<SubjectRecord>)
    ensures Coherent(o)
    ensures o.result.Err? && o.result.error.Rejected? ==> o.store == store
    ensures o.store != store ==>
              && AttributesValid(request.attributes)
              && request.subjectId in store
              && var current := store[request.subjectId];
                 && !IsTerminal(current.status)
                 && current.version == request.expectedVersion
                 && o.store == store[request.subjectId := WithAttributes(current, request.attributes, env.now)]
    ensures o.events != [] ==> o.store != store
  {
    if !AttributesValid(request.attributes) then Fail(store, Rejected(RegistryError(InvalidAttributes, None)))
    else
      match RetrieveSubject(store, request.subjectId, faults.retrieve)
      case Threw => Fail(store, Propagated(Storage))
      case Answered(None, _) => Fail(store, Rejected(RegistryError(SubjectNotFound, None)))
      case Answered(Some(current), _) =>
        match EnsureSubjectNotInTerminalState(current)
        case Some(e) => Fail(store, Rejected(e))
        case None =>
          var updated := WithAttributes(current, request.attributes, env.now);
          match UpdateSubject(store, request.subjectId, request.expectedVersion, updated, faults.write)
          case Threw => Fail(store, Propagated(Storage))
          case Answered(NotUpdated(_), after) =>
            Fail(after, Rejected(RegistryError(ConcurrentModificationConflict, None)))
          case Answered(Updated, after) =>
            var event := SubjectAttributesUpdated(env.eventId, updated.subjectId, env.eventTime,
                                                  updated.attributes, updated.updatedAt);
            Emit(after, event, updated, faults.emitRaises)
  }

  /** `getSubject`: the stored record, or SUBJECT_NOT_FOUND. */
  function GetSubject(store: Store, request: GetSubjectRequest, retrieve: CallBehaviour): (o: Outcome<SubjectRecord>)
    ensures Coherent(o)
    ensures o.store == store && o.events == []
    ensures o.result.Ok? <==> retrieve == Normal && request.subjectId in store
    ensures o.result.Ok? ==> o.result.value == store[request.subjectId]
    ensures o.result.Err? ==> o.result.error == (if retrieve == Raises then Propagated(Storage)
                                                 else Rejected(RegistryError(SubjectNotFound, None)))
  {
    match RetrieveSubject(store, request.subjectId, retrieve)
    case Threw => Fail(store, Propagated(Storage))
    case Answered(None, _) => Fail(store, Rejected(RegistryError(SubjectNotFound, None)))
    case Answered(Some(subject), _) =>
      var result: Result<SubjectRecord, Failure> := Ok(subject);
      Outcome(result, store, [], TraceFor(result))
  }
}
