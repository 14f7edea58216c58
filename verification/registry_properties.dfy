/**
 Properties of the registry operations: the order in which their guards fire,
 the no-op and terminal-state rules, optimistic concurrency on the version,
 "events only after a successful write", the store invariant every operation
 keeps, and an end-to-end lifecycle.
 */
module RegistryProperties {
  import opened Wrappers
  import opened SubjectTypes
  import opened StatusMachine
  import opened SubjectEntity
  import opened SubjectStorage
  import opened SubjectRegistry

  /** The record the status update would write when every guard passes. */
  function StatusTarget(request: UpdateSubjectStatusRequest): SubjectStatus
    requires ValidateSubjectStatus(request.newStatus).Ok?
  {
    ValidateSubjectStatus(request.newStatus).value
  }

  // ---------------------------------------------------------------------------
  // updateSubjectStatus: guard order
  // ---------------------------------------------------------------------------

  /** An unknown status is refused first, whatever the store and the collaborators. */
  lemma StatusValidatedFirst(store: Store, request: UpdateSubjectStatusRequest, env: Env, faults: Faults)
    requires ValidateSubjectStatus(request.newStatus).Err?
    ensures UpdateSubjectStatus(store, request, env, faults)
            == Fail(store, Rejected(RegistryError(InvalidStatusTransition, None)))
  {
  }

  /** A valid status for an id the storage does not return fails with SUBJECT_NOT_FOUND. */
  lemma StatusOfUnknownSubject(store: Store, request: UpdateSubjectStatusRequest, env: Env, faults: Faults)
    requires ValidateSubjectStatus(request.newStatus).Ok?
    requires faults.retrieve == Refuses || (faults.retrieve == Normal && request.subjectId !in store)
    ensures UpdateSubjectStatus(store, request, env, faults)
            == Fail(store, Rejected(RegistryError(SubjectNotFound, None)))
  {
  }

  /**
   A terminal subject refuses every status update with TERMINAL_STATE_MUTATION,
   a same-status request included, whatever the expected version and however
   the write and the emitter would behave.
   */
  lemma TerminalSubjectStatusLocked(store: Store, request: UpdateSubjectStatusRequest, env: Env, faults: Faults)
    requires ValidateSubjectStatus(request.newStatus).Ok?
    requires faults.retrieve == Normal && request.subjectId in store
    requires IsTerminal(store[request.subjectId].status)
    ensures UpdateSubjectStatus(store, request, env, faults)
            == Fail(store, Rejected(RegistryError(TerminalStateMutation, Some(store[request.subjectId].subjectId))))
  {
  }

  /**
   With the transition table, the INVALID_STATUS_TRANSITION guard that follows
   the terminal check can never fire: that code only ever comes from status
   validation.
   */
  lemma TransitionGuardUnreachable(store: Store, request: UpdateSubjectStatusRequest, env: Env, faults: Faults)
    ensures UpdateSubjectStatus(store, request, env, faults).result == Err(Rejected(RegistryError(InvalidStatusTransition, None)))
            <==> ValidateSubjectStatus(request.newStatus).Err?
  {
    if ValidateSubjectStatus(request.newStatus).Ok? && faults.retrieve == Normal && request.subjectId in store {
      var current := store[request.subjectId];
      if !IsTerminal(current.status) {
        LiveStatusMovesAnywhere(current.status, StatusTarget(request));
      }
    }
  }

  /**
   Asking for the status a live subject already has returns the stored record
   unchanged, with no write and no event, whatever the expected version.
   */
  lemma SameStatusIsNoOp(store: Store, request: UpdateSubjectStatusRequest, env: Env, faults: Faults)
    requires ValidateSubjectStatus(request.newStatus).Ok?
    requires faults.retrieve == Normal && request.subjectId in store
    requires !IsTerminal(store[request.subjectId].status)
    requires store[request.subjectId].status == StatusTarget(request)
    ensures UpdateSubjectStatus(store, request, env, faults)
            == Outcome(Ok(store[request.subjectId]), store, [], TraceSucceeded)
  {
  }

  /** A real change against a stale expected version is a conflict: nothing written, nothing emitted. */
  lemma StaleStatusChangeConflicts(store: Store, request: UpdateSubjectStatusRequest, env: Env, faults: Faults)
    requires ValidateSubjectStatus(request.newStatus).Ok?
    requires faults.retrieve == Normal && request.subjectId in store
    requires !IsTerminal(store[request.subjectId].status)
    requires store[request.subjectId].status != StatusTarget(request)
    requires faults.write == Refuses || (faults.write == Normal && store[request.subjectId].version != request.expectedVersion)
    ensures UpdateSubjectStatus(store, request, env, faults)
            == Fail(store, Rejected(RegistryError(ConcurrentModificationConflict, None)))
  {
  }

  /**
   A successful status change writes the stored record with only the status,
   `updated_at` and version changed, returns it, and emits exactly one
   `SubjectStatusChanged` carrying the old status, the new one and the reason.
   */
  lemma StatusChangeSucceeds(store: Store, request: UpdateSubjectStatusRequest, env: Env, faults: Faults)
    requires ValidateSubjectStatus(request.newStatus).Ok?
    requires faults.retrieve == Normal && faults.write == Normal && !faults.emitRaises
    requires request.subjectId in store
    requires !IsTerminal(store[request.subjectId].status)
    requires store[request.subjectId].status != StatusTarget(request)
    requires store[request.subjectId].version == request.expectedVersion
    ensures var current := store[request.subjectId];
            var updated := current.(status := StatusTarget(request), updatedAt := env.now, version := current.version + 1);
            UpdateSubjectStatus(store, request, env, faults)
            == Outcome(Ok(updated), store[request.subjectId := updated],
                       [SubjectStatusChanged(env.eventId, current.subjectId, env.eventTime,
                                             current.status, StatusTarget(request), request.reason, env.now)],
                       TraceSucceeded)
  {
  }

  /**
   If the emitter throws after the write, the error propagates (reported as
   STORAGE_UNAVAILABLE) but the write stays: there is no rollback.
   */
  lemma StatusEmitFailureKeepsWrite(store: Store, request: UpdateSubjectStatusRequest, env: Env, faults: Faults)
    requires ValidateSubjectStatus(request.newStatus).Ok?
    requires faults.retrieve == Normal && faults.write == Normal && faults.emitRaises
    requires request.subjectId in store
    requires !IsTerminal(store[request.subjectId].status)
    requires store[request.subjectId].status != StatusTarget(request)
    requires store[request.subjectId].version == request.expectedVersion
    ensures var o := UpdateSubjectStatus(store, request, env, faults);
            && o.result == Err(Propagated(EventEmitter))
            && o.trace == TraceFailed(StorageUnavailable)
            && o.events == []
            && o.store == store[request.subjectId := WithStatus(store[request.subjectId], StatusTarget(request), env.now)]
  {
  }

  /**
   Whatever happens, a successful status update returns the stored record with
   its id, type, creation time and attributes intact, either unchanged (no-op)
   or one version later with the write in the store.
   */
  lemma StatusUpdateFrame(store: Store, request: UpdateSubjectStatusRequest, env: Env, faults: Faults)
    requires UpdateSubjectStatus(store, request, env, faults).result.Ok?
    ensures request.subjectId in store
    ensures var o := UpdateSubjectStatus(store, request, env, faults);
            var current := store[request.subjectId];
            var r := o.result.value;
            && r.subjectId == current.subjectId && r.subjectType == current.subjectType
            && r.createdAt == current.createdAt && r.attributes == current.attributes
            && ((r == current && o.store == store && o.events == [])
                || (r.version == current.version + 1 && r.updatedAt == env.now
                    && o.store == store[request.subjectId := r] && |o.events| == 1))
  {
  }

  // ---------------------------------------------------------------------------
  // updateSubjectAttributes
  // ---------------------------------------------------------------------------

  /** Bad attributes are refused before storage is read, so even for an unknown id. */
  lemma AttributesValidatedFirst(store: Store, request: UpdateSubjectAttributesRequest, env: Env, faults: Faults)
    requires !AttributesValid(request.attributes)
    ensures UpdateSubjectAttributes(store, request, env, faults)
            == Fail(store, Rejected(RegistryError(InvalidAttributes, None)))
  {
  }

  /** Valid attributes for an id the storage does not return fail with SUBJECT_NOT_FOUND. */
  lemma AttributesOfUnknownSubject(store: Store, request: UpdateSubjectAttributesRequest, env: Env, faults: Faults)
    requires AttributesValid(request.attributes)
    requires faults.retrieve == Refuses || (faults.retrieve == Normal && request.subjectId !in store)
    ensures UpdateSubjectAttributes(store, request, env, faults)
            == Fail(store, Rejected(RegistryError(SubjectNotFound, None)))
  {
  }

  /** A terminal subject refuses every attribute update, whatever the expected version. */
  lemma TerminalSubjectAttributesLocked(store: Store, request: UpdateSubjectAttributesRequest, env: Env, faults: Faults)
    requires AttributesValid(request.attributes)
    requires faults.retrieve == Normal && request.subjectId in store
    requires IsTerminal(store[request.subjectId].status)
    ensures UpdateSubjectAttributes(store, request, env, faults)
            == Fail(store, Rejected(RegistryError(TerminalStateMutation, Some(store[request.subjectId].subjectId))))
  {
  }

  /** An attribute update against a stale expected version is a conflict: nothing written, nothing emitted. */
  lemma StaleAttributesUpdateConflicts(store: Store, request: UpdateSubjectAttributesRequest, env: Env, faults: Faults)
    requires AttributesValid(request.attributes)
    requires faults.retrieve == Normal && request.subjectId in store
    requires !IsTerminal(store[request.subjectId].status)
    requires faults.write == Refuses || (faults.write == Normal && store[request.subjectId].version != request.expectedVersion)
    ensures UpdateSubjectAttributes(store, request, env, faults)
            == Fail(store, Rejected(RegistryError(ConcurrentModificationConflict, None)))
  {
  }

  /**
   A successful attribute update replaces the whole map (no merge), bumps the
   version even when the map is unchanged, and emits one `SubjectAttributesUpdated`.
   */
  lemma AttributesReplaced(store: Store, request: UpdateSubjectAttributesRequest, env: Env, faults: Faults)
    requires AttributesValid(request.attributes)
    requires faults.retrieve == Normal && faults.write == Normal && !faults.emitRaises
    requires request.subjectId in store
    requires !IsTerminal(store[request.subjectId].status)
    requires store[request.subjectId].version == request.expectedVersion
    ensures var current := store[request.subjectId];
            var updated := current.(attributes := request.attributes, updatedAt := env.now, version := current.version + 1);
            UpdateSubjectAttributes(store, request, env, faults)
            == Outcome(Ok(updated), store[request.subjectId := updated],
                       [SubjectAttributesUpdated(env.eventId, current.subjectId, env.eventTime, request.attributes, env.now)],
                       TraceSucceeded)
  {
  }

  // ---------------------------------------------------------------------------
  // registerSubject
  // ---------------------------------------------------------------------------

  /** Factory errors come before any storage call. */
  lemma RegisterFactoryFirst(store: Store, request: RegisterSubjectRequest, env: Env, faults: Faults)
    requires CreateSubjectRecord(request.subjectType, request.attributes, env.now, env.draws).Err?
    ensures RegisterSubject(store, request, env, faults)
            == Fail(store, Rejected(CreateSubjectRecord(request.subjectType, request.attributes, env.now, env.draws).error))
  {
  }

  /** Any refusal to store, a taken id included, is a SUBJECT_ID_COLLISION with no event. */
  lemma RegisterRefusedIsCollision(store: Store, request: RegisterSubjectRequest, env: Env, faults: Faults)
    requires CreateSubjectRecord(request.subjectType, request.attributes, env.now, env.draws).Ok?
    requires faults.write == Refuses
             || (faults.write == Normal
                 && CreateSubjectRecord(request.subjectType, request.attributes, env.now, env.draws).value.subjectId in store)
    ensures RegisterSubject(store, request, env, faults)
            == Fail(store, Rejected(RegistryError(SubjectIdCollision, None)))
  {
  }

  /** The only write `registerSubject` makes is the factory's record under its fresh id. */
  lemma RegisterWritesFactoryRecord(store: Store, request: RegisterSubjectRequest, env: Env, faults: Faults)
    ensures var o := RegisterSubject(store, request, env, faults);
            o.store != store ==>
              && CreateSubjectRecord(request.subjectType, request.attributes, env.now, env.draws).Ok?
              && var subject := CreateSubjectRecord(request.subjectType, request.attributes, env.now, env.draws).value;
                 subject.subjectId !in store && o.store == store[subject.subjectId := subject]
  {
  }

  /**
   A registration that stores and emits returns the stored record, emits one
   `SubjectCreated` with its contents, and `getSubject` then finds it unchanged.
   */
  lemma RegisterThenGet(store: Store, request: RegisterSubjectRequest, env: Env)
    requires CreateSubjectRecord(request.subjectType, request.attributes, env.now, env.draws).Ok?
    requires CreateSubjectRecord(request.subjectType, request.attributes, env.now, env.draws).value.subjectId !in store
    ensures var subject := CreateSubjectRecord(request.subjectType, request.attributes, env.now, env.draws).value;
            var o := RegisterSubject(store, request, env, NoFaults);
            && o.result == Ok(subject)
            && o.events == [SubjectCreated(env.eventId, subject.subjectId, env.eventTime,
                                           subject.subjectType, Active, subject.attributes, env.now)]
            && GetSubject(o.store, GetSubjectRequest(subject.subjectId), Normal).result == Ok(subject)
  {
  }

  // ---------------------------------------------------------------------------
  // Invariants over every operation
  // ---------------------------------------------------------------------------

  /** Storing what the factory built keeps every record under its own id and well formed. */
  lemma StoreCreatedKeepsStoreValid(store: Store, created: Result<SubjectRecord, RegistryError>, env: Env, faults: Faults)
    requires ValidStore(store)
    requires created.Ok? ==> RecordInvariant(created.value)
    ensures ValidStore(StoreCreated(store, created, env, faults).store)
  {
    if created.Ok? {
      StoreKeepsValid(store, created.value, faults.write);
    }
  }

  /** Registration keeps every record under its own id and well formed. */
  lemma RegisterKeepsStoreValid(store: Store, request: RegisterSubjectRequest, env: Env, faults: Faults)
    requires ValidStore(store)
    ensures ValidStore(RegisterSubject(store, request, env, faults).store)
  {
    StoreCreatedKeepsStoreValid(store, CreateSubjectRecord(request.subjectType, request.attributes, env.now, env.draws), env, faults);
  }

  /** A status update keeps every record under its own id and well formed. */
  lemma StatusUpdateKeepsStoreValid(store: Store, request: UpdateSubjectStatusRequest, env: Env, faults: Faults)
    requires ValidStore(store)
    ensures ValidStore(UpdateSubjectStatus(store, request, env, faults).store)
  {
    if ValidateSubjectStatus(request.newStatus).Ok? && request.subjectId in store {
      var current := store[request.subjectId];
      UpdateKeepsValid(store, request.subjectId, request.expectedVersion,
                       WithStatus(current, StatusTarget(request), env.now), faults.write);
    }
  }

  /** An attribute update keeps every record under its own id and well formed. */
  lemma AttributesUpdateKeepsStoreValid(store: Store, request: UpdateSubjectAttributesRequest, env: Env, faults: Faults)
    requires ValidStore(store)
    ensures ValidStore(UpdateSubjectAttributes(store, request, env, faults).store)
  {
    if AttributesValid(request.attributes) && request.subjectId in store {
      var current := store[request.subjectId];
      UpdateKeepsValid(store, request.subjectId, request.expectedVersion,
                       WithAttributes(current, request.attributes, env.now), faults.write);
    }
  }

  /** The codes a registry error may carry, and the trace code a collaborator's exception gets. */
  predicate HonestCodes<T>(o: Outcome<T>, allowed: set<ErrorCode>) {
    && (o.result.Err? && o.result.error.Rejected? ==> o.result.error.error.code in allowed)
    && (o.trace == TraceFailed(StorageUnavailable) <==> o.result.Err? && o.result.error.Propagated?)
  }

  /**
   Registration fails only with the factory's codes or SUBJECT_ID_COLLISION; it
   never throws IMMUTABLE_FIELD_VIOLATION or STORAGE_UNAVAILABLE itself.
   */
  lemma RegisterErrorCodes(store: Store, request: RegisterSubjectRequest, env: Env, faults: Faults)
    ensures HonestCodes(RegisterSubject(store, request, env, faults), {InvalidSubjectType, InvalidAttributes, SubjectIdCollision})
  {
    var created := CreateSubjectRecord(request.subjectType, request.attributes, env.now, env.draws);
    StoreCreatedErrorCodes(store, created, env, faults);
  }

  lemma StoreCreatedErrorCodes(store: Store, created: Result<SubjectRecord, RegistryError>, env: Env, faults: Faults)
    requires created.Err? ==> created.error.code in {InvalidSubjectType, InvalidAttributes}
    ensures HonestCodes(StoreCreated(store, created, env, faults), {InvalidSubjectType, InvalidAttributes, SubjectIdCollision})
  {
  }

  /** The codes a status update can fail with; never IMMUTABLE_FIELD_VIOLATION, never STORAGE_UNAVAILABLE. */
  lemma StatusUpdateErrorCodes(store: Store, request: UpdateSubjectStatusRequest, env: Env, faults: Faults)
    ensures HonestCodes(UpdateSubjectStatus(store, request, env, faults),
                        {InvalidStatusTransition, SubjectNotFound, TerminalStateMutation, ConcurrentModificationConflict})
  {
  }

  /** The codes an attribute update can fail with; never IMMUTABLE_FIELD_VIOLATION, never STORAGE_UNAVAILABLE. */
  lemma AttributesUpdateErrorCodes(store: Store, request: UpdateSubjectAttributesRequest, env: Env, faults: Faults)
    ensures HonestCodes(UpdateSubjectAttributes(store, request, env, faults),
                        {InvalidAttributes, SubjectNotFound, TerminalStateMutation, ConcurrentModificationConflict})
  {
  }

  // ---------------------------------------------------------------------------
  // Optimistic concurrency, sequentially
  // ---------------------------------------------------------------------------

  /**
   Two status changes issued against the same version: once the first has
   written, the second (to yet another live status) is a conflict.
   */
  lemma SecondStatusChangeOnSameVersionConflicts(
    store: Store, first: UpdateSubjectStatusRequest, second: UpdateSubjectStatusRequest,
    env1: Env, env2: Env, faults2: Faults)
    requires UpdateSubjectStatus(store, first, env1, NoFaults).result.Ok?
    requires UpdateSubjectStatus(store, first, env1, NoFaults).store != store
    requires second.subjectId == first.subjectId && second.expectedVersion == first.expectedVersion
    requires ValidateSubjectStatus(second.newStatus).Ok?
    requires !IsTerminal(StatusTarget(first))
    requires StatusTarget(second) != StatusTarget(first)
    requires faults2.retrieve == Normal && faults2.write != Raises
    ensures var after := UpdateSubjectStatus(store, first, env1, NoFaults).store;
            UpdateSubjectStatus(after, second, env2, faults2)
            == Fail(after, Rejected(RegistryError(ConcurrentModificationConflict, None)))
  {
    var current := store[first.subjectId];
    var after := UpdateSubjectStatus(store, first, env1, NoFaults).store;
    assert after[first.subjectId] == WithStatus(current, StatusTarget(first), env1.now);
    StaleStatusChangeConflicts(after, second, env2, faults2);
  }

  /** Two attribute updates issued against the same version: once the first has written, the second conflicts. */
  lemma SecondAttributesUpdateOnSameVersionConflicts(
    store: Store, first: UpdateSubjectAttributesRequest, second: UpdateSubjectAttributesRequest,
    env1: Env, env2: Env, faults2: Faults)
    requires UpdateSubjectAttributes(store, first, env1, NoFaults).result.Ok?
    requires second.subjectId == first.subjectId && second.expectedVersion == first.expectedVersion
    requires AttributesValid(second.attributes)
    requires faults2.retrieve == Normal && faults2.write != Raises
    ensures var after := UpdateSubjectAttributes(store, first, env1, NoFaults).store;
            UpdateSubjectAttributes(after, second, env2, faults2)
            == Fail(after, Rejected(RegistryError(ConcurrentModificationConflict, None)))
  {
    var current := store[first.subjectId];
    var after := UpdateSubjectAttributes(store, first, env1, NoFaults).store;
    assert after[first.subjectId] == WithAttributes(current, first.attributes, env1.now);
    StaleAttributesUpdateConflicts(after, second, env2, faults2);
  }

  // ---------------------------------------------------------------------------
  // An end-to-end lifecycle
  // ---------------------------------------------------------------------------

  /** A status request for `status` against version `version`, with no reason. */
  function StatusRequest(id: string, status: SubjectStatus, version: int): (request: UpdateSubjectStatusRequest)
    ensures ValidateSubjectStatus(request.newStatus) == Ok(status)
  {
    UpdateSubjectStatusRequest(id, Some(StatusName(status)), None, version)
  }

  /**
   Suspend an ACTIVE subject, archive it, then try to reactivate it: the first
   two calls succeed one version apart with one event each (the change to
   ARCHIVED is an ordinary `SubjectStatusChanged`), and the reactivation fails
   with TERMINAL_STATE_MUTATION and changes nothing.
   */
  lemma SuspendArchiveReactivate(store: Store, id: string, env: Env)
    returns (suspended: Outcome<SubjectRecord>, archived: Outcome<SubjectRecord>, reactivated: Outcome<SubjectRecord>)
    requires id in store && store[id].subjectId == id && store[id].status == Active
    ensures suspended == UpdateSubjectStatus(store, StatusRequest(id, Suspended, store[id].version), env, NoFaults)
    ensures archived == UpdateSubjectStatus(suspended.store, StatusRequest(id, Archived, store[id].version + 1), env, NoFaults)
    ensures reactivated == UpdateSubjectStatus(archived.store, StatusRequest(id, Active, store[id].version + 2), env, NoFaults)
    ensures suspended.result == Ok(store[id].(status := Suspended, updatedAt := env.now, version := store[id].version + 1))
    ensures suspended.events == [SubjectStatusChanged(env.eventId, id, env.eventTime, Active, Suspended, None, env.now)]
    ensures archived.result == Ok(store[id].(status := Archived, updatedAt := env.now, version := store[id].version + 2))
    ensures archived.events == [SubjectStatusChanged(env.eventId, id, env.eventTime, Suspended, Archived, None, env.now)]
    ensures reactivated == Fail(archived.store, Rejected(RegistryError(TerminalStateMutation, Some(id))))
  {
    var v := store[id].version;
    var r2 := StatusRequest(id, Suspended, v);
    StatusChangeSucceeds(store, r2, env, NoFaults);
    suspended := UpdateSubjectStatus(store, r2, env, NoFaults);
    var r3 := StatusRequest(id, Archived, v + 1);
    StatusChangeSucceeds(suspended.store, r3, env, NoFaults);
    archived := UpdateSubjectStatus(suspended.store, r3, env, NoFaults);
    var r4 := StatusRequest(id, Active, v + 2);
    TerminalSubjectStatusLocked(archived.store, r4, env, NoFaults);
    reactivated := UpdateSubjectStatus(archived.store, r4, env, NoFaults);
  }

  /** A freshly registered subject is stored ACTIVE at version 1 under its own id. */
  lemma RegisteredSubjectIsLive(store: Store, request: RegisterSubjectRequest, env: Env)
    requires CreateSubjectRecord(request.subjectType, request.attributes, env.now, env.draws).Ok?
    requires CreateSubjectRecord(request.subjectType, request.attributes, env.now, env.draws).value.subjectId !in store
    ensures var id := CreateSubjectRecord(request.subjectType, request.attributes, env.now, env.draws).value.subjectId;
            var after := RegisterSubject(store, request, env, NoFaults).store;
            && id in after && after[id].subjectId == id && after[id].status == Active && after[id].version == 1
  {
    RegisterThenGet(store, request, env);
  }
}
