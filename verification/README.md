# Subject registry organelle: a Dafny model

This project models the two self-contained parts of the subject registry
organelle.

1. **The subject lifecycle engine.** This covers:
   - the closed `SubjectType` and `SubjectStatus` enumerations, the
     `SubjectRecord` shape, the request shapes and the error codes;
   - the subject-entity rules: the prohibited-key and primitive-value attribute
     validator, the type and status validators, the terminal-state guard, the
     UUID v4 generator and the record factory;
   - the four registry operations `registerSubject`, `updateSubjectStatus`,
     `updateSubjectAttributes` and `getSubject`.

   Each operation is a pure function from the store, the request, the
   environment (clock readings, random source, event id) and the behaviour of
   the collaborators to an `Outcome`. The collaborators are storage, which may
   answer, refuse or throw, and the event emitter, which may throw. An
   `Outcome` is:
   - the result, or the error thrown;
   - the store afterwards;
   - the events emitted;
   - how the trace span was closed.

   Storage is a map from subject id to record, with a store-if-absent and a
   compare-and-set update on `version`. Every property below holds for any
   storage behaviour that the lemma's `requires` allows.
2. **The generic IDLE / PROCESSING / COMPLETED / ERROR / TERMINATED
   lifecycle.** This covers:
   - `BoundaryContextStateMachine`: a transition table, a current state, a
     history and `reset`;
   - the lifecycle entity: a guarded `setState` with an audit log, `execute`
     with its operation counters, and `processCommand`.

   `src/boundary-context-entity.ts` and `src/subject-registry-entity.ts` are
   the same class under two names, so `LifecycleEntity` models both. The
   subject-registry state machine's test mirrors the boundary one, so
   `LifecycleMachine` serves both too.

Modules, one per source file or concern:

| file | module | models |
|---|---|---|
| `wrappers.dfy` | `Wrappers` | `Option`, `Result` |
| `text.dfy` | `Text` | ASCII lower-casing, substring search, hex and decimal digits |
| `subject_types.dfy` | `SubjectTypes` | `src/types.ts` |
| `status_machine.dfy` | `StatusMachine` | `isValidTransition` and `isTerminalState` |
| `subject_entity.dfy` | `SubjectEntity` | `src/subject-entity.ts` |
| `storage.dfy` | `SubjectStorage` | the storage replies the registry consumes |
| `subject_registry.dfy` | `SubjectRegistry` | `src/subject-registry.ts` |
| `registry_properties.dfy` | `RegistryProperties` | lemmas about the registry operations |
| `lifecycle_machine.dfy` | `LifecycleMachine` | `src/state-machine.ts` |
| `lifecycle_entity.dfy` | `LifecycleEntity` | both lifecycle entity classes |

`isValidTransition` and `isTerminalState` come from a status state machine that
is not part of this model. `src/state-machine.ts` defines only the
BoundaryContext machine. `StatusMachine` therefore fixes the table itself:
- ACTIVE and SUSPENDED switch freely;
- either may end in ARCHIVED or DELETED;
- nothing leaves ARCHIVED or DELETED;
- a request for the current status counts as valid.

The last rule is the only one under which the registry's no-op branch
(`src/subject-registry.ts:152-160`) can be reached.

Where the documentation and the code disagree, the model follows the code:
- A status change to ARCHIVED or DELETED emits the ordinary
  `SubjectStatusChanged`. There is no `SubjectArchived` or `SubjectDeleted`
  event.
- The prohibited-key list is the 15 credential patterns as written. It has no
  role or tenancy terms, although `src/types.ts:52-53` says such data is
  disallowed.
- An unknown status is reported as INVALID_STATUS_TRANSITION. The enumeration
  has no invalid-status code.
- STORAGE_UNAVAILABLE is reported at `src/subject-registry.ts:105` but is
  missing from the enumeration (`src/types.ts:138-155`). The model's
  `ErrorCode` adds it.
- A second request for the status a subject already has succeeds as a no-op,
  whatever `expected_version` it carries. It is not a conflict.

## Model

| member | source | states |
|---|---|---|
| `SubjectTypes.ParseType` | src/types.ts:22-27 | a run-time string is accepted as a subject type exactly when it is the value of one of the four members, and then as that member |
| `SubjectTypes.ParseStatus` | src/types.ts:35-40 | a run-time string is accepted as a status exactly when it is one of the four status values, and then as that status |
| `SubjectTypes.EnumValuesAreNames` | src/subject-entity.ts:60 | `Object.values` of each enumeration holds exactly the run-time names of its members |
| `StatusMachine.TerminalIffNoSuccessor` | src/types.ts:29-40 | a status is terminal exactly when no valid transition leads anywhere else from it, in both directions |
| `StatusMachine.TerminalIsAbsorbing` | src/subject-entity.ts:132-136 | from a terminal status the only valid transition target is the status itself |
| `StatusMachine.LiveStatusMovesAnywhere` | src/subject-registry.ts:145 | a non-terminal status may move to every status, itself included |
| `StatusMachine.ActiveIsLive` | src/subject-entity.ts:193 | ACTIVE, the status every new record gets, is not terminal and may move to every status |
| `Text.Lower` | src/subject-entity.ts:103 | lower-casing keeps the length and maps each character through the ASCII lower-case mapping |
| `Text.Includes` | src/subject-entity.ts:105 | the substring scan answers true exactly when the pattern occurs at some position of the key |
| `Text.MatchesAt` | src/subject-entity.ts:105 | the character-by-character comparison answers true exactly when the pattern occurs at the given position |
| `Text.HexValueRoundTrip` | src/subject-entity.ts:163 | reading a lower-case hex digit and writing it back with `toString(16)` gives the same character |
| `Text.DecimalRoundTrip` | src/boundary-context-entity.ts:55 | the decimal text of an audit number reads back as that number |
| `Text.DecimalInjective` | src/boundary-context-entity.ts:55 | two numbers with the same decimal text are equal |
| `SubjectEntity.PatternMatchesIsContains` | src/subject-entity.ts:105 | the equality test before `includes` adds nothing: a pattern matches exactly when it occurs in the key |
| `SubjectEntity.MatchPatterns` | src/subject-entity.ts:104-111 | the loop over the patterns answers true exactly when some pattern matches the lower-cased key |
| `SubjectEntity.CheckKey` | src/subject-entity.ts:101-111 | a key is rejected exactly when its lower-cased form contains one of the fifteen prohibited patterns |
| `SubjectEntity.IsPrimitive` | src/subject-entity.ts:113-128 | every value that passes the `typeof` check is neither `null` nor `undefined`, so the explicit null check that follows can never fire |
| `SubjectEntity.CheckEntry` | src/subject-entity.ts:101-128 | one entry passes exactly when its key is not prohibited and its value is a string, number or boolean |
| `SubjectEntity.ValidateSubjectAttributes` | src/subject-entity.ts:96-130 | the validator passes exactly when the map is absent or every entry is valid; any failure is INVALID_ATTRIBUTES |
| `SubjectEntity.ValidateSubjectType` | src/subject-entity.ts:52-67 | a type passes exactly when it is one of the four type values; `null`, `undefined` and anything else fail with INVALID_SUBJECT_TYPE |
| `SubjectEntity.ValidateSubjectStatus` | src/subject-entity.ts:75-83 | a status passes exactly when it is one of the four status values; anything else fails with INVALID_STATUS_TRANSITION |
| `SubjectEntity.EnsureSubjectNotInTerminalState` | src/subject-entity.ts:141-149 | the guard passes exactly for ACTIVE and SUSPENDED subjects and otherwise fails with TERMINAL_STATE_MUTATION tagged with the subject's id |
| `SubjectEntity.FillChar` | src/subject-entity.ts:160-164 | each filled-in template character is a legal filling: a hex digit for `x`, one of 8, 9, a, b for `y`, the character itself otherwise |
| `SubjectEntity.Fill` | src/subject-entity.ts:160-164 | the template replace always produces a legal filling of the template, position by position |
| `SubjectEntity.FitsTemplateIffUuid` | src/subject-entity.ts:160 | the legal fillings of the template are exactly the 36-character strings with hyphens at 8, 13, 18 and 23, '4' at 14, a variant digit at 19 and lower-case hex elsewhere |
| `SubjectEntity.GenerateSubjectId` | src/subject-entity.ts:159-165 | whatever the random draws, the generated id has the UUID v4 shape |
| `SubjectEntity.FillUnfill` | src/subject-entity.ts:160-164 | filling the template from the digits read back out of a legal filling reproduces that filling |
| `SubjectEntity.SourceFor` | src/subject-entity.ts:160-164 | every legal filling of a template is produced by some random source |
| `SubjectEntity.EveryUuidIsGenerated` | src/subject-entity.ts:159-165 | every string of UUID v4 shape is produced by the generator for some random source, so the generator's range is the whole shape |
| `SubjectEntity.CreateSubjectRecord` | src/subject-entity.ts:181-199 | the type is checked before the attributes; a new record is ACTIVE at version 1, created and updated at `now`, with the input attributes (or `{}`), a UUID v4 id and the validated type |
| `SubjectEntity.NewRecordIsLive` | src/subject-entity.ts:190-198 | every record the factory creates starts in a non-terminal status from which every status is one valid transition away |
| `SubjectStorage.StoreSubject` | src/subject-registry.ts:62-63 | a store call succeeds, adding the record under its id, exactly when storage answers normally and the id is free; a refusal writes nothing |
| `SubjectStorage.RetrieveSubject` | src/subject-registry.ts:131-132 | a read never writes and returns the stored record exactly when storage answers normally and the id is stored |
| `SubjectStorage.UpdateSubject` | src/subject-registry.ts:170-176 | a conditional update replaces the record exactly when storage answers normally, the id is stored and its version equals the expected version; otherwise nothing is written |
| `SubjectStorage.StoreKeepsValid` | src/subject-registry.ts:62 | storing a well-formed record keeps every stored record under its own id and well formed |
| `SubjectStorage.UpdateKeepsValid` | src/subject-registry.ts:170-174 | replacing a record by a well-formed one with the same id keeps the store valid |
| `SubjectStorage.StoreThenRetrieve` | src/subject-registry.ts:62-63 | a record stored under a free id is read back unchanged |
| `SubjectStorage.StaleExpectedVersionRefused` | src/types.ts:88-89 | after one successful version-bumping update, a second update with the same expected version is refused with a version mismatch |
| `SubjectRegistry.TraceFor` | src/subject-registry.ts:101-109 | the span closes with success exactly when the call succeeds, with the registry error's own code, or with STORAGE_UNAVAILABLE for any other exception |
| `SubjectRegistry.WithStatus` | src/subject-registry.ts:163-168 | the record a status change writes differs from the current one only in status, `updated_at` (now) and version (one more) |
| `SubjectRegistry.WithAttributes` | src/subject-registry.ts:261-266 | the record an attribute update writes has the new map in place of the old one, `updated_at` now and version one more, and nothing else changed |
| `SubjectRegistry.RegisterSubject` | src/subject-registry.ts:52-110 | registration closes its trace to match, emits at most one event and only on success, writes nothing when it refuses, and on success stores the returned record under an id that was not in the store before |
| `SubjectRegistry.StoreCreated` | src/subject-registry.ts:61-100 | the store-then-emit half of registration only ever writes the factory's record under a free id, and only when the factory succeeded |
| `SubjectRegistry.UpdateSubjectStatus` | src/subject-registry.ts:118-227 | a status update writes only when the status is valid, the subject is stored and live, the status really changes and the expected version matches, and then writes exactly the status-changed record; events only follow a write; refusals write nothing |
| `SubjectRegistry.UpdateSubjectAttributes` | src/subject-registry.ts:235-317 | an attribute update writes only when the map is valid, the subject is stored and live and the expected version matches, and then writes exactly the replaced-map record; events only follow a write |
| `SubjectRegistry.GetSubject` | src/subject-registry.ts:325-351 | a lookup never writes or emits; it returns the stored record exactly when storage answers and the id is stored, and otherwise SUBJECT_NOT_FOUND or the storage exception |
| `RegistryProperties.StatusValidatedFirst` | src/subject-registry.ts:127-128 | an unknown status is refused with INVALID_STATUS_TRANSITION before storage is consulted, whatever the store and the collaborators |
| `RegistryProperties.StatusOfUnknownSubject` | src/subject-registry.ts:130-137 | a valid status for an id storage does not return fails with SUBJECT_NOT_FOUND and changes nothing |
| `RegistryProperties.TerminalSubjectStatusLocked` | src/subject-registry.ts:141-142 | every status update of a terminal subject, a same-status one included, fails with TERMINAL_STATE_MUTATION whatever the expected version |
| `RegistryProperties.TransitionGuardUnreachable` | src/subject-registry.ts:144-150 | a status update ends in INVALID_STATUS_TRANSITION exactly when the requested status is invalid: the transition guard after the terminal check never fires |
| `RegistryProperties.SameStatusIsNoOp` | src/subject-registry.ts:152-160 | requesting the current status of a live subject returns the stored record with no write and no event, whatever the expected version |
| `RegistryProperties.StaleStatusChangeConflicts` | src/subject-registry.ts:170-181 | a real status change that storage refuses or that carries a stale expected version fails with CONCURRENT_MODIFICATION_CONFLICT, writes nothing and emits nothing |
| `RegistryProperties.StatusChangeSucceeds` | src/subject-registry.ts:162-217 | a successful change writes and returns the record with only status, `updated_at` and version changed, and emits one `SubjectStatusChanged` with the old status, the new one and the reason |
| `RegistryProperties.StatusEmitFailureKeepsWrite` | src/subject-registry.ts:197-225 | if the emitter throws after the write, the exception propagates and is traced as STORAGE_UNAVAILABLE, but the write stays |
| `RegistryProperties.StatusUpdateFrame` | src/types.ts:73-85 | a successful status update never changes the id, type, creation time or attributes, and either is a no-op or bumps the version by exactly one with the write stored and one event |
| `RegistryProperties.AttributesValidatedFirst` | src/subject-registry.ts:243-244 | invalid attributes are refused with INVALID_ATTRIBUTES before storage is read, even for an unknown id |
| `RegistryProperties.AttributesOfUnknownSubject` | src/subject-registry.ts:246-253 | valid attributes for an id storage does not return fail with SUBJECT_NOT_FOUND |
| `RegistryProperties.TerminalSubjectAttributesLocked` | src/subject-registry.ts:257-258 | every attribute update of a terminal subject fails with TERMINAL_STATE_MUTATION, whatever the expected version |
| `RegistryProperties.StaleAttributesUpdateConflicts` | src/subject-registry.ts:268-279 | an attribute update that storage refuses or that carries a stale expected version is a conflict that writes and emits nothing |
| `RegistryProperties.AttributesReplaced` | src/subject-registry.ts:260-293 | a successful attribute update replaces the whole map (no merge), bumps the version even for an identical map, and emits one `SubjectAttributesUpdated` |
| `RegistryProperties.RegisterFactoryFirst` | src/subject-registry.ts:57-59 | a factory error is thrown before any storage call, with nothing written and no event |
| `RegistryProperties.RegisterRefusedIsCollision` | src/subject-registry.ts:62-68 | any refusal to store, a taken id included, fails with SUBJECT_ID_COLLISION and no event |
| `RegistryProperties.RegisterWritesFactoryRecord` | src/subject-registry.ts:57-62 | the only write registration makes is the factory's record under its fresh id |
| `RegistryProperties.RegisterThenGet` | src/subject-registry.ts:57-100 | a registration with working collaborators returns the stored record, emits one `SubjectCreated` with its contents, and `getSubject` then finds the record unchanged |
| `RegistryProperties.RegisteredSubjectIsLive` | src/subject-entity.ts:190-198 | a freshly registered subject is stored ACTIVE at version 1 under its own id |
| `RegistryProperties.StoreCreatedKeepsStoreValid` | src/subject-registry.ts:61-68 | storing a well-formed factory record keeps every stored record under its own id and well formed |
| `RegistryProperties.RegisterKeepsStoreValid` | src/subject-registry.ts:52-110 | registration keeps the store valid under any collaborator behaviour |
| `RegistryProperties.StatusUpdateKeepsStoreValid` | src/subject-registry.ts:118-227 | a status update keeps the store valid under any collaborator behaviour |
| `RegistryProperties.AttributesUpdateKeepsStoreValid` | src/subject-registry.ts:235-317 | an attribute update keeps the store valid under any collaborator behaviour |
| `RegistryProperties.RegisterErrorCodes` | src/subject-registry.ts:101-109 | registration fails only with INVALID_SUBJECT_TYPE, INVALID_ATTRIBUTES or SUBJECT_ID_COLLISION, and traces STORAGE_UNAVAILABLE exactly for a collaborator's exception |
| `RegistryProperties.StoreCreatedErrorCodes` | src/subject-registry.ts:62-68 | the store-then-emit half adds only SUBJECT_ID_COLLISION to the factory's codes |
| `RegistryProperties.StatusUpdateErrorCodes` | src/subject-registry.ts:218-225 | a status update fails only with INVALID_STATUS_TRANSITION, SUBJECT_NOT_FOUND, TERMINAL_STATE_MUTATION or CONCURRENT_MODIFICATION_CONFLICT, and traces STORAGE_UNAVAILABLE exactly for a collaborator's exception |
| `RegistryProperties.AttributesUpdateErrorCodes` | src/subject-registry.ts:308-315 | an attribute update fails only with INVALID_ATTRIBUTES, SUBJECT_NOT_FOUND, TERMINAL_STATE_MUTATION or CONCURRENT_MODIFICATION_CONFLICT |
| `RegistryProperties.SecondStatusChangeOnSameVersionConflicts` | src/types.ts:111-112 | of two status changes issued against the same version, a second change to a different status, after a first change to a live status has written, is a conflict |
| `RegistryProperties.SecondAttributesUpdateOnSameVersionConflicts` | src/types.ts:122-123 | of two attribute updates issued against the same version, the second one after the first has written is a conflict |
| `RegistryProperties.StatusRequest` | src/types.ts:106-113 | a status request built from a status value passes status validation as that status |
| `RegistryProperties.SuspendArchiveReactivate` | src/subject-registry.ts:141-197 | suspending then archiving an ACTIVE subject succeeds one version apart with one event each, and reactivating it afterwards fails with TERMINAL_STATE_MUTATION and changes nothing |
| `LifecycleMachine.AllowedSteps` | src/state-machine.ts:22-29 | the table allows exactly six steps: IDLE to PROCESSING or TERMINATED, PROCESSING to COMPLETED or ERROR, COMPLETED and ERROR to IDLE |
| `LifecycleMachine.NewMachine` | src/state-machine.ts:19-21 | a new machine is in the given initial state with an empty history, which is a valid history |
| `LifecycleMachine.CanTransition` | src/state-machine.ts:36-40 | the scan of the table answers true exactly when the step from the current state is allowed |
| `LifecycleMachine.Transition` | src/state-machine.ts:42-48 | an allowed step moves the machine and appends exactly that step to the history; any other step throws and leaves the machine as it was |
| `LifecycleMachine.Reset` | src/state-machine.ts:54-58 | reset moves COMPLETED or ERROR to IDLE, logging one step, and does nothing in any other state |
| `LifecycleMachine.Apply` | src/state-machine.ts:42-58 | one operation throws exactly when it is a `transition` outside the table, with that step in the error; otherwise the machine either is unchanged or has taken one allowed step, logged as the history's new last entry |
| `LifecycleMachine.TransitionKeepsHistory` | src/state-machine.ts:46-47 | a successful transition keeps the history a chain of table rows ending in the current state |
| `LifecycleMachine.ApplyKeepsHistory` | src/state-machine.ts:42-58 | one operation keeps the history a chain and only appends to it |
| `LifecycleMachine.RunKeepsHistory` | tests/boundary-context-state-machine.test.ts:49-56 | however the machine is driven, the history only grows at its end and stays a chain ending in the current state |
| `LifecycleMachine.TerminatedIsAbsorbing` | tests/boundary-context-state-machine.test.ts:63-66 | in TERMINATED every transition throws and reset does nothing |
| `LifecycleMachine.TerminatedRunIsInert` | tests/boundary-context-state-machine.test.ts:58-66 | any sequence of operations on a terminated machine throws or leaves it exactly as it was |
| `LifecycleEntity.NewEntity` | src/boundary-context-entity.ts:28-39 | a new entity is IDLE with all counters zero and an empty audit log, and is consistent |
| `LifecycleEntity.ValidTargetsMatchMachine` | src/boundary-context-entity.ts:65-78 | the entity's own transition record allows exactly the steps of the state machine's table |
| `LifecycleEntity.AuditId` | src/boundary-context-entity.ts:55 | every audit id is "audit-" followed by decimal digits that read back as the entry's number |
| `LifecycleEntity.AuditIdsDistinct` | src/boundary-context-entity.ts:55 | audit ids of different numbers differ |
| `LifecycleEntity.SetState` | src/boundary-context-entity.ts:49-63 | `setState` succeeds exactly for a target in the transition record; then it changes the state and appends one entry "audit-n" (n the new log length) with the states before and after; otherwise it throws and changes nothing |
| `LifecycleEntity.SetStateRefusals` | tests/boundary-context-entity.test.ts:50-63 | a same-state request throws, and so does every request out of TERMINATED |
| `LifecycleEntity.Advance` | src/subject-registry-entity.ts:52-62 | an accepted `setState` lands in the target state and grows the log by exactly one entry |
| `LifecycleEntity.ProcessCommand` | src/boundary-context-entity.ts:127-141 | the four known command types succeed and any other throws "Unknown command type: ..."; DELETE reports the payload's id |
| `LifecycleEntity.Execute` | src/boundary-context-entity.ts:80-125 | `execute` throws outside IDLE; from IDLE it ends in IDLE, counts one operation and exactly one success or error, succeeds exactly for a known command type, fails with EXECUTION_FAILED otherwise, and returns the command's correlation id |
| `LifecycleEntity.ExecuteAppendsThreeEntries` | src/boundary-context-entity.ts:86-116 | `execute` from IDLE appends exactly IDLE to PROCESSING, PROCESSING to COMPLETED or ERROR, and back to IDLE |
| `LifecycleEntity.SetStateKeepsConsistent` | src/subject-registry-entity.ts:49-63 | `setState` keeps the audit log numbered, made of allowed steps, a chain, and ending in the current state |
| `LifecycleEntity.AuditTrailGrows` | src/boundary-context-entity.ts:54-62 | appending the entry for an allowed step keeps the audit trail well formed and ending in the new state |
| `LifecycleEntity.ExecutionTrailKeepsAudit` | src/boundary-context-entity.ts:86-116 | the three entries of one execution keep a well-formed audit trail ending in IDLE |
| `LifecycleEntity.ExecuteKeepsConsistent` | src/boundary-context-entity.ts:87-106 | `execute` preserves successes plus errors equal to operations, along with the audit-trail invariant |
| `LifecycleEntity.ExecuteAllFromIdle` | tests/boundary-context-entity.test.ts:103-125 | from IDLE any sequence of commands runs to completion, counting one operation and three audit entries per command, and ends IDLE and consistent |
| `LifecycleEntity.GetMetrics` | src/boundary-context-entity.ts:143-151 | the reported total is the operation count, and on a consistent entity successes plus errors equal it |
| `LifecycleEntity.ToSnapshot` | src/boundary-context-entity.ts:157-169 | the snapshot reports the entity's id, state and log size; on a consistent entity the counters balance and the last audit entry is numbered by the log size and ends in the reported state |
| `LifecycleEntity.ExecuteAllMetrics` | src/boundary-context-entity.ts:80-151 | after a run of commands from IDLE the metrics count each command once, as a success exactly when its type is known and as an error otherwise, and the log grows by three entries per command |

## Left out

- Observability (`startTrace`, `log`, `recordMetric`) is left out; only how the
  span is closed is kept, as the outcome's trace.
- The event bus (`src/event-interface.ts`) is left out; emitted events are an
  output sequence, and `emit` is modelled only as succeeding or throwing.
- The in-memory storage of `src/storage-interface.ts` is not part of this
  model; storage is an abstract map whose calls may answer, refuse or throw.
- The boundary orchestrators, `src/index.ts` and `jest.config.js` are not part
  of this model: they are wiring, re-exports and test configuration.
- Clocks and randomness are inputs: `new Date()` and `Date.now()` become
  timestamps in `Env` or parameters, and `Math.random` becomes the `Draws` source
  of UUID digits. The `evt_...` event id format is an input string and is not
  modelled.
- Durations, `totalDuration`, `averageDuration` (floating point), the
  `lastOperationAt`, `createdAt` and `updatedAt` timestamps, and the audit
  entries' `timestamp` and `correlationId` are left out. `getMetrics` and
  `toSnapshot` are modelled as read-outs of the modelled fields; the frozen
  `config` is kept only through the `id` taken from it.
- `getHistory` returns a copy of the history, which the model exposes as the
  machine's `history` field; the history entries' timestamps are left out.
- Text.Lower: lower-cases ASCII letters only; the Unicode case mappings of
  `toLowerCase` are not modelled, so a key whose non-ASCII characters lower-case
  onto a pattern is not covered.
- JavaScript numbers are modelled as unbounded integers; attribute values only
  matter through `typeof`, and versions never approach 2^53 in practice.
- Concurrency is modelled sequentially: interleavings and the atomicity of the
  storage compare-and-set are left out.
- `requesting_context` and `idempotency_key` are not carried in the requests:
  the code never consults them.
- LifecycleEntity.ProcessCommand: the output is a tagged record that keeps the
  payload beside the fixed fields; the key-merge of the object spread (a payload
  key `created` or `id` overriding the fixed field) is not modelled. The payload
  value type is a parameter.
- The update-attributes request's `attributes` field is required by its type
  and is modelled as a map, not an optional one. At run time the code accepts
  `null` or `undefined` there too: the validator returns early for them
  (`src/subject-entity.ts:97-98`) and the update has no default, so the code
  would store and announce a record whose attribute map is null, breaking the
  record invariant. The model does not cover that call.
- RegistryProperties.AttributesUpdateKeepsStoreValid: holds only for requests
  that carry a map; an update with a null map, which the code accepts, would
  leave an invalid record in the store.
- Records and attribute maps are values in the model, so aliasing is not
  modelled. The factory stores a copy of the caller's map
  (`src/subject-entity.ts:194`), while `updateSubjectAttributes` stores and
  returns the caller's own object (`src/subject-registry.ts:263`). With a
  storage that keeps references, a caller that changes that object after a
  successful update would change the stored map without validation. Neither
  the copy nor its absence is modelled; SubjectEntity.CreateSubjectRecord
  models only the `= {}` default.
- Error messages and the `details` field of `SubjectRegistryError` are not
  modelled: a registry failure carries only its code and, where the thrower
  supplies it, the subject id, and failures are compared by those alone.
- A storage call that throws writes nothing; what a real storage does before
  throwing is unknown.
