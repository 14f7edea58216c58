/**
 The subject storage the registry talks to. Only the shape of its replies is
 visible from the registry (`success`, `data`, `data.version_mismatch`), so it is
 modelled here as a map from subject id to record with a store-if-absent and a
 compare-and-set update on the version. How a call behaves on a given occasion
 (answers normally, answers with `success: false`, or throws) is an input, so
 every property of the registry holds for any storage outcome.
 */
module SubjectStorage {
  import opened Wrappers
  import opened SubjectTypes
  import opened SubjectEntity

  /** The stored subjects, keyed by subject id. */
  type Store = map<string, SubjectRecord>

  /** How one storage call behaves: as the map says, with `success: false`, or by throwing. */
  datatype CallBehaviour = Normal | Refuses | Raises

  /** A storage call either answers (with the store as it is afterwards) or throws, writing nothing. */
  datatype Call<+R> = Answered(reply: R, after: Store) | Threw

  /** The reply of `storeSubject`: `success` true or false. */
  datatype StoreReply = Stored | NotStored

  /** The reply of `updateSubject`: success, or failure with or without `version_mismatch`. */
  datatype UpdateReply = Updated | NotUpdated(versionMismatch: bool)

  /** What every store the registry builds satisfies: each record sits under its own id and is well formed. */
  predicate ValidStore(store: Store) {
    forall id :: id in store ==> store[id].subjectId == id && RecordInvariant(store[id])
  }

  /** `storeSubject`: stores the record under its id unless that id is taken. */
  function StoreSubject(store: Store, subject: SubjectRecord, behaviour: CallBehaviour): (c: Call<StoreReply>)
    ensures c.Threw? <==> behaviour == Raises
    ensures c == Answered(Stored, store[subject.subjectId := subject]) <==> behaviour == Normal && subject.subjectId !in store
    ensures c.Answered? && c.reply == NotStored ==> c.after == store
    ensures c.Answered? ==> c.after == store || c.reply == Stored
  {
    match behaviour
    case Raises => Threw
    case Refuses => Answered(NotStored, store)
    case Normal =>
      if subject.subjectId in store then Answered(NotStored, store)
      else Answered(Stored, store[subject.subjectId := subject])
  }

  /**
   `retrieveSubject`: a record only when the call succeeds and the id is stored;
   `None` stands for `success: false` or missing `data`. Never writes.
   */
  function RetrieveSubject(store: Store, id: string, behaviour: CallBehaviour): (c: Call<Option<SubjectRecord>>)
    ensures c.Threw? <==> behaviour == Raises
    ensures c.Answered? ==> c.after == store
    ensures c.Answered? && c.reply.Some? <==> behaviour == Normal && id in store
    ensures c.Answered? && c.reply.Some? ==> c.reply.value == store[id]
  {
    match behaviour
    case Raises => Threw
    case Refuses => Answered(None, store)
    case Normal => if id in store then Answered(Some(store[id]), store) else Answered(None, store)
  }

  /**
   `updateSubject`: replaces the record stored under `id` exactly when its
   version equals `expectedVersion`.
   */
  function UpdateSubject(store: Store, id: string, expectedVersion: int, record: SubjectRecord, behaviour: CallBehaviour): (c: Call<UpdateReply>)
    ensures c.Threw? <==> behaviour == Raises
    ensures c == Answered(Updated, store[id := record]) <==>
              behaviour == Normal && id in store && store[id].version == expectedVersion
    ensures c.Answered? && c.reply.NotUpdated? ==> c.after == store
    ensures c.Answered? ==> c.reply.NotUpdated? || c.reply == Updated
  {
    match behaviour
    case Raises => Threw
    case Refuses => Answered(NotUpdated(false), store)
    case Normal =>
      if id !in store then Answered(NotUpdated(false), store)
      else if store[id].version != expectedVersion then Answered(NotUpdated(true), store)
      else Answered(Updated, store[id := record])
  }

  /** Storing a well-formed record under its own id keeps the store valid. */
  lemma StoreKeepsValid(store: Store, subject: SubjectRecord, behaviour: CallBehaviour)
    requires ValidStore(store) && RecordInvariant(subject)
    ensures StoreSubject(store, subject, behaviour).Answered? ==> ValidStore(StoreSubject(store, subject, behaviour).after)
  {
    InsertKeepsValid(store, subject.subjectId, subject);
  }

  /** Replacing a record by a well-formed one with the same id keeps the store valid. */
  lemma UpdateKeepsValid(store: Store, id: string, expectedVersion: int, record: SubjectRecord, behaviour: CallBehaviour)
    requires ValidStore(store) && RecordInvariant(record) && record.subjectId == id
    ensures UpdateSubject(store, id, expectedVersion, record, behaviour).Answered? ==>
              ValidStore(UpdateSubject(store, id, expectedVersion, record, behaviour).after)
  {
    InsertKeepsValid(store, id, record);
  }

  /** Putting a well-formed record under its own id, fresh or not, keeps the store valid. */
  lemma InsertKeepsValid(store: Store, id: string, record: SubjectRecord)
    requires ValidStore(store) && RecordInvariant(record) && record.subjectId == id
    ensures ValidStore(store[id := record])
  {
    var after := store[id := record];
    forall k | k in after
      ensures after[k].subjectId == k && RecordInvariant(after[k])
    {
      if k != id {
        assert after[k] == store[k];
      }
    }
  }

  /** What is stored can be read back unchanged. */
  lemma StoreThenRetrieve(store: Store, subject: SubjectRecord)
    requires subject.subjectId !in store
    ensures var s := StoreSubject(store, subject, Normal);
            s.Answered? && RetrieveSubject(s.after, subject.subjectId, Normal) == Answered(Some(subject), s.after)
  {
  }

  /** After one successful conditional update, a second one with the same expected version is refused. */
  lemma StaleExpectedVersionRefused(store: Store, id: string, expectedVersion: int, first: SubjectRecord, second: SubjectRecord)
    requires UpdateSubject(store, id, expectedVersion, first, Normal).Answered?
    requires UpdateSubject(store, id, expectedVersion, first, Normal).reply == Updated
    requires first.version != expectedVersion
    ensures var after := UpdateSubject(store, id, expectedVersion, first, Normal).after;
            UpdateSubject(after, id, expectedVersion, second, Normal) == Answered(NotUpdated(true), after)
  {
  }
}
