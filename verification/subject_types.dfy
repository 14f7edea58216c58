/**
 The data model of the subject registry: the closed type and status enumerations,
 attribute values as JavaScript sees them, the stored subject record, the request
 shapes the registry accepts and the closed set of error codes.
 */
module SubjectTypes {
  import opened Wrappers

  /** Structural classification of a subject; fixed at creation. */
  datatype SubjectType = User | ServiceAccount | ApiClient | SystemProcess

  /** Lifecycle status of a subject. */
  datatype SubjectStatus = Active | Suspended | Archived | Deleted

  /** The string value each `SubjectType` member carries at run time. */
  function TypeName(t: SubjectType): string {
    match t
    case User => "USER"
    case ServiceAccount => "SERVICE_ACCOUNT"
    case ApiClient => "API_CLIENT"
    case SystemProcess => "SYSTEM_PROCESS"
  }

  /** The string value each `SubjectStatus` member carries at run time. */
  function StatusName(s: SubjectStatus): string {
    match s
    case Active => "ACTIVE"
    case Suspended => "SUSPENDED"
    case Archived => "ARCHIVED"
    case Deleted => "DELETED"
  }

  /** `Object.values(SubjectType)`, in declaration order. */
  const SubjectTypeValues: seq<string> := ["USER", "SERVICE_ACCOUNT", "API_CLIENT", "SYSTEM_PROCESS"]

  /** `Object.values(SubjectStatus)`, in declaration order. */
  const SubjectStatusValues: seq<string> := ["ACTIVE", "SUSPENDED", "ARCHIVED", "DELETED"]

  /** The run-time values are exactly the members' names. */
  lemma EnumValuesAreNames()
    ensures forall s :: s in SubjectTypeValues <==> exists t :: TypeName(t) == s
    ensures forall s :: s in SubjectStatusValues <==> exists st :: StatusName(st) == s
  {
    assert TypeName(User) == SubjectTypeValues[0];
    assert TypeName(ServiceAccount) == SubjectTypeValues[1];
    assert TypeName(ApiClient) == SubjectTypeValues[2];
    assert TypeName(SystemProcess) == SubjectTypeValues[3];
    assert StatusName(Active) == SubjectStatusValues[0];
    assert StatusName(Suspended) == SubjectStatusValues[1];
    assert StatusName(Archived) == SubjectStatusValues[2];
    assert StatusName(Deleted) == SubjectStatusValues[3];
  }

  /** Reads a run-time string as a subject type: exactly the four enum values are accepted. */
  function ParseType(s: string): (r: Option<SubjectType>)
    ensures forall t :: r == Some(t) <==> TypeName(t) == s
  {
    if s == "USER" then Some(User)
    else if s == "SERVICE_ACCOUNT" then Some(ServiceAccount)
    else if s == "API_CLIENT" then Some(ApiClient)
    else if s == "SYSTEM_PROCESS" then Some(SystemProcess)
    else None
  }

  /** Reads a run-time string as a subject status: exactly the four enum values are accepted. */
  function ParseStatus(s: string): (r: Option<SubjectStatus>)
    ensures forall st :: r == Some(st) <==> StatusName(st) == s
  {
    if s == "ACTIVE" then Some(Active)
    else if s == "SUSPENDED" then Some(Suspended)
    else if s == "ARCHIVED" then Some(Archived)
    else if s == "DELETED" then Some(Deleted)
    else None
  }

  /**
   A JavaScript value as it may appear in an attribute map at run time. The
   declared attribute type admits only strings, numbers and booleans, but the
   validator is written against whatever a caller actually passes.
   */
  datatype JsValue =
    | JsString(text: string)
    | JsNumber(number: int)
    | JsBoolean(flag: bool)
    | JsNull
    | JsUndefined
    | JsObject
    | JsArray
    | JsFunction
    | JsBigInt(big: int)
    | JsSymbol

  /** The answers `typeof` can give for these values. */
  datatype JsType =
    | TypeString | TypeNumber | TypeBoolean | TypeObject | TypeUndefined | TypeFunction | TypeBigInt | TypeSymbol

  /** The `typeof` operator; note that `null` and arrays report "object". */
  function TypeOf(v: JsValue): JsType {
    match v
    case JsString(_) => TypeString
    case JsNumber(_) => TypeNumber
    case JsBoolean(_) => TypeBoolean
    case JsNull => TypeObject
    case JsUndefined => TypeUndefined
    case JsObject => TypeObject
    case JsArray => TypeObject
    case JsFunction => TypeFunction
    case JsBigInt(_) => TypeBigInt
    case JsSymbol => TypeSymbol
  }

  /** Structural identity attributes: string keys to (intended) primitive values. */
  type Attributes = map<string, JsValue>

  /** Milliseconds since the epoch; the value of a `Date`. */
  type Timestamp = int

  /** The single persistent entity. */
  datatype SubjectRecord = SubjectRecord(
    subjectId: string,
    subjectType: SubjectType,
    status: SubjectStatus,
    attributes: Attributes,
    createdAt: Timestamp,
    updatedAt: Timestamp,
    version: int
  )

  /**
   Request shapes. Enumerations arrive as run-time strings (`None` for `null` or
   `undefined`); the audit-only `requesting_context` and the never-consulted
   `idempotency_key` are not carried.
   */
  datatype RegisterSubjectRequest = RegisterSubjectRequest(
    subjectType: Option<string>,
    attributes: Option<Attributes>
  )

  datatype UpdateSubjectStatusRequest = UpdateSubjectStatusRequest(
    subjectId: string,
    newStatus: Option<string>,
    reason: Option<string>,
    expectedVersion: int
  )

  datatype UpdateSubjectAttributesRequest = UpdateSubjectAttributesRequest(
    subjectId: string,
    attributes: Attributes,
    expectedVersion: int
  )

  datatype GetSubjectRequest = GetSubjectRequest(subjectId: string)

  /**
   The canonical error codes, plus `StorageUnavailable`, which the registry
   reports for collaborator failures although the source enumeration lacks it.
   */
  datatype ErrorCode =
    | SubjectIdCollision
    | InvalidSubjectType
    | SubjectNotFound
    | InvalidStatusTransition
    | ConcurrentModificationConflict
    | InvalidAttributes
    | TerminalStateMutation
    | ImmutableFieldViolation
    | StorageUnavailable

  /** A `SubjectRegistryError`: a code and, where the thrower supplies it, the subject's id. */
  datatype RegistryError = RegistryError(code: ErrorCode, subjectId: Option<string>)
}
