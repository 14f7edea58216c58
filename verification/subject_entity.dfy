/**
 Subject entity rules: the attribute validator, the type and status validators,
 the terminal-state guard, UUID v4 identifier generation and the record factory.
 */
module SubjectEntity {
  import opened Wrappers
  import opened Text
  import opened SubjectTypes
  import opened StatusMachine

  // ---------------------------------------------------------------------------
  // Attribute validation
  // ---------------------------------------------------------------------------

  /** The credential-like substrings no attribute key may contain (15 entries). */
  const ProhibitedAttributePatterns: seq<string> := [
    "password",
    "password_hash",
    "token",
    "access_token",
    "refresh_token",
    "api_key",
    "api_secret",
    "credential",
    "secret",
    "private_key",
    "ssn",
    "credit_card",
    "card_number",
    "cvv",
    "pin"
  ]

  /** The per-pattern test the validator applies to a lower-cased key. */
  predicate PatternMatches(lowerKey: string, pattern: string) {
    lowerKey == pattern || Contains(lowerKey, pattern)
  }

  /** Some pattern of `patterns` matches the lower-cased key. */
  predicate MatchesAny(lowerKey: string, patterns: seq<string>) {
    exists i :: 0 <= i < |patterns| && PatternMatches(lowerKey, patterns[i])
  }

  /** A key is prohibited when its lower-cased form matches some pattern. */
  predicate KeyIsProhibited(key: string) {
    MatchesAny(Lower(key), ProhibitedAttributePatterns)
  }

  /**
   Only values whose `typeof` is string, number or boolean pass. `null`, arrays
   and plain objects all report "object" and fail here, so the separate null and
   undefined check that follows in the source can never fire.
   */
  predicate IsPrimitive(v: JsValue)
    ensures IsPrimitive(v) ==> v != JsNull && v != JsUndefined
  {
    var t := TypeOf(v);
    t == TypeString || t == TypeNumber || t == TypeBoolean
  }

  /** One attribute entry passes both the key check and the value check. */
  predicate EntryIsValid(key: string, value: JsValue) {
    !KeyIsProhibited(key) && IsPrimitive(value)
  }

  /** Every entry of a present attribute map is valid. */
  predicate AttributesValid(attributes: Attributes) {
    forall key :: key in attributes ==> EntryIsValid(key, attributes[key])
  }

  /** What the validator accepts: an absent (`null`/`undefined`) map, or a map of valid entries. */
  predicate AttributesAcceptable(attributes: Option<Attributes>) {
    attributes.None? || AttributesValid(attributes.value)
  }

  /** The equality test in front of `includes` adds nothing: a pattern matches iff it occurs. */
  lemma PatternMatchesIsContains(lowerKey: string, pattern: string)
    ensures PatternMatches(lowerKey, pattern) <==> Contains(lowerKey, pattern)
  {
    if lowerKey == pattern {
      assert OccursAt(lowerKey, pattern, 0);
    }
  }

  /** The inner loop of the validator: tries every pattern, in order, against the lower-cased key. */
  method MatchPatterns(lowerKey: string, patterns: seq<string>) returns (matched: bool)
    ensures matched <==> MatchesAny(lowerKey, patterns)
  {
    var j := 0;
    while j < |patterns|
      invariant 0 <= j <= |patterns|
      invariant forall i :: 0 <= i < j ==> !PatternMatches(lowerKey, patterns[i])
    {
      var pattern := patterns[j];
      var found := Includes(lowerKey, pattern);
      if lowerKey == pattern || found {
        return true;
      }
      j := j + 1;
    }
    return false;
  }

  /** The key check: lower-case the key, then try the fifteen patterns. */
  method CheckKey(key: string) returns (prohibited: bool)
    ensures prohibited <==> KeyIsProhibited(key)
  {
    prohibited := MatchPatterns(Lower(key), ProhibitedAttributePatterns);
  }

  /**
   The validator as the source runs it: for each entry, the key is checked
   against every pattern, then the value's `typeof` is checked. Any failure is
   reported as INVALID_ATTRIBUTES; the order of entries only decides which
   message is produced, never which code.
   */
  method ValidateSubjectAttributes(attributes: Option<Attributes>) returns (r: Option<RegistryError>)
    ensures r.None? <==> AttributesAcceptable(attributes)
    ensures r.Some? ==> r.value == RegistryError(InvalidAttributes, None)
  {
    if attributes.None? {
      return None;
    }
    var entries := attributes.value;
    var remaining := entries.Keys;
    while remaining != {}
      invariant remaining <= entries.Keys
      invariant forall key :: key in entries && key !in remaining ==> EntryIsValid(key, entries[key])
      decreases remaining
    {
      var key :| key in remaining;
      var valid := CheckEntry(key, entries[key]);
      if !valid {
        return Some(RegistryError(InvalidAttributes, None));
      }
      remaining := remaining - {key};
    }
    return None;
  }

  /** The loop body of the validator: the key check, then the value's `typeof`. */
  method CheckEntry(key: string, value: JsValue) returns (valid: bool)
    ensures valid <==> EntryIsValid(key, value)
  {
    var prohibited := CheckKey(key);
    if prohibited {
      return false;
    }
    var valueType := TypeOf(value);
    if valueType != TypeString && valueType != TypeNumber && valueType != TypeBoolean {
      return false;
    }
    // The source's explicit null/undefined test comes here; it is dead code.
    assert value != JsNull && value != JsUndefined;
    return true;
  }

  // ---------------------------------------------------------------------------
  // Type, status and terminal-state guards
  // ---------------------------------------------------------------------------

  /** Accepts exactly the four subject type values; `null`, `undefined` and anything else fail. */
  function ValidateSubjectType(subjectType: Option<string>): (r: Result<SubjectType, RegistryError>)
    ensures r.Ok? <==> exists t :: subjectType == Some(TypeName(t))
    ensures r.Ok? ==> subjectType == Some(TypeName(r.value))
    ensures r.Err? ==> r.error == RegistryError(InvalidSubjectType, None)
  {
    match subjectType
    case None => Err(RegistryError(InvalidSubjectType, None))
    case Some(name) =>
      match ParseType(name)
      case Some(t) => Ok(t)
      case None => Err(RegistryError(InvalidSubjectType, None))
  }

  /**
   Accepts exactly the four status values. A bad status is reported with the
   INVALID_STATUS_TRANSITION code: the source has no separate invalid-status code.
   */
  function ValidateSubjectStatus(status: Option<string>): (r: Result<SubjectStatus, RegistryError>)
    ensures r.Ok? <==> exists s :: status == Some(StatusName(s))
    ensures r.Ok? ==> status == Some(StatusName(r.value))
    ensures r.Err? ==> r.error == RegistryError(InvalidStatusTransition, None)
  {
    match status
    case None => Err(RegistryError(InvalidStatusTransition, None))
    case Some(name) =>
      match ParseStatus(name)
      case Some(s) => Ok(s)
      case None => Err(RegistryError(InvalidStatusTransition, None))
  }

  /** Fails, tagged with the subject's id, exactly for ARCHIVED and DELETED subjects. */
  function EnsureSubjectNotInTerminalState(subject: SubjectRecord): (r: Option<RegistryError>)
    ensures r.None? <==> subject.status == Active || subject.status == Suspended
    ensures r.Some? ==> r.value == RegistryError(TerminalStateMutation, Some(subject.subjectId))
  {
    if IsTerminal(subject.status) then Some(RegistryError(TerminalStateMutation, Some(subject.subjectId)))
    else None
  }

  // ---------------------------------------------------------------------------
  // Subject identifiers
  // ---------------------------------------------------------------------------

  /** One draw of `(Math.random() * 16) | 0`. */
  type Nibble = v: int | 0 <= v < 16

  /** The random source: `draws(k)` is the k-th draw the generator makes. */
  type Draws = nat -> Nibble

  /** The pattern the generator fills in: `x` takes a random digit, `y` a variant digit. */
  function UuidTemplate(): string { "xxxxxxxx-xxxx-4xxx-yxxx-xxxxxxxxxxxx" }

  predicate IsPlaceholder(c: char) {
    c == 'x' || c == 'y'
  }

  /** The RFC 4122 variant digits: `(r & 0x3) | 0x8` is always one of these. */
  predicate IsVariantDigit(c: char) {
    c == '8' || c == '9' || c == 'a' || c == 'b'
  }

  /** What a filled-in character may be, given the template character it replaced. */
  predicate FilledChar(templateChar: char, c: char) {
    if templateChar == 'x' then IsLowerHex(c)
    else if templateChar == 'y' then IsVariantDigit(c)
    else c == templateChar
  }

  /** `id` is a legal filling of `template`, position by position. */
  predicate Fits(template: string, id: string) {
    |id| == |template| && forall i :: 0 <= i < |template| ==> FilledChar(template[i], id[i])
  }

  lemma FitsSplit(template: string, id: string)
    requires Fits(template, id) && |template| > 0
    ensures FilledChar(template[0], id[0])
    ensures Fits(template[1..], id[1..])
  {
    assert FilledChar(template[0], id[0]);
    forall i | 0 <= i < |template| - 1
      ensures FilledChar(template[1..][i], id[1..][i])
    {
      assert FilledChar(template[i + 1], id[i + 1]);
    }
  }

  /** The character one template position becomes: `x` the next draw, `y` its two low bits with the high bit set. */
  function FillChar(templateChar: char, draws: Draws, next: nat): (c: char)
    ensures FilledChar(templateChar, c)
  {
    if templateChar == 'x' then HexDigit(draws(next))
    else if templateChar == 'y' then HexDigit(draws(next) % 4 + 8)
    else templateChar
  }

  /**
   The regular-expression replace over the template: placeholders are replaced
   left to right, each consuming the next draw (starting with draw `next`); `y`
   keeps only the draw's two low bits and sets the high bit.
   */
  function Fill(template: string, draws: Draws, next: nat): (id: string)
    ensures Fits(template, id)
    decreases |template|
  {
    if |template| == 0 then ""
    else
      var rest := Fill(template[1..], draws, if IsPlaceholder(template[0]) then next + 1 else next);
      var c := FillChar(template[0], draws, next);
      assert FilledChar(template[0], c);
      assert forall i :: 1 <= i < |template| ==> ([c] + rest)[i] == rest[i - 1] && template[i] == template[1..][i - 1];
      [c] + rest
  }

  /** The character a UUID v4 string has at position `i`. */
  predicate UuidCharOk(i: int, c: char) {
    if i == 8 || i == 13 || i == 18 || i == 23 then c == '-'
    else if i == 14 then c == '4'
    else if i == 19 then IsVariantDigit(c)
    else IsLowerHex(c)
  }

  /** The textual shape of a version-4 UUID as the generator writes it. */
  predicate IsUuidV4(id: string) {
    |id| == 36 && forall i :: 0 <= i < 36 ==> UuidCharOk(i, id[i])
  }

  /** The template is the UUID v4 layout with its random positions marked. */
  lemma TemplateLayout()
    ensures |UuidTemplate()| == 36
    ensures forall i :: 0 <= i < 36 ==>
              UuidTemplate()[i] == (if i == 8 || i == 13 || i == 18 || i == 23 then '-'
                                  else if i == 14 then '4'
                                  else if i == 19 then 'y'
                                  else 'x')
  {
  }

  /** Legal fillings of the template are exactly the strings of UUID v4 shape. */
  lemma FitsTemplateIffUuid(id: string)
    ensures Fits(UuidTemplate(), id) <==> IsUuidV4(id)
  {
    TemplateLayout();
    if |id| == 36 {
      forall i | 0 <= i < 36
        ensures FilledChar(UuidTemplate()[i], id[i]) <==> UuidCharOk(i, id[i])
      {
      }
    }
  }

  /** `generateSubjectId`, with the random source passed in. */
  function GenerateSubjectId(draws: Draws): (id: string)
    ensures IsUuidV4(id)
  {
    var id := Fill(UuidTemplate(), draws, 0);
    FitsTemplateIffUuid(id);
    id
  }

  /** Reads back, from a filled-in string, the digit at each placeholder. */
  function Unfill(template: string, id: string): (digits: seq<Nibble>)
    requires Fits(template, id)
    decreases |template|
  {
    if |template| == 0 then []
    else
      FitsSplit(template, id);
      var rest := Unfill(template[1..], id[1..]);
      if IsPlaceholder(template[0]) then [HexValue(id[0])] + rest else rest
  }

  /**
   Filling the template from a random source whose draws, from `next` on, are
   `digits` reproduces the filled-in string those digits were read back from.
   */
  lemma {:induction false} FillUnfill(template: string, id: string, digits: seq<Nibble>, draws: Draws, next: nat)
    requires Fits(template, id)
    requires digits == Unfill(template, id)
    requires forall k :: 0 <= k < |digits| ==> draws(next + k) == digits[k]
    ensures Fill(template, draws, next) == id
    decreases |template|
  {
    if |template| > 0 {
      FitsSplit(template, id);
      var rest := Unfill(template[1..], id[1..]);
      if IsPlaceholder(template[0]) {
        assert digits[1..] == rest;
        DrawsShift(digits, draws, next);
        FillUnfill(template[1..], id[1..], rest, draws, next + 1);
      } else {
        FillUnfill(template[1..], id[1..], rest, draws, next);
      }
      FillCharOfValue(template[0], id[0], draws, next);
      FillHead(template, draws, next);
      assert id == [id[0]] + id[1..];
    }
  }

  /** `Fill` one position at a time. */
  lemma FillHead(template: string, draws: Draws, next: nat)
    requires |template| > 0
    ensures Fill(template, draws, next)
         == [FillChar(template[0], draws, next)] + Fill(template[1..], draws, if IsPlaceholder(template[0]) then next + 1 else next)
  {
  }

  /** A placeholder filled from the digit a character reads back as gives that character again. */
  lemma FillCharOfValue(templateChar: char, c: char, draws: Draws, next: nat)
    requires FilledChar(templateChar, c)
    requires IsPlaceholder(templateChar) ==> draws(next) == HexValue(c)
    ensures FillChar(templateChar, draws, next) == c
  {
    if IsPlaceholder(templateChar) {
      HexValueRoundTrip(c);
    }
  }

  /** Once the first digit is drawn, the remaining digits are the draws from `next + 1` on. */
  lemma DrawsShift(digits: seq<Nibble>, draws: Draws, next: nat)
    requires |digits| > 0
    requires forall k :: 0 <= k < |digits| ==> draws(next + k) == digits[k]
    ensures draws(next) == digits[0]
    ensures forall k :: 0 <= k < |digits[1..]| ==> draws(next + 1 + k) == digits[1..][k]
  {
    assert draws(next + 0) == digits[0];
    forall k | 0 <= k < |digits[1..]|
      ensures draws(next + 1 + k) == digits[1..][k]
    {
      assert draws(next + (k + 1)) == digits[k + 1];
    }
  }

  /** Every legal filling of a template is what some random source fills it in to. */
  lemma SourceFor(template: string, id: string) returns (draws: Draws)
    requires Fits(template, id)
    ensures Fill(template, draws, 0) == id
  {
    var digits := Unfill(template, id);
    draws := (k: nat) => if k < |digits| then digits[k] else 0;
    assert forall k :: 0 <= k < |digits| ==> draws(0 + k) == digits[k];
    FillUnfill(template, id, digits, draws, 0);
  }

  /**
   Every string of UUID v4 shape is produced by some random source, so the
   generator's range is the full 122-bit identifier space.
   */
  lemma EveryUuidIsGenerated(id: string) returns (draws: Draws)
    requires IsUuidV4(id)
    ensures GenerateSubjectId(draws) == id
  {
    FitsTemplateIffUuid(id);
    draws := SourceFor(UuidTemplate(), id);
  }

  // ---------------------------------------------------------------------------
  // Record factory
  // ---------------------------------------------------------------------------

  /** What every record the registry stores satisfies. */
  predicate RecordInvariant(subject: SubjectRecord) {
    && IsUuidV4(subject.subjectId)
    && AttributesValid(subject.attributes)
    && subject.version >= 1
  }

  /** A new record: ACTIVE, version 1, created and updated at `now`. */
  function NewRecord(id: string, subjectType: SubjectType, attributes: Attributes, now: Timestamp): (subject: SubjectRecord)
    requires IsUuidV4(id) && AttributesValid(attributes)
    ensures RecordInvariant(subject)
  {
    SubjectRecord(id, subjectType, Active, attributes, now, now, 1)
  }

  /**
   `createSubjectRecord`: the type is checked before the attributes; a new record
   is ACTIVE at version 1 with both timestamps equal to `now`, and holds the
   caller's map or `{}` when none was given. Maps are values here, so the
   defensive copy `{ ...attributes }` is the map itself.
   */
  function CreateSubjectRecord(
    subjectType: Option<string>,
    attributes: Option<Attributes>,
    now: Timestamp,
    draws: Draws
  ): (r: Result<SubjectRecord, RegistryError>)
    ensures r.Ok? <==> ValidateSubjectType(subjectType).Ok? && AttributesAcceptable(attributes)
    ensures ValidateSubjectType(subjectType).Err? ==> r == Err(RegistryError(InvalidSubjectType, None))
    ensures r.Err? && ValidateSubjectType(subjectType).Ok? ==> r.error == RegistryError(InvalidAttributes, None)
    ensures r.Ok? ==> ValidateSubjectType(subjectType) == Ok(r.value.subjectType)
    ensures r.Ok? ==> r.value.status == Active && r.value.version == 1
    ensures r.Ok? ==> r.value.createdAt == now && r.value.updatedAt == now
    ensures r.Ok? && attributes.Some? ==> r.value.attributes == attributes.value
    ensures r.Ok? && attributes.None? ==> r.value.attributes == map[]
    ensures r.Ok? ==> RecordInvariant(r.value)
  {
    match ValidateSubjectType(subjectType)
    case Err(e) => Err(e)
    case Ok(t) =>
      if !AttributesAcceptable(attributes) then Err(RegistryError(InvalidAttributes, None))
      else
        Ok(NewRecord(GenerateSubjectId(draws), t, if attributes.Some? then attributes.value else map[], now))
  }

  /** A new record starts in a live status, from which every status is one valid transition away. */
  lemma NewRecordIsLive(subjectType: Option<string>, attributes: Option<Attributes>, now: Timestamp, draws: Draws)
    ensures var r := CreateSubjectRecord(subjectType, attributes, now, draws);
            r.Ok? ==> !IsTerminal(r.value.status) && forall t :: IsValidTransition(r.value.status, t)
  {
    var r := CreateSubjectRecord(subjectType, attributes, now, draws);
    if r.Ok? {
      assert r.value.status == Active;
      ActiveIsLive();
    }
  }
}
