/**
 * The request and envelope models (app/api/v1/schemas.py). A publish
 * request arrives as a JSON object whose members may be missing or of the
 * wrong kind; validation either gives a `PublishRequest` or the list of
 * field errors that FastAPI answers with 422.
 */
module Schemas {
  import opened Wrappers
  import opened JsonValues

  /** `PublishRequest.type` is 1 to 64 characters long. */
  const MaxTypeLength: nat := 64

  datatype PublishRequest = PublishRequest(
    typ: string,
    userId: string,
    data: Json,
    permalink: Option<string>,
    persistent: bool)

  /** What the stream carries for one published event; no length limits, `permalink` optional. */
  datatype EventEnvelope = EventEnvelope(
    id: string,
    typ: string,
    userId: string,
    data: Json,
    permalink: Option<string>,
    createdAt: string)

  /** The members of the request body; `None` for a member that is not there. */
  datatype RawRequest = RawRequest(
    typ: Option<Json>,
    userId: Option<Json>,
    data: Option<Json>,
    permalink: Option<Json>,
    persistent: Option<Json>)

  datatype Field = TypeField | UserIdField | DataField | PermalinkField | PersistentField

  datatype FieldError = Missing(field: Field) | WrongKind(field: Field) | TooShort(field: Field) | TooLong(field: Field)

  /** The invariant of every validated request. */
  predicate Valid(r: PublishRequest) {
    1 <= |r.typ| <= MaxTypeLength && |r.userId| >= 1
  }

  function TypeErrors(v: Option<Json>): seq<FieldError> {
    match v
    case None => [Missing(TypeField)]
    case Some(Str(s)) => if |s| < 1 then [TooShort(TypeField)] else if |s| > MaxTypeLength then [TooLong(TypeField)] else []
    case Some(_) => [WrongKind(TypeField)]
  }

  function UserIdErrors(v: Option<Json>): seq<FieldError> {
    match v
    case None => [Missing(UserIdField)]
    case Some(Str(s)) => if |s| < 1 then [TooShort(UserIdField)] else []
    case Some(_) => [WrongKind(UserIdField)]
  }

  /** `data: Any` has no default, so it must be present; any value, `null` included, is accepted. */
  function DataErrors(v: Option<Json>): seq<FieldError> {
    if v.None? then [Missing(DataField)] else []
  }

  function PermalinkErrors(v: Option<Json>): seq<FieldError> {
    match v
    case None => []
    case Some(Null) => []
    case Some(Str(_)) => []
    case Some(_) => [WrongKind(PermalinkField)]
  }

  function PersistentErrors(v: Option<Json>): seq<FieldError> {
    match v
    case None => []
    case Some(Bool(_)) => []
    case Some(_) => [WrongKind(PersistentField)]
  }

  function Errors(raw: RawRequest): seq<FieldError> {
    TypeErrors(raw.typ) + UserIdErrors(raw.userId) + DataErrors(raw.data)
      + PermalinkErrors(raw.permalink) + PersistentErrors(raw.persistent)
  }

  /** Validation of a request body, every field's errors reported together, in field order. */
  function Validate(raw: RawRequest): Result<PublishRequest, seq<FieldError>> {
    if Errors(raw) != [] then Err(Errors(raw))
    else Ok(PublishRequest(
      raw.typ.value.s,
      raw.userId.value.s,
      raw.data.value,
      if raw.permalink.None? || raw.permalink.value.Null? then None else Some(raw.permalink.value.s),
      raw.persistent.Some? && raw.persistent.value.b))
  }

  /** The body a client sends for `r`, leaving out the members that have their default. */
  function Body(r: PublishRequest): RawRequest {
    RawRequest(
      Some(Str(r.typ)),
      Some(Str(r.userId)),
      Some(r.data),
      if r.permalink.None? then None else Some(Str(r.permalink.value)),
      if r.persistent then Some(Bool(true)) else None)
  }

  /**
   * What validation accepts is valid and is what was sent; a missing
   * `permalink` is `None` and a missing `persistent` is false.
   */
  lemma ValidateSound(raw: RawRequest)
    ensures Validate(raw).Ok? ==>
      var r := Validate(raw).value;
      && Valid(r)
      && raw.typ == Some(Str(r.typ)) && raw.userId == Some(Str(r.userId)) && raw.data == Some(r.data)
      && (raw.permalink.None? ==> r.permalink.None?)
      && (raw.persistent.None? ==> !r.persistent)
  {
  }

  /** Every valid request is accepted from the body that sends it, and read back unchanged. */
  lemma ValidateComplete(r: PublishRequest)
    ensures Valid(r) <==> Validate(Body(r)) == Ok(r)
  {
  }

  /** Each field's errors appear exactly when that field is missing or out of its bounds. */
  lemma ValidateErrors(raw: RawRequest)
    ensures Validate(raw).Err? <==> Errors(raw) != []
    ensures Missing(TypeField) in Errors(raw) <==> raw.typ.None?
    ensures TooLong(TypeField) in Errors(raw) <==> raw.typ.Some? && raw.typ.value.Str? && |raw.typ.value.s| > MaxTypeLength
    ensures TooShort(TypeField) in Errors(raw) <==> raw.typ == Some(Str(""))
    ensures TooShort(UserIdField) in Errors(raw) <==> raw.userId == Some(Str(""))
    ensures Missing(UserIdField) in Errors(raw) <==> raw.userId.None?
    ensures Missing(DataField) in Errors(raw) <==> raw.data.None?
  {
    ErrorIn(raw, Missing(TypeField));
    ErrorIn(raw, TooLong(TypeField));
    ErrorIn(raw, TooShort(TypeField));
    ErrorIn(raw, TooShort(UserIdField));
    ErrorIn(raw, Missing(UserIdField));
    ErrorIn(raw, Missing(DataField));
  }

  /**
   * A field is reported as of the wrong kind exactly when it is there and is
   * not a string (`type`, `user_id`), neither null nor a string
   * (`permalink`) or not a boolean (`persistent`); `data` takes any value.
   */
  lemma ValidateWrongKind(raw: RawRequest)
    ensures WrongKind(TypeField) in Errors(raw) <==> raw.typ.Some? && !raw.typ.value.Str?
    ensures WrongKind(UserIdField) in Errors(raw) <==> raw.userId.Some? && !raw.userId.value.Str?
    ensures WrongKind(PermalinkField) in Errors(raw) <==> raw.permalink.Some? && !raw.permalink.value.Null? && !raw.permalink.value.Str?
    ensures WrongKind(PersistentField) in Errors(raw) <==> raw.persistent.Some? && !raw.persistent.value.Bool?
    ensures WrongKind(DataField) !in Errors(raw)
  {
    ErrorIn(raw, WrongKind(TypeField));
    ErrorIn(raw, WrongKind(UserIdField));
    ErrorIn(raw, WrongKind(PermalinkField));
    ErrorIn(raw, WrongKind(PersistentField));
    ErrorIn(raw, WrongKind(DataField));
  }

  /** An error is reported iff one field's check reports it. */
  lemma ErrorIn(raw: RawRequest, e: FieldError)
    ensures e in Errors(raw) <==>
      e in TypeErrors(raw.typ) || e in UserIdErrors(raw.userId) || e in DataErrors(raw.data)
      || e in PermalinkErrors(raw.permalink) || e in PersistentErrors(raw.persistent)
  {
  }

  /** The limits on `type`: 64 characters pass, 65 or none do not. */
  lemma TypeLengthBoundary(t: string, u: string, d: Json)
    requires |u| >= 1
    ensures |t| == MaxTypeLength ==> Validate(RawRequest(Some(Str(t)), Some(Str(u)), Some(d), None, None)).Ok?
    ensures |t| == MaxTypeLength + 1 ==> Validate(RawRequest(Some(Str(t)), Some(Str(u)), Some(d), None, None)) == Err([TooLong(TypeField)])
    ensures |t| == 0 ==> Validate(RawRequest(Some(Str(t)), Some(Str(u)), Some(d), None, None)) == Err([TooShort(TypeField)])
  {
    var raw := RawRequest(Some(Str(t)), Some(Str(u)), Some(d), None, None);
    var rest := UserIdErrors(raw.userId) + DataErrors(raw.data) + PermalinkErrors(raw.permalink) + PersistentErrors(raw.persistent);
    assert rest == [];
    assert Errors(raw) == TypeErrors(raw.typ) + rest == TypeErrors(raw.typ);
  }
}
