/** The record shape, its validation rules and the id generator (db/record.js). */
module RecordUtils {
  import opened Wrappers
  import opened Dates

  /**
   * A stored vault record. `value` is kept as text: the command line hands it
   * over as typed and the search lower-cases it. `updatedAt` is the optional
   * write timestamp of a document store; nothing in the vault sets it.
   */
  datatype Record = Record(id: int, name: string, value: string, createdAt: string, updatedAt: Option<Date>)

  /** The fields handed to `addRecord`; a field the caller left out is `None`. */
  datatype Candidate = Candidate(name: Option<string>, value: Option<string>, createdAt: Option<string>)

  /** The three errors `validateRecord` throws, one per check. */
  datatype ValidationError =
    | MissingNameOrValue   // 'Record must have both name and value.'
    | MissingCreatedAt     // 'Record must have createdAt date.'
    | InvalidCreatedAt     // 'Invalid date format for createdAt.'

  /** JavaScript truthiness of an optional text field: present and not the empty string. */
  predicate Truthy(field: Option<string>) {
    field.Some? && field.value != ""
  }

  /** Every check of `validateRecord` passes. */
  predicate Acceptable(c: Candidate) {
    Truthy(c.name) && Truthy(c.value) && Truthy(c.createdAt) && ParseDate(c.createdAt.value).Some?
  }

  /**
   * `validateRecord`: the checks run in order and the first failing one decides
   * the error; it passes exactly when all of them hold.
   */
  function ValidateRecord(c: Candidate): (r: Outcome<ValidationError>)
    ensures r.Pass? <==> Acceptable(c)
    ensures r == Fail(MissingNameOrValue) <==> !Truthy(c.name) || !Truthy(c.value)
    ensures r == Fail(MissingCreatedAt) <==> Truthy(c.name) && Truthy(c.value) && !Truthy(c.createdAt)
    ensures r == Fail(InvalidCreatedAt) <==>
      Truthy(c.name) && Truthy(c.value) && Truthy(c.createdAt) && ParseDate(c.createdAt.value).None?
  {
    if !Truthy(c.name) || !Truthy(c.value) then Fail(MissingNameOrValue)
    else if !Truthy(c.createdAt) then Fail(MissingCreatedAt)
    else if ParseDate(c.createdAt.value).None? then Fail(InvalidCreatedAt)
    else Pass
  }

  /**
   * `generateId`: the id is the clock reading (milliseconds) taken at the call,
   * with no counter or random part, so two calls in one millisecond agree.
   */
  function GenerateId(now: int): (id: int)
    ensures id == now
  {
    now
  }

  /** Ids follow the clock: a later (or equal) reading never gives a smaller id. */
  lemma GenerateIdMonotone(earlier: int, later: int)
    requires earlier <= later
    ensures GenerateId(earlier) <= GenerateId(later)
  {
  }
}
