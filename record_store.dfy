/**
 * The external record store, as far as the handlers use it: a named table of
 * records, a lookup returning the first records whose field equals a value
 * (`select({ filterByFormula, maxRecords }).firstPage()`), and `create`, which
 * appends a record and returns its identifier. Whether a call fails is
 * decided by the store, so each call takes the failure it ends in, if any.
 */
module RecordStore {
  import opened Wrappers
  import opened Json
  import opened Http

  /** Record identifiers; the store issues them in creation order. */
  type RecordId = nat

  /** A field set: column name to value. */
  type Fields = map<string, Value>

  datatype Record = Record(id: RecordId, fields: Fields)

  /** What a request leaves behind: the response and the table's records afterwards. */
  datatype Outcome = Outcome(response: Response, rows: seq<Record>)

  /** The formula `{key} = 'value'` holds of a record. */
  predicate Matches(r: Record, key: string, value: Value)
  {
    key in r.fields && r.fields[key] == value
  }

  /** Every record satisfying `{key} = 'value'`, in table order. */
  function AllMatches(rows: seq<Record>, key: string, value: Value): (matches: seq<Record>)
    ensures forall r :: r in matches <==> r in rows && Matches(r, key, value)
    ensures |matches| <= |rows|
    decreases |rows|
  {
    if |rows| == 0 then []
    else if Matches(rows[0], key, value) then [rows[0]] + AllMatches(rows[1..], key, value)
    else AllMatches(rows[1..], key, value)
  }

  /**
   * The first page of a lookup: the first `maxRecords` matching records in
   * table order, or all of them when fewer match.
   */
  function FirstMatches(rows: seq<Record>, key: string, value: Value, maxRecords: nat): (page: seq<Record>)
    ensures |page| <= maxRecords
    ensures forall r | r in page :: r in rows && Matches(r, key, value)
    ensures |page| == 0 <==> maxRecords == 0 || forall r | r in rows :: !Matches(r, key, value)
    ensures page <= AllMatches(rows, key, value)
    ensures |page| == if maxRecords < |AllMatches(rows, key, value)| then maxRecords else |AllMatches(rows, key, value)|
    decreases |rows|
  {
    if maxRecords == 0 || |rows| == 0 then []
    else if Matches(rows[0], key, value) then [rows[0]] + FirstMatches(rows[1..], key, value, maxRecords - 1)
    else FirstMatches(rows[1..], key, value, maxRecords)
  }

  /** Identifiers are positions: every record's id is its index in the table. */
  ghost predicate WellNumbered(rows: seq<Record>)
  {
    forall k | 0 <= k < |rows| :: rows[k].id == k
  }

  /** A table of the store, such as 'Drone Inquiry' or 'For Data Buyers'. */
  class Table {
    const name: string
    var rows: seq<Record>

    ghost predicate Valid()
      reads this
    {
      WellNumbered(rows)
    }

    constructor (name: string)
      ensures Valid()
      ensures this.name == name && rows == []
    {
      this.name := name;
      rows := [];
    }

    /** `select({ filterByFormula: "{key} = 'value'", maxRecords }).firstPage()`. */
    function Select(key: string, value: Value, maxRecords: nat, failure: Option<Thrown>): (page: Result<seq<Record>, Thrown>)
      reads this
      ensures failure.Some? <==> page.Err?
      ensures page.Err? ==> page.error == failure.value
      ensures failure.None? ==> page == Ok(FirstMatches(rows, key, value, maxRecords))
    {
      if failure.Some? then Err(failure.value) else Ok(FirstMatches(rows, key, value, maxRecords))
    }

    /**
     * `create([{ fields }])`: appends one record and returns its identifier,
     * or throws `failure` and leaves the table as it was.
     */
    method Create(fields: Fields, failure: Option<Thrown>) returns (result: Result<RecordId, Thrown>)
      requires Valid()
      modifies this
      ensures Valid()
      ensures failure.Some? ==> result == Err(failure.value) && rows == old(rows)
      ensures failure.None? ==> result == Ok(|old(rows)|) && rows == old(rows) + [Record(|old(rows)|, fields)]
      ensures failure.None? ==> forall r | r in old(rows) :: r.id != |old(rows)|
    {
      if failure.Some? {
        return Err(failure.value);
      }
      var id := |rows|;
      rows := rows + [Record(id, fields)];
      result := Ok(id);
    }
  }
}
