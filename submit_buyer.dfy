/**
 * The data-buyer intake, `POST /api/submit-buyer`: check the required fields,
 * check the email format, look up 'For Data Buyers' for a record with the same
 * work email (409 when there is one), map the request onto the table's
 * columns, create one record, and answer any exception with one generic 500.
 */
module BuyerIntake {
  import opened Wrappers
  import opened Json
  import opened Email
  import opened Http
  import opened RecordStore

  const TableName := "For Data Buyers"
  const WorkEmailColumn := "Work Email"

  const MissingFieldsMessage := "Full Name and Work Email are required."
  const InvalidEmailMessage := "Invalid email format."
  const DuplicateMessage := "An application with this email address has already been submitted."
  const SubmittedMessage := "Buyer application submitted successfully"
  const FailureMessage := "Failed to submit buyer application. Please try again."

  /**
   * How the store calls of one request end: constructing the client, the
   * duplicate lookup and the `create` call. `Some(thrown)` means the call
   * throws `thrown`; a lookup formula the store cannot parse is one such case.
   */
  datatype Faults = Faults(client: Option<Thrown>, select: Option<Thrown>, create: Option<Thrown>)

  /** The columns of a 'For Data Buyers' record. */
  const Columns: set<string> := {
    "Full Name", "Organization / Company", "Work Email", "Role", "Data Interests",
    "Preferred Regions", "Data Specs / Format Requirements", "Data Licensing Type",
    "Intended Use Case", "Timeline to Access Data", "Interested in Custom Pilot",
    "Additional Comments / Requirements"
  }

  /** Optional text columns with the request property each is filled from. */
  const OptionalText: seq<(string, string)> := [
    ("Organization / Company", "organization"),
    ("Role", "role"),
    ("Preferred Regions", "preferredRegions"),
    ("Data Specs / Format Requirements", "dataSpecs"),
    ("Data Licensing Type", "dataLicensingType"),
    ("Intended Use Case", "intendedUseCase"),
    ("Timeline to Access Data", "timeline"),
    ("Interested in Custom Pilot", "customPilot"),
    ("Additional Comments / Requirements", "additionalComments")
  ]

  /** `fullName` and `workEmail` are both truthy. */
  predicate HasRequired(body: Value)
  {
    Truthy(Field(body, "fullName")) && Truthy(Field(body, "workEmail"))
  }

  /**
   * The two validation steps in order: `None` when the request passes both,
   * otherwise the 400 response of the first that fails.
   */
  function Validate(body: Value): (rejection: Option<Response>)
    ensures rejection.None? <==> HasRequired(body) && Accepted(Field(body, "workEmail"))
    ensures !HasRequired(body) ==> rejection == Some(Rejection(400, MissingFieldsMessage))
    ensures HasRequired(body) && !Accepted(Field(body, "workEmail")) ==> rejection == Some(Rejection(400, InvalidEmailMessage))
  {
    if !HasRequired(body) then Some(Rejection(400, MissingFieldsMessage))
    else if !Accepted(Field(body, "workEmail")) then Some(Rejection(400, InvalidEmailMessage))
    else None
  }

  /** The field set sent to 'For Data Buyers' for a request body; it has no submission date. */
  function ApplicationFields(body: Value): (fields: Fields)
    ensures fields.Keys == Columns
    ensures "Submission Date" !in fields
    ensures fields["Full Name"] == Field(body, "fullName")
    ensures fields[WorkEmailColumn] == Field(body, "workEmail")
    ensures forall p | p in OptionalText ::
      && Normalised(fields[p.0])
      && (Truthy(Field(body, p.1)) ==> fields[p.0] == Field(body, p.1))
      && (!Truthy(Field(body, p.1)) ==> fields[p.0] == Str(""))
    ensures fields["Data Interests"].Arr?
    ensures Field(body, "dataInterests").Arr? ==> fields["Data Interests"] == Field(body, "dataInterests")
    ensures !Field(body, "dataInterests").Arr? ==> fields["Data Interests"] == Arr([])
  {
    RequiredColumns(body);
    OptionalColumns(body);
    map column | column in Columns :: Column(body, column)
  }

  /** The name, email and interests columns, and the absence of a submission date. */
  lemma RequiredColumns(body: Value)
    ensures "Submission Date" !in Columns
    ensures "Full Name" in Columns && Column(body, "Full Name") == Field(body, "fullName")
    ensures WorkEmailColumn in Columns && Column(body, WorkEmailColumn) == Field(body, "workEmail")
    ensures "Data Interests" in Columns && Column(body, "Data Interests") == ArrayOrEmpty(Field(body, "dataInterests"))
  {
  }

  /** Each optional text column is a column of the table, filled with `property || ''`. */
  lemma OptionalColumns(body: Value)
    ensures forall p | p in OptionalText ::
      && p.0 in Columns
      && Normalised(Column(body, p.0))
      && (Truthy(Field(body, p.1)) ==> Column(body, p.0) == Field(body, p.1))
      && (!Truthy(Field(body, p.1)) ==> Column(body, p.0) == Str(""))
  {
    forall i | 0 <= i < |OptionalText|
      ensures OptionalText[i].0 in Columns && Column(body, OptionalText[i].0) == OrEmpty(Field(body, OptionalText[i].1))
    {
    }
  }

  /** The value a column of the field set takes. */
  function Column(body: Value, column: string): Value
  {
    match column
    case "Full Name" => Field(body, "fullName")
    case "Organization / Company" => OrEmpty(Field(body, "organization"))
    case "Work Email" => Field(body, "workEmail")
    case "Role" => OrEmpty(Field(body, "role"))
    case "Data Interests" => ArrayOrEmpty(Field(body, "dataInterests"))
    case "Preferred Regions" => OrEmpty(Field(body, "preferredRegions"))
    case "Data Specs / Format Requirements" => OrEmpty(Field(body, "dataSpecs"))
    case "Data Licensing Type" => OrEmpty(Field(body, "dataLicensingType"))
    case "Intended Use Case" => OrEmpty(Field(body, "intendedUseCase"))
    case "Timeline to Access Data" => OrEmpty(Field(body, "timeline"))
    case "Interested in Custom Pilot" => OrEmpty(Field(body, "customPilot"))
    case "Additional Comments / Requirements" => OrEmpty(Field(body, "additionalComments"))
    case _ => Undefined
  }

  /** Some record of `rows` already carries `email` as its work email. */
  predicate Registered(rows: seq<Record>, email: Value)
  {
    exists r | r in rows :: Matches(r, WorkEmailColumn, email)
  }

  /** Every failure is answered with the same 500, whatever was thrown. */
  const ServerError := Rejection(500, FailureMessage)

  /** One request against the 'For Data Buyers' records `rows`: the response and the records afterwards. */
  function Step(rows: seq<Record>, request: Parse, faults: Faults): (out: Outcome)
    ensures out.response.status in {201, 400, 409, 500}
    ensures out.response.status != 201 ==> out.rows == rows
    ensures out.response.status == 500 ==> out.response.payload == Failed(FailureMessage)
    ensures out.response.status == 400 <==>
      faults.client.None? && request.Parsed? && Destructurable(request.body) && Validate(request.body).Some?
    ensures out.response.status == 409 <==>
      && faults.client.None? && request.Parsed? && Destructurable(request.body) && Validate(request.body).None?
      && faults.select.None? && Registered(rows, Field(request.body, "workEmail"))
    ensures faults.client.None? && request.Parsed? && Destructurable(request.body) && Validate(request.body).Some? ==>
      out.response == Validate(request.body).value
    ensures out.response.status == 409 ==> out.response == Rejection(409, DuplicateMessage)
    ensures out.response.status == 201 <==>
      && faults.client.None? && request.Parsed? && Destructurable(request.body) && Validate(request.body).None?
      && faults.select.None? && !Registered(rows, Field(request.body, "workEmail")) && faults.create.None?
    ensures out.response.status == 201 ==>
      && out.rows == rows + [Record(|rows|, ApplicationFields(request.body))]
      && out.response == Created(SubmittedMessage, |rows|)
  {
    if faults.client.Some? || request.Unparsable? || !Destructurable(request.body) then Outcome(ServerError, rows)
    else match Validate(request.body)
      case Some(rejection) => Outcome(rejection, rows)
      case None =>
        if faults.select.Some? then Outcome(ServerError, rows)
        else if |FirstMatches(rows, WorkEmailColumn, Field(request.body, "workEmail"), 1)| > 0 then
          Outcome(Rejection(409, DuplicateMessage), rows)
        else if faults.create.Some? then Outcome(ServerError, rows)
        else Outcome(Created(SubmittedMessage, |rows|), rows + [Record(|rows|, ApplicationFields(request.body))])
  }

  /** The handler, run against the 'For Data Buyers' table of the store. */
  method Submit(table: Table, request: Parse, faults: Faults) returns (response: Response)
    requires table.Valid() && table.name == TableName
    modifies table
    ensures table.Valid()
    ensures Outcome(response, table.rows) == Step(old(table.rows), request, faults)
  {
    if faults.client.Some? || request.Unparsable? {
      return ServerError;
    }
    var body := request.body;
    if !Destructurable(body) {
      return ServerError;
    }
    if !HasRequired(body) {
      return Rejection(400, MissingFieldsMessage);
    }
    var workEmail := Field(body, "workEmail");
    if !Accepted(workEmail) {
      return Rejection(400, InvalidEmailMessage);
    }
    var existing := table.Select(WorkEmailColumn, workEmail, 1, faults.select);
    if existing.Err? {
      return ServerError;
    }
    if |existing.value| > 0 {
      return Rejection(409, DuplicateMessage);
    }
    var fields := ApplicationFields(body);
    var created := table.Create(fields, faults.create);
    match created
    case Err(_) =>
      response := ServerError;
    case Ok(id) =>
      response := Created(SubmittedMessage, id);
  }

  /** No two records of `rows` carry the same work email. */
  ghost predicate DistinctWorkEmails(rows: seq<Record>)
  {
    forall i, j | 0 <= i < j < |rows| && WorkEmailColumn in rows[i].fields && WorkEmailColumn in rows[j].fields ::
      rows[i].fields[WorkEmailColumn] != rows[j].fields[WorkEmailColumn]
  }

  /**
   * In a sequential run the duplicate check keeps work emails unique: no
   * request adds a record whose work email is already in the table.
   */
  lemma {:induction false} StepKeepsWorkEmailsDistinct(rows: seq<Record>, request: Parse, faults: Faults)
    requires DistinctWorkEmails(rows)
    ensures DistinctWorkEmails(Step(rows, request, faults).rows)
  {
    var out := Step(rows, request, faults);
    if out.response.status == 201 {
      var email := Field(request.body, "workEmail");
      var added := out.rows[|rows|];
      assert added.fields[WorkEmailColumn] == email;
      forall i, j | 0 <= i < j < |out.rows| && WorkEmailColumn in out.rows[i].fields && WorkEmailColumn in out.rows[j].fields
        ensures out.rows[i].fields[WorkEmailColumn] != out.rows[j].fields[WorkEmailColumn]
      {
        if j == |rows| {
          assert out.rows[i] == rows[i];
          assert !Matches(rows[i], WorkEmailColumn, email);
        } else {
          assert out.rows[i] == rows[i] && out.rows[j] == rows[j];
        }
      }
    }
  }

  /**
   * Submitting the same valid application twice: the first answer is 201,
   * the second 409, and the table has grown by exactly one record.
   */
  lemma {:induction false} ResubmissionConflicts(rows: seq<Record>, body: Value)
    requires Destructurable(body) && Validate(body).None?
    requires !Registered(rows, Field(body, "workEmail"))
    ensures var once := Step(rows, Parsed(body), Faults(None, None, None));
      var twice := Step(once.rows, Parsed(body), Faults(None, None, None));
      && once.response == Created(SubmittedMessage, |rows|)
      && twice.response == Rejection(409, DuplicateMessage)
      && twice.rows == once.rows == rows + [Record(|rows|, ApplicationFields(body))]
  {
    var once := Step(rows, Parsed(body), Faults(None, None, None));
    var added := once.rows[|rows|];
    assert added in once.rows && Matches(added, WorkEmailColumn, Field(body, "workEmail"));
  }
}
