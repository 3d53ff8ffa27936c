/**
 * The operator early-access intake, `POST /api/submit-access`: check the
 * required fields, check the email format, map the request onto the columns
 * of the 'Drone Inquiry' table, create one record, and turn any exception
 * into a 500 whose message tells store misconfiguration apart from the rest.
 * There is no duplicate check: every valid submission creates a record.
 */
module OperatorIntake {
  import opened Wrappers
  import opened Json
  import opened Text
  import opened Email
  import opened Http
  import opened RecordStore

  const TableName := "Drone Inquiry"

  const MissingFieldsMessage := "Missing required fields: name, email, and terms agreement are required"
  const InvalidEmailMessage := "Invalid email format"
  const SubmittedMessage := "Application submitted successfully"
  const ConfigurationMessage := "Server configuration error"
  const FailureMessage := "Failed to submit application. Please try again."

  /** Store error codes whose presence in a message marks a configuration problem. */
  const ConfigurationCodes := ["API_KEY_INVALID", "BASE_NOT_FOUND"]

  /**
   * How the store calls of one request end: constructing the client, and the
   * `create` call. `Some(thrown)` means the call throws `thrown`.
   */
  datatype Faults = Faults(client: Option<Thrown>, create: Option<Thrown>)

  /** The columns of a 'Drone Inquiry' record. */
  const Columns: set<string> := {
    "Name", "Email", "Phone", "Company/Organization", "Your Role",
    "Primary Drone Use Case", "Other Use Case Description",
    "Excitement about Aerotraq", "Biggest Challenge", "Terms Agreement",
    "Submission Date"
  }

  /** Optional text columns with the request property each is filled from. */
  const OptionalText: seq<(string, string)> := [
    ("Phone", "phone"),
    ("Company/Organization", "company"),
    ("Your Role", "role"),
    ("Biggest Challenge", "challenge")
  ]

  /** `name`, `email` and `agreedToTerms` are all truthy. */
  predicate HasRequired(body: Value)
  {
    Truthy(Field(body, "name")) && Truthy(Field(body, "email")) && Truthy(Field(body, "agreedToTerms"))
  }

  /**
   * The two validation steps in order: `None` when the request passes both,
   * otherwise the 400 response of the first that fails.
   */
  function Validate(body: Value): (rejection: Option<Response>)
    ensures rejection.None? <==> HasRequired(body) && Accepted(Field(body, "email"))
    ensures !HasRequired(body) ==> rejection == Some(Rejection(400, MissingFieldsMessage))
    ensures HasRequired(body) && !Accepted(Field(body, "email")) ==> rejection == Some(Rejection(400, InvalidEmailMessage))
  {
    if !HasRequired(body) then Some(Rejection(400, MissingFieldsMessage))
    else if !Accepted(Field(body, "email")) then Some(Rejection(400, InvalidEmailMessage))
    else None
  }

  /** The field set sent to 'Drone Inquiry' for a request body and a submission date. */
  function ApplicationFields(body: Value, date: string): (fields: Fields)
    ensures fields.Keys == Columns
    ensures fields["Name"] == Field(body, "name") && fields["Email"] == Field(body, "email")
    ensures forall p | p in OptionalText ::
      && Normalised(fields[p.0])
      && (Truthy(Field(body, p.1)) ==> fields[p.0] == Field(body, p.1))
      && (!Truthy(Field(body, p.1)) ==> fields[p.0] == Str(""))
    ensures Field(body, "droneUseCase") == Str("other") ==>
      && fields["Primary Drone Use Case"] == Str("Other")
      && fields["Other Use Case Description"] == OrEmpty(Field(body, "otherDroneUseCase"))
    ensures Field(body, "droneUseCase") != Str("other") ==>
      && fields["Primary Drone Use Case"] == Field(body, "droneUseCase")
      && fields["Other Use Case Description"] == Str("")
    ensures fields["Excitement about Aerotraq"].Arr?
    ensures Field(body, "interest").Arr? ==> fields["Excitement about Aerotraq"] == Field(body, "interest")
    ensures !Field(body, "interest").Arr? ==> fields["Excitement about Aerotraq"] == Arr([])
    ensures fields["Terms Agreement"] == Field(body, "agreedToTerms")
    ensures fields["Submission Date"] == Str(date)
  {
    map column | column in Columns :: Column(body, date, column)
  }

  /** The value a column of the field set takes. */
  function Column(body: Value, date: string, column: string): Value
  {
    var useCase := Field(body, "droneUseCase");
    match column
    case "Name" => Field(body, "name")
    case "Email" => Field(body, "email")
    case "Phone" => OrEmpty(Field(body, "phone"))
    case "Company/Organization" => OrEmpty(Field(body, "company"))
    case "Your Role" => OrEmpty(Field(body, "role"))
    case "Primary Drone Use Case" => if useCase == Str("other") then Str("Other") else useCase
    case "Other Use Case Description" => if useCase == Str("other") then OrEmpty(Field(body, "otherDroneUseCase")) else Str("")
    case "Excitement about Aerotraq" => ArrayOrEmpty(Field(body, "interest"))
    case "Biggest Challenge" => OrEmpty(Field(body, "challenge"))
    case "Terms Agreement" => Field(body, "agreedToTerms")
    case "Submission Date" => Str(date)
    case _ => Undefined
  }

  /** The `catch` block's message for a thrown value. */
  function ErrorMessage(thrown: Thrown): (message: string)
    ensures message == ConfigurationMessage <==>
      thrown.ErrorInstance? && exists code | code in ConfigurationCodes :: Includes(thrown.message, code)
    ensures message == ConfigurationMessage || message == FailureMessage
  {
    if thrown.ErrorInstance? && (Includes(thrown.message, "API_KEY_INVALID") || Includes(thrown.message, "BASE_NOT_FOUND"))
    then ConfigurationMessage
    else FailureMessage
  }

  /** The 500 response for a thrown value. */
  function ServerError(thrown: Thrown): Response
  {
    Rejection(500, ErrorMessage(thrown))
  }

  /**
   * One request against the 'Drone Inquiry' records `rows`, with `now` the
   * ISO timestamp of the request: the response and the records afterwards.
   */
  function Step(rows: seq<Record>, request: Parse, faults: Faults, now: string): (out: Outcome)
    ensures out.response.status in {201, 400, 500}
    ensures out.response.status != 201 ==> out.rows == rows
    ensures out.response.status == 400 <==>
      faults.client.None? && request.Parsed? && Destructurable(request.body) && Validate(request.body).Some?
    ensures out.response.status == 201 <==>
      faults.client.None? && request.Parsed? && Destructurable(request.body) && Validate(request.body).None? && faults.create.None?
    ensures out.response.status == 201 ==>
      && out.rows == rows + [Record(|rows|, ApplicationFields(request.body, DatePart(now)))]
      && out.response == Created(SubmittedMessage, |rows|)
    ensures faults.client.None? && request.Parsed? && Destructurable(request.body) && Validate(request.body).Some? ==>
      out.response == Validate(request.body).value
    ensures faults.client.Some? ==> out.response == ServerError(faults.client.value)
    ensures faults.client.None? && request.Unparsable? ==> out.response == ServerError(request.thrown)
    ensures faults.client.None? && request.Parsed? && !Destructurable(request.body) ==>
      out.response == ServerError(DestructureError)
    ensures faults.client.None? && request.Parsed? && Destructurable(request.body) && Validate(request.body).None? && faults.create.Some? ==>
      out.response == ServerError(faults.create.value)
  {
    if faults.client.Some? then Outcome(ServerError(faults.client.value), rows)
    else if request.Unparsable? then Outcome(ServerError(request.thrown), rows)
    else if !Destructurable(request.body) then Outcome(ServerError(DestructureError), rows)
    else match Validate(request.body)
      case Some(rejection) => Outcome(rejection, rows)
      case None =>
        match faults.create
        case Some(thrown) => Outcome(ServerError(thrown), rows)
        case None => Outcome(Created(SubmittedMessage, |rows|), rows + [Record(|rows|, ApplicationFields(request.body, DatePart(now)))])
  }

  /** The handler, run against the 'Drone Inquiry' table of the store. */
  method Submit(table: Table, request: Parse, faults: Faults, now: string) returns (response: Response)
    requires table.Valid() && table.name == TableName
    modifies table
    ensures table.Valid()
    ensures Outcome(response, table.rows) == Step(old(table.rows), request, faults, now)
  {
    if faults.client.Some? {
      return ServerError(faults.client.value);
    }
    if request.Unparsable? {
      return ServerError(request.thrown);
    }
    var body := request.body;
    if !Destructurable(body) {
      return ServerError(DestructureError);
    }
    if !HasRequired(body) {
      return Rejection(400, MissingFieldsMessage);
    }
    if !Accepted(Field(body, "email")) {
      return Rejection(400, InvalidEmailMessage);
    }
    var fields := ApplicationFields(body, DatePart(now));
    var created := table.Create(fields, faults.create);
    match created
    case Err(thrown) =>
      response := ServerError(thrown);
    case Ok(id) =>
      response := Created(SubmittedMessage, id);
  }

  /** A store error whose message carries a configuration code is reported as a configuration error. */
  lemma {:induction false} ConfigurationErrorReported(before: string, code: string, after: string)
    requires code in ConfigurationCodes
    ensures ErrorMessage(ErrorInstance(before + code + after)) == ConfigurationMessage
  {
    IncludesInfix(before, code, after);
  }

  /**
   * A `create` that throws an `Error` naming a configuration code is answered
   * with a 500 "Server configuration error", and no record is added.
   */
  lemma {:induction false} CreateConfigurationErrorReported(rows: seq<Record>, body: Value, before: string, code: string, after: string, now: string)
    requires code in ConfigurationCodes
    requires Destructurable(body) && Validate(body).None?
    ensures var out := Step(rows, Parsed(body), Faults(None, Some(ErrorInstance(before + code + after))), now);
      && out.response == Rejection(500, ConfigurationMessage)
      && out.rows == rows
  {
    ConfigurationErrorReported(before, code, after);
  }

  /**
   * No lookup precedes the create: submitting the same valid application
   * twice creates two records with the same email.
   */
  lemma {:induction false} RepeatedSubmissionsEachCreate(rows: seq<Record>, body: Value, first: string, second: string)
    requires Destructurable(body) && Validate(body).None?
    ensures var once := Step(rows, Parsed(body), Faults(None, None), first);
      var twice := Step(once.rows, Parsed(body), Faults(None, None), second);
      && once.response == Created(SubmittedMessage, |rows|)
      && twice.response == Created(SubmittedMessage, |rows| + 1)
      && |twice.rows| == |rows| + 2
      && twice.rows[|rows|].fields["Email"] == twice.rows[|rows| + 1].fields["Email"] == Field(body, "email")
  {
  }

  /**
   * A request carrying only the three required fields, with a valid email,
   * creates one record: the three values verbatim, every optional text
   * column empty, no use case, no interests, and the date of the timestamp.
   */
  lemma {:induction false} RequiredFieldsOnly(rows: seq<Record>, name: string, email: string, date: string, time: string)
    requires name != "" && IsValidEmail(email) && 'T' !in date
    ensures var body := Obj(map["name" := Str(name), "email" := Str(email), "agreedToTerms" := Bool(true)]);
      var out := Step(rows, Parsed(body), Faults(None, None), date + "T" + time);
      && out.response == Created(SubmittedMessage, |rows|)
      && |out.rows| == |rows| + 1
      && var fields := out.rows[|rows|].fields;
      && fields["Name"] == Str(name)
      && fields["Email"] == Str(email)
      && fields["Terms Agreement"] == Bool(true)
      && fields["Phone"] == fields["Company/Organization"] == fields["Your Role"] == fields["Biggest Challenge"] == Str("")
      && fields["Primary Drone Use Case"] == Undefined
      && fields["Other Use Case Description"] == Str("")
      && fields["Excitement about Aerotraq"] == Arr([])
      && fields["Submission Date"] == Str(date)
  {
    var body := Obj(map["name" := Str(name), "email" := Str(email), "agreedToTerms" := Bool(true)]);
    assert HasRequired(body);
    assert Accepted(Field(body, "email"));
    DatePartOfTimestamp(date, time);
    var out := Step(rows, Parsed(body), Faults(None, None), date + "T" + time);
    var fields := ApplicationFields(body, date);
    assert out.rows == rows + [Record(|rows|, fields)];
    assert Field(body, "phone") == Field(body, "company") == Field(body, "role") == Field(body, "challenge") == Undefined;
    assert Field(body, "droneUseCase") == Field(body, "interest") == Undefined;
  }
}
