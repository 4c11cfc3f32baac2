/** The user-scoped complaint update (`PUT /:id` on the users router). It
    builds an UPDATE statement that sets only the fields the request supplies,
    numbers their placeholders `$1, $2, ...`, puts the complaint id in the
    WHERE clause under the next number, and turns the rows the database returns
    into the reply. The database is not modelled: the handler is given the rows
    the statement returns, and reports the statement it would issue. */
module ComplaintUpdate {
  import opened Wrappers
  import opened Text

  /** The text fields of the multipart request body. A field the client did not
      send is `None`. `complaintType` is the body's `type` field. */
  datatype UpdateBody = UpdateBody(
    subject: Option<string>,
    description: Option<string>,
    status: Option<string>,
    complaintType: Option<string>,
    priority: Option<string>)

  /** The columns the update may set. */
  datatype Column = Subject | Description | Status | Type | Priority | AttachmentPath

  /** The column's name as it appears in the SQL text. */
  function Name(c: Column): string {
    match c
    case Subject => "subject"
    case Description => "description"
    case Status => "status"
    case Type => "type"
    case Priority => "priority"
    case AttachmentPath => "attachment_path"
  }

  /** The column's position in the order the handler considers the fields. */
  function Rank(c: Column): nat {
    match c
    case Subject => 0
    case Description => 1
    case Status => 2
    case Type => 3
    case Priority => 4
    case AttachmentPath => 5
  }

  /** A column the update may set, paired with the request value for it. */
  datatype Candidate = Candidate(column: Column, value: Option<string>)

  /** A column the statement does set, with the value bound to it. */
  datatype Assignment = Assignment(column: Column, value: string)

  /** A parameterized statement: its SQL text and its positional parameters,
      `params[k]` being bound to placeholder `$(k+1)`. */
  datatype Query = Query(text: string, params: seq<string>)

  /** The handler's answer: the first returned row as JSON (status 200), or an
      error status with the JSON body `{ error: ... }`. */
  datatype Reply<Row> = Found(row: Row) | Failure(status: nat, error: string)

  /** JavaScript truthiness of a string field: present and non-empty. */
  predicate Truthy(v: Option<string>) {
    v.Some? && v.value != ""
  }

  /** The fields the handler considers, in the order it considers them. The
      uploaded file's stored path comes last, and is `None` without a file. */
  function Candidates(body: UpdateBody, filePath: Option<string>): seq<Candidate> {
    [ Candidate(Subject, body.subject),
      Candidate(Description, body.description),
      Candidate(Status, body.status),
      Candidate(Type, body.complaintType),
      Candidate(Priority, body.priority),
      Candidate(AttachmentPath, filePath) ]
  }

  /** What one candidate contributes: its assignment when it is truthy, else nothing. */
  function Contribution(column: Column, value: Option<string>): seq<Assignment> {
    if Truthy(value) then [Assignment(column, value.value)] else []
  }

  /** The assignments the statement makes: the truthy candidates, in order. */
  function Included(cs: seq<Candidate>): seq<Assignment>
    decreases |cs|
  {
    if cs == [] then []
    else Included(cs[..|cs| - 1]) + Contribution(cs[|cs| - 1].column, cs[|cs| - 1].value)
  }

  /** The six candidates of a request contribute one after the other. */
  lemma IncludedCandidates(body: UpdateBody, filePath: Option<string>)
    ensures Included(Candidates(body, filePath)) ==
      [] + Contribution(Subject, body.subject) + Contribution(Description, body.description)
      + Contribution(Status, body.status) + Contribution(Type, body.complaintType)
      + Contribution(Priority, body.priority) + Contribution(AttachmentPath, filePath)
  {
    var cs := Candidates(body, filePath);
    assert cs[..1][..0] == [];
    assert Included(cs[..1]) == Contribution(Subject, body.subject);
    assert cs[..2][..1] == cs[..1];
    assert Included(cs[..2]) == Included(cs[..1]) + Contribution(Description, body.description);
    assert cs[..3][..2] == cs[..2];
    assert Included(cs[..3]) == Included(cs[..2]) + Contribution(Status, body.status);
    assert cs[..4][..3] == cs[..3];
    assert Included(cs[..4]) == Included(cs[..3]) + Contribution(Type, body.complaintType);
    assert cs[..5][..4] == cs[..4];
    assert Included(cs[..5]) == Included(cs[..4]) + Contribution(Priority, body.priority);
    assert cs[..5] == cs[..|cs| - 1];
  }

  /** The positions in `cs` of the truthy candidates, in increasing order. */
  ghost function TruthyPositions(cs: seq<Candidate>): seq<nat>
    decreases |cs|
  {
    if cs == [] then []
    else TruthyPositions(cs[..|cs| - 1]) + (if Truthy(cs[|cs| - 1].value) then [|cs| - 1] else [])
  }

  /** The columns the assignments set, in order. */
  function Columns(a: seq<Assignment>): (r: seq<Column>)
    ensures |r| == |a|
    decreases |a|
  {
    if a == [] then [] else Columns(a[..|a| - 1]) + [a[|a| - 1].column]
  }

  /** The values the assignments bind, in order: the `values` array before the id is appended. */
  function Values(a: seq<Assignment>): (r: seq<string>)
    ensures |r| == |a|
    decreases |a|
  {
    if a == [] then [] else Values(a[..|a| - 1]) + [a[|a| - 1].value]
  }

  /** One SET clause, the template `${column} = $${k}`. */
  function Clause(column: Column, k: nat): string {
    Name(column) + " = $" + Decimal(k)
  }

  /** The SET clauses of the statement, the `fields` array: the k-th
      assignment (from 0) uses placeholder `$(k+1)`. */
  function SetClauses(a: seq<Assignment>): (r: seq<string>)
    ensures |r| == |a|
    decreases |a|
  {
    if a == [] then [] else SetClauses(a[..|a| - 1]) + [Clause(a[|a| - 1].column, |a|)]
  }

  /** The SET list of the statement: the clauses joined by `", "`. */
  function SetList(a: seq<Assignment>): string {
    Join(SetClauses(a), ", ")
  }

  /** The statement's text, given its SET list and the placeholder number of
      the WHERE clause. The layout (new lines and indentation) is the source's
      template literal. */
  function UpdateStatement(setList: string, whereIndex: nat): string {
    "\n    UPDATE complaint SET " + setList
    + "\n    WHERE \"ComplaintId\" = $" + Decimal(whereIndex)
    + "\n    RETURNING *\n  "
  }

  /** The column a name in the SQL text denotes, if any. */
  function ColumnNamed(name: string): Option<Column> {
    if name == "subject" then Some(Subject)
    else if name == "description" then Some(Description)
    else if name == "status" then Some(Status)
    else if name == "type" then Some(Type)
    else if name == "priority" then Some(Priority)
    else if name == "attachment_path" then Some(AttachmentPath)
    else None
  }

  /** Reads a SET clause `name = $k` back into its column and placeholder number. */
  function ParseClause(c: string): Option<(Column, nat)> {
    var j := IndexOf(c, ' ');
    if j + 4 <= |c| && c[j..j + 4] == " = $" then
      match (ColumnNamed(c[..j]), ParseNat(c[j + 4..]))
      case (Some(column), Some(k)) => Some((column, k))
      case _ => None
    else None
  }

  /** The builder's state agrees with the assignments `a` it has made so far:
      one clause and one value per assignment, in order, and the counter one
      past the last placeholder used. */
  ghost predicate Built(fields: seq<string>, values: seq<string>, i: nat, a: seq<Assignment>) {
    fields == SetClauses(a) && values == Values(a) && i == |a| + 1
  }

  /** One block of the builder, `if (value) { fields.push(`${column} = $${i++}`);
      values.push(value); }`. It keeps the builder's state in step with the
      assignments made: whatever `a` the state described before, it now
      describes `a` followed by this candidate's contribution. */
  method PushField(fields: seq<string>, values: seq<string>, i: nat,
                   column: Column, value: Option<string>, ghost a: seq<Assignment>)
    returns (fields': seq<string>, values': seq<string>, i': nat)
    requires Built(fields, values, i, a)
    ensures Built(fields', values', i', a + Contribution(column, value))
  {
    fields', values', i' := fields, values, i;
    if Truthy(value) {
      fields' := fields' + [Clause(column, i')];
      i' := i' + 1;
      values' := values' + [value.value];
      assert (a + Contribution(column, value))[..|a|] == a;
    } else {
      assert a + Contribution(column, value) == a;
    }
  }

  /** The builder of the handler: the six blocks, one per candidate in the
      source's order. The result is the clauses and values of exactly the
      truthy candidates, in order, and the counter one past the last
      placeholder used. */
  method BuildAssignments(body: UpdateBody, filePath: Option<string>)
    returns (fields: seq<string>, values: seq<string>, i: nat)
    ensures var a := Included(Candidates(body, filePath));
      fields == SetClauses(a) && values == Values(a) && i == |a| + 1
  {
    fields, values, i := [], [], 1;
    ghost var a: seq<Assignment> := [];
    fields, values, i := PushField(fields, values, i, Subject, body.subject, a);
    a := a + Contribution(Subject, body.subject);
    fields, values, i := PushField(fields, values, i, Description, body.description, a);
    a := a + Contribution(Description, body.description);
    fields, values, i := PushField(fields, values, i, Status, body.status, a);
    a := a + Contribution(Status, body.status);
    fields, values, i := PushField(fields, values, i, Type, body.complaintType, a);
    a := a + Contribution(Type, body.complaintType);
    fields, values, i := PushField(fields, values, i, Priority, body.priority, a);
    a := a + Contribution(Priority, body.priority);
    fields, values, i := PushField(fields, values, i, AttachmentPath, filePath, a);
    a := a + Contribution(AttachmentPath, filePath);
    IncludedCandidates(body, filePath);
  }

  /** The handler, lines 74-126 of the users router. After building the
      clauses it refuses with 400 when none was pushed, before any query;
      otherwise it issues the statement with the id appended as the last
      parameter, and answers 404 when no row came back, else the first row. */
  method UpdateComplaint<Row>(body: UpdateBody, filePath: Option<string>, id: string, rows: seq<Row>)
    returns (issued: Option<Query>, reply: Reply<Row>)
    ensures var a := Included(Candidates(body, filePath));
      && (a == [] ==> issued == None && reply == Failure(400, "No data to update."))
      && (a != [] ==> issued == Some(Query(UpdateStatement(SetList(a), |a| + 1), Values(a) + [id])))
      && (a != [] && rows == [] ==> reply == Failure(404, "Complaint not found."))
      && (a != [] && rows != [] ==> reply == Found(rows[0]))
  {
    var fields, values, i := BuildAssignments(body, filePath);

    if |fields| == 0 {
      issued := None;
      reply := Failure(400, "No data to update.");
      return;
    }

    var text := UpdateStatement(Join(fields, ", "), i);
    values := values + [id];
    issued := Some(Query(text, values));

    if |rows| == 0 {
      reply := Failure(404, "Complaint not found.");
    } else {
      reply := Found(rows[0]);
    }
  }
}
