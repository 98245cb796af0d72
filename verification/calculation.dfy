/** The `Calculate` handler: recompute a share and store it on the rows
    whose id is the request's `EventID`. */
module Calculation {
  import opened Nullable
  import opened Schema
  import Config

  /** The JSON body of `POST /calculate`. */
  datatype CalculateRequest = CalculateRequest(
    totalAmount: real,
    numberOfParticipants: int,
    eventId: int,
    participantId: int)

  /** The 200 body: the request's total and count, and the computed share. */
  datatype CalculateResult = CalculateResult(
    totalAmount: real,
    numberOfParticipants: int,
    amountPerParticipant: real)

  const ParticipantsMustBePositive := "参加人数は0より大きい必要があります。"
  const EventIdMissing := "EventID does not exist."

  /** `UPDATE Nomikai SET amount = @Amount WHERE ID = @EventID`: rows with
      that id get the new amount; all other rows and fields stay as they are. */
  function SetAmount(rows: seq<Row>, id: int, amount: real): (r: seq<Row>)
    ensures |r| == |rows|
    ensures forall i :: 0 <= i < |rows| ==>
              r[i] == (if rows[i].id == id then rows[i].(amount := amount) else rows[i])
  {
    if |rows| == 0 then []
    else
      var head := if rows[0].id == id then rows[0].(amount := amount) else rows[0];
      [head] + SetAmount(rows[1..], id, amount)
  }

  /** The handler. `conn` is the outcome of connection-string resolution,
      which happens inside the handler's `try`. */
  function Calculate(
    conn: Result<string, Config.ConfigError>,
    req: CalculateRequest,
    t: Table
  ): (o: Outcome<CalculateResult>)
    // a non-positive count is rejected before the database is touched
    ensures req.numberOfParticipants <= 0 ==>
              o == Outcome(BadRequest(ParticipantsMustBePositive), t)
    // a connection failure is a 500 and changes nothing
    ensures req.numberOfParticipants > 0 && conn.Failure? ==>
              o == Outcome(InternalServerError, t)
    // an id with no row is rejected and changes nothing
    ensures req.numberOfParticipants > 0 && conn.Success? && !HasId(t.rows, req.eventId) ==>
              o == Outcome(BadRequest(EventIdMissing), t)
    // success exactly when every check passes
    ensures o.response.Ok? <==>
              req.numberOfParticipants > 0 && conn.Success? && HasId(t.rows, req.eventId)
    // on success the body echoes the request, and its share times the count is the total
    ensures o.response.Ok? ==>
              && o.response.body.totalAmount == req.totalAmount
              && o.response.body.numberOfParticipants == req.numberOfParticipants
              && o.response.body.amountPerParticipant * (req.numberOfParticipants as real)
                 == req.totalAmount
    // on success the rows with the id carry the share, and nothing else changes
    ensures o.response.Ok? ==>
              && o.table.nextId == t.nextId
              && |o.table.rows| == |t.rows|
              && forall i :: 0 <= i < |t.rows| ==>
                   o.table.rows[i] == (if t.rows[i].id == req.eventId
                                       then t.rows[i].(amount := o.response.body.amountPerParticipant)
                                       else t.rows[i])
    // whatever happens, the table keeps its size and identity counter
    ensures |o.table.rows| == |t.rows| && o.table.nextId == t.nextId
  {
    if req.numberOfParticipants <= 0 then
      Outcome(BadRequest(ParticipantsMustBePositive), t)
    else
      var share := req.totalAmount / (req.numberOfParticipants as real);
      match conn
      case Failure(_) => Outcome(InternalServerError, t)
      case Success(_) =>
        if CountId(t.rows, req.eventId) == 0 then
          Outcome(BadRequest(EventIdMissing), t)
        else
          Outcome(Ok(CalculateResult(req.totalAmount, req.numberOfParticipants, share)),
                  Table(SetAmount(t.rows, req.eventId, share), t.nextId))
  }

  /** Calculate keeps ids a key, and on a valid table it changes at most one
      row: the one whose id is `EventID`. */
  lemma CalculateChangesOneRow(
    conn: Result<string, Config.ConfigError>, req: CalculateRequest, t: Table)
    requires Valid(t)
    ensures Valid(Calculate(conn, req, t).table)
    ensures var t' := Calculate(conn, req, t).table;
            forall i, j ::
              (0 <= i < |t.rows| && 0 <= j < |t.rows| &&
               t'.rows[i] != t.rows[i] && t'.rows[j] != t.rows[j]) ==> i == j
  {
    var t' := Calculate(conn, req, t).table;
    forall i | 0 <= i < |t.rows| ensures t'.rows[i].id == t.rows[i].id {
    }
  }

  /** Recomputing with the same request a second time changes nothing more. */
  lemma CalculateIdempotent(
    conn: Result<string, Config.ConfigError>, req: CalculateRequest, t: Table)
    ensures var t1 := Calculate(conn, req, t).table;
            Calculate(conn, req, t1).table == t1
  {
    var o1 := Calculate(conn, req, t);
    var t1 := o1.table;
    if o1.response.Ok? {
      var share := o1.response.body.amountPerParticipant;
      var o2 := Calculate(conn, req, t1);
      if o2.response.Ok? {
        assert o2.response.body.amountPerParticipant == share;
      }
      assert o2.table.rows == t1.rows;
    }
  }
}
