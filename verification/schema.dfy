/** The `Nomikai` table as an in-memory value, and the shape of the HTTP
    responses the handlers produce. */
module Schema {

  /** One row of `Nomikai`: one participant of one event. `amount` is that
      participant's share; decimal amounts are modelled as exact reals and
      dates as their text. */
  datatype Row = Row(
    id: int,
    eventDate: string,
    eventName: string,
    participants: string,
    amount: real,
    paymentFlag: bool)

  /** The rows in storage order, and the next value of the identity column
      that assigns `id` on insert. */
  datatype Table = Table(rows: seq<Row>, nextId: int)

  /** `id` is a key: pairwise distinct, and below the identity counter. */
  predicate Valid(t: Table) {
    && (forall i :: 0 <= i < |t.rows| ==> t.rows[i].id < t.nextId)
    && (forall i, j :: 0 <= i < j < |t.rows| ==> t.rows[i].id != t.rows[j].id)
  }

  predicate HasId(rows: seq<Row>, id: int) {
    exists i :: 0 <= i < |rows| && rows[i].id == id
  }

  /** `SELECT COUNT(*) FROM Nomikai WHERE ID = @ID`. */
  function CountId(rows: seq<Row>, id: int): (n: nat)
    ensures n == 0 <==> !HasId(rows, id)
    ensures n <= |rows|
  {
    if |rows| == 0 then 0
    else (if rows[0].id == id then 1 else 0) + CountId(rows[1..], id)
  }

  /** On a valid table an id is matched by at most one row. */
  lemma {:induction false} CountIdAtMostOne(t: Table, id: int)
    requires Valid(t)
    ensures CountId(t.rows, id) <= 1
    decreases |t.rows|
  {
    if |t.rows| > 0 {
      var rest := Table(t.rows[1..], t.nextId);
      assert Valid(rest) by {
        forall i, j | 0 <= i < j < |rest.rows| ensures rest.rows[i].id != rest.rows[j].id {
          assert rest.rows[i] == t.rows[i + 1] && rest.rows[j] == t.rows[j + 1];
        }
      }
      CountIdAtMostOne(rest, id);
      if t.rows[0].id == id {
        assert !HasId(rest.rows, id) by {
          forall i | 0 <= i < |rest.rows| ensures rest.rows[i].id != id {
            assert rest.rows[i] == t.rows[i + 1];
          }
        }
      }
    }
  }

  /** Exceptions that escape a handler because they are raised outside its
      `try` block. */
  datatype Fault = NullReference | DivideByZero

  /** What a handler answers: 200 with a body, 400 with a message, 500, or an
      unhandled exception left to the host. */
  datatype Response<T> =
    | Ok(body: T)
    | BadRequest(message: string)
    | InternalServerError
    | Unhandled(fault: Fault)

  /** A handler's response together with the table after the call. */
  datatype Outcome<T> = Outcome(response: Response<T>, table: Table)

  /** The `{ Message = … }` body of an acknowledgment. */
  datatype Ack = Ack(message: string)
}
