/** The `SaveNomikaiEvent` handler: split the participant list on the
    full-width comma and insert one row per piece, each carrying an even
    share of the amount. */
module Registration {
  import opened Nullable
  import opened Text
  import opened Schema
  import Config

  /** The JSON body of `POST /savenomikai`; a missing `Participants` is `None`. */
  datatype NomikaiEventRequest = NomikaiEventRequest(
    eventDate: string,
    eventName: string,
    participants: Option<string>,
    amount: real,
    paymentFlag: bool)

  const AmountMustBePositive := "金額は0より大きい必要があります。"
  const SavedMessage := "飲み会イベントが全参加者分保存されました。"
  const DatabaseErrorPrefix := "データベース操作エラー: "

  /** The participant pieces as the handler splits them: empty pieces are
      dropped but nothing is trimmed yet. */
  function ParticipantPieces(participants: string): seq<string> {
    SplitNonEmpty(participants, IdeographicComma)
  }

  /** The row inserted for one participant: the event's date, name and
      flag, the participant's name and the share. */
  function NewRow(id: int, req: NomikaiEventRequest, name: string, share: real): Row {
    Row(id, req.eventDate, req.eventName, name, share, req.paymentFlag)
  }

  /** Each piece trimmed, as the loop does before inserting it. */
  function TrimAll(pieces: seq<string>): (names: seq<string>)
    ensures |names| == |pieces|
    ensures forall k :: 0 <= k < |pieces| ==> names[k] == Trim(pieces[k])
  {
    if |pieces| == 0 then [] else [Trim(pieces[0])] + TrimAll(pieces[1..])
  }

  /** The rows the `foreach` loop inserts, in piece order, with ids drawn
      from the identity column starting at `firstId`. */
  function NewRows(firstId: int, req: NomikaiEventRequest, names: seq<string>, share: real): (rows: seq<Row>)
    ensures |rows| == |names|
    ensures forall k :: 0 <= k < |names| ==> rows[k] == NewRow(firstId + k, req, names[k], share)
    decreases |names|
  {
    if |names| == 0 then []
    else [NewRow(firstId, req, names[0], share)] + NewRows(firstId + 1, req, names[1..], share)
  }

  /** The table after the loop: the new rows follow the old ones and the
      identity counter moves past them. */
  function InsertAll(t: Table, req: NomikaiEventRequest, names: seq<string>, share: real): Table {
    Table(t.rows + NewRows(t.nextId, req, names, share), t.nextId + |names|)
  }

  /** The handler. The amount check, the split and the division all happen
      before the `try`; connection-string resolution happens inside it and
      its failure is answered with 400 and the exception message. */
  function SaveNomikaiEvent(
    conn: Result<string, Config.ConfigError>,
    req: NomikaiEventRequest,
    t: Table
  ): (o: Outcome<Ack>)
    // a non-positive amount is rejected before anything else
    ensures req.amount <= 0.0 ==> o == Outcome(BadRequest(AmountMustBePositive), t)
    // a missing participant list dereferences null
    ensures req.amount > 0.0 && req.participants.None? ==> o == Outcome(Unhandled(NullReference), t)
    // a list with no non-empty piece divides by zero
    ensures req.amount > 0.0 && req.participants.Some? &&
            |ParticipantPieces(req.participants.value)| == 0 ==>
              o == Outcome(Unhandled(DivideByZero), t)
    // a connection failure is answered with its message and inserts nothing
    ensures req.amount > 0.0 && req.participants.Some? &&
            |ParticipantPieces(req.participants.value)| > 0 && conn.Failure? ==>
              o == Outcome(BadRequest(DatabaseErrorPrefix + conn.error.Message()), t)
    // success exactly when every check passes
    ensures o.response.Ok? <==>
              req.amount > 0.0 && req.participants.Some? &&
              |ParticipantPieces(req.participants.value)| > 0 && conn.Success?
    // the shares of the inserted rows add up to the amount
    ensures o.response.Ok? ==> SumAmounts(o.table.rows) == SumAmounts(t.rows) + req.amount
    // only a successful call changes the table
    ensures !o.response.Ok? ==> o.table == t
    // on success: the old rows, then one new row per piece in piece order,
    // each with the trimmed piece as its name and an even share of the amount
    ensures o.response.Ok? ==>
              var pieces := ParticipantPieces(req.participants.value);
              && o.response.body == Ack(SavedMessage)
              && o.table.nextId == t.nextId + |pieces|
              && |o.table.rows| == |t.rows| + |pieces|
              && o.table.rows[..|t.rows|] == t.rows
              && forall i :: |t.rows| <= i < |o.table.rows| ==>
                   var row := o.table.rows[i];
                   && row.id == t.nextId + (i - |t.rows|)
                   && row.eventDate == req.eventDate
                   && row.eventName == req.eventName
                   && row.participants == Trim(pieces[i - |t.rows|])
                   && row.paymentFlag == req.paymentFlag
                   && row.amount == req.amount / (|pieces| as real)
  {
    if req.amount <= 0.0 then
      Outcome(BadRequest(AmountMustBePositive), t)
    else if req.participants.None? then
      Outcome(Unhandled(NullReference), t)
    else
      var pieces := ParticipantPieces(req.participants.value);
      if |pieces| == 0 then
        Outcome(Unhandled(DivideByZero), t)
      else
        var share := req.amount / (|pieces| as real);
        match conn
        case Failure(e) => Outcome(BadRequest(DatabaseErrorPrefix + e.Message()), t)
        case Success(_) =>
          var names := TrimAll(pieces);
          var added := NewRows(t.nextId, req, names, share);
          var r := InsertAll(t, req, names, share);
          assert r.rows[..|t.rows|] == t.rows;
          assert forall i :: |t.rows| <= i < |r.rows| ==> r.rows[i] == added[i - |t.rows|];
          InsertedSharesAddUp(t, req, names, req.amount, share);
          Outcome(Ok(Ack(SavedMessage)), r)
  }

  /** Inserting keeps `id` a key: the new ids come from the identity
      counter, which is above every old id and moves past every new one. */
  lemma InsertKeepsIdsUnique(t: Table, req: NomikaiEventRequest, names: seq<string>, share: real)
    requires Valid(t)
    ensures Valid(InsertAll(t, req, names, share))
  {
    var r := InsertAll(t, req, names, share);
    var added := NewRows(t.nextId, req, names, share);
    var n := |t.rows|;
    forall i | 0 <= i < |r.rows| ensures r.rows[i].id < r.nextId {
      if i < n { assert r.rows[i] == t.rows[i]; }
      else { assert r.rows[i] == added[i - n]; }
    }
    forall i, j | 0 <= i < j < |r.rows| ensures r.rows[i].id != r.rows[j].id {
      if j < n {
        assert r.rows[i] == t.rows[i] && r.rows[j] == t.rows[j];
      } else {
        assert r.rows[j] == added[j - n];
        if i < n { assert r.rows[i] == t.rows[i]; }
        else { assert r.rows[i] == added[i - n]; }
      }
    }
  }

  /** Saving keeps `id` a key, whatever the outcome. */
  lemma SaveKeepsIdsUnique(
    conn: Result<string, Config.ConfigError>, req: NomikaiEventRequest, t: Table)
    requires Valid(t)
    ensures Valid(SaveNomikaiEvent(conn, req, t).table)
  {
    if req.amount > 0.0 && req.participants.Some? {
      var pieces := ParticipantPieces(req.participants.value);
      if |pieces| > 0 {
        InsertKeepsIdsUnique(t, req, TrimAll(pieces), req.amount / (|pieces| as real));
      }
    }
  }

  /** The sum of the `amount` column. */
  function SumAmounts(rows: seq<Row>): real {
    if |rows| == 0 then 0.0 else rows[0].amount + SumAmounts(rows[1..])
  }

  lemma {:induction false} SumAmountsAppend(a: seq<Row>, b: seq<Row>)
    ensures SumAmounts(a + b) == SumAmounts(a) + SumAmounts(b)
  {
    if |a| > 0 {
      assert (a + b)[1..] == a[1..] + b;
      SumAmountsAppend(a[1..], b);
    } else {
      assert a + b == b;
    }
  }

  /** The new rows all carry `share`, so together they add `share` once
      per name. */
  lemma {:induction false} NewRowsSum(firstId: int, req: NomikaiEventRequest, names: seq<string>, share: real)
    ensures SumAmounts(NewRows(firstId, req, names, share)) == (|names| as real) * share
    decreases |names|
  {
    if |names| > 0 {
      var rows := NewRows(firstId, req, names, share);
      assert rows[1..] == NewRows(firstId + 1, req, names[1..], share);
      NewRowsSum(firstId + 1, req, names[1..], share);
      assert SumAmounts(rows) == share + (|names[1..]| as real) * share;
    }
  }

  /** The inserted rows add up to `share` once per piece. */
  lemma InsertAddsShares(t: Table, req: NomikaiEventRequest, names: seq<string>, share: real)
    ensures SumAmounts(InsertAll(t, req, names, share).rows)
            == SumAmounts(t.rows) + (|names| as real) * share
  {
    var added := NewRows(t.nextId, req, names, share);
    assert InsertAll(t, req, names, share).rows == t.rows + added;
    SumAmountsAppend(t.rows, added);
    NewRowsSum(t.nextId, req, names, share);
  }

  /** Splitting `amount` evenly over the names and inserting the rows adds
      exactly `amount` to the `amount` column: no money is lost or invented. */
  lemma InsertedSharesAddUp(
    t: Table, req: NomikaiEventRequest, names: seq<string>, amount: real, share: real)
    requires |names| > 0 && share == amount / (|names| as real)
    ensures SumAmounts(InsertAll(t, req, names, share).rows) == SumAmounts(t.rows) + amount
  {
    var n := |names| as real;
    InsertAddsShares(t, req, names, share);
    assert n * (amount / n) == amount;
  }
}
