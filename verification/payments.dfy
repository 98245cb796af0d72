/** The `UpdatePaymentFlags` handler: apply a batch of per-id payment-flag
    updates in order; an id with no row is skipped and the batch goes on. */
module Payments {
  import opened Nullable
  import opened Schema
  import Config

  /** One element of the JSON array posted to `/updatepaymentflags`. */
  datatype PaymentFlagUpdateRequest = PaymentFlagUpdateRequest(id: int, paymentFlag: bool)

  const NoUpdatesMessage := "更新データがありません。"
  const FlagsUpdatedMessage := "支払いフラグが更新されました。"

  /** `UPDATE Nomikai SET payment_flag = @PaymentFlag WHERE id = @ID`. */
  function SetFlag(rows: seq<Row>, id: int, flag: bool): (r: seq<Row>)
    ensures |r| == |rows|
    ensures forall i :: 0 <= i < |rows| ==>
              r[i] == (if rows[i].id == id then rows[i].(paymentFlag := flag) else rows[i])
    // an id that matches no row leaves the table as it is
    ensures !HasId(rows, id) ==> r == rows
  {
    if |rows| == 0 then []
    else
      var head := if rows[0].id == id then rows[0].(paymentFlag := flag) else rows[0];
      [head] + SetFlag(rows[1..], id, flag)
  }

  /** The table after the first `|updates|` statements of the loop. */
  function ApplyUpdates(rows: seq<Row>, updates: seq<PaymentFlagUpdateRequest>): seq<Row>
  {
    if |updates| == 0 then rows
    else
      var last := updates[|updates| - 1];
      SetFlag(ApplyUpdates(rows, updates[..|updates| - 1]), last.id, last.paymentFlag)
  }

  /** The flag of the last update naming `id`, if any. */
  function LastFlagFor(updates: seq<PaymentFlagUpdateRequest>, id: int): (r: Option<bool>)
    ensures r.None? <==> forall k :: 0 <= k < |updates| ==> updates[k].id != id
  {
    if |updates| == 0 then None
    else if updates[|updates| - 1].id == id then Some(updates[|updates| - 1].paymentFlag)
    else LastFlagFor(updates[..|updates| - 1], id)
  }

  /** The last update naming `id` wins: the flag found is that of an update
      naming `id` which no later update names again. */
  lemma {:induction false} LastFlagForIsLast(updates: seq<PaymentFlagUpdateRequest>, id: int)
    requires LastFlagFor(updates, id).Some?
    ensures exists k :: 0 <= k < |updates| && updates[k].id == id
                        && updates[k].paymentFlag == LastFlagFor(updates, id).value
                        && forall j :: k < j < |updates| ==> updates[j].id != id
  {
    var n := |updates|;
    if updates[n - 1].id != id {
      var init := updates[..n - 1];
      LastFlagForIsLast(init, id);
      var k :| 0 <= k < |init| && init[k].id == id && init[k].paymentFlag == LastFlagFor(init, id).value
               && forall j :: k < j < |init| ==> init[j].id != id;
      assert updates[k] == init[k];
      forall j | k < j < n ensures updates[j].id != id {
        if j < n - 1 { assert updates[j] == init[j]; }
      }
    }
  }

  /** A row's flag after the batch: the last update's flag, if one names
      the row, else the flag it had. */
  function FlagOr(last: Option<bool>, current: bool): bool {
    if last.Some? then last.value else current
  }

  /** The batch's effect row by row: each row's flag becomes that of the
      last update naming its id, if there is one; every other field, and
      every row no update names, is unchanged. */
  lemma {:induction false} ApplyUpdatesEffect(rows: seq<Row>, updates: seq<PaymentFlagUpdateRequest>)
    ensures |ApplyUpdates(rows, updates)| == |rows|
    ensures forall i :: 0 <= i < |rows| ==>
              ApplyUpdates(rows, updates)[i]
              == rows[i].(paymentFlag := FlagOr(LastFlagFor(updates, rows[i].id), rows[i].paymentFlag))
  {
    if |updates| > 0 {
      ApplyUpdatesEffect(rows, updates[..|updates| - 1]);
    }
  }

  /** Applying the same batch twice gives the same table as applying it once. */
  lemma ApplyUpdatesIdempotent(rows: seq<Row>, updates: seq<PaymentFlagUpdateRequest>)
    ensures ApplyUpdates(ApplyUpdates(rows, updates), updates) == ApplyUpdates(rows, updates)
  {
    var once := ApplyUpdates(rows, updates);
    ApplyUpdatesEffect(rows, updates);
    ApplyUpdatesEffect(once, updates);
  }

  lemma {:induction false} LastFlagForRemove(updates: seq<PaymentFlagUpdateRequest>, k: nat, id: int)
    requires k < |updates| && updates[k].id != id
    ensures LastFlagFor(updates[..k] + updates[k + 1..], id) == LastFlagFor(updates, id)
    decreases |updates|
  {
    var rest := updates[..k] + updates[k + 1..];
    var n := |updates|;
    if k == n - 1 {
      assert rest == updates[..n - 1];
    } else {
      assert rest[|rest| - 1] == updates[n - 1];
      assert rest[..|rest| - 1] == updates[..n - 1][..k] + updates[..n - 1][k + 1..];
      LastFlagForRemove(updates[..n - 1], k, id);
    }
  }

  /** An entry whose id has no row changes nothing and stops nothing: the
      batch has the same effect with that entry left out. */
  lemma UnmatchedEntryIsSkipped(rows: seq<Row>, updates: seq<PaymentFlagUpdateRequest>, k: nat)
    requires k < |updates| && !HasId(rows, updates[k].id)
    ensures ApplyUpdates(rows, updates[..k] + updates[k + 1..]) == ApplyUpdates(rows, updates)
  {
    var rest := updates[..k] + updates[k + 1..];
    ApplyUpdatesEffect(rows, updates);
    ApplyUpdatesEffect(rows, rest);
    forall i | 0 <= i < |rows| ensures LastFlagFor(rest, rows[i].id) == LastFlagFor(updates, rows[i].id) {
      LastFlagForRemove(updates, k, rows[i].id);
    }
  }

  /** The handler. Connection-string resolution happens inside the `try`;
      its failure is a 500 before any statement runs. */
  method UpdatePaymentFlags(
    conn: Result<string, Config.ConfigError>,
    updates: Option<seq<PaymentFlagUpdateRequest>>,
    t: Table
  ) returns (o: Outcome<Ack>)
    // a null or empty batch is rejected and changes nothing
    ensures updates.None? || |updates.value| == 0 ==>
              o == Outcome(BadRequest(NoUpdatesMessage), t)
    // a connection failure is a 500 and changes nothing
    ensures updates.Some? && |updates.value| > 0 && conn.Failure? ==>
              o == Outcome(InternalServerError, t)
    ensures o.response.Ok? <==> updates.Some? && |updates.value| > 0 && conn.Success?
    // on success every statement has run, in order, whether or not it matched a row
    ensures o.response.Ok? ==>
              && o.response.body == Ack(FlagsUpdatedMessage)
              && o.table == Table(ApplyUpdates(t.rows, updates.value), t.nextId)
    // row by row: the flag of the last update naming the row's id, all else kept
    ensures o.response.Ok? ==>
              && |o.table.rows| == |t.rows|
              && forall i :: 0 <= i < |t.rows| ==>
                   o.table.rows[i] == t.rows[i].(paymentFlag :=
                     FlagOr(LastFlagFor(updates.value, t.rows[i].id), t.rows[i].paymentFlag))
    ensures !o.response.Ok? ==> o.table == t
  {
    if updates.None? || |updates.value| == 0 {
      return Outcome(BadRequest(NoUpdatesMessage), t);
    }
    if conn.Failure? {
      return Outcome(InternalServerError, t);
    }
    var batch := updates.value;
    var rows := t.rows;
    var i := 0;
    while i < |batch|
      invariant 0 <= i <= |batch|
      invariant rows == ApplyUpdates(t.rows, batch[..i])
    {
      // rows affected == 0 is only logged; the loop goes on
      rows := SetFlag(rows, batch[i].id, batch[i].paymentFlag);
      assert batch[..i + 1][..i] == batch[..i];
      i := i + 1;
    }
    assert batch[..i] == batch;
    ApplyUpdatesEffect(t.rows, batch);
    return Outcome(Ok(Ack(FlagsUpdatedMessage)), Table(rows, t.nextId));
  }
}
