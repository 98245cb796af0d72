/** The `SearchNomikaiEvent` handler: build a conjunctive query from up to
    three optional filters, with `%`-wrapped LIKE parameters for the two
    substring filters, and return the rows it selects. */
module Search {
  import opened Nullable
  import opened Text
  import opened Schema
  import Config

  /** The query-string parameters `eventname`, `eventdate` and `name`;
      a missing parameter is `None`. */
  datatype SearchFilters = SearchFilters(
    eventName: Option<string>,
    eventDate: Option<string>,
    name: Option<string>)

  const NoFilterMessage :=
    "少なくとも1つのクエリパラメータ (eventname, eventdate, または name) が必要です。"
  const BaseQuery := "SELECT * FROM Nomikai WHERE 1=1"

  datatype Column = EventNameColumn | EventDateColumn | ParticipantsColumn

  /** One `AND` term of the WHERE clause: a column compared with a named
      parameter, by `LIKE` or by `=`. */
  datatype Clause =
    | Like(column: Column, param: string)
    | Equals(column: Column, param: string)

  /** A value bound to a named parameter (`cmd.Parameters.AddWithValue`). */
  datatype Binding = Binding(param: string, value: string)

  datatype Query = Query(clauses: seq<Clause>, bindings: seq<Binding>)

  function ColumnName(c: Column): string {
    match c
    case EventNameColumn => "event_name"
    case EventDateColumn => "event_date"
    case ParticipantsColumn => "participants"
  }

  function ClauseSql(c: Clause): string {
    match c
    case Like(col, p) => " AND " + ColumnName(col) + " LIKE " + p
    case Equals(col, p) => " AND " + ColumnName(col) + " = " + p
  }

  /** The SQL text sent to the database. */
  function Sql(q: Query): string {
    BaseQuery + ClausesSql(q.clauses)
  }

  function ClausesSql(cs: seq<Clause>): string {
    if |cs| == 0 then "" else ClauseSql(cs[0]) + ClausesSql(cs[1..])
  }

  /** A LIKE parameter that matches `v` anywhere in the column. */
  function Wrap(v: string): string {
    "%" + v + "%"
  }

  /** The clause and binding a filter contributes: nothing when the filter
      is null or empty. */
  function Optional<T>(filter: Option<string>, item: T): seq<T> {
    if IsNullOrEmpty(filter) then [] else [item]
  }

  predicate NoFilter(f: SearchFilters) {
    IsNullOrEmpty(f.eventName) && IsNullOrEmpty(f.eventDate) && IsNullOrEmpty(f.name)
  }

  /** Each clause's parameter is the one bound beside it. */
  predicate Paired(cs: seq<Clause>, bs: seq<Binding>) {
    |cs| == |bs| && forall k :: 0 <= k < |cs| ==> cs[k].param == bs[k].param
  }

  /** The clauses name their columns in the order event_name, event_date,
      participants, each at most once. */
  predicate InColumnOrder(cs: seq<Clause>) {
    forall j, k :: 0 <= j < k < |cs| ==> ColumnRank(cs[j].column) < ColumnRank(cs[k].column)
  }

  /** Every clause of `cs` is on column `c`. */
  predicate OnColumn(cs: seq<Clause>, c: Column) {
    forall k :: 0 <= k < |cs| ==> cs[k].column == c
  }

  /** Gluing the three filters' contributions keeps clauses and bindings
      paired and the columns in order. */
  lemma JoinParts(nc: seq<Clause>, dc: seq<Clause>, pc: seq<Clause>,
                  nb: seq<Binding>, db: seq<Binding>, pb: seq<Binding>)
    requires Paired(nc, nb) && Paired(dc, db) && Paired(pc, pb)
    requires |nc| <= 1 && |dc| <= 1 && |pc| <= 1
    requires OnColumn(nc, EventNameColumn) && OnColumn(dc, EventDateColumn) && OnColumn(pc, ParticipantsColumn)
    ensures Paired(nc + dc + pc, nb + db + pb)
    ensures InColumnOrder(nc + dc + pc)
  {
    var cs := nc + dc + pc;
    var bs := nb + db + pb;
    forall k | 0 <= k < |cs| ensures cs[k].param == bs[k].param {
      if k < |nc| { assert cs[k] == nc[k] && bs[k] == nb[k]; }
      else if k < |nc| + |dc| { assert cs[k] == dc[k - |nc|] && bs[k] == db[k - |nc|]; }
      else { assert cs[k] == pc[k - |nc| - |dc|] && bs[k] == pb[k - |nc| - |dc|]; }
    }
    forall k | 0 <= k < |cs|
      ensures ColumnRank(cs[k].column) == if k < |nc| then 0 else if k < |nc| + |dc| then 1 else 2
    {
      if k < |nc| { assert cs[k] == nc[k]; }
      else if k < |nc| + |dc| { assert cs[k] == dc[k - |nc|]; }
      else { assert cs[k] == pc[k - |nc| - |dc|]; }
    }
  }

  /** The query the handler sends: the base `SELECT` with one `AND` term per
      given filter, and its parameters; or the rejection when no filter is
      given. */
  function BuildQuery(f: SearchFilters): (r: Result<Query, string>)
    ensures r.Failure? <==> NoFilter(f)
    ensures r.Failure? ==> r.error == NoFilterMessage
    ensures r.Success? ==>
              && |r.value.clauses| > 0
              && Paired(r.value.clauses, r.value.bindings)
              && InColumnOrder(r.value.clauses)
  {
    if NoFilter(f) then Failure(NoFilterMessage)
    else
      var nc := Optional(f.eventName, Like(EventNameColumn, "@EventName"));
      var dc := Optional(f.eventDate, Equals(EventDateColumn, "@EventDate"));
      var pc := Optional(f.name, Like(ParticipantsColumn, "@Name"));
      var nb := Optional(f.eventName, Binding("@EventName", Wrap(OrEmpty(f.eventName))));
      var db := Optional(f.eventDate, Binding("@EventDate", OrEmpty(f.eventDate)));
      var pb := Optional(f.name, Binding("@Name", Wrap(OrEmpty(f.name))));
      JoinParts(nc, dc, pc, nb, db, pb);
      Success(Query(nc + dc + pc, nb + db + pb))
  }

  function ColumnRank(c: Column): nat {
    match c
    case EventNameColumn => 0
    case EventDateColumn => 1
    case ParticipantsColumn => 2
  }

  // ---------------------------------------------------------------------
  // What the query means
  // ---------------------------------------------------------------------

  function Field(row: Row, c: Column): string {
    match c
    case EventNameColumn => row.eventName
    case EventDateColumn => row.eventDate
    case ParticipantsColumn => row.participants
  }

  /** The value bound to `param`, if any. */
  function Lookup(bs: seq<Binding>, param: string): Option<string> {
    if |bs| == 0 then None
    else if bs[0].param == param then Some(bs[0].value)
    else Lookup(bs[1..], param)
  }

  /** `field LIKE pattern` for the patterns this handler builds, `%v%`:
      `v` occurs in `field`. The characters of `v` are taken literally. */
  predicate LikeWrapped(field: string, pattern: string) {
    && |pattern| >= 2 && pattern[0] == '%' && pattern[|pattern| - 1] == '%'
    && Contains(field, pattern[1..|pattern| - 1])
  }

  predicate ClauseHolds(c: Clause, bs: seq<Binding>, row: Row) {
    var v := Lookup(bs, c.param);
    && v.Some?
    && match c
       case Like(col, _) => LikeWrapped(Field(row, col), v.value)
       case Equals(col, _) => Field(row, col) == v.value
  }

  /** The WHERE clause `1=1 AND …` holds of `row`. */
  predicate Selects(q: Query, row: Row) {
    AllHold(q.clauses, q.bindings, row)
  }

  /** The intended meaning of the filters: every given filter holds, the
      name filters by substring and the date filter by equality. */
  predicate RowMatches(f: SearchFilters, row: Row) {
    && (IsNullOrEmpty(f.eventName) || Contains(row.eventName, f.eventName.value))
    && (IsNullOrEmpty(f.eventDate) || row.eventDate == f.eventDate.value)
    && (IsNullOrEmpty(f.name) || Contains(row.participants, f.name.value))
  }

  lemma {:induction false} LookupAppend(a: seq<Binding>, b: seq<Binding>, param: string)
    ensures Lookup(a + b, param) == if Lookup(a, param).Some? then Lookup(a, param) else Lookup(b, param)
  {
    if |a| > 0 {
      assert (a + b)[1..] == a[1..] + b;
      LookupAppend(a[1..], b, param);
    } else {
      assert a + b == b;
    }
  }

  predicate AllHold(cs: seq<Clause>, bs: seq<Binding>, row: Row) {
    forall k :: 0 <= k < |cs| ==> ClauseHolds(cs[k], bs, row)
  }

  lemma AllHoldAppend(a: seq<Clause>, b: seq<Clause>, bs: seq<Binding>, row: Row)
    ensures AllHold(a + b, bs, row) <==> AllHold(a, bs, row) && AllHold(b, bs, row)
  {
    if AllHold(a, bs, row) && AllHold(b, bs, row) {
      forall k | 0 <= k < |a + b| ensures ClauseHolds((a + b)[k], bs, row) {
        if k >= |a| { assert (a + b)[k] == b[k - |a|]; }
      }
    }
    if AllHold(a + b, bs, row) {
      forall k | 0 <= k < |a| ensures ClauseHolds(a[k], bs, row) {
        assert (a + b)[k] == a[k];
      }
      forall k | 0 <= k < |b| ensures ClauseHolds(b[k], bs, row) {
        assert (a + b)[|a| + k] == b[k];
      }
    }
  }

  /** A given LIKE filter holds exactly when its value occurs in the column. */
  lemma LikeClauseMeans(col: Column, param: string, bs: seq<Binding>, v: string, row: Row)
    requires Lookup(bs, param) == Some(Wrap(v))
    ensures ClauseHolds(Like(col, param), bs, row) <==> Contains(Field(row, col), v)
  {
    var w := Wrap(v);
    assert w[1..|w| - 1] == v;
  }

  /** The parameter a filter binds: its value wrapped in `%` for the two
      substring filters, verbatim for the date. */
  function BoundValue(f: SearchFilters, param: string): Option<string> {
    if param == "@EventName" && !IsNullOrEmpty(f.eventName) then Some(Wrap(f.eventName.value))
    else if param == "@EventDate" && !IsNullOrEmpty(f.eventDate) then Some(f.eventDate.value)
    else if param == "@Name" && !IsNullOrEmpty(f.name) then Some(Wrap(f.name.value))
    else None
  }

  /** How many of the three filters are given. */
  function GivenCount(f: SearchFilters): nat {
    (if IsNullOrEmpty(f.eventName) then 0 else 1)
    + (if IsNullOrEmpty(f.eventDate) then 0 else 1)
    + (if IsNullOrEmpty(f.name) then 0 else 1)
  }

  /** One clause per given filter, none for a null or empty one; every
      parameter is bound to the filter's value (wrapped for LIKE) and no
      other parameter is bound. */
  lemma BindingsFollowFilters(f: SearchFilters, param: string)
    requires !NoFilter(f)
    ensures |BuildQuery(f).value.clauses| == GivenCount(f)
    ensures Lookup(BuildQuery(f).value.bindings, param) == BoundValue(f, param)
  {
    var bs := BuildQuery(f).value.bindings;
    var nb := Optional(f.eventName, Binding("@EventName", Wrap(OrEmpty(f.eventName))));
    var db := Optional(f.eventDate, Binding("@EventDate", OrEmpty(f.eventDate)));
    var pb := Optional(f.name, Binding("@Name", Wrap(OrEmpty(f.name))));
    assert bs == nb + db + pb;
    LookupAppend(nb + db, pb, param);
    LookupAppend(nb, db, param);
  }

  /** A filter's optional clause holds exactly when the filter is absent or
      its one clause holds. */
  lemma OptionalClauseMeans(filter: Option<string>, c: Clause, bs: seq<Binding>, row: Row, holds: bool)
    requires !IsNullOrEmpty(filter) ==> (ClauseHolds(c, bs, row) <==> holds)
    ensures AllHold(Optional(filter, c), bs, row) <==> (IsNullOrEmpty(filter) || holds)
  {
    if !IsNullOrEmpty(filter) {
      assert Optional(filter, c)[0] == c;
    }
  }

  /** The built query selects exactly the rows the filters describe. */
  lemma QueryMeansFilters(f: SearchFilters, row: Row)
    requires !NoFilter(f)
    ensures Selects(BuildQuery(f).value, row) <==> RowMatches(f, row)
  {
    var q := BuildQuery(f).value;
    var bs := q.bindings;
    var nc := Optional(f.eventName, Like(EventNameColumn, "@EventName"));
    var dc := Optional(f.eventDate, Equals(EventDateColumn, "@EventDate"));
    var pc := Optional(f.name, Like(ParticipantsColumn, "@Name"));
    assert q.clauses == nc + dc + pc;
    AllHoldAppend(nc + dc, pc, bs, row);
    AllHoldAppend(nc, dc, bs, row);
    BindingsFollowFilters(f, "@EventName");
    BindingsFollowFilters(f, "@EventDate");
    BindingsFollowFilters(f, "@Name");
    if !IsNullOrEmpty(f.eventName) {
      LikeClauseMeans(EventNameColumn, "@EventName", bs, f.eventName.value, row);
    }
    if !IsNullOrEmpty(f.name) {
      LikeClauseMeans(ParticipantsColumn, "@Name", bs, f.name.value, row);
    }
    OptionalClauseMeans(f.eventName, Like(EventNameColumn, "@EventName"), bs, row,
                        !IsNullOrEmpty(f.eventName) && Contains(row.eventName, f.eventName.value));
    OptionalClauseMeans(f.eventDate, Equals(EventDateColumn, "@EventDate"), bs, row,
                        !IsNullOrEmpty(f.eventDate) && row.eventDate == f.eventDate.value);
    OptionalClauseMeans(f.name, Like(ParticipantsColumn, "@Name"), bs, row,
                        !IsNullOrEmpty(f.name) && Contains(row.participants, f.name.value));
  }

  /** The rows of `rows` the query selects, each as often as it is stored.
      The model lists them in storage order; the handler sends no
      `ORDER BY`, so the order is the database's choice. */
  function Run(q: Query, rows: seq<Row>): (r: seq<Row>)
    ensures |r| <= |rows|
    ensures forall x :: x in r <==> x in rows && Selects(q, x)
    ensures forall x :: multiset(r)[x] == if Selects(q, x) then multiset(rows)[x] else 0
  {
    if |rows| == 0 then []
    else
      assert rows == [rows[0]] + rows[1..];
      if Selects(q, rows[0]) then [rows[0]] + Run(q, rows[1..])
      else Run(q, rows[1..])
  }

  /** The date filter converts to the `event_date` column's type, as SQL
      Server must do to compare `event_date = @EventDate`; `isDate` says
      which texts convert. */
  predicate DateConverts(f: SearchFilters, isDate: string -> bool) {
    IsNullOrEmpty(f.eventDate) || isDate(f.eventDate.value)
  }

  /** The handler. The search never changes the table. `isDate` is SQL
      Server's conversion of text to the date column's type: a date filter
      it rejects makes the query fail when it runs, inside the `try`. */
  function SearchNomikaiEvent(
    conn: Result<string, Config.ConfigError>,
    isDate: string -> bool,
    f: SearchFilters,
    t: Table
  ): (r: Response<seq<Row>>)
    // no filter at all is rejected
    ensures NoFilter(f) ==> r == BadRequest(NoFilterMessage)
    // a connection failure is a 500
    ensures !NoFilter(f) && conn.Failure? ==> r == InternalServerError
    // a date filter that does not convert fails the query: a 500
    ensures !NoFilter(f) && !DateConverts(f, isDate) ==> r == InternalServerError
    ensures r.Ok? <==> !NoFilter(f) && conn.Success? && DateConverts(f, isDate)
    // the answer holds exactly the stored rows that match every given filter,
    // each as often as it is stored
    ensures r.Ok? ==> forall x :: x in r.body <==> x in t.rows && RowMatches(f, x)
    ensures r.Ok? ==> forall x :: multiset(r.body)[x] == if RowMatches(f, x) then multiset(t.rows)[x] else 0
  {
    match BuildQuery(f)
    case Failure(message) => BadRequest(message)
    case Success(q) =>
      if conn.Failure? || !DateConverts(f, isDate) then InternalServerError
      else
        var found := Run(q, t.rows);
        assert forall x :: Selects(q, x) <==> RowMatches(f, x) by {
          forall x ensures Selects(q, x) <==> RowMatches(f, x) { QueryMeansFilters(f, x); }
        }
        Ok(found)
  }
}
