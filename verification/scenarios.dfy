/** Concrete cases of the handlers' behaviour, each proved from the
    definitions. */
module Scenarios {
  import opened Nullable
  import opened Text
  import opened Schema
  import Config
  import Registration
  import Search
  import Payments

  const Alice := "Alice"
  const Bob := "Bob"
  const Carol := "Carol"

  /** "Alice、 Bob 、Carol" */
  const ThreeNames := Alice + [IdeographicComma] + " Bob " + [IdeographicComma] + Carol

  /** The list splits into three pieces; the spaces around Bob stay in
      his piece until the trim. */
  lemma SplitThreeNames()
    ensures Registration.ParticipantPieces(ThreeNames) == [Alice, " Bob ", Carol]
  {
    var pieces := [Alice, " Bob ", Carol];
    assert pieces[1..][1..] == [Carol];
    assert Join(pieces[1..][1..], IdeographicComma) == Carol;
    assert Join(pieces[1..], IdeographicComma) == " Bob " + [IdeographicComma] + Carol;
    assert Join(pieces, IdeographicComma) == ThreeNames;
    SplitAllUnique(ThreeNames, IdeographicComma, pieces);
    assert RemoveEmpty(pieces[1..][1..]) == [Carol];
    assert RemoveEmpty(pieces[1..]) == [" Bob ", Carol];
  }

  lemma TrimBob()
    ensures Trim(" Bob ") == Bob
  {
    assert " Bob "[1..] == "Bob ";
    assert LeadingWhiteSpace("Bob ") == 0;
    assert LeadingWhiteSpace(" Bob ") == 1;
    assert "Bob "[..3] == "Bob";
    assert TrailingWhiteSpace("Bob") == 3;
    assert TrailingWhiteSpace("Bob ") == 3;
  }

  /** Trimming removes the spaces around Bob and leaves the others alone. */
  lemma TrimThreeNames()
    ensures Trim(Alice) == Alice && Trim(" Bob ") == Bob && Trim(Carol) == Carol
  {
    TrimFixed(Alice);
    TrimFixed(Carol);
    TrimBob();
  }

  /** The participants of "Alice、 Bob 、Carol": three, trimmed. */
  lemma ThreeNamesParticipants()
    ensures |Registration.ParticipantPieces(ThreeNames)| == 3
    ensures Registration.TrimAll(Registration.ParticipantPieces(ThreeNames)) == [Alice, Bob, Carol]
  {
    SplitThreeNames();
    TrimThreeNames();
  }

  /** A request that passes every check is answered by inserting the
      trimmed pieces with an even share. */
  lemma SaveSucceeds(cs: string, req: Registration.NomikaiEventRequest, t: Table,
                     names: seq<string>, share: real)
    requires req.amount > 0.0 && req.participants.Some?
    requires |Registration.ParticipantPieces(req.participants.value)| > 0
    requires Registration.TrimAll(Registration.ParticipantPieces(req.participants.value)) == names
    requires share == req.amount / (|Registration.ParticipantPieces(req.participants.value)| as real)
    ensures Registration.SaveNomikaiEvent(Success(cs), req, t)
            == Outcome(Ok(Ack(Registration.SavedMessage)), Registration.InsertAll(t, req, names, share))
  {
  }

  /** Three names with their ids and shares, inserted into an empty table. */
  lemma InsertThree(req: Registration.NomikaiEventRequest, a: string, b: string, c: string, share: real)
    ensures Registration.InsertAll(Table([], 1), req, [a, b, c], share).rows == [
              Row(1, req.eventDate, req.eventName, a, share, req.paymentFlag),
              Row(2, req.eventDate, req.eventName, b, share, req.paymentFlag),
              Row(3, req.eventDate, req.eventName, c, share, req.paymentFlag)]
  {
    var rows := Registration.NewRows(1, req, [a, b, c], share);
    assert [] + rows == rows;
  }

  /** Saving "Alice、 Bob 、Carol" with amount 300 into an empty table
      inserts three rows of 100 each, named Alice, Bob and Carol, whatever
      the event's date, name and flag. */
  lemma SaveThreeParticipants(cs: string, req: Registration.NomikaiEventRequest)
    requires req.participants == Some(ThreeNames) && req.amount == 300.0
    ensures var o := Registration.SaveNomikaiEvent(Success(cs), req, Table([], 1));
            && o.response.Ok?
            && o.table.rows == [
                 Row(1, req.eventDate, req.eventName, Alice, 100.0, req.paymentFlag),
                 Row(2, req.eventDate, req.eventName, Bob, 100.0, req.paymentFlag),
                 Row(3, req.eventDate, req.eventName, Carol, 100.0, req.paymentFlag)]
  {
    ThreeNamesParticipants();
    assert 300.0 / 3.0 == 100.0;
    SaveSucceeds(cs, req, Table([], 1), [Alice, Bob, Carol], 100.0);
    InsertThree(req, Alice, Bob, Carol, 100.0);
  }

  /** "A、 、B": the blank middle piece is not empty, so the split keeps it;
      trimming happens afterwards and turns it into an empty name. */
  const BlankInMiddle := "A" + [IdeographicComma] + " " + [IdeographicComma] + "B"

  lemma SplitBlankInMiddle()
    ensures Registration.ParticipantPieces(BlankInMiddle) == ["A", " ", "B"]
  {
    var pieces := ["A", " ", "B"];
    assert pieces[1..][1..] == ["B"];
    assert Join(pieces[1..][1..], IdeographicComma) == "B";
    assert Join(pieces[1..], IdeographicComma) == " " + [IdeographicComma] + "B";
    assert Join(pieces, IdeographicComma) == BlankInMiddle;
    SplitAllUnique(BlankInMiddle, IdeographicComma, pieces);
    assert RemoveEmpty(pieces[1..][1..]) == ["B"];
    assert RemoveEmpty(pieces[1..]) == [" ", "B"];
  }

  lemma TrimBlankInMiddle()
    ensures Registration.TrimAll(["A", " ", "B"]) == ["A", "", "B"]
  {
    TrimFixed("A");
    TrimFixed("B");
    assert LeadingWhiteSpace(" "[1..]) == 0;
    assert LeadingWhiteSpace(" ") == 1;
    assert Trim(" ") == "";
  }

  /** The participants of "A、 、B": three, the middle one blank. */
  lemma BlankInMiddleParticipants()
    ensures |Registration.ParticipantPieces(BlankInMiddle)| == 3
    ensures Registration.TrimAll(Registration.ParticipantPieces(BlankInMiddle)) == ["A", "", "B"]
  {
    SplitBlankInMiddle();
    TrimBlankInMiddle();
  }

  /** Saving "A、 、B" with amount 90 inserts three rows of 30, the middle
      one with an empty name, not two rows of 45. */
  lemma SaveKeepsBlankParticipant(cs: string, req: Registration.NomikaiEventRequest)
    requires req.participants == Some(BlankInMiddle) && req.amount == 90.0
    ensures var o := Registration.SaveNomikaiEvent(Success(cs), req, Table([], 1));
            && o.response.Ok?
            && o.table.rows == [
                 Row(1, req.eventDate, req.eventName, "A", 30.0, req.paymentFlag),
                 Row(2, req.eventDate, req.eventName, "", 30.0, req.paymentFlag),
                 Row(3, req.eventDate, req.eventName, "B", 30.0, req.paymentFlag)]
  {
    BlankInMiddleParticipants();
    assert 90.0 / 3.0 == 30.0;
    SaveSucceeds(cs, req, Table([], 1), ["A", "", "B"], 30.0);
    InsertThree(req, "A", "", "B", 30.0);
  }

  /** A participant list of commas only yields no piece, and the division
      that follows fails. */
  lemma SaveOnlyCommasDividesByZero(
    conn: Result<string, Config.ConfigError>, req: Registration.NomikaiEventRequest, t: Table)
    requires req.participants == Some([IdeographicComma, IdeographicComma]) && req.amount > 0.0
    ensures Registration.SaveNomikaiEvent(conn, req, t) == Outcome(Unhandled(DivideByZero), t)
  {
    var p := [IdeographicComma, IdeographicComma];
    assert forall k :: 0 <= k < |p| ==> p[k] == IdeographicComma;
    NoPiecesIffOnlySeparators(p, IdeographicComma);
  }

  const SpringParty := Row(7, "2024-04-01", "Spring party", "Alice", 100.0, false)
  const Farewell := Row(8, "2024-04-02", "Farewell", "Bob", 50.0, false)
  const SpringOnly := Search.SearchFilters(Some("Spring"), None, Some(""))

  lemma SpringOnlyClauses()
    ensures Search.BuildQuery(SpringOnly).Success?
    ensures Search.BuildQuery(SpringOnly).value.clauses == [Search.Like(Search.EventNameColumn, "@EventName")]
  {
    assert !Search.NoFilter(SpringOnly);
    assert Search.Optional(SpringOnly.eventDate, Search.Equals(Search.EventDateColumn, "@EventDate")) == [];
    assert Search.Optional(SpringOnly.name, Search.Like(Search.ParticipantsColumn, "@Name")) == [];
  }

  lemma SpringOnlyBindings()
    ensures Search.BuildQuery(SpringOnly).Success?
    ensures Search.BuildQuery(SpringOnly).value.bindings == [Search.Binding("@EventName", "%Spring%")]
  {
    assert !Search.NoFilter(SpringOnly);
    assert Search.Wrap("Spring") == "%Spring%";
  }

  lemma EventNameClauseText()
    ensures Search.ClauseSql(Search.Like(Search.EventNameColumn, "@EventName"))
            == " AND event_name LIKE @EventName"
  {
  }

  lemma EventDateClauseText()
    ensures Search.ClauseSql(Search.Equals(Search.EventDateColumn, "@EventDate"))
            == " AND event_date = @EventDate"
  {
  }

  lemma ParticipantsClauseText()
    ensures Search.ClauseSql(Search.Like(Search.ParticipantsColumn, "@Name"))
            == " AND participants LIKE @Name"
  {
  }

  /** `eventname=Spring&name=` binds `%Spring%` to the one clause; the
      empty `name` contributes neither clause nor parameter. */
  lemma SpringOnlySql()
    ensures Search.BuildQuery(SpringOnly) == Success(Search.Query(
              [Search.Like(Search.EventNameColumn, "@EventName")],
              [Search.Binding("@EventName", "%Spring%")]))
    ensures Search.Sql(Search.BuildQuery(SpringOnly).value)
            == Search.BaseQuery + " AND event_name LIKE @EventName"
  {
    SpringOnlyClauses();
    SpringOnlyBindings();
    var c := Search.Like(Search.EventNameColumn, "@EventName");
    var q := Search.BuildQuery(SpringOnly).value;
    assert q.clauses == [c];
    assert [c][1..] == [];
    EventNameClauseText();
    assert Search.ClausesSql([c]) == Search.ClauseSql(c);
    assert Search.Sql(q) == Search.BaseQuery + Search.ClauseSql(c);
  }

  lemma MissingFirstCharacter(hay: string, needle: string)
    requires |needle| > 0 && needle[0] !in hay
    ensures !Contains(hay, needle)
  {
    forall i, j | 0 <= i <= j <= |hay| ensures hay[i..j] != needle {
      if j > i { assert hay[i..j][0] == hay[i]; }
    }
  }

  /** With only `eventname=Spring`, the row whose event name contains
      "Spring" is found whatever its date and participant, and the other
      row is not. */
  lemma SearchByEventNameOnly(cs: string, isDate: string -> bool)
    ensures var r := Search.SearchNomikaiEvent(Success(cs), isDate, SpringOnly, Table([SpringParty, Farewell], 9));
            r.Ok? && SpringParty in r.body && Farewell !in r.body
  {
    assert "Spring party"[0..6] == "Spring";
    assert Search.RowMatches(SpringOnly, SpringParty);
    MissingFirstCharacter("Farewell", "Spring");
    assert !Search.RowMatches(SpringOnly, Farewell);
  }

  /** `eventdate=abc`: the query is built, but the text does not convert
      to a date when it runs, and the handler answers 500. */
  lemma SearchBadDateFails(cs: string, isDate: string -> bool, t: Table)
    requires !isDate("abc")
    ensures Search.SearchNomikaiEvent(Success(cs), isDate, Search.SearchFilters(None, Some("abc"), None), t)
            == InternalServerError
  {
    assert !Search.DateConverts(Search.SearchFilters(None, Some("abc"), None), isDate);
  }

  /** Date only: one equality clause, bound verbatim. */
  lemma SearchByDateOnly()
    ensures var f := Search.SearchFilters(None, Some("2024-04-01"), None);
            Search.BuildQuery(f) == Success(Search.Query(
              [Search.Equals(Search.EventDateColumn, "@EventDate")],
              [Search.Binding("@EventDate", "2024-04-01")]))
  {
    var f := Search.SearchFilters(None, Some("2024-04-01"), None);
    assert !Search.NoFilter(f);
    assert OrEmpty(f.eventDate) == "2024-04-01";
    assert Search.Optional(f.eventName, Search.Like(Search.EventNameColumn, "@EventName")) == [];
    assert Search.Optional(f.name, Search.Like(Search.ParticipantsColumn, "@Name")) == [];
    assert Search.Optional(f.eventName, Search.Binding("@EventName", Search.Wrap(OrEmpty(f.eventName)))) == [];
    assert Search.Optional(f.name, Search.Binding("@Name", Search.Wrap(OrEmpty(f.name)))) == [];
    assert Search.BuildQuery(f).Success?;
    assert Search.BuildQuery(f).value.clauses == [Search.Equals(Search.EventDateColumn, "@EventDate")];
    assert Search.BuildQuery(f).value.bindings == [Search.Binding("@EventDate", "2024-04-01")];
  }

  const AllThree := Search.SearchFilters(Some("Spring"), Some("2024-04-01"), Some("Bob"))

  lemma AllThreeClauses()
    ensures Search.BuildQuery(AllThree).Success?
    ensures Search.BuildQuery(AllThree).value.clauses == [
              Search.Like(Search.EventNameColumn, "@EventName"),
              Search.Equals(Search.EventDateColumn, "@EventDate"),
              Search.Like(Search.ParticipantsColumn, "@Name")]
  {
    assert !Search.NoFilter(AllThree);
  }

  /** All three filters: three clauses in the order name, date, participant. */
  lemma SearchAllFilters()
    ensures Search.Sql(Search.BuildQuery(AllThree).value)
            == Search.BaseQuery + (" AND event_name LIKE @EventName"
               + (" AND event_date = @EventDate" + " AND participants LIKE @Name"))
  {
    var c0 := Search.Like(Search.EventNameColumn, "@EventName");
    var c1 := Search.Equals(Search.EventDateColumn, "@EventDate");
    var c2 := Search.Like(Search.ParticipantsColumn, "@Name");
    var cs := [c0, c1, c2];
    AllThreeClauses();
    EventNameClauseText();
    EventDateClauseText();
    ParticipantsClauseText();
    assert cs[1..][1..][1..] == [];
    assert cs[1..][1..] == [c2];
    assert Search.ClausesSql([c2]) == Search.ClauseSql(c2);
    assert Search.ClausesSql(cs[1..]) == Search.ClauseSql(c1) + Search.ClauseSql(c2);
    assert Search.ClausesSql(cs) == Search.ClauseSql(c0) + (Search.ClauseSql(c1) + Search.ClauseSql(c2));
  }

  /** `[{id: 1, paymentFlag: true}, {id: 9999, paymentFlag: true}]` when no
      row has id 9999: row 1 is marked paid and the call still succeeds. */
  lemma UpdateWithUnknownId(cs: string)
    ensures var row := Row(1, "2024-04-01", "Spring", "Alice", 100.0, false);
            var batch := [Payments.PaymentFlagUpdateRequest(1, true), Payments.PaymentFlagUpdateRequest(9999, true)];
            Payments.ApplyUpdates([row], batch) == [row.(paymentFlag := true)]
  {
    var row := Row(1, "2024-04-01", "Spring", "Alice", 100.0, false);
    var batch := [Payments.PaymentFlagUpdateRequest(1, true), Payments.PaymentFlagUpdateRequest(9999, true)];
    assert batch[..1] == [batch[0]];
    assert batch[..1][..0] == [];
    assert Payments.ApplyUpdates([row], batch[..1][..0]) == [row];
    assert Payments.ApplyUpdates([row], batch[..1]) == [row.(paymentFlag := true)];
    assert !HasId([row.(paymentFlag := true)], 9999);
  }
}
