/**
 * Ticket changes of the Trac accessor (accessor/trac/ticketChange.go): the
 * SQL fragments that select and order ticket fields, the synthetic initial
 * changes derived from the first recorded change of a field or else from
 * the ticket table, and the delivery of initial and recorded changes.
 */
module TicketChanges {
  import opened Wrappers
  import opened Text
  import opened Delivery

  // ---------------------------------------------------------------------
  // SQL fragments.

  lemma OccursLeft(a: String, b: String, w: String)
    requires Occurs(a, w)
    ensures Occurs(a + b, w)
  {
    var i: nat :| i <= |a| && StartsAt(a, i, w);
    assert (a + b)[i..i + |w|] == a[i..i + |w|];
    assert StartsAt(a + b, i, w);
  }

  lemma OccursRight(a: String, b: String, w: String)
    requires Occurs(b, w)
    ensures Occurs(a + b, w)
  {
    var i: nat :| i <= |b| && StartsAt(b, i, w);
    assert (a + b)[|a| + i..|a| + i + |w|] == b[i..i + |w|];
    assert StartsAt(a + b, |a| + i, w);
  }

  lemma OccursWhole(w: String)
    ensures Occurs(w, w)
  {
    assert w[0..|w|] == w;
    assert StartsAt(w, 0, w);
  }

  function Quoted(field: String): String { "'" + field + "'" }

  /** The fields quoted and separated by `, `. */
  function QuotedList(fields: seq<String>): String
  {
    if fields == [] then ""
    else if |fields| == 1 then Quoted(fields[0])
    else QuotedList(fields[..|fields| - 1]) + ", " + Quoted(fields[|fields| - 1])
  }

  /** The fields as a bracketed SQL list. */
  function FieldList(fields: seq<String>): String { "(" + QuotedList(fields) + ")" }

  /** sqlForFieldList: the fields as an SQL list for an `IN` expression. */
  method SqlForFieldList(fields: seq<String>) returns (sql: String)
    ensures sql == FieldList(fields)
  {
    var list := "";
    var i := 0;
    while i < |fields|
      invariant 0 <= i <= |fields|
      invariant list == QuotedList(fields[..i])
    {
      assert fields[..i + 1][..i] == fields[..i];
      if i > 0 {
        list := list + ", ";
      }
      list := list + "'" + fields[i] + "'";
      i := i + 1;
    }
    assert fields[..i] == fields;
    sql := "(" + list + ")";
  }

  /** Every field appears in the list, quoted. */
  lemma {:induction false} QuotedListHasEachField(fields: seq<String>)
    ensures forall i | 0 <= i < |fields| :: Occurs(QuotedList(fields), Quoted(fields[i]))
    decreases |fields|
  {
    if |fields| == 1 {
      OccursWhole(Quoted(fields[0]));
    } else if |fields| > 1 {
      var n := |fields| - 1;
      var init := fields[..n];
      QuotedListHasEachField(init);
      forall i | 0 <= i < |fields| ensures Occurs(QuotedList(fields), Quoted(fields[i])) {
        if i < n {
          assert init[i] == fields[i];
          OccursLeft(QuotedList(init), ", " + Quoted(fields[n]), Quoted(fields[i]));
          assert QuotedList(init) + ", " + Quoted(fields[n]) == QuotedList(init) + (", " + Quoted(fields[n]));
        } else {
          OccursWhole(Quoted(fields[n]));
          OccursRight(QuotedList(init) + ", ", Quoted(fields[n]), Quoted(fields[n]));
        }
      }
    }
  }

  /** The empty list is `()`, and every field appears in the list single-quoted. */
  lemma FieldListShape(fields: seq<String>)
    ensures fields == [] ==> FieldList(fields) == "()"
    ensures forall i | 0 <= i < |fields| :: Occurs(FieldList(fields), Quoted(fields[i]))
  {
    QuotedListHasEachField(fields);
    forall i | 0 <= i < |fields| ensures Occurs("(" + QuotedList(fields) + ")", Quoted(fields[i])) {
      OccursRight("(", QuotedList(fields), Quoted(fields[i]));
      OccursLeft("(" + QuotedList(fields), ")", Quoted(fields[i]));
    }
  }

  /** One case of the ordering expression: field `field` sorts at `index`. */
  function WhenThen(field: String, index: nat): String {
    " WHEN '" + field + "' THEN " + NatToString(index)
  }

  /** The cases for the first `n` fields. */
  function OrderingCases(fields: seq<String>, n: nat): String
    requires n <= |fields|
  {
    if n == 0 then "" else OrderingCases(fields, n - 1) + WhenThen(fields[n - 1], n - 1)
  }

  /** sqlForFieldOrdering: a CASE expression giving each field its index in the list. */
  method SqlForFieldOrdering(fields: seq<String>) returns (sql: String)
    ensures sql == "CASE field" + OrderingCases(fields, |fields|) + " END"
  {
    var cases := "";
    var i := 0;
    while i < |fields|
      invariant 0 <= i <= |fields|
      invariant cases == OrderingCases(fields, i)
    {
      var indexStr := NatToString(i);
      AppendWhenThen(cases, fields[i], i);
      cases := cases + " WHEN '" + fields[i] + "' THEN " + indexStr;
      i := i + 1;
    }
    sql := "CASE field" + cases + " END";
  }

  lemma AppendWhenThen(cases: String, field: String, index: nat)
    ensures cases + " WHEN '" + field + "' THEN " + NatToString(index) == cases + WhenThen(field, index)
  {
  }

  /** The field at index `i` is sent to `THEN i`, and `i` reads back as the index. */
  lemma {:induction false} OrderingCasesMapIndex(fields: seq<String>, n: nat)
    requires n <= |fields|
    ensures forall i | 0 <= i < n :: Occurs(OrderingCases(fields, n), WhenThen(fields[i], i))
    ensures forall i | 0 <= i < n :: DecimalValue(NatToString(i)) == i
    decreases n
  {
    if n > 0 {
      OrderingCasesMapIndex(fields, n - 1);
      forall i | 0 <= i < n ensures Occurs(OrderingCases(fields, n), WhenThen(fields[i], i)) {
        if i < n - 1 {
          OccursLeft(OrderingCases(fields, n - 1), WhenThen(fields[n - 1], n - 1), WhenThen(fields[i], i));
        } else {
          OccursWhole(WhenThen(fields[i], i));
          OccursRight(OrderingCases(fields, n - 1), WhenThen(fields[i], i), WhenThen(fields[i], i));
        }
      }
      NatToStringValue(n - 1);
    }
  }

  /** sqlForFirstChangeToEachField: source 1, the earliest recorded change of each listed field. */
  function SqlForFirstChangeToEachField(fields: seq<String>): String {
    "\n\t\tSELECT 1 source,\n\t\t\tchg1.field field,\n\t\t\tCOALESCE(chg1.oldvalue, '') value,\n" +
    "\t\t\tMIN(CAST(chg1.time*1e-6 AS int8)) time\n\t\tFROM ticket_change chg1\n" +
    "\t\tWHERE chg1.ticket = $1\n\t\tAND chg1.field IN " + FieldList(fields) + "\n\t\tGROUP BY chg1.field\n\t\t"
  }

  /** The earliest-change query restricts itself to the listed fields, each of which it names. */
  lemma FirstChangeNamesEachField(fields: seq<String>)
    ensures forall i | 0 <= i < |fields| :: Occurs(SqlForFirstChangeToEachField(fields), Quoted(fields[i]))
  {
    FieldListShape(fields);
    var head := "\n\t\tSELECT 1 source,\n\t\t\tchg1.field field,\n\t\t\tCOALESCE(chg1.oldvalue, '') value,\n" +
      "\t\t\tMIN(CAST(chg1.time*1e-6 AS int8)) time\n\t\tFROM ticket_change chg1\n" +
      "\t\tWHERE chg1.ticket = $1\n\t\tAND chg1.field IN ";
    forall i | 0 <= i < |fields| ensures Occurs(SqlForFirstChangeToEachField(fields), Quoted(fields[i])) {
      OccursRight(head, FieldList(fields), Quoted(fields[i]));
      OccursLeft(head + FieldList(fields), "\n\t\tGROUP BY chg1.field\n\t\t", Quoted(fields[i]));
    }
  }

  /** The table alias of the field at `fieldIndex`: `t<index>`. */
  function TableAlias(fieldIndex: int): String { "t" + IntToString(fieldIndex) }

  function SelectSourceTwo(field: String): String {
    "\n\t\tSELECT 2 source,\n\t\t\t'" + field + "' field,\n\t\t\t"
  }

  function CoalesceColumn(table: String, field: String): String {
    "COALESCE(" + table + "." + field + ", '') value"
  }

  function FromTicket(table: String): String { "FROM ticket " + table + "\n" }

  /** sqlForTicketTableField: source 2, the field's value in the ticket table under the alias `t<index>`. */
  function SqlForTicketTableField(fieldIndex: int, field: String): String {
    var table := TableAlias(fieldIndex);
    SelectSourceTwo(field) + CoalesceColumn(table, field) + ",\n\t\t\t0 time\n\t\t" + FromTicket(table) + "\t\tWHERE id=$1\n\t\t"
  }

  lemma HasPrefixLeft(a: String, b: String, w: String)
    requires HasPrefix(a, w)
    ensures HasPrefix(a + b, w)
  {
    assert (a + b)[..|w|] == a[..|w|];
  }

  /**
   * The ticket-table query starts as a source-2 row, reads the field from
   * table `ticket` under the alias `t<index>` (with '' for NULL) and gives
   * time 0.
   */
  lemma TicketTableFieldShape(fieldIndex: int, field: String)
    ensures var sql := SqlForTicketTableField(fieldIndex, field);
      HasPrefix(sql, "\n\t\tSELECT 2 source,") &&
      Occurs(sql, "FROM ticket " + ("t" + IntToString(fieldIndex)) + "\n") &&
      Occurs(sql, "COALESCE(" + ("t" + IntToString(fieldIndex)) + "." + field + ", '') value") &&
      Occurs(sql, ",\n\t\t\t0 time\n\t\t")
  {
    var table := TableAlias(fieldIndex);
    var select := SelectSourceTwo(field);
    var co := CoalesceColumn(table, field);
    var zt := ",\n\t\t\t0 time\n\t\t";
    var fr := FromTicket(table);
    var tail := "\t\tWHERE id=$1\n\t\t";
    assert select[..|"\n\t\tSELECT 2 source,"|] == "\n\t\tSELECT 2 source,";
    HasPrefixLeft(select, co, "\n\t\tSELECT 2 source,");
    HasPrefixLeft(select + co, zt, "\n\t\tSELECT 2 source,");
    HasPrefixLeft(select + co + zt, fr, "\n\t\tSELECT 2 source,");
    HasPrefixLeft(select + co + zt + fr, tail, "\n\t\tSELECT 2 source,");
    OccursWhole(co);
    OccursRight(select, co, co);
    OccursLeft(select + co, zt, co);
    OccursLeft(select + co + zt, fr, co);
    OccursLeft(select + co + zt + fr, tail, co);
    OccursWhole(zt);
    OccursRight(select + co, zt, zt);
    OccursLeft(select + co + zt, fr, zt);
    OccursLeft(select + co + zt + fr, tail, zt);
    OccursWhole(fr);
    OccursRight(select + co + zt, fr, fr);
    OccursLeft(select + co + zt + fr, tail, fr);
  }

  // ---------------------------------------------------------------------
  // Initial changes.

  /** A ticket change as handed to the handler. */
  datatype TicketChange = TicketChange(ticketID: int, changeType: String, author: String, oldValue: String, newValue: String, time: int)

  /** A row of the initial-value query: its source (1 or 2), field and value. */
  datatype InitialRow = InitialRow(source: int, field: String, value: String)

  /** The fields of the source-1 rows among `rows`: the source1Fields map. */
  function SourceOneFields(rows: seq<InitialRow>): set<String> {
    if rows == [] then {}
    else
      var last := rows[|rows| - 1];
      SourceOneFields(rows[..|rows| - 1]) + (if last.source == 1 then {last.field} else {})
  }

  /** Whether a row gives no change, given the source-1 fields seen before it. */
  predicate Skipped(row: InitialRow, seen: set<String>) {
    (row.source == 2 && row.field in seen) || row.value == ""
  }

  function InitialChange(ticketID: int, reporter: String, time: int, row: InitialRow): TicketChange {
    TicketChange(ticketID, row.field, reporter, "", row.value, time)
  }

  /** The initial changes of the rows in order. */
  function InitialChanges(ticketID: int, reporter: String, time: int, rows: seq<InitialRow>): seq<TicketChange> {
    if rows == [] then []
    else
      var init := rows[..|rows| - 1];
      var row := rows[|rows| - 1];
      InitialChanges(ticketID, reporter, time, init) +
        (if Skipped(row, SourceOneFields(init)) then [] else [InitialChange(ticketID, reporter, time, row)])
  }

  lemma InitialStep(ticketID: int, reporter: String, time: int, rows: seq<InitialRow>, i: nat)
    requires i < |rows|
    ensures var init := rows[..i];
      (rows[i].source == 1 ==> SourceOneFields(rows[..i + 1]) == SourceOneFields(init) + {rows[i].field}) &&
      (rows[i].source != 1 ==> SourceOneFields(rows[..i + 1]) == SourceOneFields(init)) &&
      InitialChanges(ticketID, reporter, time, rows[..i + 1]) == InitialChanges(ticketID, reporter, time, init) +
        if Skipped(rows[i], SourceOneFields(init)) then [] else [InitialChange(ticketID, reporter, time, rows[i])]
  {
    assert rows[..i + 1][..i] == rows[..i];
  }

  /** Before any row, no field is known from source 1 and nothing is delivered. */
  lemma NoRowsYet(ticketID: int, reporter: String, time: int, rows: seq<InitialRow>)
    ensures SourceOneFields(rows[..0]) == {} && InitialChanges(ticketID, reporter, time, rows[..0]) == []
  {
    assert rows[..0] == [];
  }

  /**
   * The row loop of getInitialTicketChanges (after the query): each row not
   * skipped is turned into a change from "" to its value, by the reporter at
   * the creation time, and handed to the handler; the first error stops it.
   */
  method GetInitialTicketChanges<E>(ticketID: int, reporter: String, time: int, rows: seq<InitialRow>,
                                    handler: TicketChange -> Option<E>) returns (delivered: seq<TicketChange>, err: Option<E>)
    ensures HandledInOrder(InitialChanges(ticketID, reporter, time, rows), handler, delivered, err)
  {
    var source1Fields: set<String> := {};
    delivered := [];
    var i := 0;
    NoRowsYet(ticketID, reporter, time, rows);
    while i < |rows|
      invariant 0 <= i <= |rows|
      invariant source1Fields == SourceOneFields(rows[..i])
      invariant delivered == InitialChanges(ticketID, reporter, time, rows[..i])
      invariant forall k | 0 <= k < |delivered| :: handler(delivered[k]).None?
    {
      InitialStep(ticketID, reporter, time, rows, i);
      var row := rows[i];
      var skip := false;
      if row.source == 1 {
        source1Fields := source1Fields + {row.field};
      } else if row.source == 2 {
        if row.field in source1Fields {
          skip := true;
        }
      }
      assert source1Fields == SourceOneFields(rows[..i + 1]);
      assert skip || row.value == "" <==> Skipped(row, SourceOneFields(rows[..i]));
      if !skip && row.value != "" {
        var change := TicketChange(ticketID, row.field, reporter, "", row.value, time);
        var outcome := handler(change);
        if outcome.Some? {
          InitialChangesPrefix(ticketID, reporter, time, rows, i + 1);
          StoppedAt(InitialChanges(ticketID, reporter, time, rows), handler, delivered, change);
          return delivered + [change], outcome;
        }
        delivered := delivered + [change];
      }
      i := i + 1;
    }
    assert rows[..i] == rows;
    err := None;
  }

  /** The changes of a prefix of the rows are a prefix of the changes of all rows. */
  lemma {:induction false} InitialChangesPrefix(ticketID: int, reporter: String, time: int, rows: seq<InitialRow>, n: nat)
    requires n <= |rows|
    ensures var all := InitialChanges(ticketID, reporter, time, rows);
      var part := InitialChanges(ticketID, reporter, time, rows[..n]);
      |part| <= |all| && all[..|part|] == part
    decreases |rows| - n
  {
    if n < |rows| {
      InitialChangesPrefix(ticketID, reporter, time, rows, n + 1);
      InitialStep(ticketID, reporter, time, rows, n);
      var x := if Skipped(rows[n], SourceOneFields(rows[..n])) then [] else [InitialChange(ticketID, reporter, time, rows[n])];
      PrefixThroughAppend(InitialChanges(ticketID, reporter, time, rows[..n]), x, InitialChanges(ticketID, reporter, time, rows));
    } else {
      assert rows[..n] == rows;
    }
  }

  /** A prefix of a prefix is a prefix. */
  lemma PrefixThroughAppend(a: seq<TicketChange>, x: seq<TicketChange>, c: seq<TicketChange>)
    requires |a + x| <= |c| && c[..|a + x|] == a + x
    ensures |a| <= |c| && c[..|a|] == a
  {
    assert c[..|a|] == c[..|a + x|][..|a|];
  }

  /**
   * Every initial change goes from "" to a non-empty value, by the reporter,
   * at the ticket's creation time, and belongs to the ticket.
   */
  lemma {:induction false} InitialChangesShape(ticketID: int, reporter: String, time: int, rows: seq<InitialRow>)
    ensures forall c | c in InitialChanges(ticketID, reporter, time, rows) ::
      c.ticketID == ticketID && c.oldValue == "" && c.newValue != "" && c.author == reporter && c.time == time
    decreases |rows|
  {
    if rows != [] {
      InitialChangesShape(ticketID, reporter, time, rows[..|rows| - 1]);
    }
  }

  /** A field is in source1Fields exactly when an earlier row of source 1 named it. */
  lemma {:induction false} SourceOneFieldsSeen(rows: seq<InitialRow>, f: String)
    ensures f in SourceOneFields(rows) <==> exists j | 0 <= j < |rows| :: rows[j].source == 1 && rows[j].field == f
    decreases |rows|
  {
    if rows != [] {
      var n := |rows| - 1;
      SourceOneFieldsSeen(rows[..n], f);
      assert forall j | 0 <= j < n :: rows[..n][j] == rows[j];
      if rows[n].source == 1 && rows[n].field == f {
        assert f in SourceOneFields(rows);
      }
    }
  }

  /**
   * Whether row `i` yields a change, stated over the rows directly: it has a
   * value, and it is not a ticket-table row for a field whose earliest
   * recorded change came before it.
   */
  predicate Kept(rows: seq<InitialRow>, i: nat)
    requires i < |rows|
  {
    rows[i].value != "" &&
    !(rows[i].source == 2 && exists j | 0 <= j < i :: rows[j].source == 1 && rows[j].field == rows[i].field)
  }

  /** The changes of the kept rows among the first `n`, in order. */
  function KeptChanges(ticketID: int, reporter: String, time: int, rows: seq<InitialRow>, n: nat): seq<TicketChange>
    requires n <= |rows|
  {
    if n == 0 then []
    else
      var kept := if Kept(rows, n - 1) then [InitialChange(ticketID, reporter, time, rows[n - 1])] else [];
      KeptChanges(ticketID, reporter, time, rows, n - 1) + kept
  }

  /**
   * The loop's bookkeeping gives exactly the kept rows: a recorded change
   * takes precedence over the ticket table, and empty values are dropped.
   */
  lemma {:induction false} InitialChangesAreKept(ticketID: int, reporter: String, time: int, rows: seq<InitialRow>, n: nat)
    requires n <= |rows|
    ensures InitialChanges(ticketID, reporter, time, rows[..n]) == KeptChanges(ticketID, reporter, time, rows, n)
    decreases n
  {
    if n > 0 {
      InitialChangesAreKept(ticketID, reporter, time, rows, n - 1);
      InitialStep(ticketID, reporter, time, rows, n - 1);
      var init := rows[..n - 1];
      SourceOneFieldsSeen(init, rows[n - 1].field);
      assert forall j | 0 <= j < n - 1 :: init[j] == rows[j];
      assert Skipped(rows[n - 1], SourceOneFields(init)) <==> !Kept(rows, n - 1);
    }
  }

  // ---------------------------------------------------------------------
  // All changes of a ticket.

  /** The row loop of getRecordedTicketChanges (after the query): each change in the given order. */
  method GetRecordedTicketChanges<E>(recorded: seq<TicketChange>, handler: TicketChange -> Option<E>)
    returns (delivered: seq<TicketChange>, err: Option<E>)
    ensures HandledInOrder(recorded, handler, delivered, err)
  {
    delivered := [];
    var i := 0;
    while i < |recorded|
      invariant 0 <= i <= |recorded|
      invariant delivered == recorded[..i]
      invariant forall k | 0 <= k < i :: handler(delivered[k]).None?
    {
      delivered := delivered + [recorded[i]];
      var outcome := handler(recorded[i]);
      if outcome.Some? {
        return delivered, outcome;
      }
      i := i + 1;
    }
    assert recorded[..i] == recorded;
    err := None;
  }

  /**
   * GetTicketChanges: the initial changes, then the recorded ones; an error
   * while delivering initial changes stops everything.
   */
  method GetTicketChanges<E>(ticketID: int, reporter: String, time: int, rows: seq<InitialRow>,
                             recorded: seq<TicketChange>, handler: TicketChange -> Option<E>)
    returns (delivered: seq<TicketChange>, err: Option<E>)
    ensures HandledInOrder(InitialChanges(ticketID, reporter, time, rows) + recorded, handler, delivered, err)
  {
    var initial: seq<TicketChange>;
    initial, err := GetInitialTicketChanges(ticketID, reporter, time, rows, handler);
    if err.Some? {
      var all := InitialChanges(ticketID, reporter, time, rows);
      assert (all + recorded)[..|initial|] == all[..|initial|];
      return initial, err;
    }
    var later: seq<TicketChange>;
    later, err := GetRecordedTicketChanges(recorded, handler);
    HandledInSequence(InitialChanges(ticketID, reporter, time, rows), recorded, handler, initial, None, later, err);
    delivered := initial + later;
  }
}
