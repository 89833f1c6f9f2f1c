/** Moving the denormalised result tables over to series, in one transaction. */
module Migration {
  import opened Common

  /** The columns of result_series other than its id. */
  datatype Series = Series(agent: Text, agentIP: Text, target: Text, address: Text, port: int, labels: Text)

  datatype SeriesRow = SeriesRow(id: nat, series: Series)

  /**
   * A row of a denormalised table; any of its columns may be NULL.
   * The columns copied as they are make up the payload, None if one that must not be NULL is.
   */
  datatype OldRow = OldRow(
    id: int, agent: Option<Text>, agentIP: Option<Text>, target: Option<Text>, address: Option<Text>,
    port: Option<int>, labels: Option<Text>, payload: Option<int>)

  datatype NewRow = NewRow(id: int, seriesId: nat, payload: int)

  /** A results or result_rollups table. Old ones may predate the agent_ip column. */
  datatype Table = Missing | Old(rows: seq<OldRow>, hasAgentIP: bool) | New(moved: seq<NewRow>)

  datatype Database = Database(
    results: Table, rollups: Table, series: Option<seq<SeriesRow>>, hasStatuses: bool, hasSequence: bool)

  // ----- What the tables say

  /** A row as it is read: its series spelled out. */
  datatype Reading = Reading(id: int, series: Series, payload: Option<int>)

  /** COALESCE(x, '') */
  function OrEmpty(x: Option<Text>): Text {
    match x case None => EMPTY_TEXT case Some(text) => text
  }

  /** The series a row names, if none of the columns that must not be NULL is. */
  function SeriesOf(r: OldRow, hasAgentIP: bool): Option<Series> {
    if r.agent.None? || r.target.None? || r.address.None? || r.port.None? then None
    else Some(Series(
      r.agent.value, if hasAgentIP then OrEmpty(r.agentIP) else EMPTY_TEXT,
      r.target.value, r.address.value, r.port.value, OrEmpty(r.labels)))
  }

  function ReadOld(rows: seq<OldRow>, hasAgentIP: bool): seq<Reading> {
    if rows == [] then []
    else
      var front, last := ReadOld(rows[..|rows| - 1], hasAgentIP), rows[|rows| - 1];
      match SeriesOf(last, hasAgentIP)
      case None => front
      case Some(series) => front + [Reading(last.id, series, last.payload)]
  }

  /** The series with this id. */
  function ById(series: seq<SeriesRow>, id: nat): Option<Series> {
    if series == [] then None
    else if series[|series| - 1].id == id then Some(series[|series| - 1].series)
    else ById(series[..|series| - 1], id)
  }

  /** JOIN result_series rs ON rs.id = r.series_id */
  function ReadNew(rows: seq<NewRow>, series: seq<SeriesRow>): seq<Reading> {
    if rows == [] then []
    else
      var front, last := ReadNew(rows[..|rows| - 1], series), rows[|rows| - 1];
      match ById(series, last.seriesId)
      case None => front
      case Some(s) => front + [Reading(last.id, s, Some(last.payload))]
  }

  function SeriesRows(db: Database): seq<SeriesRow> {
    match db.series case None => [] case Some(rows) => rows
  }

  function Read(t: Table, series: seq<SeriesRow>): seq<Reading> {
    match t
    case Missing => []
    case Old(rows, hasAgentIP) => ReadOld(rows, hasAgentIP)
    case New(rows) => ReadNew(rows, series)
  }

  // ----- The statements

  /** The id of the row with this series, as UNIQUE makes it the only one. */
  function IdOf(series: seq<SeriesRow>, s: Series): Option<nat> {
    if series == [] then None
    else if series[|series| - 1].series == s then Some(series[|series| - 1].id)
    else IdOf(series[..|series| - 1], s)
  }

  /** An INTEGER PRIMARY KEY that is left out becomes one more than the largest. */
  function NextId(series: seq<SeriesRow>): nat {
    if series == [] then 1
    else
      var front, last := NextId(series[..|series| - 1]), series[|series| - 1].id;
      if last + 1 > front then last + 1 else front
  }

  /** INSERT OR IGNORE ... SELECT DISTINCT: NULLs and series already there are ignored. */
  function WithSeries(series: seq<SeriesRow>, rows: seq<OldRow>, hasAgentIP: bool): seq<SeriesRow> {
    if rows == [] then series
    else
      var front := WithSeries(series, rows[..|rows| - 1], hasAgentIP);
      match SeriesOf(rows[|rows| - 1], hasAgentIP)
      case None => front
      case Some(s) => if IdOf(front, s).Some? then front else front + [SeriesRow(NextId(front), s)]
  }

  /** INSERT ... SELECT ... JOIN on all six columns, of which a NULL equals nothing. Fails on a NULL payload. */
  function Moved(rows: seq<OldRow>, hasAgentIP: bool, series: seq<SeriesRow>): Option<seq<NewRow>> {
    if rows == [] then Some([])
    else
      var last := rows[|rows| - 1];
      match Moved(rows[..|rows| - 1], hasAgentIP, series)
      case None => None
      case Some(front) =>
        match SeriesOf(last, hasAgentIP)
        case None => Some(front)
        case Some(s) =>
          match IdOf(series, s)
          case None => Some(front)
          case Some(id) => if last.payload.None? then None else Some(front + [NewRow(last.id, id, last.payload.value)])
  }

  // ----- Series only grow

  lemma {:induction false} NextIdIsNew(series: seq<SeriesRow>)
    ensures forall i :: 0 <= i < |series| ==> series[i].id < NextId(series)
    ensures NextId(series) == 1 || exists i :: 0 <= i < |series| && NextId(series) == series[i].id + 1
  {
    if series != [] {
      NextIdIsNew(series[..|series| - 1]);
    }
  }

  /** The primary key and the unique constraint of result_series. */
  predicate Unique(series: seq<SeriesRow>) {
    series != [] ==>
      var front, last := series[..|series| - 1], series[|series| - 1];
      && Unique(front)
      && ById(front, last.id).None?
      && IdOf(front, last.series).None?
  }

  lemma {:induction false} ByIdFrom(series: seq<SeriesRow>, id: nat)
    ensures ById(series, id).Some? ==> exists i :: 0 <= i < |series| && series[i].id == id
  {
    if series != [] && series[|series| - 1].id != id {
      ByIdFrom(series[..|series| - 1], id);
    }
  }

  lemma FreshId(series: seq<SeriesRow>)
    ensures ById(series, NextId(series)).None?
  {
    NextIdIsNew(series);
    ByIdFrom(series, NextId(series));
  }

  /** Looking a series up by the id found for it gives it back. */
  lemma {:induction false} LookupRoundTrip(series: seq<SeriesRow>, s: Series)
    requires Unique(series) && IdOf(series, s).Some?
    ensures ById(series, IdOf(series, s).value) == Some(s)
  {
    var front, last := series[..|series| - 1], series[|series| - 1];
    if last.series != s {
      LookupRoundTrip(front, s);
    }
  }

  /** Every series of a is in b under the same id, and every id of a means the same in b. */
  ghost predicate Extends(a: seq<SeriesRow>, b: seq<SeriesRow>) {
    && (forall s :: IdOf(a, s).Some? ==> IdOf(b, s) == IdOf(a, s))
    && (forall id :: ById(a, id).Some? ==> ById(b, id) == ById(a, id))
  }

  lemma AppendExtends(series: seq<SeriesRow>, s: Series)
    requires Unique(series) && IdOf(series, s).None?
    ensures var longer := series + [SeriesRow(NextId(series), s)];
      Unique(longer) && Extends(series, longer) && IdOf(longer, s).Some?
  {
    var longer := series + [SeriesRow(NextId(series), s)];
    assert longer[..|series|] == series;
    FreshId(series);
  }

  /** Every series named by the rows has an id. */
  predicate Covered(rows: seq<OldRow>, hasAgentIP: bool, series: seq<SeriesRow>) {
    forall i :: 0 <= i < |rows| && SeriesOf(rows[i], hasAgentIP).Some? ==>
      IdOf(series, SeriesOf(rows[i], hasAgentIP).value).Some?
  }

  /** All series named by the rows are there afterwards; what was there before is unchanged. */
  lemma {:induction false} WithSeriesExtends(series: seq<SeriesRow>, rows: seq<OldRow>, hasAgentIP: bool)
    requires Unique(series)
    ensures var all := WithSeries(series, rows, hasAgentIP);
      Unique(all) && Extends(series, all) && Covered(rows, hasAgentIP, all)
  {
    hide Unique, Extends, Covered, IdOf, ById, SeriesOf;
    var all := WithSeries(series, rows, hasAgentIP);
    if rows == [] {
      ExtendsItself(series);
      NothingCovered(hasAgentIP, series);
    } else {
      var front := WithSeries(series, rows[..|rows| - 1], hasAgentIP);
      WithSeriesExtends(series, rows[..|rows| - 1], hasAgentIP);
      ExtendsItself(front);
      var last := SeriesOf(rows[|rows| - 1], hasAgentIP);
      if last.Some? && IdOf(front, last.value).None? {
        AppendExtends(front, last.value);
      }
      ExtendsTwice(series, front, all);
      CoverLast(rows, hasAgentIP, front, all);
    }
  }

  lemma NothingCovered(hasAgentIP: bool, series: seq<SeriesRow>)
    ensures Covered([], hasAgentIP, series)
  {
  }

  lemma CoverLast(rows: seq<OldRow>, hasAgentIP: bool, before: seq<SeriesRow>, all: seq<SeriesRow>)
    requires rows != [] && Covered(rows[..|rows| - 1], hasAgentIP, before) && Extends(before, all)
    requires var s := SeriesOf(rows[|rows| - 1], hasAgentIP); s.Some? ==> IdOf(all, s.value).Some?
    ensures Covered(rows, hasAgentIP, all)
  {
    hide IdOf, ById, SeriesOf;
    var front := rows[..|rows| - 1];
    forall i | 0 <= i < |rows| && SeriesOf(rows[i], hasAgentIP).Some?
      ensures IdOf(all, SeriesOf(rows[i], hasAgentIP).value).Some?
    {
      assert i < |front| ==> front[i] == rows[i] && IdOf(before, SeriesOf(front[i], hasAgentIP).value).Some?;
    }
  }

  lemma ExtendsItself(a: seq<SeriesRow>)
    ensures Extends(a, a)
  {
  }

  lemma ExtendsTwice(a: seq<SeriesRow>, b: seq<SeriesRow>, c: seq<SeriesRow>)
    requires Extends(a, b) && Extends(b, c)
    ensures Extends(a, c)
  {
    hide IdOf, ById;
  }

  /** And no others: every series is one that was there, or is named by a row. */
  lemma {:induction false} NoOtherSeries(series: seq<SeriesRow>, rows: seq<OldRow>, hasAgentIP: bool, s: Series)
    requires Unique(series) && IdOf(WithSeries(series, rows, hasAgentIP), s).Some?
    ensures IdOf(series, s).Some? || exists i :: 0 <= i < |rows| && SeriesOf(rows[i], hasAgentIP) == Some(s)
  {
    hide Unique, ById, SeriesOf, IdOf;
    if rows != [] {
      var front, last := WithSeries(series, rows[..|rows| - 1], hasAgentIP), SeriesOf(rows[|rows| - 1], hasAgentIP);
      if IdOf(front, s).Some? {
        NoOtherSeries(series, rows[..|rows| - 1], hasAgentIP, s);
      } else if last != Some(s) {
        NotAdded(front, last, s);
      }
    }
  }

  lemma NotAdded(front: seq<SeriesRow>, last: Option<Series>, s: Series)
    requires IdOf(front, s).None? && last != Some(s)
    ensures last.Some? ==> IdOf(front + [SeriesRow(NextId(front), last.value)], s).None?
  {
    if last.Some? {
      var longer := front + [SeriesRow(NextId(front), last.value)];
      assert longer[..|front|] == front;
    }
  }

  // ----- Rows keep their meaning

  predicate Complete(rows: seq<OldRow>, hasAgentIP: bool) {
    forall i :: 0 <= i < |rows| && SeriesOf(rows[i], hasAgentIP).Some? ==> rows[i].payload.Some?
  }

  /** The copy fails exactly on a row with a series but not all of its required columns. */
  lemma {:induction false} MovedIff(rows: seq<OldRow>, hasAgentIP: bool, series: seq<SeriesRow>)
    requires Covered(rows, hasAgentIP, series)
    ensures Moved(rows, hasAgentIP, series).Some? <==> Complete(rows, hasAgentIP)
  {
    hide SeriesOf, IdOf;
    if rows != [] {
      var front, last := rows[..|rows| - 1], rows[|rows| - 1];
      assert forall i :: 0 <= i < |front| ==> front[i] == rows[i];
      MovedIff(front, hasAgentIP, series);
      assert Complete(rows, hasAgentIP) <==>
        Complete(front, hasAgentIP) && (SeriesOf(last, hasAgentIP).Some? ==> last.payload.Some?) by {
        assert rows == front + [last];
      }
    }
  }

  lemma ReadNewAppend(rows: seq<NewRow>, last: NewRow, series: seq<SeriesRow>, s: Series)
    requires ById(series, last.seriesId) == Some(s)
    ensures ReadNew(rows + [last], series) == ReadNew(rows, series) + [Reading(last.id, s, Some(last.payload))]
  {
    assert (rows + [last])[..|rows|] == rows;
  }

  /** Joined back with the series, the moved rows read as the old ones did: once each, same id, same series. */
  lemma {:induction false} MovedReadsSame(rows: seq<OldRow>, hasAgentIP: bool, series: seq<SeriesRow>)
    requires Unique(series) && Covered(rows, hasAgentIP, series) && Moved(rows, hasAgentIP, series).Some?
    ensures ReadNew(Moved(rows, hasAgentIP, series).value, series) == ReadOld(rows, hasAgentIP)
  {
    hide Unique, IdOf, ById, SeriesOf;
    if rows == [] {
      assert ReadNew([], series) == [];
    } else {
      var last := rows[|rows| - 1];
      assert forall i :: 0 <= i < |rows| - 1 ==> rows[..|rows| - 1][i] == rows[i];
      MovedReadsSame(rows[..|rows| - 1], hasAgentIP, series);
      match SeriesOf(last, hasAgentIP)
      case None =>
      case Some(s) =>
        var id := IdOf(series, s).value;
        LookupRoundTrip(series, s);
        var moved := Moved(rows[..|rows| - 1], hasAgentIP, series).value;
        ReadNewAppend(moved, NewRow(last.id, id, last.payload.value), series, s);
    }
  }

  /** Every row that refers to a series has one, as the foreign key demands. */
  predicate Linked(rows: seq<NewRow>, series: seq<SeriesRow>) {
    forall i :: 0 <= i < |rows| ==> ById(series, rows[i].seriesId).Some?
  }

  /** Rows already moved read the same against more series. */
  lemma {:induction false} ReadNewStable(rows: seq<NewRow>, a: seq<SeriesRow>, b: seq<SeriesRow>)
    requires Linked(rows, a) && Extends(a, b)
    ensures ReadNew(rows, a) == ReadNew(rows, b)
  {
    hide ById, IdOf;
    if rows != [] {
      assert forall i :: 0 <= i < |rows| - 1 ==> rows[..|rows| - 1][i] == rows[i];
      ReadNewStable(rows[..|rows| - 1], a, b);
    }
  }

  // ----- The transaction

  datatype Outcome = Unneeded | Refused | Migrated(db: Database)

  predicate Needed(db: Database) {
    db.results.Old? || db.rollups.Old? || !db.hasStatuses
  }

  /** The series after the results' have been inserted, and after the rollups'. */
  function FirstSeries(db: Database): seq<SeriesRow> {
    if db.results.Old? then WithSeries(SeriesRows(db), db.results.rows, db.results.hasAgentIP) else SeriesRows(db)
  }

  function AllSeries(db: Database): seq<SeriesRow> {
    if db.rollups.Old? then WithSeries(FirstSeries(db), db.rollups.rows, true) else FirstSeries(db)
  }

  /** Complete rows are those whose series is named and whose required columns are there. */
  predicate Movable(t: Table) {
    t.Old? ==> forall i :: 0 <= i < |t.rows| && SeriesOf(t.rows[i], t.hasAgentIP).Some? ==> t.rows[i].payload.Some?
  }

  predicate Refusable(db: Database) {
    || !Movable(db.results)
    || (db.rollups.Old? && !db.rollups.hasAgentIP)
    || !Movable(db.rollups)
    || ((db.results.Old? || db.rollups.Old?) && !db.hasSequence)
  }

  /** The rows of an old table, under the ids of their series. */
  function Renumbered(rows: seq<OldRow>, hasAgentIP: bool, series: seq<SeriesRow>): seq<NewRow> {
    match Moved(rows, hasAgentIP, series) case None => [] case Some(moved) => moved
  }

  function NewTable(t: Table, series: seq<SeriesRow>): Table {
    if t.Old? then New(Renumbered(t.rows, t.hasAgentIP, series)) else t
  }

  /** Said at once: nothing to do, refused, or both tables renumbered against the series of both. */
  function Migrate(db: Database): Outcome {
    if !Needed(db) then Unneeded
    else if Refusable(db) then Refused
    else
      Migrated(Database(
        NewTable(db.results, FirstSeries(db)), NewTable(db.rollups, AllSeries(db)), Some(AllSeries(db)), true,
        db.hasSequence))
  }

  /** A row with a series lacks one of its required columns. */
  predicate HasIncomplete(t: Table) {
    && t.Old?
    && exists r ::
         r in t.rows && r.payload.None? && r.agent.Some? && r.target.Some? && r.address.Some? && r.port.Some?
  }

  /** Written out, every reason for which a migration that is needed is refused. */
  lemma RefusedIff(db: Database)
    ensures Migrate(db) == Unneeded <==> !db.results.Old? && !db.rollups.Old? && db.hasStatuses
    ensures Migrate(db) == Refused <==>
      || HasIncomplete(db.results) || HasIncomplete(db.rollups)
      || (db.rollups.Old? && !db.rollups.hasAgentIP)
      || (db.results.Old? && !db.hasSequence)
      || (db.rollups.Old? && !db.hasSequence)
  {
    hide NewTable, AllSeries, FirstSeries;
    IncompleteIff(db.results);
    IncompleteIff(db.rollups);
  }

  lemma IncompleteIff(t: Table)
    ensures HasIncomplete(t) <==> !Movable(t)
  {
    if t.Old? {
      forall r {
        NamedReadsAs(r, t.hasAgentIP);
      }
    }
  }

  /** What the constraints of the schema guarantee of any database. */
  predicate WellFormed(db: Database) {
    && Unique(SeriesRows(db))
    && (db.results.New? ==> Linked(db.results.moved, SeriesRows(db)))
    && (db.rollups.New? ==> Linked(db.rollups.moved, SeriesRows(db)))
  }

  lemma SeriesFacts(db: Database)
    requires Unique(SeriesRows(db))
    ensures var first, all := FirstSeries(db), AllSeries(db);
      && Unique(first) && Unique(all)
      && Extends(SeriesRows(db), first) && Extends(first, all) && Extends(SeriesRows(db), all)
      && (db.results.Old? ==> Covered(db.results.rows, db.results.hasAgentIP, first))
      && (db.rollups.Old? ==> Covered(db.rollups.rows, true, all))
  {
    hide Unique, IdOf, ById, WithSeries, SeriesOf;
    if db.results.Old? {
      WithSeriesExtends(SeriesRows(db), db.results.rows, db.results.hasAgentIP);
    }
    if db.rollups.Old? {
      WithSeriesExtends(FirstSeries(db), db.rollups.rows, true);
    }
    ExtendsTwice(SeriesRows(db), FirstSeries(db), AllSeries(db));
  }

  lemma {:induction false} MovedLinked(rows: seq<OldRow>, hasAgentIP: bool, series: seq<SeriesRow>)
    requires Unique(series) && Moved(rows, hasAgentIP, series).Some?
    ensures Linked(Moved(rows, hasAgentIP, series).value, series)
  {
    hide Unique, IdOf, ById, SeriesOf;
    if rows != [] {
      MovedLinked(rows[..|rows| - 1], hasAgentIP, series);
      match SeriesOf(rows[|rows| - 1], hasAgentIP)
      case None =>
      case Some(s) =>
        if IdOf(series, s).Some? {
          LookupRoundTrip(series, s);
        }
    }
  }

  lemma LinkedStable(rows: seq<NewRow>, a: seq<SeriesRow>, b: seq<SeriesRow>)
    requires Linked(rows, a) && Extends(a, b)
    ensures Linked(rows, b)
  {
    hide ById, IdOf;
  }

  /** One table, moved over against series, read against all. */
  lemma TableReadsSame(t: Table, before: seq<SeriesRow>, series: seq<SeriesRow>, all: seq<SeriesRow>)
    requires Unique(series) && Extends(before, all) && Extends(series, all) && Movable(t)
    requires t.Old? ==> Covered(t.rows, t.hasAgentIP, series)
    requires t.New? ==> Linked(t.moved, before)
    ensures Read(NewTable(t, series), all) == Read(t, before)
    ensures NewTable(t, series).New? ==> Linked(NewTable(t, series).moved, all)
  {
    hide Unique, Extends, Linked, Covered, ReadOld, ReadNew, Moved;
    match t
    case Missing =>
    case Old(rows, hasAgentIP) =>
      MovedIff(rows, hasAgentIP, series);
      MovedReadsSame(rows, hasAgentIP, series);
      MovedLinked(rows, hasAgentIP, series);
      ReadNewStable(Moved(rows, hasAgentIP, series).value, series, all);
      LinkedStable(Moved(rows, hasAgentIP, series).value, series, all);
    case New(moved) =>
      ReadNewStable(moved, before, all);
      LinkedStable(moved, before, all);
  }

  /** Main result: whatever a migration does, both tables read as before, row for row. */
  lemma MigrationKeepsReadings(db: Database)
    requires WellFormed(db) && Migrate(db).Migrated?
    ensures var after := Migrate(db).db;
      && Read(after.results, SeriesRows(after)) == Read(db.results, SeriesRows(db))
      && Read(after.rollups, SeriesRows(after)) == Read(db.rollups, SeriesRows(db))
      && WellFormed(after)
  {
    hide Unique, Extends, Linked, Covered, Read, WithSeries, Movable;
    SeriesFacts(db);
    ExtendsItself(AllSeries(db));
    TableReadsSame(db.results, SeriesRows(db), FirstSeries(db), AllSeries(db));
    TableReadsSame(db.rollups, SeriesRows(db), AllSeries(db), AllSeries(db));
  }

  // ----- Column by column

  /** The rows of an old table that have an agent, a target, an address and a port, in order. */
  function Named(rows: seq<OldRow>): seq<OldRow> {
    if rows == [] then []
    else
      var front, last := Named(rows[..|rows| - 1]), rows[|rows| - 1];
      if last.agent.Some? && last.target.Some? && last.address.Some? && last.port.Some? then front + [last] else front
  }

  /** The text itself, or the empty one in place of NULL. */
  predicate TextIs(text: Text, column: Option<Text>) {
    match column
    case Some(value) => text == value
    case None => text == EMPTY_TEXT
  }

  /** What is read of a row has its id and all its columns; a table without agent_ip has NULL for it. */
  predicate ReadsAs(r: Reading, row: OldRow, hasAgentIP: bool) {
    && r.id == row.id && r.payload == row.payload
    && row.agent == Some(r.series.agent) && row.target == Some(r.series.target)
    && row.address == Some(r.series.address) && row.port == Some(r.series.port)
    && TextIs(r.series.agentIP, if hasAgentIP then row.agentIP else None)
    && TextIs(r.series.labels, row.labels)
  }

  lemma {:induction false} ReadOldByColumns(rows: seq<OldRow>, hasAgentIP: bool)
    ensures |ReadOld(rows, hasAgentIP)| == |Named(rows)|
    ensures forall i :: 0 <= i < |Named(rows)| ==> ReadsAs(ReadOld(rows, hasAgentIP)[i], Named(rows)[i], hasAgentIP)
  {
    if rows != [] {
      ReadOldByColumns(rows[..|rows| - 1], hasAgentIP);
      NamedReadsAs(rows[|rows| - 1], hasAgentIP);
    }
    hide SeriesOf, ReadsAs;
  }

  lemma NamedReadsAs(row: OldRow, hasAgentIP: bool)
    ensures row.agent.Some? && row.target.Some? && row.address.Some? && row.port.Some?
       <==> SeriesOf(row, hasAgentIP).Some?
    ensures SeriesOf(row, hasAgentIP).Some? ==>
      ReadsAs(Reading(row.id, SeriesOf(row, hasAgentIP).value, row.payload), row, hasAgentIP)
  {
  }

  /**
   * Written out: after a migration what was an old table reads, in the old order, exactly as its rows that have an
   * agent, a target, an address and a port, each once, with its id and all its columns, the required ones among them.
   */
  lemma MigratedByColumns(db: Database)
    requires WellFormed(db) && Migrate(db).Migrated?
    ensures var after := Migrate(db).db;
      && (db.results.Old? ==>
            var readings, rows := Read(after.results, SeriesRows(after)), Named(db.results.rows);
            |readings| == |rows| && forall i :: 0 <= i < |rows| ==>
              ReadsAs(readings[i], rows[i], db.results.hasAgentIP) && readings[i].payload.Some?)
      && (db.rollups.Old? ==>
            var readings, rows := Read(after.rollups, SeriesRows(after)), Named(db.rollups.rows);
            |readings| == |rows| && forall i :: 0 <= i < |rows| ==>
              ReadsAs(readings[i], rows[i], true) && readings[i].payload.Some?)
  {
    var after := Migrate(db).db;
    MigrationKeepsReadings(db);
    if db.results.Old? {
      ReadOldByColumns(db.results.rows, db.results.hasAgentIP);
      ReadNewHasPayload(after.results.moved, SeriesRows(after));
    }
    if db.rollups.Old? {
      ReadOldByColumns(db.rollups.rows, true);
      ReadNewHasPayload(after.rollups.moved, SeriesRows(after));
    }
    hide ReadsAs, Named, ReadOld, ReadNew, WithSeries, Renumbered, Movable, WellFormed;
  }

  lemma {:induction false} ReadNewHasPayload(rows: seq<NewRow>, series: seq<SeriesRow>)
    ensures forall i :: 0 <= i < |ReadNew(rows, series)| ==> ReadNew(rows, series)[i].payload.Some?
  {
    if rows != [] {
      ReadNewHasPayload(rows[..|rows| - 1], series);
    }
  }

  /** A second migration finds nothing to do. */
  lemma MigratesOnce(db: Database)
    requires Migrate(db).Migrated?
    ensures Migrate(Migrate(db).db) == Unneeded
  {
    hide WithSeries, Renumbered;
  }

  /** Rows of an old table are all kept exactly when each has an agent, a target, an address and a port. */
  lemma {:induction false} AllRowsReadIff(rows: seq<OldRow>, hasAgentIP: bool)
    ensures |ReadOld(rows, hasAgentIP)| <= |rows|
    ensures |ReadOld(rows, hasAgentIP)| == |rows| <==>
      forall i :: 0 <= i < |rows| ==>
        rows[i].agent.Some? && rows[i].target.Some? && rows[i].address.Some? && rows[i].port.Some?
  {
    if rows != [] {
      var front, last := rows[..|rows| - 1], rows[|rows| - 1];
      AllRowsReadIff(front, hasAgentIP);
      assert rows == front + [last];
      assert forall i :: 0 <= i < |front| ==> front[i] == rows[i];
    }
  }

  /** A row that names no series is left behind without an error: afterwards the table is empty. */
  lemma NamelessRowIsLeftBehind(r: OldRow)
    requires r.agent.None? || r.target.None? || r.address.None? || r.port.None?
    ensures Migrate(Database(Old([r], true), Missing, None, true, true))
         == Migrated(Database(New([]), Missing, Some([]), true, true))
  {
    var rows := [r];
    assert rows[..|rows| - 1] == [] && SeriesOf(rows[0], true).None?;
    assert WithSeries([], [], true) == [] && WithSeries([], rows, true) == [];
    assert Moved([], true, []) == Some([]) && Moved(rows, true, []) == Some([]);
  }

  /** Without agent_ip old results are migrated, but old rollups refused; with it they would be migrated, too. */
  lemma OldRollupsAreRefused(r: OldRow)
    requires r.payload.Some?
    ensures Migrate(Database(Missing, Old([r], false), None, true, true)) == Refused
    ensures Migrate(Database(Missing, Old([r], true), None, true, true)).Migrated?
    ensures Migrate(Database(Old([r], false), Missing, None, true, true)).Migrated?
  {
    hide WithSeries, Renumbered;
  }

  lemma MovableIff(t: Table, series: seq<SeriesRow>)
    requires t.Old? ==> Covered(t.rows, t.hasAgentIP, series)
    ensures t.Old? ==> (Moved(t.rows, t.hasAgentIP, series).Some? <==> Movable(t))
  {
    if t.Old? {
      MovedIff(t.rows, t.hasAgentIP, series);
    }
  }

  class Connection {
    var db: Database

    constructor (db: Database)
      ensures this.db == db
    {
      this.db := db;
    }

    /**
     * Everything happens on tx; returning before the commit rolls it back.
     * An old rollup table without agent_ip, a NULL in a required column and a missing sqlite_sequence are errors.
     */
    method MigrateSQLiteDB() returns (migrated: bool, ok: bool)
      requires WellFormed(db)
      modifies this
      ensures match Migrate(old(db))
        case Unneeded => !migrated && ok && db == old(db)
        case Refused => !migrated && !ok && db == old(db)
        case Migrated(after) => migrated && ok && db == after
    {
      hide Unique, Extends, Covered, Linked, WithSeries, Moved, Complete;
      SeriesFacts(db);
      MovableIff(db.results, FirstSeries(db));
      if db.rollups.Old? && db.rollups.hasAgentIP {
        MovableIff(db.rollups, AllSeries(db));
      }
      var agentsReady := db.hasStatuses;
      var resultsNeedSeries, rollupsNeedSeries := db.results.Old?, db.rollups.Old?;
      if !resultsNeedSeries && !rollupsNeedSeries && agentsReady {
        return false, true;
      }
      var tx := db;
      tx := tx.(series := Some(SeriesRows(tx)));
      if resultsNeedSeries {
        tx := tx.(series := Some(WithSeries(tx.series.value, tx.results.rows, tx.results.hasAgentIP)));
        var moved := Moved(tx.results.rows, tx.results.hasAgentIP, tx.series.value);
        if moved.None? {
          return false, false;
        }
        tx := tx.(results := New(moved.value));
      }
      if rollupsNeedSeries {
        if !tx.rollups.hasAgentIP {
          return false, false;
        }
        tx := tx.(series := Some(WithSeries(tx.series.value, tx.rollups.rows, true)));
        var moved := Moved(tx.rollups.rows, true, tx.series.value);
        if moved.None? {
          return false, false;
        }
        tx := tx.(rollups := New(moved.value));
      }
      if !agentsReady {
        tx := tx.(hasStatuses := true);
      }
      if resultsNeedSeries || rollupsNeedSeries {
        if !tx.hasSequence {
          return false, false;
        }
      }
      db := tx;
      return true, true;
    }
  }
}
