/** The MySQL listener: a binlog event loop whose applier filters by a running
    maximum time, finds its table by name, and turns each updated row into a delete
    and an insert. */
module MySql {
  import opened Wrappers
  import opened Index
  import opened ChangeLog
  import opened Server
  import Text

  datatype TableName = TableName(db: string, name: string)

  /** The source table, its columns in order, its key column. */
  datatype Schema = Schema(table: TableName, columns: seq<string>, pk: string)

  datatype RowKind = WriteRows | UpdateRows | DeleteRows

  type Row = seq<string>

  /** A table map gives a table a number; the row events after it use the number.
      `of` is the table whose rows changed: the event itself does not name it, and
      the listener never sees it. */
  datatype Event =
    | TableMap(id: nat, name: TableName, next: nat)
    | RowsEvent(time: nat, table: nat, of: TableName, kind: RowKind, rows: seq<Row>, next: nat)
    | Rotate(file: string, pos: nat)
    | OtherEvent(next: nat)

  function Lower(s: string): string {
    seq(|s|, i requires 0 <= i < |s| => if 'A' <= s[i] <= 'Z' then s[i] - 'A' + 'a' else s[i])
  }

  /** The same character, or the same letter of the alphabet in two cases. */
  predicate SameLetter(a: char, b: char) {
    || a == b
    || ('A' <= a <= 'Z' && b as int == a as int + 32)
    || ('A' <= b <= 'Z' && a as int == b as int + 32)
  }

  predicate SameName(a: string, b: string) {
    |a| == |b| && forall i :: 0 <= i < |a| ==> SameLetter(a[i], b[i])
  }

  lemma SameNameSelf(a: string)
    ensures SameName(a, a)
  {
  }

  lemma SameNameBack(a: string, b: string)
    ensures SameName(a, b) <==> SameName(b, a)
  {
  }

  /** Comparing in lower case is comparing letter by letter, cases alike. */
  lemma LowerIff(a: string, b: string)
    ensures Lower(a) == Lower(b) <==> SameName(a, b)
  {
    var x, y := Lower(a), Lower(b);
    if x == y {
      assert |x| == |y|;
      forall i | 0 <= i < |a| ensures SameLetter(a[i], b[i]) { assert x[i] == y[i]; }
    }
  }

  // ---------------------------------------------------------------- rows

  function Shorter(a: nat, b: nat): nat {
    if a < b then a else b
  }

  function RowFields(sc: Schema, row: Row): Fields {
    Zip(sc.columns, row, Shorter(|sc.columns|, |row|))
  }

  /** The record the engine reads from a row. */
  function RowRecord(sc: Schema, row: Row): Record {
    RecordOf(sc.pk, RowFields(sc, row))
  }

  /** The value under the first column, from `i` on, that is the key. */
  function KeyFrom(sc: Schema, row: Row, i: nat): Option<Key>
    decreases |row| - i
  {
    if i >= |row| || i >= |sc.columns| then None
    else if sc.columns[i] == sc.pk then Some(row[i])
    else KeyFrom(sc, row, i + 1)
  }

  /** The key a delete takes from a row is the one an insert of that row stores. */
  lemma {:induction false} KeysAgree(sc: Schema, row: Row, i: nat)
    requires Distinct(sc.columns) && i <= Shorter(|sc.columns|, |row|)
    requires forall j :: 0 <= j < i ==> sc.columns[j] != sc.pk
    ensures var f := RowFields(sc, row);
            KeyFrom(sc, row, i) == if sc.pk in f then Some(f[sc.pk]) else None
    decreases |row| - i
  {
    var n := Shorter(|sc.columns|, |row|);
    if i == n {
      ZipOnly(sc.columns, row, n, sc.pk);
    } else if sc.columns[i] == sc.pk {
      ZipAt(sc.columns, row, n, i);
    } else {
      KeysAgree(sc, row, i + 1);
    }
  }

  // ---------------------------------------------------------------- one row event

  function InsertOf(sc: Schema, row: Row): seq<Command> {
    [Insert(RowRecord(sc, row))]
  }

  function DeleteOf(sc: Schema, row: Row): seq<Command> {
    var k := KeyFrom(sc, row, 0);
    if k.Some? then [Delete(k.value)] else []
  }

  /** How many rows the first `n` changes of an event take up. */
  function Rows(kind: RowKind, n: nat): nat {
    if kind.UpdateRows? then 2 * n else n
  }

  /** How many changes `m` rows make. */
  function ChangeCount(kind: RowKind, m: nat): nat {
    if kind.UpdateRows? then m / 2 else m
  }

  /** Row events are nonempty, and update events hold old and new rows in turn. */
  predicate Sound(kind: RowKind, rows: seq<Row>) {
    rows != [] && (kind.UpdateRows? ==> |rows| % 2 == 0)
  }

  /** The commands of change `n` of an event. */
  function ChangeSent(sc: Schema, kind: RowKind, rows: seq<Row>, n: nat): seq<Command>
    requires Rows(kind, n + 1) <= |rows|
  {
    match kind
    case WriteRows => InsertOf(sc, rows[n])
    case DeleteRows => DeleteOf(sc, rows[n])
    case UpdateRows => DeleteOf(sc, rows[2 * n]) + InsertOf(sc, rows[2 * n + 1])
  }

  function ChangesSent(sc: Schema, kind: RowKind, rows: seq<Row>, n: nat): seq<Command>
    requires Rows(kind, n) <= |rows|
  {
    if n == 0 then [] else ChangesSent(sc, kind, rows, n - 1) + ChangeSent(sc, kind, rows, n - 1)
  }

  lemma NoChanges(sc: Schema, kind: RowKind, rows: seq<Row>)
    ensures ChangesSent(sc, kind, rows, 0) == []
  {
  }

  lemma OneMoreChange(sc: Schema, kind: RowKind, rows: seq<Row>, n: nat)
    requires Rows(kind, n + 1) <= |rows|
    ensures ChangesSent(sc, kind, rows, n + 1) == ChangesSent(sc, kind, rows, n) + ChangeSent(sc, kind, rows, n)
  {
  }

  function EventSent(sc: Schema, kind: RowKind, rows: seq<Row>): seq<Command> {
    ChangesSent(sc, kind, rows, ChangeCount(kind, |rows|))
  }

  lemma RefusedOrRemoved(cfg: Config, r: Record, s: Contents)
    requires r.key !in s
    ensures Exec(cfg, Delete(r.key), Exec(cfg, Insert(r), s)) == s
    ensures r.key == "" ==> Exec(cfg, Insert(r), s) == s
  {
    if Insertable(cfg, s, r) { assert s[r.key := r.body] - {r.key} == s; }
  }

  /** Inserting a fresh row and deleting it again restores the index. */
  lemma InsertThenDelete(cfg: Config, sc: Schema, row: Row, s: Contents)
    requires Distinct(sc.columns)
    requires RowRecord(sc, row).key !in s
    ensures ExecAll(cfg, InsertOf(sc, row) + DeleteOf(sc, row), s) == s
  {
    KeysAgree(sc, row, 0);
    hide Exec, RowFields, KeyFrom, Distinct;
    var r := RowRecord(sc, row);
    RefusedOrRemoved(cfg, r, s);
    ExecAllAppend(cfg, [Insert(r)], DeleteOf(sc, row), s);
    ExecAllOne(cfg, Insert(r), s);
    ExecFew(cfg, DeleteOf(sc, row), Exec(cfg, Insert(r), s));
  }

  // ---------------------------------------------------------------- the event stream

  predicate SoundEvents(es: seq<Event>) {
    forall i :: 0 <= i < |es| && es[i].RowsEvent? ==> Sound(es[i].kind, es[i].rows)
  }

  /** The applier: its private time, the table names it knows, and what it sent. */
  datatype View = View(time: nat, names: map<nat, TableName>, sent: seq<Command>)

  /** Whether the applier takes table number `id` for the configured table: it goes
      by the name alone, upper and lower case alike. */
  predicate Ours(sc: Schema, names: map<nat, TableName>, id: nat) {
    id in names && Lower(sc.table.name) == Lower(names[id].name)
  }

  function ApplierStep(sc: Schema, v: View, e: Event): View {
    match e
    case TableMap(id, name, _) => if id in v.names then v else v.(names := v.names[id := name])
    case RowsEvent(time, table, _, kind, rows, _) =>
      if time < v.time then v
      else if !Ours(sc, v.names, table) then v.(time := time)
      else v.(time := time, sent := v.sent + EventSent(sc, kind, rows))
    case _ => v
  }

  function Applied(sc: Schema, start: nat, es: seq<Event>): View {
    if es == [] then View(start, map[], [])
    else ApplierStep(sc, Applied(sc, start, es[..|es| - 1]), es[|es| - 1])
  }

  lemma AppliedStep(sc: Schema, start: nat, es: seq<Event>, n: nat)
    requires n < |es|
    ensures Applied(sc, start, es[..n + 1]) == ApplierStep(sc, Applied(sc, start, es[..n]), es[n])
  {
    assert es[..n + 1][..n] == es[..n];
  }

  function LaterTime(e: Event, time: nat): nat {
    if e.RowsEvent? && e.time > time then e.time else time
  }

  /** The latest of the start time and all row-event times. */
  function Latest(start: nat, es: seq<Event>): nat {
    if es == [] then start else LaterTime(es[|es| - 1], Latest(start, es[..|es| - 1]))
  }

  /** File and position after an event. A table map is consumed by its handler and
      moves neither. */
  function Moved(e: Event, at: (string, nat)): (string, nat) {
    match e
    case Rotate(f, p) => (f, p)
    case TableMap(_, _, _) => at
    case _ => (at.0, e.next)
  }

  /** The file and position an event stream leads to. */
  function Position(es: seq<Event>, at: (string, nat)): (string, nat) {
    if es == [] then at else Moved(es[|es| - 1], Position(es[..|es| - 1], at))
  }

  lemma {:induction false} LatestIsMax(start: nat, es: seq<Event>)
    ensures Latest(start, es) >= start
    ensures forall i :: 0 <= i < |es| && es[i].RowsEvent? ==> es[i].time <= Latest(start, es)
    ensures Latest(start, es) == start
         || exists i :: 0 <= i < |es| && es[i].RowsEvent? && es[i].time == Latest(start, es)
  {
    if es != [] {
      var front, n := es[..|es| - 1], |es| - 1;
      LatestIsMax(start, front);
      forall i | 0 <= i < |es| && es[i].RowsEvent? ensures es[i].time <= Latest(start, es) {
        if i < n { assert front[i] == es[i]; }
      }
      if Latest(start, es) != start {
        if Latest(start, es) == Latest(start, front) {
          var i :| 0 <= i < |front| && front[i].RowsEvent? && front[i].time == Latest(start, front);
          assert es[i] == front[i];
        } else {
          assert es[n].RowsEvent? && es[n].time == Latest(start, es);
        }
      }
    }
  }

  /** The applier's private time is the running maximum, so an event is passed
      over by the time filter exactly when it is older than the start or than
      some earlier row event, of whatever table. */
  lemma {:induction false} FilterIsRunningMax(sc: Schema, start: nat, es: seq<Event>)
    ensures Applied(sc, start, es).time == Latest(start, es)
  {
    if es != [] { FilterIsRunningMax(sc, start, es[..|es| - 1]); }
  }

  lemma PassedOverIff(sc: Schema, start: nat, es: seq<Event>, n: nat)
    requires n < |es| && es[n].RowsEvent?
    ensures es[n].time < Applied(sc, start, es[..n]).time <==>
            es[n].time < start
            || exists i :: 0 <= i < n && es[i].RowsEvent? && es[i].time > es[n].time
  {
    FilterIsRunningMax(sc, start, es[..n]);
    LatestIsMax(start, es[..n]);
    var l := Latest(start, es[..n]);
    if es[n].time < l && l != start {
      var i :| 0 <= i < n && es[..n][i].RowsEvent? && es[..n][i].time == l;
      assert es[i].time > es[n].time;
    }
    if i :| 0 <= i < n && es[i].RowsEvent? && es[i].time > es[n].time {
      assert es[..n][i] == es[i];
    }
  }

  // ---------------------------------------------------------------- replay

  /** What the listener sends for a change log. */
  function Split(log: seq<Command>): seq<Command> {
    if log == [] then []
    else
      var c := log[|log| - 1];
      Split(log[..|log| - 1]) + (if c.Update? then [Delete(c.oldKey), Insert(c.rec)] else [c])
  }

  lemma {:induction false} SourceAllAppend(a: seq<Command>, b: seq<Command>, t: Contents)
    ensures SourceAll(a + b, t) == SourceAll(b, SourceAll(a, t))
  {
    if b == [] {
      assert a + b == a;
    } else {
      assert (a + b)[..|a + b| - 1] == a + b[..|b| - 1];
      SourceAllAppend(a, b[..|b| - 1], t);
    }
  }

  lemma ValidAppend(log: seq<Command>, c: Command, t: Contents)
    requires ValidLog(log, t) && ValidStep(c, SourceAll(log, t))
    ensures ValidLog(log + [c], t)
    ensures SourceAll(log + [c], t) == SourceStep(c, SourceAll(log, t))
  {
    forall i | 0 <= i < |log + [c]| ensures ValidStep((log + [c])[i], Table(log + [c], i, t)) {
      TablePrefix(log, [c], i, t);
      TableEnds(log, t);
    }
    assert (log + [c])[..|log|] == log;
  }

  lemma ValidFront(log: seq<Command>, t: Contents)
    requires log != [] && ValidLog(log, t)
    ensures ValidLog(log[..|log| - 1], t)
    ensures ValidStep(log[|log| - 1], SourceAll(log[..|log| - 1], t))
  {
    var front := log[..|log| - 1];
    assert log == front + [log[|log| - 1]];
    forall i | 0 <= i < |front| ensures ValidStep(front[i], Table(front, i, t)) {
      TablePrefix(front, [log[|log| - 1]], i, t);
      assert ValidStep(log[i], Table(log, i, t));
    }
    assert ValidStep(log[|log| - 1], Table(log, |log| - 1, t));
  }

  lemma UpdateInTwo(c: Command, t: Contents)
    requires c.Update? && ValidStep(c, t)
    ensures ValidStep(Delete(c.oldKey), t)
    ensures ValidStep(Insert(c.rec), SourceStep(Delete(c.oldKey), t))
    ensures SourceStep(c, t) == SourceStep(Insert(c.rec), SourceStep(Delete(c.oldKey), t))
  {
  }

  ghost predicate NoUpdates(log: seq<Command>) {
    forall i :: 0 <= i < |log| ==> !log[i].Update?
  }

  lemma SplitOneMore(log: seq<Command>, t: Contents)
    requires log != [] && ValidStep(log[|log| - 1], SourceAll(log[..|log| - 1], t))
    requires var front := Split(log[..|log| - 1]);
             ValidLog(front, t) && NoUpdates(front) && SourceAll(front, t) == SourceAll(log[..|log| - 1], t)
    ensures ValidLog(Split(log), t) && NoUpdates(Split(log))
    ensures SourceAll(Split(log), t) == SourceAll(log, t)
  {
    var c := log[|log| - 1];
    assert SourceAll(log, t) == SourceStep(c, SourceAll(log[..|log| - 1], t));
    hide ValidLog, ValidStep, SourceStep, SourceAll, NoUpdates, Split;
    var front := Split(log[..|log| - 1]);
    SplitLast(log);
    if c.Update? {
      var half := front + [Delete(c.oldKey)];
      UpdateInTwo(c, SourceAll(front, t));
      ValidAppend(front, Delete(c.oldKey), t);
      NoneMore(front, Delete(c.oldKey));
      ValidAppend(half, Insert(c.rec), t);
      NoneMore(half, Insert(c.rec));
    } else {
      ValidAppend(front, c, t);
      NoneMore(front, c);
    }
  }

  lemma SplitLast(log: seq<Command>)
    requires log != []
    ensures var front, c := Split(log[..|log| - 1]), log[|log| - 1];
            Split(log) == if c.Update? then front + [Delete(c.oldKey)] + [Insert(c.rec)] else front + [c]
  {
    var front, c := Split(log[..|log| - 1]), log[|log| - 1];
    if c.Update? { assert front + [Delete(c.oldKey)] + [Insert(c.rec)] == front + [Delete(c.oldKey), Insert(c.rec)]; }
  }

  lemma NoneMore(log: seq<Command>, c: Command)
    requires NoUpdates(log) && !c.Update?
    ensures NoUpdates(log + [c])
  {
  }

  /** Splitting keeps a valid log valid and means the same, even where an update
      changes the key; and what it leaves has no updates at all. */
  lemma {:induction false} SplitMeansTheSame(log: seq<Command>, t: Contents)
    requires ValidLog(log, t)
    ensures ValidLog(Split(log), t) && NoUpdates(Split(log))
    ensures SourceAll(Split(log), t) == SourceAll(log, t)
  {
    hide ValidLog, ValidStep, SourceStep, NoUpdates;
    if log != [] {
      ValidFront(log, t);
      SplitMeansTheSame(log[..|log| - 1], t);
      SplitOneMore(log, t);
    } else {
      EmptyValid(t);
    }
  }

  lemma EmptyValid(t: Contents)
    ensures ValidLog([], t) && NoUpdates([])
  {
  }

  /** Replay is harmless for every valid log, key-changing updates included:
      whatever prefixes of the split commands went out before, sending them all
      leaves the source table. */
  lemma ReplayHarmless(log: seq<Command>, cuts: seq<nat>, t: Contents)
    requires ValidLog(log, t)
    requires forall i :: 0 <= i < |cuts| ==> cuts[i] <= |Split(log)|
    ensures ApplyAll(Split(log), AfterFailures(Split(log), cuts, t)) == SourceAll(log, t)
  {
    SplitMeansTheSame(log, t);
    assert FreshTargets(Split(log));
    Convergence(Split(log), cuts, t);
  }

  // ---------------------------------------------------------------- from binlog to change log

  function ColumnOf(columns: seq<string>, c: string): (i: nat)
    requires c in columns
    ensures i < |columns| && columns[i] == c
  {
    if columns[0] == c then 0 else 1 + ColumnOf(columns[1..], c)
  }

  /** The row as the source table has it: the value under the key column, and the value
      under each column. */
  function SourceRecord(sc: Schema, row: Row): Record {
    if |row| == |sc.columns| && sc.pk in sc.columns
    then Record(row[ColumnOf(sc.columns, sc.pk)], map c | c in sc.columns :: row[ColumnOf(sc.columns, c)])
    else Record("", map[])
  }

  /** A full row with a usable key. */
  ghost predicate GoodRow(sc: Schema, row: Row) {
    |row| == |sc.columns| && sc.pk in sc.columns && SourceRecord(sc, row).key != ""
  }

  /** The engine reads from the listener's record what the source table has. */
  lemma RowIsRead(sc: Schema, row: Row)
    requires Distinct(sc.columns) && GoodRow(sc, row)
    ensures RowRecord(sc, row) == SourceRecord(sc, row)
  {
    var f, n := RowFields(sc, row), |row|;
    forall c ensures c in f <==> c in sc.columns {
      if c in sc.columns {
        ZipAt(sc.columns, row, n, ColumnOf(sc.columns, c));
      } else {
        ZipOnly(sc.columns, row, n, c);
      }
    }
    forall c | c in sc.columns ensures f[c] == row[ColumnOf(sc.columns, c)] {
      ZipAt(sc.columns, row, n, ColumnOf(sc.columns, c));
    }
    assert f == SourceRecord(sc, row).body;
  }

  ghost predicate GoodRows(sc: Schema, rows: seq<Row>) {
    forall i :: 0 <= i < |rows| ==> GoodRow(sc, rows[i])
  }

  /** The source's own account of change `n` of an event. */
  function ChangeAt(sc: Schema, kind: RowKind, rows: seq<Row>, n: nat): Command
    requires Rows(kind, n + 1) <= |rows|
  {
    match kind
    case WriteRows => Insert(SourceRecord(sc, rows[n]))
    case DeleteRows => Delete(SourceRecord(sc, rows[n]).key)
    case UpdateRows => Update(SourceRecord(sc, rows[2 * n]).key, SourceRecord(sc, rows[2 * n + 1]))
  }

  function Changes(sc: Schema, kind: RowKind, rows: seq<Row>, n: nat): seq<Command>
    requires Rows(kind, n) <= |rows|
  {
    if n == 0 then [] else Changes(sc, kind, rows, n - 1) + [ChangeAt(sc, kind, rows, n - 1)]
  }

  function EventChanges(sc: Schema, e: Event): seq<Command>
    requires e.RowsEvent?
  {
    Changes(sc, e.kind, e.rows, ChangeCount(e.kind, |e.rows|))
  }

  lemma {:induction false} SplitAppend(a: seq<Command>, b: seq<Command>)
    ensures Split(a + b) == Split(a) + Split(b)
  {
    if b == [] {
      assert a + b == a;
    } else {
      assert (a + b)[..|a + b| - 1] == a + b[..|b| - 1];
      SplitAppend(a, b[..|b| - 1]);
    }
  }

  lemma SplitOne(c: Command)
    ensures Split([c]) == if c.Update? then [Delete(c.oldKey), Insert(c.rec)] else [c]
  {
    assert [c][..0] == [];
  }

  lemma GoodKey(sc: Schema, row: Row)
    requires Distinct(sc.columns) && GoodRow(sc, row)
    ensures DeleteOf(sc, row) == [Delete(SourceRecord(sc, row).key)]
    ensures InsertOf(sc, row) == [Insert(SourceRecord(sc, row))]
  {
    RowIsRead(sc, row);
    KeysAgree(sc, row, 0);
  }

  lemma ChangeSplits(sc: Schema, kind: RowKind, rows: seq<Row>, n: nat)
    requires Distinct(sc.columns) && Rows(kind, n + 1) <= |rows| && GoodRows(sc, rows)
    ensures ChangeSent(sc, kind, rows, n) == Split([ChangeAt(sc, kind, rows, n)])
    ensures ChangeSent(sc, kind, rows, n) != []
  {
    hide DeleteOf, InsertOf, SourceRecord, GoodRow, Distinct;
    SplitOne(ChangeAt(sc, kind, rows, n));
    var i := Rows(kind, n);
    assert GoodRow(sc, rows[i]);
    GoodKey(sc, rows[i]);
    if kind.UpdateRows? { GoodKey(sc, rows[i + 1]); }
  }

  /** The row loop sends exactly the split of the event's changes. */
  lemma {:induction false} EventSplits(sc: Schema, kind: RowKind, rows: seq<Row>, n: nat)
    requires Distinct(sc.columns) && Rows(kind, n) <= |rows| && GoodRows(sc, rows)
    ensures ChangesSent(sc, kind, rows, n) == Split(Changes(sc, kind, rows, n))
    ensures n > 0 ==> ChangesSent(sc, kind, rows, n) != []
  {
    hide ChangeSent, ChangeAt, InsertOf, DeleteOf, KeyFrom, Distinct;
    if n > 0 {
      EventSplits(sc, kind, rows, n - 1);
      SplitAppend(Changes(sc, kind, rows, n - 1), [ChangeAt(sc, kind, rows, n - 1)]);
      ChangeSplits(sc, kind, rows, n - 1);
    }
  }

  /** The event changes the source table itself. */
  predicate Of(sc: Schema, e: Event) {
    e.RowsEvent? && e.of == sc.table
  }

  /** Well-formed row events, and complete rows in those of the source table. */
  ghost predicate Complete(sc: Schema, es: seq<Event>) {
    && Distinct(sc.columns) && SoundEvents(es)
    && (forall i :: 0 <= i < |es| && Of(sc, es[i]) ==> GoodRows(sc, es[i].rows))
  }

  /** The source's own account of the stream: what happened to its table. */
  function TableLog(sc: Schema, es: seq<Event>): seq<Command> {
    if es == [] then []
    else TableLog(sc, es[..|es| - 1]) + (if Of(sc, es[|es| - 1]) then EventChanges(sc, es[|es| - 1]) else [])
  }

  /** Event `i` is the table map that the applier keeps for number `id`. */
  ghost predicate FirstMap(es: seq<Event>, i: int, id: nat) {
    && 0 <= i < |es| && es[i].TableMap? && es[i].id == id
    && forall j :: 0 <= j < i && es[j].TableMap? ==> es[j].id != id
  }

  /** Row event `n` finds a table map, and with it the configured name. */
  ghost predicate Resolves(sc: Schema, es: seq<Event>, n: nat)
    requires n < |es| && es[n].RowsEvent?
  {
    exists i :: 0 <= i < n && FirstMap(es, i, es[n].table) && SameName(es[i].name.name, sc.table.name)
  }

  lemma {:induction false} NamesAre(sc: Schema, start: nat, es: seq<Event>, id: nat)
    ensures var names := Applied(sc, start, es).names;
            && (forall i :: FirstMap(es, i, id) ==> id in names && names[id] == es[i].name)
            && (id in names ==> exists i :: FirstMap(es, i, id))
  {
    if es != [] {
      var front, n := es[..|es| - 1], |es| - 1;
      var names, names' := Applied(sc, start, front).names, Applied(sc, start, es).names;
      NamesAre(sc, start, front, id);
      if id in names {
        var k :| FirstMap(front, k, id);
        assert FirstMap(es, k, id);
      } else if es[n].TableMap? && es[n].id == id {
        NoMapYet(front, id);
        assert FirstMap(es, n, id);
      }
      forall i | FirstMap(es, i, id) ensures id in names' && names'[id] == es[i].name {
        if i < n { assert FirstMap(front, i, id); }
      }
    }
  }

  lemma {:induction false} NoMapYet(es: seq<Event>, id: nat)
    requires forall i :: !FirstMap(es, i, id)
    ensures forall j :: 0 <= j < |es| && es[j].TableMap? ==> es[j].id != id
  {
    if es != [] {
      var front, n := es[..|es| - 1], |es| - 1;
      forall i ensures !FirstMap(front, i, id) {
        if FirstMap(front, i, id) { assert FirstMap(es, i, id); }
      }
      NoMapYet(front, id);
      assert !FirstMap(es, n, id);
    }
  }

  lemma ResolvesIff(sc: Schema, start: nat, es: seq<Event>, n: nat)
    requires n < |es| && es[n].RowsEvent?
    ensures Ours(sc, Applied(sc, start, es[..n]).names, es[n].table) <==> Resolves(sc, es, n)
  {
    hide Applied, Lower, SameName;
    var id, front := es[n].table, es[..n];
    NamesAre(sc, start, front, id);
    forall i | 0 <= i < n ensures FirstMap(front, i, id) <==> FirstMap(es, i, id) { }
    if id in Applied(sc, start, front).names {
      var i :| FirstMap(front, i, id);
      LowerIff(sc.table.name, es[i].name.name);
      SameNameBack(sc.table.name, es[i].name.name);
      forall j | 0 <= j < n && FirstMap(es, j, id) ensures j == i { }
    }
  }

  /** Row event `n` is older than the start or than some row event before it, of
      whatever table. */
  ghost predicate Late(start: nat, es: seq<Event>, n: nat)
    requires n < |es| && es[n].RowsEvent?
  {
    || es[n].time < start
    || exists i :: 0 <= i < n && es[i].RowsEvent? && es[i].time > es[n].time
  }

  /** The applier takes row event `n` for one of the source table, and takes it up. */
  ghost predicate Heard(sc: Schema, start: nat, es: seq<Event>, n: nat)
    requires n < |es| && es[n].RowsEvent?
  {
    Resolves(sc, es, n) && !Late(start, es, n)
  }

  predicate Takes(sc: Schema, v: View, e: Event) {
    e.RowsEvent? && e.time >= v.time && Ours(sc, v.names, e.table)
  }

  /** What the applier does with a row event, in terms of the stream before it. */
  lemma TakesIff(sc: Schema, start: nat, es: seq<Event>, n: nat)
    requires n < |es| && es[n].RowsEvent?
    ensures Takes(sc, Applied(sc, start, es[..n]), es[n]) <==> Heard(sc, start, es, n)
  {
    hide Resolves, Applied, Ours;
    PassedOverIff(sc, start, es, n);
    ResolvesIff(sc, start, es, n);
  }

  // ---------------------------------------------------------------- what is dropped, what is foreign

  /** How many commands row events of the source table should have caused, but did
      not: the applier did not recognise the table, or passed the event over. */
  function Dropped(sc: Schema, start: nat, es: seq<Event>): nat {
    if es == [] then 0
    else
      var front, e := es[..|es| - 1], es[|es| - 1];
      Dropped(sc, start, front) +
      if Of(sc, e) && !Takes(sc, Applied(sc, start, front), e) then |Split(EventChanges(sc, e))| else 0
  }

  /** How many commands row events of other tables caused. */
  function Foreign(sc: Schema, start: nat, es: seq<Event>): nat {
    if es == [] then 0
    else
      var front, e := es[..|es| - 1], es[|es| - 1];
      Foreign(sc, start, front) +
      if !Of(sc, e) && Takes(sc, Applied(sc, start, front), e) then |EventSent(sc, e.kind, e.rows)| else 0
  }

  lemma CompleteFront(sc: Schema, es: seq<Event>)
    requires es != [] && Complete(sc, es)
    ensures Complete(sc, es[..|es| - 1])
  {
  }

  lemma CompleteEventSplits(sc: Schema, es: seq<Event>)
    requires es != [] && Complete(sc, es) && Of(sc, es[|es| - 1])
    ensures var e := es[|es| - 1];
            && EventSent(sc, e.kind, e.rows) == Split(EventChanges(sc, e)) && EventSent(sc, e.kind, e.rows) != []
  {
    var e := es[|es| - 1];
    EventSplits(sc, e.kind, e.rows, ChangeCount(e.kind, |e.rows|));
  }

  lemma StepTakes(sc: Schema, v: View, e: Event)
    ensures ApplierStep(sc, v, e).sent
         == if Takes(sc, v, e) then v.sent + EventSent(sc, e.kind, e.rows) else v.sent
  {
  }

  /** Nothing else is lost or gained, whatever the order of the events: what was sent
      and what was dropped make up what happened to the table and what was
      foreign. */
  lemma {:induction false} Balance(sc: Schema, start: nat, es: seq<Event>)
    requires Complete(sc, es)
    ensures |Applied(sc, start, es).sent| + Dropped(sc, start, es)
         == |Split(TableLog(sc, es))| + Foreign(sc, start, es)
    ensures Dropped(sc, start, es) == 0 && Foreign(sc, start, es) == 0 ==>
              Applied(sc, start, es).sent == Split(TableLog(sc, es))
  {
    if es != [] {
      hide Complete, Takes, EventSent, EventChanges, ApplierStep;
      var front, e := es[..|es| - 1], es[|es| - 1];
      CompleteFront(sc, es);
      Balance(sc, start, front);
      StepTakes(sc, Applied(sc, start, front), e);
      if Of(sc, e) {
        CompleteEventSplits(sc, es);
        SplitAppend(TableLog(sc, front), EventChanges(sc, e));
      } else {
        assert TableLog(sc, es) == TableLog(sc, front);
      }
    }
  }

  ghost predicate RegisteredAt(sc: Schema, start: nat, es: seq<Event>, n: nat)
    requires n < |es|
  {
    Of(sc, es[n]) ==> Heard(sc, start, es, n)
  }

  /** If event `n` is a row event of another table, it is not heard, or has nothing to
      send. */
  ghost predicate UnmistakenAt(sc: Schema, start: nat, es: seq<Event>, n: nat)
    requires n < |es|
  {
    es[n].RowsEvent? && !Of(sc, es[n]) && Heard(sc, start, es, n) ==> EventSent(sc, es[n].kind, es[n].rows) == []
  }

  ghost predicate Registered(sc: Schema, start: nat, es: seq<Event>) {
    forall n :: 0 <= n < |es| ==> RegisteredAt(sc, start, es, n)
  }

  ghost predicate Unmistaken(sc: Schema, start: nat, es: seq<Event>) {
    forall n :: 0 <= n < |es| ==> UnmistakenAt(sc, start, es, n)
  }

  /** Both look back only. */
  lemma AtPrefix(sc: Schema, start: nat, es: seq<Event>, m: nat, n: nat)
    requires n < m <= |es|
    ensures RegisteredAt(sc, start, es[..m], n) <==> RegisteredAt(sc, start, es, n)
    ensures UnmistakenAt(sc, start, es[..m], n) <==> UnmistakenAt(sc, start, es, n)
  {
    hide SameName, EventSent;
    var front := es[..m];
    assert forall i :: 0 <= i < m ==> front[i] == es[i];
    if es[n].RowsEvent? {
      forall i | 0 <= i < n ensures FirstMap(front, i, es[n].table) <==> FirstMap(es, i, es[n].table) { }
    }
  }

  lemma CoveredStep(sc: Schema, start: nat, es: seq<Event>)
    requires es != []
    ensures var front, m := es[..|es| - 1], |es| - 1;
            && (Registered(sc, start, es) <==> Registered(sc, start, front) && RegisteredAt(sc, start, es, m))
            && (Unmistaken(sc, start, es) <==> Unmistaken(sc, start, front) && UnmistakenAt(sc, start, es, m))
  {
    hide RegisteredAt, UnmistakenAt;
    var m := |es| - 1;
    forall n | 0 <= n < m
      ensures RegisteredAt(sc, start, es[..m], n) <==> RegisteredAt(sc, start, es, n)
      ensures UnmistakenAt(sc, start, es[..m], n) <==> UnmistakenAt(sc, start, es, n)
    {
      AtPrefix(sc, start, es, m, n);
    }
  }

  lemma {:induction false} DroppedIff(sc: Schema, start: nat, es: seq<Event>)
    requires Complete(sc, es)
    ensures Dropped(sc, start, es) == 0 <==> Registered(sc, start, es)
  {
    hide Complete, Takes, Heard, EventChanges, EventSent, Split, Registered;
    if es != [] {
      var front, m := es[..|es| - 1], |es| - 1;
      CompleteFront(sc, es);
      DroppedIff(sc, start, front);
      CoveredStep(sc, start, es);
      if Of(sc, es[m]) {
        CompleteEventSplits(sc, es);
        TakesIff(sc, start, es, m);
      }
    } else {
      NothingToCover(sc, start);
    }
  }

  lemma {:induction false} ForeignIff(sc: Schema, start: nat, es: seq<Event>)
    ensures Foreign(sc, start, es) == 0 <==> Unmistaken(sc, start, es)
  {
    hide Takes, Heard, EventSent, Unmistaken;
    if es != [] {
      ForeignIff(sc, start, es[..|es| - 1]);
      CoveredStep(sc, start, es);
      if es[|es| - 1].RowsEvent? { TakesIff(sc, start, es, |es| - 1); } else { OnlyRowsAreTaken(sc, start, es); }
    } else {
      NothingToCover(sc, start);
    }
  }

  lemma OnlyRowsAreTaken(sc: Schema, start: nat, es: seq<Event>)
    requires es != [] && !es[|es| - 1].RowsEvent?
    ensures !Takes(sc, Applied(sc, start, es[..|es| - 1]), es[|es| - 1])
  {
  }

  lemma NothingToCover(sc: Schema, start: nat)
    ensures Registered(sc, start, []) && Unmistaken(sc, start, [])
  {
  }

  /** The applier hears each of the source table's row events, and no other that has
      something to send. */
  ghost predicate Covered(sc: Schema, start: nat, es: seq<Event>) {
    Registered(sc, start, es) && Unmistaken(sc, start, es)
  }

  /** For every stream, in whatever order: nothing is dropped and nothing foreign sent if
      and only if it is covered, and then the commands sent are the split log of the
      table. Where only one of the two goes wrong they are not. (Where both do, a
      foreign event may happen to send the very command that was dropped.) */
  lemma SentIsLogIff(sc: Schema, start: nat, es: seq<Event>)
    requires Complete(sc, es)
    ensures Dropped(sc, start, es) == 0 && Foreign(sc, start, es) == 0 <==> Covered(sc, start, es)
    ensures Covered(sc, start, es) ==> Applied(sc, start, es).sent == Split(TableLog(sc, es))
    ensures Registered(sc, start, es) || Unmistaken(sc, start, es) ==>
              (Applied(sc, start, es).sent == Split(TableLog(sc, es)) <==> Covered(sc, start, es))
  {
    hide Complete, Applied, Registered, Unmistaken, Split, TableLog;
    Balance(sc, start, es);
    DroppedIff(sc, start, es);
    ForeignIff(sc, start, es);
  }

  /** In time order no event is late. */
  lemma OrderedIsNotLate(start: nat, es: seq<Event>, n: nat)
    requires forall i, j :: 0 <= i < j < |es| && es[i].RowsEvent? && es[j].RowsEvent? ==> es[i].time <= es[j].time
    requires forall i :: 0 <= i < |es| && es[i].RowsEvent? ==> es[i].time >= start
    requires n < |es| && es[n].RowsEvent?
    ensures !Late(start, es, n)
  {
  }

  /** Where table numbers are never reused, the condition reads: each of the
      table's row events has its table map earlier in the stream, and no row event
      of another table whose name differs at most in case or database does. */
  ghost predicate Truthful(es: seq<Event>) {
    forall i, n :: 0 <= i < n < |es| && es[n].RowsEvent? && es[i].TableMap? && es[i].id == es[n].table ==>
      es[i].name == es[n].of
  }

  ghost predicate Mapped(es: seq<Event>, n: nat)
    requires n < |es| && es[n].RowsEvent?
  {
    exists i :: 0 <= i < n && es[i].TableMap? && es[i].id == es[n].table
  }

  lemma ResolvesWhenTruthful(sc: Schema, es: seq<Event>, n: nat)
    requires Truthful(es) && n < |es| && es[n].RowsEvent?
    ensures Resolves(sc, es, n) <==> Mapped(es, n) && SameName(es[n].of.name, sc.table.name)
  {
    hide SameName;
    if Mapped(es, n) {
      var id := es[n].table;
      var front := es[..n];
      var i :| 0 <= i < n && es[i].TableMap? && es[i].id == id;
      assert front[i] == es[i];
      if forall j :: !FirstMap(front, j, id) {
        NoMapYet(front, id);
        assert false;
      } else {
        var j :| FirstMap(front, j, id);
        assert FirstMap(es, j, id);
      }
    }
  }

  // ---------------------------------------------------------------- sessions and restarts

  /** Where a listener that stops after the first `n` events resumes, if it started
      at event `p`: its position did not move past the last table maps. */
  function Place(es: seq<Event>, p: nat, n: nat): (q: nat)
    requires p <= n <= |es|
    ensures p <= q <= n && (q > p ==> !es[q - 1].TableMap?)
    ensures forall i :: q <= i < n ==> es[i].TableMap?
  {
    if n > p && es[n - 1].TableMap? then Place(es, p, n - 1) else n
  }

  /** Where in the binlog the event after `e` starts, if `e` starts at `at`. */
  function EndOf(e: Event, at: (string, nat)): (string, nat) {
    if e.Rotate? then (e.file, e.pos) else (at.0, e.next)
  }

  /** Where event `n` starts, or where the stream ends. */
  function LocationOf(es: seq<Event>, n: nat, at: (string, nat)): (string, nat)
    requires n <= |es|
  {
    if n == 0 then at else EndOf(es[n - 1], LocationOf(es, n - 1, at))
  }

  lemma {:induction false} MapsKeepFile(es: seq<Event>, p: nat, n: nat, at: (string, nat))
    requires p <= n <= |es| && forall i :: p <= i < n ==> es[i].TableMap?
    ensures LocationOf(es, n, at).0 == LocationOf(es, p, at).0
  {
    if n > p { MapsKeepFile(es, p, n - 1, at); }
  }

  lemma PartLast(es: seq<Event>, p: nat, n: nat)
    requires p < n <= |es|
    ensures es[p..n][..n - p - 1] == es[p..n - 1] && es[p..n][n - p - 1] == es[n - 1]
  {
  }

  lemma PositionLast(es: seq<Event>, p: nat, n: nat, at: (string, nat))
    requires p < n <= |es|
    ensures Position(es[p..n], at) == Moved(es[n - 1], Position(es[p..n - 1], at))
  {
    PartLast(es, p, n);
  }

  /** The saved file and position are where the event at the saved place starts. */
  lemma {:induction false} PlaceIsPosition(es: seq<Event>, p: nat, n: nat, at: (string, nat))
    requires p <= n <= |es|
    ensures Position(es[p..n], LocationOf(es, p, at)) == LocationOf(es, Place(es, p, n), at)
  {
    if n > p {
      PositionLast(es, p, n, LocationOf(es, p, at));
      hide Position;
      PlaceIsPosition(es, p, n - 1, at);
      MapsKeepFile(es, Place(es, p, n - 1), n - 1, at);
    }
  }

  /** No two events start at the same place of the binlog. */
  ghost predicate Identified(es: seq<Event>, at: (string, nat)) {
    forall i, j :: 0 <= i < j <= |es| ==> LocationOf(es, i, at) != LocationOf(es, j, at)
  }

  /** What the server looks up for `set_position`: the first event, from `k` on, that
      starts at `wanted`. */
  function Lookup(es: seq<Event>, at: (string, nat), wanted: (string, nat), k: nat): (r: Option<nat>)
    requires k <= |es|
    ensures r.Some? ==> k <= r.value <= |es| && LocationOf(es, r.value, at) == wanted
    decreases |es| - k
  {
    if LocationOf(es, k, at) == wanted then Some(k)
    else if k == |es| then None
    else Lookup(es, at, wanted, k + 1)
  }

  lemma {:induction false} LookupFinds(es: seq<Event>, at: (string, nat), n: nat, k: nat)
    requires Identified(es, at) && k <= n <= |es|
    ensures Lookup(es, at, LocationOf(es, n, at), k) == Some(n)
    decreases n - k
  {
    if k < n { LookupFinds(es, at, n, k + 1); }
  }

  /** What a restart has: the saved place and time, and the index. */
  datatype State = State(place: nat, time: nat, index: Contents)

  /** One life of the listener. It executes the first `cut` commands it has to send,
      perhaps stopping inside an event; the last time its place is saved, it has
      been through the events before `save`. */
  datatype Session = Session(save: nat, cut: nat)

  /** What a restart has to send: it starts without table names. */
  function ToSend(sc: Schema, es: seq<Event>, st: State): seq<Command>
    requires st.place <= |es|
  {
    Applied(sc, st.time, es[st.place..]).sent
  }

  predicate Possible(sc: Schema, es: seq<Event>, s: Session, st: State) {
    && st.place <= s.save <= |es|
    && |Applied(sc, st.time, es[st.place..s.save]).sent| <= s.cut <= |ToSend(sc, es, st)|
  }

  function RunSession(cfg: Config, sc: Schema, es: seq<Event>, s: Session, st: State): State
    requires Possible(sc, es, s, st)
  {
    State(Place(es, st.place, s.save), Latest(st.time, es[st.place..s.save]),
          ExecAll(cfg, ToSend(sc, es, st)[..s.cut], st.index))
  }

  predicate AllPossible(cfg: Config, sc: Schema, es: seq<Event>, ss: seq<Session>, st: State) {
    ss == []
    || (Possible(sc, es, ss[0], st) && AllPossible(cfg, sc, es, ss[1..], RunSession(cfg, sc, es, ss[0], st)))
  }

  function Run(cfg: Config, sc: Schema, es: seq<Event>, ss: seq<Session>, st: State): State
    requires AllPossible(cfg, sc, es, ss, st)
  {
    if ss == [] then st else Run(cfg, sc, es, ss[1..], RunSession(cfg, sc, es, ss[0], st))
  }

  /** From every place the run resumes from, the applier hears just the row events of
      the source table. */
  ghost predicate CoveredRun(cfg: Config, sc: Schema, es: seq<Event>, ss: seq<Session>, st: State)
    requires AllPossible(cfg, sc, es, ss, st) && st.place <= |es|
  {
    && Covered(sc, st.time, es[st.place..])
    && (ss != [] ==> CoveredRun(cfg, sc, es, ss[1..], RunSession(cfg, sc, es, ss[0], st)))
  }

  lemma {:induction false} SentGrows(sc: Schema, start: nat, es: seq<Event>, n: nat)
    requires n <= |es|
    ensures Applied(sc, start, es[..n]).sent <= Applied(sc, start, es).sent
    decreases |es| - n
  {
    if n == |es| {
      assert es[..n] == es;
    } else {
      hide Takes, EventSent;
      AppliedStep(sc, start, es, n);
      StepTakes(sc, Applied(sc, start, es[..n]), es[n]);
      SentGrows(sc, start, es, n + 1);
    }
  }

  /** A life that handles the events before `stop`, all of each, and then saves. */
  function WholeSession(sc: Schema, es: seq<Event>, stop: nat, st: State): Session
    requires st.place <= stop <= |es|
  {
    Session(stop, |Applied(sc, st.time, es[st.place..stop]).sent|)
  }

  lemma WholeIsPossible(sc: Schema, es: seq<Event>, stop: nat, st: State)
    requires st.place <= stop <= |es|
    ensures Possible(sc, es, WholeSession(sc, es, stop, st), st)
    ensures ToSend(sc, es, st)[..WholeSession(sc, es, stop, st).cut] == Applied(sc, st.time, es[st.place..stop]).sent
  {
    assert es[st.place..][..stop - st.place] == es[st.place..stop];
    SentGrows(sc, st.time, es[st.place..], stop - st.place);
  }

  lemma {:induction false} TableLogAppend(sc: Schema, a: seq<Event>, b: seq<Event>)
    ensures TableLog(sc, a + b) == TableLog(sc, a) + TableLog(sc, b)
  {
    if b == [] {
      assert a + b == a;
    } else {
      assert (a + b)[..|a + b| - 1] == a + b[..|b| - 1];
      TableLogAppend(sc, a, b[..|b| - 1]);
    }
  }

  lemma {:induction false} MapsMakeNoLog(sc: Schema, es: seq<Event>)
    requires forall i :: 0 <= i < |es| ==> es[i].TableMap?
    ensures TableLog(sc, es) == []
  {
    if es != [] { MapsMakeNoLog(sc, es[..|es| - 1]); }
  }

  /** The number of split commands of the table before event `p`. */
  function Done(sc: Schema, es: seq<Event>, p: nat): nat
    requires p <= |es|
  {
    |Split(TableLog(sc, es[..p]))|
  }

  lemma DoneSlice(sc: Schema, es: seq<Event>, p: nat, q: nat)
    requires p <= q <= |es|
    ensures Done(sc, es, p) <= Done(sc, es, q) <= |Split(TableLog(sc, es))|
    ensures Split(TableLog(sc, es[p..q])) == Split(TableLog(sc, es))[Done(sc, es, p)..Done(sc, es, q)]
  {
    hide TableLog, Split;
    TableLogAppend(sc, es[..p], es[p..q]);
    TableLogAppend(sc, es[..q], es[q..]);
    assert es[..p] + es[p..q] == es[..q] && es[..q] + es[q..] == es;
    SplitAppend(TableLog(sc, es[..p]), TableLog(sc, es[p..q]));
    SplitAppend(TableLog(sc, es[..q]), TableLog(sc, es[q..]));
  }

  lemma CompleteSlice(sc: Schema, es: seq<Event>, p: nat, q: nat)
    requires Complete(sc, es) && p <= q <= |es|
    ensures Complete(sc, es[p..q])
  {
    hide GoodRows, Sound, Distinct, Of;
    var part := es[p..q];
    forall i | 0 <= i < |part| ensures part[i] == es[p + i] { }
  }

  lemma CoveredPrefix(sc: Schema, start: nat, es: seq<Event>, m: nat)
    requires Covered(sc, start, es) && m <= |es|
    ensures Covered(sc, start, es[..m])
  {
    hide RegisteredAt, UnmistakenAt;
    forall n | 0 <= n < m ensures RegisteredAt(sc, start, es[..m], n) && UnmistakenAt(sc, start, es[..m], n) {
      AtPrefix(sc, start, es, m, n);
    }
  }

  /** What a restart has to send is the table's split log from its place on. */
  lemma SentFrom(sc: Schema, es: seq<Event>, p: nat, q: nat, time: nat)
    requires Complete(sc, es) && p <= q <= |es|
    requires Covered(sc, time, es[p..])
    ensures Done(sc, es, p) <= Done(sc, es, q) <= |Split(TableLog(sc, es))|
    ensures Applied(sc, time, es[p..q]).sent == Split(TableLog(sc, es))[Done(sc, es, p)..Done(sc, es, q)]
  {
    hide Complete, Covered, Applied, TableLog, Split;
    CompleteSlice(sc, es, p, q);
    assert es[p..][..q - p] == es[p..q];
    CoveredPrefix(sc, time, es[p..], q - p);
    SentIsLogIff(sc, time, es[p..q]);
    DoneSlice(sc, es, p, q);
  }

  /** Between sessions: the index is on its way through the table's split log. */
  ghost predicate OnTrack(sc: Schema, es: seq<Event>, t: Contents, st: State, h: nat) {
    && st.place <= |es|
    && st.index.Keys <= t.Keys + NewKeys(Split(TableLog(sc, es)))
    && Replaying(Split(TableLog(sc, es)), t, Done(sc, es, st.place), h, st.index)
  }

  /** Replaying any stretch of a split log, from a place the listener was at. */
  lemma StretchKeepsTrack(cfg: Config, log: seq<Command>, t: Contents, i: nat, j: nat, back: nat, h: nat, s: Contents)
    returns (h': nat)
    requires ValidLog(log, t) && NoUpdates(log) && Roomy(cfg, log, t)
    requires i <= j <= |log| && back <= j && s.Keys <= t.Keys + NewKeys(log)
    requires Replaying(log, t, i, h, s)
    ensures var s' := ExecAll(cfg, log[i..j], s);
            && s'.Keys <= t.Keys + NewKeys(log)
            && Replaying(log, t, back, h', s')
            && (back == j == |log| ==> s' == SourceAll(log, t))
  {
    assert FreshTargets(log);
    hide ValidLog, FreshTargets, Roomy, Replaying, NewKeys, NoUpdates;
    RoomyExecAll(cfg, log, t, log[i..j], s);
    ReplayRange(log, t, i, j, h, s);
    h' := Later(h, j);
    Rewind(log, t, j, h', ApplyAll(log[i..j], s), back);
    if j == |log| { AtTheEnd(log, t, h', ApplyAll(log[i..j], s)); }
  }

  lemma AtTheEnd(log: seq<Command>, t: Contents, h: nat, s: Contents)
    requires Replaying(log, t, |log|, h, s)
    ensures s == SourceAll(log, t)
  {
    FrontIsTable(log, t, |log|, s);
    TableEnds(log, t);
  }

  lemma SessionKeepsTrack(cfg: Config, sc: Schema, es: seq<Event>, t: Contents, s: Session, st: State, h: nat)
    returns (h': nat)
    requires Complete(sc, es) && Possible(sc, es, s, st)
    requires ValidLog(TableLog(sc, es), t) && Roomy(cfg, Split(TableLog(sc, es)), t)
    requires Covered(sc, st.time, es[st.place..]) && OnTrack(sc, es, t, st, h)
    ensures OnTrack(sc, es, t, RunSession(cfg, sc, es, s, st), h')
    ensures s.cut == |ToSend(sc, es, st)| ==> RunSession(cfg, sc, es, s, st).index == SourceAll(TableLog(sc, es), t)
  {
    hide Complete, Covered, Applied, TableLog, Split, ValidLog, Roomy, Replaying, NewKeys, Latest, ExecAll, SourceAll;
    var log, p, q := Split(TableLog(sc, es)), st.place, Place(es, st.place, s.save);
    SplitMeansTheSame(TableLog(sc, es), t);
    assert es[p..|es|] == es[p..] && es[..|es|] == es;
    SentFrom(sc, es, p, |es|, st.time);
    SentFrom(sc, es, p, s.save, st.time);
    DoneSlice(sc, es, q, s.save);
    MapsMakeNoLog(sc, es[q..s.save]);
    EmptySplit();
    var i, j := Done(sc, es, p), Done(sc, es, p) + s.cut;
    assert ToSend(sc, es, st)[..s.cut] == log[i..j];
    h' := StretchKeepsTrack(cfg, log, t, i, j, Done(sc, es, q), h, st.index);
    if j == |log| { var _ := StretchKeepsTrack(cfg, log, t, i, j, j, h, st.index); }
  }

  lemma EmptySplit()
    ensures Split([]) == []
  {
  }

  lemma {:induction false} SessionsConverge(cfg: Config, sc: Schema, es: seq<Event>, t: Contents,
                                            ss: seq<Session>, last: Session, st: State, h: nat)
    requires Complete(sc, es)
    requires ValidLog(TableLog(sc, es), t) && Roomy(cfg, Split(TableLog(sc, es)), t)
    requires OnTrack(sc, es, t, st, h)
    requires AllPossible(cfg, sc, es, ss, st) && CoveredRun(cfg, sc, es, ss, st)
    requires var end := Run(cfg, sc, es, ss, st);
             Possible(sc, es, last, end) && last.cut == |ToSend(sc, es, end)|
    ensures RunSession(cfg, sc, es, last, Run(cfg, sc, es, ss, st)).index == SourceAll(TableLog(sc, es), t)
  {
    hide Complete, Covered, ValidLog, Roomy, OnTrack, Possible, RunSession, ToSend, TableLog, Split, SourceAll;
    if ss == [] {
      var _ := SessionKeepsTrack(cfg, sc, es, t, last, st, h);
    } else {
      var h' := SessionKeepsTrack(cfg, sc, es, t, ss[0], st, h);
      SessionsConverge(cfg, sc, es, t, ss[1..], last, RunSession(cfg, sc, es, ss[0], st), h');
    }
  }

  lemma StartOnTrack(sc: Schema, start: nat, es: seq<Event>, t: Contents)
    ensures OnTrack(sc, es, t, State(0, start, t), 0)
  {
    TableEnds(Split(TableLog(sc, es)), t);
    TableReplaying(Split(TableLog(sc, es)), t, 0);
  }

  /** Convergence of the whole listener: start it any number of times from the saved
      place and time, let each life end anywhere, even inside an event, and save
      its place anywhere on the way. As long as the applier hears, from each saved
      place on, just the row events of the table, the life that gets through
      leaves the index equal to the source table. */
  lemma RestartsConverge(cfg: Config, sc: Schema, start: nat, es: seq<Event>, t: Contents,
                         ss: seq<Session>, last: Session)
    requires Complete(sc, es)
    requires ValidLog(TableLog(sc, es), t) && Roomy(cfg, Split(TableLog(sc, es)), t)
    requires AllPossible(cfg, sc, es, ss, State(0, start, t)) && CoveredRun(cfg, sc, es, ss, State(0, start, t))
    requires var end := Run(cfg, sc, es, ss, State(0, start, t));
             Possible(sc, es, last, end) && last.cut == |ToSend(sc, es, end)|
    ensures RunSession(cfg, sc, es, last, Run(cfg, sc, es, ss, State(0, start, t))).index
         == SourceAll(TableLog(sc, es), t)
  {
    hide Complete, Covered, ValidLog, Roomy, OnTrack, Possible, RunSession, ToSend, TableLog, Split, SourceAll;
    StartOnTrack(sc, start, es, t);
    SessionsConverge(cfg, sc, es, t, ss, last, State(0, start, t), 0);
  }

  /** Each row event of the table comes right behind the table maps of its statement,
      its own among them. */
  ghost predicate Announced(sc: Schema, es: seq<Event>) {
    forall n :: 0 <= n < |es| && Of(sc, es[n]) ==>
      exists i :: 0 <= i < n && AnnouncedAt(es, i, n)
  }

  predicate AnnouncedAt(es: seq<Event>, i: int, n: nat)
    requires n < |es| && es[n].RowsEvent?
  {
    0 <= i < n && es[i].TableMap? && es[i].id == es[n].table && forall j :: i <= j < n ==> es[j].TableMap?
  }

  lemma TruthfulRest(es: seq<Event>, q: nat)
    requires Truthful(es) && q <= |es|
    ensures Truthful(es[q..])
  {
    var rest := es[q..];
    forall i, n | 0 <= i < n < |rest| && rest[n].RowsEvent? && rest[i].TableMap? && rest[i].id == rest[n].table
      ensures rest[i].name == rest[n].of
    {
      assert rest[i] == es[q + i] && rest[n] == es[q + n];
    }
  }

  lemma {:induction false} LatestAppend(start: nat, a: seq<Event>, b: seq<Event>)
    ensures Latest(start, a + b) == Latest(Latest(start, a), b)
  {
    if b == [] {
      assert a + b == a;
    } else {
      assert (a + b)[..|a + b| - 1] == a + b[..|b| - 1];
      LatestAppend(start, a, b[..|b| - 1]);
    }
  }

  lemma {:induction false} MapsTakeNoTime(start: nat, es: seq<Event>)
    requires forall i :: 0 <= i < |es| ==> es[i].TableMap?
    ensures Latest(start, es) == start
  {
    if es != [] { MapsTakeNoTime(start, es[..|es| - 1]); }
  }

  /** A listener that has come from the start holds the time of the whole way. */
  lemma TimeAtPlace(start: nat, es: seq<Event>, p: nat, n: nat)
    requires p <= n <= |es|
    ensures Latest(Latest(start, es[..p]), es[p..n]) == Latest(start, es[..Place(es, p, n)])
  {
    hide Latest;
    var q := Place(es, p, n);
    assert es[..p] + es[p..n] == es[..n] && es[..q] + es[q..n] == es[..n];
    LatestAppend(start, es[..p], es[p..n]);
    LatestAppend(start, es[..q], es[q..n]);
    MapsTakeNoTime(Latest(start, es[..q]), es[q..n]);
  }

  /** Holding it, what it finds late is what was late from the start. */
  lemma LateFrom(start: nat, es: seq<Event>, q: nat, n: nat)
    requires q + n < |es| && es[q + n].RowsEvent?
    ensures Late(Latest(start, es[..q]), es[q..], n) <==> Late(start, es, q + n)
  {
    var rest, e, l := es[q..], es[q + n], Latest(start, es[..q]);
    assert rest[n] == e;
    LatestIsMax(start, es[..q]);
    if i :| 0 <= i < q + n && es[i].RowsEvent? && es[i].time > e.time {
      if i < q { assert es[..q][i] == es[i]; } else { assert rest[i - q] == es[i]; }
    }
    if i :| 0 <= i < n && rest[i].RowsEvent? && rest[i].time > e.time {
      assert es[q + i] == rest[i];
    }
    if l > e.time && l != start {
      var i :| 0 <= i < q && es[..q][i].RowsEvent? && es[..q][i].time == l;
      assert es[i].time > e.time;
    }
  }

  /** With such a stream, every place a listener can resume from is covered. */
  lemma PlaceIsCovered(sc: Schema, start: nat, es: seq<Event>, q: nat)
    requires Truthful(es) && Covered(sc, start, es) && Announced(sc, es)
    requires q <= |es| && (q > 0 ==> !es[q - 1].TableMap?)
    ensures Covered(sc, Latest(start, es[..q]), es[q..])
  {
    hide Resolves, EventSent, SameName, Truthful, Late, Latest;
    var rest, time := es[q..], Latest(start, es[..q]);
    TruthfulRest(es, q);
    forall n | 0 <= n < |rest| && rest[n].RowsEvent?
      ensures RegisteredAt(sc, time, rest, n) && UnmistakenAt(sc, time, rest, n)
    {
      assert rest[n] == es[q + n] && RegisteredAt(sc, start, es, q + n) && UnmistakenAt(sc, start, es, q + n);
      LateFrom(start, es, q, n);
      ResolvesWhenTruthful(sc, rest, n);
      ResolvesWhenTruthful(sc, es, q + n);
      if Of(sc, rest[n]) {
        var i :| 0 <= i < q + n && AnnouncedAt(es, i, q + n);
        assert i >= q;
        assert rest[i - q] == es[i];
        SameNameSelf(sc.table.name);
      } else if Mapped(rest, n) {
        var i :| 0 <= i < n && rest[i].TableMap? && rest[i].id == rest[n].table;
        assert es[q + i] == rest[i];
      }
    }
  }

  lemma {:induction false} RunIsCovered(cfg: Config, sc: Schema, start: nat, es: seq<Event>, ss: seq<Session>,
                                        st: State)
    requires Truthful(es) && Covered(sc, start, es) && Announced(sc, es)
    requires AllPossible(cfg, sc, es, ss, st)
    requires st.place <= |es| && (st.place > 0 ==> !es[st.place - 1].TableMap?)
    requires st.time == Latest(start, es[..st.place])
    ensures CoveredRun(cfg, sc, es, ss, st)
  {
    hide Truthful, Covered, Announced, Latest;
    PlaceIsCovered(sc, start, es, st.place);
    if ss != [] {
      TimeAtPlace(start, es, st.place, ss[0].save);
      RunIsCovered(cfg, sc, start, es, ss[1..], RunSession(cfg, sc, es, ss[0], st));
    }
  }

  // ---------------------------------------------------------------- three ways to miss the table

  const EMP := Schema(TableName("db", "emp"), ["id"], "id")

  function Emp(k: string): Record {
    Record(k, map["id" := k])
  }

  function InsertEvent(time: nat, id: nat, of: TableName, k: string): Event {
    RowsEvent(time, id, of, WriteRows, [[k]], 0)
  }

  lemma RowIsEmp(k: string)
    ensures SourceRecord(EMP, [k]) == Emp(k)
  {
    assert ColumnOf(EMP.columns, "id") == 0;
    assert SourceRecord(EMP, [k]).body == Emp(k).body;
  }

  lemma InsertEventSends(time: nat, id: nat, of: TableName, k: string)
    ensures EventSent(EMP, WriteRows, [[k]]) == [Insert(Emp(k))]
    ensures EventChanges(EMP, InsertEvent(time, id, of, k)) == [Insert(Emp(k))]
  {
    assert Zip(EMP.columns, [k], 0) == map[];
    assert Zip(EMP.columns, [k], 1) == map["id" := k];
    NoChanges(EMP, WriteRows, [[k]]);
    OneMoreChange(EMP, WriteRows, [[k]], 0);
    assert RowRecord(EMP, [k]) == Emp(k);
    RowIsEmp(k);
    assert EventSent(EMP, WriteRows, [[k]]) == ChangesSent(EMP, WriteRows, [[k]], 1);
    assert EventChanges(EMP, InsertEvent(time, id, of, k)) == Changes(EMP, WriteRows, [[k]], 1);
  }

  lemma AppliedTwo(e: Event, f: Event)
    ensures Applied(EMP, 0, [e, f]) == ApplierStep(EMP, ApplierStep(EMP, View(0, map[], []), e), f)
    ensures TableLog(EMP, [e, f]) == (if Of(EMP, e) then EventChanges(EMP, e) else [])
                                   + (if Of(EMP, f) then EventChanges(EMP, f) else [])
  {
    assert [e, f][..1] == [e] && [e][..0] == [];
    assert Applied(EMP, 0, [e]) == ApplierStep(EMP, View(0, map[], []), e);
    assert TableLog(EMP, [e]) == if Of(EMP, e) then EventChanges(EMP, e) else [];
  }

  lemma AppliedThree(d: Event, e: Event, f: Event)
    ensures Applied(EMP, 0, [d, e, f]) == ApplierStep(EMP, Applied(EMP, 0, [d, e]), f)
    ensures TableLog(EMP, [d, e, f]) == TableLog(EMP, [d, e]) + (if Of(EMP, f) then EventChanges(EMP, f) else [])
  {
    assert [d, e, f][..2] == [d, e];
  }

  /** A table of the same name in another database, or of a name that differs in
      case only: its rows are taken for the source table's. */
  lemma OtherTableIsApplied(other: TableName, k: string)
    requires other != EMP.table && SameName(other.name, "emp")
    ensures var es := [TableMap(7, other, 0), InsertEvent(5, 7, other, k)];
            && TableLog(EMP, es) == [] && Registered(EMP, 0, es)
            && Applied(EMP, 0, es).sent == [Insert(Emp(k))]
  {
    hide EventSent, EventChanges, Lower;
    var e, f := TableMap(7, other, 0), InsertEvent(5, 7, other, k);
    InsertEventSends(5, 7, other, k);
    AppliedTwo(e, f);
    LowerIff(other.name, "emp");
  }

  /** A row event with an earlier time than the one before it, here of a table the
      listener does not even know: its row never arrives. */
  lemma LateRowIsLost(other: TableName, k: string)
    requires other != EMP.table
    ensures var es := [TableMap(7, EMP.table, 0), InsertEvent(5, 8, other, "x"), InsertEvent(4, 7, EMP.table, k)];
            && TableLog(EMP, es) == [Insert(Emp(k))] && Resolves(EMP, es, 2)
            && Applied(EMP, 0, es).sent == []
  {
    hide EventSent, EventChanges, Lower;
    var d, e, f := TableMap(7, EMP.table, 0), InsertEvent(5, 8, other, "x"), InsertEvent(4, 7, EMP.table, k);
    InsertEventSends(4, 7, EMP.table, k);
    AppliedTwo(d, e);
    AppliedThree(d, e, f);
    assert FirstMap([d, e, f], 0, 7);
  }

  /** Two row events share a table map and the place is saved between them: after the
      restart the second one is not recognised, and its row never arrives. */
  lemma PartedFromItsMapIsLost(cfg: Config)
    requires cfg.limit >= 2 && cfg.accepts(Emp("a")) && cfg.accepts(Emp("b"))
    ensures var es := [TableMap(7, EMP.table, 0), InsertEvent(5, 7, EMP.table, "a"), InsertEvent(5, 7, EMP.table, "b")];
            var st := State(0, 0, map[]);
            var first, last := Session(2, 1), Session(3, 0);
            && Place(es, 0, 2) == 2
            && Possible(EMP, es, first, st) && Possible(EMP, es, last, RunSession(cfg, EMP, es, first, st))
            && last.cut == |ToSend(EMP, es, RunSession(cfg, EMP, es, first, st))|
            && TableLog(EMP, es) == [Insert(Emp("a")), Insert(Emp("b"))]
            && RunSession(cfg, EMP, es, last, RunSession(cfg, EMP, es, first, st)).index == map["a" := Emp("a").body]
  {
    hide EventSent, EventChanges, Lower, ExecAll;
    var m, e, f := TableMap(7, EMP.table, 0), InsertEvent(5, 7, EMP.table, "a"), InsertEvent(5, 7, EMP.table, "b");
    var es, st := [m, e, f], State(0, 0, map[]);
    InsertEventSends(5, 7, EMP.table, "a");
    InsertEventSends(5, 7, EMP.table, "b");
    AppliedTwo(m, e);
    AppliedThree(m, e, f);
    assert es[0..2] == [m, e] && es[0..] == es && es[2..] == [f] && es[2..3] == [f] && [f][..0] == [];
    assert ToSend(EMP, es, st)[..1] == [Insert(Emp("a"))];
    assert [m, e][..1] == [m] && [m][..0] == [];
    assert Latest(0, [m]) == 0 && Latest(0, [m, e]) == 5;
    assert Applied(EMP, 5, [f]) == View(5, map[], []);
    ExecAllOne(cfg, Insert(Emp("a")), map[]);
    ExecNone(cfg, map["a" := Emp("a").body]);
  }

  // ---------------------------------------------------------------- where to resume

  /** The saved file name, position text and time. */
  datatype Saved = Saved(file: string, pos: string, time: nat)

  /** File, position and time to start from, given what was saved, the oldest binlog
      the server still has, the current time, and the position held so far. */
  function Resume(saved: Option<Saved>, first: string, logName: string, now: nat, pos: nat): (string, nat, nat) {
    match saved
    case None => (first, 4, now)
    case Some(sv) =>
      var mine, oldest := Text.Split(sv.file, '.'), Text.Split(first, '.');
      if |mine| != 2 || |oldest| != 2 then (logName + ".000001", pos, sv.time)
      else if Text.Number(mine[1]) >= Text.Number(oldest[1])
      then (sv.file, Text.Number(sv.pos) % 0x1_0000_0000, sv.time)
      else (first, 4, now)
  }

  function BinlogName(base: string, padding: nat, n: nat): string {
    base + "." + (Text.Zeros(padding) + Text.Decimal(n))
  }

  lemma BinlogNameSplits(base: string, padding: nat, n: nat)
    requires '.' !in base
    ensures Text.Split(BinlogName(base, padding, n), '.') == [base, Text.Zeros(padding) + Text.Decimal(n)]
  {
    var d := Text.Zeros(padding) + Text.Decimal(n);
    Text.PaddedNumber(padding, n);
    Text.NumberOfDecimal(n);
    assert forall i :: 0 <= i < |d| ==> Text.IsDigit(d[i]) && d[i] != '.';
    assert Text.Join([base, d], ['.']) == base + "." + d by {
      assert [base, d][1..] == [d];
    }
    Text.SplitOfJoin([base, d], '.');
  }

  /** For binlog names without a dot in their base, whatever the padding, the choice
      compares the true file numbers. */
  lemma ResumeComparesNumbers(base: string, p: nat, n: nat, base': string, p': nat, n': nat,
                              posText: string, time: nat, logName: string, now: nat, pos: nat)
    requires '.' !in base && '.' !in base'
    ensures Resume(Some(Saved(BinlogName(base, p, n), posText, time)), BinlogName(base', p', n'), logName, now, pos)
         == if n >= n' then (BinlogName(base, p, n), Text.Number(posText) % 0x1_0000_0000, time)
            else (BinlogName(base', p', n'), 4, now)
  {
    BinlogNameSplits(base, p, n);
    BinlogNameSplits(base', p', n');
    Text.PaddedNumber(p, n);
    Text.PaddedNumber(p', n');
  }

  /** With nothing saved the listener starts at the beginning of the oldest binlog, taking
      rows from now on; what was saved in a binlog that is gone since counts for
      nothing. */
  lemma NothingSavedStartsOver(es: seq<Event>, base: string, p: nat, n: nat, base': string, p': nat, n': nat,
                               posText: string, time: nat, logName: string, now: nat, pos: nat)
    ensures var start := Resume(None, BinlogName(base', p', n'), logName, now, pos);
            && Lookup(es, (BinlogName(base', p', n'), 4), (start.0, start.1), 0) == Some(0) && start.2 == now
            && ('.' !in base && '.' !in base' && n < n' ==>
                  Resume(Some(Saved(BinlogName(base, p, n), posText, time)), BinlogName(base', p', n'),
                         logName, now, pos) == start)
  {
    if '.' !in base && '.' !in base' {
      ResumeComparesNumbers(base, p, n, base', p', n', posText, time, logName, now, pos);
    }
  }

  /** A dot with text behind it makes two pieces at least. */
  lemma TwoPieces(s: string, dot: nat)
    requires dot < |s| - 1 && s[dot] == '.'
    ensures |Text.Split(s, '.')| >= 2
  {
    Text.SplitFirst(s, '.');
    var j := Text.Find(s, '.', 0);
    Text.JoinOfSplit(s[j + 1..], '.');
  }

  /** What one life saves is where the next one resumes, as long as the server still has
      that file: same place, same time. */
  lemma SavedPlaceIsFound(es: seq<Event>, at: (string, nat), place: nat, saved: Saved,
                          base: string, p: nat, n: nat, base': string, p': nat, n': nat,
                          logName: string, now: nat, pos: nat)
    requires Identified(es, at) && place <= |es|
    requires (saved.file, Text.Number(saved.pos)) == LocationOf(es, place, at) && Text.Number(saved.pos) < 0x1_0000_0000
    requires '.' !in base && '.' !in base' && saved.file == BinlogName(base, p, n) && n >= n'
    ensures var loaded := Resume(Some(saved), BinlogName(base', p', n'), logName, now, pos);
            Lookup(es, at, (loaded.0, loaded.1), 0) == Some(place) && loaded.2 == saved.time
  {
    ResumeComparesNumbers(base, p, n, base', p', n', saved.pos, saved.time, logName, now, pos);
    LookupFinds(es, at, place, 0);
  }

  lemma DottedName(base: string, padding: nat, n: nat)
    requires '.' in base
    ensures |Text.Split(BinlogName(base, padding, n), '.')| > 2
  {
    hide Text.Split, Text.Decimal, Text.Zeros;
    var d := Text.Zeros(padding) + Text.Decimal(n);
    assert d != "" by { Text.NumberOfDecimal(n); }
    var s := base + "." + d;
    var dot :| 0 <= dot < |base| && base[dot] == '.';
    assert s[dot] == '.' && s[|base|] == '.';
    var i := Text.Find(s, '.', 0);
    Text.SplitFirst(s, '.');
    TwoPieces(s[i + 1..], |base| - i - 1);
  }

  /** The saved position survives the choice only for dot-free bases: with a dot in
      either base the listener goes back to the first default file, keeping
      whatever position it held. */
  lemma DottedBaseForgets(base: string, p: nat, n: nat, base': string, p': nat, n': nat,
                          posText: string, time: nat, logName: string, now: nat, pos: nat)
    requires '.' in base || '.' in base'
    ensures Resume(Some(Saved(BinlogName(base, p, n), posText, time)), BinlogName(base', p', n'), logName, now, pos)
         == (logName + ".000001", pos, time)
  {
    if '.' in base { DottedName(base, p, n); } else { DottedName(base', p', n'); }
  }

  // ---------------------------------------------------------------- the connector

  class MySQLApplier {
    const server: ServerInterface
    const sc: Schema
    var startTimestamp: nat
    var tableIndex: map<nat, TableName>

    constructor (server: ServerInterface, sc: Schema, start: nat)
      ensures this.server == server && this.sc == sc && startTimestamp == start && tableIndex == map[]
    {
      this.server, this.sc, startTimestamp, tableIndex := server, sc, start, map[];
    }

    method TableInsert(row: Row)
      requires server.Valid() && row != [] && sc.columns != []
      modifies server.indexer
      ensures server.Valid()
      ensures server.Contents() == ExecAll(server.cfg, InsertOf(sc, row), old(server.Contents()))
    {
      hide ExecAll, ServerInterface.Valid, ServerInterface.Contents;
      var record: Fields := map[];
      var i := 0;
      while true
        invariant 0 <= i < |row| && i < |sc.columns|
        invariant record == Zip(sc.columns, row, i)
        decreases |row| - i
      {
        record := record[sc.columns[i] := row[i]];
        i := i + 1;
        if i == |row| || i == |sc.columns| {
          break;
        }
      }
      assert record == RowFields(sc, row);
      var _ := server.InsertRecord(Parsed(RecordOf(sc.pk, record)));
      ExecFew(server.cfg, InsertOf(sc, row), old(server.Contents()));
    }

    method TableDelete(row: Row)
      requires server.Valid() && row != [] && sc.columns != []
      modifies server.indexer
      ensures server.Valid()
      ensures server.Contents() == ExecAll(server.cfg, DeleteOf(sc, row), old(server.Contents()))
    {
      hide ExecAll, ServerInterface.Valid, ServerInterface.Contents;
      var i := 0;
      while true
        invariant 0 <= i < |row| && i < |sc.columns|
        invariant KeyFrom(sc, row, 0) == KeyFrom(sc, row, i)
        invariant server.Valid() && server.Contents() == old(server.Contents())
        decreases |row| - i
      {
        if sc.columns[i] == sc.pk {
          var _ := server.DeleteRecord(row[i]);
          ExecFew(server.cfg, DeleteOf(sc, row), old(server.Contents()));
          return;
        }
        i := i + 1;
        if i == |row| || i == |sc.columns| {
          break;
        }
      }
      ExecFew(server.cfg, DeleteOf(sc, row), old(server.Contents()));
    }

    method TableUpdate(oldRow: Row, newRow: Row)
      requires server.Valid() && oldRow != [] && newRow != [] && sc.columns != []
      modifies server.indexer
      ensures server.Valid()
      ensures server.Contents()
           == ExecAll(server.cfg, DeleteOf(sc, oldRow) + InsertOf(sc, newRow), old(server.Contents()))
    {
      hide ExecAll, InsertOf, DeleteOf, ServerInterface.Valid, ServerInterface.Contents;
      TableDelete(oldRow);
      TableInsert(newRow);
      ExecAllAppend(server.cfg, DeleteOf(sc, oldRow), InsertOf(sc, newRow), old(server.Contents()));
    }

    /** One turn of the row loop: an update takes the row after its own as well. */
    method ApplyChange(kind: RowKind, rows: seq<Row>, it: nat, ghost n: nat) returns (last: nat)
      requires server.Valid() && sc.columns != []
      requires it == Rows(kind, n) && Rows(kind, n + 1) <= |rows|
      requires forall i :: 0 <= i < |rows| ==> rows[i] != []
      modifies server.indexer
      ensures server.Valid() && last + 1 == Rows(kind, n + 1)
      ensures server.Contents() == ExecAll(server.cfg, ChangeSent(sc, kind, rows, n), old(server.Contents()))
    {
      hide InsertOf, DeleteOf, ExecAll, ServerInterface.Valid, ServerInterface.Contents;
      last := it;
      match kind {
        case WriteRows =>
          TableInsert(rows[it]);
        case UpdateRows =>
          last := it + 1;
          TableUpdate(rows[it], rows[last]);
        case DeleteRows =>
          TableDelete(rows[it]);
      }
    }

    /** The row loop: one row, or an old and a new row, at a time. */
    method ApplyRows(kind: RowKind, rows: seq<Row>)
      requires server.Valid() && sc.columns != []
      requires Sound(kind, rows) && forall i :: 0 <= i < |rows| ==> rows[i] != []
      modifies server.indexer
      ensures server.Valid()
      ensures server.Contents() == ExecAll(server.cfg, EventSent(sc, kind, rows), old(server.Contents()))
    {
      hide ChangeSent, ChangesSent, ExecAll, InsertOf, DeleteOf, Zip, KeyFrom, RowFields,
           ServerInterface.Valid, ServerInterface.Contents;
      ghost var s, n := server.Contents(), 0;
      ExecNone(server.cfg, s);
      NoChanges(sc, kind, rows);
      var it := 0;
      while true
        invariant it == Rows(kind, n) < |rows|
        invariant server.Valid()
        invariant server.Contents() == ExecAll(server.cfg, ChangesSent(sc, kind, rows, n), s)
        decreases |rows| - it
      {
        it := ApplyChange(kind, rows, it, n);
        ExecAllAppend(server.cfg, ChangesSent(sc, kind, rows, n), ChangeSent(sc, kind, rows, n), s);
        OneMoreChange(sc, kind, rows, n);
        n := n + 1;
        it := it + 1;
        if it == |rows| {
          break;
        }
      }
    }

    method ProcessTableMap(id: nat, name: TableName)
      modifies this
      ensures startTimestamp == old(startTimestamp)
      ensures tableIndex == if id in old(tableIndex) then old(tableIndex) else old(tableIndex)[id := name]
    {
      if id !in tableIndex {
        tableIndex := tableIndex[id := name];
      }
    }

    method ProcessRows(e: Event)
      requires server.Valid() && sc.columns != []
      requires e.RowsEvent? && Sound(e.kind, e.rows) && forall i :: 0 <= i < |e.rows| ==> e.rows[i] != []
      modifies this, server.indexer
      ensures server.Valid() && tableIndex == old(tableIndex)
      ensures var v := ApplierStep(sc, View(old(startTimestamp), tableIndex, []), e);
              startTimestamp == v.time
              && server.Contents() == ExecAll(server.cfg, v.sent, old(server.Contents()))
    {
      hide EventSent, ExecAll, Lower, ServerInterface.Valid, ServerInterface.Contents;
      ExecNone(server.cfg, server.Contents());
      if e.time < startTimestamp {
        return;
      }
      startTimestamp := e.time;
      if e.table !in tableIndex {
        return;
      }
      if Lower(sc.table.name) != Lower(tableIndex[e.table].name) {
        return;
      }
      ApplyRows(e.kind, e.rows);
      assert [] + EventSent(sc, e.kind, e.rows) == EventSent(sc, e.kind, e.rows);
    }
  }

  lemma ExecNone(cfg: Config, s: Contents)
    ensures ExecAll(cfg, [], s) == s
  {
  }

  lemma StepSent(sc: Schema, v: View, e: Event)
    ensures ApplierStep(sc, v, e)
         == ApplierStep(sc, v.(sent := []), e).(sent := v.sent + ApplierStep(sc, v.(sent := []), e).sent)
  {
    hide EventSent, Ours;
    if e.RowsEvent? {
      var sent := EventSent(sc, e.kind, e.rows);
      assert [] + sent == sent;
    }
  }

  class MySQLConnector {
    const server: ServerInterface
    const sc: Schema
    var currentLogFile: string
    var nextPosition: nat
    var lastAccessedLogRecordTime: nat

    constructor (server: ServerInterface, sc: Schema, file: string, pos: nat, time: nat)
      ensures this.server == server && this.sc == sc
      ensures currentLogFile == file && nextPosition == pos && lastAccessedLogRecordTime == time
    {
      this.server, this.sc := server, sc;
      currentLogFile, nextPosition, lastAccessedLogRecordTime := file, pos, time;
    }

    /** `first` is the oldest binlog file, if the server lists any. */
    method LoadLastAccessedLogRecordTime(saved: Option<Saved>, first: Option<string>, logName: string, now: nat)
      modifies this
      ensures (currentLogFile, nextPosition, lastAccessedLogRecordTime)
           == Resume(saved, if first.Some? then first.value else logName + ".000001", logName, now, old(nextPosition))
    {
      var firstLogFile := if first.Some? then first.value else logName + ".000001";
      if saved.Some? {
        lastAccessedLogRecordTime := saved.value.time;
        var loaded := Text.SplitString(saved.value.file, '.', []);
        var oldest := Text.SplitString(firstLogFile, '.', []);
        if |loaded| != 2 || |oldest| != 2 {
          currentLogFile := logName + ".000001";
        } else if Text.Number(loaded[1]) >= Text.Number(oldest[1]) {
          currentLogFile := saved.value.file;
          nextPosition := Text.Number(saved.value.pos) % 0x1_0000_0000;
        } else {
          currentLogFile, nextPosition, lastAccessedLogRecordTime := firstLogFile, 4, now;
        }
      } else {
        currentLogFile, nextPosition, lastAccessedLogRecordTime := firstLogFile, 4, now;
      }
    }

    /** One event: the applier's handlers see it first, and a table map goes no
        further; the others move the connector's own time, file and position. */
    method HandleEvent(applier: MySQLApplier, e: Event)
      requires server.Valid() && sc.columns != []
      requires applier.server == server && applier.sc == sc
      requires e.RowsEvent? ==> Sound(e.kind, e.rows) && forall i :: 0 <= i < |e.rows| ==> e.rows[i] != []
      modifies this, applier, server.indexer
      ensures server.Valid()
      ensures var v := ApplierStep(sc, View(old(applier.startTimestamp), old(applier.tableIndex), []), e);
              && applier.startTimestamp == v.time && applier.tableIndex == v.names
              && server.Contents() == ExecAll(server.cfg, v.sent, old(server.Contents()))
      ensures lastAccessedLogRecordTime == LaterTime(e, old(lastAccessedLogRecordTime))
      ensures (currentLogFile, nextPosition) == Moved(e, (old(currentLogFile), old(nextPosition)))
    {
      hide EventSent, Ours, ExecAll, ServerInterface.Valid, ServerInterface.Contents;
      ExecNone(server.cfg, server.Contents());
      if e.TableMap? {
        applier.ProcessTableMap(e.id, e.name);
        return;
      }
      if e.RowsEvent? {
        applier.ProcessRows(e);
      }
      match e {
        case Rotate(file, pos) =>
          currentLogFile := file;
          nextPosition := pos;
        case RowsEvent(time, _, _, _, _, _) =>
          if time > lastAccessedLogRecordTime {
            lastAccessedLogRecordTime := time;
          }
        case _ =>
      }
      if !e.Rotate? {
        nextPosition := e.next;
      }
    }

    /** The event loop. The applier keeps a copy of the start time of its own; the two
        times agree at every loop head. */
    method RunListener(es: seq<Event>)
      requires server.Valid() && sc.columns != [] && SoundEvents(es)
      requires forall i, j :: 0 <= i < |es| && es[i].RowsEvent? && 0 <= j < |es[i].rows| ==> es[i].rows[j] != []
      modifies this, server.indexer
      ensures server.Valid()
      ensures lastAccessedLogRecordTime == Latest(old(lastAccessedLogRecordTime), es)
      ensures (currentLogFile, nextPosition) == Position(es, (old(currentLogFile), old(nextPosition)))
      ensures server.Contents()
           == ExecAll(server.cfg, Applied(sc, old(lastAccessedLogRecordTime), es).sent, old(server.Contents()))
    {
      hide Sound, ApplierStep, LaterTime, Moved, ExecAll, ServerInterface.Valid, ServerInterface.Contents;
      ghost var s, start, at := server.Contents(), lastAccessedLogRecordTime, (currentLogFile, nextPosition);
      var applier := new MySQLApplier(server, sc, lastAccessedLogRecordTime);
      ghost var sent: seq<Command> := [];
      ExecNone(server.cfg, s);
      var i := 0;
      while i < |es|
        invariant 0 <= i <= |es|
        invariant server.Valid() && applier.server == server && applier.sc == sc && fresh(applier)
        invariant applier.startTimestamp == lastAccessedLogRecordTime == Latest(start, es[..i])
        invariant Applied(sc, start, es[..i]) == View(applier.startTimestamp, applier.tableIndex, sent)
        invariant server.Contents() == ExecAll(server.cfg, sent, s)
        invariant (currentLogFile, nextPosition) == Position(es[..i], at)
      {
        assert es[..i + 1][..i] == es[..i];
        AppliedStep(sc, start, es, i);
        StepSent(sc, Applied(sc, start, es[..i]), es[i]);
        FilterIsRunningMax(sc, start, es[..i + 1]);
        ghost var more := ApplierStep(sc, View(applier.startTimestamp, applier.tableIndex, []), es[i]).sent;
        HandleEvent(applier, es[i]);
        ExecAllAppend(server.cfg, sent, more, s);
        sent := sent + more;
        i := i + 1;
      }
      assert es[..|es|] == es;
    }

    /** One life of the listener: load what was saved, resume there, handle the events
        before `stop`, and save. */
    method Live(saved: Option<Saved>, first: Option<string>, logName: string, now: nat,
                es: seq<Event>, ghost at: (string, nat), place: nat, stop: nat)
      returns (saved': Saved)
      requires server.Valid() && sc.columns != [] && SoundEvents(es)
      requires forall i, j :: 0 <= i < |es| && es[i].RowsEvent? && 0 <= j < |es[i].rows| ==> es[i].rows[j] != []
      requires var loaded := Resume(saved, if first.Some? then first.value else logName + ".000001", logName, now,
                                    nextPosition);
               Lookup(es, at, (loaded.0, loaded.1), 0) == Some(place)
      requires place <= stop <= |es|
      modifies this, server.indexer
      ensures server.Valid()
      ensures var loaded := Resume(saved, if first.Some? then first.value else logName + ".000001", logName, now,
                                   old(nextPosition));
              var st := State(place, loaded.2, old(server.Contents()));
              && Possible(sc, es, WholeSession(sc, es, stop, st), st)
              && var after := RunSession(server.cfg, sc, es, WholeSession(sc, es, stop, st), st);
                 && server.Contents() == after.index && saved'.time == after.time
                 && (saved'.file, Text.Number(saved'.pos)) == LocationOf(es, after.place, at)
    {
      hide Sound, Lookup, Resume, ExecAll, Applied, ServerInterface.Valid, ServerInterface.Contents;
      LoadLastAccessedLogRecordTime(saved, first, logName, now);
      ghost var st := State(place, lastAccessedLogRecordTime, server.Contents());
      assert (currentLogFile, nextPosition) == LocationOf(es, place, at);
      WholeIsPossible(sc, es, stop, st);
      PlaceIsPosition(es, place, stop, at);
      ghost var part := es[place..stop];
      assert forall i :: 0 <= i < |part| ==> part[i] == es[place + i];
      RunListener(es[place..stop]);
      Text.NumberOfDecimal(nextPosition);
      saved' := Saved(currentLogFile, Text.Decimal(nextPosition), lastAccessedLogRecordTime);
    }
  }
}
