/** The SQLite listener: a log table the connector creates, filled by triggers it
    creates, read back by date and pruned behind the watermark. */
module Sqlite {
  import opened Wrappers
  import opened Index
  import opened ChangeLog
  import opened Server
  import opened Text

  // ---------------------------------------------------------------- the schema map

  datatype Column = Column(name: string, kind: string)

  /** Alphabetical order, as std::map keeps its keys. */
  predicate Before(a: string, b: string) {
    b != "" && (a == "" || a[0] < b[0] || (a[0] == b[0] && Before(a[1..], b[1..])))
  }

  ghost predicate Lexicographic(a: string, b: string, n: nat) {
    n <= |a| && n < |b| && a[..n] == b[..n] && (n == |a| || a[n] < b[n])
  }

  /** The texts share a start; there the first ends, or has the smaller character. */
  lemma {:induction false} BeforeIsLexicographic(a: string, b: string)
    ensures Before(a, b) <==> exists n: nat :: Lexicographic(a, b, n)
  {
    forall n: nat | Lexicographic(a, b, n) && n > 0 ensures a[0] == b[0] { assert a[..n][0] == b[..n][0]; }
    if a != "" && b != "" && a[0] == b[0] {
      var a', b' := a[1..], b[1..];
      BeforeIsLexicographic(a', b');
      assert a == [a[0]] + a' && b == [b[0]] + b';
      if n: nat :| Lexicographic(a', b', n) {
        assert a[..n + 1] == [a[0]] + a'[..n] && b[..n + 1] == [b[0]] + b'[..n];
        assert Lexicographic(a, b, n + 1);
      }
      if n: nat :| Lexicographic(a, b, n) {
        assert n > 0;
        assert a'[..n - 1] == a[..n][1..] && b'[..n - 1] == b[..n][1..];
        assert Lexicographic(a', b', n - 1);
      }
    } else if b != "" && (a == "" || a[0] < b[0]) {
      assert Lexicographic(a, b, 0);
    }
  }

  lemma {:induction false} BeforeIsTotal(a: string, b: string)
    ensures Before(a, b) || Before(b, a) || a == b
    ensures !(Before(a, b) && Before(b, a)) && !Before(a, a)
  {
    if a != "" {
      BeforeIsTotal(a[1..], a[1..]);
      if b != "" && a[0] == b[0] {
        BeforeIsTotal(a[1..], b[1..]);
        assert a == [a[0]] + a[1..] && b == [b[0]] + b[1..];
      }
    }
  }

  lemma {:induction false} BeforeIsTransitive(a: string, b: string, c: string)
    requires Before(a, b) && Before(b, c)
    ensures Before(a, c)
  {
    if a != "" && a[0] == b[0] && b[0] == c[0] { BeforeIsTransitive(a[1..], b[1..], c[1..]); }
  }

  ghost predicate Sorted(m: seq<Column>) {
    forall i, j :: 0 <= i < j < |m| ==> Before(m[i].name, m[j].name)
  }

  /** `tableSchema[key] = value`. */
  function Put(m: seq<Column>, c: Column): seq<Column> {
    if m == [] then [c]
    else if m[0].name == c.name then [c] + m[1..]
    else if Before(c.name, m[0].name) then [c] + m
    else [m[0]] + Put(m[1..], c)
  }

  /** The map after the declared columns, in their order. */
  function SchemaOf(declared: seq<Column>): seq<Column> {
    if declared == [] then [] else Put(SchemaOf(declared[..|declared| - 1]), declared[|declared| - 1])
  }

  /** A sorted list behind a smaller head. */
  lemma SortedCons(h: Column, rest: seq<Column>)
    ensures Sorted([h] + rest) <==> Sorted(rest) && forall x :: x in rest ==> Before(h.name, x.name)
  {
    hide Before;
    var m := [h] + rest;
    if Sorted(m) {
      forall x | x in rest ensures Before(h.name, x.name) {
        var i :| 0 <= i < |rest| && rest[i] == x;
        assert Before(m[0].name, m[i + 1].name);
      }
      forall i, j | 0 <= i < j < |rest| ensures Before(rest[i].name, rest[j].name) {
        assert Before(m[i + 1].name, m[j + 1].name);
      }
    }
  }

  lemma BeforeAll(c: Column, h: Column, rest: seq<Column>)
    requires Before(c.name, h.name) && forall x :: x in rest ==> Before(h.name, x.name)
    ensures forall x :: x in [h] + rest ==> Before(c.name, x.name) && x.name != c.name
  {
    forall x | x in [h] + rest ensures Before(c.name, x.name) && x.name != c.name {
      if x != h { BeforeIsTransitive(c.name, h.name, x.name); }
      BeforeIsTotal(c.name, x.name);
    }
  }

  lemma {:induction false} PutKeeps(m: seq<Column>, c: Column)
    requires Sorted(m)
    ensures Sorted(Put(m, c))
    ensures forall x :: x in Put(m, c) <==> x == c || (x in m && x.name != c.name)
  {
    hide Before, Sorted;
    if m == [] {
      EmptySorted();
      SortedCons(c, []);
      assert [c] + [] == [c];
    } else {
      var h, rest := m[0], m[1..];
      assert m == [h] + rest;
      SortedCons(h, rest);
      BeforeIsTotal(h.name, c.name);
      forall x | x in rest ensures x.name != h.name { BeforeIsTotal(h.name, x.name); }
      if h.name == c.name {
        SortedCons(c, rest);
      } else if Before(c.name, h.name) {
        BeforeAll(c, h, rest);
        SortedCons(c, m);
      } else {
        PutKeeps(rest, c);
        SortedCons(h, Put(rest, c));
      }
    }
  }

  lemma EmptySorted()
    ensures Sorted([])
  {
  }

  ghost predicate DistinctNames(cs: seq<Column>) {
    forall i, j :: 0 <= i < j < |cs| ==> cs[i].name != cs[j].name
  }

  lemma {:induction false} SchemaHolds(declared: seq<Column>)
    requires DistinctNames(declared)
    ensures Sorted(SchemaOf(declared))
    ensures forall x :: x in SchemaOf(declared) <==> x in declared
  {
    hide Sorted, Before, Put;
    if declared == [] {
      EmptySorted();
    } else {
      var front, c := declared[..|declared| - 1], declared[|declared| - 1];
      SchemaHolds(front);
      PutKeeps(SchemaOf(front), c);
      assert declared == front + [c];
      assert forall x :: x in front ==> x.name != c.name;
    }
  }

  /** A sorted list is determined by what it holds. */
  lemma {:induction false} SortedIsUnique(a: seq<Column>, b: seq<Column>)
    requires Sorted(a) && Sorted(b) && forall x :: x in a <==> x in b
    ensures a == b
  {
    assert (a != [] ==> a[0] in a) && (b != [] ==> b[0] in b);
    if a != [] && b != [] {
      assert a[0] in b && b[0] in a;
      BeforeIsTotal(a[0].name, b[0].name);
      assert a[0] == b[0];
      assert a == [a[0]] + a[1..] && b == [b[0]] + b[1..];
      forall x | x in a[1..] ensures x in b[1..] { assert x in b; BeforeIsTotal(x.name, x.name); }
      forall x | x in b[1..] ensures x in a[1..] { assert x in a; BeforeIsTotal(x.name, x.name); }
      SortedIsUnique(a[1..], b[1..]);
    }
  }

  /** The order in which the source declares its columns does not matter. */
  lemma SchemaIgnoresOrder(a: seq<Column>, b: seq<Column>)
    requires DistinctNames(a) && DistinctNames(b)
    requires forall x :: x in a <==> x in b
    ensures SchemaOf(a) == SchemaOf(b)
  {
    SchemaHolds(a);
    SchemaHolds(b);
    SortedIsUnique(SchemaOf(a), SchemaOf(b));
  }

  // ---------------------------------------------------------------- the generated SQL

  function Items(m: seq<Column>, prefix: string, withKind: bool): seq<string> {
    seq(|m|, i requires 0 <= i < |m| =>
      prefix + m[i].name + (if withKind then " " + m[i].kind else "") + " ")
  }

  /** The column list of CREATE TABLE (name and type) or a trigger's value list
      (" new." or " old." before each name): the loop looks one column ahead
      to decide on the comma. */
  method ColumnList(m: seq<Column>, prefix: string, withKind: bool) returns (sql: string)
    ensures sql == Join(Items(m, prefix, withKind), ",")
  {
    ghost var items := Items(m, prefix, withKind);
    sql := "";
    var it := 0;
    while it < |m|
      invariant 0 <= it <= |m|
      invariant sql == Join(items[..it], ",") + (if 0 < it < |m| then "," else "")
    {
      ghost var before := items[..it];
      var item := prefix + m[it].name + (if withKind then " " + m[it].kind else "") + " ";
      assert items[..it + 1] == before + [item];
      if it > 0 { JoinLast(before, ",", item); }
      sql := sql + item;
      if it + 1 != |m| {
        sql := sql + ",";
      }
      it := it + 1;
    }
    assert items[..|m|] == items;
  }

  // ---------------------------------------------------------------- triggers and log rows

  /** A stored value; NULL is None. */
  type Cell = Option<string>
  type SourceRow = map<string, Cell>

  /** A change of the source table. */
  datatype Change =
    | Inserted(row: SourceRow)
    | Deleted(row: SourceRow)
    | Updated(before: SourceRow, row: SourceRow)

  /** A row of the log table: the three fixed columns, none of them NULL, and one
      cell for each schema column. */
  datatype LogRow = LogRow(id: string, date: int, op: string, cells: seq<Cell>)

  ghost predicate FullRow(m: seq<Column>, pk: string, row: SourceRow) {
    && (forall c :: c in row <==> exists i :: 0 <= i < |m| && m[i].name == c)
    && pk in row && row[pk].Some? && row[pk].value != ""
  }

  ghost predicate FullChange(m: seq<Column>, pk: string, c: Change) {
    FullRow(m, pk, c.row) && (c.Updated? ==> FullRow(m, pk, c.before))
  }

  function CellAt(row: SourceRow, name: string): Cell {
    if name in row then row[name] else None
  }

  function ShownCell(c: Cell): string {
    if c.Some? then c.value else "NULL"
  }

  /** The row the triggers write: the key of the new row after an insert, of the old
      one after a delete or an update; and the values in schema order. */
  function Trigger(m: seq<Column>, pk: string, c: Change, date: int): LogRow {
    var id := ShownCell(CellAt(if c.Updated? then c.before else c.row, pk));
    var op := match c case Inserted(_) => "i" case Deleted(_) => "d" case Updated(_, _) => "u";
    LogRow(id, date, op, seq(|m|, i requires 0 <= i < |m| => CellAt(c.row, m[i].name)))
  }

  // ---------------------------------------------------------------- what the generated SQL means

  datatype TriggerKind = OnInsert | OnDelete | OnUpdate

  function IdPrefix(kind: TriggerKind): string {
    if kind.OnInsert? then "new." else "old."
  }

  function CellPrefix(kind: TriggerKind): string {
    if kind.OnDelete? then " old." else " new."
  }

  function Letter(kind: TriggerKind): char {
    match kind case OnInsert => 'i' case OnDelete => 'd' case OnUpdate => 'u'
  }

  /** The row a trigger inserts, as its text gives it: the key, the time, the letter,
      and the value list. */
  function TupleText(kind: TriggerKind, m: seq<Column>, pk: string): string {
    IdPrefix(kind) + pk + " , strftime('%s', 'now'),'" + [Letter(kind)] + "',"
    + Join(Items(m, CellPrefix(kind), false), ",")
  }

  method PrintTuple(kind: TriggerKind, m: seq<Column>, pk: string) returns (sql: string)
    ensures sql == TupleText(kind, m, pk)
  {
    hide Items, Join;
    match kind {
      case OnInsert =>
        sql := "new." + pk + " , strftime('%s', 'now'),'" + "i" + "',";
        var list := ColumnList(m, " new.", false);
        sql := sql + list;
      case OnDelete =>
        sql := "old." + pk + " , strftime('%s', 'now'),'" + "d" + "',";
        var list := ColumnList(m, " old.", false);
        sql := sql + list;
      case OnUpdate =>
        sql := "old." + pk + " , strftime('%s', 'now'),'" + "u" + "',";
        var list := ColumnList(m, " new.", false);
        sql := sql + list;
    }
  }

  /** What the database takes a column expression for: a value of the row before the
      change or of the row after it, with a blank on either side of no account. */
  function Meaning(expr: string, before: SourceRow, after: SourceRow): Cell {
    var e := if expr != "" && expr[0] == ' ' then expr[1..] else expr;
    if |e| < 5 || e[|e| - 1] != ' ' then None
    else if e[..4] == "new." then CellAt(after, e[4..|e| - 1])
    else if e[..4] == "old." then CellAt(before, e[4..|e| - 1])
    else None
  }

  /** The log row a tuple's text stands for. Its expressions are separated by commas;
      the call that gives the time has one of its own. */
  function Written(tuple: string, before: SourceRow, after: SourceRow, date: int): Option<LogRow> {
    var exprs := Split(tuple, ',');
    if |exprs| < 4 || exprs[1] != " strftime('%s'" || exprs[2] != " 'now')" || |exprs[3]| != 3 then None
    else
      var id := Meaning(exprs[0], before, after);
      var cells := seq(|exprs| - 4, i requires 0 <= i < |exprs| - 4 => Meaning(exprs[i + 4], before, after));
      if id.None? then None else Some(LogRow(id.value, date, exprs[3][1..2], cells))
  }

  lemma MeaningOf(name: string, before: SourceRow, after: SourceRow)
    ensures Meaning(" new." + name + " ", before, after) == CellAt(after, name)
    ensures Meaning(" old." + name + " ", before, after) == CellAt(before, name)
    ensures Meaning("new." + name + " ", before, after) == CellAt(after, name)
    ensures Meaning("old." + name + " ", before, after) == CellAt(before, name)
  {
    var n, o := "new." + name + " ", "old." + name + " ";
    assert n[..4] == "new." && n[4..|n| - 1] == name;
    assert o[..4] == "old." && o[4..|o| - 1] == name;
    assert (" new." + name + " ")[1..] == n && (" old." + name + " ")[1..] == o;
  }

  /** The expressions of the tuple. */
  function Exprs(kind: TriggerKind, m: seq<Column>, pk: string): seq<string> {
    [IdPrefix(kind) + pk + " ", " strftime('%s'", " 'now')", ['\'', Letter(kind), '\'']]
    + Items(m, CellPrefix(kind), false)
  }

  lemma TextSplits(a: string, letter: char, rest: string)
    ensures a + " , strftime('%s', 'now'),'" + [letter] + "'," + rest
         == (a + " ") + "," + " strftime('%s'" + "," + " 'now')" + "," + ['\'', letter, '\''] + "," + rest
  {
    var now := " " + "," + " strftime('%s'" + "," + " 'now')" + "," + "'";
    assert " , strftime('%s', 'now'),'" == now;
    assert ['\'', letter, '\''] == "'" + [letter] + "'" && "'," == "'" + ",";
  }

  lemma ExprsAreClean(kind: TriggerKind, m: seq<Column>, pk: string)
    requires ',' !in pk && forall i :: 0 <= i < |m| ==> ',' !in m[i].name
    ensures forall i :: 0 <= i < |Exprs(kind, m, pk)| ==> ',' !in Exprs(kind, m, pk)[i]
    ensures m != [] ==> Exprs(kind, m, pk)[|Exprs(kind, m, pk)| - 1] != ""
  {
    var e := Exprs(kind, m, pk);
    forall i | 4 <= i < |e| ensures ',' !in e[i] {
      assert e[i] == Items(m, CellPrefix(kind), false)[i - 4];
    }
  }

  lemma TupleSplits(kind: TriggerKind, m: seq<Column>, pk: string)
    requires m != [] && ',' !in pk && forall i :: 0 <= i < |m| ==> ',' !in m[i].name
    ensures Split(TupleText(kind, m, pk), ',') == Exprs(kind, m, pk)
  {
    hide Split, Join;
    ExprsAreClean(kind, m, pk);
    var e, items := Exprs(kind, m, pk), Items(m, CellPrefix(kind), false);
    JoinFour(e[0], e[1], e[2], e[3], items, ",");
    TextSplits(IdPrefix(kind) + pk, Letter(kind), Join(items, ","));
    hide Exprs, Items, IdPrefix, Letter, CellPrefix;
    SplitOfJoin(e, ',');
  }

  lemma JoinFour(a: string, b: string, c: string, d: string, rest: seq<string>, sep: string)
    requires rest != []
    ensures Join([a, b, c, d] + rest, sep) == a + sep + b + sep + c + sep + d + sep + Join(rest, sep)
  {
    hide Join;
    assert [a] + ([b] + ([c] + ([d] + rest))) == [a, b, c, d] + rest;
    JoinCons(d, rest, sep);
    JoinCons(c, [d] + rest, sep);
    JoinCons(b, [c] + ([d] + rest), sep);
    JoinCons(a, [b] + ([c] + ([d] + rest)), sep);
  }

  lemma ExprsMean(kind: TriggerKind, m: seq<Column>, pk: string, before: SourceRow, after: SourceRow)
    ensures var e := Exprs(kind, m, pk);
            && |e| == |m| + 4 && e[1] == " strftime('%s'" && e[2] == " 'now')" && e[3] == ['\'', Letter(kind), '\'']
            && Meaning(e[0], before, after) == CellAt(if kind.OnInsert? then after else before, pk)
            && forall i :: 0 <= i < |m| ==>
                 Meaning(e[i + 4], before, after) == CellAt(if kind.OnDelete? then before else after, m[i].name)
  {
    hide Meaning;
    MeaningOf(pk, before, after);
    var e := Exprs(kind, m, pk);
    forall i | 0 <= i < |m|
      ensures Meaning(e[i + 4], before, after) == CellAt(if kind.OnDelete? then before else after, m[i].name)
    {
      MeaningOf(m[i].name, before, after);
      assert e[i + 4] == CellPrefix(kind) + m[i].name + " ";
    }
  }

  function KindOf(c: Change): TriggerKind {
    match c case Inserted(_) => OnInsert case Deleted(_) => OnDelete case Updated(_, _) => OnUpdate
  }

  /** The row before the change and the row after it; an inserted row had none before, a
      deleted one has none after. */
  function Sides(c: Change): (SourceRow, SourceRow) {
    match c
    case Inserted(row) => (map[], row)
    case Deleted(row) => (row, map[])
    case Updated(before, row) => (before, row)
  }

  /** The text the connector puts into its triggers, evaluated by the database for a
      change, writes the row the listener is said to find. */
  lemma TriggerTextWrites(m: seq<Column>, pk: string, c: Change, date: int)
    requires FullChange(m, pk, c) && forall i :: 0 <= i < |m| ==> ',' !in m[i].name
    ensures Written(TupleText(KindOf(c), m, pk), Sides(c).0, Sides(c).1, date) == Some(Trigger(m, pk, c, date))
  {
    hide Split, TupleText, Meaning, Exprs;
    assert m != [] && ',' !in pk;
    TupleSplits(KindOf(c), m, pk);
    ExprsMean(KindOf(c), m, pk, Sides(c).0, Sides(c).1);
    var w := Written(TupleText(KindOf(c), m, pk), Sides(c).0, Sides(c).1, date);
    assert w.Some? && w.value.cells == Trigger(m, pk, c, date).cells;
    assert w.value.op == [Letter(KindOf(c))];
  }

  /** A column declaration of CREATE TABLE: a name, a blank, a type. */
  function Declared(decl: string): Option<Column> {
    if |decl| < 2 || decl[0] != ' ' || decl[|decl| - 1] != ' ' then None
    else
      var text := decl[1..|decl| - 1];
      var n := Find(text, ' ', 0);
      if n == |text| then None else Some(Column(text[..n], text[n + 1..]))
  }

  /** The declarations of the log table are those of the schema's columns. */
  lemma DeclaredAsIs(m: seq<Column>, i: nat)
    requires i < |m| && ' ' !in m[i].name
    ensures Declared(Items(m, " ", true)[i]) == Some(m[i])
  {
    hide Find;
    var text := m[i].name + " " + m[i].kind;
    assert Items(m, " ", true)[i] == " " + text + " ";
    assert (" " + text + " ")[1..|text| + 1] == text;
    FindFirst(m[i].name, ' ', m[i].kind);
    assert text[..|m[i].name|] == m[i].name && text[|m[i].name| + 1..] == m[i].kind;
  }

  // ---------------------------------------------------------------- reading log rows

  function Names(m: seq<Column>): seq<string> {
    seq(|m|, i requires 0 <= i < |m| => m[i].name)
  }

  function Texts(cells: seq<Cell>): seq<string> {
    seq(|cells|, i requires 0 <= i < |cells| => ShownCell(cells[i]))
  }

  /** What the listener makes of the cells: they pair with the map's keys in order. */
  function Decoded(m: seq<Column>, cells: seq<Cell>): Fields
    requires |cells| == |m|
  {
    Zip(Names(m), Texts(cells), |m|)
  }

  /** What a source row looks like as a record. */
  function Shown(row: SourceRow): Fields {
    map c | c in row :: if row[c].None? then "NULL" else row[c].value
  }

  lemma ShownAt(row: SourceRow)
    ensures Shown(row).Keys == row.Keys && forall k :: k in row ==> Shown(row)[k] == ShownCell(row[k])
  {
  }

  lemma {:induction false} ZipHolds(m: seq<Column>, row: SourceRow, cells: seq<Cell>, n: nat)
    requires n <= |m| == |cells|
    requires forall i :: 0 <= i < |m| ==> m[i].name in row && cells[i] == row[m[i].name]
    ensures var z := Zip(Names(m), Texts(cells), n);
            && (forall c :: c in z <==> exists i :: 0 <= i < n && m[i].name == c)
            && (forall c :: c in z ==> c in row && z[c] == ShownCell(row[c]))
  {
    if n > 0 {
      ZipHolds(m, row, cells, n - 1);
      var z, z0 := Zip(Names(m), Texts(cells), n), Zip(Names(m), Texts(cells), n - 1);
      forall c ensures c in z <==> exists i :: 0 <= i < n && m[i].name == c {
        if c in z {
          if c == m[n - 1].name {
          } else {
            var i :| 0 <= i < n - 1 && m[i].name == c;
          }
        }
      }
    }
  }

  /** The listener reads back exactly the source row, column by column, whatever the
      order of the columns. */
  lemma RowReadsBack(m: seq<Column>, pk: string, c: Change, date: int)
    requires FullChange(m, pk, c)
    ensures Decoded(m, Trigger(m, pk, c, date).cells) == Shown(c.row)
  {
    hide Zip, ShownCell;
    var cells := Trigger(m, pk, c, date).cells;
    forall i | 0 <= i < |m| ensures m[i].name in c.row && cells[i] == c.row[m[i].name] {
    }
    ZipHolds(m, c.row, cells, |m|);
    ShownAt(c.row);
  }

  /** A log row the listener can decode: as many cells as schema columns. */
  predicate Decodable(m: seq<Column>, row: LogRow) {
    |row.cells| == |m|
  }

  /** What the listener sends for a log row. */
  function Sent(m: seq<Column>, pk: string, row: LogRow): seq<Command>
    requires Decodable(m, row)
  {
    var rec := RecordOf(pk, Decoded(m, row.cells));
    if row.op == "i" then [Insert(rec)]
    else if row.op == "d" then [Delete(row.id)]
    else if row.op == "u" then [Update(row.id, rec)]
    else []
  }

  /** The source's own account of a change. */
  function CommandOf(pk: string, c: Change): Command
    requires pk in c.row && c.row[pk].Some? && (c.Updated? ==> pk in c.before && c.before[pk].Some?)
  {
    match c
    case Inserted(row) => Insert(Record(row[pk].value, Shown(row)))
    case Deleted(row) => Delete(row[pk].value)
    case Updated(before, row) => Update(before[pk].value, Record(row[pk].value, Shown(row)))
  }

  /** Trigger to engine: each change arrives as itself. */
  lemma TriggerListenerRoundTrip(m: seq<Column>, pk: string, c: Change, date: int)
    requires FullChange(m, pk, c)
    ensures Decodable(m, Trigger(m, pk, c, date))
    ensures Sent(m, pk, Trigger(m, pk, c, date)) == [CommandOf(pk, c)]
  {
    RowReadsBack(m, pk, c, date);
  }

  // ---------------------------------------------------------------- polls

  predicate AllDecodable(m: seq<Column>, rows: seq<LogRow>) {
    forall i :: 0 <= i < |rows| ==> Decodable(m, rows[i])
  }

  function SentAll(m: seq<Column>, pk: string, rows: seq<LogRow>): seq<Command>
    requires AllDecodable(m, rows)
  {
    if rows == [] then []
    else SentAll(m, pk, rows[..|rows| - 1]) + Sent(m, pk, rows[|rows| - 1])
  }

  /** The select: rows dated after the watermark (the log is in date order). */
  function Above(rows: seq<LogRow>, w: int): seq<LogRow> {
    if rows == [] then []
    else Above(rows[..|rows| - 1], w) + (if rows[|rows| - 1].date > w then [rows[|rows| - 1]] else [])
  }

  /** The prune: what a delete of everything dated up to `p` leaves. */
  function Pruned(rows: seq<LogRow>, p: int): seq<LogRow> {
    Above(rows, p)
  }

  function LastDate(w: int, rows: seq<LogRow>): int {
    if rows == [] then w else rows[|rows| - 1].date
  }

  /** One event in the life of the listener: a poll that sees the first `visible` log
      rows ever written and gets `fetched` of those it selects (all of them if it
      is not interrupted), or a save, which prunes. */
  datatype Event = Poll(visible: nat, fetched: nat, interrupted: bool) | Save

  /** The watermark, the rows delivered, and the highest date pruned. */
  datatype State = State(watermark: int, delivered: seq<LogRow>, pruned: int)

  function Fetched(log: seq<LogRow>, e: Event, st: State): seq<LogRow>
    requires e.Poll? && e.visible <= |log|
  {
    var batch := Above(Pruned(log[..e.visible], st.pruned), st.watermark);
    if !e.interrupted || e.fetched > |batch| then batch else batch[..e.fetched]
  }

  function Step(log: seq<LogRow>, e: Event, st: State): State
    requires e.Poll? ==> e.visible <= |log|
  {
    match e
    case Save => st.(pruned := st.watermark)
    case Poll(_, _, _) =>
      var f := Fetched(log, e, st);
      st.(watermark := LastDate(st.watermark, f), delivered := st.delivered + f)
  }

  predicate Events(log: seq<LogRow>, es: seq<Event>) {
    forall i :: 0 <= i < |es| && es[i].Poll? ==> es[i].visible <= |log|
  }

  function Run(log: seq<LogRow>, es: seq<Event>, st: State): State
    requires Events(log, es)
  {
    if es == [] then st else Step(log, es[|es| - 1], Run(log, es[..|es| - 1], st))
  }

  /** Rows are written in date order. */
  ghost predicate Dated(rows: seq<LogRow>, w: int) {
    && (forall i :: 0 <= i < |rows| ==> rows[i].date > w)
    && (forall i, j :: 0 <= i < j < |rows| ==> rows[i].date <= rows[j].date)
  }

  /** ... with no two rows in the same second. */
  ghost predicate StrictlyDated(rows: seq<LogRow>, w: int) {
    Dated(rows, w) && forall i, j :: 0 <= i < j < |rows| ==> rows[i].date < rows[j].date
  }

  function Mark(rows: seq<LogRow>, w: int, n: nat): int
    requires n <= |rows|
  {
    LastDate(w, rows[..n])
  }

  /** The number of rows dated up to `p`. */
  function UpTo(rows: seq<LogRow>, p: int): (n: nat)
    ensures n <= |rows|
    ensures forall i :: 0 <= i < n ==> rows[i].date <= p
    ensures n < |rows| ==> rows[n].date > p
  {
    if rows == [] || rows[0].date > p then 0 else 1 + UpTo(rows[1..], p)
  }

  /** Selecting from a dated log skips a first stretch and takes the rest. */
  lemma {:induction false} AboveIsRest(rows: seq<LogRow>, w: int, p: int, v: nat)
    requires Dated(rows, w) && v <= |rows|
    ensures Above(rows[..v], p) == if UpTo(rows, p) <= v then rows[UpTo(rows, p)..v] else []
  {
    hide Above, Dated, UpTo;
    if v == 0 {
      NothingAbove(rows, p);
    } else {
      var n := UpTo(rows, p);
      AboveIsRest(rows, w, p, v - 1);
      AboveStep(rows, p, v - 1);
      AboveIff(rows, w, p, v - 1);
      if n < v { assert rows[n..v] == rows[n..v - 1] + [rows[v - 1]]; }
    }
  }

  lemma NothingAbove(rows: seq<LogRow>, p: int)
    ensures Above(rows[..0], p) == []
  {
  }

  lemma AboveStep(rows: seq<LogRow>, p: int, v: nat)
    requires v < |rows|
    ensures Above(rows[..v + 1], p) == Above(rows[..v], p) + (if rows[v].date > p then [rows[v]] else [])
  {
    assert rows[..v + 1][..v] == rows[..v];
  }

  lemma AboveIff(rows: seq<LogRow>, w: int, p: int, v: nat)
    requires Dated(rows, w) && v < |rows|
    ensures rows[v].date > p <==> UpTo(rows, p) <= v
  {
    var n := UpTo(rows, p);
    if n < v { assert rows[n].date <= rows[v].date; }
  }

  lemma {:induction false} AboveTwice(rows: seq<LogRow>, p: int, w: int)
    requires p <= w
    ensures Above(Above(rows, p), w) == Above(rows, w)
  {
    if rows != [] {
      var front, last := rows[..|rows| - 1], rows[|rows| - 1];
      AboveTwice(front, p, w);
      var a := Above(front, p);
      if last.date > p {
        assert (a + [last])[..|a|] == a;
      } else {
        assert Above(rows, p) == a;
        assert Above(rows, w) == Above(front, w);
      }
    }
  }

  lemma MarkIs(rows: seq<LogRow>, w: int, n: nat)
    requires n <= |rows|
    ensures Mark(rows, w, n) == if n > 0 then rows[n - 1].date else w
  {
  }

  lemma StopsInside(log: seq<LogRow>, w: int, n: nat, p: int, u: nat)
    requires Dated(log, w) && n <= |log| && u == UpTo(log, p)
    requires p == if n > 0 then log[n - 1].date else w
    ensures u == n <==> n == 0 || n == |log| || log[n - 1].date < log[n].date
  {
    assert forall i :: 0 <= i < n ==> log[i].date <= p;
  }

  /** The listener stopped behind row `n`: that is where the watermark points; it has
      delivered no more than `n` rows, and pruned none dated later. */
  ghost predicate StoppedAt(log: seq<LogRow>, w: int, st: State, n: nat) {
    n <= |log| && st.watermark == Mark(log, w, n) && |st.delivered| <= n && st.pruned <= st.watermark
  }

  /** ... and it has delivered just those rows. */
  ghost predicate StandsAt(log: seq<LogRow>, w: int, st: State, n: nat) {
    StoppedAt(log, w, st, n) && st.delivered == log[..n]
  }

  /** Where a stop at `n` lets the next poll go on: behind the rows of its second. */
  function GoesOn(log: seq<LogRow>, w: int, n: nat): nat
    requires n <= |log|
  {
    UpTo(log, Mark(log, w, n))
  }

  /** A stop at `n` leaves no row of its second behind. */
  predicate Clean(log: seq<LogRow>, n: nat) {
    n <= |log| && (0 < n < |log| ==> log[n - 1].date < log[n].date)
  }

  /** A clean stop is one the next poll goes on from; any other skips rows. */
  lemma GoesOnIff(log: seq<LogRow>, w: int, n: nat)
    requires Dated(log, w) && n <= |log|
    ensures n <= GoesOn(log, w, n) <= |log|
    ensures GoesOn(log, w, n) == n <==> Clean(log, n)
  {
    hide LastDate;
    MarkIs(log, w, n);
    StopsInside(log, w, n, Mark(log, w, n), UpTo(log, Mark(log, w, n)));
  }

  /** How many rows a poll gets that goes on at row `u`. */
  function Gets(e: Event, u: nat): nat
    requires e.Poll?
  {
    var there := if e.visible > u then e.visible - u else 0;
    if !e.interrupted || e.fetched > there then there else e.fetched
  }

  /** What one poll gets: the next stretch, all that is visible if it is not
      interrupted. */
  lemma FetchedFrom(log: seq<LogRow>, w: int, e: Event, st: State, n: nat)
    requires Dated(log, w) && StoppedAt(log, w, st, n)
    requires e.Poll? && e.visible <= |log|
    ensures var u, k := GoesOn(log, w, n), Gets(e, GoesOn(log, w, n));
            u + k <= |log| && Fetched(log, e, st) == log[u..u + k]
  {
    hide Dated, Above, Mark;
    GoesOnIff(log, w, n);
    AboveTwice(log[..e.visible], st.pruned, st.watermark);
    AboveIsRest(log, w, st.watermark, e.visible);
    var u := GoesOn(log, w, n);
    if u <= e.visible { assert log[u..e.visible][..Gets(e, u)] == log[u..u + Gets(e, u)]; }
  }

  lemma MarkAfter(log: seq<LogRow>, w: int, n: nat, u: nat, n': nat)
    requires Dated(log, w) && n <= u <= n' <= |log|
    ensures u < n' ==> LastDate(Mark(log, w, n), log[u..n']) == Mark(log, w, n')
    ensures u == n' ==> LastDate(Mark(log, w, n), log[u..n']) == Mark(log, w, n)
    ensures Mark(log, w, n) <= Mark(log, w, n')
  {
    if u < n' { assert log[u..n'][n' - u - 1] == log[n' - 1] == log[..n'][n' - 1]; }
    if 0 < n { assert log[..n][n - 1] == log[n - 1] && log[..n'][n' - 1] == log[n' - 1]; }
  }

  /** Where the listener stops after one event. */
  function Stop(log: seq<LogRow>, w: int, e: Event, n: nat): (r: nat)
    requires n <= |log| && (e.Poll? ==> e.visible <= |log|)
    ensures r <= |log|
  {
    if e.Save? || Gets(e, GoesOn(log, w, n)) == 0 then n else GoesOn(log, w, n) + Gets(e, GoesOn(log, w, n))
  }

  lemma StepStops(log: seq<LogRow>, w: int, e: Event, st: State, n: nat)
    requires Dated(log, w) && StoppedAt(log, w, st, n)
    requires e.Poll? ==> e.visible <= |log|
    ensures n <= Stop(log, w, e, n) <= |log| && StoppedAt(log, w, Step(log, e, st), Stop(log, w, e, n))
    ensures StandsAt(log, w, st, n) && Clean(log, n) ==> StandsAt(log, w, Step(log, e, st), Stop(log, w, e, n))
    ensures |st.delivered| < n || !Clean(log, n) ==>
              |Step(log, e, st).delivered| < Stop(log, w, e, n) || !Clean(log, Stop(log, w, e, n))
  {
    hide Dated, Fetched, LastDate, Mark, Clean, GoesOn, Gets;
    if e.Poll? {
      GoesOnIff(log, w, n);
      FetchedFrom(log, w, e, st, n);
      var u, k := GoesOn(log, w, n), Gets(e, GoesOn(log, w, n));
      MarkAfter(log, w, n, u, u + k);
      if u == n { assert log[..n + k] == log[..n] + log[n..n + k]; }
    }
  }

  /** Where the listener stops after a run. */
  function LastStop(log: seq<LogRow>, w: int, es: seq<Event>): (n: nat)
    requires Events(log, es)
    ensures n <= |log|
  {
    if es == [] then 0 else Stop(log, w, es[|es| - 1], LastStop(log, w, es[..|es| - 1]))
  }

  /** No event of the run stops inside a second. */
  predicate CleanStops(log: seq<LogRow>, w: int, es: seq<Event>)
    requires Events(log, es)
  {
    es == [] || (CleanStops(log, w, es[..|es| - 1]) && Clean(log, LastStop(log, w, es)))
  }

  /** Over any run: with clean stops only, the rows before the last stop have been
      delivered, each once and in order; with any other, the listener is short of
      rows or about to be. */
  lemma {:induction false} RunStops(log: seq<LogRow>, w: int, es: seq<Event>)
    requires Dated(log, w) && Events(log, es)
    ensures var st, n := Run(log, es, State(w, [], w)), LastStop(log, w, es);
            && StoppedAt(log, w, st, n)
            && (CleanStops(log, w, es) ==> StandsAt(log, w, st, n) && Clean(log, n))
            && (!CleanStops(log, w, es) ==> |st.delivered| < n || !Clean(log, n))
  {
    hide Dated, Step, Stop, Mark, Clean;
    if es == [] {
      StartsClean(log, w);
    } else {
      var front, e := es[..|es| - 1], es[|es| - 1];
      RunStops(log, w, front);
      StepStops(log, w, e, Run(log, front, State(w, [], w)), LastStop(log, w, front));
    }
  }

  lemma StartsClean(log: seq<LogRow>, w: int)
    ensures Mark(log, w, 0) == w && Clean(log, 0)
  {
  }

  /** A last full poll stops at the end, unless the last second was cut before. */
  lemma FullPollStops(log: seq<LogRow>, w: int, es: seq<Event>)
    requires Dated(log, w) && Events(log, es)
    requires es != [] && es[|es| - 1] == Poll(|log|, 0, false)
    ensures LastStop(log, w, es) == |log| || !Clean(log, LastStop(log, w, es))
  {
    hide Dated, Mark, GoesOn;
    GoesOnIff(log, w, LastStop(log, w, es[..|es| - 1]));
  }

  /** When everything arrives, for every log in date order, however many rows share a
      second, and every run with a last full poll: each row is delivered exactly
      once, in order, if and only if no event of the run stopped inside a second. */
  lemma {:induction false} DeliversAllIff(log: seq<LogRow>, w: int, es: seq<Event>)
    requires Dated(log, w) && Events(log, es)
    requires es != [] && es[|es| - 1] == Poll(|log|, 0, false)
    ensures Run(log, es, State(w, [], w)).delivered == log <==> CleanStops(log, w, es)
  {
    hide Dated, Run, Mark, Events;
    RunStops(log, w, es);
    FullPollStops(log, w, es);
    assert log[..|log|] == log;
  }

  /** Exactly-once delivery: over any run of polls, interruptions and saves that stops
      between seconds, each row is delivered once, in date order, without a gap;
      and everything pruned had been delivered. */
  lemma {:induction false} ExactlyOnce(log: seq<LogRow>, w: int, es: seq<Event>)
    requires Dated(log, w) && Events(log, es) && CleanStops(log, w, es)
    ensures var st, n := Run(log, es, State(w, [], w)), LastStop(log, w, es);
            && st.delivered == log[..n] && st.watermark == Mark(log, w, n)
            && (forall i :: 0 <= i < |log| && log[i].date <= st.pruned ==> i < n && log[i] in st.delivered)
            && (es != [] && es[|es| - 1] == Poll(|log|, 0, false) ==> n == |log|)
  {
    hide Run, CleanStops;
    RunStops(log, w, es);
    var st, n := Run(log, es, State(w, [], w)), LastStop(log, w, es);
    if es != [] && es[|es| - 1] == Poll(|log|, 0, false) { FullPollStops(log, w, es); }
    GoesOnIff(log, w, n);
    forall i | 0 <= i < |log| && log[i].date <= st.pruned ensures i < n && log[i] in st.delivered {
      assert st.delivered[i] == log[i];
    }
  }

  /** A save after clean stops takes out of the log table exactly the rows that have been
      delivered. */
  lemma SavePrunesDelivered(log: seq<LogRow>, w: int, es: seq<Event>)
    requires Dated(log, w) && Events(log, es) && CleanStops(log, w, es)
    ensures var st := Run(log, es, State(w, [], w));
            && st.delivered <= log
            && Pruned(log, Step(log, Save, st).pruned) == log[|st.delivered|..]
            && Step(log, Save, st).delivered == st.delivered && Step(log, Save, st).watermark == st.watermark
  {
    hide Run, CleanStops, Above, Dated, UpTo, LastDate;
    RunStops(log, w, es);
    var st, n := Run(log, es, State(w, [], w)), LastStop(log, w, es);
    GoesOnIff(log, w, n);
    AboveIsRest(log, w, st.watermark, |log|);
    assert log[..|log|] == log && log[n..|log|] == log[n..];
  }

  /** One row a second is one way to stop between seconds. */
  lemma {:induction false} StrictIsClean(log: seq<LogRow>, w: int, es: seq<Event>)
    requires StrictlyDated(log, w) && Events(log, es)
    ensures CleanStops(log, w, es)
  {
    if es != [] { StrictIsClean(log, w, es[..|es| - 1]); }
  }

  /** When rows may share a second: stop after the first `n` rows - interrupted, or
      because no more were visible - and the next poll completes the delivery
      exactly if the stop did not fall inside a second. */
  lemma NextPollCompletesIff(log: seq<LogRow>, w: int, n: nat)
    requires Dated(log, w) && n <= |log|
    ensures log[..n] + Above(log, Mark(log, w, n)) == log <==>
            n == 0 || n == |log| || log[n - 1].date < log[n].date
  {
    hide Above, Dated, UpTo, LastDate;
    var p := Mark(log, w, n);
    var u := UpTo(log, p);
    MarkIs(log, w, n);
    AboveIsRest(log, w, p, |log|);
    assert log[..|log|] == log && log[u..|log|] == log[u..];
    StopsInside(log, w, n, p, u);
    assert |log[..n] + log[u..]| == n + |log| - u;
    if u == n { assert log == log[..n] + log[n..]; }
  }

  /** Two rows in one second, the second written just after the poll: lost. */
  lemma SameSecondIsLost(a: LogRow, b: LogRow)
    requires a.date == b.date > 0 && a != b
    ensures var log := [a, b];
            Run(log, [Poll(1, 0, false), Poll(2, 0, false)], State(0, [], 0)).delivered == [a]
  {
    hide Above, Step;
    var log, p0, p1, st := [a, b], Poll(1, 0, false), Poll(2, 0, false), State(0, [], 0);
    assert [p0, p1][..1] == [p0] && [p0][..0] == [];
    assert log[..1] == [a] && log[..2] == log;
    TwoAbove(a, b, 0);
    TwoAbove(a, b, a.date);
    FullPoll(log, 1, st);
    FullPoll(log, 2, State(a.date, [a], 0));
    assert Run(log, [p0], st) == State(a.date, [a], 0);
  }

  lemma TwoAbove(a: LogRow, b: LogRow, w: int)
    ensures Above([a], w) == if a.date > w then [a] else []
    ensures Above([a, b], w) == Above([a], w) + (if b.date > w then [b] else [])
  {
    assert [a][..0] == [] && [a, b][..1] == [a];
  }

  /** A poll that is not interrupted, before anything was pruned. */
  lemma FullPoll(log: seq<LogRow>, v: nat, st: State)
    requires v <= |log| && st.pruned <= st.watermark
    ensures var f := Above(log[..v], st.watermark);
            Step(log, Poll(v, 0, false), st) == State(LastDate(st.watermark, f), st.delivered + f, st.pruned)
  {
    hide Above;
    AboveTwice(log[..v], st.pruned, st.watermark);
  }

  // ---------------------------------------------------------------- convergence

  /** The log the triggers write for a list of changes. */
  function Log(m: seq<Column>, pk: string, cs: seq<Change>, dates: seq<int>): seq<LogRow>
    requires |dates| == |cs|
  {
    seq(|cs|, i requires 0 <= i < |cs| => Trigger(m, pk, cs[i], dates[i]))
  }

  ghost predicate FullChanges(m: seq<Column>, pk: string, cs: seq<Change>) {
    forall i :: 0 <= i < |cs| ==> FullChange(m, pk, cs[i])
  }

  function CommandsOf(pk: string, cs: seq<Change>): seq<Command>
    requires forall i :: 0 <= i < |cs| ==>
               && pk in cs[i].row && cs[i].row[pk].Some?
               && (cs[i].Updated? ==> pk in cs[i].before && cs[i].before[pk].Some?)
  {
    seq(|cs|, i requires 0 <= i < |cs| => CommandOf(pk, cs[i]))
  }

  lemma LogDecodable(m: seq<Column>, pk: string, cs: seq<Change>, dates: seq<int>, n: nat)
    requires FullChanges(m, pk, cs) && |dates| == |cs| && n <= |cs|
    ensures AllDecodable(m, Log(m, pk, cs, dates)[..n])
  {
    forall i | 0 <= i < n ensures Decodable(m, Log(m, pk, cs, dates)[..n][i]) {
      TriggerListenerRoundTrip(m, pk, cs[i], dates[i]);
    }
  }

  lemma {:induction false} SentIsLog(m: seq<Column>, pk: string, cs: seq<Change>, dates: seq<int>, n: nat)
    requires FullChanges(m, pk, cs) && |dates| == |cs| && n <= |cs|
    requires AllDecodable(m, Log(m, pk, cs, dates)[..n])
    ensures SentAll(m, pk, Log(m, pk, cs, dates)[..n]) == CommandsOf(pk, cs)[..n]
  {
    hide Sent, Trigger, CommandOf, Decodable;
    var log := Log(m, pk, cs, dates);
    if n > 0 {
      assert log[..n][..n - 1] == log[..n - 1] && log[..n][n - 1] == Trigger(m, pk, cs[n - 1], dates[n - 1]);
      LogDecodable(m, pk, cs, dates, n - 1);
      SentIsLog(m, pk, cs, dates, n - 1);
      TriggerListenerRoundTrip(m, pk, cs[n - 1], dates[n - 1]);
      assert CommandsOf(pk, cs)[..n] == CommandsOf(pk, cs)[..n - 1] + [CommandOf(pk, cs[n - 1])];
    }
  }

  /** From source table to index: whatever the run of polls, interruptions and saves,
      the index is the source table after some number of changes, with every
      call a success; and all of them once a poll runs to the end. */
  lemma RunConverges(cfg: Config, m: seq<Column>, pk: string, cs: seq<Change>, dates: seq<int>,
                     w: int, es: seq<Event>, t: Contents)
    requires FullChanges(m, pk, cs) && |dates| == |cs|
    requires Dated(Log(m, pk, cs, dates), w) && Events(Log(m, pk, cs, dates), es)
    requires CleanStops(Log(m, pk, cs, dates), w, es)
    requires ValidLog(CommandsOf(pk, cs), t) && Roomy(cfg, CommandsOf(pk, cs), t)
    ensures var st, n := Run(Log(m, pk, cs, dates), es, State(w, [], w)), LastStop(Log(m, pk, cs, dates), w, es);
            && AllDecodable(m, st.delivered)
            && ExecAll(cfg, SentAll(m, pk, st.delivered), t) == Table(CommandsOf(pk, cs), n, t)
            && (es != [] && es[|es| - 1] == Poll(|cs|, 0, false) ==> n == |cs|)
  {
    hide ExecAll, Run, CleanStops, Dated, LastDate, Above, SentAll, Roomy, ValidLog;
    var log, n := Log(m, pk, cs, dates), LastStop(Log(m, pk, cs, dates), w, es);
    ExactlyOnce(log, w, es);
    LogDecodable(m, pk, cs, dates, n);
    SentIsLog(m, pk, cs, dates, n);
    CatchUp(cfg, CommandsOf(pk, cs), t, n);
  }

  // ---------------------------------------------------------------- runs that meet a fatal row

  /** How many rows come before the first one that cannot be decoded. */
  function Leading(m: seq<Column>, rows: seq<LogRow>): (n: nat)
    ensures n <= |rows| && AllDecodable(m, rows[..n])
    ensures n < |rows| ==> !Decodable(m, rows[n])
  {
    if rows == [] || !Decodable(m, rows[0]) then 0
    else
      var n := 1 + Leading(m, rows[1..]);
      assert forall i :: 0 < i < n ==> rows[i] == rows[1..][..n - 1][i - 1];
      n
  }

  /** Where a run gets to, and whether a row that cannot be decoded ended it. */
  datatype Life = Life(st: State, fatal: bool)

  /** A fatal row is not delivered, but the watermark has moved to it. */
  function LiveStep(m: seq<Column>, log: seq<LogRow>, e: Event, st: State): Life
    requires e.Poll? ==> e.visible <= |log|
  {
    if e.Save? then Life(Step(log, e, st), false)
    else
      var f := Fetched(log, e, st);
      var n := Leading(m, f);
      if n == |f| then Life(Step(log, e, st), false)
      else Life(st.(watermark := f[n].date, delivered := st.delivered + f[..n]), true)
  }

  function Live(m: seq<Column>, log: seq<LogRow>, es: seq<Event>, st: State): Life
    requires Events(log, es)
  {
    if es == [] then Life(st, false)
    else
      var before := Live(m, log, es[..|es| - 1], st);
      if before.fatal then before else LiveStep(m, log, es[|es| - 1], before.st)
  }

  /** A life that no row ends is the run the theorems speak of. */
  lemma {:induction false} LiveIsRun(m: seq<Column>, log: seq<LogRow>, es: seq<Event>, st: State)
    requires Events(log, es) && !Live(m, log, es, st).fatal
    ensures Live(m, log, es, st).st == Run(log, es, st)
  {
    hide Step, Fetched, Leading;
    if es != [] { LiveIsRun(m, log, es[..|es| - 1], st); }
  }

  lemma {:induction false} AboveIsFromRows(m: seq<Column>, rows: seq<LogRow>, w: int)
    requires AllDecodable(m, rows)
    ensures AllDecodable(m, Above(rows, w))
  {
    if rows != [] { AboveIsFromRows(m, rows[..|rows| - 1], w); }
  }

  lemma FetchedDecodable(m: seq<Column>, log: seq<LogRow>, e: Event, st: State)
    requires e.Poll? && e.visible <= |log| && AllDecodable(m, log)
    ensures AllDecodable(m, Fetched(log, e, st)) && Leading(m, Fetched(log, e, st)) == |Fetched(log, e, st)|
  {
    hide Above, Decodable, Leading;
    AboveIsFromRows(m, log[..e.visible], st.pruned);
    AboveIsFromRows(m, Pruned(log[..e.visible], st.pruned), st.watermark);
    var f := Fetched(log, e, st);
    assert f[..|f|] == f;
    LeadingIs(m, f, |f|);
  }

  /** Nor does a row that can be decoded: a log of such rows is never fatal. */
  lemma {:induction false} DecodableIsNotFatal(m: seq<Column>, log: seq<LogRow>, es: seq<Event>, st: State)
    requires Events(log, es) && AllDecodable(m, log)
    ensures !Live(m, log, es, st).fatal
  {
    hide Leading, Fetched, Step, AllDecodable;
    if es != [] {
      DecodableIsNotFatal(m, log, es[..|es| - 1], st);
      if es[|es| - 1].Poll? { FetchedDecodable(m, log, es[|es| - 1], Live(m, log, es[..|es| - 1], st).st); }
    }
  }

  // ---------------------------------------------------------------- the connector

  /** What one sqlite3_step answers. */
  datatype StepResult = GotRow(row: LogRow) | Busy

  class SQLiteConnector {
    const server: ServerInterface
    const schema: seq<Column>
    const pk: string
    var watermark: int

    constructor (server: ServerInterface, schema: seq<Column>, pk: string, watermark: int)
      ensures this.server == server && this.schema == schema && this.pk == pk && this.watermark == watermark
    {
      this.server, this.schema, this.pk, this.watermark := server, schema, pk, watermark;
    }

    /** One row: the watermark moves first, then the record is built, then the
        engine is called; a row of the wrong width is fatal. */
    method ProcessRow(row: LogRow) returns (fatal: bool)
      requires server.Valid()
      modifies this, server.indexer
      ensures server.Valid() && watermark == row.date
      ensures fatal <==> !Decodable(schema, row)
      ensures fatal ==> server.Contents() == old(server.Contents())
      ensures !fatal ==> server.Contents() == ExecAll(server.cfg, Sent(schema, pk, row), old(server.Contents()))
    {
      hide InsertReply, DeleteReply, UpdateReply, ExecAll,
           ServerInterface.Valid, ServerInterface.Contents;
      watermark := row.date;
      var record: Fields := map[];
      var i := 0;
      while i < |row.cells| && i < |schema|
        invariant 0 <= i <= |row.cells| && i <= |schema|
        invariant record == Zip(Names(schema), Texts(row.cells), i)
      {
        record := record[schema[i].name := ShownCell(row.cells[i])];
        i := i + 1;
      }
      if i != |schema| || i != |row.cells| {
        return true;
      }
      ghost var s := server.Contents();
      if row.op == "i" {
        var _ := server.InsertRecord(Parsed(RecordOf(pk, record)));
      } else if row.op == "d" {
        var _ := server.DeleteRecord(row.id);
      } else if row.op == "u" {
        var _ := server.UpdateRecord(row.id, Parsed(RecordOf(pk, record)));
      }
      ExecFew(server.cfg, Sent(schema, pk, row), s);
      fatal := false;
    }

    /** One poll: the step results up to the end of the rows or an error. A busy
        database is asked again; a row that cannot be decoded ends the listener,
        with the watermark already past it. */
    method PollOnce(steps: seq<StepResult>) returns (fatal: bool)
      requires server.Valid()
      modifies this, server.indexer
      ensures server.Valid()
      ensures var rows, n := Rows(steps), Leading(schema, Rows(steps));
              && fatal == (n < |rows|)
              && watermark == LastDate(old(watermark), if fatal then rows[..n + 1] else rows)
              && server.Contents() == ExecAll(server.cfg, SentAll(schema, pk, rows[..n]), old(server.Contents()))
    {
      hide ExecAll, Sent, Rows, SentAll, LastDate, AllDecodable, Decodable, Leading, Zip,
           ServerInterface.Valid, ServerInterface.Contents;
      fatal := false;
      ghost var s, w, got := server.Contents(), watermark, [];
      PollStart(server.cfg, schema, pk, s, w);
      assert steps[..0] == [];
      var i := 0;
      while i < |steps|
        invariant 0 <= i <= |steps| && server.Valid() && !fatal
        invariant got == Rows(steps[..i]) && AllDecodable(schema, got)
        invariant watermark == LastDate(w, got)
        invariant server.Contents() == ExecAll(server.cfg, SentAll(schema, pk, got), s)
      {
        PollStep(schema, pk, steps, i, w);
        match steps[i] {
          case GotRow(row) =>
            fatal := ProcessRow(row);
            if fatal {
              StopsAt(schema, Rows(steps), got, row);
              return;
            }
            ExecAllAppend(server.cfg, SentAll(schema, pk, got), Sent(schema, pk, row), s);
            got := got + [row];
          case Busy =>
        }
        i := i + 1;
      }
      assert steps[..|steps|] == steps && got[..|got|] == got;
      LeadingIs(schema, got, |got|);
    }

    /** A poll that is never told the database is busy. */
    method PollRows(f: seq<LogRow>) returns (fatal: bool)
      requires server.Valid()
      modifies this, server.indexer
      ensures server.Valid()
      ensures var n := Leading(schema, f);
              && fatal == (n < |f|)
              && watermark == (if fatal then f[n].date else LastDate(old(watermark), f))
              && server.Contents() == ExecAll(server.cfg, SentAll(schema, pk, f[..n]), old(server.Contents()))
    {
      hide ExecAll, SentAll, LastDate,
           ServerInterface.Valid, ServerInterface.Contents;
      var steps := seq(|f|, j requires 0 <= j < |f| => GotRow(f[j]));
      AllRows(steps, f);
      ghost var w := watermark;
      fatal := PollOnce(steps);
      if fatal { MarkIs(f, w, Leading(schema, f) + 1); }
      assert f[..|f|] == f;
    }

    /** The listener loop over a finite run of polls and saves. A fatal row ends it, with
        the rows before it sent and the watermark at its date. */
    method RunListener(log: seq<LogRow>, es: seq<Event>) returns (fatal: bool)
      requires server.Valid() && Events(log, es)
      modifies this, server.indexer
      ensures server.Valid()
      ensures var life := Live(schema, log, es, State(old(watermark), [], old(watermark)));
              && fatal == life.fatal && watermark == life.st.watermark
              && AllDecodable(schema, life.st.delivered)
              && server.Contents()
              == ExecAll(server.cfg, SentAll(schema, pk, life.st.delivered), old(server.Contents()))
    {
      hide ExecAll, SentAll, Fetched, AllDecodable, Leading, LastDate,
           ServerInterface.Valid, ServerInterface.Contents;
      var w0 := watermark;
      var st := State(w0, [], w0);
      ghost var s := server.Contents();
      PollStart(server.cfg, schema, pk, s, w0);
      fatal := false;
      var i := 0;
      while i < |es| && !fatal
        invariant 0 <= i <= |es| && server.Valid()
        invariant Life(st, fatal) == Live(schema, log, es[..i], State(w0, [], w0))
        invariant AllDecodable(schema, st.delivered) && watermark == st.watermark
        invariant server.Contents() == ExecAll(server.cfg, SentAll(schema, pk, st.delivered), s)
      {
        assert es[..i + 1][..i] == es[..i];
        if es[i].Poll? {
          var f := Fetched(log, es[i], st);
          fatal := PollRows(f);
          ghost var n := Leading(schema, f);
          assert f[..|f|] == f;
          SentAllAppend(schema, pk, st.delivered, f[..n]);
          ExecAllAppend(server.cfg, SentAll(schema, pk, st.delivered), SentAll(schema, pk, f[..n]), s);
        }
        st := LiveStep(schema, log, es[i], st).st;
        i := i + 1;
      }
      assert es[..|es|] == es;
      if fatal { FatalEnds(schema, log, es, i, State(w0, [], w0)); }
    }
  }

  lemma {:induction false} FatalEnds(m: seq<Column>, log: seq<LogRow>, es: seq<Event>, i: nat, st: State)
    requires Events(log, es) && i <= |es| && Live(m, log, es[..i], st).fatal
    ensures Live(m, log, es, st) == Live(m, log, es[..i], st)
    decreases |es|
  {
    if i == |es| {
      assert es[..i] == es;
    } else {
      hide LiveStep;
      var front := es[..|es| - 1];
      assert front[..i] == es[..i];
      FatalEnds(m, log, front, i, st);
    }
  }

  lemma LeadingIs(m: seq<Column>, rows: seq<LogRow>, n: nat)
    requires n <= |rows| && AllDecodable(m, rows[..n]) && (n < |rows| ==> !Decodable(m, rows[n]))
    ensures Leading(m, rows) == n
  {
    if n > 0 {
      assert rows[..n][0] == rows[0] && rows[1..][..n - 1] == rows[..n][1..];
      LeadingIs(m, rows[1..], n - 1);
    }
  }

  lemma StopsAt(m: seq<Column>, rows: seq<LogRow>, got: seq<LogRow>, row: LogRow)
    requires AllDecodable(m, got) && got + [row] <= rows && !Decodable(m, row)
    ensures Leading(m, rows) == |got| < |rows| && rows[..|got|] == got && rows[..|got| + 1] == got + [row]
  {
    assert rows[..|got|] == got && rows[|got|] == row;
    LeadingIs(m, rows, |got|);
  }

  lemma {:induction false} AllRows(steps: seq<StepResult>, f: seq<LogRow>)
    requires |steps| == |f| && forall j :: 0 <= j < |f| ==> steps[j] == GotRow(f[j])
    ensures Rows(steps) == f
  {
    if f != [] {
      AllRows(steps[..|f| - 1], f[..|f| - 1]);
      assert f == f[..|f| - 1] + [f[|f| - 1]];
    }
  }

  lemma {:induction false} SentAllAppend(m: seq<Column>, pk: string, a: seq<LogRow>, b: seq<LogRow>)
    requires AllDecodable(m, a) && AllDecodable(m, b)
    ensures AllDecodable(m, a + b)
    ensures SentAll(m, pk, a + b) == SentAll(m, pk, a) + SentAll(m, pk, b)
  {
    hide Sent;
    if b == [] {
      assert a + b == a;
    } else {
      assert (a + b)[..|a + b| - 1] == a + b[..|b| - 1];
      SentAllAppend(m, pk, a, b[..|b| - 1]);
    }
  }

  lemma PollStart(cfg: Config, m: seq<Column>, pk: string, s: Contents, w: int)
    ensures Rows([]) == [] && AllDecodable(m, []) && SentAll(m, pk, []) == [] && ExecAll(cfg, [], s) == s
    ensures LastDate(w, []) == w
  {
  }

  lemma PollStep(m: seq<Column>, pk: string, steps: seq<StepResult>, i: nat, w: int)
    requires i < |steps| && AllDecodable(m, Rows(steps[..i]))
    ensures var a, b := Rows(steps[..i]), Rows(steps[..i + 1]);
            && b <= Rows(steps)
            && match steps[i]
               case Busy => b == a
               case GotRow(row) =>
                 b == a + [row] && LastDate(w, b) == row.date
                 && (Decodable(m, row) ==>
                       AllDecodable(m, b) && SentAll(m, pk, b) == SentAll(m, pk, a) + Sent(m, pk, row))
  {
    assert steps[..i + 1][..i] == steps[..i];
    RowsPrefix(steps, i + 1);
    var a, b := Rows(steps[..i]), Rows(steps[..i + 1]);
    if steps[i].GotRow? {
      assert b[..|a|] == a;
    }
  }

  /** The rows among the step results. */
  function Rows(steps: seq<StepResult>): seq<LogRow> {
    if steps == [] then []
    else Rows(steps[..|steps| - 1]) + (if steps[|steps| - 1].GotRow? then [steps[|steps| - 1].row] else [])
  }

  lemma {:induction false} RowsPrefix(steps: seq<StepResult>, n: nat)
    requires n <= |steps|
    ensures Rows(steps[..n]) <= Rows(steps)
    decreases |steps|
  {
    if n == |steps| {
      assert steps[..n] == steps;
    } else {
      var front := steps[..|steps| - 1];
      RowsPrefix(front, n);
      assert front[..n] == steps[..n];
    }
  }
}
