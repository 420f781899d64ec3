/** The Oracle listener: batches of change-table rows above a watermark, updates
    split into two half rows, fetches that may fail anywhere. */
module Oracle {
  import opened Wrappers
  import opened Index
  import opened ChangeLog
  import opened Server

  /** One row of the change table: its RSID$, its OPERATION$, and the
      right-trimmed columns. */
  datatype Row = Row(rsid: int, op: string, rec: Record)

  /** How the fetch loop of one poll stopped. */
  datatype FetchEnd = NoMoreRows | FetchError

  datatype Kind = Inserted | Deleted | OldHalf | NewHalf | Unknown

  /** OPERATION$ is padded to two characters. */
  function KindOf(op: string): Kind {
    if op == "I " then Inserted
    else if op == "D " then Deleted
    else if op == "UU" || op == "UO" then OldHalf
    else if op == "UN" then NewHalf
    else Unknown
  }

  predicate IsOld(r: Row) { r.op == "UO" || r.op == "UU" }
  predicate IsNew(r: Row) { r.op == "UN" }
  predicate IsHalf(r: Row) { IsOld(r) || IsNew(r) }

  /** What the dispatch makes of each operation text. */
  lemma KindIs(r: Row)
    ensures KindOf(r.op).Inserted? <==> r.op == "I "
    ensures KindOf(r.op).Deleted? <==> r.op == "D "
    ensures KindOf(r.op).OldHalf? <==> IsOld(r)
    ensures KindOf(r.op).NewHalf? <==> IsNew(r)
  {
  }

  // ---------------------------------------------------------------- pairing by flags

  /** The fetch loop's registers, and the commands it has sent. */
  datatype Pairing = Pairing(uo: bool, un: bool, oldPk: Key, newRec: Record, sent: seq<Command>)

  const IDLE := Pairing(false, false, "", Record("", map[]), [])

  function ScanRow(p: Pairing, r: Row): Pairing {
    match KindOf(r.op)
    case Inserted => p.(sent := p.sent + [Insert(r.rec)])
    case Deleted => p.(sent := p.sent + [Delete(r.rec.key)])
    case OldHalf =>
      if p.un then p.(uo := false, un := false, oldPk := r.rec.key,
                      sent := p.sent + [Update(r.rec.key, p.newRec)])
      else p.(uo := true, oldPk := r.rec.key)
    case NewHalf =>
      if p.uo then p.(uo := false, un := false, newRec := r.rec,
                      sent := p.sent + [Update(p.oldPk, r.rec)])
      else p.(un := true, newRec := r.rec)
    case Unknown => p
  }

  function Scan(p: Pairing, rows: seq<Row>): Pairing {
    if rows == [] then p else ScanRow(Scan(p, rows[..|rows| - 1]), rows[|rows| - 1])
  }

  function Commands(rows: seq<Row>): seq<Command> {
    Scan(IDLE, rows).sent
  }

  // ---------------------------------------------------------------- pairing by position

  function Halves(rows: seq<Row>): seq<Row> {
    if rows == [] then []
    else Halves(rows[..|rows| - 1])
         + (if IsHalf(rows[|rows| - 1]) then [rows[|rows| - 1]] else [])
  }

  /** The half rows, taken alone, come in complementary neighbours: first with
      second, third with fourth, each pair in either order. */
  ghost predicate Paired(rows: seq<Row>) {
    var h := Halves(rows);
    forall j :: 0 <= j && 2 * j + 1 < |h| ==> IsOld(h[2 * j]) != IsOld(h[2 * j + 1])
  }

  function Joined(a: Row, b: Row): Command {
    if IsOld(a) then Update(a.rec.key, b.rec) else Update(b.rec.key, a.rec)
  }

  /** What row `i` should cause: an insert or delete in place, and one update at the
      second row of each pair. */
  function Emit(rows: seq<Row>, i: nat): seq<Command>
    requires i < |rows|
  {
    var r, before := rows[i], Halves(rows[..i]);
    if r.op == "I " then [Insert(r.rec)]
    else if r.op == "D " then [Delete(r.rec.key)]
    else if IsHalf(r) && |before| % 2 == 1 then [Joined(before[|before| - 1], r)]
    else []
  }

  function Emitted(rows: seq<Row>, n: nat): seq<Command>
    requires n <= |rows|
  {
    if n == 0 then [] else Emitted(rows, n - 1) + Emit(rows, n - 1)
  }

  lemma {:induction false} HalvesAppend(a: seq<Row>, b: seq<Row>)
    ensures Halves(a + b) == Halves(a) + Halves(b)
  {
    if b == [] {
      assert a + b == a;
    } else {
      assert (a + b)[..|a + b| - 1] == a + b[..|b| - 1];
      HalvesAppend(a, b[..|b| - 1]);
    }
  }

  lemma PairedPrefix(rows: seq<Row>, n: nat)
    requires Paired(rows) && n <= |rows|
    ensures Paired(rows[..n])
  {
    assert rows == rows[..n] + rows[n..];
    HalvesAppend(rows[..n], rows[n..]);
    var h, h' := Halves(rows), Halves(rows[..n]);
    forall j | 0 <= j && 2 * j + 1 < |h'|
      ensures IsOld(h'[2 * j]) != IsOld(h'[2 * j + 1])
    {
      assert h[2 * j] == h'[2 * j] && h[2 * j + 1] == h'[2 * j + 1];
    }
  }

  /** At a loop head at most one flag is up; one is up exactly when a pair is open,
      and then its register holds what the pair needs from that row. */
  ghost predicate FlagsTrack(p: Pairing, h: seq<Row>) {
    && !(p.uo && p.un)
    && ((p.uo || p.un) <==> |h| % 2 == 1)
    && (p.uo ==> |h| > 0 && IsOld(h[|h| - 1]) && p.oldPk == h[|h| - 1].rec.key)
    && (p.un ==> |h| > 0 && IsNew(h[|h| - 1]) && p.newRec == h[|h| - 1].rec)
  }

  lemma PairingStep(rows: seq<Row>, n: nat, p: Pairing)
    requires n < |rows| && Paired(rows[..n + 1])
    requires FlagsTrack(p, Halves(rows[..n]))
    ensures FlagsTrack(ScanRow(p, rows[n]), Halves(rows[..n + 1]))
    ensures ScanRow(p, rows[n]).sent == p.sent + Emit(rows, n)
  {
    var r, h0 := rows[n], Halves(rows[..n]);
    KindIs(r);
    hide KindOf;
    assert rows[..n + 1][..n] == rows[..n];
    if IsHalf(r) {
      var h := Halves(rows[..n + 1]);
      assert h == h0 + [r];
      if |h0| % 2 == 1 {
        var j := |h0| / 2;
        assert 2 * j + 1 < |h| && h[2 * j] == h0[|h0| - 1] && h[2 * j + 1] == r;
      }
    }
  }

  /** The two flags do their job: the loop sends each insert and delete in place and
      exactly one update per pair, with that pair's old key and new record. */
  lemma {:induction false} PairingCorrect(rows: seq<Row>, n: nat)
    requires Paired(rows) && n <= |rows|
    ensures Commands(rows[..n]) == Emitted(rows, n)
    ensures FlagsTrack(Scan(IDLE, rows[..n]), Halves(rows[..n]))
  {
    if n > 0 {
      PairingCorrect(rows, n - 1);
      assert rows[..n][..n - 1] == rows[..n - 1];
      PairedPrefix(rows, n);
      PairingStep(rows, n - 1, Scan(IDLE, rows[..n - 1]));
    }
  }

  // ---------------------------------------------------------------- scanning in pieces

  lemma {:induction false} ScanAppend(p: Pairing, a: seq<Row>, b: seq<Row>)
    ensures Scan(p, a + b) == Scan(Scan(p, a), b)
  {
    if b == [] {
      assert a + b == a;
    } else {
      assert (a + b)[..|a + b| - 1] == a + b[..|b| - 1];
      ScanAppend(p, a, b[..|b| - 1]);
    }
  }

  /** Same open half, whatever stale values the closed registers hold. */
  predicate SameOpen(p: Pairing, q: Pairing) {
    p.uo == q.uo && p.un == q.un && (p.uo ==> p.oldPk == q.oldPk) && (p.un ==> p.newRec == q.newRec)
  }

  /** What a row adds to the commands sent. */
  function Added(p: Pairing, r: Row): seq<Command> {
    ScanRow(p.(sent := []), r).sent
  }

  lemma ScanRowAdds(p: Pairing, r: Row)
    ensures ScanRow(p, r).sent == p.sent + Added(p, r)
    ensures ScanRow(p, r) == ScanRow(p.(sent := []), r).(sent := p.sent + Added(p, r))
  {
  }

  lemma RowRelative(p: Pairing, q: Pairing, r: Row)
    requires SameOpen(p, q)
    ensures SameOpen(ScanRow(p, r), ScanRow(q, r)) && Added(p, r) == Added(q, r)
  {
    hide KindOf;
  }

  lemma {:induction false} ScanRelative(p: Pairing, q: Pairing, rows: seq<Row>)
    requires SameOpen(p, q)
    ensures SameOpen(Scan(p, rows), Scan(q, rows))
    ensures p.sent <= Scan(p, rows).sent && q.sent <= Scan(q, rows).sent
    ensures Scan(p, rows).sent[|p.sent|..] == Scan(q, rows).sent[|q.sent|..]
  {
    if rows != [] {
      hide ScanRow, Added, SameOpen;
      var front, r := rows[..|rows| - 1], rows[|rows| - 1];
      ScanRelative(p, q, front);
      RowRelative(Scan(p, front), Scan(q, front), r);
      ScanRowAdds(Scan(p, front), r);
      ScanRowAdds(Scan(q, front), r);
    }
  }

  /** No update is half delivered after the first `v` rows. */
  predicate Closed(rows: seq<Row>, v: nat) {
    v <= |rows| && !Scan(IDLE, rows[..v]).uo && !Scan(IDLE, rows[..v]).un
  }

  /** How many commands the first `n` rows make. */
  function Count(rows: seq<Row>, n: nat): nat
    requires n <= |rows|
  {
    |Commands(rows[..n])|
  }

  lemma CommandsJoin(rows: seq<Row>, b: nat, n: nat)
    requires Closed(rows, b) && b <= n <= |rows|
    ensures Commands(rows[..n]) == Commands(rows[..b]) + Commands(rows[b..n])
  {
    hide ScanRow;
    assert rows[..n] == rows[..b] + rows[b..n];
    ScanAppend(IDLE, rows[..b], rows[b..n]);
    ScanRelative(Scan(IDLE, rows[..b]), IDLE, rows[b..n]);
    var before, all := Commands(rows[..b]), Commands(rows[..n]);
    assert all == before + all[|before|..];
  }

  /** A fetched piece that starts at a closed point sends exactly its slice of the
      whole log's commands. */
  lemma CommandsSlice(rows: seq<Row>, b: nat, n: nat)
    requires Closed(rows, b) && b <= n <= |rows|
    ensures Count(rows, b) <= Count(rows, n) <= |Commands(rows)|
    ensures Commands(rows[b..n]) == Commands(rows)[Count(rows, b)..Count(rows, n)]
  {
    hide ScanRow;
    CommandsJoin(rows, b, n);
    assert rows == rows[..n] + rows[n..];
    ScanAppend(IDLE, rows[..n], rows[n..]);
    ScanRelative(Scan(IDLE, rows[..n]), Scan(IDLE, rows[..n]), rows[n..]);
    var all, upto := Commands(rows), Commands(rows[..n]);
    assert upto == all[..|upto|];
    assert upto[Count(rows, b)..] == all[Count(rows, b)..Count(rows, n)];
  }

  // ---------------------------------------------------------------- the source's own log

  predicate OldHalfOf(r: Row, k: Key) { (r.op == "UO" || r.op == "UU") && r.rec.key == k }
  predicate NewHalfOf(r: Row, rec: Record) { r.op == "UN" && r.rec == rec }

  /** The two rows that record an update, in either order. */
  predicate RecordUpdate(c: Command, a: Row, b: Row) {
    c.Update? && ((OldHalfOf(a, c.oldKey) && NewHalfOf(b, c.rec)) || (NewHalfOf(a, c.rec) && OldHalfOf(b, c.oldKey)))
  }

  predicate InsertsAndDeletes(rows: seq<Row>) {
    forall i :: 0 <= i < |rows| ==> rows[i].op == "I " || rows[i].op == "D "
  }

  /** `rows` is what the database writes to the change table for the changes in `log`:
      an "I " row with the new record, a "D " row with the key, and for an update a
      row with the old key and one with the new record, between which only inserts
      and deletes may stand. An update counts where its second row is. */
  ghost predicate Describes(rows: seq<Row>, log: seq<Command>)
    decreases |rows|
  {
    if rows == [] then log == []
    else
      && log != []
      && var n, c, before := |rows| - 1, log[|log| - 1], log[..|log| - 1];
         if rows[n].op == "I " then c == Insert(rows[n].rec) && Describes(rows[..n], before)
         else if rows[n].op == "D " then c == Delete(rows[n].rec.key) && Describes(rows[..n], before)
         else exists i :: 0 <= i < n && DescribesLast(rows, i, c) && Describes(rows[..i] + rows[i + 1..n], before)
  }

  /** The last row and row `i` record the update `c`. */
  predicate DescribesLast(rows: seq<Row>, i: int, c: Command) {
    && 0 <= i < |rows| - 1
    && RecordUpdate(c, rows[i], rows[|rows| - 1]) && InsertsAndDeletes(rows[i + 1..|rows| - 1])
  }

  /** Each log has rows that describe it: those of the changes one by one, the rows of an
      update in either order, around any inserts and deletes that come last. */
  lemma RowDescribes(rows: seq<Row>, log: seq<Command>, r: Row)
    requires Describes(rows, log)
    ensures r.op == "I " ==> Describes(rows + [r], log + [Insert(r.rec)])
    ensures r.op == "D " ==> Describes(rows + [r], log + [Delete(r.rec.key)])
  {
    assert (rows + [r])[..|rows|] == rows;
    assert forall c: Command :: (log + [c])[..|log|] == log;
  }

  lemma UpdateDescribes(rows: seq<Row>, between: seq<Row>, log: seq<Command>, a: Row, b: Row, c: Command)
    requires Describes(rows + between, log) && forall r :: r in between ==> r.op in {"I ", "D "}
    requires c.Update?
    requires || (a.op in {"UO", "UU"} && a.rec.key == c.oldKey && b.op == "UN" && b.rec == c.rec)
             || (a.op == "UN" && a.rec == c.rec && b.op in {"UO", "UU"} && b.rec.key == c.oldKey)
    ensures Describes(rows + [a] + between + [b], log + [c])
  {
    var all, i := rows + [a] + between + [b], |rows|;
    assert all[i + 1..|all| - 1] == between && all[..i] + all[i + 1..|all| - 1] == rows + between;
    assert all[i] == a && all[|all| - 1] == b;
    assert (log + [c])[..|log|] == log;
    assert DescribesLast(all, i, c);
  }

  /** Between the halves of a pair, inserts and deletes pass the flags by. */
  lemma {:induction false} PassBy(p: Pairing, rows: seq<Row>)
    requires InsertsAndDeletes(rows)
    ensures Scan(p, rows) == p.(sent := p.sent + Scan(IDLE, rows).sent)
    decreases |rows|
  {
    if rows != [] {
      var front, r := rows[..|rows| - 1], rows[|rows| - 1];
      PassBy(p, front);
      PassBy(IDLE, front);
      assert r.op == "I " || r.op == "D ";
      KindIs(r);
      hide KindOf;
    }
  }

  lemma {:induction false} NoHalves(rows: seq<Row>)
    requires InsertsAndDeletes(rows)
    ensures Halves(rows) == []
  {
    if rows != [] {
      var r := rows[|rows| - 1];
      assert r.op == "I " || r.op == "D ";
      NoHalves(rows[..|rows| - 1]);
    }
  }

  lemma PairSends(p: Pairing, a: Row, rows: seq<Row>, b: Row, c: Command)
    requires !p.uo && !p.un && InsertsAndDeletes(rows) && RecordUpdate(c, a, b)
    ensures var q := ScanRow(Scan(ScanRow(p, a), rows), b);
            !q.uo && !q.un && q.sent == p.sent + Scan(IDLE, rows).sent + [c]
  {
    KindIs(a);
    KindIs(b);
    hide KindOf, Scan;
    PassBy(ScanRow(p, a), rows);
  }

  predicate IsPlain(r: Row) { r.op == "I " || r.op == "D " }

  function PlainCommand(r: Row): Command {
    if r.op == "I " then Insert(r.rec) else Delete(r.rec.key)
  }

  lemma PlainRowSends(rows: seq<Row>)
    requires rows != [] && IsPlain(rows[|rows| - 1])
    ensures var front, last := rows[..|rows| - 1], rows[|rows| - 1];
            && Commands(rows) == Commands(front) + [PlainCommand(last)]
            && (Closed(front, |front|) ==> Closed(rows, |rows|))
  {
    KindIs(rows[|rows| - 1]);
    hide KindOf;
    var front := rows[..|rows| - 1];
    assert front[..|front|] == front && rows[..|rows|] == rows;
  }

  lemma NothingDescribed(log: seq<Command>)
    requires Describes([], log)
    ensures Commands([]) == log && Closed([], 0)
  {
  }

  lemma DescribedCases(rows: seq<Row>, log: seq<Command>)
    requires rows != [] && Describes(rows, log)
    ensures log != []
    ensures var n, c, before := |rows| - 1, log[|log| - 1], log[..|log| - 1];
            if IsPlain(rows[n]) then c == PlainCommand(rows[n]) && Describes(rows[..n], before)
            else exists i :: 0 <= i < n && DescribesLast(rows, i, c) && Describes(rows[..i] + rows[i + 1..n], before)
  {
  }

  /** The listener reads the change table rightly: it sends the source's log. */
  lemma {:induction false} SendsTheLog(rows: seq<Row>, log: seq<Command>)
    requires Describes(rows, log)
    ensures Commands(rows) == log && Closed(rows, |rows|)
    decreases |rows|
  {
    hide Describes, Commands, Closed, DescribesLast, IsPlain, PlainCommand;
    if rows == [] {
      NothingDescribed(log);
    } else {
      DescribedCases(rows, log);
      var n, c, before := |rows| - 1, log[|log| - 1], log[..|log| - 1];
      if IsPlain(rows[n]) {
        SendsTheLog(rows[..n], before);
        PlainRowSends(rows);
      } else {
        var i :| 0 <= i < n && DescribesLast(rows, i, c) && Describes(rows[..i] + rows[i + 1..n], before);
        SendsTheLog(rows[..i] + rows[i + 1..n], before);
        PairAtEnd(rows, i, c);
      }
    }
  }

  lemma PairAtEnd(rows: seq<Row>, i: nat, c: Command)
    requires DescribesLast(rows, i, c)
    requires var without := rows[..i] + rows[i + 1..|rows| - 1]; Closed(without, |without|)
    ensures Commands(rows) == Commands(rows[..i] + rows[i + 1..|rows| - 1]) + [c] && Closed(rows, |rows|)
  {
    hide RecordUpdate, InsertsAndDeletes, ScanRow;
    var n := |rows| - 1;
    var a, m, without := rows[..i], rows[i + 1..n], rows[..i] + rows[i + 1..n];
    var p := Scan(IDLE, a);
    assert without[..|without|] == without && rows[..n + 1] == rows;
    ScanAppend(IDLE, a, m);
    PassBy(p, m);
    assert rows[..n] == rows[..i + 1] + m && rows[..i + 1][..i] == a;
    ScanAppend(IDLE, rows[..i + 1], m);
    PairSends(p, rows[i], m, rows[n], c);
  }

  /** Its half rows, taken alone, come in pairs. */
  lemma {:induction false} DescribedIsPaired(rows: seq<Row>, log: seq<Command>)
    requires Describes(rows, log)
    ensures Paired(rows) && |Halves(rows)| % 2 == 0
    decreases |rows|
  {
    if rows != [] {
      var n, c, before := |rows| - 1, log[|log| - 1], log[..|log| - 1];
      if rows[n].op == "I " || rows[n].op == "D " {
        DescribedIsPaired(rows[..n], before);
      } else {
        var i :| 0 <= i < n && DescribesLast(rows, i, c) && Describes(rows[..i] + rows[i + 1..n], before);
        DescribedIsPaired(rows[..i] + rows[i + 1..n], before);
        OnePairMore(rows, i, c);
      }
    }
  }

  lemma PairedMore(h: seq<Row>, a: Row, b: Row)
    requires |h| % 2 == 0 && IsOld(a) != IsOld(b)
    requires forall j :: 0 <= j && 2 * j + 1 < |h| ==> IsOld(h[2 * j]) != IsOld(h[2 * j + 1])
    ensures var h' := h + [a, b];
            forall j :: 0 <= j && 2 * j + 1 < |h'| ==> IsOld(h'[2 * j]) != IsOld(h'[2 * j + 1])
  {
    hide IsOld;
  }

  lemma HalvesStep(rows: seq<Row>, k: nat)
    requires k < |rows|
    ensures Halves(rows[..k + 1]) == Halves(rows[..k]) + (if IsHalf(rows[k]) then [rows[k]] else [])
  {
    assert rows[..k + 1][..k] == rows[..k];
  }

  lemma ComplementaryHalves(c: Command, a: Row, b: Row)
    requires RecordUpdate(c, a, b)
    ensures IsHalf(a) && IsHalf(b) && IsOld(a) != IsOld(b)
  {
  }

  lemma TwoHalvesMore(rows: seq<Row>, i: nat, c: Command)
    requires DescribesLast(rows, i, c)
    ensures Halves(rows) == Halves(rows[..i] + rows[i + 1..|rows| - 1]) + [rows[i], rows[|rows| - 1]]
    ensures IsOld(rows[i]) != IsOld(rows[|rows| - 1])
  {
    hide Halves, IsHalf, IsOld, RecordUpdate, InsertsAndDeletes;
    var n := |rows| - 1;
    var a, m := rows[..i], rows[i + 1..n];
    ComplementaryHalves(c, rows[i], rows[n]);
    NoHalves(m);
    HalvesAppend(a, m);
    HalvesStep(rows, i);
    assert rows[..n] == rows[..i + 1] + m && rows[..n + 1] == rows;
    HalvesAppend(rows[..i + 1], m);
    HalvesStep(rows, n);
  }

  lemma OnePairMore(rows: seq<Row>, i: nat, c: Command)
    requires DescribesLast(rows, i, c)
    requires var without := rows[..i] + rows[i + 1..|rows| - 1]; Paired(without) && |Halves(without)| % 2 == 0
    ensures Paired(rows) && |Halves(rows)| % 2 == 0
  {
    hide DescribesLast, Halves, IsOld;
    DescribedInside(rows, i, c);
    TwoHalvesMore(rows, i, c);
    PairedMore(Halves(rows[..i] + rows[i + 1..|rows| - 1]), rows[i], rows[|rows| - 1]);
  }

  lemma DescribedInside(rows: seq<Row>, i: int, c: Command)
    requires DescribesLast(rows, i, c)
    ensures 0 <= i < |rows| - 1
  {
  }

  /** No update is half written after the first `v` rows. */
  predicate Whole(rows: seq<Row>, v: nat) {
    v <= |rows| && |Halves(rows[..v])| % 2 == 0
  }

  // ---------------------------------------------------------------- the watermark

  function MaxRsid(rows: seq<Row>): int {
    if rows == [] then -1
    else
      var m, r := MaxRsid(rows[..|rows| - 1]), rows[|rows| - 1].rsid;
      if m < r then r else m
  }

  function NextWatermark(w: int, fetched: seq<Row>, end: FetchEnd): int {
    if end.FetchError? || MaxRsid(fetched) == -1 then w else MaxRsid(fetched)
  }

  /** The prepared query: the visible rows above the watermark. */
  function Above(rows: seq<Row>, w: int): seq<Row> {
    if rows == [] then []
    else Above(rows[..|rows| - 1], w)
         + (if rows[|rows| - 1].rsid > w then [rows[|rows| - 1]] else [])
  }

  /** Change-table order: RSID$ never decreases, and starts above `w`. */
  ghost predicate Ordered(rows: seq<Row>, w: int) {
    && (forall i :: 0 <= i < |rows| ==> rows[i].rsid > w)
    && (forall i, j :: 0 <= i < j < |rows| ==> rows[i].rsid <= rows[j].rsid)
  }

  /** The watermark a listener holds when the first `b` rows are done. */
  function Mark(rows: seq<Row>, w: int, b: nat): int
    requires b <= |rows|
  {
    if b == 0 then w else rows[b - 1].rsid
  }

  lemma {:induction false} MaxOfOrdered(rows: seq<Row>, w: int)
    requires Ordered(rows, w) && w >= -1 && rows != []
    ensures MaxRsid(rows) == rows[|rows| - 1].rsid
  {
    if |rows| > 1 {
      var front := rows[..|rows| - 1];
      MaxOfOrdered(front, w);
      assert rows[|rows| - 2].rsid <= rows[|rows| - 1].rsid;
    } else {
      assert rows[..|rows| - 1] == [];
    }
  }

  /** Rows with one RSID$ belong to one transaction and appear together. */
  predicate Boundary(rows: seq<Row>, v: nat) {
    v <= |rows| && (0 < v < |rows| ==> rows[v - 1].rsid < rows[v].rsid)
  }

  lemma AboveMark(rows: seq<Row>, w: int, b: nat, i: nat)
    requires Ordered(rows, w) && Boundary(rows, b) && i < |rows|
    ensures rows[i].rsid > Mark(rows, w, b) <==> i >= b
  {
    if 0 < b {
      assert i < b ==> i == b - 1 || rows[i].rsid <= rows[b - 1].rsid;
      assert i >= b ==> i == b || rows[b].rsid <= rows[i].rsid;
    }
  }

  lemma AboveStep(rows: seq<Row>, w: int, v: nat)
    requires v < |rows|
    ensures Above(rows[..v + 1], w) == Above(rows[..v], w) + (if rows[v].rsid > w then [rows[v]] else [])
  {
    assert rows[..v + 1][..v] == rows[..v];
  }

  lemma {:induction false} AboveIsSuffix(rows: seq<Row>, w: int, b: nat, v: nat)
    requires Ordered(rows, w) && Boundary(rows, b) && v <= |rows|
    ensures Above(rows[..v], Mark(rows, w, b)) == if b <= v then rows[b..v] else []
  {
    hide Ordered, Mark;
    if v == 0 {
      assert rows[..0] == [];
    } else {
      hide Above;
      AboveIsSuffix(rows, w, b, v - 1);
      AboveStep(rows, Mark(rows, w, b), v - 1);
      AboveMark(rows, w, b, v - 1);
      if b < v { assert rows[b..v] == rows[b..v - 1] + [rows[v - 1]]; }
    }
  }

  // ---------------------------------------------------------------- runs

  /** One turn of the listener's outer loop: how much of the log the query sees,
      how many rows are fetched, and how the fetching ends. */
  datatype Poll = Poll(visible: nat, fetched: nat, end: FetchEnd)

  /** `done` collects the rows of completed batches. */
  datatype State = State(index: Contents, watermark: int, done: seq<Row>)

  function Fetched(rows: seq<Row>, p: Poll, w: int): seq<Row>
    requires p.visible <= |rows|
  {
    var batch := Above(rows[..p.visible], w);
    if p.end.NoMoreRows? || p.fetched > |batch| then batch else batch[..p.fetched]
  }

  function RunPoll(cfg: Config, rows: seq<Row>, p: Poll, st: State): State
    requires p.visible <= |rows|
  {
    var f := Fetched(rows, p, st.watermark);
    State(ExecAll(cfg, Commands(f), st.index),
          NextWatermark(st.watermark, f, p.end),
          if p.end.NoMoreRows? then st.done + f else st.done)
  }

  predicate Polls(rows: seq<Row>, polls: seq<Poll>) {
    forall i :: 0 <= i < |polls| ==> polls[i].visible <= |rows|
  }

  function Run(cfg: Config, rows: seq<Row>, polls: seq<Poll>, st: State): State
    requires Polls(rows, polls)
  {
    if polls == [] then st
    else RunPoll(cfg, rows, polls[|polls| - 1], Run(cfg, rows, polls[..|polls| - 1], st))
  }

  /** Rows become visible a transaction at a time, to the polls that finish. A poll
      that fails may see anything. */
  ghost predicate Bounded(rows: seq<Row>, polls: seq<Poll>) {
    && Polls(rows, polls)
    && forall i :: 0 <= i < |polls| && polls[i].end.NoMoreRows? ==> Boundary(rows, polls[i].visible)
  }

  /** ... and both halves of an update together. */
  ghost predicate Orderly(rows: seq<Row>, polls: seq<Poll>) {
    && Bounded(rows, polls)
    && forall i :: 0 <= i < |polls| && polls[i].end.NoMoreRows? ==> Whole(rows, polls[i].visible)
  }

  /** The same by the listener's flags. */
  ghost predicate Flagless(rows: seq<Row>, polls: seq<Poll>) {
    && Bounded(rows, polls)
    && forall i :: 0 <= i < |polls| && polls[i].end.NoMoreRows? ==> Closed(rows, polls[i].visible)
  }

  /** The listener stands at row `b`: that is where the watermark points, and
      completed batches delivered exactly the rows before it. */
  ghost predicate StandsAt(rows: seq<Row>, w: int, st: State, b: nat) {
    Boundary(rows, b) && st.watermark == Mark(rows, w, b) && st.done == rows[..b]
  }

  function NextBase(b: nat, p: Poll): nat {
    if p.end.NoMoreRows? && p.visible > b then p.visible else b
  }

  /** Where the listener stands after a run. */
  function Base(polls: seq<Poll>): nat {
    if polls == [] then 0 else NextBase(Base(polls[..|polls| - 1]), polls[|polls| - 1])
  }

  predicate EndsWithAll(rows: seq<Row>, polls: seq<Poll>) {
    polls != [] && polls[|polls| - 1].visible == |rows| && polls[|polls| - 1].end.NoMoreRows?
  }

  lemma {:induction false} BaseInside(rows: seq<Row>, polls: seq<Poll>)
    requires Polls(rows, polls)
    ensures Base(polls) <= |rows|
    ensures EndsWithAll(rows, polls) ==> Base(polls) == |rows|
  {
    if polls != [] { BaseInside(rows, polls[..|polls| - 1]); }
  }

  /** How many rows one poll gets that starts at row `b`: all the visible ones if it
      finishes, and the first few of them if it fails. */
  function Gets(p: Poll, b: nat): nat {
    var there := if p.visible > b then p.visible - b else 0;
    if p.end.FetchError? && p.fetched < there then p.fetched else there
  }

  /** What one poll fetches: a stretch of rows from where the listener stands. */
  lemma FetchedFrom(rows: seq<Row>, w: int, p: Poll, b: nat)
    requires Ordered(rows, w) && Boundary(rows, b) && p.visible <= |rows|
    ensures var f := Fetched(rows, p, Mark(rows, w, b));
            && b + |f| <= |rows| && f == rows[b..b + |f|] && |f| == Gets(p, b)
            && (p.end.NoMoreRows? ==> b + |f| == NextBase(b, p))
  {
    hide Above, Ordered, Mark;
    AboveIsSuffix(rows, w, b, p.visible);
    if b <= p.visible { assert rows[b..p.visible][..Gets(p, b)] == rows[b..b + Gets(p, b)]; }
  }

  lemma MarkMoves(rows: seq<Row>, w: int, b: nat, v: nat)
    requires Ordered(rows, w) && w >= -1 && b <= v <= |rows|
    ensures NextWatermark(Mark(rows, w, b), rows[b..v], NoMoreRows) == Mark(rows, w, v)
    ensures Mark(rows, w, b) <= Mark(rows, w, v)
  {
    if b < v {
      var f := rows[b..v];
      MaxOfOrdered(f, w);
      assert f[|f| - 1] == rows[v - 1];
      if 0 < b { assert rows[b - 1].rsid <= rows[v - 1].rsid; }
    }
  }

  /** A failed poll leaves watermark and completed rows alone. */
  lemma FailedPollStays(cfg: Config, rows: seq<Row>, p: Poll, st: State)
    requires p.visible <= |rows| && p.end.FetchError?
    ensures RunPoll(cfg, rows, p, st).watermark == st.watermark && RunPoll(cfg, rows, p, st).done == st.done
  {
  }

  lemma FinishedPollMoves(cfg: Config, rows: seq<Row>, w: int, p: Poll, st: State, b: nat)
    requires Ordered(rows, w) && w >= -1
    requires StandsAt(rows, w, st, b)
    requires p.end.NoMoreRows? && Boundary(rows, p.visible)
    ensures StandsAt(rows, w, RunPoll(cfg, rows, p, st), NextBase(b, p))
    ensures st.watermark <= RunPoll(cfg, rows, p, st).watermark
  {
    hide Ordered, Scan, ExecAll, MaxRsid, Above, Fetched, NextWatermark, Mark;
    FetchedFrom(rows, w, p, b);
    var v := NextBase(b, p);
    MarkMoves(rows, w, b, v);
    assert rows[..v] == rows[..b] + rows[b..v];
  }

  lemma PollMoves(cfg: Config, rows: seq<Row>, w: int, p: Poll, st: State, b: nat)
    requires Ordered(rows, w) && w >= -1
    requires StandsAt(rows, w, st, b) && p.visible <= |rows|
    requires p.end.NoMoreRows? ==> Boundary(rows, p.visible)
    ensures StandsAt(rows, w, RunPoll(cfg, rows, p, st), NextBase(b, p))
    ensures st.watermark <= RunPoll(cfg, rows, p, st).watermark
    ensures p.end.FetchError? ==> RunPoll(cfg, rows, p, st).watermark == st.watermark
  {
    hide Ordered, RunPoll, Mark;
    if p.end.NoMoreRows? { FinishedPollMoves(cfg, rows, w, p, st, b); } else { FailedPollStays(cfg, rows, p, st); }
  }

  /** Watermark safety over every run: the watermark always points at a
      transaction boundary, and the completed batches delivered every row at or
      below it exactly once, in order, and nothing above it. */
  lemma {:induction false} WatermarkSafety(cfg: Config, rows: seq<Row>, polls: seq<Poll>, s: Contents, w: int)
    requires Ordered(rows, w) && w >= -1 && Bounded(rows, polls)
    ensures var st := Run(cfg, rows, polls, State(s, w, []));
            && StandsAt(rows, w, st, Base(polls))
            && (forall i :: 0 <= i < |rows| ==> (rows[i].rsid <= st.watermark <==> i < |st.done|))
  {
    hide Ordered, RunPoll, Mark, NextBase;
    var b := Base(polls);
    if polls == [] {
      StartStands(rows, s, w);
    } else {
      var front, p := polls[..|polls| - 1], polls[|polls| - 1];
      WatermarkSafety(cfg, rows, front, s, w);
      PollMoves(cfg, rows, w, p, Run(cfg, rows, front, State(s, w, [])), Base(front));
    }
    forall i | 0 <= i < |rows| ensures rows[i].rsid <= Mark(rows, w, b) <==> i < b {
      AboveMark(rows, w, b, i);
    }
  }

  lemma StartStands(rows: seq<Row>, s: Contents, w: int)
    ensures StandsAt(rows, w, State(s, w, []), 0)
  {
  }

  lemma WholeIsClosed(rows: seq<Row>, v: nat)
    requires Paired(rows) && v <= |rows|
    ensures Whole(rows, v) <==> Closed(rows, v)
  {
    hide Paired, Halves, Scan;
    PairsMakeUpdates(rows, v);
  }

  lemma OrderlyIsFlagless(rows: seq<Row>, polls: seq<Poll>)
    requires Paired(rows) && Orderly(rows, polls)
    ensures Flagless(rows, polls)
  {
    hide Whole, Closed, Boundary, Paired;
    forall i | 0 <= i < |polls| && polls[i].end.NoMoreRows? ensures Closed(rows, polls[i].visible) {
      WholeIsClosed(rows, polls[i].visible);
    }
  }

  // ---------------------------------------------------------------- split pairs

  /** The commands of the completed batches, one after the other. */
  function SentBy(cfg: Config, rows: seq<Row>, polls: seq<Poll>, st: State): seq<Command>
    requires Polls(rows, polls)
  {
    if polls == [] then []
    else
      var front, p := polls[..|polls| - 1], polls[|polls| - 1];
      SentBy(cfg, rows, front, st) +
      if p.end.NoMoreRows? then Commands(Fetched(rows, p, Run(cfg, rows, front, st).watermark)) else []
  }

  /** No completed batch ends between the halves of an update. */
  predicate ClosedStops(rows: seq<Row>, polls: seq<Poll>) {
    polls == [] || (ClosedStops(rows, polls[..|polls| - 1]) && Closed(rows, Base(polls)))
  }

  function Updates(cs: seq<Command>): nat {
    if cs == [] then 0 else Updates(cs[..|cs| - 1]) + (if cs[|cs| - 1].Update? then 1 else 0)
  }

  lemma {:induction false} UpdatesAppend(a: seq<Command>, b: seq<Command>)
    ensures Updates(a + b) == Updates(a) + Updates(b)
  {
    if b == [] {
      assert a + b == a;
    } else {
      assert (a + b)[..|a + b| - 1] == a + b[..|b| - 1];
      UpdatesAppend(a, b[..|b| - 1]);
    }
  }

  lemma UpdatesOne(c: Command)
    ensures Updates([]) == 0 && Updates([c]) == if c.Update? then 1 else 0
  {
    assert [c][..0] == [];
  }

  /** An update uses up two half rows, whatever rows a batch has. */
  lemma {:induction false} UpdatesCost(rows: seq<Row>)
    ensures var p := Scan(IDLE, rows);
            && !(p.uo && p.un)
            && 2 * Updates(p.sent) + (if p.uo || p.un then 1 else 0) <= |Halves(rows)|
  {
    if rows != [] {
      var front, last := rows[..|rows| - 1], rows[|rows| - 1];
      UpdatesCost(front);
      var p := Scan(IDLE, front);
      ScanRowAdds(p, last);
      UpdatesAppend(p.sent, Added(p, last));
      AddedUpdates(p, last);
    } else {
      assert Updates(IDLE.sent) == 0;
    }
  }

  lemma AddedUpdates(p: Pairing, r: Row)
    requires !(p.uo && p.un)
    ensures var q := ScanRow(p, r);
            && !(q.uo && q.un)
            && 2 * Updates(Added(p, r)) + (if q.uo || q.un then 1 else 0)
            <= (if p.uo || p.un then 1 else 0) + (if IsHalf(r) then 1 else 0)
  {
    var added := Added(p, r);
    assert |added| <= 1;
    if added != [] { UpdatesOne(added[0]); assert added == [added[0]]; }
  }

  lemma EmitUpdates(rows: seq<Row>, i: nat)
    requires i < |rows|
    ensures Updates(Emit(rows, i)) == if IsHalf(rows[i]) && |Halves(rows[..i])| % 2 == 1 then 1 else 0
  {
    var e := Emit(rows, i);
    assert |e| <= 1;
    if e != [] { UpdatesOne(e[0]); assert e == [e[0]]; }
  }

  lemma {:induction false} EmittedUpdates(rows: seq<Row>, n: nat)
    requires n <= |rows|
    ensures 2 * Updates(Emitted(rows, n)) + |Halves(rows[..n])| % 2 == |Halves(rows[..n])|
  {
    hide Emit, IsHalf;
    if n == 0 {
      assert Updates(Emitted(rows, 0)) == 0;
    } else {
      EmittedUpdates(rows, n - 1);
      assert rows[..n][..n - 1] == rows[..n - 1];
      UpdatesAppend(Emitted(rows, n - 1), Emit(rows, n - 1));
      EmitUpdates(rows, n - 1);
    }
  }

  /** In a well-paired log every second half makes an update. */
  lemma PairsMakeUpdates(rows: seq<Row>, n: nat)
    requires Paired(rows) && n <= |rows|
    ensures 2 * Updates(Commands(rows[..n])) + |Halves(rows[..n])| % 2 == |Halves(rows[..n])|
    ensures Closed(rows, n) <==> |Halves(rows[..n])| % 2 == 0
  {
    hide Emitted, Updates, Halves, Scan, Paired;
    PairingCorrect(rows, n);
    EmittedUpdates(rows, n);
  }

  /** Too few updates for that many half rows. */
  predicate Short(updates: nat, halves: nat) {
    2 * updates + (if halves % 2 == 0 then 2 else 1) <= halves
  }

  lemma ShortStays(u: nat, h: nat, u': nat, h': nat)
    requires 2 * u' <= h'
    ensures Short(u, h) ==> Short(u + u', h + h')
    ensures 2 * u <= h && (h + h') % 2 == 1 ==> Short(u + u', h + h')
  {
  }

  lemma BatchSends(rows: seq<Row>, b: nat, v: nat)
    requires b <= v <= |rows|
    ensures |Halves(rows[..v])| == |Halves(rows[..b])| + |Halves(rows[b..v])|
    ensures 2 * Updates(Commands(rows[b..v])) <= |Halves(rows[b..v])|
    ensures Closed(rows, b) ==> Commands(rows[..v]) == Commands(rows[..b]) + Commands(rows[b..v])
  {
    assert rows[..v] == rows[..b] + rows[b..v];
    HalvesAppend(rows[..b], rows[b..v]);
    UpdatesCost(rows[b..v]);
    if Closed(rows, b) { CommandsJoin(rows, b, v); }
  }

  /** While every stop was closed, what has been sent is the log's commands so far;
      after one that was not, updates are missing for good. */
  lemma {:induction false} StopsSend(cfg: Config, rows: seq<Row>, polls: seq<Poll>, s: Contents, w: int)
    requires Ordered(rows, w) && w >= -1 && Bounded(rows, polls) && Paired(rows)
    requires Base(polls) <= |rows|
    ensures var sent, b := SentBy(cfg, rows, polls, State(s, w, [])), Base(polls);
            && 2 * Updates(sent) <= |Halves(rows[..b])|
            && (ClosedStops(rows, polls) ==> sent == Commands(rows[..b]) && Closed(rows, b))
            && (!ClosedStops(rows, polls) ==> Short(Updates(sent), |Halves(rows[..b])|))
  {
    hide Ordered, Scan, Updates, Halves, Closed, Paired, RunPoll, Fetched, Boundary, Mark;
    if polls == [] {
      NothingSent(rows);
    } else {
      var front, p := polls[..|polls| - 1], polls[|polls| - 1];
      var st, b, b' := Run(cfg, rows, front, State(s, w, [])), Base(front), Base(polls);
      StopsSend(cfg, rows, front, s, w);
      PairsMakeUpdates(rows, b');
      var before, sent := SentBy(cfg, rows, front, State(s, w, [])), SentBy(cfg, rows, polls, State(s, w, []));
      if p.end.FetchError? {
        assert sent == before && b' == b;
      } else {
        WatermarkSafety(cfg, rows, front, s, w);
        FetchedFrom(rows, w, p, b);
        assert sent == before + Commands(rows[b..b']);
        BatchSends(rows, b, b');
        UpdatesAppend(before, Commands(rows[b..b']));
        ShortStays(Updates(before), |Halves(rows[..b])|, Updates(Commands(rows[b..b'])), |Halves(rows[b..b'])|);
      }
    }
  }

  lemma NothingSent(rows: seq<Row>)
    ensures Updates([]) == 0 && Commands(rows[..0]) == [] && Halves(rows[..0]) == [] && Closed(rows, 0)
  {
  }

  /** No completed batch ends between the halves of an update. */
  predicate WholeStops(rows: seq<Row>, polls: seq<Poll>)
    requires Polls(rows, polls)
  {
    polls == [] || (WholeStops(rows, polls[..|polls| - 1]) && Whole(rows, Base(polls)))
  }

  lemma {:induction false} WholeStopsAreClosed(rows: seq<Row>, polls: seq<Poll>)
    requires Paired(rows) && Polls(rows, polls)
    ensures WholeStops(rows, polls) <==> ClosedStops(rows, polls)
  {
    hide Paired, Whole, Closed;
    if polls != [] {
      WholeStopsAreClosed(rows, polls[..|polls| - 1]);
      BaseInside(rows, polls);
      WholeIsClosed(rows, Base(polls));
    }
  }

  /** When nothing is lost to split pairs: for every log, every change table that records
      it, and every schedule that ends with a poll that gets all of it, the completed
      batches send the log, one after the other, if and only if none of them ended
      between the halves of an update. */
  lemma SentIffWhole(cfg: Config, rows: seq<Row>, log: seq<Command>, polls: seq<Poll>, s: Contents, w: int)
    requires Ordered(rows, w) && w >= -1 && Bounded(rows, polls)
    requires Describes(rows, log) && EndsWithAll(rows, polls)
    ensures SentBy(cfg, rows, polls, State(s, w, [])) == log <==> WholeStops(rows, polls)
  {
    SendsTheLog(rows, log);
    DescribedIsPaired(rows, log);
    hide Ordered, Boundary, Scan, Updates, Halves, Closed, Paired, ClosedStops, WholeStops, SentBy, Describes;
    WholeStopsAreClosed(rows, polls);
    BaseInside(rows, polls);
    StopsSend(cfg, rows, polls, s, w);
    PairsMakeUpdates(rows, |rows|);
    assert rows[..|rows|] == rows;
  }

  lemma {:induction false} FlaglessStops(rows: seq<Row>, polls: seq<Poll>)
    requires Flagless(rows, polls)
    ensures ClosedStops(rows, polls) && Closed(rows, Base(polls))
  {
    if polls == [] {
      NothingSent(rows);
    } else {
      hide Boundary, Closed;
      FlaglessStops(rows, polls[..|polls| - 1]);
    }
  }

  // ---------------------------------------------------------------- runs without failures

  predicate AllFinish(polls: seq<Poll>) {
    forall i :: 0 <= i < |polls| ==> polls[i].end.NoMoreRows?
  }

  /** Without failures the engine executes the log's commands, each once. */
  lemma {:induction false} CleanRunSends(cfg: Config, rows: seq<Row>, t: Contents, w: int, polls: seq<Poll>)
    requires Ordered(rows, w) && w >= -1 && Flagless(rows, polls) && AllFinish(polls)
    ensures Base(polls) <= |rows| && Count(rows, Base(polls)) <= |Commands(rows)|
    ensures Run(cfg, rows, polls, State(t, w, [])).index
         == ExecAll(cfg, Commands(rows)[..Count(rows, Base(polls))], t)
  {
    hide Ordered, Commands, ExecAll, Closed, Boundary, MaxRsid, Mark, Fetched, NextBase, Gets;
    var log := Commands(rows);
    BaseInside(rows, polls);
    FlaglessStops(rows, polls);
    CommandsSlice(rows, Base(polls), |rows|);
    if polls == [] {
      NothingSent(rows);
      NothingExecuted(cfg, t);
    } else {
      var front, p := polls[..|polls| - 1], polls[|polls| - 1];
      var b, b' := Base(front), Base(polls);
      CleanRunSends(cfg, rows, t, w, front);
      FlaglessStops(rows, front);
      WatermarkSafety(cfg, rows, front, t, w);
      FetchedFrom(rows, w, p, b);
      CommandsSlice(rows, b, b');
      ExecSlice(cfg, log, Count(rows, b), Count(rows, b'), t);
    }
  }

  lemma ExecSlice(cfg: Config, log: seq<Command>, i: nat, j: nat, t: Contents)
    requires i <= j <= |log|
    ensures ExecAll(cfg, log[..j], t) == ExecAll(cfg, log[i..j], ExecAll(cfg, log[..i], t))
  {
    assert log[..j] == log[..i] + log[i..j];
    ExecAllAppend(cfg, log[..i], log[i..j], t);
  }

  lemma NothingExecuted(cfg: Config, t: Contents)
    ensures ExecAll(cfg, [], t) == t
  {
  }

  /** Catch-up: in any run whose polls all finish, for every valid log - rows moved
      onto any free key included - every command succeeds, and the index is the
      source table at the watermark. */
  lemma CleanRunCatchesUp(cfg: Config, rows: seq<Row>, log: seq<Command>, t: Contents, w: int, polls: seq<Poll>)
    requires Describes(rows, log) && ValidLog(log, t) && Roomy(cfg, log, t)
    requires Ordered(rows, w) && w >= -1 && Orderly(rows, polls) && AllFinish(polls)
    ensures Base(polls) <= |rows| && Count(rows, Base(polls)) <= |log|
    ensures Base(polls) == |rows| ==> Count(rows, Base(polls)) == |log|
    ensures var st, n := Run(cfg, rows, polls, State(t, w, [])), Count(rows, Base(polls));
            && st.index == Table(log, n, t) && st.watermark == Mark(rows, w, Base(polls))
            && st.index == ExecAll(cfg, log[..n], t)
            && forall i :: 0 <= i < n ==> Succeeds(cfg, log[i], ExecAll(cfg, log[..i], t))
  {
    SendsTheLog(rows, log);
    DescribedIsPaired(rows, log);
    OrderlyIsFlagless(rows, polls);
    hide Ordered, Scan, ExecAll, Closed, Boundary, Mark, ValidLog, Roomy, Run, Succeeds, Table, Describes, Paired,
         Whole;
    CleanRunSends(cfg, rows, t, w, polls);
    WatermarkSafety(cfg, rows, polls, t, w);
    var n := Count(rows, Base(polls));
    assert rows[..|rows|] == rows;
    CatchUp(cfg, log, t, n);
    forall i | 0 <= i < n ensures Succeeds(cfg, log[i], ExecAll(cfg, log[..i], t)) { CatchUpSucceeds(cfg, log, t, i); }
  }

  // ---------------------------------------------------------------- runs with failures

  /** The index of a listener standing at row `b` is on its way through the log. */
  ghost predicate OnTrack(rows: seq<Row>, t: Contents, w: int, st: State, b: nat, h: nat) {
    && StandsAt(rows, w, st, b) && Closed(rows, b)
    && st.index.Keys <= t.Keys + NewKeys(Commands(rows))
    && Replaying(Commands(rows), t, Count(rows, b), h, st.index)
  }

  /** One stretch of rows, whether or not the poll gets to move the watermark. */
  lemma StretchKeepsTrack(cfg: Config, rows: seq<Row>, t: Contents, b: nat, v: nat, h: nat, s: Contents)
    returns (h': nat)
    requires ValidLog(Commands(rows), t) && FreshTargets(Commands(rows)) && Roomy(cfg, Commands(rows), t)
    requires Closed(rows, b) && b <= v <= |rows|
    requires s.Keys <= t.Keys + NewKeys(Commands(rows))
    requires Replaying(Commands(rows), t, Count(rows, b), h, s)
    ensures var s' := ExecAll(cfg, Commands(rows[b..v]), s);
            && s'.Keys <= t.Keys + NewKeys(Commands(rows))
            && Replaying(Commands(rows), t, Count(rows, b), h', s')
            && Replaying(Commands(rows), t, Count(rows, v), h', s')
  {
    var log := Commands(rows);
    var i, j := Count(rows, b), Count(rows, v);
    CommandsSlice(rows, b, v);
    RoomyExecAll(cfg, log, t, log[i..j], s);
    ReplayRange(log, t, i, j, h, s);
    h' := Later(h, j);
    Rewind(log, t, j, h', ApplyAll(log[i..j], s), i);
  }

  lemma PollKeepsTrack(cfg: Config, rows: seq<Row>, t: Contents, w: int, p: Poll, st: State,
                       b: nat, h: nat)
    returns (h': nat)
    requires Ordered(rows, w) && w >= -1
    requires ValidLog(Commands(rows), t) && FreshTargets(Commands(rows)) && Roomy(cfg, Commands(rows), t)
    requires p.visible <= |rows|
    requires p.end.NoMoreRows? ==> Boundary(rows, p.visible) && Closed(rows, p.visible)
    requires OnTrack(rows, t, w, st, b, h)
    ensures OnTrack(rows, t, w, RunPoll(cfg, rows, p, st), NextBase(b, p), h')
  {
    hide Ordered, Scan, ExecAll, MaxRsid, Above, ValidLog, FreshTargets, Roomy, Replaying, NewKeys;
    PollMoves(cfg, rows, w, p, st, b);
    FetchedFrom(rows, w, p, b);
    var f := Fetched(rows, p, st.watermark);
    h' := StretchKeepsTrack(cfg, rows, t, b, b + |f|, h, st.index);
  }

  /** What one poll sends, finished or failed: the changes that the rows it gets record, in
      the source's order. */
  lemma PollSends(cfg: Config, rows: seq<Row>, log: seq<Command>, w: int, p: Poll, st: State, b: nat)
    requires Describes(rows, log) && Ordered(rows, w)
    requires Boundary(rows, b) && Whole(rows, b) && st.watermark == Mark(rows, w, b) && p.visible <= |rows|
    ensures var e := b + Gets(p, b);
            && e <= |rows| && Count(rows, b) <= Count(rows, e) <= |log|
            && RunPoll(cfg, rows, p, st).index == ExecAll(cfg, log[Count(rows, b)..Count(rows, e)], st.index)
  {
    hide Describes, Ordered, Paired, Whole, Closed, Gets, Count, Commands, Fetched, ExecAll, Boundary, Mark;
    SendsTheLog(rows, log);
    DescribedIsPaired(rows, log);
    FetchedFrom(rows, w, p, b);
    WholeIsClosed(rows, b);
    CommandsSlice(rows, b, b + Gets(p, b));
  }

  lemma StartOnTrack(rows: seq<Row>, t: Contents, w: int)
    ensures OnTrack(rows, t, w, State(t, w, []), 0, 0)
  {
    assert rows[..0] == [];
    TableEnds(Commands(rows), t);
    TableReplaying(Commands(rows), t, 0);
  }

  lemma {:induction false} RunKeepsTrack(cfg: Config, rows: seq<Row>, t: Contents, w: int, polls: seq<Poll>)
    returns (h: nat)
    requires Ordered(rows, w) && w >= -1 && Flagless(rows, polls)
    requires ValidLog(Commands(rows), t) && FreshTargets(Commands(rows)) && Roomy(cfg, Commands(rows), t)
    ensures OnTrack(rows, t, w, Run(cfg, rows, polls, State(t, w, [])), Base(polls), h)
  {
    hide Ordered, ValidLog, FreshTargets, Roomy, Scan, OnTrack, RunPoll, NextBase, Boundary, Closed;
    if polls == [] {
      h := 0;
      StartOnTrack(rows, t, w);
    } else {
      var front, p := polls[..|polls| - 1], polls[|polls| - 1];
      h := RunKeepsTrack(cfg, rows, t, w, front);
      h := PollKeepsTrack(cfg, rows, t, w, p, Run(cfg, rows, front, State(t, w, [])), Base(front), h);
    }
  }

  /** Convergence over whole runs. Start with the index equal to the source table
      and the watermark below the log; poll any number of times, each poll
      seeing as much of the log as exists by then and failing wherever it
      likes; then let one poll finish. The index is the source table, the
      watermark is the last RSID$, and every row was in one completed batch. */
  lemma RunConverges(cfg: Config, rows: seq<Row>, log: seq<Command>, t: Contents, w: int, polls: seq<Poll>)
    requires Describes(rows, log) && ValidLog(log, t) && FreshTargets(log) && Roomy(cfg, log, t)
    requires Ordered(rows, w) && w >= -1 && Orderly(rows, polls)
    requires EndsWithAll(rows, polls)
    ensures Run(cfg, rows, polls, State(t, w, [])) == State(SourceAll(log, t), Mark(rows, w, |rows|), rows)
  {
    SendsTheLog(rows, log);
    DescribedIsPaired(rows, log);
    OrderlyIsFlagless(rows, polls);
    hide Describes, Ordered, Bounded, Flagless, ValidLog, FreshTargets, Roomy, Replaying, Scan, Paired, Run, NewKeys;
    var h := RunKeepsTrack(cfg, rows, t, w, polls);
    PollsInside(rows, polls);
    BaseInside(rows, polls);
    var st := Run(cfg, rows, polls, State(t, w, []));
    assert rows[..|rows|] == rows;
    FrontIsTable(log, t, |log|, st.index);
    TableEnds(log, t);
  }

  lemma PollsInside(rows: seq<Row>, polls: seq<Poll>)
    requires Flagless(rows, polls)
    ensures Polls(rows, polls)
  {
  }

  /** A poll that finishes does not meet, on its way, the one case the engine
      cannot repair. */
  predicate PollLossless(rows: seq<Row>, p: Poll, st: State)
    requires p.visible <= |rows|
  {
    var i, j := |Commands(st.done)|, |Commands(st.done + Fetched(rows, p, st.watermark))|;
    p.end.NoMoreRows? ==> i <= j <= |Commands(rows)| && Lossless(Commands(rows), i, j, st.index)
  }

  predicate RunLossless(cfg: Config, rows: seq<Row>, polls: seq<Poll>, st: State)
    requires Polls(rows, polls)
  {
    polls == [] ||
    var front, p := polls[..|polls| - 1], polls[|polls| - 1];
    RunLossless(cfg, rows, front, st) && PollLossless(rows, p, Run(cfg, rows, front, st))
  }

  /** The index of a listener standing at row `b`, whatever the log: in step with
      the source, or short of a row it will never get back. */
  ghost predicate InStepOrShort(rows: seq<Row>, t: Contents, b: nat, s: Contents, inStep: bool) {
    && b <= |rows|
    && s.Keys <= t.Keys + NewKeys(Commands(rows))
    && (inStep ==> Shows(Commands(rows), t, Count(rows, b), s))
    && (!inStep ==> exists k :: Missing(Commands(rows), t, Count(rows, b), s, k))
  }

  /** The index after a stretch from row `b` to row `v`: as seen from `b` nothing
      has changed, as seen from `v` it must not have lost a row. */
  lemma StretchInStepOrShort(cfg: Config, rows: seq<Row>, t: Contents, b: nat, v: nat, s: Contents, inStep: bool)
    requires ValidLog(Commands(rows), t) && Roomy(cfg, Commands(rows), t)
    requires Closed(rows, b) && b <= v <= |rows|
    requires InStepOrShort(rows, t, b, s, inStep)
    ensures Count(rows, b) <= Count(rows, v) <= |Commands(rows)|
    ensures var s' := ExecAll(cfg, Commands(rows[b..v]), s);
            && InStepOrShort(rows, t, b, s', inStep)
            && InStepOrShort(rows, t, v, s',
                 inStep && Lossless(Commands(rows), Count(rows, b), Count(rows, v), s))
  {
    hide ValidLog, Roomy, Shows, Lossless, Scan, ExecAll, ApplyAll, NewKeys;
    var log := Commands(rows);
    var i, j := Count(rows, b), Count(rows, v);
    CommandsSlice(rows, b, v);
    RoomyExecAll(cfg, log, t, log[i..j], s);
    if inStep {
      PartShows(log, t, i, j, s);
      ShowsRange(log, t, i, j, s);
    } else {
      var k :| Missing(log, t, i, s, k);
      MissingRange(log, t, i, j, s, k);
      assert Missing(log, t, i, ApplyAll(log[i..j], s), k);
    }
  }

  lemma PollInStepOrShort(cfg: Config, rows: seq<Row>, t: Contents, w: int, p: Poll, st: State, b: nat, inStep: bool)
    requires Ordered(rows, w) && w >= -1
    requires ValidLog(Commands(rows), t) && Roomy(cfg, Commands(rows), t)
    requires p.visible <= |rows|
    requires p.end.NoMoreRows? ==> Boundary(rows, p.visible) && Closed(rows, p.visible)
    requires StandsAt(rows, w, st, b) && Closed(rows, b) && InStepOrShort(rows, t, b, st.index, inStep)
    ensures var st' := RunPoll(cfg, rows, p, st);
            && StandsAt(rows, w, st', NextBase(b, p)) && Closed(rows, NextBase(b, p))
            && InStepOrShort(rows, t, NextBase(b, p), st'.index, inStep && PollLossless(rows, p, st))
  {
    hide Ordered, Commands, ExecAll, NextWatermark, Fetched, ValidLog, Roomy, InStepOrShort, Lossless,
         Mark, Boundary, Closed;
    PollMoves(cfg, rows, w, p, st, b);
    FetchedFrom(rows, w, p, b);
    var f := Fetched(rows, p, st.watermark);
    StretchInStepOrShort(cfg, rows, t, b, b + |f|, st.index, inStep);
    assert rows[..b] + rows[b..b + |f|] == rows[..b + |f|];
  }

  lemma StartInStep(rows: seq<Row>, t: Contents, w: int)
    ensures StandsAt(rows, w, State(t, w, []), 0) && InStepOrShort(rows, t, 0, t, true)
  {
    assert rows[..0] == [];
    TableEnds(Commands(rows), t);
    TableShows(Commands(rows), t, 0);
  }

  lemma {:induction false} RunInStepOrShort(cfg: Config, rows: seq<Row>, t: Contents, w: int, polls: seq<Poll>)
    requires Ordered(rows, w) && w >= -1 && Flagless(rows, polls)
    requires ValidLog(Commands(rows), t) && Roomy(cfg, Commands(rows), t)
    ensures var st := Run(cfg, rows, polls, State(t, w, []));
            && StandsAt(rows, w, st, Base(polls)) && Closed(rows, Base(polls))
            && InStepOrShort(rows, t, Base(polls), st.index, RunLossless(cfg, rows, polls, State(t, w, [])))
  {
    hide Ordered, Scan, ValidLog, Roomy, InStepOrShort, RunPoll, PollLossless, Mark, Closed, NextBase, Boundary;
    if polls == [] {
      StartInStep(rows, t, w);
      NothingSent(rows);
    } else {
      var front, p := polls[..|polls| - 1], polls[|polls| - 1];
      var st := Run(cfg, rows, front, State(t, w, []));
      RunInStepOrShort(cfg, rows, t, w, front);
      PollInStepOrShort(cfg, rows, t, w, p, st, Base(front), RunLossless(cfg, rows, front, State(t, w, [])));
    }
  }

  /** Convergence for every valid log, key-changing updates onto any free key
      included: the index is the source table if and only if no finished poll
      moved a row that the index had under neither key and the source keeps. */
  lemma RunConvergesIff(cfg: Config, rows: seq<Row>, log: seq<Command>, t: Contents, w: int, polls: seq<Poll>)
    requires Describes(rows, log) && ValidLog(log, t) && Roomy(cfg, log, t)
    requires Ordered(rows, w) && w >= -1 && Orderly(rows, polls)
    requires EndsWithAll(rows, polls)
    ensures Run(cfg, rows, polls, State(t, w, [])).index == SourceAll(log, t)
       <==> RunLossless(cfg, rows, polls, State(t, w, []))
  {
    SendsTheLog(rows, log);
    DescribedIsPaired(rows, log);
    OrderlyIsFlagless(rows, polls);
    RunInStepOrShort(cfg, rows, t, w, polls);
    BaseInside(rows, polls);
    hide Describes, Ordered, Flagless, Orderly, ValidLog, Roomy, Run, RunLossless, Scan, Paired;
    assert rows[..|rows|] == rows;
    ShowsEnd(log, t, Run(cfg, rows, polls, State(t, w, [])).index);
  }

  lemma TwoPolls(cfg: Config, rows: seq<Row>, st: State)
    requires Ordered(rows, st.watermark)
    ensures var polls := [Poll(|rows|, |rows|, FetchError), Poll(|rows|, 0, NoMoreRows)];
            && Polls(rows, polls)
            && Run(cfg, rows, polls, st).index
            == ExecAll(cfg, Commands(rows), ExecAll(cfg, Commands(rows), st.index))
  {
    hide Scan, ExecAll, MaxRsid, Above, Ordered;
    var p, q := Poll(|rows|, |rows|, FetchError), Poll(|rows|, 0, NoMoreRows);
    assert [p, q][..1] == [p] && [p][..0] == [];
    assert rows[..|rows|] == rows;
    AboveIsSuffix(rows, st.watermark, 0, |rows|);
    assert Run(cfg, rows, [p], st) == RunPoll(cfg, rows, p, st);
  }

  function RenameRows(x: Fields, y: Fields, z: Fields): seq<Row> {
    [Row(0, "D ", Record("b", y)), Row(1, "UO", Record("a", x)), Row(1, "UN", Record("b", z))]
  }

  lemma RenameDescribes(x: Fields, y: Fields, z: Fields)
    ensures var rows := RenameRows(x, y, z);
            && Describes(rows, [Delete("b"), Update("a", Record("b", z))])
            && Whole(rows, 3) && Ordered(rows, -1)
  {
    var rows := RenameRows(x, y, z);
    var c0, c1 := Delete("b"), Update("a", Record("b", z));
    assert rows[..1] + rows[2..2] == rows[..1] && rows[..1][..0] == [] && [c0, c1][..1] == [c0] && [c0][..0] == [];
    assert Describes(rows[..1], [c0]);
    assert DescribesLast(rows, 1, c1);
    assert rows[..3] == rows;
    DescribedIsPaired(rows, [c0, c1]);
  }

  lemma RoomyForTwo(cfg: Config, c0: Command, c1: Command, t: Contents, keys: set<Key>)
    requires t.Keys <= keys && |keys| <= cfg.limit
    requires c0.Delete? && !c1.Delete? && c1.rec.key in keys && cfg.accepts(c1.rec)
    ensures Roomy(cfg, [c0, c1], t)
  {
    forall c | c in [c0, c1] ensures c == c0 || c == c1 { }
    SubsetCount(t.Keys + NewKeys([c0, c1]), keys);
  }

  lemma RenameRoomy(cfg: Config, x: Fields, y: Fields, z: Fields)
    requires cfg.limit >= 2 && cfg.accepts(Record("b", z))
    ensures Roomy(cfg, [Delete("b"), Update("a", Record("b", z))], map["a" := x, "b" := y])
  {
    hide Roomy;
    RoomyForTwo(cfg, Delete("b"), Update("a", Record("b", z)), map["a" := x, "b" := y], {"a", "b"});
  }

  lemma RenameExecs(cfg: Config, x: Fields, y: Fields, z: Fields)
    requires cfg.limit >= 2 && cfg.accepts(Record("b", z))
    ensures var t := map["a" := x, "b" := y];
            var log := [Delete("b"), Update("a", Record("b", z))];
            && ValidLog(log, t) && Roomy(cfg, log, t) && SourceAll(log, t) == map["b" := z]
            && ExecAll(cfg, log, ExecAll(cfg, log, t)) == map[]
  {
    hide ExecAll, ApplyAll, SourceAll, ValidLog, FreshTargets, Roomy, NewKeys;
    var t := map["a" := x, "b" := y];
    var log := [Delete("b"), Update("a", Record("b", z))];
    RenameOntoDeletedKeyIsLost(x, y, z);
    RenameRoomy(cfg, x, y, z);
    assert [2][..0] == [] && log[..2] == log;
    assert AfterFailures(log, [2], t) == ApplyAll(log, t);
    RoomyExecAll(cfg, log, t, log, t);
    RoomyExecAll(cfg, log, t, log, ApplyAll(log, t));
  }

  /** A run that meets every hypothesis of the theorem and still loses a row: b is
      deleted, a is renamed to b, and the poll that fetched all of it fails. */
  lemma RenameIsLostInRun(cfg: Config, x: Fields, y: Fields, z: Fields)
    requires cfg.limit >= 2 && cfg.accepts(Record("b", z))
    ensures var t := map["a" := x, "b" := y];
            var log := [Delete("b"), Update("a", Record("b", z))];
            var rows := RenameRows(x, y, z);
            var polls := [Poll(3, 3, FetchError), Poll(3, 0, NoMoreRows)];
            && Describes(rows, log) && ValidLog(log, t) && Roomy(cfg, log, t)
            && Ordered(rows, -1) && Orderly(rows, polls)
            && SourceAll(log, t) == map["b" := z]
            && Run(cfg, rows, polls, State(t, -1, [])).index == map[]
            && !RunLossless(cfg, rows, polls, State(t, -1, []))
  {
    hide ExecAll, Scan, Run, RunLossless, ValidLog, Roomy, SourceAll, Ordered, Describes, Whole;
    var t := map["a" := x, "b" := y];
    var log := [Delete("b"), Update("a", Record("b", z))];
    var rows := RenameRows(x, y, z);
    RenameDescribes(x, y, z);
    SendsTheLog(rows, log);
    RenameExecs(cfg, x, y, z);
    TwoPolls(cfg, rows, State(t, -1, []));
    var polls := [Poll(3, 3, FetchError), Poll(3, 0, NoMoreRows)];
    assert |rows| == 3 && polls == [Poll(|rows|, |rows|, FetchError), Poll(|rows|, 0, NoMoreRows)];
    RunConvergesIff(cfg, rows, log, t, -1, polls);
    assert "b" in SourceAll(log, t);
  }

  lemma OneRow(r: Row, w: int)
    ensures Above([r], w) == if r.rsid > w then [r] else []
    ensures MaxRsid([r]) == if r.rsid > -1 then r.rsid else -1
    ensures Scan(IDLE, [r]) == ScanRow(IDLE, r)
  {
    assert [r][..0] == [];
  }

  lemma HalfSendsNothing(r: Row)
    requires IsHalf(r)
    ensures Commands([r]) == []
  {
    OneRow(r, -1);
    KindIs(r);
  }

  /** A poll that gets one lone half row sends nothing and moves past it. */
  lemma LonePoll(cfg: Config, rows: seq<Row>, v: nat, r: Row, st: State)
    requires v <= |rows| && IsHalf(r) && r.rsid > -1
    requires Above(rows[..v], st.watermark) == [r]
    ensures RunPoll(cfg, rows, Poll(v, 0, NoMoreRows), st) == State(st.index, r.rsid, st.done + [r])
  {
    hide Commands, Exec, Above, IsHalf;
    HalfSendsNothing(r);
    OneRow(r, -1);
    NothingExecuted(cfg, st.index);
  }

  /** Why both halves must appear together: a poll that sees only the first one
      moves the watermark past it, and the update is never sent - no matter whether
      the second half comes with a later RSID$ or, as one transaction, the same. */
  lemma SplitPairIsLost(cfg: Config, u: Row, n: Row, t: Contents)
    requires 0 <= u.rsid <= n.rsid && IsOld(u) && IsNew(n)
    ensures Describes([u, n], [Update(u.rec.key, n.rec)])
    ensures Run(cfg, [u, n], [Poll(1, 0, NoMoreRows), Poll(2, 0, NoMoreRows)], State(t, -1, [])).index == t
  {
    PairDescribes(u, n);
    hide Describes, RunPoll, IsOld, IsNew;
    RunTwice(cfg, [u, n], Poll(1, 0, NoMoreRows), Poll(2, 0, NoMoreRows), State(t, -1, []));
    FirstHalfOnly(cfg, u, n, t);
    SecondHalfOnly(cfg, u, n, State(t, u.rsid, [u]));
  }

  lemma RunTwice(cfg: Config, rows: seq<Row>, p: Poll, q: Poll, st: State)
    requires p.visible <= |rows| && q.visible <= |rows|
    ensures Run(cfg, rows, [p, q], st) == RunPoll(cfg, rows, q, RunPoll(cfg, rows, p, st))
  {
    hide RunPoll;
    assert [p, q][..1] == [p] && [p][..0] == [];
    assert Run(cfg, rows, [p], st) == RunPoll(cfg, rows, p, st);
  }

  lemma FirstHalfOnly(cfg: Config, u: Row, n: Row, t: Contents)
    requires 0 <= u.rsid && IsHalf(u)
    ensures RunPoll(cfg, [u, n], Poll(1, 0, NoMoreRows), State(t, -1, [])) == State(t, u.rsid, [u])
  {
    hide RunPoll, IsHalf;
    assert [u, n][..1] == [u];
    OneRow(u, -1);
    LonePoll(cfg, [u, n], 1, u, State(t, -1, []));
  }

  lemma SecondHalfOnly(cfg: Config, u: Row, n: Row, st: State)
    requires 0 <= u.rsid <= n.rsid && IsHalf(n) && st.watermark == u.rsid
    ensures RunPoll(cfg, [u, n], Poll(2, 0, NoMoreRows), st).index == st.index
  {
    hide RunPoll, IsHalf, MaxRsid, Scan;
    var rows := [u, n];
    assert rows[..2] == rows && rows[..1] == [u];
    OneRow(u, u.rsid);
    if u.rsid < n.rsid {
      assert Above(rows, u.rsid) == [n];
      LonePoll(cfg, rows, 2, n, st);
    } else {
      assert Above(rows, u.rsid) == [];
      EmptyPoll(cfg, rows, st);
    }
  }

  lemma PairDescribes(u: Row, n: Row)
    requires IsOld(u) && IsNew(n)
    ensures Describes([u, n], [Update(u.rec.key, n.rec)])
  {
    var rows, c := [u, n], Update(u.rec.key, n.rec);
    assert rows[..0] + rows[1..1] == [] && [c][..0] == [];
    assert DescribesLast(rows, 0, c);
  }

  lemma EmptyPoll(cfg: Config, rows: seq<Row>, st: State)
    requires Above(rows, st.watermark) == []
    ensures RunPoll(cfg, rows, Poll(|rows|, 0, NoMoreRows), st) == st
  {
    assert rows[..|rows|] == rows;
    assert Commands([]) == [] && ExecAll(cfg, [], st.index) == st.index;
  }

  // ---------------------------------------------------------------- the connector

  lemma FetchStart(cfg: Config, rows: seq<Row>, s: Contents)
    ensures Scan(IDLE, rows[..0]) == IDLE && MaxRsid(rows[..0]) == -1
    ensures ExecAll(cfg, [], s) == s
  {
  }

  lemma FetchStep(rows: seq<Row>, i: nat)
    requires i < |rows|
    ensures Scan(IDLE, rows[..i + 1]) == ScanRow(Scan(IDLE, rows[..i]), rows[i])
    ensures MaxRsid(rows[..i + 1])
         == if MaxRsid(rows[..i]) < rows[i].rsid then rows[i].rsid else MaxRsid(rows[..i])
  {
    assert rows[..i + 1][..i] == rows[..i];
  }

  class OracleConnector {
    const server: ServerInterface
    var watermark: int

    constructor (server: ServerInterface, watermark: int)
      ensures this.server == server && this.watermark == watermark
    {
      this.server, this.watermark := server, watermark;
    }

    /** The body of the fetch loop: dispatch on the operation, raise the flag of
        a half row, and send an update once both flags are up. */
    method ProcessRow(row: Row, uo: bool, un: bool, pk: Key, rec: Record)
      returns (uoFlag: bool, unFlag: bool, oldPk: Key, newRec: Record, ghost sent: seq<Command>)
      requires server.Valid() && !(uo && un)
      modifies server.indexer
      ensures server.Valid() && !(uoFlag && unFlag)
      ensures ScanRow(Pairing(uo, un, pk, rec, []), row) == Pairing(uoFlag, unFlag, oldPk, newRec, sent)
      ensures server.Contents() == ExecAll(server.cfg, sent, old(server.Contents()))
    {
      hide KindOf, InsertReply, DeleteReply, UpdateReply, ExecAll, ServerInterface.Valid, ServerInterface.Contents;
      uoFlag, unFlag, oldPk, newRec := uo, un, pk, rec;
      ghost var s := server.Contents();
      sent := [];
      match KindOf(row.op) {
        case Inserted =>
          var _ := server.InsertRecord(Parsed(row.rec));
          sent := [Insert(row.rec)];
        case Deleted =>
          var _ := server.DeleteRecord(row.rec.key);
          sent := [Delete(row.rec.key)];
        case OldHalf =>
          uoFlag := true;
          oldPk := row.rec.key;
        case NewHalf =>
          unFlag := true;
          newRec := row.rec;
        case Unknown =>
      }
      if uoFlag && unFlag {
        uoFlag, unFlag := false, false;
        var _ := server.UpdateRecord(oldPk, Parsed(newRec));
        sent := [Update(oldPk, newRec)];
      }
      ExecFew(server.cfg, sent, s);
    }

    /** One execution of the prepared query: the rows SQLFetch hands out, then
        the end of the rows or an error. */
    method PollOnce(fetched: seq<Row>, end: FetchEnd)
      requires server.Valid()
      modifies this, server.indexer
      ensures server.Valid()
      ensures server.Contents() == ExecAll(server.cfg, Commands(fetched), old(server.Contents()))
      ensures watermark == NextWatermark(old(watermark), fetched, end)
    {
      hide ScanRow, Scan, MaxRsid, ExecAll, ServerInterface.Valid, ServerInterface.Contents;
      var uoFlag, unFlag := false, false;
      var oldPk: Key, newRec := "", Record("", map[]);
      var maxRsid := -1;
      var i := 0;
      ghost var sent: seq<Command> := [];
      ghost var s := server.Contents();
      FetchStart(server.cfg, fetched, s);
      while i < |fetched|
        invariant 0 <= i <= |fetched|
        invariant server.Valid()
        invariant !(uoFlag && unFlag)
        invariant Scan(IDLE, fetched[..i]) == Pairing(uoFlag, unFlag, oldPk, newRec, sent)
        invariant maxRsid == MaxRsid(fetched[..i])
        invariant server.Contents() == ExecAll(server.cfg, sent, s)
        invariant watermark == old(watermark)
      {
        var row := fetched[i];
        FetchStep(fetched, i);
        if maxRsid < row.rsid {
          maxRsid := row.rsid;
        }
        ghost var more;
        ScanRowAdds(Pairing(uoFlag, unFlag, oldPk, newRec, sent), row);
        uoFlag, unFlag, oldPk, newRec, more := ProcessRow(row, uoFlag, unFlag, oldPk, newRec);
        ExecAllAppend(server.cfg, sent, more, s);
        sent := sent + more;
        i := i + 1;
      }
      assert fetched[..|fetched|] == fetched;
      if end.NoMoreRows? {
        if maxRsid != -1 {
          watermark := maxRsid;
        }
      }
    }

    /** The outer loop over a finite schedule of polls. */
    method RunListener(rows: seq<Row>, polls: seq<Poll>)
      requires server.Valid() && Polls(rows, polls)
      modifies this, server.indexer
      ensures server.Valid()
      ensures var st := Run(server.cfg, rows, polls, State(old(server.Contents()), old(watermark), []));
              server.Contents() == st.index && watermark == st.watermark
    {
      hide Fetched, Commands, ExecAll, NextWatermark, ServerInterface.Valid, ServerInterface.Contents;
      ghost var st0 := State(server.Contents(), watermark, []);
      var i := 0;
      while i < |polls|
        invariant 0 <= i <= |polls|
        invariant server.Valid()
        invariant server.Contents() == Run(server.cfg, rows, polls[..i], st0).index
        invariant watermark == Run(server.cfg, rows, polls[..i], st0).watermark
      {
        assert polls[..i + 1][..i] == polls[..i];
        PollOnce(Fetched(rows, polls[i], watermark), polls[i].end);
        i := i + 1;
      }
      assert polls[..|polls|] == polls;
    }
  }
}
