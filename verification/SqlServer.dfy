/** The SQL Server listener: each poll fetches, in no particular order, the net
    change of every key touched since the watermark, joined with the table as it
    is now. */
module SqlServer {
  import opened Wrappers
  import opened Index
  import opened ChangeLog
  import opened Server

  /** SYS_CHANGE_VERSION, SYS_CHANGE_OPERATION, the changed key, and the joined
      row (of no meaning for a delete). */
  datatype Row = Row(version: int, op: char, key: Key, rec: Record)

  datatype FetchEnd = NoMoreRows | FetchError

  function CommandOf(r: Row): Option<Command> {
    if r.op == 'I' then Some(Insert(r.rec))
    else if r.op == 'D' then Some(Delete(r.key))
    else if r.op == 'U' then Some(Update(r.key, r.rec))
    else None
  }

  function Commands(rows: seq<Row>): seq<Command> {
    if rows == [] then []
    else
      var c := CommandOf(rows[|rows| - 1]);
      Commands(rows[..|rows| - 1]) + (if c.Some? then [c.value] else [])
  }

  function MaxVersion(rows: seq<Row>): int {
    if rows == [] then -1
    else
      var m, v := MaxVersion(rows[..|rows| - 1]), rows[|rows| - 1].version;
      if m < v then v else m
  }

  function NextWatermark(w: int, fetched: seq<Row>, end: FetchEnd): int {
    if end.FetchError? || MaxVersion(fetched) == -1 then w else MaxVersion(fetched)
  }

  /** A row of any other operation is passed over; its version still counts. */
  lemma OtherRowsAreSkipped(rows: seq<Row>, r: Row)
    requires r.op != 'I' && r.op != 'D' && r.op != 'U'
    ensures Commands(rows + [r]) == Commands(rows)
    ensures MaxVersion(rows + [r]) == if MaxVersion(rows) < r.version then r.version else MaxVersion(rows)
  {
    assert (rows + [r])[..|rows|] == rows;
  }

  // ---------------------------------------------------------------- net batches

  /** Change tracking reports each key at most once, and a joined row has the key
      it was joined on. */
  ghost predicate NetRows(rows: seq<Row>) {
    && (forall i, j :: 0 <= i < j < |rows| ==> rows[i].key != rows[j].key)
    && (forall i :: 0 <= i < |rows| ==> RowShape(rows[i]))
  }

  predicate RowShape(r: Row) {
    r.op in {'I', 'D', 'U'} && r.key != "" && (r.op != 'D' ==> r.rec.key == r.key)
  }

  /** The index after sending the rows in the order given. */
  function Send(rows: seq<Row>, s: Contents): Contents {
    ApplyAll(Commands(rows), s)
  }

  function SendRow(r: Row, s: Contents): Contents
    requires RowShape(r)
  {
    Apply(CommandOf(r).value, s)
  }

  lemma SendLast(rows: seq<Row>, s: Contents)
    requires rows != [] && RowShape(rows[|rows| - 1])
    ensures Send(rows, s) == SendRow(rows[|rows| - 1], Send(rows[..|rows| - 1], s))
  {
    var cs := Commands(rows);
    assert cs[..|cs| - 1] == Commands(rows[..|rows| - 1]);
  }

  lemma RowTouchesItsKey(r: Row, s: Contents, s': Contents, k: Key)
    requires RowShape(r)
    ensures k != r.key ==> At(SendRow(r, s), k) == At(s, k)
    ensures At(s, r.key) == At(s', r.key) ==> At(SendRow(r, s), r.key) == At(SendRow(r, s'), r.key)
  {
  }

  lemma SendNone(s: Contents)
    ensures Send([], s) == s
  {
  }

  /** Each key of a net batch sees only its own row. */
  lemma {:induction false} SendAt(rows: seq<Row>, s: Contents, k: Key)
    requires NetRows(rows)
    ensures forall i :: 0 <= i < |rows| && rows[i].key == k ==> At(Send(rows, s), k) == At(SendRow(rows[i], s), k)
    ensures (forall i :: 0 <= i < |rows| ==> rows[i].key != k) ==> At(Send(rows, s), k) == At(s, k)
  {
    hide Send, SendRow, RowShape;
    SendNone(s);
    if rows != [] {
      var front, n := rows[..|rows| - 1], |rows| - 1;
      SendAt(front, s, k);
      SendLast(rows, s);
      RowTouchesItsKey(rows[n], Send(front, s), s, k);
      forall i | 0 <= i < |rows| && rows[i].key == k
        ensures At(Send(rows, s), k) == At(SendRow(rows[i], s), k)
      {
        if i < n {
          assert front[i] == rows[i];
        } else {
          assert forall j :: 0 <= j < |front| ==> front[j].key != k;
        }
      }
    }
  }

  // ---------------------------------------------------------------- order independence

  lemma CountsPositions(rows: seq<Row>, i: nat)
    requires i < |rows|
    ensures multiset(rows)[rows[i]] >= 1
    ensures forall j :: i < j < |rows| && rows[j] == rows[i] ==> multiset(rows)[rows[i]] >= 2
  {
    assert rows == rows[..i] + [rows[i]] + rows[i + 1..];
    forall j | i < j < |rows| && rows[j] == rows[i] ensures multiset(rows)[rows[i]] >= 2 {
      assert rows[i + 1..][j - i - 1] == rows[i];
    }
  }

  lemma {:induction false} CountOnce(rows: seq<Row>, r: Row)
    requires NetRows(rows)
    ensures multiset(rows)[r] <= 1
  {
    if rows != [] {
      var front, n := rows[..|rows| - 1], |rows| - 1;
      CountOnce(front, r);
      assert rows == front + [rows[n]];
      if rows[n] == r { assert r !in front; }
    }
  }

  lemma SameMembers(a: seq<Row>, b: seq<Row>, r: Row)
    requires multiset(a) == multiset(b)
    ensures r in a <==> r in b
  {
    assert r in multiset(a) <==> r in multiset(b);
  }

  lemma PermutedNetRows(a: seq<Row>, b: seq<Row>)
    requires multiset(a) == multiset(b) && NetRows(a)
    ensures NetRows(b)
  {
    forall i | 0 <= i < |b| ensures RowShape(b[i]) { SameMembers(a, b, b[i]); }
    forall i, j | 0 <= i < j < |b| ensures b[i].key != b[j].key {
      if b[i].key == b[j].key {
        SameMembers(a, b, b[i]);
        SameMembers(a, b, b[j]);
        assert b[i] == b[j];
        CountsPositions(b, i);
        CountOnce(a, b[i]);
      }
    }
  }

  lemma {:induction false} MaxIsMember(rows: seq<Row>)
    ensures forall i :: 0 <= i < |rows| ==> rows[i].version <= MaxVersion(rows)
    ensures MaxVersion(rows) >= -1
    ensures MaxVersion(rows) == -1 || exists i :: 0 <= i < |rows| && rows[i].version == MaxVersion(rows)
  {
    if rows != [] {
      var front, n := rows[..|rows| - 1], |rows| - 1;
      MaxIsMember(front);
      forall i | 0 <= i < |rows| ensures rows[i].version <= MaxVersion(rows) {
        if i < n { assert front[i] == rows[i]; }
      }
      if MaxVersion(rows) == rows[n].version {
      } else if MaxVersion(front) != -1 {
        var i :| 0 <= i < |front| && front[i].version == MaxVersion(front);
        assert rows[i] == front[i];
      }
    }
  }

  lemma MaxOfSuperset(a: seq<Row>, b: seq<Row>)
    requires forall r :: r in a ==> r in b
    ensures MaxVersion(a) <= MaxVersion(b)
  {
    MaxIsMember(a);
    MaxIsMember(b);
    if MaxVersion(a) != -1 {
      var i :| 0 <= i < |a| && a[i].version == MaxVersion(a);
      assert a[i] in b;
    }
  }

  /** Why the query needs no ORDER BY: any two orders of a net batch leave the same
      index and the same watermark. */
  lemma OrderIndependent(a: seq<Row>, b: seq<Row>, s: Contents, w: int, end: FetchEnd)
    requires multiset(a) == multiset(b) && NetRows(a)
    ensures Send(a, s) == Send(b, s)
    ensures NextWatermark(w, a, end) == NextWatermark(w, b, end)
  {
    PermutedNetRows(a, b);
    forall k ensures At(Send(a, s), k) == At(Send(b, s), k) {
      SendAt(a, s, k);
      SendAt(b, s, k);
      if i :| 0 <= i < |a| && a[i].key == k {
        SameMembers(a, b, a[i]);
        var j :| 0 <= j < |b| && b[j] == a[i];
      } else {
        forall j | 0 <= j < |b| ensures b[j].key != k { SameMembers(a, b, b[j]); }
      }
    }
    SameLookups(Send(a, s), Send(b, s));
    forall r ensures r in a <==> r in b { SameMembers(a, b, r); }
    MaxOfSuperset(a, b);
    MaxOfSuperset(b, a);
  }

  // ---------------------------------------------------------------- what a batch achieves

  /** `rows` lists what changed from table `before` to table `now`, with the rows as they
      are now. A key that came and went, or was updated to what it was, may be
      listed too. */
  ghost predicate NetChange(rows: seq<Row>, before: Contents, now: Contents) {
    && NetRows(rows)
    && (forall i :: 0 <= i < |rows| ==> NetRow(rows[i], now))
    && (forall k :: At(before, k) != At(now, k) ==> exists i :: 0 <= i < |rows| && rows[i].key == k)
  }

  predicate NetRow(r: Row, now: Contents) {
    At(now, r.key) == if r.op == 'D' then None else Some(r.rec.body)
  }

  /** The operations are those of the whole change: an insert of a key the old table did
      not have, an update of one it had. */
  ghost predicate Classified(rows: seq<Row>, before: Contents) {
    forall i :: 0 <= i < |rows| ==> ClassifiedAt(rows[i], before)
  }

  predicate ClassifiedAt(r: Row, before: Contents) {
    (r.op == 'I' ==> r.key !in before) && (r.op == 'U' ==> r.key in before)
  }

  ghost predicate ReadyAt(next: Row, s: Contents) {
    && (next.op == 'I' ==> next.key !in s || s[next.key] == next.rec.body)
    && (next.op == 'U' ==> next.key in s)
  }

  /** Whether the engine would honour every row, and needs no other: new keys free
      (or already right), updated keys present, unlisted keys as they were. */
  ghost predicate Ready(rows: seq<Row>, before: Contents, s: Contents) {
    && (forall i :: 0 <= i < |rows| ==> ReadyAt(rows[i], s))
    && (forall k :: (forall i :: 0 <= i < |rows| ==> rows[i].key != k) ==> At(s, k) == At(before, k))
  }

  lemma RowLands(r: Row, now: Contents, s: Contents)
    requires RowShape(r) && NetRow(r, now)
    ensures At(SendRow(r, s), r.key) == At(now, r.key) <==> ReadyAt(r, s)
  {
  }

  lemma KeyLandsIff(rows: seq<Row>, before: Contents, now: Contents, s: Contents, k: Key)
    requires NetChange(rows, before, now)
    ensures At(Send(rows, s), k) == At(now, k) <==>
            && (forall i :: 0 <= i < |rows| && rows[i].key == k ==> ReadyAt(rows[i], s))
            && ((forall i :: 0 <= i < |rows| ==> rows[i].key != k) ==> At(s, k) == At(before, k))
  {
    hide Send, SendRow, ReadyAt, NetRow, RowShape;
    SendAt(rows, s, k);
    if i :| 0 <= i < |rows| && rows[i].key == k {
      forall j | 0 <= j < |rows| && rows[j].key == k ensures j == i { }
      RowLands(rows[i], now, s);
    }
  }

  /** When a batch brings an index - any index, perhaps left over from a failed
      attempt - to the current table: exactly when the index is ready for it. */
  lemma BatchLandsIff(rows: seq<Row>, before: Contents, now: Contents, s: Contents)
    requires NetChange(rows, before, now)
    ensures Send(rows, s) == now <==> Ready(rows, before, s)
  {
    hide Send, ReadyAt, NetChange;
    forall k { KeyLandsIff(rows, before, now, s, k); }
    if Ready(rows, before, s) {
      forall k ensures At(Send(rows, s), k) == At(now, k) { }
      SameLookups(Send(rows, s), now);
    } else if Send(rows, s) == now {
      forall i | 0 <= i < |rows| ensures ReadyAt(rows[i], s) { KeyLandsIff(rows, before, now, s, rows[i].key); }
    }
  }

  /** Every key shows the old table or the new one. */
  ghost predicate Mixed(before: Contents, now: Contents, s: Contents) {
    forall k :: At(s, k) == At(before, k) || At(s, k) == At(now, k)
  }

  lemma MixedIsReady(rows: seq<Row>, before: Contents, now: Contents, s: Contents)
    requires NetChange(rows, before, now) && Classified(rows, before) && Mixed(before, now, s)
    ensures Ready(rows, before, s)
  {
    forall i | 0 <= i < |rows| ensures ReadyAt(rows[i], s) {
      assert NetRow(rows[i], now) && ClassifiedAt(rows[i], before);
      assert At(s, rows[i].key) == At(before, rows[i].key) || At(s, rows[i].key) == At(now, rows[i].key);
    }
    forall k | forall i :: 0 <= i < |rows| ==> rows[i].key != k ensures At(s, k) == At(before, k) {
      assert At(before, k) == At(now, k);
    }
  }

  /** Any part of a batch, in any order, keeps a mixed index mixed. */
  lemma {:induction false} PartKeepsMixed(part: seq<Row>, rows: seq<Row>, before: Contents, now: Contents, s: Contents)
    requires NetChange(rows, before, now) && Mixed(before, now, s)
    requires forall i :: 0 <= i < |part| ==> part[i] in rows
    ensures Mixed(before, now, Send(part, s))
  {
    if part != [] {
      var front, r := part[..|part| - 1], part[|part| - 1];
      PartKeepsMixed(front, rows, before, now, s);
      var s0 := Send(front, s);
      assert RowShape(r) && NetRow(r, now);
      SendLast(part, s);
      forall k ensures At(Send(part, s), k) == At(before, k) || At(Send(part, s), k) == At(now, k) {
        RowTouchesItsKey(r, s0, s0, k);
        assert At(s0, k) == At(before, k) || At(s0, k) == At(now, k);
      }
    }
  }

  /** What a row of a net batch leaves under its key, if it gets through. */
  function Outcome(r: Row): Option<Fields> {
    if r.op == 'D' then None else Some(r.rec.body)
  }

  /** The row `r`, sent by a failed attempt, does not stand in the way of the next
      batch: an insert is listed with the same record, a deleted key does not come
      back as an update, and a key that is no longer listed was sent nothing new. */
  ghost predicate Bearable(r: Row, next: seq<Row>, before: Contents) {
    && (forall j :: 0 <= j < |next| && next[j].key == r.key ==>
          && (next[j].op == 'I' && r.op == 'I' ==> r.rec.body == next[j].rec.body)
          && (next[j].op == 'U' ==> r.op != 'D'))
    && ((forall j :: 0 <= j < |next| ==> next[j].key != r.key) ==> At(before, r.key) == Outcome(r))
  }

  /** The index after part of a net batch, key by key. */
  lemma PartOutcome(part: seq<Row>, first: seq<Row>, before: Contents, mid: Contents, k: Key)
    requires NetChange(first, before, mid) && Classified(first, before) && NetRows(part)
    requires forall i :: 0 <= i < |part| ==> part[i] in first
    ensures forall i :: 0 <= i < |part| && part[i].key == k ==> At(Send(part, before), k) == Outcome(part[i])
    ensures (forall i :: 0 <= i < |part| ==> part[i].key != k) ==> At(Send(part, before), k) == At(before, k)
  {
    hide Send, SendRow;
    SendAt(part, before, k);
    forall i | 0 <= i < |part| && part[i].key == k ensures At(Send(part, before), k) == Outcome(part[i]) {
      var j :| 0 <= j < |first| && first[j] == part[i];
      assert NetRow(first[j], mid) && ClassifiedAt(first[j], before);
      RowLands(first[j], mid, before);
    }
  }

  lemma ListedIsReady(r: Row, next: Row, before: Contents, now: Contents, s: Contents)
    requires NetRow(next, now) && r.key == next.key && At(s, r.key) == Outcome(r)
    requires RowShape(r) && ClassifiedAt(r, before) && ClassifiedAt(next, before)
    ensures ReadyAt(next, s)
       <==> (next.op == 'I' && r.op == 'I' ==> r.rec.body == next.rec.body) && (next.op == 'U' ==> r.op != 'D')
  {
  }

  /** Two attempts, exactly: the first sends `part` of the net change from `before` to
      `mid` and fails; the second gets the net change from `before` to `now`, by
      then perhaps another one. It lands if and only if every row already sent is
      bearable. */
  lemma TwoAttemptsIff(part: seq<Row>, first: seq<Row>, second: seq<Row>, before: Contents,
                       mid: Contents, now: Contents)
    requires NetChange(first, before, mid) && NetChange(second, before, now)
    requires Classified(first, before) && Classified(second, before)
    requires NetRows(part) && forall i :: 0 <= i < |part| ==> part[i] in first
    ensures Send(second, Send(part, before)) == now <==>
            forall i :: 0 <= i < |part| ==> Bearable(part[i], second, before)
  {
    hide Send, NetRows;
    var s := Send(part, before);
    BatchLandsIff(second, before, now, s);
    if Ready(second, before, s) {
      forall i | 0 <= i < |part| ensures Bearable(part[i], second, before) {
        BearableIff(part, i, first, second, before, mid, now);
      }
    } else if forall i :: 0 <= i < |part| ==> Bearable(part[i], second, before) {
      AllBearable(part, first, second, before, mid, now);
      assert false;
    }
  }

  lemma SentShape(part: seq<Row>, i: nat, first: seq<Row>, before: Contents, mid: Contents)
    requires NetChange(first, before, mid) && Classified(first, before) && i < |part| && part[i] in first
    ensures RowShape(part[i]) && ClassifiedAt(part[i], before)
  {
    var j :| 0 <= j < |first| && first[j] == part[i];
    assert RowShape(first[j]) && ClassifiedAt(first[j], before);
  }

  lemma BearableIff(part: seq<Row>, i: nat, first: seq<Row>, second: seq<Row>, before: Contents, mid: Contents,
                    now: Contents)
    requires NetChange(first, before, mid) && NetChange(second, before, now)
    requires Classified(first, before) && Classified(second, before)
    requires NetRows(part) && i < |part| && forall i :: 0 <= i < |part| ==> part[i] in first
    ensures Bearable(part[i], second, before) <==>
            && (forall j :: 0 <= j < |second| && second[j].key == part[i].key ==>
                  ReadyAt(second[j], Send(part, before)))
            && ((forall j :: 0 <= j < |second| ==> second[j].key != part[i].key) ==>
                  At(Send(part, before), part[i].key) == At(before, part[i].key))
  {
    hide Send, NetRows, RowShape;
    var s, r := Send(part, before), part[i];
    PartOutcome(part, first, before, mid, r.key);
    SentShape(part, i, first, before, mid);
    forall j | 0 <= j < |second| && second[j].key == r.key
      ensures ReadyAt(second[j], s) <==>
              && (second[j].op == 'I' && r.op == 'I' ==> r.rec.body == second[j].rec.body)
              && (second[j].op == 'U' ==> r.op != 'D')
    {
      assert NetRow(second[j], now) && ClassifiedAt(second[j], before);
      ListedIsReady(r, second[j], before, now, s);
    }
  }

  lemma AllBearable(part: seq<Row>, first: seq<Row>, second: seq<Row>, before: Contents, mid: Contents, now: Contents)
    requires NetChange(first, before, mid) && NetChange(second, before, now)
    requires Classified(first, before) && Classified(second, before)
    requires NetRows(part) && forall i :: 0 <= i < |part| ==> part[i] in first
    requires forall i :: 0 <= i < |part| ==> Bearable(part[i], second, before)
    ensures Ready(second, before, Send(part, before))
  {
    hide Send, NetRows, Bearable;
    var s := Send(part, before);
    forall j | 0 <= j < |second| ensures ReadyAt(second[j], s) {
      PartOutcome(part, first, before, mid, second[j].key);
      if i :| 0 <= i < |part| && part[i].key == second[j].key {
        BearableIff(part, i, first, second, before, mid, now);
      } else {
        assert ClassifiedAt(second[j], before);
      }
    }
    forall k | forall j :: 0 <= j < |second| ==> second[j].key != k ensures At(s, k) == At(before, k) {
      PartOutcome(part, first, before, mid, k);
      if i :| 0 <= i < |part| && part[i].key == k {
        BearableIff(part, i, first, second, before, mid, now);
      }
    }
  }

  /** The limit of it: fail after sending a net insert, let the row change, and the
      next net batch - still an insert - no longer gets through. */
  lemma ChangedBatchIsRefused(x: Fields, y: Fields)
    requires x != y
    ensures var before, now, later := map[], map["a" := x], map["a" := y];
            var first, second := [Row(1, 'I', "a", Record("a", x))], [Row(2, 'I', "a", Record("a", y))];
            && NetChange(first, before, now) && NetChange(second, before, later)
            && Classified(first, before) && Classified(second, before)
            && Send(second, before) == later
            && Send(second, Send(first, before)) != later
  {
    var before: Contents, now, later := map[], map["a" := x], map["a" := y];
    var first, second := [Row(1, 'I', "a", Record("a", x))], [Row(2, 'I', "a", Record("a", y))];
    forall k | At(before, k) != At(now, k) ensures exists i :: 0 <= i < |first| && first[i].key == k {
      assert first[0].key == k;
    }
    forall k | At(before, k) != At(later, k) ensures exists i :: 0 <= i < |second| && second[i].key == k {
      assert second[0].key == k;
    }
    MixedIsReady(first, before, now, before);
    BatchLandsIff(first, before, now, before);
    MixedIsReady(second, before, later, before);
    BatchLandsIff(second, before, later, before);
    assert second[0].key in now && now["a"] != second[0].rec.body;
    BatchLandsIff(second, before, later, now);
  }

  // ---------------------------------------------------------------- runs

  /** The table after each version, and the version numbers; entry 0 is where the
      watermark starts. */
  datatype History = History(tables: seq<Contents>, versions: seq<int>)

  ghost predicate SoundHistory(h: History) {
    && |h.tables| == |h.versions| > 0
    && h.versions[0] >= -1
    && forall i, j :: 0 <= i < j < |h.versions| ==> h.versions[i] < h.versions[j]
  }

  /** One poll: the query sees the table at `visible` and answers `batch`; the first
      `fetched` rows arrive, or all of them. */
  datatype Poll = Poll(visible: nat, batch: seq<Row>, fetched: nat, end: FetchEnd)

  function Fetched(p: Poll): seq<Row> {
    if p.end.NoMoreRows? || p.fetched > |p.batch| then p.batch else p.batch[..p.fetched]
  }

  /** What the server answers to a listener at `b`: in some order, the net change
      to the visible table; its highest version is the visible one's. */
  ghost predicate Answers(h: History, b: nat, p: Poll)
    requires SoundHistory(h) && b < |h.tables|
  {
    && b <= p.visible < |h.tables|
    && NetChange(p.batch, h.tables[b], h.tables[p.visible])
    && (b == p.visible ==> p.batch == [])
    && (b < p.visible ==> HighestIs(p.batch, h.versions[p.visible]))
  }

  ghost predicate HighestIs(rows: seq<Row>, v: int) {
    && (forall i :: 0 <= i < |rows| ==> rows[i].version <= v)
    && exists i :: 0 <= i < |rows| && rows[i].version == v
  }

  datatype State = State(index: Contents, watermark: int)

  function RunPoll(cfg: Config, p: Poll, st: State): State {
    State(ExecAll(cfg, Commands(Fetched(p)), st.index), NextWatermark(st.watermark, Fetched(p), p.end))
  }

  function Run(cfg: Config, polls: seq<Poll>, st: State): State {
    if polls == [] then st else RunPoll(cfg, polls[|polls| - 1], Run(cfg, polls[..|polls| - 1], st))
  }

  /** Where the listener stands after the polls: at the last finished one's table. */
  function Base(polls: seq<Poll>): nat {
    if polls == [] then 0
    else if polls[|polls| - 1].end.NoMoreRows? then polls[|polls| - 1].visible
    else Base(polls[..|polls| - 1])
  }

  /** The server answers every poll from where the listener stands. */
  ghost predicate Answered(h: History, polls: seq<Poll>)
    requires SoundHistory(h)
  {
    forall i :: 0 <= i < |polls| ==>
      Base(polls[..i]) < |h.tables| && Answers(h, Base(polls[..i]), polls[i])
  }

  /** ... with the operations of the whole change, and a poll that follows a failed one
      sees the same table again. */
  ghost predicate Schedule(h: History, polls: seq<Poll>)
    requires SoundHistory(h)
  {
    && Answered(h, polls)
    && (forall i :: 0 <= i < |polls| ==> Classified(polls[i].batch, h.tables[Base(polls[..i])]))
    && forall i :: 0 < i < |polls| && polls[i - 1].end.FetchError? ==> polls[i].visible == polls[i - 1].visible
  }

  lemma AnsweredFront(h: History, polls: seq<Poll>)
    requires SoundHistory(h) && polls != [] && Answered(h, polls)
    ensures Answered(h, polls[..|polls| - 1])
  {
    hide Answers;
    var front := polls[..|polls| - 1];
    forall i | 0 <= i < |front| ensures Base(front[..i]) < |h.tables| && Answers(h, Base(front[..i]), front[i]) {
      assert front[..i] == polls[..i] && front[i] == polls[i];
    }
  }

  /** Room for every key any version of the table has, and every record accepted. */
  ghost predicate Fits(cfg: Config, h: History, keys: set<Key>) {
    && |keys| <= cfg.limit
    && (forall i :: 0 <= i < |h.tables| ==> h.tables[i].Keys <= keys)
    && (forall i, k :: 0 <= i < |h.tables| && k in h.tables[i] ==> cfg.accepts(Record(k, h.tables[i][k])))
  }

  lemma {:induction false} ExecIsSend(cfg: Config, keys: set<Key>, part: seq<Row>, s: Contents)
    requires |keys| <= cfg.limit && s.Keys <= keys
    requires forall i :: 0 <= i < |part| ==>
               RowShape(part[i]) && (part[i].op != 'D' ==> part[i].key in keys && cfg.accepts(part[i].rec))
    ensures ExecAll(cfg, Commands(part), s) == Send(part, s)
    ensures Send(part, s).Keys <= keys
  {
    if part != [] {
      var front, r := part[..|part| - 1], part[|part| - 1];
      ExecIsSend(cfg, keys, front, s);
      SendLast(part, s);
      var cs := Commands(part);
      assert cs[..|cs| - 1] == Commands(front);
      RoomyExec(cfg, keys, CommandOf(r).value, Send(front, s));
    }
  }

  ghost predicate OnTrack(h: History, polls: seq<Poll>, keys: set<Key>, st: State)
    requires SoundHistory(h)
  {
    var b := Base(polls);
    && b < |h.tables|
    && st.watermark == h.versions[b] && st.index.Keys <= keys
    && (if polls != [] && polls[|polls| - 1].end.FetchError?
        then polls[|polls| - 1].visible < |h.tables|
             && Mixed(h.tables[b], h.tables[polls[|polls| - 1].visible], st.index)
        else st.index == h.tables[b])
  }

  lemma RowsFit(cfg: Config, h: History, keys: set<Key>, b: nat, p: Poll)
    requires SoundHistory(h) && Fits(cfg, h, keys) && b < |h.tables| && Answers(h, b, p)
    ensures |keys| <= cfg.limit
    ensures forall i :: 0 <= i < |Fetched(p)| ==>
              RowShape(Fetched(p)[i])
              && (Fetched(p)[i].op != 'D' ==> Fetched(p)[i].key in keys && cfg.accepts(Fetched(p)[i].rec))
  {
    hide RowShape;
    var f, now := Fetched(p), h.tables[p.visible];
    forall i | 0 <= i < |f|
      ensures RowShape(f[i])
      ensures f[i].op != 'D' ==> f[i].key in keys && cfg.accepts(f[i].rec)
    {
      assert f[i] == p.batch[i] && RowShape(p.batch[i]) && NetRow(p.batch[i], now);
      if f[i].op != 'D' { RecordFits(f[i], now); }
    }
  }

  lemma RecordFits(r: Row, now: Contents)
    requires RowShape(r) && NetRow(r, now) && r.op != 'D'
    ensures r.key in now && r.rec == Record(r.key, now[r.key])
  {
  }

  /** Where a finished poll leaves the watermark. */
  lemma FinishedVersion(h: History, b: nat, p: Poll)
    requires SoundHistory(h) && b < |h.tables| && Answers(h, b, p) && p.end.NoMoreRows?
    ensures NextWatermark(h.versions[b], Fetched(p), p.end) == h.versions[p.visible]
  {
    NoRows();
    MaxIsMember(p.batch);
    assert -1 <= h.versions[0] <= h.versions[b];
    assert b < p.visible ==> h.versions[b] < h.versions[p.visible];
  }

  lemma PollKeepsTrack(cfg: Config, h: History, keys: set<Key>, polls: seq<Poll>, st: State)
    requires SoundHistory(h) && Fits(cfg, h, keys) && polls != []
    requires var n := |polls| - 1;
             && OnTrack(h, polls[..n], keys, st)
             && Answers(h, Base(polls[..n]), polls[n]) && Classified(polls[n].batch, h.tables[Base(polls[..n])])
             && (n > 0 && polls[n - 1].end.FetchError? ==> polls[n].visible == polls[n - 1].visible)
    ensures OnTrack(h, polls, keys, RunPoll(cfg, polls[|polls| - 1], st))
    ensures st.watermark <= RunPoll(cfg, polls[|polls| - 1], st).watermark
    ensures polls[|polls| - 1].end.FetchError? ==> RunPoll(cfg, polls[|polls| - 1], st).watermark == st.watermark
  {
    hide NextWatermark, Commands, ExecAll, Send, Fits, NetChange, Mixed;
    var n := |polls| - 1;
    var b, p := Base(polls[..n]), polls[n];
    var before, now, f := h.tables[b], h.tables[p.visible], Fetched(p);
    assert Mixed(before, now, st.index) by {
      BothMixed(before, now);
      if n > 0 { assert polls[..n][n - 1] == polls[n - 1]; }
    }
    RowsFit(cfg, h, keys, b, p);
    ExecIsSend(cfg, keys, f, st.index);
    PartKeepsMixed(f, p.batch, before, now, st.index);
    if p.end.NoMoreRows? {
      MixedIsReady(p.batch, before, now, st.index);
      BatchLandsIff(p.batch, before, now, st.index);
      FinishedVersion(h, b, p);
      assert h.versions[b] <= h.versions[p.visible];
    } else {
      FailedVersion(st.watermark, f);
    }
  }

  lemma TableFits(cfg: Config, h: History, keys: set<Key>, b: nat)
    requires Fits(cfg, h, keys) && b < |h.tables|
    ensures h.tables[b].Keys <= keys
  {
  }

  lemma FetchedIsNet(h: History, b: nat, p: Poll)
    requires SoundHistory(h) && b < |h.tables| && Answers(h, b, p)
    ensures NetRows(Fetched(p))
    ensures |Fetched(p)| == if p.end.FetchError? && p.fetched <= |p.batch| then p.fetched else |p.batch|
    ensures forall i :: 0 <= i < |Fetched(p)| ==> Fetched(p)[i] == p.batch[i] && Fetched(p)[i] in p.batch
    ensures forall i, j :: 0 <= j < |Fetched(p)| <= i < |p.batch| ==> Fetched(p)[j].key != p.batch[i].key
  {
  }

  /** What one poll sends to an index that shows the table the listener stands at: the
      keys of the rows that arrived - all of a finished poll, the first few of a failed
      one - are as those rows say, and no other key has moved. */
  lemma PollSends(cfg: Config, h: History, keys: set<Key>, b: nat, p: Poll)
    requires SoundHistory(h) && Fits(cfg, h, keys) && b < |h.tables| && Answers(h, b, p)
    requires Classified(p.batch, h.tables[b])
    ensures var st := RunPoll(cfg, p, State(h.tables[b], h.versions[b]));
            && (forall i :: 0 <= i < |p.batch| ==>
                  At(st.index, p.batch[i].key)
                  == if p.end.NoMoreRows? || i < p.fetched then Outcome(p.batch[i])
                     else At(h.tables[b], p.batch[i].key))
            && (forall k :: (forall i :: 0 <= i < |p.batch| ==> p.batch[i].key != k) ==>
                  At(st.index, k) == At(h.tables[b], k))
            && st.watermark == if p.end.NoMoreRows? then h.versions[p.visible] else h.versions[b]
  {
    hide ExecAll, Commands, NextWatermark, NetChange, Fits, Classified, Outcome, Fetched;
    var before, f := h.tables[b], Fetched(p);
    RowsFit(cfg, h, keys, b, p);
    TableFits(cfg, h, keys, b);
    ExecIsSend(cfg, keys, f, before);
    FetchedIsNet(h, b, p);
    forall k
      ensures forall i :: 0 <= i < |p.batch| && p.batch[i].key == k ==>
                At(Send(f, before), k) == if i < |f| then Outcome(p.batch[i]) else At(before, k)
      ensures (forall i :: 0 <= i < |p.batch| ==> p.batch[i].key != k) ==> At(Send(f, before), k) == At(before, k)
    {
      PartOutcome(f, p.batch, before, h.tables[p.visible], k);
    }
    if p.end.NoMoreRows? { FinishedVersion(h, b, p); } else { FailedVersion(h.versions[b], f); }
  }

  lemma BothMixed(before: Contents, now: Contents)
    ensures Mixed(before, now, before)
  {
  }

  lemma FailedVersion(w: int, f: seq<Row>)
    ensures NextWatermark(w, f, FetchError) == w
  {
  }

  lemma NoRows()
    ensures MaxVersion([]) == -1
  {
  }

  lemma LastAnswered(h: History, polls: seq<Poll>)
    requires SoundHistory(h) && polls != [] && Answered(h, polls)
    ensures Base(polls[..|polls| - 1]) < |h.tables|
    ensures Answers(h, Base(polls[..|polls| - 1]), polls[|polls| - 1])
  {
  }

  lemma ScheduleFront(h: History, polls: seq<Poll>)
    requires SoundHistory(h) && polls != [] && Schedule(h, polls)
    ensures var n := |polls| - 1;
            && Schedule(h, polls[..n])
            && Base(polls[..n]) < |h.tables| && Answers(h, Base(polls[..n]), polls[n])
            && Classified(polls[n].batch, h.tables[Base(polls[..n])])
            && (n > 0 && polls[n - 1].end.FetchError? ==> polls[n].visible == polls[n - 1].visible)
  {
    hide Answers, Classified;
    var front := polls[..|polls| - 1];
    AnsweredFront(h, polls);
    LastAnswered(h, polls);
    forall i | 0 <= i < |front|
      ensures Base(front[..i]) < |h.tables| && Classified(front[i].batch, h.tables[Base(front[..i])])
    {
      assert front[..i] == polls[..i] && front[i] == polls[i];
    }
  }

  /** Over every schedule: the watermark stands at the last finished poll's version,
      a finished poll leaves the index equal to the table it saw, and failures in
      between leave each key at the old or the new value. */
  lemma {:induction false} RunKeepsTrack(cfg: Config, h: History, keys: set<Key>, polls: seq<Poll>)
    requires SoundHistory(h) && Fits(cfg, h, keys) && Schedule(h, polls)
    ensures OnTrack(h, polls, keys, Run(cfg, polls, State(h.tables[0], h.versions[0])))
  {
    if polls != [] {
      hide Schedule, Answers, Classified, OnTrack, RunPoll, Fits;
      var front := polls[..|polls| - 1];
      ScheduleFront(h, polls);
      RunKeepsTrack(cfg, h, keys, front);
      PollKeepsTrack(cfg, h, keys, polls, Run(cfg, front, State(h.tables[0], h.versions[0])));
    } else {
      StartOnTrack(cfg, h, keys);
    }
  }

  lemma StartOnTrack(cfg: Config, h: History, keys: set<Key>)
    requires SoundHistory(h) && Fits(cfg, h, keys)
    ensures OnTrack(h, [], keys, State(h.tables[0], h.versions[0]))
  {
  }

  lemma {:induction false} RunConverges(cfg: Config, h: History, keys: set<Key>, polls: seq<Poll>)
    requires SoundHistory(h) && Fits(cfg, h, keys) && Schedule(h, polls)
    requires polls != [] && polls[|polls| - 1].end.NoMoreRows?
    ensures var v := polls[|polls| - 1].visible;
            v < |h.tables|
            && Run(cfg, polls, State(h.tables[0], h.versions[0])) == State(h.tables[v], h.versions[v])
  {
    RunKeepsTrack(cfg, h, keys, polls);
  }

  // ---------------------------------------------------------------- runs over a changing table

  /** Whatever happens to the table between the polls: the watermark stands at the
      version of the last finished poll. */
  lemma {:induction false} AnyRun(cfg: Config, h: History, keys: set<Key>, polls: seq<Poll>)
    requires SoundHistory(h) && Fits(cfg, h, keys) && Answered(h, polls)
    ensures var st := Run(cfg, polls, State(h.tables[0], h.versions[0]));
            && Base(polls) < |h.tables| && st.watermark == h.versions[Base(polls)] && st.index.Keys <= keys
  {
    if polls != [] {
      hide Answered, Commands, ExecAll, Send, Fetched, MaxVersion, RowShape;
      var front, p := polls[..|polls| - 1], polls[|polls| - 1];
      AnsweredFront(h, polls);
      LastAnswered(h, polls);
      AnyRun(cfg, h, keys, front);
      RowsFit(cfg, h, keys, Base(front), p);
      ExecIsSend(cfg, keys, Fetched(p), Run(cfg, front, State(h.tables[0], h.versions[0])).index);
      if p.end.NoMoreRows? { FinishedVersion(h, Base(front), p); }
    }
  }

  /** After any schedule at all, a last poll that finishes leaves the index equal to the
      table it saw if and only if the index before it was ready for its batch. */
  lemma LastPollLandsIff(cfg: Config, h: History, keys: set<Key>, polls: seq<Poll>)
    requires SoundHistory(h) && Fits(cfg, h, keys) && Answered(h, polls)
    requires polls != [] && polls[|polls| - 1].end.NoMoreRows?
    ensures var front, p := polls[..|polls| - 1], polls[|polls| - 1];
            var st0 := State(h.tables[0], h.versions[0]);
            && Base(front) <= p.visible < |h.tables|
            && Run(cfg, polls, st0).watermark == h.versions[p.visible]
            && (Run(cfg, polls, st0).index == h.tables[p.visible]
                <==> Ready(p.batch, h.tables[Base(front)], Run(cfg, front, st0).index))
  {
    hide Answered, Commands, ExecAll, Send, MaxVersion, RowShape, Ready;
    var front, p, st0 := polls[..|polls| - 1], polls[|polls| - 1], State(h.tables[0], h.versions[0]);
    AnyRun(cfg, h, keys, polls);
    AnsweredFront(h, polls);
    LastAnswered(h, polls);
    AnyRun(cfg, h, keys, front);
    RowsFit(cfg, h, keys, Base(front), p);
    ExecIsSend(cfg, keys, Fetched(p), Run(cfg, front, st0).index);
    BatchLandsIff(p.batch, h.tables[Base(front)], h.tables[p.visible], Run(cfg, front, st0).index);
  }

  // ---------------------------------------------------------------- the connector

  class SQLServerConnector {
    const server: ServerInterface
    var watermark: int

    constructor (server: ServerInterface, watermark: int)
      ensures this.server == server && this.watermark == watermark
    {
      this.server, this.watermark := server, watermark;
    }

    method PollOnce(fetched: seq<Row>, end: FetchEnd)
      requires server.Valid()
      modifies this, server.indexer
      ensures server.Valid()
      ensures server.Contents() == ExecAll(server.cfg, Commands(fetched), old(server.Contents()))
      ensures watermark == NextWatermark(old(watermark), fetched, end)
    {
      hide InsertReply, DeleteReply, UpdateReply, Commands, MaxVersion, ExecAll,
           ServerInterface.Valid, ServerInterface.Contents;
      FetchStart(server.cfg, fetched, server.Contents());
      var maxVersion := -1;
      var i := 0;
      while i < |fetched|
        invariant 0 <= i <= |fetched| && server.Valid()
        invariant maxVersion == MaxVersion(fetched[..i])
        invariant server.Contents() == ExecAll(server.cfg, Commands(fetched[..i]), old(server.Contents()))
        invariant watermark == old(watermark)
      {
        var row := fetched[i];
        FetchStep(server.cfg, fetched, i, old(server.Contents()));
        if maxVersion < row.version {
          maxVersion := row.version;
        }
        if row.op == 'I' {
          var _ := server.InsertRecord(Parsed(row.rec));
        } else if row.op == 'D' {
          var _ := server.DeleteRecord(row.key);
        } else if row.op == 'U' {
          var _ := server.UpdateRecord(row.key, Parsed(row.rec));
        }
        i := i + 1;
      }
      assert fetched[..|fetched|] == fetched;
      if end.NoMoreRows? && maxVersion != -1 {
        watermark := maxVersion;
      }
    }

    method RunListener(polls: seq<Poll>)
      requires server.Valid()
      modifies this, server.indexer
      ensures server.Valid()
      ensures State(server.Contents(), watermark)
           == Run(server.cfg, polls, State(old(server.Contents()), old(watermark)))
    {
      hide Fetched, Commands, ExecAll, NextWatermark, ServerInterface.Valid, ServerInterface.Contents;
      ghost var st0 := State(server.Contents(), watermark);
      var i := 0;
      while i < |polls|
        invariant 0 <= i <= |polls| && server.Valid()
        invariant State(server.Contents(), watermark) == Run(server.cfg, polls[..i], st0)
      {
        assert polls[..i + 1][..i] == polls[..i];
        PollOnce(Fetched(polls[i]), polls[i].end);
        i := i + 1;
      }
      assert polls[..|polls|] == polls;
    }
  }

  lemma FetchStart(cfg: Config, rows: seq<Row>, s: Contents)
    ensures MaxVersion(rows[..0]) == -1 && ExecAll(cfg, Commands(rows[..0]), s) == s
  {
  }

  lemma FetchStep(cfg: Config, rows: seq<Row>, i: nat, s: Contents)
    requires i < |rows|
    ensures MaxVersion(rows[..i + 1])
         == if MaxVersion(rows[..i]) < rows[i].version then rows[i].version else MaxVersion(rows[..i])
    ensures ExecAll(cfg, Commands(rows[..i + 1]), s)
         == var c, s' := CommandOf(rows[i]), ExecAll(cfg, Commands(rows[..i]), s);
            if c.Some? then Exec(cfg, c.value, s') else s'
  {
    assert rows[..i + 1][..i] == rows[..i];
    var cs, c := Commands(rows[..i]), CommandOf(rows[i]);
    if c.Some? {
      assert Commands(rows[..i + 1]) == cs + [c.value];
      assert (cs + [c.value])[..|cs|] == cs;
    } else {
      assert Commands(rows[..i + 1]) == cs;
    }
  }
}
