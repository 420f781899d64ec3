/** Change logs over a source table, and what replaying them does to the index.
    The engine's commands are partial; the source's changes are not. */
module ChangeLog {
  import opened Wrappers
  import opened Index

  // ---------------------------------------------------------------- the source table

  function SourceStep(c: Command, t: Contents): Contents {
    match c
    case Insert(r) => t[r.key := r.body]
    case Delete(k) => t - {k}
    case Update(k, r) => (t - {k})[r.key := r.body]
  }

  /** A change the source can have made: inserts are fresh, deletes and updates
      name a present row, and an updated row does not collide with another. */
  predicate ValidStep(c: Command, t: Contents) {
    match c
    case Insert(r) => r.key != "" && r.key !in t
    case Delete(k) => k != "" && k in t
    case Update(k, r) => k != "" && r.key != "" && k in t && (r.key == k || r.key !in t)
  }

  /** The changes a source can make are those an engine with room carries out in full,
      if its schema takes the record: inserts and deletes that succeed, and updates of a
      key that succeed without losing a document. */
  lemma ValidIffHonoured(cfg: Config, c: Command, t: Contents)
    requires |t| < cfg.limit && (!c.Delete? && c.rec.key != "" ==> cfg.accepts(c.rec))
    ensures ValidStep(c, t) <==>
            match c
            case Insert(r) => InsertReply(cfg, t, Parsed(r)).ok
            case Delete(k) => DeleteReply(t, k).ok
            case Update(k, r) =>
              k != "" && UpdateReply(cfg, t, k, Parsed(r)).ok && |UpdateReply(cfg, t, k, Parsed(r)).index| == |t|
  {
    if c.Update? { UpdateOutcome(cfg, t, c.oldKey, Parsed(c.rec)); }
  }

  function SourceAll(cs: seq<Command>, t: Contents): Contents {
    if cs == [] then t
    else SourceStep(cs[|cs| - 1], SourceAll(cs[..|cs| - 1], t))
  }

  /** The source table after the first `m` changes. */
  function Table(log: seq<Command>, m: nat, t: Contents): Contents
    requires m <= |log|
  {
    SourceAll(log[..m], t)
  }

  ghost predicate ValidLog(log: seq<Command>, t: Contents) {
    forall i :: 0 <= i < |log| ==> ValidStep(log[i], Table(log, i, t))
  }

  lemma TableStep(log: seq<Command>, m: nat, t: Contents)
    requires m < |log|
    ensures Table(log, m + 1, t) == SourceStep(log[m], Table(log, m, t))
  {
    assert log[..m + 1][..m] == log[..m];
  }

  lemma TableEnds(log: seq<Command>, t: Contents)
    ensures Table(log, 0, t) == t
    ensures Table(log, |log|, t) == SourceAll(log, t)
  {
    assert log[..|log|] == log;
  }

  lemma TablePrefix(log: seq<Command>, more: seq<Command>, m: nat, t: Contents)
    requires m <= |log|
    ensures Table(log + more, m, t) == Table(log, m, t)
  {
    assert (log + more)[..m] == log[..m];
  }

  // ---------------------------------------------------------------- the index without limits

  /** What the engine does with a command when the schema accepts the record and
      the document limit is out of reach: only duplicates and missing keys refuse. */
  function Apply(c: Command, s: Contents): Contents {
    match c
    case Insert(r) => if r.key in s then s else s[r.key := r.body]
    case Delete(k) => if k == "" then s else s - {k}
    case Update(k, r) =>
      if k == "" || k !in s then s
      else if r.key in s - {k} then s - {k}
      else (s - {k})[r.key := r.body]
  }

  function ApplyAll(cs: seq<Command>, s: Contents): Contents {
    if cs == [] then s
    else Apply(cs[|cs| - 1], ApplyAll(cs[..|cs| - 1], s))
  }

  lemma {:induction false} ApplyAllAppend(a: seq<Command>, b: seq<Command>, s: Contents)
    ensures ApplyAll(a + b, s) == ApplyAll(b, ApplyAll(a, s))
  {
    if b == [] {
      assert a + b == a;
    } else {
      assert (a + b)[..|a + b| - 1] == a + b[..|b| - 1];
      ApplyAllAppend(a, b[..|b| - 1], s);
    }
  }

  function NewKeys(log: seq<Command>): set<Key> {
    set c | c in log && !c.Delete? :: c.rec.key
  }

  /** The engine has room for every key the table or the log ever names, and its
      schema accepts every logged record. */
  ghost predicate Roomy(cfg: Config, log: seq<Command>, t: Contents) {
    && |t.Keys + NewKeys(log)| <= cfg.limit
    && forall c :: c in log && !c.Delete? ==> cfg.accepts(c.rec)
  }

  lemma SubsetCount<T>(a: set<T>, b: set<T>)
    requires a <= b
    ensures |a| <= |b|
    ensures a != b ==> |a| < |b|
  {
    assert b == a + (b - a);
    if a != b { assert b - a != {}; }
  }

  lemma RoomyExec(cfg: Config, keys: set<Key>, c: Command, s: Contents)
    requires s.Keys <= keys && |keys| <= cfg.limit
    requires !c.Delete? ==> c.rec.key in keys && cfg.accepts(c.rec)
    ensures Exec(cfg, c, s) == Apply(c, s)
    ensures Apply(c, s).Keys <= keys
  {
    match c
    case Insert(r) => RoomyPut(cfg, keys, r, s);
    case Delete(k) =>
      if k !in s { assert s - {k} == s; }
    case Update(k, r) => RoomyUpdate(cfg, keys, k, r, s);
  }

  lemma RoomyUpdate(cfg: Config, keys: set<Key>, k: Key, r: Record, s: Contents)
    requires s.Keys <= keys && |keys| <= cfg.limit
    requires r.key in keys && cfg.accepts(r)
    ensures Exec(cfg, Update(k, r), s) == Apply(Update(k, r), s)
    ensures Apply(Update(k, r), s).Keys <= keys
  {
    if k != "" && k in s {
      var rest := s - {k};
      RemoveCount(s, k);
      RoomyCount(cfg, keys, s);
      assert |rest| < cfg.limit && rest.Keys <= keys;
      RoomyPut(cfg, keys, r, rest);
      assert Exec(cfg, Update(k, r), s) == Put(cfg, rest, r);
    }
  }

  lemma RoomyCount(cfg: Config, keys: set<Key>, s: Contents)
    requires s.Keys <= keys && |keys| <= cfg.limit
    ensures |s| <= cfg.limit
    ensures s.Keys != keys ==> |s| < cfg.limit
  {
    assert |s| == |s.Keys|;
    SubsetCount(s.Keys, keys);
  }

  lemma RoomyPut(cfg: Config, keys: set<Key>, r: Record, s: Contents)
    requires s.Keys <= keys && |keys| <= cfg.limit
    requires r.key in keys && cfg.accepts(r)
    ensures Insertable(cfg, s, r) == (r.key !in s)
    ensures Put(cfg, s, r) == if r.key in s then s else s[r.key := r.body]
    ensures Put(cfg, s, r).Keys <= keys
  {
    RoomyCount(cfg, keys, s);
  }

  /** With room, the engine's run over any selection of logged commands is the
      limitless one. */
  lemma {:induction false} RoomyExecAll(cfg: Config, log: seq<Command>, t: Contents, cs: seq<Command>, s: Contents)
    requires Roomy(cfg, log, t)
    requires s.Keys <= t.Keys + NewKeys(log)
    requires forall c :: c in cs ==> c in log
    ensures ExecAll(cfg, cs, s) == ApplyAll(cs, s)
    ensures ApplyAll(cs, s).Keys <= t.Keys + NewKeys(log)
  {
    if cs != [] {
      var front, c := cs[..|cs| - 1], cs[|cs| - 1];
      RoomyExecAll(cfg, log, t, front, s);
      assert c in log;
      RoomyExec(cfg, t.Keys + NewKeys(log), c, ApplyAll(front, s));
    }
  }

  // ---------------------------------------------------------------- one clean pass

  lemma ValidApply(c: Command, t: Contents)
    requires ValidStep(c, t)
    ensures Apply(c, t) == SourceStep(c, t)
  {
  }

  predicate Succeeds(cfg: Config, c: Command, s: Contents) {
    match c
    case Insert(r) => InsertReply(cfg, s, Parsed(r)).ok
    case Delete(k) => DeleteReply(s, k).ok
    case Update(k, r) => UpdateReply(cfg, s, k, Parsed(r)).ok
  }

  lemma ValidSucceeds(cfg: Config, keys: set<Key>, c: Command, t: Contents)
    requires ValidStep(c, t) && t.Keys <= keys && |keys| <= cfg.limit
    requires !c.Delete? ==> c.rec.key in keys && cfg.accepts(c.rec)
    ensures Succeeds(cfg, c, t)
    ensures Exec(cfg, c, t) == SourceStep(c, t)
    ensures SourceStep(c, t).Keys <= keys
  {
    RoomyExec(cfg, keys, c, t);
    ValidApply(c, t);
    if c.Insert? { RoomyPut(cfg, keys, c.rec, t); }
  }

  /** Catching up: from an index equal to the source table, executing a valid log
      once - key-changing updates included - follows the source exactly, at every
      prefix. */
  lemma {:induction false} CatchUp(cfg: Config, log: seq<Command>, t: Contents, m: nat)
    requires ValidLog(log, t) && Roomy(cfg, log, t) && m <= |log|
    ensures ExecAll(cfg, log[..m], t) == Table(log, m, t)
    ensures Table(log, m, t).Keys <= t.Keys + NewKeys(log)
  {
    hide ValidLog, Roomy, NewKeys, Exec;
    if m == 0 {
      TableEnds(log, t);
    } else {
      CatchUp(cfg, log, t, m - 1);
      assert log[..m][..m - 1] == log[..m - 1];
      CatchUpStep(cfg, log, t, m - 1);
    }
  }

  lemma CatchUpStep(cfg: Config, log: seq<Command>, t: Contents, i: nat)
    requires ValidLog(log, t) && Roomy(cfg, log, t) && i < |log|
    requires Table(log, i, t).Keys <= t.Keys + NewKeys(log)
    ensures Succeeds(cfg, log[i], Table(log, i, t))
    ensures Exec(cfg, log[i], Table(log, i, t)) == Table(log, i + 1, t)
    ensures Table(log, i + 1, t).Keys <= t.Keys + NewKeys(log)
  {
    TableStep(log, i, t);
    var c := log[i];
    assert c in log;
    ValidSucceeds(cfg, t.Keys + NewKeys(log), c, Table(log, i, t));
  }

  /** ... and every one of its calls answers 0. */
  lemma CatchUpSucceeds(cfg: Config, log: seq<Command>, t: Contents, i: nat)
    requires ValidLog(log, t) && Roomy(cfg, log, t) && i < |log|
    ensures Succeeds(cfg, log[i], ExecAll(cfg, log[..i], t))
  {
    CatchUp(cfg, log, t, i);
    CatchUpStep(cfg, log, t, i);
  }

  // ---------------------------------------------------------------- replay

  predicate KeyChanging(c: Command) {
    c.Update? && c.rec.key != c.oldKey
  }

  predicate Touches(c: Command, k: Key) {
    match c
    case Insert(r) => r.key == k
    case Delete(k') => k' == k
    case Update(k', r) => k' == k || r.key == k
  }

  /** Updates that change the key move a row to a key no earlier change mentions.
      Logs without such updates satisfy this for free. */
  ghost predicate FreshTargets(log: seq<Command>) {
    forall j, p :: 0 <= j < p < |log| && KeyChanging(log[p]) ==> !Touches(log[j], log[p].rec.key)
  }

  /** Some table between `lo` and `hi` changes had `v` under `k`. */
  ghost predicate Seen(log: seq<Command>, t: Contents, lo: nat, hi: nat, k: Key, v: Option<Fields>)
    requires hi <= |log|
  {
    exists m :: lo <= m <= hi && At(Table(log, m, t), k) == v
  }

  lemma SeenAt(log: seq<Command>, t: Contents, lo: nat, hi: nat, k: Key, m: nat)
    requires lo <= m <= hi <= |log|
    ensures Seen(log, t, lo, hi, k, At(Table(log, m, t), k))
  {
  }

  lemma SeenWiden(log: seq<Command>, t: Contents, lo: nat, hi: nat, lo': nat, hi': nat, k: Key, v: Option<Fields>)
    requires lo' <= lo && hi <= hi' <= |log|
    requires Seen(log, t, lo, hi, k, v)
    ensures Seen(log, t, lo', hi', k, v)
  {
    var m :| lo <= m <= hi && At(Table(log, m, t), k) == v;
    SeenAt(log, t, lo', hi', k, m);
  }

  /** The index `s` of a listener about to replay change `i` after some earlier
      attempt got as far as change `h`: each key shows a value the source had
      somewhere between the two, and a key that a key-changing update still ahead
      already reached shows a value from after that update. */
  ghost predicate Replaying(log: seq<Command>, t: Contents, i: nat, h: nat, s: Contents) {
    && i <= h <= |log|
    && (forall k :: Seen(log, t, i, h, k, At(s, k)))
    && (forall p :: i <= p < h && KeyChanging(log[p]) ==>
          Seen(log, t, p + 1, h, log[p].rec.key, At(s, log[p].rec.key)))
  }

  lemma SameLookups(a: Contents, b: Contents)
    requires forall k :: At(a, k) == At(b, k)
    ensures a == b
  {
    forall k ensures k in a <==> k in b { assert At(a, k) == At(b, k); }
    forall k | k in a ensures a[k] == b[k] { assert At(a, k) == At(b, k); }
  }

  /** At the furthest point reached, the index is the source table. */
  lemma FrontIsTable(log: seq<Command>, t: Contents, i: nat, s: Contents)
    requires Replaying(log, t, i, i, s)
    ensures s == Table(log, i, t)
  {
    forall k ensures At(s, k) == At(Table(log, i, t), k) {
      assert Seen(log, t, i, i, k, At(s, k));
    }
    SameLookups(s, Table(log, i, t));
  }

  lemma TableReplaying(log: seq<Command>, t: Contents, i: nat)
    requires i <= |log|
    ensures Replaying(log, t, i, i, Table(log, i, t))
  {
    forall k ensures Seen(log, t, i, i, k, At(Table(log, i, t), k)) { SeenAt(log, t, i, i, k, i); }
  }

  /** One command against one key, on an index `s` that need not be the table
      `now`: the key ends up as in the table after the change, or it is left
      alone - and then it already differed from the table, unless the change
      moves some other row to it. */
  lemma KeyAfter(c: Command, now: Contents, s: Contents, k: Key)
    requires ValidStep(c, now)
    ensures At(Apply(c, s), k) == At(SourceStep(c, now), k)
         || (At(Apply(c, s), k) == At(s, k)
             && (At(s, k) != At(now, k) || (KeyChanging(c) && c.rec.key == k)))
  {
    match c
    case Insert(r) =>
    case Delete(k') =>
    case Update(k', r) =>
      if k' in s {
      } else if k == k' {
      } else if k == r.key {
      }
  }

  /** The heart of the argument, one key at a time: a replayed change either
      leaves the key with a value the source still has ahead, or sets it right. */
  lemma ReplayKey(log: seq<Command>, t: Contents, i: nat, h: nat, s: Contents, k: Key)
    requires i < h <= |log| && ValidStep(log[i], Table(log, i, t))
    requires Seen(log, t, i, h, k, At(s, k))
    requires KeyChanging(log[i]) && log[i].rec.key == k ==> Seen(log, t, i + 1, h, k, At(s, k))
    ensures Seen(log, t, i + 1, h, k, At(Apply(log[i], s), k))
  {
    var now := Table(log, i, t);
    TableStep(log, i, t);
    KeyAfter(log[i], now, s, k);
    if At(Apply(log[i], s), k) == At(SourceStep(log[i], now), k) {
      SeenAt(log, t, i + 1, h, k, i + 1);
    } else if At(s, k) != At(now, k) {
      var m :| i <= m <= h && At(Table(log, m, t), k) == At(s, k);
      SeenAt(log, t, i + 1, h, k, m);
    }
  }

  function Later(a: nat, b: nat): nat {
    if a < b then b else a
  }

  lemma FrontStep(log: seq<Command>, t: Contents, i: nat, s: Contents)
    requires ValidLog(log, t) && i < |log| && Replaying(log, t, i, i, s)
    ensures Replaying(log, t, i + 1, i + 1, Apply(log[i], s))
  {
    assert ValidStep(log[i], Table(log, i, t));
    hide Replaying, ValidStep, Apply, ValidLog;
    FrontIsTable(log, t, i, s);
    ValidApply(log[i], s);
    TableStep(log, i, t);
    TableReplaying(log, t, i + 1);
  }

  lemma FreshAt(log: seq<Command>, i: nat, p: nat)
    requires FreshTargets(log) && i < p < |log| && KeyChanging(log[p])
    ensures !Touches(log[i], log[p].rec.key)
  {
  }

  lemma AheadStep(log: seq<Command>, t: Contents, i: nat, h: nat, s: Contents)
    requires ValidLog(log, t) && FreshTargets(log)
    requires Replaying(log, t, i, h, s) && i < h
    ensures Replaying(log, t, i + 1, h, Apply(log[i], s))
  {
    assert ValidStep(log[i], Table(log, i, t));
    hide ValidLog, FreshTargets, ValidStep, Apply, Seen, At, Touches, Table;
    var s' := Apply(log[i], s);
    forall k ensures Seen(log, t, i + 1, h, k, At(s', k)) { ReplayKey(log, t, i, h, s, k); }
    forall p | i + 1 <= p < h && KeyChanging(log[p])
      ensures Seen(log, t, p + 1, h, log[p].rec.key, At(s', log[p].rec.key))
    {
      FreshAt(log, i, p);
      Untouched(log[i], s, log[p].rec.key);
    }
  }

  lemma ReplayStep(log: seq<Command>, t: Contents, i: nat, h: nat, s: Contents)
    requires ValidLog(log, t) && FreshTargets(log)
    requires Replaying(log, t, i, h, s) && i < |log|
    ensures Replaying(log, t, i + 1, Later(h, i + 1), Apply(log[i], s))
  {
    assert i <= h <= |log|;
    hide Replaying, ValidLog, FreshTargets, Apply;
    if h == i { FrontStep(log, t, i, s); } else { AheadStep(log, t, i, h, s); }
  }

  lemma Untouched(c: Command, s: Contents, k: Key)
    requires !Touches(c, k)
    ensures At(Apply(c, s), k) == At(s, k)
  {
  }

  lemma ApplySlice(log: seq<Command>, i: nat, j: nat, s: Contents)
    requires i < j <= |log|
    ensures ApplyAll(log[i..j], s) == Apply(log[j - 1], ApplyAll(log[i..j - 1], s))
  {
    assert log[i..j][..j - 1 - i] == log[i..j - 1];
  }

  lemma ReplayNone(log: seq<Command>, t: Contents, i: nat, h: nat, s: Contents)
    requires Replaying(log, t, i, h, s)
    ensures Replaying(log, t, i, Later(h, i), ApplyAll(log[i..i], s))
  {
  }

  lemma {:induction false} ReplayRange(log: seq<Command>, t: Contents, i: nat, j: nat, h: nat, s: Contents)
    requires ValidLog(log, t) && FreshTargets(log)
    requires Replaying(log, t, i, h, s) && i <= j <= |log|
    ensures Replaying(log, t, j, Later(h, j), ApplyAll(log[i..j], s))
  {
    hide ValidLog, FreshTargets, Replaying, ApplyAll, Apply;
    if i == j {
      ReplayNone(log, t, i, h, s);
    } else {
      ReplayRange(log, t, i, j - 1, h, s);
      ApplySlice(log, i, j, s);
      ReplayStep(log, t, j - 1, Later(h, j - 1), ApplyAll(log[i..j - 1], s));
    }
  }

  /** Going back to an earlier point of the log forgets nothing. */
  lemma Rewind(log: seq<Command>, t: Contents, i: nat, h: nat, s: Contents, back: nat)
    requires Replaying(log, t, i, h, s) && back <= i
    ensures Replaying(log, t, back, h, s)
  {
    forall k ensures Seen(log, t, back, h, k, At(s, k)) {
      SeenWiden(log, t, i, h, back, h, k, At(s, k));
    }
    forall p | back <= p < h && KeyChanging(log[p])
      ensures Seen(log, t, p + 1, h, log[p].rec.key, At(s, log[p].rec.key))
    {
      var k := log[p].rec.key;
      if p < i { SeenWiden(log, t, i, h, p + 1, h, k, At(s, k)); }
    }
  }

  /** The index after attempts that each replay the log from its start and stop
      after the given number of changes. */
  function AfterFailures(log: seq<Command>, cuts: seq<nat>, t: Contents): Contents
    requires forall i :: 0 <= i < |cuts| ==> cuts[i] <= |log|
  {
    if cuts == [] then t
    else ApplyAll(log[..cuts[|cuts| - 1]], AfterFailures(log, cuts[..|cuts| - 1], t))
  }

  lemma {:induction false} FailuresReplaying(log: seq<Command>, cuts: seq<nat>, t: Contents) returns (h: nat)
    requires ValidLog(log, t) && FreshTargets(log)
    requires forall i :: 0 <= i < |cuts| ==> cuts[i] <= |log|
    ensures Replaying(log, t, 0, h, AfterFailures(log, cuts, t))
  {
    h := 0;
    if cuts == [] {
      TableReplaying(log, t, 0);
      TableEnds(log, t);
    } else {
      var front, cut := cuts[..|cuts| - 1], cuts[|cuts| - 1];
      h := FailuresReplaying(log, front, t);
      assert log[0..cut] == log[..cut];
      ReplayRange(log, t, 0, cut, h, AfterFailures(log, front, t));
      h := Later(h, cut);
      Rewind(log, t, cut, h, AfterFailures(log, cuts, t), 0);
    }
  }

  /** Convergence: whatever prefixes earlier attempts replayed, and in whatever
      order, one complete pass over the log leaves exactly the source table. */
  lemma {:induction false} Convergence(log: seq<Command>, cuts: seq<nat>, t: Contents)
    requires ValidLog(log, t) && FreshTargets(log)
    requires forall i :: 0 <= i < |cuts| ==> cuts[i] <= |log|
    ensures ApplyAll(log, AfterFailures(log, cuts, t)) == SourceAll(log, t)
  {
    var h := FailuresReplaying(log, cuts, t);
    ReplayRange(log, t, 0, |log|, h, AfterFailures(log, cuts, t));
    assert log[0..|log|] == log;
    FrontIsTable(log, t, |log|, ApplyAll(log, AfterFailures(log, cuts, t)));
    TableEnds(log, t);
  }

  lemma TwoCommands(c0: Command, c1: Command, s: Contents)
    ensures SourceAll([c0, c1], s) == SourceStep(c1, SourceStep(c0, s))
    ensures ApplyAll([c0, c1], s) == Apply(c1, Apply(c0, s))
    ensures ValidLog([c0, c1], s) <==> ValidStep(c0, s) && ValidStep(c1, SourceStep(c0, s))
  {
    hide SourceStep, Apply, ValidStep;
    var log := [c0, c1];
    assert log[..1] == [c0] && [c0][..0] == [] && log[..0] == [];
    assert SourceAll([c0], s) == SourceStep(c0, s) && ApplyAll([c0], s) == Apply(c0, s);
    assert Table(log, 0, s) == s && Table(log, 1, s) == SourceStep(c0, s);
  }

  lemma OneFailure(log: seq<Command>, t: Contents)
    ensures AfterFailures(log, [|log|], t) == ApplyAll(log, t)
  {
    assert [|log|][..0] == [] && log[..|log|] == log;
  }

  /** Why the target keys must be fresh: deleting b and then renaming a to b is a
      valid log, and replaying it once more loses b for good. */
  lemma RenameOntoDeletedKeyIsLost(x: Fields, y: Fields, z: Fields)
    ensures var t := map["a" := x, "b" := y];
            var log := [Delete("b"), Update("a", Record("b", z))];
            && ValidLog(log, t) && !FreshTargets(log)
            && SourceAll(log, t) == map["b" := z]
            && ApplyAll(log, AfterFailures(log, [2], t)) == map[]
  {
    hide ValidLog, AfterFailures, SourceAll, ApplyAll;
    var t := map["a" := x, "b" := y];
    var c0, c1 := Delete("b"), Update("a", Record("b", z));
    TwoCommands(c0, c1, t);
    TwoCommands(c0, c1, map["b" := z]);
    OneFailure([c0, c1], t);
    assert SourceStep(c0, t) == map["a" := x] && Apply(c0, t) == map["a" := x];
    assert KeyChanging([c0, c1][1]) && Touches([c0, c1][0], [c0, c1][1].rec.key);
  }

  // ---------------------------------------------------------------- exactly when a replay loses a row

  predicate Removes(c: Command, k: Key) {
    (c.Delete? && c.key == k) || (KeyChanging(c) && c.oldKey == k)
  }

  /** Change `i` meets the one case the engine cannot repair: it moves a row, the
      index `s` has the row under neither key, and no later change takes the new
      key away again. */
  predicate Loses(log: seq<Command>, i: nat, s: Contents)
    requires i < |log|
  {
    && KeyChanging(log[i])
    && log[i].oldKey !in s && log[i].rec.key !in s
    && forall m :: i < m < |log| ==> !Removes(log[m], log[i].rec.key)
  }

  /** Replaying changes `i` to `j` on the index `s` never meets that case. */
  predicate Lossless(log: seq<Command>, i: nat, j: nat, s: Contents)
    requires i <= j <= |log|
  {
    forall q :: i <= q < j ==> !Loses(log, q, ApplyAll(log[i..q], s))
  }

  /** Every key of `s` shows a value the source has after change `i` or later. */
  ghost predicate Shows(log: seq<Command>, t: Contents, i: nat, s: Contents) {
    i <= |log| && forall k :: Seen(log, t, i, |log|, k, At(s, k))
  }

  /** The key `k` is gone from `s` although the source has it from change `i` on. */
  ghost predicate Missing(log: seq<Command>, t: Contents, i: nat, s: Contents, k: Key) {
    && i <= |log|
    && k !in s && k in Table(log, i, t)
    && forall m :: i <= m < |log| ==> !Removes(log[m], k)
  }

  lemma MissingStep(log: seq<Command>, t: Contents, i: nat, s: Contents, k: Key)
    requires ValidLog(log, t) && i < |log| && Missing(log, t, i, s, k)
    ensures Missing(log, t, i + 1, Apply(log[i], s), k)
  {
    TableStep(log, i, t);
    assert ValidStep(log[i], Table(log, i, t)) && !Removes(log[i], k);
  }

  /** A row once missing stays missing, whatever is replayed from there on. */
  lemma {:induction false} MissingRange(log: seq<Command>, t: Contents, i: nat, j: nat, s: Contents, k: Key)
    requires ValidLog(log, t) && Missing(log, t, i, s, k) && i <= j <= |log|
    ensures Missing(log, t, j, ApplyAll(log[i..j], s), k)
  {
    hide ValidLog, Missing, Apply, ApplyAll;
    if i == j {
      NoneApplied(log, i, s);
    } else {
      MissingRange(log, t, i, j - 1, s, k);
      ApplySlice(log, i, j, s);
      MissingStep(log, t, j - 1, ApplyAll(log[i..j - 1], s), k);
    }
  }

  lemma LossIsMissing(log: seq<Command>, t: Contents, i: nat, s: Contents) returns (k: Key)
    requires ValidLog(log, t) && i < |log| && Loses(log, i, s)
    ensures Missing(log, t, i + 1, Apply(log[i], s), k)
  {
    k := log[i].rec.key;
    TableStep(log, i, t);
  }

  lemma RemovedIsSeen(log: seq<Command>, t: Contents, i: nat, k: Key, m: nat)
    requires ValidLog(log, t) && i <= m < |log| && Removes(log[m], k)
    ensures Seen(log, t, i, |log|, k, None)
  {
    TableStep(log, m, t);
    assert ValidStep(log[m], Table(log, m, t));
    SeenAt(log, t, i, |log|, k, m + 1);
  }

  lemma SeenAfter(log: seq<Command>, t: Contents, i: nat, k: Key, v: Option<Fields>)
    requires i < |log| && Seen(log, t, i, |log|, k, v) && At(Table(log, i, t), k) != v
    ensures Seen(log, t, i + 1, |log|, k, v)
  {
    hide Table;
    var m :| i <= m <= |log| && At(Table(log, m, t), k) == v;
    SeenAt(log, t, i + 1, |log|, k, m);
  }

  /** What an update that moves a row leaves under the new key. */
  lemma MovedKey(c: Command, now: Contents, s: Contents)
    requires KeyChanging(c) && ValidStep(c, now)
    ensures var k := c.rec.key;
            && k !in now && At(SourceStep(c, now), k) == Some(c.rec.body)
            && At(Apply(c, s), k) == if k in s || c.oldKey !in s then At(s, k) else Some(c.rec.body)
  {
  }

  lemma MovedOnto(log: seq<Command>, t: Contents, i: nat, s: Contents)
    requires ValidLog(log, t) && i < |log| && KeyChanging(log[i]) && !Loses(log, i, s)
    requires Seen(log, t, i, |log|, log[i].rec.key, At(s, log[i].rec.key))
    ensures Seen(log, t, i + 1, |log|, log[i].rec.key, At(Apply(log[i], s), log[i].rec.key))
  {
    var c, k := log[i], log[i].rec.key;
    assert ValidStep(c, Table(log, i, t));
    MovedKey(c, Table(log, i, t), s);
    hide Apply, SourceStep, ValidStep, ValidLog, Table, Removes, Seen;
    if k in s {
      SeenAfter(log, t, i, k, At(s, k));
    } else if c.oldKey in s {
      TableStep(log, i, t);
      SeenAt(log, t, i + 1, |log|, k, i + 1);
    } else {
      var m :| i < m < |log| && Removes(log[m], k);
      RemovedIsSeen(log, t, i + 1, k, m);
    }
  }

  lemma ShowsKey(log: seq<Command>, t: Contents, i: nat, s: Contents, k: Key)
    requires ValidLog(log, t) && i < |log| && Shows(log, t, i, s) && !Loses(log, i, s)
    ensures Seen(log, t, i + 1, |log|, k, At(Apply(log[i], s), k))
  {
    hide Apply, Loses, Seen;
    assert ValidStep(log[i], Table(log, i, t)) && Seen(log, t, i, |log|, k, At(s, k));
    if KeyChanging(log[i]) && log[i].rec.key == k {
      MovedOnto(log, t, i, s);
    } else {
      ReplayKey(log, t, i, |log|, s, k);
    }
  }

  /** A replay that loses nothing keeps every key in step with the source; one
      that loses something leaves a key missing. */
  lemma {:induction false} ShowsRange(log: seq<Command>, t: Contents, i: nat, j: nat, s: Contents)
    requires ValidLog(log, t) && Shows(log, t, i, s) && i <= j <= |log|
    ensures Lossless(log, i, j, s) ==> Shows(log, t, j, ApplyAll(log[i..j], s))
    ensures !Lossless(log, i, j, s) ==> exists k :: Missing(log, t, j, ApplyAll(log[i..j], s), k)
  {
    hide ValidLog, Apply, ApplyAll, Loses, Missing;
    if i == j {
      NoneApplied(log, i, s);
    } else {
      var s1 := ApplyAll(log[i..j - 1], s);
      ShowsRange(log, t, i, j - 1, s);
      ApplySlice(log, i, j, s);
      if !Lossless(log, i, j - 1, s) {
        var k :| Missing(log, t, j - 1, s1, k);
        MissingStep(log, t, j - 1, s1, k);
      } else if Loses(log, j - 1, s1) {
        var k := LossIsMissing(log, t, j - 1, s1);
      } else {
        var s2 := Apply(log[j - 1], s1);
        forall k ensures Seen(log, t, j, |log|, k, At(s2, k)) {
          ShowsKey(log, t, j - 1, s1, k);
        }
      }
    }
  }

  lemma NoneApplied(log: seq<Command>, i: nat, s: Contents)
    requires i <= |log|
    ensures ApplyAll(log[i..i], s) == s
  {
  }

  /** An attempt that stops anywhere, and may lose rows on the way, still leaves
      each key at a value the source has from the attempt's start on. */
  lemma {:induction false} PartShows(log: seq<Command>, t: Contents, i: nat, j: nat, s: Contents)
    requires ValidLog(log, t) && Shows(log, t, i, s) && i <= j <= |log|
    ensures Shows(log, t, i, ApplyAll(log[i..j], s))
  {
    hide ValidLog, Apply, ApplyAll;
    if i == j {
      NoneApplied(log, i, s);
    } else {
      var s1 := ApplyAll(log[i..j - 1], s);
      PartShows(log, t, i, j - 1, s);
      ApplySlice(log, i, j, s);
      var s2 := Apply(log[j - 1], s1);
      forall k ensures Seen(log, t, i, |log|, k, At(s2, k)) {
        assert Seen(log, t, i, |log|, k, At(s1, k));
        PartKey(log, t, j - 1, s1, k);
        if At(s2, k) == At(Table(log, j, t), k) { SeenAt(log, t, i, |log|, k, j); }
      }
    }
  }

  lemma PartKey(log: seq<Command>, t: Contents, i: nat, s: Contents, k: Key)
    requires ValidLog(log, t) && i < |log|
    ensures At(Apply(log[i], s), k) == At(Table(log, i + 1, t), k) || At(Apply(log[i], s), k) == At(s, k)
  {
    TableStep(log, i, t);
    KeyAfter(log[i], Table(log, i, t), s, k);
  }

  lemma TableShows(log: seq<Command>, t: Contents, i: nat)
    requires i <= |log|
    ensures Shows(log, t, i, Table(log, i, t))
  {
    forall k ensures Seen(log, t, i, |log|, k, At(Table(log, i, t), k)) { SeenAt(log, t, i, |log|, k, i); }
  }

  /** At the end of the log there is one table left to show, and a missing row is
      a difference. */
  lemma ShowsEnd(log: seq<Command>, t: Contents, s: Contents)
    ensures Shows(log, t, |log|, s) <==> s == SourceAll(log, t)
    ensures (exists k :: Missing(log, t, |log|, s, k)) ==> s != SourceAll(log, t)
  {
    TableEnds(log, t);
    TableShows(log, t, |log|);
    if Shows(log, t, |log|, s) {
      forall k ensures At(s, k) == At(SourceAll(log, t), k) { assert Seen(log, t, |log|, |log|, k, At(s, k)); }
      SameLookups(s, SourceAll(log, t));
    }
  }

  lemma {:induction false} FailuresShow(log: seq<Command>, cuts: seq<nat>, t: Contents)
    requires ValidLog(log, t)
    requires forall i :: 0 <= i < |cuts| ==> cuts[i] <= |log|
    ensures Shows(log, t, 0, AfterFailures(log, cuts, t))
  {
    if cuts == [] {
      TableShows(log, t, 0);
      TableEnds(log, t);
    } else {
      var front, cut := cuts[..|cuts| - 1], cuts[|cuts| - 1];
      FailuresShow(log, front, t);
      assert log[0..cut] == log[..cut];
      PartShows(log, t, 0, cut, AfterFailures(log, front, t));
    }
  }

  /** Convergence without any condition on the log: after whatever earlier
      attempts, a full pass ends at the source table if and only if it never moves
      a row that the index has under neither key and the source keeps. */
  lemma {:induction false} ConvergesIff(log: seq<Command>, cuts: seq<nat>, t: Contents)
    requires ValidLog(log, t)
    requires forall i :: 0 <= i < |cuts| ==> cuts[i] <= |log|
    ensures ApplyAll(log, AfterFailures(log, cuts, t)) == SourceAll(log, t)
       <==> Lossless(log, 0, |log|, AfterFailures(log, cuts, t))
  {
    hide ValidLog, Lossless, Shows, Missing, ApplyAll, AfterFailures;
    var s := AfterFailures(log, cuts, t);
    FailuresShow(log, cuts, t);
    assert log[0..|log|] == log;
    ShowsRange(log, t, 0, |log|, s);
    ShowsEnd(log, t, ApplyAll(log, s));
  }

  /** The condition on the log alone is one way to meet it. */
  lemma {:induction false} FreshIsLossless(log: seq<Command>, cuts: seq<nat>, t: Contents)
    requires ValidLog(log, t) && FreshTargets(log)
    requires forall i :: 0 <= i < |cuts| ==> cuts[i] <= |log|
    ensures Lossless(log, 0, |log|, AfterFailures(log, cuts, t))
  {
    hide ValidLog, FreshTargets, Lossless, ApplyAll, AfterFailures;
    Convergence(log, cuts, t);
    ConvergesIff(log, cuts, t);
  }
}
