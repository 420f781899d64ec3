/** The search index as the connectors see it: a map from primary key to record
    with partial insert, delete and update, a document limit and a schema check. */
module Index {
  import opened Wrappers

  type Key = string

  /** Column name to value. */
  type Fields = map<string, string>

  /** A parsed record: its primary key after trimming, and its fields. */
  datatype Record = Record(key: Key, body: Fields)

  /** What a connector hands over: text that may not be JSON at all. */
  datatype Payload = Unparsable | Parsed(rec: Record)

  /** Which parsed records become index records; never one without a key. */
  type SchemaCheck = f: Record -> bool | forall r :: f(r) ==> r.key != "" witness r => false

  /** The engine's configuration: the document limit and the schema. */
  datatype Config = Config(limit: nat, accepts: SchemaCheck)

  type Contents = map<Key, Fields>

  /** New contents, and whether the call returned 0. */
  datatype Reply = Reply(index: Contents, ok: bool)

  function At(s: Contents, k: Key): Option<Fields> {
    if k in s then Some(s[k]) else None
  }

  // ---------------------------------------------------------------- records from rows

  /** The first `n` values of a row, by column name. */
  function Zip(columns: seq<string>, row: seq<string>, n: nat): Fields
    requires n <= |columns| && n <= |row|
  {
    if n == 0 then map[] else Zip(columns, row, n - 1)[columns[n - 1] := row[n - 1]]
  }

  /** The record the engine reads from the JSON text of `f`: without the key column
      its key is empty. */
  function RecordOf(pk: string, f: Fields): Record {
    Record(if pk in f then f[pk] else "", f)
  }

  ghost predicate Distinct(s: seq<string>) {
    forall i, j :: 0 <= i < j < |s| ==> s[i] != s[j]
  }

  lemma {:induction false} ZipAt(columns: seq<string>, row: seq<string>, n: nat, i: nat)
    requires Distinct(columns) && i < n <= |columns| && n <= |row|
    ensures columns[i] in Zip(columns, row, n) && Zip(columns, row, n)[columns[i]] == row[i]
  {
    if i < n - 1 { ZipAt(columns, row, n - 1, i); }
  }

  lemma {:induction false} ZipOnly(columns: seq<string>, row: seq<string>, n: nat, c: string)
    requires n <= |columns| && n <= |row|
    requires forall i :: 0 <= i < n ==> columns[i] != c
    ensures c !in Zip(columns, row, n)
  {
    if n > 0 { ZipOnly(columns, row, n - 1, c); }
  }

  // ---------------------------------------------------------------- operations

  /** The insert step shared by insertRecord and updateRecord: schema check,
      document limit, then duplicate key. */
  predicate Insertable(cfg: Config, s: Contents, r: Record) {
    cfg.accepts(r) && |s| < cfg.limit && r.key !in s
  }

  function Put(cfg: Config, s: Contents, r: Record): Contents {
    if Insertable(cfg, s, r) then s[r.key := r.body] else s
  }

  function InsertReply(cfg: Config, s: Contents, p: Payload): Reply {
    match p
    case Unparsable => Reply(s, false)
    case Parsed(r) => Reply(Put(cfg, s, r), Insertable(cfg, s, r))
  }

  function DeleteReply(s: Contents, k: Key): Reply {
    if k != "" && k in s then Reply(s - {k}, true) else Reply(s, false)
  }

  /** Note the last branch: an update answers 0 whether or not the new record
      went in. */
  function UpdateReply(cfg: Config, s: Contents, k: Key, p: Payload): Reply {
    match p
    case Unparsable => Reply(s, false)
    case Parsed(r) =>
      if k == "" then Reply(s, true)
      else if k !in s then Reply(s, false)
      else
        var rest := s - {k};
        Reply(if |rest| < cfg.limit then Put(cfg, rest, r) else s, true)
  }

  // ---------------------------------------------------------------- commands

  datatype Command =
    | Insert(rec: Record)
    | Delete(key: Key)
    | Update(oldKey: Key, rec: Record)

  function Exec(cfg: Config, c: Command, s: Contents): Contents {
    match c
    case Insert(r) => InsertReply(cfg, s, Parsed(r)).index
    case Delete(k) => DeleteReply(s, k).index
    case Update(k, r) => UpdateReply(cfg, s, k, Parsed(r)).index
  }

  function ExecAll(cfg: Config, cs: seq<Command>, s: Contents): Contents {
    if cs == [] then s
    else Exec(cfg, cs[|cs| - 1], ExecAll(cfg, cs[..|cs| - 1], s))
  }

  lemma {:induction false} ExecAllAppend(cfg: Config, a: seq<Command>, b: seq<Command>, s: Contents)
    ensures ExecAll(cfg, a + b, s) == ExecAll(cfg, b, ExecAll(cfg, a, s))
  {
    if b == [] {
      assert a + b == a;
    } else {
      var b' := b[..|b| - 1];
      assert (a + b)[..|a + b| - 1] == a + b';
      ExecAllAppend(cfg, a, b', s);
    }
  }

  lemma ExecAllOne(cfg: Config, c: Command, s: Contents)
    ensures ExecAll(cfg, [c], s) == Exec(cfg, c, s)
  {
    assert [c][..0] == [];
  }

  lemma ExecFew(cfg: Config, cs: seq<Command>, s: Contents)
    requires |cs| <= 1
    ensures ExecAll(cfg, cs, s) == if cs == [] then s else Exec(cfg, cs[0], s)
  {
  }

  // ---------------------------------------------------------------- the document count

  lemma RemoveCount(s: Contents, k: Key)
    requires k in s
    ensures |s - {k}| == |s| - 1
  {
    assert (s - {k}).Keys == s.Keys - {k};
    assert |s.Keys| == |s| && |(s - {k}).Keys| == |s - {k}|;
  }

  lemma AddCount(s: Contents, k: Key, v: Fields)
    requires k !in s
    ensures |s[k := v]| == |s| + 1
  {
    assert s[k := v].Keys == s.Keys + {k};
    assert |s.Keys| == |s| && |s[k := v].Keys| == |s[k := v]|;
  }

  /** An insert answers 0 exactly when the index grew by the record, and a refused one
      changes nothing: text that is not JSON, a record the schema rejects, an index at
      its limit, a key that is taken. */
  lemma InsertAnswer(cfg: Config, s: Contents, p: Payload)
    ensures var r := InsertReply(cfg, s, p);
            && (r.ok <==> |r.index| == |s| + 1)
            && (r.ok <==> p.Parsed? && cfg.accepts(p.rec) && |s| < cfg.limit && p.rec.key !in s)
            && (r.ok ==> r.index == s[p.rec.key := p.rec.body])
            && (!r.ok ==> r.index == s)
  {
    if p.Parsed? && p.rec.key !in s { AddCount(s, p.rec.key, p.rec.body); }
  }

  /** A delete answers 0 exactly when the index shrank, by the record of the key and
      nothing else. */
  lemma DeleteAnswer(s: Contents, k: Key)
    ensures var r := DeleteReply(s, k);
            && (r.ok <==> |r.index| + 1 == |s|)
            && (r.ok <==> k != "" && k in s)
            && (r.ok ==> k !in r.index && forall j :: j in s && j != k ==> j in r.index && r.index[j] == s[j])
            && (!r.ok ==> r.index == s)
  {
    if k in s { RemoveCount(s, k); }
  }

  /** What an update leaves behind, in full. It loses a document exactly when the
      old key is there, the count allows the insert, and the insert is refused by the
      schema or by another record under the new key; above the limit the
      recovery call restores the old contents; otherwise the old record is replaced.
      The call fails, and changes nothing, exactly when the text is not JSON or a
      non-empty old key is absent: a lost document is answered with success. */
  lemma UpdateOutcome(cfg: Config, s: Contents, k: Key, p: Payload)
    ensures var after := UpdateReply(cfg, s, k, p).index;
            && |after| <= |s|
            && (|after| < |s| <==>
                  p.Parsed? && k != "" && k in s && |s| <= cfg.limit
                  && !(cfg.accepts(p.rec) && (p.rec.key == k || p.rec.key !in s)))
            && (!UpdateReply(cfg, s, k, p).ok <==> p.Unparsable? || (k != "" && k !in s))
            && (p.Unparsable? || k == "" || k !in s ==> after == s)
            && (|s| > cfg.limit ==> after == s)
            && (p.Parsed? && k != "" && k in s && |s| <= cfg.limit && |after| == |s| ==>
                  after == (s - {k})[p.rec.key := p.rec.body])
  {
    if p.Parsed? && k != "" && k in s {
      RemoveCount(s, k);
      var rest := s - {k};
      if Insertable(cfg, rest, p.rec) {
        AddCount(rest, p.rec.key, p.rec.body);
      }
    }
  }

  /** One command moves the count by at most one, up only by a successful insert,
      and never past the limit. */
  lemma CountAfter(cfg: Config, c: Command, s: Contents)
    ensures |Exec(cfg, c, s)| <= if c.Insert? && |s| < cfg.limit then |s| + 1 else |s|
  {
    match c
    case Insert(r) =>
      if Insertable(cfg, s, r) { AddCount(s, r.key, r.body); }
    case Delete(k) =>
      if k in s { RemoveCount(s, k); }
    case Update(k, r) =>
      UpdateOutcome(cfg, s, k, Parsed(r));
  }

  /** Over any run: the limit is never passed once kept, and without inserts the
      count never grows. */
  lemma {:induction false} CountOverRuns(cfg: Config, cs: seq<Command>, s: Contents)
    ensures |s| <= cfg.limit ==> |ExecAll(cfg, cs, s)| <= cfg.limit
    ensures (forall c :: c in cs ==> !c.Insert?) ==> |ExecAll(cfg, cs, s)| <= |s|
  {
    if cs != [] {
      var front := cs[..|cs| - 1];
      CountOverRuns(cfg, front, s);
      CountAfter(cfg, cs[|cs| - 1], ExecAll(cfg, front, s));
    }
  }

  /** Along any run that starts within the limit, an update that finds its old key
      always takes the insert branch: the recovery call is never reached. */
  lemma {:induction false} RecoveryNeedsOverfullIndex(cfg: Config, cs: seq<Command>, s: Contents, k: Key)
    requires |s| <= cfg.limit
    requires k in ExecAll(cfg, cs, s)
    ensures |ExecAll(cfg, cs, s) - {k}| < cfg.limit
  {
    CountOverRuns(cfg, cs, s);
    RemoveCount(ExecAll(cfg, cs, s), k);
  }
}
