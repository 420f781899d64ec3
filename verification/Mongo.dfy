/** The MongoDB listener: it rescans the oplog from the start after every
    exception, skips entries older than its watermark, and sends for each update
    the document as the collection holds it when the entry is read. */
module Mongo {
  import opened Wrappers
  import opened Index
  import opened ChangeLog
  import opened Server

  /** A field's value: an ObjectId, a string, or anything else, shown as text. */
  datatype Bson = Oid(hex: string) | Text(text: string) | Plain(shown: string)

  type Document = map<string, Bson>

  datatype Field = NotAnObject | Object(doc: Document)

  /** An oplog entry; `time` is its timestamp in seconds. */
  datatype Entry = Entry(ns: string, time: nat, op: string, o: Field, o2: Field)

  /** What querying the collection for an updated document answers; a document goes
      to the engine as JSON text, so what matters is the record the engine reads. */
  datatype Read = NoDocument | ErrorDocument | Found(rec: Record)

  /** The collection and its unique key, as configured. */
  datatype Source = Source(ns: string, uniqueKey: string)

  function Show(v: Bson): string {
    match v
    case Oid(hex) => hex
    case Text(text) => text
    case Plain(shown) => shown
  }

  /** The record the engine reads from a document's JSON text, where an ObjectId is an
      object with its digits inside. */
  function DocumentRecord(uniqueKey: string, doc: Document): Record {
    RecordOf(uniqueKey, map f | f in doc :: Show(doc[f]))
  }

  /** The key the listener itself takes from a document: the digits of an ObjectId if
      the unique key is `_id`, the text of a string, and nothing from any other
      value or without the field. */
  function KeyOf(uniqueKey: string, doc: Document): Key {
    if uniqueKey !in doc then ""
    else
      match doc[uniqueKey]
      case Oid(hex) => if uniqueKey == "_id" then hex else ""
      case Text(text) => text
      case Plain(_) => ""
  }

  /** The listener and the engine agree on a document's key exactly when the value is a
      string, or an ObjectId under `_id`. */
  lemma KeysAgreeIff(uniqueKey: string, doc: Document)
    requires DocumentRecord(uniqueKey, doc).key != ""
    ensures KeyOf(uniqueKey, doc) == DocumentRecord(uniqueKey, doc).key <==>
              doc[uniqueKey].Text? || (doc[uniqueKey].Oid? && uniqueKey == "_id")
    ensures KeyOf(uniqueKey, doc) == DocumentRecord(uniqueKey, doc).key || KeyOf(uniqueKey, doc) == ""
  {
  }

  datatype Kind = Inserted | Deleted | Updated | Other

  function KindOf(op: string): Kind {
    if op == "" then Other
    else if op[0] == 'i' || op[0] == 'I' then Inserted
    else if op[0] == 'd' || op[0] == 'D' then Deleted
    else if op[0] == 'u' || op[0] == 'U' then Updated
    else Other
  }

  /** The payload an insert entry gives: a missing object reads as an empty one. */
  function InsertPayload(uniqueKey: string, e: Entry): Payload {
    Parsed(DocumentRecord(uniqueKey, if e.o.Object? then e.o.doc else map[]))
  }

  function Process(cfg: Config, uniqueKey: string, e: Entry, read: Read, s: Contents): Contents {
    match KindOf(e.op)
    case Inserted => InsertReply(cfg, s, InsertPayload(uniqueKey, e)).index
    case Deleted => if e.o.Object? then DeleteReply(s, KeyOf(uniqueKey, e.o.doc)).index else s
    case Updated =>
      if e.o2.Object? && read.Found?
      then UpdateReply(cfg, s, KeyOf(uniqueKey, e.o2.doc), Parsed(read.rec)).index
      else s
    case Other => s
  }

  /** A delete or update from which the listener takes no key does nothing, and
      nothing is reported: the unique key is missing, or is neither a string nor an
      ObjectId under `_id`, or there is no object at all. */
  lemma WithoutKeyNothingHappens(cfg: Config, uniqueKey: string, e: Entry, read: Read, s: Contents)
    requires e.op != "" && e.op[0] in {'d', 'D', 'u', 'U'}
    requires var f := if e.op[0] in {'d', 'D'} then e.o else e.o2;
             f.Object? && uniqueKey in f.doc ==>
               f.doc[uniqueKey].Plain? || (f.doc[uniqueKey].Oid? && uniqueKey != "_id")
    ensures Process(cfg, uniqueKey, e, read, s) == s
  {
  }

  /** Nor does any other operation, an update whose document is gone, or an insert
      without an object. */
  lemma NothingElseHappens(cfg: Config, uniqueKey: string, e: Entry, read: Read, s: Contents)
    requires || e.op == "" || e.op[0] !in {'i', 'I', 'd', 'D', 'u', 'U'}
             || (e.op[0] in {'u', 'U'} && !read.Found?)
             || (e.op[0] in {'i', 'I'} && e.o.NotAnObject?)
    ensures Process(cfg, uniqueKey, e, read, s) == s
  {
  }

  // ---------------------------------------------------------------- one connection

  /** While one connection lasts; `handled` collects the positions processed. */
  datatype Session = Session(opLogTime: nat, watermark: nat, index: Contents, handled: set<nat>)

  function ScanEntry(cfg: Config, src: Source, e: Entry, read: Read, pos: nat, st: Session): Session {
    if e.ns != src.ns then st
    else if e.time >= st.watermark
    then Session(e.time, e.time, Process(cfg, src.uniqueKey, e, read, st.index), st.handled + {pos})
    else st.(opLogTime := e.time)
  }

  function Scan(cfg: Config, src: Source, es: seq<Entry>, answers: seq<Read>, st: Session): Session
    requires |answers| == |es|
  {
    if es == [] then st
    else
      var n := |es| - 1;
      ScanEntry(cfg, src, es[n], answers[n], n, Scan(cfg, src, es[..n], answers[..n], st))
  }

  lemma ScanStep(cfg: Config, src: Source, es: seq<Entry>, answers: seq<Read>, st: Session, n: nat)
    requires |answers| == |es| && n < |es|
    ensures Scan(cfg, src, es[..n + 1], answers[..n + 1], st)
         == ScanEntry(cfg, src, es[n], answers[n], n, Scan(cfg, src, es[..n], answers[..n], st))
  {
    assert es[..n + 1][..n] == es[..n] && answers[..n + 1][..n] == answers[..n];
  }

  function Ours(src: Source, es: seq<Entry>): seq<Entry> {
    if es == [] then []
    else Ours(src, es[..|es| - 1]) + (if es[|es| - 1].ns == src.ns then [es[|es| - 1]] else [])
  }

  function OurAnswers(src: Source, es: seq<Entry>, answers: seq<Read>): (r: seq<Read>)
    requires |answers| == |es|
    ensures |r| == |Ours(src, es)|
  {
    if es == [] then []
    else
      var n := |es| - 1;
      OurAnswers(src, es[..n], answers[..n]) + (if es[n].ns == src.ns then [answers[n]] else [])
  }

  predicate SameProgress(a: Session, b: Session) {
    a.opLogTime == b.opLogTime && a.watermark == b.watermark && a.index == b.index
  }

  lemma {:induction false} OursGrows(src: Source, es: seq<Entry>, i: nat, j: nat)
    requires i <= j <= |es|
    ensures Ours(src, es[..i]) <= Ours(src, es[..j])
  {
    if i < j {
      OursGrows(src, es, i, j - 1);
      OursStep(src, es, j - 1);
    }
  }

  lemma OursStep(src: Source, es: seq<Entry>, i: nat)
    requires i < |es|
    ensures Ours(src, es[..i + 1]) == Ours(src, es[..i]) + (if es[i].ns == src.ns then [es[i]] else [])
  {
    assert es[..i + 1][..i] == es[..i];
  }

  /** How many of the collection's entries come before position `i`. */
  function Before(src: Source, es: seq<Entry>, i: nat): nat
    requires i <= |es|
  {
    |Ours(src, es[..i])|
  }

  /** The collection's entry at position `i` is its entry number `Before(i)`. */
  lemma OursAt(src: Source, es: seq<Entry>, i: nat)
    requires i < |es| && es[i].ns == src.ns
    ensures Before(src, es, i) < |Ours(src, es)| && Ours(src, es)[Before(src, es, i)] == es[i]
  {
    OursStep(src, es, i);
    OursGrows(src, es, i + 1, |es|);
    assert es[..|es|] == es;
  }

  lemma BeforeIsOneToOne(src: Source, es: seq<Entry>, i: nat, j: nat)
    requires i < |es| && j < |es| && es[i].ns == src.ns && es[j].ns == src.ns
    requires Before(src, es, i) == Before(src, es, j)
    ensures i == j
  {
    OursStep(src, es, i);
    OursStep(src, es, j);
    if i < j { OursGrows(src, es, i + 1, j); }
    if j < i { OursGrows(src, es, j + 1, i); }
  }

  /** What was handled in the collection's own count was handled in the whole log's. */
  ghost predicate Matches(src: Source, all: seq<Entry>, handled: set<nat>, own: set<nat>) {
    forall i :: 0 <= i < |all| && all[i].ns == src.ns && Before(src, all, i) in own ==> i in handled
  }

  lemma MatchesOneMore(src: Source, all: seq<Entry>, handled: set<nat>, own: set<nat>, n: nat)
    requires Matches(src, all, handled, own) && n < |all| && all[n].ns == src.ns
    ensures Matches(src, all, handled + {n}, own + {Before(src, all, n)})
  {
    forall i | 0 <= i < |all| && all[i].ns == src.ns && Before(src, all, i) in own + {Before(src, all, n)}
      ensures i in handled + {n}
    {
      if Before(src, all, i) == Before(src, all, n) { BeforeIsOneToOne(src, all, i, n); }
    }
  }

  /** Entries of other collections, wherever they stand, change nothing: scanning the
      log that the whole server shares is scanning the collection's own entries. */
  lemma {:induction false} OtherCollectionsIgnored(cfg: Config, src: Source, all: seq<Entry>, answers: seq<Read>,
                                                   n: nat, st: Session, own: Session)
    requires n <= |all| && |answers| == n
    requires SameProgress(st, own) && Matches(src, all, st.handled, own.handled)
    ensures var st' := Scan(cfg, src, all[..n], answers, st);
            var own' := Scan(cfg, src, Ours(src, all[..n]), OurAnswers(src, all[..n], answers), own);
            SameProgress(st', own') && Matches(src, all, st'.handled, own'.handled)
  {
    hide Process, Matches, Before;
    if n == 0 {
      assert all[..0] == [];
    } else {
      var es, m := all[..n], n - 1;
      assert es[..m] == all[..m] && es[m] == all[m] && es[..m + 1] == es && answers[..m + 1] == answers;
      ScanStep(cfg, src, es, answers, st, m);
      OtherCollectionsIgnored(cfg, src, all, answers[..m], m, st, own);
      if all[m].ns == src.ns {
        var ours, theirs, k := Ours(src, es), OurAnswers(src, es, answers), |Ours(src, all[..m])|;
        assert ours[..k] == Ours(src, all[..m]) && theirs[..k] == OurAnswers(src, all[..m], answers[..m]);
        assert ours[k] == all[m] && theirs[k] == answers[m] && ours[..k + 1] == ours && theirs[..k + 1] == theirs;
        ScanStep(cfg, src, ours, theirs, own, k);
        BothTake(cfg, src, all, m, answers[m],
                 Scan(cfg, src, all[..m], answers[..m], st), Scan(cfg, src, ours[..k], theirs[..k], own));
      } else {
        assert Ours(src, es) == Ours(src, all[..m]);
        assert OurAnswers(src, es, answers) == OurAnswers(src, all[..m], answers[..m]);
      }
    }
  }

  lemma BothTake(cfg: Config, src: Source, all: seq<Entry>, n: nat, read: Read, st: Session, own: Session)
    requires n < |all| && all[n].ns == src.ns
    requires SameProgress(st, own) && Matches(src, all, st.handled, own.handled)
    ensures var st', own' := ScanEntry(cfg, src, all[n], read, n, st),
                             ScanEntry(cfg, src, all[n], read, |Ours(src, all[..n])|, own);
            SameProgress(st', own') && Matches(src, all, st'.handled, own'.handled)
  {
    hide Process, Matches;
    MatchesOneMore(src, all, st.handled, own.handled, n);
  }

  // ---------------------------------------------------------------- the oplog as a change log

  /** The first letter of the operation, small or capital. */
  predicate Starts(op: string, small: char, capital: char) {
    op != "" && (op[0] == small || op[0] == capital)
  }

  /** The document holds just the fields of `r`, as text, and its key under the unique
      key. */
  ghost predicate HoldsRecord(uniqueKey: string, doc: Document, r: Record) {
    && (forall f :: f in r.body <==> f in doc)
    && (forall f :: f in doc ==>
          doc[f] == Oid(r.body[f]) || doc[f] == Text(r.body[f]) || doc[f] == Plain(r.body[f]))
    && r.key == if uniqueKey in r.body then r.body[uniqueKey] else ""
  }

  /** The document names the row `k` in a way the listener can take: as a string, or as
      an ObjectId under `_id`. */
  predicate Names(uniqueKey: string, doc: Document, k: Key) {
    uniqueKey in doc && (doc[uniqueKey] == Text(k) || (uniqueKey == "_id" && doc[uniqueKey] == Oid(k)))
  }

  /** Entry `e` is what MongoDB logs for change `c`. An update's new document is not
      in its entry. */
  ghost predicate Describes(uniqueKey: string, e: Entry, c: Command) {
    match c
    case Insert(r) => Starts(e.op, 'i', 'I') && e.o.Object? && HoldsRecord(uniqueKey, e.o.doc, r)
    case Delete(k) => Starts(e.op, 'd', 'D') && e.o.Object? && Names(uniqueKey, e.o.doc, k)
    case Update(k, r) => Starts(e.op, 'u', 'U') && e.o2.Object? && Names(uniqueKey, e.o2.doc, k) && r.key == k
  }

  /** Each change has an entry that describes it, under either letter, whether the key
      column holds text or, under `_id`, an ObjectId; the update of a moved row has none. */
  lemma EveryChangeIsDescribed(uniqueKey: string, c: Command, ns: string, time: nat, letter: char, other: Document)
    requires letter in (match c
                        case Insert(_) => {'i', 'I'}
                        case Delete(_) => {'d', 'D'}
                        case Update(_, _) => {'u', 'U'})
    requires c.Insert? ==> c.rec == RecordOf(uniqueKey, c.rec.body)
    ensures var texts := if c.Insert? then c.rec.body else map[uniqueKey := if c.Delete? then c.key else c.oldKey];
            var doc: Document := map f | f in texts :: Text(texts[f]);
            var ids: Document := map f | f in texts :: Oid(texts[f]);
            forall d :: d == doc || (d == ids && uniqueKey == "_id") ==>
              (Describes(uniqueKey, Entry(ns, time, [letter], Object(if c.Update? then other else d), Object(d)), c)
               <==> (c.Update? ==> c.rec.key == c.oldKey))
  {
  }

  lemma HeldIsRead(uniqueKey: string, doc: Document, r: Record)
    requires HoldsRecord(uniqueKey, doc, r)
    ensures DocumentRecord(uniqueKey, doc) == r
  {
    assert DocumentRecord(uniqueKey, doc).body == r.body;
  }

  /** What processing a described entry does, before the engine. */
  lemma DescribedIsProcessed(cfg: Config, uniqueKey: string, e: Entry, c: Command, read: Read, s: Contents)
    requires Describes(uniqueKey, e, c)
    ensures Process(cfg, uniqueKey, e, read, s)
         == match c
            case Insert(r) => InsertReply(cfg, s, Parsed(r)).index
            case Delete(k) => DeleteReply(s, k).index
            case Update(k, _) => if read.Found? then UpdateReply(cfg, s, k, Parsed(read.rec)).index else s
  {
    hide InsertReply, DeleteReply, UpdateReply;
    if c.Insert? { HeldIsRead(uniqueKey, e.o.doc, c.rec); }
  }

  /** The collection's part of the oplog: entry by entry the changes in `log`, in
      time order. */
  ghost predicate Oplog(src: Source, es: seq<Entry>, log: seq<Command>) {
    && |es| == |log|
    && (forall i :: 0 <= i < |es| ==> es[i].ns == src.ns && Describes(src.uniqueKey, es[i], log[i]))
    && (forall i, j :: 0 <= i < j < |es| ==> es[i].time <= es[j].time)
  }

  /** `_id` never changes, so no update moves a row. */
  lemma OplogKeepsKeys(src: Source, es: seq<Entry>, log: seq<Command>)
    requires Oplog(src, es, log)
    ensures SameKeyUpdates(log)
  {
    forall i | 0 <= i < |log| ensures !KeyChanging(log[i]) { assert Describes(src.uniqueKey, es[i], log[i]); }
  }

  lemma OplogAt(src: Source, es: seq<Entry>, log: seq<Command>, c: nat)
    requires Oplog(src, es, log) && c < |es|
    ensures |es| == |log| && es[c].ns == src.ns && Describes(src.uniqueKey, es[c], log[c])
    ensures c > 0 ==> es[c - 1].time <= es[c].time
  {
  }

  /** Room for every key, and a schema that accepts every document the collection
      ever held. */
  ghost predicate Fits(cfg: Config, log: seq<Command>, t: Contents) {
    && |t.Keys + NewKeys(log)| <= cfg.limit
    && (forall c :: c in log && !c.Delete? ==> cfg.accepts(c.rec))
    && (forall k :: k in t ==> cfg.accepts(Record(k, t[k])))
  }

  lemma Named(log: seq<Command>, c: Command)
    requires c in log && !c.Delete?
    ensures c.rec.key in NewKeys(log)
  {
  }

  lemma StepFits(cfg: Config, keys: set<Key>, c: Command, s: Contents)
    requires s.Keys <= keys && forall k :: k in s ==> cfg.accepts(Record(k, s[k]))
    requires !c.Delete? ==> c.rec.key in keys && cfg.accepts(c.rec)
    ensures SourceStep(c, s).Keys <= keys
    ensures forall k :: k in SourceStep(c, s) ==> cfg.accepts(Record(k, SourceStep(c, s)[k]))
  {
    assert !c.Delete? ==> c.rec == Record(c.rec.key, c.rec.body);
  }

  lemma {:induction false} TableFits(cfg: Config, log: seq<Command>, t: Contents, m: nat)
    requires Fits(cfg, log, t) && ValidLog(log, t) && m <= |log|
    ensures Table(log, m, t).Keys <= t.Keys + NewKeys(log)
    ensures forall k :: k in Table(log, m, t) ==> cfg.accepts(Record(k, Table(log, m, t)[k]))
  {
    hide ValidLog, NewKeys, Table, SourceStep;
    if m > 0 {
      TableFits(cfg, log, t, m - 1);
      TableStep(log, m - 1, t);
      var c := log[m - 1];
      assert c in log;
      if !c.Delete? { Named(log, c); }
      StepFits(cfg, t.Keys + NewKeys(log), c, Table(log, m - 1, t));
    } else {
      TableEnds(log, t);
    }
  }

  /** What the collection answers to the query of change `c`. */
  function ReadFor(c: Command, collection: Contents): Read {
    if c.Update? && c.oldKey in collection then Found(Record(c.oldKey, collection[c.oldKey])) else NoDocument
  }

  /** Processing an entry, with room: as the log says, except that an update takes
      the collection's document, or nothing if it is gone. */
  function Reread(c: Command, collection: Contents, s: Contents): Contents {
    if !c.Update? then Apply(c, s)
    else if c.oldKey in collection
    then Apply(Update(c.oldKey, Record(c.oldKey, collection[c.oldKey])), s)
    else s
  }

  lemma ProcessIsReread(cfg: Config, uniqueKey: string, e: Entry, log: seq<Command>, t: Contents,
                        i: nat, m: nat, s: Contents)
    requires Fits(cfg, log, t) && ValidLog(log, t) && i < |log| && m <= |log|
    requires Describes(uniqueKey, e, log[i]) && s.Keys <= t.Keys + NewKeys(log)
    ensures var s' := Process(cfg, uniqueKey, e, ReadFor(log[i], Table(log, m, t)), s);
            s' == Reread(log[i], Table(log, m, t), s) && s'.Keys <= t.Keys + NewKeys(log)
  {
    var c, keys := log[i], t.Keys + NewKeys(log);
    DescribedIsProcessed(cfg, uniqueKey, e, c, ReadFor(c, Table(log, m, t)), s);
    hide Process, Describes, ValidLog;
    assert c in log;
    TableFits(cfg, log, t, m);
    if c.Update? {
      if c.oldKey in Table(log, m, t) {
        RoomyExec(cfg, keys, Update(c.oldKey, Record(c.oldKey, Table(log, m, t)[c.oldKey])), s);
      }
    } else {
      RoomyExec(cfg, keys, c, s);
    }
  }

  // ---------------------------------------------------------------- replay

  ghost predicate DeletedAhead(log: seq<Command>, i: nat, k: Key) {
    exists j :: i <= j < |log| && log[j] == Delete(k)
  }

  /** The index of a listener about to process change `i`: every key shows a value
      the collection has there or later, or the log still deletes it. */
  ghost predicate Rereading(log: seq<Command>, t: Contents, i: nat, s: Contents) {
    i <= |log| && forall k :: Seen(log, t, i, |log|, k, At(s, k)) || DeletedAhead(log, i, k)
  }

  ghost predicate SameKeyUpdates(log: seq<Command>) {
    forall i :: 0 <= i < |log| ==> !KeyChanging(log[i])
  }

  /** A present row that is gone at `m` is deleted in between. */
  lemma {:induction false} GoneMeansDeleted(log: seq<Command>, t: Contents, i: nat, m: nat, k: Key)
    requires ValidLog(log, t) && SameKeyUpdates(log) && i <= m <= |log|
    requires k in Table(log, i, t) && k !in Table(log, m, t)
    ensures DeletedAhead(log, i, k)
    decreases m - i
  {
    TableStep(log, i, t);
    assert i < |log| && ValidStep(log[i], Table(log, i, t)) && !KeyChanging(log[i]) by { assert i < m; }
    hide Table, ValidLog, SameKeyUpdates;
    if k in Table(log, i + 1, t) {
      GoneMeansDeleted(log, t, i + 1, m, k);
    } else {
      assert log[i] == Delete(k);
    }
  }

  /** One entry against one key: the key ends up as in the collection right after
      the change or as in the collection that was read, or it is left alone. */
  lemma KeyReread(c: Command, now: Contents, late: Contents, s: Contents, k: Key)
    requires ValidStep(c, now) && !KeyChanging(c)
    ensures var s' := Reread(c, late, s);
            || At(s', k) == At(SourceStep(c, now), k)
            || At(s', k) == At(late, k)
            || (At(s', k) == At(s, k) && c != Delete(k)
                && (At(s, k) != At(now, k) || (c.Update? && c.oldKey == k && k !in late)))
  {
  }

  lemma RereadKey(log: seq<Command>, t: Contents, i: nat, m: nat, s: Contents, k: Key)
    requires ValidLog(log, t) && SameKeyUpdates(log)
    requires i < m <= |log|
    requires Seen(log, t, i, |log|, k, At(s, k)) || DeletedAhead(log, i, k)
    ensures var s' := Reread(log[i], Table(log, m, t), s);
            Seen(log, t, i + 1, |log|, k, At(s', k)) || DeletedAhead(log, i + 1, k)
  {
    var c, now, late := log[i], Table(log, i, t), Table(log, m, t);
    var s' := Reread(c, late, s);
    assert ValidStep(c, now) && !KeyChanging(c);
    TableStep(log, i, t);
    KeyReread(c, now, late, s, k);
    if At(s', k) == At(SourceStep(c, now), k) {
      SeenAt(log, t, i + 1, |log|, k, i + 1);
    } else if At(s', k) == At(late, k) {
      SeenAt(log, t, i + 1, |log|, k, m);
    } else {
      StillAhead(log, t, i, m, s, k);
    }
  }

  lemma StillAhead(log: seq<Command>, t: Contents, i: nat, m: nat, s: Contents, k: Key)
    requires ValidLog(log, t) && SameKeyUpdates(log)
    requires i < m <= |log| && log[i] != Delete(k)
    requires Seen(log, t, i, |log|, k, At(s, k)) || DeletedAhead(log, i, k)
    requires At(s, k) != At(Table(log, i, t), k)
          || (k in Table(log, i, t) && k !in Table(log, m, t))
    ensures Seen(log, t, i + 1, |log|, k, At(s, k)) || DeletedAhead(log, i + 1, k)
  {
    hide ValidLog, SameKeyUpdates, Table;
    if DeletedAhead(log, i, k) {
      var j :| i <= j < |log| && log[j] == Delete(k);
      assert j > i;
    } else if At(s, k) != At(Table(log, i, t), k) {
      var j :| i <= j <= |log| && At(Table(log, j, t), k) == At(s, k);
      SeenAt(log, t, i + 1, |log|, k, j);
    } else {
      GoneMeansDeleted(log, t, i, m, k);
    }
  }

  lemma RereadStep(log: seq<Command>, t: Contents, i: nat, m: nat, s: Contents)
    requires ValidLog(log, t) && SameKeyUpdates(log)
    requires i < m <= |log| && Rereading(log, t, i, s)
    ensures Rereading(log, t, i + 1, Reread(log[i], Table(log, m, t), s))
  {
    var s' := Reread(log[i], Table(log, m, t), s);
    forall k ensures Seen(log, t, i + 1, |log|, k, At(s', k)) || DeletedAhead(log, i + 1, k) {
      RereadKey(log, t, i, m, s, k);
    }
  }

  lemma RereadBack(log: seq<Command>, t: Contents, i: nat, back: nat, s: Contents)
    requires Rereading(log, t, i, s) && back <= i
    ensures Rereading(log, t, back, s)
  {
    forall k ensures Seen(log, t, back, |log|, k, At(s, k)) || DeletedAhead(log, back, k) {
      if Seen(log, t, i, |log|, k, At(s, k)) {
        SeenWiden(log, t, i, |log|, back, |log|, k, At(s, k));
      }
    }
  }

  lemma RereadDone(log: seq<Command>, t: Contents, s: Contents)
    requires Rereading(log, t, |log|, s)
    ensures s == Table(log, |log|, t)
  {
    forall k ensures At(s, k) == At(Table(log, |log|, t), k) {
      assert !DeletedAhead(log, |log|, k);
      assert Seen(log, t, |log|, |log|, k, At(s, k));
    }
    SameLookups(s, Table(log, |log|, t));
  }

  lemma TableRereading(log: seq<Command>, t: Contents, i: nat)
    requires i <= |log|
    ensures Rereading(log, t, i, Table(log, i, t))
  {
    forall k ensures Seen(log, t, i, |log|, k, At(Table(log, i, t), k)) {
      SeenAt(log, t, i, |log|, k, i);
    }
  }

  // ---------------------------------------------------------------- runs

  /** One connection: it reads `count` whole entries of the log that all collections
      share, the `i`-th of our own while the collection is as after `seen[i]`
      changes, and then an exception ends it - possibly while the next entry is
      being processed. */
  datatype Turn = Turn(count: nat, seen: seq<nat>, torn: bool)

  predicate Possible(turn: Turn, src: Source, all: seq<Entry>, log: seq<Command>) {
    && turn.count <= |all| && (turn.torn ==> turn.count < |all|)
    && |turn.seen| == |Ours(src, all[..turn.count])| <= |log|
    && forall i :: 0 <= i < |turn.seen| ==> turn.seen[i] <= |log|
  }

  /** A connection may read any number of entries, up to all of them, while the collection
      is as far as it will get, and may be torn at any entry. */
  lemma AnyTurnIsPossible(src: Source, all: seq<Entry>, log: seq<Command>, count: nat, torn: bool)
    requires |Ours(src, all)| == |log| && count <= |all| && (torn ==> count < |all|)
    ensures var n := |Ours(src, all[..count])|;
            Possible(Turn(count, seq(n, i => |log|), torn), src, all, log)
  {
    assert all[..|all|] == all;
    OursGrows(src, all, count, |all|);
  }

  /** The collection is never behind the entry being read. */
  ghost predicate Causal(turn: Turn) {
    forall i :: 0 <= i < |turn.seen| ==> i < turn.seen[i]
  }

  /** What the collection answers for its own entries. */
  function Reads(seen: seq<nat>, log: seq<Command>, t: Contents): (r: seq<Read>)
    requires |seen| <= |log| && forall i :: 0 <= i < |seen| ==> seen[i] <= |log|
    ensures |r| == |seen|
  {
    seq(|seen|, i requires 0 <= i < |seen| => ReadFor(log[i], Table(log, seen[i], t)))
  }

  /** Answers for all entries; those of other collections ask for none. */
  function Spread(src: Source, es: seq<Entry>, own: seq<Read>): (r: seq<Read>)
    requires |own| == |Ours(src, es)|
    ensures |r| == |es|
  {
    if es == [] then []
    else
      var n := |es| - 1;
      if es[n].ns == src.ns then Spread(src, es[..n], own[..|own| - 1]) + [own[|own| - 1]]
      else Spread(src, es[..n], own) + [NoDocument]
  }

  lemma {:induction false} SpreadBack(src: Source, es: seq<Entry>, own: seq<Read>)
    requires |own| == |Ours(src, es)|
    ensures OurAnswers(src, es, Spread(src, es, own)) == own
  {
    if es != [] {
      var n, r := |es| - 1, Spread(src, es, own);
      if es[n].ns == src.ns {
        SpreadBack(src, es[..n], own[..|own| - 1]);
        assert r[..n] == Spread(src, es[..n], own[..|own| - 1]) && r[n] == own[|own| - 1];
      } else {
        SpreadBack(src, es[..n], own);
        assert r[..n] == Spread(src, es[..n], own);
      }
    }
  }

  datatype State = State(watermark: nat, index: Contents, handled: set<nat>)

  function RunTurn(cfg: Config, src: Source, all: seq<Entry>, log: seq<Command>, t: Contents, turn: Turn,
                   st: State): State
    requires Possible(turn, src, all, log)
  {
    var es := all[..turn.count];
    var s := Scan(cfg, src, es, Spread(src, es, Reads(turn.seen, log, t)),
                  Session(0, st.watermark, st.index, st.handled));
    State(if turn.torn && all[turn.count].ns == src.ns then all[turn.count].time else s.opLogTime, s.index, s.handled)
  }

  /** The number of entries before the first one at or after `w`. */
  function First(es: seq<Entry>, w: nat): (n: nat)
    ensures n <= |es|
    ensures forall i :: 0 <= i < n ==> es[i].time < w
    ensures n < |es| ==> es[n].time >= w
  {
    if es == [] || es[0].time >= w then 0 else 1 + First(es[1..], w)
  }

  ghost predicate HandledFrom(handled: set<nat>, a: nat, b: nat) {
    forall p :: a <= p < b ==> p in handled
  }

  /** During a connection that started at watermark `w`, after `c` entries. */
  ghost predicate Scanned(es: seq<Entry>, log: seq<Command>, t: Contents, w: nat, from: nat, c: nat, st: Session)
    requires c <= |es|
  {
    var front := Later(c, First(es, w));
    && st.watermark == (if c <= First(es, w) then w else es[c - 1].time)
    && st.opLogTime == (if c == 0 then 0 else es[c - 1].time)
    && st.index.Keys <= t.Keys + NewKeys(log)
    && Rereading(log, t, front, st.index)
    && HandledFrom(st.handled, from, front)
  }

  lemma ScannedStep(cfg: Config, src: Source, es: seq<Entry>, log: seq<Command>, t: Contents,
                    w: nat, from: nat, c: nat, m: nat, st: Session)
    requires Oplog(src, es, log) && ValidLog(log, t) && Fits(cfg, log, t)
    requires c < m <= |log| && Scanned(es, log, t, w, from, c, st)
    ensures Scanned(es, log, t, w, from, c + 1,
                    ScanEntry(cfg, src, es[c], ReadFor(log[c], Table(log, m, t)), c, st))
  {
    hide ValidLog, SameKeyUpdates, Fits, Rereading, KindOf, Describes, Process, Reread, ReadFor, NewKeys, Table, First;
    var f := First(es, w);
    OplogAt(src, es, log, c);
    if c < f {
      assert es[c].time < w;
    } else {
      hide Oplog;
      OplogKeepsKeys(src, es, log);
      ProcessIsReread(cfg, src.uniqueKey, es[c], log, t, c, m, st.index);
      RereadStep(log, t, c, m, st.index);
    }
  }

  lemma {:induction false} ScannedAll(cfg: Config, src: Source, es: seq<Entry>, log: seq<Command>, t: Contents,
                                      seen: seq<nat>, w: nat, from: nat, c: nat, st: Session)
    requires Oplog(src, es, log) && ValidLog(log, t) && Fits(cfg, log, t)
    requires |seen| <= |log| && c <= |seen| && forall i :: 0 <= i < |seen| ==> i < seen[i] <= |log|
    requires Scanned(es, log, t, w, from, 0, st)
    ensures Scanned(es, log, t, w, from, c, Scan(cfg, src, es[..c], Reads(seen, log, t)[..c], st))
  {
    hide ValidLog, Fits, Rereading, Scanned;
    if c > 0 {
      ScannedAll(cfg, src, es, log, t, seen, w, from, c - 1, st);
      var answers := Reads(seen, log, t);
      assert es[..c][..c - 1] == es[..c - 1] && answers[..c][..c - 1] == answers[..c - 1];
      ScannedStep(cfg, src, es, log, t, w, from, c - 1, seen[c - 1],
                  Scan(cfg, src, es[..c - 1], answers[..c - 1], st));
    }
  }

  /** The collection's entries number `a` to `b` were all handled, wherever they stand
      in the shared log. */
  ghost predicate AllHandled(src: Source, all: seq<Entry>, handled: set<nat>, a: nat, b: nat) {
    forall i :: 0 <= i < |all| && all[i].ns == src.ns && a <= Before(src, all, i) < b ==> i in handled
  }

  /** Between connections: whatever the watermark, the index is fit to go on from
      the collection's first entry it lets through, and everything earlier (from
      number `from` on) has been handled. */
  ghost predicate Resumable(src: Source, all: seq<Entry>, log: seq<Command>, t: Contents, from: nat, st: State) {
    var f := First(Ours(src, all), st.watermark);
    && st.index.Keys <= t.Keys + NewKeys(log)
    && Rereading(log, t, f, st.index)
    && AllHandled(src, all, st.handled, from, f)
  }

  /** An entry's own time never lets a later entry be the first. */
  lemma FirstOfTime(es: seq<Entry>, c: nat)
    requires c < |es|
    ensures First(es, es[c].time) <= c
  {
  }

  /** One connection over the collection's own entries: where a scan gets to. */
  lemma OwnScan(cfg: Config, src: Source, es: seq<Entry>, log: seq<Command>, t: Contents,
                seen: seq<nat>, from: nat, own: Session)
    requires Oplog(src, es, log) && ValidLog(log, t) && Fits(cfg, log, t)
    requires |seen| <= |log| && forall i :: 0 <= i < |seen| ==> i < seen[i] <= |log|
    requires own.opLogTime == 0 && Scanned(es, log, t, own.watermark, from, 0, own)
    ensures Scanned(es, log, t, own.watermark, from, |seen|,
                    Scan(cfg, src, es[..|seen|], Reads(seen, log, t), own))
  {
    hide Scanned, Scan;
    var answers := Reads(seen, log, t);
    assert es[..0] == [] && answers[..|seen|] == answers;
    ScannedAll(cfg, src, es, log, t, seen, own.watermark, from, |seen|, own);
  }

  function Numbers(a: nat, b: nat): (r: set<nat>)
    ensures forall i :: i in r <==> a <= i < b
    decreases b - a
  {
    if a >= b then {} else {a} + Numbers(a + 1, b)
  }

  lemma ScanNone(cfg: Config, src: Source, st: Session)
    ensures Scan(cfg, src, [], [], st) == st
  {
  }

  /** The scan of a turn, and the same scan over the collection's own entries. */
  lemma TurnScans(cfg: Config, src: Source, all: seq<Entry>, log: seq<Command>, t: Contents,
                  turn: Turn, from: nat, st: State, own: Session) returns (own': Session)
    requires Possible(turn, src, all, log)
    requires own == Session(0, st.watermark, st.index, Numbers(from, First(Ours(src, all), st.watermark)))
    requires AllHandled(src, all, st.handled, from, First(Ours(src, all), st.watermark))
    ensures |turn.seen| <= |Ours(src, all)|
    ensures own' == Scan(cfg, src, Ours(src, all)[..|turn.seen|], Reads(turn.seen, log, t), own)
    ensures var st' := RunTurn(cfg, src, all, log, t, turn, st);
            && st'.index == own'.index && Matches(src, all, st'.handled, own'.handled)
            && (!(turn.torn && all[turn.count].ns == src.ns) ==> st'.watermark == own'.opLogTime)
  {
    hide Scan, Reads, ReadFor, Spread, OurAnswers, First, Before;
    var es, c := all[..turn.count], |turn.seen|;
    OursGrows(src, all, turn.count, |all|);
    assert all[..|all|] == all && Ours(src, all)[..c] == Ours(src, es);
    SpreadBack(src, es, Reads(turn.seen, log, t));
    var s0 := Session(0, st.watermark, st.index, st.handled);
    OtherCollectionsIgnored(cfg, src, all, Spread(src, es, Reads(turn.seen, log, t)), turn.count, s0, own);
    own' := Scan(cfg, src, Ours(src, es), Reads(turn.seen, log, t), own);
  }

  lemma MatchedIsHandled(src: Source, all: seq<Entry>, handled: set<nat>, own: set<nat>, a: nat, b: nat)
    requires Matches(src, all, handled, own) && HandledFrom(own, a, b)
    ensures AllHandled(src, all, handled, a, b)
  {
  }

  lemma HandledLess(src: Source, all: seq<Entry>, handled: set<nat>, a: nat, b: nat, less: nat)
    requires AllHandled(src, all, handled, a, b) && less <= b
    ensures AllHandled(src, all, handled, a, less)
  {
  }

  /** One connection, exception and all, leaves the listener resumable - even
      though the exception may move the watermark backwards, and whatever other
      collections have in the log. At its end the index has caught up with
      everything read, and nothing read went unhandled. */
  lemma TurnResumable(cfg: Config, src: Source, all: seq<Entry>, log: seq<Command>, t: Contents,
                      turn: Turn, from: nat, st: State)
    requires Oplog(src, Ours(src, all), log) && ValidLog(log, t) && Fits(cfg, log, t)
    requires Possible(turn, src, all, log) && Causal(turn) && Resumable(src, all, log, t, from, st)
    ensures var st' := RunTurn(cfg, src, all, log, t, turn, st);
            && Resumable(src, all, log, t, from, st')
            && Rereading(log, t, |turn.seen|, st'.index)
            && AllHandled(src, all, st'.handled, from, |turn.seen|)
  {
    hide ValidLog, Fits, Rereading, Scan, Describes, NewKeys, First, Reads, Ours, RunTurn, AllHandled, Matches;
    var es, c, w := Ours(src, all), |turn.seen|, st.watermark;
    var own := Session(0, w, st.index, Numbers(from, First(es, w)));
    var own' := TurnScans(cfg, src, all, log, t, turn, from, st, own);
    OwnScan(cfg, src, es, log, t, turn.seen, from, own);
    var st' := RunTurn(cfg, src, all, log, t, turn, st);
    var front, w' := Later(c, First(es, w)), st'.watermark;
    assert First(es, w') <= front by {
      if turn.torn && all[turn.count].ns == src.ns {
        TornTime(cfg, src, all, log, t, turn, st);
        FirstOfTime(es, c);
      } else if c > 0 {
        FirstOfTime(es, c - 1);
      }
    }
    RereadBack(log, t, front, First(es, w'), st'.index);
    RereadBack(log, t, front, c, st'.index);
    MatchedIsHandled(src, all, st'.handled, own'.handled, from, front);
    HandledLess(src, all, st'.handled, from, front, First(es, w'));
    HandledLess(src, all, st'.handled, from, front, c);
  }

  lemma TornTime(cfg: Config, src: Source, all: seq<Entry>, log: seq<Command>, t: Contents, turn: Turn, st: State)
    requires Possible(turn, src, all, log) && turn.torn && all[turn.count].ns == src.ns
    ensures |turn.seen| < |Ours(src, all)|
    ensures RunTurn(cfg, src, all, log, t, turn, st).watermark == Ours(src, all)[|turn.seen|].time
  {
    OursAt(src, all, turn.count);
  }

  predicate AllPossible(turns: seq<Turn>, src: Source, all: seq<Entry>, log: seq<Command>) {
    forall i :: 0 <= i < |turns| ==> Possible(turns[i], src, all, log)
  }

  ghost predicate AllCausal(turns: seq<Turn>) {
    forall i :: 0 <= i < |turns| ==> Causal(turns[i])
  }

  function Run(cfg: Config, src: Source, all: seq<Entry>, log: seq<Command>, t: Contents, turns: seq<Turn>,
               st: State): State
    requires AllPossible(turns, src, all, log)
  {
    if turns == [] then st
    else RunTurn(cfg, src, all, log, t, turns[|turns| - 1],
                 Run(cfg, src, all, log, t, turns[..|turns| - 1], st))
  }

  lemma {:induction false} RunResumable(cfg: Config, src: Source, all: seq<Entry>, log: seq<Command>, t: Contents,
                                        turns: seq<Turn>, from: nat, st: State)
    requires Oplog(src, Ours(src, all), log) && ValidLog(log, t) && Fits(cfg, log, t)
    requires AllPossible(turns, src, all, log) && AllCausal(turns)
    requires Resumable(src, all, log, t, from, st)
    ensures Resumable(src, all, log, t, from, Run(cfg, src, all, log, t, turns, st))
    ensures turns != [] ==>
              var st', last := Run(cfg, src, all, log, t, turns, st), turns[|turns| - 1];
              Rereading(log, t, |last.seen|, st'.index) && AllHandled(src, all, st'.handled, from, |last.seen|)
  {
    hide Oplog, ValidLog, Fits, Rereading, Resumable, RunTurn, Possible, Causal, AllHandled;
    if turns != [] {
      var front := turns[..|turns| - 1];
      RunResumable(cfg, src, all, log, t, front, from, st);
      TurnResumable(cfg, src, all, log, t, turns[|turns| - 1], from, Run(cfg, src, all, log, t, front, st));
    }
  }

  /** Convergence, over the log that all collections of the server share. Start with
      the index equal to the collection after `b` changes and a watermark no later
      than change `b`. After any number of connections ended by exceptions, while
      the collection keeps changing, one connection that reads to the end of the
      log leaves the index equal to the collection, and every entry of the
      collection from the starting watermark on was handled. */
  lemma RunConverges(cfg: Config, src: Source, all: seq<Entry>, log: seq<Command>, t: Contents,
                     turns: seq<Turn>, b: nat, w: nat)
    requires Oplog(src, Ours(src, all), log) && ValidLog(log, t) && Fits(cfg, log, t)
    requires AllPossible(turns, src, all, log) && AllCausal(turns)
    requires b <= |log| && First(Ours(src, all), w) <= b
    requires turns != [] && turns[|turns| - 1].count == |all|
    ensures var st := Run(cfg, src, all, log, t, turns, State(w, Table(log, b, t), {}));
            && st.index == SourceAll(log, t)
            && forall i :: 0 <= i < |all| && all[i].ns == src.ns && all[i].time >= w ==> i in st.handled
  {
    hide ValidLog, Fits, Rereading, NewKeys, Table, First, Run;
    var es, st0, last := Ours(src, all), State(w, Table(log, b, t), {}), turns[|turns| - 1];
    TableFits(cfg, log, t, b);
    TableRereading(log, t, b);
    RereadBack(log, t, b, First(es, w), Table(log, b, t));
    RunResumable(cfg, src, all, log, t, turns, First(es, w), st0);
    assert all[..|all|] == all && Possible(last, src, all, log) && |last.seen| == |log|;
    var st := Run(cfg, src, all, log, t, turns, st0);
    RereadDone(log, t, st.index);
    TableEnds(log, t);
    forall i | 0 <= i < |all| && all[i].ns == src.ns && all[i].time >= w ensures i in st.handled {
      OursAt(src, all, i);
    }
  }

  // ---------------------------------------------------------------- the connector

  class MongoDBConnector {
    const server: ServerInterface
    const src: Source
    var lastAccessedLogRecordTime: nat

    constructor (server: ServerInterface, src: Source, time: nat)
      ensures this.server == server && this.src == src && lastAccessedLogRecordTime == time
    {
      this.server, this.src, lastAccessedLogRecordTime := server, src, time;
    }

    method ParseOpLogObject(e: Entry, read: Read)
      requires server.Valid()
      modifies server.indexer
      ensures server.Valid()
      ensures server.Contents() == Process(server.cfg, src.uniqueKey, e, read, old(server.Contents()))
    {
      match KindOf(e.op) {
        case Inserted =>
          var _ := server.InsertRecord(InsertPayload(src.uniqueKey, e));
        case Deleted =>
          if e.o.NotAnObject? {
            return;
          }
          var _ := server.DeleteRecord(KeyOf(src.uniqueKey, e.o.doc));
        case Updated =>
          if e.o2.NotAnObject? {
            return;
          }
          if read.NoDocument? || read.ErrorDocument? {
            return;
          }
          var _ := server.UpdateRecord(KeyOf(src.uniqueKey, e.o2.doc), Parsed(read.rec));
        case Other =>
      }
    }

    /** One connection: the entries the tailing cursor yields before an exception.
        `torn` is an entry whose processing is what threw. */
    method TailOplog(es: seq<Entry>, answers: seq<Read>, torn: Option<Entry>, ghost handled: set<nat>)
      returns (ghost handled': set<nat>)
      requires server.Valid() && |answers| == |es|
      modifies this, server.indexer
      ensures server.Valid()
      ensures var st := Scan(server.cfg, src, es, answers,
                             Session(0, old(lastAccessedLogRecordTime), old(server.Contents()), handled));
              && server.Contents() == st.index && handled' == st.handled
              && lastAccessedLogRecordTime ==
                   if torn.Some? && torn.value.ns == src.ns then torn.value.time else st.opLogTime
    {
      hide Process, Scan, ServerInterface.Valid, ServerInterface.Contents;
      var opLogTime: nat := 0;
      handled' := handled;
      ghost var st := Session(0, lastAccessedLogRecordTime, server.Contents(), handled);
      ScanNone(server.cfg, src, st);
      var i := 0;
      while i < |es|
        invariant 0 <= i <= |es| && server.Valid()
        invariant Scan(server.cfg, src, es[..i], answers[..i], st)
               == Session(opLogTime, lastAccessedLogRecordTime, server.Contents(), handled')
      {
        ScanStep(server.cfg, src, es, answers, st, i);
        var e := es[i];
        if e.ns == src.ns {
          opLogTime := e.time;
          if opLogTime >= lastAccessedLogRecordTime {
            ParseOpLogObject(e, answers[i]);
            lastAccessedLogRecordTime := opLogTime;
            handled' := handled' + {i};
          }
        }
        i := i + 1;
      }
      assert es[..|es|] == es && answers[..|es|] == answers;
      if torn.Some? && torn.value.ns == src.ns {
        opLogTime := torn.value.time;
      }
      lastAccessedLogRecordTime := opLogTime;
    }

    /** One connection of a schedule. */
    method TakeTurn(all: seq<Entry>, log: seq<Command>, t: Contents, turn: Turn, ghost handled: set<nat>)
      returns (ghost handled': set<nat>)
      requires server.Valid() && Possible(turn, src, all, log)
      modifies this, server.indexer
      ensures server.Valid()
      ensures State(lastAccessedLogRecordTime, server.Contents(), handled')
           == RunTurn(server.cfg, src, all, log, t, turn,
                      State(old(lastAccessedLogRecordTime), old(server.Contents()), handled))
    {
      hide Scan, Reads, Spread, Table, ServerInterface.Valid, ServerInterface.Contents;
      var es := all[..turn.count];
      handled' := TailOplog(es, Spread(src, es, Reads(turn.seen, log, t)),
                            if turn.torn then Some(all[turn.count]) else None, handled);
    }

    /** The reconnecting loop, over a finite schedule of connections. */
    method RunListener(all: seq<Entry>, log: seq<Command>, t: Contents, turns: seq<Turn>)
      requires server.Valid() && AllPossible(turns, src, all, log)
      modifies this, server.indexer
      ensures server.Valid()
      ensures var st0 := State(old(lastAccessedLogRecordTime), old(server.Contents()), {});
              var st := Run(server.cfg, src, all, log, t, turns, st0);
              lastAccessedLogRecordTime == st.watermark && server.Contents() == st.index
    {
      hide RunTurn, ServerInterface.Valid, ServerInterface.Contents;
      ghost var st0 := State(lastAccessedLogRecordTime, server.Contents(), {});
      ghost var handled: set<nat> := {};
      var i := 0;
      while i < |turns|
        invariant 0 <= i <= |turns| && server.Valid()
        invariant Run(server.cfg, src, all, log, t, turns[..i], st0)
               == State(lastAccessedLogRecordTime, server.Contents(), handled)
      {
        assert turns[..i + 1][..i] == turns[..i];
        handled := TakeTurn(all, log, t, turns[i], handled);
        i := i + 1;
      }
      assert turns[..|turns|] == turns;
    }
  }
}
