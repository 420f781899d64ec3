/** The engine side: the forward index behind the key map, and the adapter the
    connectors call. */
module Server {
  import opened Wrappers
  import opened Index

  /** The key map and the records agree: every live key points at a record of its
      own that is not flagged as deleted. */
  ghost predicate Consistent(ids: map<Key, nat>, records: seq<Record>, deleted: set<nat>) {
    && (forall k :: k in ids ==>
          ids[k] < |records| && ids[k] !in deleted && records[ids[k]].key == k)
    && (forall d :: d in deleted ==> d < |records|)
  }

  /** `s` is what can be found by key; `nameless` counts the documents with an empty
      key, which no lookup finds. */
  ghost predicate Represents(ids: map<Key, nat>, records: seq<Record>, deleted: set<nat>, docs: nat,
                             s: Contents, nameless: nat)
  {
    Consistent(ids, records, deleted) && s == View(ids, records) && docs == |s| + nameless
  }

  ghost function View(ids: map<Key, nat>, records: seq<Record>): (s: Contents)
    requires forall k :: k in ids ==> ids[k] < |records|
    ensures s.Keys == ids.Keys - {""}
  {
    map k | k in ids && k != "" :: records[ids[k]].body
  }

  lemma SameKeys(ids: map<Key, nat>, records: seq<Record>, deleted: set<nat>, docs: nat, s: Contents,
                 nameless: nat, k: Key)
    requires Represents(ids, records, deleted, docs, s, nameless)
    ensures k != "" && k in ids <==> k in s
    ensures docs == |s| + nameless
  {
  }

  lemma RepresentsAdd(ids: map<Key, nat>, records: seq<Record>, deleted: set<nat>, s: Contents, nameless: nat,
                      r: Record)
    requires Represents(ids, records, deleted, |s| + nameless, s, nameless)
    requires r.key != "" && r.key !in ids
    ensures Represents(ids[r.key := |records|], records + [r], deleted,
                       |s| + 1 + nameless, s[r.key := r.body], nameless)
  {
    AddCount(s, r.key, r.body);
    assert forall k :: k in ids ==> (records + [r])[ids[k]] == records[ids[k]];
  }

  lemma RepresentsNameless(ids: map<Key, nat>, records: seq<Record>, deleted: set<nat>, s: Contents, nameless: nat,
                           r: Record)
    requires Represents(ids, records, deleted, |s| + nameless, s, nameless)
    requires r.key == ""
    ensures Represents(ids[r.key := |records|], records + [r], deleted, |s| + nameless + 1, s, nameless + 1)
  {
    assert forall k :: k in ids ==> (records + [r])[ids[k]] == records[ids[k]];
    assert View(ids[r.key := |records|], records + [r]) == s;
  }

  lemma ConsistentLess(ids: map<Key, nat>, records: seq<Record>, deleted: set<nat>, k: Key)
    requires Consistent(ids, records, deleted) && k in ids
    ensures Consistent(ids - {k}, records, deleted + {ids[k]})
  {
    forall k' | k' in ids && k' != k ensures ids[k'] != ids[k] { assert records[ids[k']].key == k'; }
  }

  lemma ConsistentMore(ids: map<Key, nat>, records: seq<Record>, deleted: set<nat>, k: Key, id: nat)
    requires Consistent(ids, records, deleted) && k !in ids
    requires id < |records| && records[id].key == k
    ensures Consistent(ids[k := id], records, deleted - {id})
  {
  }

  lemma ViewOfLess(ids: map<Key, nat>, records: seq<Record>, k: Key)
    requires forall k' :: k' in ids ==> ids[k'] < |records|
    ensures View(ids - {k}, records) == View(ids, records) - {k}
  {
  }

  lemma ViewOfMore(ids: map<Key, nat>, records: seq<Record>, k: Key, id: nat)
    requires forall k' :: k' in ids ==> ids[k'] < |records|
    requires k != "" && id < |records|
    ensures View(ids[k := id], records) == View(ids, records)[k := records[id].body]
  {
  }

  lemma RepresentsDelete(ids: map<Key, nat>, records: seq<Record>, deleted: set<nat>, s: Contents, nameless: nat,
                         k: Key)
    requires Represents(ids, records, deleted, |s| + nameless, s, nameless) && k in ids && k != ""
    ensures k in s && ids[k] < |records| && records[ids[k]] == Record(k, s[k])
    ensures |s - {k}| == |s| - 1
    ensures Represents(ids - {k}, records, deleted + {ids[k]}, |s - {k}| + nameless, s - {k}, nameless)
  {
    assert records[ids[k]] == Record(k, s[k]);
    RemoveCount(s, k);
    ViewOfLess(ids, records, k);
    ConsistentLess(ids, records, deleted, k);
    hide View, Consistent;
  }

  lemma RepresentsRecover(ids: map<Key, nat>, records: seq<Record>, deleted: set<nat>, s: Contents, nameless: nat,
                          k: Key, id: nat)
    requires Represents(ids, records, deleted, |s| + nameless, s, nameless) && k !in ids && k != ""
    requires id < |records| && records[id].key == k
    ensures Represents(ids[k := id], records, deleted - {id}, |s| + nameless + 1, s[k := records[id].body], nameless)
  {
    AddCount(s, k, records[id].body);
    ViewOfMore(ids, records, k, id);
    ConsistentMore(ids, records, deleted, k, id);
    hide View, Consistent;
  }

  /** Internal ids are positions in an append-only list of records; a delete only
      clears the id's flag and forgets the key, so a deleted record can come back. */
  class Indexer {
    var ids: map<Key, nat>        // primary key to internal id
    var records: seq<Record>      // internal id to record, deleted ones included
    var deleted: set<nat>         // internal ids flagged as deleted
    var docs: nat                 // number of documents
    ghost var contents: Contents  // the records under a key
    ghost var nameless: nat       // the number of records with an empty key

    ghost predicate Valid()
      reads this
    {
      Represents(ids, records, deleted, docs, contents, nameless)
    }

    constructor ()
      ensures Valid() && contents == map[] && nameless == 0
    {
      ids, records, deleted, docs, contents, nameless := map[], [], {}, 0, map[], 0;
    }

    /** The lookup by key; it never finds the empty key. */
    predicate Found(k: Key)
      reads this
    {
      k != "" && k in ids
    }

    /** A record with an empty key is always let in, and never found again. */
    method AddRecord(r: Record) returns (ok: bool)
      requires Valid()
      modifies this
      ensures Valid()
      ensures ok == (r.key !in old(contents))
      ensures contents == if ok && r.key != "" then old(contents)[r.key := r.body] else old(contents)
      ensures nameless == if r.key == "" then old(nameless) + 1 else old(nameless)
    {
      hide Represents;
      SameKeys(ids, records, deleted, docs, contents, nameless, r.key);
      if Found(r.key) {
        return false;
      }
      var id := |records|;
      if r.key == "" {
        RepresentsNameless(ids, records, deleted, contents, nameless, r);
        nameless := nameless + 1;
      } else {
        RepresentsAdd(ids, records, deleted, contents, nameless, r);
        contents := contents[r.key := r.body];
      }
      docs := docs + 1;
      ids := ids[r.key := id];
      records := records + [r];
      ok := true;
    }

    method DeleteRecordGetInternalId(k: Key) returns (ok: bool, id: nat)
      requires Valid()
      modifies this
      ensures Valid() && records == old(records) && nameless == old(nameless)
      ensures ok == (k in old(contents))
      ensures contents == if ok then old(contents) - {k} else old(contents)
      ensures ok ==> id < |records| && records[id] == Record(k, old(contents)[k])
    {
      hide Represents;
      SameKeys(ids, records, deleted, docs, contents, nameless, k);
      if !Found(k) {
        return false, 0;
      }
      id := ids[k];
      RepresentsDelete(ids, records, deleted, contents, nameless, k);
      deleted := deleted + {id};
      ids := ids - {k};
      docs := docs - 1;
      contents := contents - {k};
      ok := true;
    }

    /** Undoes a delete of `k`, given the internal id the delete answered. */
    method RecoverRecord(k: Key, id: nat) returns (ok: bool)
      requires Valid()
      requires k != "" && id < |records| && records[id].key == k
      modifies this
      ensures Valid() && records == old(records) && nameless == old(nameless)
      ensures ok == (k !in old(contents))
      ensures contents == if ok then old(contents)[k := old(records)[id].body] else old(contents)
    {
      hide Represents;
      SameKeys(ids, records, deleted, docs, contents, nameless, k);
      if Found(k) {
        return false;
      }
      RepresentsRecover(ids, records, deleted, contents, nameless, k, id);
      deleted := deleted - {id};
      ids := ids[k := id];
      docs := docs + 1;
      contents := contents[k := records[id].body];
      ok := true;
    }
  }

  lemma CountsDocs(indexer: Indexer)
    requires indexer.Valid()
    ensures indexer.docs == |indexer.contents| + indexer.nameless
  {
  }

  lemma RestoreKey(s: Contents, k: Key)
    requires k in s
    ensures (s - {k})[k := s[k]] == s
  {
  }

  class ServerInterface {
    const indexer: Indexer
    const cfg: Config

    constructor (indexer: Indexer, cfg: Config)
      ensures this.indexer == indexer && this.cfg == cfg
    {
      this.indexer, this.cfg := indexer, cfg;
    }

    /** The schema lets no record without a key through. */
    ghost predicate Valid()
      reads this, indexer
    {
      indexer.Valid() && indexer.nameless == 0
    }

    ghost function Contents(): Contents
      reads this, indexer
    {
      indexer.contents
    }

    method InsertCommand(r: Record) returns (ok: bool)
      requires Valid()
      modifies indexer
      ensures Valid()
      ensures ok == Insertable(cfg, old(Contents()), r)
      ensures Contents() == Put(cfg, old(Contents()), r)
    {
      if !cfg.accepts(r) {
        return false;
      }
      if indexer.docs < cfg.limit {
        ok := indexer.AddRecord(r);
      } else {
        ok := false;
      }
    }

    method InsertRecord(p: Payload) returns (ok: bool)
      requires Valid()
      modifies indexer
      ensures Valid()
      ensures Reply(Contents(), ok) == InsertReply(cfg, old(Contents()), p)
    {
      if p.Unparsable? {
        return false;
      }
      ok := InsertCommand(p.rec);
    }

    method DeleteRecord(k: Key) returns (ok: bool)
      requires Valid()
      modifies indexer
      ensures Valid()
      ensures Reply(Contents(), ok) == DeleteReply(old(Contents()), k)
    {
      ok := false;
      if |k| > 0 {
        var id;
        ok, id := indexer.DeleteRecordGetInternalId(k);
      }
    }

    /** The second half of an update: `k` has just been deleted from `s`, under the
        internal id `id`. Insert the new record, or bring the old one back. */
    method ReplaceDeleted(k: Key, id: nat, r: Record, ghost s: map<Key, Fields>)
      requires Valid() && k != "" && k in s && Contents() == s - {k}
      requires id < |indexer.records| && indexer.records[id] == Record(k, s[k])
      modifies indexer
      ensures Valid()
      ensures Contents() == if |s - {k}| < cfg.limit then Put(cfg, s - {k}, r) else s
    {
      hide Represents;
      CountsDocs(indexer);
      if indexer.docs < cfg.limit {
        var _ := InsertCommand(r);
      } else {
        var _ := indexer.RecoverRecord(k, id);
        RestoreKey(s, k);
      }
    }

    method UpdateRecord(k: Key, p: Payload) returns (ok: bool)
      requires Valid()
      modifies indexer
      ensures Valid()
      ensures Reply(Contents(), ok) == UpdateReply(cfg, old(Contents()), k, p)
    {
      if p.Unparsable? {
        return false;
      }
      hide Represents, Insertable;
      ghost var s := Contents();
      if |k| > 0 {
        var found, id := indexer.DeleteRecordGetInternalId(k);
        if !found {
          return false;
        }
        ReplaceDeleted(k, id, p.rec, s);
      }
      ok := true;
    }
  }
}
