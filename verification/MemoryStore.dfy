/** The in-memory store: the atomic meaning of ingest. */
module MemoryStore {
  import opened Text
  import opened Transactions
  import opened Fingerprints

  /** The stored record, whether it was there already, and whether what was
      submitted differs from it. */
  datatype IngestOutcome = IngestOutcome(tx: Transaction, duplicate: bool, divergent: bool)

  datatype Memory = Memory(byKey: map<Key, Transaction>, fingerprints: map<Key, string>)

  const EMPTY := Memory(map[], map[])

  function Ingest(m: Memory, tx: Transaction): (r: (Memory, IngestOutcome))
    requires m.byKey.Keys == m.fingerprints.Keys
    ensures r.0.byKey.Keys == r.0.fingerprints.Keys
  {
    var key := KeyOfTransaction(tx);
    if key in m.byKey then
      (m, IngestOutcome(m.byKey[key], true, m.fingerprints[key] != Fingerprint(tx)))
    else
      (Memory(m.byKey[key := tx], m.fingerprints[key := Fingerprint(tx)]), IngestOutcome(tx, false, false))
  }

  /** After a call its key holds the record returned, with the first fingerprint, and
      no other key has changed; what was there already stays. */
  lemma IngestKeepsTheFirst(m: Memory, tx: Transaction)
    requires m.byKey.Keys == m.fingerprints.Keys
    ensures var (after, outcome) := Ingest(m, tx);
      var key := KeyOfTransaction(tx);
      && after.byKey.Keys == m.byKey.Keys + {key} && after.byKey[key] == outcome.tx
      && (forall k <- m.byKey :: after.byKey[k] == m.byKey[k] && after.fingerprints[k] == m.fingerprints[k])
      && (outcome.duplicate <==> key in m.byKey) && (!outcome.duplicate ==> outcome.tx == tx)
      && (outcome.divergent <==> after.fingerprints[key] != Fingerprint(tx))
  {
    hide Fingerprint;
  }

  /** The state after a sequence of calls on an empty store. */
  function IngestAll(txs: seq<Transaction>): (m: Memory)
    ensures m.byKey.Keys == m.fingerprints.Keys
  {
    if txs == [] then EMPTY else Ingest(IngestAll(txs[..|txs| - 1]), txs[|txs| - 1]).0
  }

  predicate FirstUnder(txs: seq<Transaction>, key: Key, i: int) {
    && 0 <= i < |txs| && KeyOfTransaction(txs[i]) == key
    && forall j :: 0 <= j < i ==> KeyOfTransaction(txs[j]) != key
  }

  /** Whatever is sent, the record under a key is the first one sent under it. */
  lemma {:induction false} FirstSubmissionWins(txs: seq<Transaction>, key: Key)
    ensures key in IngestAll(txs).byKey <==> exists i :: FirstUnder(txs, key, i)
    ensures forall i :: FirstUnder(txs, key, i) ==>
      IngestAll(txs).byKey[key] == txs[i] && IngestAll(txs).fingerprints[key] == Fingerprint(txs[i])
  {
    hide Fingerprint;
    if txs != [] {
      var n := |txs| - 1;
      var front := txs[..n];
      FirstSubmissionWins(front, key);
      assert forall j :: 0 <= j < n ==> front[j] == txs[j];
      assert forall i :: 0 <= i < n ==> (FirstUnder(txs, key, i) <==> FirstUnder(front, key, i));
      if KeyOfTransaction(txs[n]) == key && !exists i :: FirstUnder(front, key, i) {
        NoFirstNoKey(front, key);
        assert FirstUnder(txs, key, n);
      } else if i :| FirstUnder(front, key, i) {
        assert FirstUnder(txs, key, i);
      }
    }
  }

  lemma {:induction false} NoFirstNoKey(txs: seq<Transaction>, key: Key)
    requires !exists i :: FirstUnder(txs, key, i)
    ensures forall j :: 0 <= j < |txs| ==> KeyOfTransaction(txs[j]) != key
  {
    if txs != [] {
      var front := txs[..|txs| - 1];
      if i :| FirstUnder(front, key, i) {
        assert FirstUnder(txs, key, i);
      }
      NoFirstNoKey(front, key);
      assert forall j :: 0 <= j < |txs| - 1 ==> txs[j] == front[j];
      assert KeyOfTransaction(txs[|txs| - 1]) != key by {
        assert !FirstUnder(txs, key, |txs| - 1);
      }
    }
  }

  /** Sending again changes nothing and returns the stored record. */
  lemma ReplayIsHarmless(m: Memory, tx: Transaction, again: Transaction)
    requires m.byKey.Keys == m.fingerprints.Keys && KeyOfTransaction(again) == KeyOfTransaction(tx)
    ensures var (after, first) := Ingest(m, tx);
      Ingest(after, again).0 == after && Ingest(after, again).1.duplicate && Ingest(after, again).1.tx == first.tx
  {
  }

  class Store {
    var byKey: map<Key, Transaction>
    var fingerprints: map<Key, string>

    ghost predicate Valid()
      reads this
    {
      byKey.Keys == fingerprints.Keys
    }

    ghost function Contents(): Memory
      reads this
    {
      Memory(byKey, fingerprints)
    }

    constructor ()
      ensures Valid() && Contents() == EMPTY
    {
      byKey, fingerprints := map[], map[];
    }

    method IngestOne(tx: Transaction) returns (outcome: IngestOutcome)
      requires Valid()
      modifies this
      ensures Valid()
      ensures (Contents(), outcome) == Ingest(old(Contents()), tx)
    {
      var key := KeyOfTransaction(tx);
      var fingerprint := Fingerprint(tx);
      if key in byKey {
        return IngestOutcome(byKey[key], true, fingerprints[key] != fingerprint);
      }
      byKey := byKey[key := tx];
      fingerprints := fingerprints[key := fingerprint];
      outcome := IngestOutcome(tx, false, false);
    }

    /** The record stored under a key, or nothing. */
    method Get(key: Key) returns (found: Option<Transaction>)
      requires Valid()
      ensures found == if key in Contents().byKey then Some(Contents().byKey[key]) else None
    {
      found := if key in byKey then Some(byKey[key]) else None;
    }
  }
}
