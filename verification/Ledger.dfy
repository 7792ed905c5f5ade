/** The in-memory hash-chained ledger behind single-modality and orchestrated decisions: a
    growing list and the hash of its last entry. */
module Ledger {
  datatype Entry<E> = Entry(body: E, previousHash: string, eventHash: string)

  /** The digest of an entry's body and stored link, prefixed with the hash before it. */
  type Digest<!E> = (E, string, string) -> string

  function Head<E>(entries: seq<Entry<E>>): string {
    if entries == [] then "" else entries[|entries| - 1].eventHash
  }

  predicate Linked<E>(d: Digest<E>, e: Entry<E>, previous: string) {
    e.previousHash == previous && d(e.body, e.previousHash, previous) == e.eventHash
  }

  predicate Chained<E>(d: Digest<E>, entries: seq<Entry<E>>) {
    entries == [] || (Chained(d, entries[..|entries| - 1]) && Linked(d, entries[|entries| - 1], Head(entries[..|entries| - 1])))
  }

  lemma {:induction false} ChainedUpTo<E>(d: Digest<E>, entries: seq<Entry<E>>, n: nat)
    requires Chained(d, entries) && n <= |entries|
    ensures Chained(d, entries[..n])
    decreases |entries|
  {
    if n < |entries| {
      ChainedUpTo(d, entries[..|entries| - 1], n);
      assert entries[..|entries| - 1][..n] == entries[..n];
    } else {
      assert entries[..n] == entries;
    }
  }

  /** Entry i carries the hash of the one before it, the first one none, and the digest of its
      own body behind that. */
  predicate LinkedOn<E>(d: Digest<E>, entries: seq<Entry<E>>, i: nat)
    requires i < |entries|
  {
    && entries[i].previousHash == (if i == 0 then "" else entries[i - 1].eventHash)
    && entries[i].eventHash == d(entries[i].body, entries[i].previousHash, entries[i].previousHash)
  }

  lemma {:induction false} ChainedIff<E>(d: Digest<E>, entries: seq<Entry<E>>)
    ensures Chained(d, entries) <==> forall i :: 0 <= i < |entries| ==> LinkedOn(d, entries, i)
  {
    if entries != [] {
      var n := |entries| - 1;
      var front := entries[..n];
      ChainedIff(d, front);
      forall i | 0 <= i < n ensures LinkedOn(d, front, i) == LinkedOn(d, entries, i) {
      }
      assert Linked(d, entries[n], Head(front)) == LinkedOn(d, entries, n);
      hide Linked, LinkedOn;
    }
  }

  /** Chained, entry by entry. */
  lemma LinksMean<E>(d: Digest<E>, entries: seq<Entry<E>>)
    ensures Chained(d, entries) <==> forall i :: 0 <= i < |entries| ==>
      && entries[i].previousHash == (if i == 0 then "" else entries[i - 1].eventHash)
      && entries[i].eventHash == d(entries[i].body, entries[i].previousHash, entries[i].previousHash)
  {
    ChainedIff(d, entries);
    if Chained(d, entries) {
      forall i | 0 <= i < |entries|
        ensures entries[i].previousHash == (if i == 0 then "" else entries[i - 1].eventHash)
        ensures entries[i].eventHash == d(entries[i].body, entries[i].previousHash, entries[i].previousHash)
      {
        assert LinkedOn(d, entries, i);
      }
    } else {
      var i :| 0 <= i < |entries| && !LinkedOn(d, entries, i);
      assert !(entries[i].previousHash == (if i == 0 then "" else entries[i - 1].eventHash)
        && entries[i].eventHash == d(entries[i].body, entries[i].previousHash, entries[i].previousHash));
    }
  }

  class Chain<E> {
    const digest: Digest<E>
    var events: seq<Entry<E>>
    var previousHash: string

    ghost predicate Valid()
      reads this
    {
      Chained(digest, events) && previousHash == Head(events)
    }

    constructor (digest: Digest<E>)
      ensures Valid() && events == [] && this.digest == digest
    {
      this.digest, events, previousHash := digest, [], "";
    }

    method Append(body: E) returns (eventHash: string)
      requires Valid()
      modifies this
      ensures Valid() && eventHash == Head(events)
      ensures events == old(events) + [Entry(body, Head(old(events)), eventHash)] && Chained(digest, events)
      ensures eventHash == digest(body, Head(old(events)), Head(old(events)))
    {
      eventHash := digest(body, previousHash, previousHash);
      events := events + [Entry(body, previousHash, eventHash)];
      assert events[..|events| - 1] == old(events);
      previousHash := eventHash;
    }

    /** verify reads the list alone, so it also judges a list somebody changed. */
    method Verify() returns (ok: bool)
      ensures ok <==> Chained(digest, events)
    {
      var previous := "";
      for i := 0 to |events|
        invariant previous == Head(events[..i]) && Chained(digest, events[..i])
      {
        assert events[..i + 1][..i] == events[..i];
        if !Linked(digest, events[i], previous) {
          if Chained(digest, events) {
            ChainedUpTo(digest, events, i + 1);
          }
          return false;
        }
        previous := events[i].eventHash;
      }
      assert events[..|events|] == events;
      return true;
    }
  }

  // ---------------------------------------------------------------- tampering

  /** What the digest was computed of. */
  ghost function Hashed<E>(entries: seq<Entry<E>>): set<(E, string)> {
    set i | 0 <= i < |entries| :: (entries[i].body, entries[i].previousHash)
  }

  /** On these inputs the digest is never empty and never the same twice. */
  ghost predicate NoDigestCollision<E(!new)>(d: Digest<E>, inputs: set<(E, string)>) {
    && (forall x :: x in inputs ==> d(x.0, x.1, x.1) != "")
    && (forall x, y :: x in inputs && y in inputs && d(x.0, x.1, x.1) == d(y.0, y.1, y.1) ==> x == y)
  }

  lemma HashedFront<E>(entries: seq<Entry<E>>)
    requires entries != []
    ensures Hashed(entries) == Hashed(entries[..|entries| - 1]) + {(entries[|entries| - 1].body, entries[|entries| - 1].previousHash)}
  {
    var front, last := entries[..|entries| - 1], entries[|entries| - 1];
    forall x | x in Hashed(entries) ensures x in Hashed(front) || x == (last.body, last.previousHash) {
      var i :| 0 <= i < |entries| && x == (entries[i].body, entries[i].previousHash);
      if i < |front| {
        assert front[i] == entries[i];
      }
    }
    forall x | x in Hashed(front) ensures x in Hashed(entries) {
      var i :| 0 <= i < |front| && x == (front[i].body, front[i].previousHash);
      assert entries[i] == front[i];
    }
  }

  lemma HeadNotEmpty<E(!new)>(d: Digest<E>, entries: seq<Entry<E>>, others: set<(E, string)>)
    requires Chained(d, entries) && (NoDigestCollision(d, Hashed(entries) + others) || NoDigestCollision(d, others + Hashed(entries)))
    ensures entries != [] ==> Head(entries) != ""
  {
    if entries != [] {
      var last := entries[|entries| - 1];
      HashedFront(entries);
      assert (last.body, last.previousHash) in Hashed(entries);
    }
  }

  lemma BothOrNeither<E(!new)>(d: Digest<E>, a: seq<Entry<E>>, b: seq<Entry<E>>)
    requires Chained(d, a) && Chained(d, b) && Head(a) == Head(b) && NoDigestCollision(d, Hashed(a) + Hashed(b))
    ensures a == [] <==> b == []
  {
    hide Hashed, NoDigestCollision, Chained;
    HeadNotEmpty(d, a, Hashed(b));
    HeadNotEmpty(d, b, Hashed(a));
  }

  /** Equal last hashes come from equal last entries. */
  lemma SameLast<E(!new)>(d: Digest<E>, a: seq<Entry<E>>, b: seq<Entry<E>>)
    requires Chained(d, a) && Chained(d, b) && Head(a) == Head(b) && a != [] && b != []
    requires NoDigestCollision(d, Hashed(a) + Hashed(b))
    ensures a[|a| - 1] == b[|b| - 1] && Head(a[..|a| - 1]) == Head(b[..|b| - 1])
  {
    var x, y := a[|a| - 1], b[|b| - 1];
    HashedFront(a);
    HashedFront(b);
    hide Hashed;
    assert (x.body, x.previousHash) in Hashed(a) && (y.body, y.previousHash) in Hashed(b);
  }

  lemma FewerInputs<E(!new)>(d: Digest<E>, a: seq<Entry<E>>, b: seq<Entry<E>>)
    requires a != [] && b != [] && NoDigestCollision(d, Hashed(a) + Hashed(b))
    ensures NoDigestCollision(d, Hashed(a[..|a| - 1]) + Hashed(b[..|b| - 1]))
  {
    HashedFront(a);
    HashedFront(b);
    hide Hashed;
  }

  /** Two ledgers that verify and end in the same hash are the same ledger: changing,
      dropping, inserting or reordering any entry changes the final hash or fails. */
  lemma {:induction false} SameHeadSameLedger<E(!new)>(d: Digest<E>, a: seq<Entry<E>>, b: seq<Entry<E>>)
    requires Chained(d, a) && Chained(d, b) && Head(a) == Head(b)
    requires NoDigestCollision(d, Hashed(a) + Hashed(b))
    ensures a == b
    decreases |a|
  {
    hide Hashed, NoDigestCollision, Linked;
    BothOrNeither(d, a, b);
    if a != [] {
      var front, rest := a[..|a| - 1], b[..|b| - 1];
      assert Chained(d, front) && Chained(d, rest);
      hide Chained, Head;
      SameLast(d, a, b);
      FewerInputs(d, a, b);
      SameHeadSameLedger(d, front, rest);
      assert a == front + [a[|a| - 1]] && b == rest + [b[|b| - 1]];
    }
  }
}
