/** The sliding-window rate limiter: a map from bucket to the times of its recent hits. */
module RateLimit {
  datatype Rule = Rule(limit: nat, windowMs: int)

  const RATE_RULES: map<string, Rule> := map[
    "auth.login" := Rule(10, 60000),
    "v1.capture-sessions" := Rule(60, 60000),
    "v1.verifications" := Rule(120, 60000),
    "v1.enrolments" := Rule(30, 60000)]

  function Filter(list: seq<int>, now: int, windowMs: int): seq<int> {
    if list == [] then []
    else Filter(list[..|list| - 1], now, windowMs) + (if now - list[|list| - 1] < windowMs then [list[|list| - 1]] else [])
  }

  predicate Rising(times: seq<int>) { forall i, j :: 0 <= i <= j < |times| ==> times[i] <= times[j] }

  /** The list a hit leaves behind, had nothing ever been pruned before. */
  function Pruned(history: seq<int>, windowMs: int): seq<int> {
    if history == [] then [] else Filter(history, history[|history| - 1], windowMs)
  }

  /** Pruning in two goes is pruning once, as long as the clock does not go back. */
  lemma {:induction false} FilterTwice(list: seq<int>, before: int, now: int, windowMs: int)
    requires before <= now
    ensures Filter(Filter(list, before, windowMs), now, windowMs) == Filter(list, now, windowMs)
  {
    if list != [] {
      var front, last := list[..|list| - 1], list[|list| - 1];
      FilterTwice(front, before, now, windowMs);
      var kept := Filter(front, before, windowMs);
      if before - last < windowMs {
        assert (kept + [last])[..|kept + [last]| - 1] == kept;
      } else {
        assert kept + [] == kept && now - last >= windowMs;
      }
    }
  }

  lemma FilterAppend(list: seq<int>, now: int, windowMs: int)
    ensures Filter(list + [now], now, windowMs) == Filter(list, now, windowMs) + (if 0 < windowMs then [now] else [])
  {
    assert (list + [now])[..|list|] == list;
  }

  /** One hit keeps the pruned list equal to the recent part of the whole history. */
  lemma HitKeepsPruned(history: seq<int>, now: int, windowMs: int)
    requires windowMs > 0 && (history != [] ==> history[|history| - 1] <= now)
    ensures Filter(Pruned(history, windowMs), now, windowMs) + [now] == Pruned(history + [now], windowMs)
  {
    FilterAppend(history, now, windowMs);
    if history != [] {
      FilterTwice(history, history[|history| - 1], now, windowMs);
    }
  }

  /** A list is the recent part of its bucket's whole history. */
  ghost predicate ListOk(list: seq<int>, history: seq<int>, windowMs: int) {
    Rising(history) && list == Pruned(history, windowMs)
  }

  lemma ListOkAfter(list: seq<int>, history: seq<int>, now: int, windowMs: int)
    requires ListOk(list, history, windowMs) && windowMs > 0 && forall i :: 0 <= i < |history| ==> history[i] <= now
    ensures ListOk(Filter(list, now, windowMs) + [now], history + [now], windowMs)
    ensures Filter(list, now, windowMs) + [now] == Filter(history + [now], now, windowMs)
  {
    HitKeepsPruned(history, now, windowMs);
  }

  /** The pruned list has one entry for every hit less than a window ago, and no other. */
  lemma {:induction false} FilterCounts(list: seq<int>, now: int, windowMs: int)
    ensures |Filter(list, now, windowMs)| == |set i | 0 <= i < |list| && now - list[i] < windowMs|
  {
    if list != [] {
      var n := |list| - 1;
      FilterCounts(list[..n], now, windowMs);
      var front := RecentHits(list[..n], now, windowMs);
      assert RecentHits(list, now, windowMs) == if now - list[n] < windowMs then front + {n} else front;
    }
  }

  function RecentHits(list: seq<int>, now: int, windowMs: int): set<int> {
    set i | 0 <= i < |list| && now - list[i] < windowMs
  }

  class MemoryRateLimitStore {
    ghost const windowOf: string -> int
    ghost var history: map<string, seq<int>>
    var hits: map<string, seq<int>>

    /** Every list is the recent part of its bucket's whole history. */
    ghost predicate Valid()
      reads this
    {
      && (forall b :: windowOf(b) > 0) && history.Keys == hits.Keys
      && (forall b :: b in hits ==> ListOk(hits[b], history[b], windowOf(b)))
    }

    ghost function History(bucket: string): seq<int>
      reads this
    {
      if bucket in history then history[bucket] else []
    }

    constructor (ghost windowOf: string -> int)
      requires forall b :: windowOf(b) > 0
      ensures Valid() && hits == map[] && this.windowOf == windowOf
    {
      this.windowOf, history, hits := windowOf, map[], map[];
    }

    /** hit: the count is the number of hits of the bucket, this one included, less than a
        window ago. */
    method Hit(bucket: string, windowMs: int, now: int) returns (count: nat)
      requires Valid() && windowMs == windowOf(bucket) && forall i :: 0 <= i < |History(bucket)| ==> History(bucket)[i] <= now
      modifies this
      ensures Valid() && History(bucket) == old(History(bucket)) + [now]
      ensures history == old(history)[bucket := History(bucket)]
      ensures hits == old(hits)[bucket := Filter(History(bucket), now, windowMs)]
      ensures count == |Filter(History(bucket), now, windowMs)|
    {
      var kept := if bucket in hits then hits[bucket] else [];
      ListOkAfter(kept, History(bucket), now, windowMs);
      hide ListOk, Filter;
      var list := Filter(kept, now, windowMs);
      list := list + [now];
      hits := hits[bucket := list];
      history := history[bucket := History(bucket) + [now]];
      return |list|;
    }

    /** enforceRateLimit: a name without a rule is always let through and leaves no trace. */
    method Enforce(rule: string, actorKey: string, now: int) returns (admitted: bool)
      requires Valid()
      requires rule in RATE_RULES ==> RATE_RULES[rule].windowMs == windowOf(rule + ":" + actorKey)
      requires forall i :: 0 <= i < |History(rule + ":" + actorKey)| ==> History(rule + ":" + actorKey)[i] <= now
      modifies this
      ensures Valid()
      ensures rule !in RATE_RULES ==> admitted && hits == old(hits)
      ensures rule in RATE_RULES ==>
        var h := History(rule + ":" + actorKey);
        && h == old(History(rule + ":" + actorKey)) + [now]
        && (admitted <==> |set k | 0 <= k < |h| && now - h[k] < RATE_RULES[rule].windowMs| <= RATE_RULES[rule].limit)
    {
      if rule !in RATE_RULES {
        return true;
      }
      var config := RATE_RULES[rule];
      var count := Hit(rule + ":" + actorKey, config.windowMs, now);
      FilterCounts(History(rule + ":" + actorKey), now, config.windowMs);
      assert History(rule + ":" + actorKey)[..|History(rule + ":" + actorKey)|] == History(rule + ":" + actorKey);
      return count <= config.limit;
    }
  }

  // ---------------------------------------------------------------- what a bucket admits

  /** The i-th hit of a history is let through. */
  predicate Admits(times: seq<int>, i: nat, rule: Rule)
    requires i < |times|
  {
    |Filter(times[..i + 1], times[i], rule.windowMs)| <= rule.limit
  }

  /** A hit is let through exactly when the hits less than a window before it, itself
      included, are within the limit. */
  lemma AdmitsIff(times: seq<int>, i: nat, rule: Rule)
    requires i < |times|
    ensures Admits(times, i, rule) <==> |set k | 0 <= k <= i && times[i] - times[k] < rule.windowMs| <= rule.limit
  {
    var list := times[..i + 1];
    FilterCounts(list, times[i], rule.windowMs);
    assert (set k | 0 <= k < |list| && times[i] - list[k] < rule.windowMs) == set k | 0 <= k <= i && times[i] - times[k] < rule.windowMs;
  }

  /** How many of the first n hits fall into [from, from + window) and are let through. */
  function AdmittedIn(times: seq<int>, rule: Rule, from: int, n: nat): nat
    requires n <= |times|
  {
    if n == 0 then 0
    else
      AdmittedIn(times, rule, from, n - 1)
      + (if from <= times[n - 1] < from + rule.windowMs && Admits(times, n - 1, rule) then 1 else 0)
  }

  /** Hits of a window that ends with the latest hit are all still in the list. */
  lemma {:induction false} ListHoldsWindow(times: seq<int>, rule: Rule, from: int, n: nat, now: int)
    requires n <= |times| && now < from + rule.windowMs
    ensures AdmittedIn(times, rule, from, n) <= |Filter(times[..n], now, rule.windowMs)|
  {
    if n > 0 {
      ListHoldsWindow(times, rule, from, n - 1, now);
      assert times[..n][..n - 1] == times[..n - 1];
    }
  }

  lemma {:induction false} AdmittedAreHits(times: seq<int>, rule: Rule, from: int, n: nat)
    requires n <= |times|
    ensures AdmittedIn(times, rule, from, n)
      == |set i | 0 <= i < n && from <= times[i] < from + rule.windowMs && Admits(times, i, rule)|
  {
    if n > 0 {
      AdmittedAreHits(times, rule, from, n - 1);
      var before := set i | 0 <= i < n - 1 && from <= times[i] < from + rule.windowMs && Admits(times, i, rule);
      var all := set i | 0 <= i < n && from <= times[i] < from + rule.windowMs && Admits(times, i, rule);
      assert AdmittedIn(times, rule, from, n) == |before| + (if n - 1 in all then 1 else 0);
      hide *;
      assert all == if n - 1 in all then before + {n - 1} else before;
    }
  }

  /** In any half-open interval of one window's length, wherever it starts, at most limit
      hits are let through. */
  lemma AdmitsAtMostLimit(times: seq<int>, rule: Rule, from: int, n: nat)
    requires n <= |times|
    ensures |set i | 0 <= i < n && from <= times[i] < from + rule.windowMs && Admits(times, i, rule)| <= rule.limit
  {
    AdmittedAtMost(times, rule, from, n);
    AdmittedAreHits(times, rule, from, n);
  }

  lemma {:induction false} AdmittedAtMost(times: seq<int>, rule: Rule, from: int, n: nat)
    requires n <= |times|
    ensures AdmittedIn(times, rule, from, n) <= rule.limit
  {
    if n > 0 {
      AdmittedAtMost(times, rule, from, n - 1);
      if from <= times[n - 1] < from + rule.windowMs && Admits(times, n - 1, rule) {
        ListHoldsWindow(times, rule, from, n, times[n - 1]);
      }
    }
  }
}
