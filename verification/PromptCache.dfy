/** The prompt cache (services/reasoner/src/reasoner/cache.py): a dictionary whose expired entries are deleted
    when they are read. It is keyed here by the text that the source hashes with SHA-256, which amounts to taking
    the hash as injective. The clock may go backwards. */
module PromptCache {
  import opened Text
  import opened PromptKey

  datatype CacheEntry<V> = CacheEntry(value: V, createdAt: real)

  /** What was asked of the cache, in terms of alerts and dictionaries rather than keys. */
  datatype Request<V> =
    | SetRequest(alert: string, evidence: map<string, string>, value: V, at: real)
    | GetRequest(alert: string, evidence: map<string, string>, at: real)
    | ClearRequest

  predicate Expired<V>(e: CacheEntry<V>, now: real, ttl: real) { now - e.createdAt > ttl }

  ghost predicate Concerns<V>(r: Request<V>, alert: string, evidence: map<string, string>) {
    !r.ClearRequest? && r.alert == alert && r.evidence == evidence
  }

  /** The latest entry set since the last clear, whatever was read. */
  ghost function Latest<V>(log: seq<Request<V>>, alert: string, evidence: map<string, string>): Option<CacheEntry<V>> {
    if log == [] then None
    else
      var last, before := log[|log| - 1], log[..|log| - 1];
      if last.ClearRequest? then None
      else if last.SetRequest? && Concerns(last, alert, evidence) then Some(CacheEntry(last.value, last.at))
      else Latest(before, alert, evidence)
  }

  /** The entry that is still held: a read that finds it expired deletes it. */
  ghost function Held<V>(log: seq<Request<V>>, alert: string, evidence: map<string, string>,
                         ttl: real): Option<CacheEntry<V>> {
    if log == [] then None
    else
      var last, before := log[|log| - 1], log[..|log| - 1];
      if last.ClearRequest? then None
      else if !Concerns(last, alert, evidence) then Held(before, alert, evidence, ttl)
      else match last
        case SetRequest(_, _, v, at) => Some(CacheEntry(v, at))
        case GetRequest(_, _, at) =>
          var e := Held(before, alert, evidence, ttl);
          if e.Some? && Expired(e.value, at, ttl) then None else e
  }

  ghost function Fresh<V>(e: Option<CacheEntry<V>>, now: real, ttl: real): Option<V> {
    if e.Some? && !Expired(e.value, now, ttl) then Some(e.value.value) else None
  }

  /** What a read returns. */
  ghost function Answer<V>(log: seq<Request<V>>, alert: string, evidence: map<string, string>, now: real,
                           ttl: real): Option<V> {
    Fresh(Held(log, alert, evidence, ttl), now, ttl)
  }

  /** What a read should return: the latest value, while it is at most ttl old. */
  ghost function Lookup<V>(log: seq<Request<V>>, alert: string, evidence: map<string, string>, now: real,
                           ttl: real): Option<V> {
    Fresh(Latest(log, alert, evidence), now, ttl)
  }

  ghost predicate Tracks<V>(cache: map<string, CacheEntry<V>>, log: seq<Request<V>>, ttl: real, alert: string,
                            items: Items) {
    var key, e := Raw(alert, items), Held(log, alert, ToMap(items), ttl);
    if e.Some? then key in cache && cache[key] == e.value else key !in cache
  }

  class PromptCache<V> {
    const ttl: real
    var cache: map<string, CacheEntry<V>>
    ghost var log: seq<Request<V>>

    ghost predicate Valid()
      reads this
    {
      forall alert, items :: DistinctKeys(items) ==> Tracks(cache, log, ttl, alert, items)
    }

    constructor (ttl: real)
      ensures Valid() && this.ttl == ttl && log == []
    {
      this.ttl := ttl;
      cache, log := map[], [];
    }

    method Get(alert: string, items: Items, now: real) returns (r: Option<V>)
      requires Valid() && DistinctKeys(items)
      modifies this`cache, this`log
      ensures Valid() && log == old(log) + [GetRequest(alert, ToMap(items), now)]
      ensures r == Answer(old(log), alert, ToMap(items), now, ttl)
    {
      var key := Raw(alert, items);
      assert Tracks(cache, log, ttl, alert, items);
      r := if key in cache && now - cache[key].createdAt <= ttl then Some(cache[key].value) else None;
      if key in cache && now - cache[key].createdAt > ttl {
        cache := cache - {key};
      }
      log := log + [GetRequest(alert, ToMap(items), now)];
      forall a, i | DistinctKeys(i) ensures Tracks(cache, log, ttl, a, i) {
        assert Tracks(old(cache), old(log), ttl, a, i);
        RawKeyExact(a, i, alert, items);
        HeldNext(old(log), GetRequest(alert, ToMap(items), now), a, ToMap(i), ttl);
      }
    }

    method Set(alert: string, items: Items, value: V, now: real)
      requires Valid() && DistinctKeys(items)
      modifies this`cache, this`log
      ensures Valid() && log == old(log) + [SetRequest(alert, ToMap(items), value, now)]
    {
      var key := Raw(alert, items);
      cache := cache[key := CacheEntry(value, now)];
      log := log + [SetRequest(alert, ToMap(items), value, now)];
      forall a, i | DistinctKeys(i) ensures Tracks(cache, log, ttl, a, i) {
        assert Tracks(old(cache), old(log), ttl, a, i);
        RawKeyExact(a, i, alert, items);
        HeldNext(old(log), SetRequest(alert, ToMap(items), value, now), a, ToMap(i), ttl);
      }
    }

    method Clear()
      requires Valid()
      modifies this`cache, this`log
      ensures Valid() && log == old(log) + [ClearRequest]
    {
      cache := map[];
      log := log + [ClearRequest];
    }
  }

  lemma HeldNext<V>(log: seq<Request<V>>, r: Request<V>, alert: string, evidence: map<string, string>, ttl: real)
    ensures var before, after := Held(log, alert, evidence, ttl), Held(log + [r], alert, evidence, ttl);
      after == if r.ClearRequest? then None
               else if !Concerns(r, alert, evidence) then before
               else if r.SetRequest? then Some(CacheEntry(r.value, r.at))
               else if before.Some? && Expired(before.value, r.at, ttl) then None
               else before
  {
    assert (log + [r])[..|log|] == log;
  }

  /** What is held was set, under this very alert and evidence. */
  lemma {:induction false} HeldWasSet<V>(log: seq<Request<V>>, alert: string, evidence: map<string, string>, ttl: real)
    ensures var e := Held(log, alert, evidence, ttl);
      e.Some? ==> SetRequest(alert, evidence, e.value.value, e.value.createdAt) in log
  {
    if log == [] {
    } else {
      HeldWasSet(log[..|log| - 1], alert, evidence, ttl);
    }
  }

  // ---------------------------------------------------------------- deletion cannot be observed

  /** Whether a read since the latest set found the entry expired. */
  ghost predicate Evicted<V>(log: seq<Request<V>>, alert: string, evidence: map<string, string>, ttl: real) {
    if log == [] then false
    else
      var last, before := log[|log| - 1], log[..|log| - 1];
      if last.ClearRequest? || (last.SetRequest? && Concerns(last, alert, evidence)) then false
      else if last.GetRequest? && Concerns(last, alert, evidence) then
        Evicted(before, alert, evidence, ttl)
        || (Latest(before, alert, evidence).Some? && Expired(Latest(before, alert, evidence).value, last.at, ttl))
      else Evicted(before, alert, evidence, ttl)
  }

  lemma {:induction false} HeldExact<V>(log: seq<Request<V>>, alert: string, evidence: map<string, string>, ttl: real)
    ensures Held(log, alert, evidence, ttl)
         == if Evicted(log, alert, evidence, ttl) then None else Latest(log, alert, evidence)
  {
    if log == [] {
    } else {
      HeldExact(log[..|log| - 1], alert, evidence, ttl);
    }
  }

  /** For every history and every clock: a read misses a value it should return exactly when an earlier read found
      it expired although it is not expired now. */
  lemma AnswerExact<V>(log: seq<Request<V>>, alert: string, evidence: map<string, string>, now: real, ttl: real)
    ensures Answer(log, alert, evidence, now, ttl) == Lookup(log, alert, evidence, now, ttl)
            <==> !(Evicted(log, alert, evidence, ttl) && Lookup(log, alert, evidence, now, ttl).Some?)
  {
    HeldExact(log, alert, evidence, ttl);
  }

  /** The times of the requests do not decrease, and none is after now. */
  predicate Ordered<V>(log: seq<Request<V>>, now: real) {
    if log == [] then true
    else
      var last, before := log[|log| - 1], log[..|log| - 1];
      if last.ClearRequest? then Ordered(before, now) else last.at <= now && Ordered(before, last.at)
  }

  lemma {:induction false} EvictedIsExpired<V>(log: seq<Request<V>>, alert: string, evidence: map<string, string>,
                                               now: real, ttl: real)
    requires Ordered(log, now) && Evicted(log, alert, evidence, ttl)
    ensures Latest(log, alert, evidence).Some? ==> Expired(Latest(log, alert, evidence).value, now, ttl)
  {
    var last, before := log[|log| - 1], log[..|log| - 1];
    if Evicted(before, alert, evidence, ttl) { EvictedIsExpired(before, alert, evidence, last.at, ttl); }
  }

  /** With a clock that does not go backwards a read returns the latest value set since the last clear exactly
      while it is at most ttl old: deleting expired entries cannot be observed. */
  lemma EvictionUnobserved<V>(log: seq<Request<V>>, alert: string, evidence: map<string, string>, now: real, ttl: real)
    requires Ordered(log, now)
    ensures Answer(log, alert, evidence, now, ttl) == Lookup(log, alert, evidence, now, ttl)
  {
    AnswerExact(log, alert, evidence, now, ttl);
    if Evicted(log, alert, evidence, ttl) { EvictedIsExpired(log, alert, evidence, now, ttl); }
  }

  /** No request in more sets this key or clears. */
  ghost predicate Leaves<V>(more: seq<Request<V>>, alert: string, evidence: map<string, string>) {
    forall r <- more :: !r.ClearRequest? && !(r.SetRequest? && Concerns(r, alert, evidence))
  }

  /** No read of this key in more came later than ttl after at. */
  ghost predicate InTime<V>(more: seq<Request<V>>, alert: string, evidence: map<string, string>, at: real, ttl: real) {
    forall r <- more :: r.GetRequest? && Concerns(r, alert, evidence) ==> r.at - at <= ttl
  }

  lemma {:induction false} HeldAfterSet<V>(log: seq<Request<V>>, e: CacheEntry<V>, more: seq<Request<V>>,
                                           alert: string, evidence: map<string, string>, ttl: real)
    requires Leaves(more, alert, evidence)
    ensures Held((log + [SetRequest(alert, evidence, e.value, e.createdAt)]) + more, alert, evidence, ttl)
         == if InTime(more, alert, evidence, e.createdAt, ttl) then Some(e) else None
    decreases |more|
  {
    var l := log + [SetRequest(alert, evidence, e.value, e.createdAt)];
    if more == [] {
      assert l + more == l;
      HeldNext(log, l[|log|], alert, evidence, ttl);
    } else {
      var n := |more| - 1;
      assert more == more[..n] + [more[n]];
      assert l + more == (l + more[..n]) + [more[n]];
      HeldAfterSet(log, e, more[..n], alert, evidence, ttl);
      HeldNext(l + more[..n], more[n], alert, evidence, ttl);
    }
  }

  /** For every clock: until it is set again or the cache is cleared, a value can be read exactly while it is at most
      ttl old and no earlier read of its key came when it was older. */
  lemma AnswerAfterSet<V>(log: seq<Request<V>>, alert: string, evidence: map<string, string>, value: V,
                          at: real, more: seq<Request<V>>, now: real, ttl: real)
    requires Leaves(more, alert, evidence)
    ensures Answer((log + [SetRequest(alert, evidence, value, at)]) + more, alert, evidence, now, ttl)
         == if now - at <= ttl && InTime(more, alert, evidence, at, ttl) then Some(value) else None
  {
    HeldAfterSet(log, CacheEntry(value, at), more, alert, evidence, ttl);
  }

  /** With a clock that does not go backwards the reads do not matter. */
  lemma AnswerUntilExpired<V>(log: seq<Request<V>>, alert: string, evidence: map<string, string>, value: V,
                              at: real, more: seq<Request<V>>, now: real, ttl: real)
    requires Leaves(more, alert, evidence) && Ordered(more, now)
    ensures Answer((log + [SetRequest(alert, evidence, value, at)]) + more, alert, evidence, now, ttl)
         == if now - at <= ttl then Some(value) else None
  {
    AnswerAfterSet(log, alert, evidence, value, at, more, now, ttl);
    OrderedBound(more, alert, evidence, now);
  }

  lemma {:induction false} OrderedBound<V>(more: seq<Request<V>>, alert: string, evidence: map<string, string>,
                                           now: real)
    requires Leaves(more, alert, evidence) && Ordered(more, now)
    ensures forall r <- more :: !r.ClearRequest? && r.at <= now
  {
    if more == [] {
    } else {
      var n := |more| - 1;
      assert more == more[..n] + [more[n]];
      OrderedBound(more[..n], alert, evidence, more[n].at);
    }
  }

  /** For every clock: after a clear nothing is found under a key until it is set again, whatever else happens. */
  lemma AnswerAfterClear<V>(log: seq<Request<V>>, more: seq<Request<V>>, alert: string,
                            evidence: map<string, string>, now: real, ttl: real)
    requires forall r <- more :: !(r.SetRequest? && Concerns(r, alert, evidence))
    ensures Answer((log + [ClearRequest]) + more, alert, evidence, now, ttl) == None
  {
    HeldAfterClear(log, more, alert, evidence, ttl);
  }

  lemma {:induction false} HeldAfterClear<V>(log: seq<Request<V>>, more: seq<Request<V>>, alert: string,
                                             evidence: map<string, string>, ttl: real)
    requires forall r <- more :: !(r.SetRequest? && Concerns(r, alert, evidence))
    ensures Held((log + [ClearRequest]) + more, alert, evidence, ttl) == None
    decreases |more|
  {
    var l := log + [ClearRequest];
    if more == [] {
      assert l + more == l;
      HeldNext(log, l[|log|], alert, evidence, ttl);
    } else {
      var n := |more| - 1;
      assert more == more[..n] + [more[n]];
      assert l + more == (l + more[..n]) + [more[n]];
      HeldAfterClear(log, more[..n], alert, evidence, ttl);
      HeldNext(l + more[..n], more[n], alert, evidence, ttl);
    }
  }
}
