/** The bounded counter map of internal/topsrv/nginx/uricounters.go; counts are unbounded integers. */
module UriCounters {
  import opened Listings

  const URI_IDLE_TTL := 3600
  const URI_SWEEP_INTERVAL := 60

  datatype Counter = Counter(count: nat, lastSeen: int)

  datatype Table<!K> = Table(m: map<K, Counter>, lastSweep: int)

  /** One call of `add`. */
  datatype Hit<K> = Hit(key: K, overflow: K, n: nat, now: int)

  // ----- one call -----

  function Live<K>(m: map<K, Counter>, now: int): map<K, Counter> {
    map k | k in m && now - m[k].lastSeen <= URI_IDLE_TTL :: m[k]
  }

  /** At most one full pass per minute. */
  function Swept<K>(t: Table<K>, now: int): Table<K> {
    if now - t.lastSweep < URI_SWEEP_INTERVAL then t else Table(Live(t.m, now), now)
  }

  function Bumped<K>(m: map<K, Counter>, key: K, n: nat, now: int): map<K, Counter> {
    m[key := Counter((if key in m then m[key].count else 0) + n, now)]
  }

  /** The table in which the hit is counted: swept first when a new key finds it full. */
  function Cleared<K>(t: Table<K>, limit: int, h: Hit<K>): Table<K> {
    if h.key !in t.m && |t.m| >= limit then Swept(t, h.now) else t
  }

  /** The key under which the hit is counted. */
  function Lands<K>(t: Table<K>, limit: int, h: Hit<K>): K {
    if h.key !in t.m && |Cleared(t, limit, h).m| >= limit then h.overflow else h.key
  }

  function Added<K>(t: Table<K>, limit: int, h: Hit<K>): Table<K> {
    var c := Cleared(t, limit, h);
    c.(m := Bumped(c.m, Lands(t, limit, h), h.n, h.now))
  }

  class Counters<K(==)> {
    const limit: int
    var m: map<K, Counter>
    var lastSweep: int

    function Abs(): Table<K>
      reads this
    {
      Table(m, lastSweep)
    }

    constructor (limit: int)
      ensures Abs() == Table(map[], 0) && this.limit == limit
    {
      this.limit := limit;
      m, lastSweep := map[], 0;
    }

    method Add(key: K, overflow: K, n: nat, now: int)
      modifies this
      ensures Abs() == Added(old(Abs()), limit, Hit(key, overflow, n, now))
    {
      if key in m {
        m := m[key := Counter(m[key].count + n, now)];
        return;
      }
      if |m| >= limit {
        Sweep(now);
      }
      var landing := key;
      if |m| >= limit {
        landing := overflow;
      }
      var e := if landing in m then m[landing] else Counter(0, 0);
      m := m[landing := Counter(e.count + n, now)];
    }

    method Sweep(now: int)
      modifies this
      ensures Abs() == Swept(old(Abs()), now)
    {
      if now - lastSweep < URI_SWEEP_INTERVAL {
        return;
      }
      lastSweep := now;
      ghost var before := m;
      var todo := m.Keys;
      while todo != {}
        invariant todo <= m.Keys <= before.Keys && lastSweep == now
        invariant forall k :: k in before && k in todo ==> k in m
        invariant forall k :: k in before && k !in todo ==> (k in m <==> now - before[k].lastSeen <= URI_IDLE_TTL)
        invariant forall k :: k in m ==> m[k] == before[k]
        decreases |todo|
      {
        var k :| k in todo;
        todo := todo - {k};
        if now - m[k].lastSeen > URI_IDLE_TTL {
          m := m - {k};
        }
      }
      assert m == Live(before, now);
    }
  }

  // ----- every run -----

  function After<K>(limit: int, hits: seq<Hit<K>>): Table<K> {
    if hits == [] then Table(map[], 0)
    else Added(After(limit, hits[..|hits| - 1]), limit, hits[|hits| - 1])
  }

  function NotNegative(limit: int): nat {
    if limit < 0 then 0 else limit
  }

  /**
   * A new key enters only below the limit, so at most `limit` keys other than overflow keys are
   * resident, and the overflow keys are all that can come on top.
   */
  lemma {:induction false} SizeBounded<K>(limit: int, hits: seq<Hit<K>>, overflows: set<K>)
    requires forall h :: h in hits ==> h.overflow in overflows
    ensures |After(limit, hits).m.Keys - overflows| <= NotNegative(limit)
    ensures |After(limit, hits).m| <= NotNegative(limit) + |overflows|
  {
    var t := After(limit, hits);
    if hits != [] {
      var init, h := hits[..|hits| - 1], hits[|hits| - 1];
      SizeBounded(limit, init, overflows);
      OrdinaryKeys(After(limit, init), limit, h, overflows);
    }
    Parts(t.m.Keys, overflows);
  }

  lemma Parts<K>(keys: set<K>, overflows: set<K>)
    ensures |keys| <= |keys - overflows| + |overflows|
  {
    SubsetSize(keys, (keys - overflows) + overflows);
  }

  /** Clearing only removes entries, and a known key makes it do nothing. */
  lemma ClearedShrinks<K>(t: Table<K>, limit: int, h: Hit<K>)
    ensures var c := Cleared(t, limit, h);
      && c.m.Keys <= t.m.Keys && (forall k :: k in c.m ==> c.m[k] == t.m[k])
      && (h.key in t.m ==> c == t)
  {
  }

  /** What a call does to a key that is not its overflow key. */
  lemma AddedKey<K>(t: Table<K>, limit: int, h: Hit<K>, key: K)
    requires h.overflow != key
    ensures var c, after := Cleared(t, limit, h), Added(t, limit, h);
      && (key in after.m ==> key in c.m || h.key == key)
      && (key in c.m ==> key in after.m && key in t.m)
      && (key in c.m ==> after.m[key].count == t.m[key].count + if h.key == key then h.n else 0)
      && (key in after.m && key !in c.m ==> after.m[key].count == h.n)
  {
    ClearedShrinks(t, limit, h);
  }

  /** One call keeps the ordinary keys within the limit. */
  lemma OrdinaryKeys<K>(t: Table<K>, limit: int, h: Hit<K>, overflows: set<K>)
    requires h.overflow in overflows && |t.m.Keys - overflows| <= NotNegative(limit)
    ensures |Added(t, limit, h).m.Keys - overflows| <= NotNegative(limit)
  {
    var c, key := Cleared(t, limit, h), Lands(t, limit, h);
    ClearedShrinks(t, limit, h);
    SubsetSize(c.m.Keys - overflows, t.m.Keys - overflows);
    SubsetSize(c.m.Keys - overflows, c.m.Keys);
    assert Added(t, limit, h).m.Keys == c.m.Keys + {key};
    GrowsByOne(c.m.Keys, overflows, key, limit);
  }

  lemma GrowsByOne<K>(keys: set<K>, overflows: set<K>, key: K, limit: int)
    requires |keys - overflows| <= NotNegative(limit)
    requires key in overflows || key in keys || |keys| < limit
    ensures |(keys + {key}) - overflows| <= NotNegative(limit)
  {
    SubsetSize(keys - overflows, keys);
    if key in overflows || key in keys {
      assert (keys + {key}) - overflows == keys - overflows;
    } else {
      assert (keys + {key}) - overflows == (keys - overflows) + {key};
    }
  }

  // ----- what a count means -----

  function AddsOf<K(==)>(hits: seq<Hit<K>>, key: K): nat {
    if hits == [] then 0
    else AddsOf(hits[..|hits| - 1], key) + if hits[|hits| - 1].key == key then hits[|hits| - 1].n else 0
  }

  /** From call `from` on the key has been resident, and it was inserted by that call. */
  ghost predicate ResidentSince<K>(limit: int, hits: seq<Hit<K>>, key: K, from: nat) {
    && from < |hits| && hits[from].key == key && key !in Cleared(After(limit, hits[..from]), limit, hits[from]).m
    && forall j :: from < j <= |hits| ==> key in After(limit, hits[..j]).m
  }

  /** A resident ordinary key holds the sum of all its adds since it was inserted. */
  lemma {:induction false} CountSinceInsertion<K>(limit: int, hits: seq<Hit<K>>, key: K) returns (from: nat)
    requires key in After(limit, hits).m
    requires forall h :: h in hits ==> h.overflow != key
    ensures ResidentSince(limit, hits, key, from)
    ensures After(limit, hits).m[key].count == AddsOf(hits[from..], key)
  {
    var last := |hits| - 1;
    var init, h := hits[..last], hits[last];
    var t := After(limit, init);
    assert h in hits && hits[..last + 1] == hits;
    AddedKey(t, limit, h, key);
    if key in Cleared(t, limit, h).m {
      from := CountSinceInsertion(limit, init, key);
      ResidentStays(limit, hits, key, from);
    } else {
      from := last;
      assert forall j :: from < j <= |hits| ==> hits[..j] == hits;
    }
    AddsOfSuffix(hits, key, from);
  }

  lemma AddsOfSuffix<K>(hits: seq<Hit<K>>, key: K, from: nat)
    requires from < |hits|
    ensures var last := |hits| - 1;
      AddsOf(hits[from..], key)
      == (if from < last then AddsOf(hits[..last][from..], key) else 0) + if hits[last].key == key then hits[last].n else 0
  {
    var last := |hits| - 1;
    assert hits[from..][..last - from] == hits[..last][from..];
  }

  lemma ResidentStays<K>(limit: int, hits: seq<Hit<K>>, key: K, from: nat)
    requires hits != [] && ResidentSince(limit, hits[..|hits| - 1], key, from) && key in After(limit, hits).m
    ensures ResidentSince(limit, hits, key, from)
  {
    var init := hits[..|hits| - 1];
    assert init[..from] == hits[..from] && hits[..|hits|] == hits;
    forall j | from < j < |hits|
      ensures key in After(limit, hits[..j]).m
    {
      assert init[..j] == hits[..j];
    }
  }

  // ----- eviction -----

  ghost predicate Monotone<K>(hits: seq<Hit<K>>) {
    forall i, j :: 0 <= i <= j < |hits| ==> hits[i].now <= hits[j].now
  }

  /** A call does not evict a key stamped within the hour, nor set its stamp back. */
  lemma StampKept<K>(t: Table<K>, limit: int, h: Hit<K>, key: K, at: int)
    requires key in t.m && t.m[key].lastSeen >= at && at <= h.now <= at + URI_IDLE_TTL
    ensures key in Added(t, limit, h).m && Added(t, limit, h).m[key].lastSeen >= at
  {
    assert key in Cleared(t, limit, h).m;
  }

  lemma LandingStamped<K>(t: Table<K>, limit: int, h: Hit<K>)
    ensures var key := Lands(t, limit, h);
      key in Added(t, limit, h).m && Added(t, limit, h).m[key].lastSeen == h.now
  {
  }

  /** A key counted within the last hour is still resident, and its stamp is no older than that hit. */
  lemma {:induction false} RecentlyHitStays<K>(limit: int, hits: seq<Hit<K>>, i: nat)
    requires Monotone(hits) && i < |hits|
    requires hits[|hits| - 1].now - hits[i].now <= 3600
    ensures var key := Lands(After(limit, hits[..i]), limit, hits[i]);
      && key in After(limit, hits).m
      && After(limit, hits).m[key].lastSeen >= hits[i].now
  {
    var last := |hits| - 1;
    var init := hits[..last];
    if i < last {
      assert init[..i] == hits[..i];
      RecentlyHitStays(limit, init, i);
      StampKept(After(limit, init), limit, hits[last], Lands(After(limit, hits[..i]), limit, hits[i]), hits[i].now);
    } else {
      LandingStamped(After(limit, init), limit, hits[last]);
    }
  }

  /** A hit goes to overflow only if the table is full, and a sweep, unless throttled, left only live keys. */
  lemma OverflowOnlyWhenFull<K>(t: Table<K>, limit: int, h: Hit<K>)
    requires Lands(t, limit, h) != h.key
    ensures var c := Cleared(t, limit, h);
      && h.key !in t.m && |c.m| >= limit
      && (h.now - t.lastSweep >= 60 ==> forall k :: k in c.m ==> h.now - c.m[k].lastSeen <= 3600)
  {
  }

  /**
   * Call by call: a key goes if and only if a new key found the table full, the last sweep was a minute
   * or more ago, and the key was idle for more than an hour; a full table that takes the hit under the
   * overflow key keeps that one.
   */
  lemma EvictsIff<K>(t: Table<K>, limit: int, h: Hit<K>, key: K)
    requires key in t.m
    ensures key !in Added(t, limit, h).m
            <==> h.key !in t.m && |t.m| >= limit && h.now - t.lastSweep >= 60 && h.now - t.m[key].lastSeen > 3600
                 && key != Lands(t, limit, h)
  {
  }

  /** Below the limit a hit counts its own key and touches no other. */
  lemma CountsBelowLimit<K>(t: Table<K>, limit: int, h: Hit<K>)
    requires h.key in t.m || |t.m| < limit
    ensures var n := h.n + if h.key in t.m then t.m[h.key].count else 0;
      Added(t, limit, h) == Table(t.m[h.key := Counter(n, h.now)], t.lastSweep)
  {
  }

  ghost function KeysOf<K>(hits: seq<Hit<K>>): set<K> {
    set h | h in hits :: h.key
  }

  /** While a run has no more distinct keys than the limit, every key is resident and counts all its adds. */
  lemma {:induction false} ExactWhileRoom<K>(limit: int, hits: seq<Hit<K>>)
    requires |KeysOf(hits)| <= limit
    ensures After(limit, hits).m.Keys == KeysOf(hits)
    ensures forall key :: key in KeysOf(hits) ==> After(limit, hits).m[key].count == AddsOf(hits, key)
  {
    if hits != [] {
      var init, h := hits[..|hits| - 1], hits[|hits| - 1];
      assert hits == init + [h];
      assert KeysOf(hits) == KeysOf(init) + {h.key};
      SubsetSize(KeysOf(init), KeysOf(hits));
      ExactWhileRoom(limit, init);
      var t := After(limit, init);
      if h.key !in t.m {
        assert KeysOf(hits) - {h.key} == t.m.Keys;
      }
      CountsBelowLimit(t, limit, h);
      forall key | key in KeysOf(hits) && key !in KeysOf(init)
        ensures AddsOf(init, key) == 0
      {
        NoAdds(init, key);
      }
    }
  }

  lemma {:induction false} NoAdds<K>(hits: seq<Hit<K>>, key: K)
    requires key !in KeysOf(hits)
    ensures AddsOf(hits, key) == 0
  {
    if hits != [] {
      var init, h := hits[..|hits| - 1], hits[|hits| - 1];
      assert hits == init + [h];
      assert h in hits && KeysOf(hits) == KeysOf(init) + {h.key};
      NoAdds(init, key);
    }
  }

  /** Sweeps are at least a minute apart, whatever the clock does. */
  lemma {:induction false} SweepsSpaced<K>(limit: int, hits: seq<Hit<K>>, i: nat)
    requires i <= |hits|
    ensures var before, after := After(limit, hits[..i]).lastSweep, After(limit, hits).lastSweep;
      after == before || after >= before + 60
  {
    if i == |hits| {
      assert hits[..i] == hits;
    } else {
      var init := hits[..|hits| - 1];
      assert init[..i] == hits[..i];
      SweepsSpaced(limit, init, i);
    }
  }

  // ----- conservation -----

  lemma HasKey<K, V>(m: map<K, V>)
    requires m != map[]
    ensures exists k :: k in m
  {
    assert m.Keys != {};
  }

  /** The counts of the keys that satisfy `p`. */
  ghost function Total<K(!new)>(m: map<K, Counter>, p: K -> bool): nat
    decreases |m|
  {
    if m == map[] then 0
    else
      HasKey(m);
      var k :| k in m;
      (if p(k) then m[k].count else 0) + Total(m - {k}, p)
  }

  lemma {:induction false} TotalWithout<K(!new)>(m: map<K, Counter>, p: K -> bool, k: K)
    requires k in m
    ensures Total(m, p) == (if p(k) then m[k].count else 0) + Total(m - {k}, p)
    decreases |m|
  {
    var x :| x in m && Total(m, p) == (if p(x) then m[x].count else 0) + Total(m - {x}, p);
    if x != k {
      TotalWithout(m - {x}, p, k);
      TotalWithout(m - {k}, p, x);
      assert m - {x} - {k} == m - {k} - {x};
    }
  }

  lemma TotalBumped<K(!new)>(m: map<K, Counter>, p: K -> bool, key: K, n: nat, now: int)
    ensures Total(Bumped(m, key, n, now), p) == Total(m, p) + if p(key) then n else 0
  {
    var b := Bumped(m, key, n, now);
    TotalWithout(b, p, key);
    assert b - {key} == m - {key};
    if key in m {
      TotalWithout(m, p, key);
    } else {
      assert m - {key} == m;
    }
  }

  lemma WithoutBoth<K, V>(m: map<K, V>, kept: map<K, V>, k: K)
    requires k in kept && kept.Keys <= m.Keys
    ensures (m - {k}) - (kept - {k}).Keys == m - kept.Keys
    ensures (kept - {k}).Keys <= (m - {k}).Keys && |kept - {k}| < |kept|
  {
    assert (kept - {k}).Keys == kept.Keys - {k};
  }

  lemma {:induction false} TotalSplits<K(!new)>(m: map<K, Counter>, p: K -> bool, kept: map<K, Counter>)
    requires kept.Keys <= m.Keys && forall k :: k in kept ==> kept[k] == m[k]
    ensures Total(m, p) == Total(kept, p) + Total(m - kept.Keys, p)
    decreases |kept|
  {
    if kept == map[] {
      assert m - kept.Keys == m;
    } else {
      HasKey(kept);
      var k :| k in kept;
      TotalWithout(kept, p, k);
      TotalWithout(m, p, k);
      WithoutBoth(m, kept, k);
      TotalSplits(m - {k}, p, kept - {k});
    }
  }

  /** The entries a call evicts. */
  function Evicts<K>(t: Table<K>, limit: int, h: Hit<K>): map<K, Counter> {
    t.m - Cleared(t, limit, h).m.Keys
  }

  ghost function Evicted<K(!new)>(limit: int, hits: seq<Hit<K>>, p: K -> bool): nat {
    if hits == [] then 0
    else
      var init := hits[..|hits| - 1];
      Evicted(limit, init, p) + Total(Evicts(After(limit, init), limit, hits[|hits| - 1]), p)
  }

  ghost function Arrived<K(!new)>(hits: seq<Hit<K>>, p: K -> bool): nat {
    if hits == [] then 0
    else Arrived(hits[..|hits| - 1], p) + if p(hits[|hits| - 1].key) then hits[|hits| - 1].n else 0
  }

  /** Nothing is lost to overflow: what is resident and what was evicted add up to what was recorded. */
  lemma {:induction false} LivePlusEvicted<K(!new)>(limit: int, hits: seq<Hit<K>>, p: K -> bool)
    requires forall h :: h in hits ==> p(h.key) == p(h.overflow)
    ensures Total(After(limit, hits).m, p) + Evicted(limit, hits, p) == Arrived(hits, p)
  {
    if hits != [] {
      var init, h := hits[..|hits| - 1], hits[|hits| - 1];
      LivePlusEvicted(limit, init, p);
      var t := After(limit, init);
      var c := Cleared(t, limit, h);
      TotalSplits(t.m, p, c.m);
      TotalBumped(c.m, p, Lands(t, limit, h), h.n, h.now);
    }
  }
}
