/**
  The Redis operations the throttle issues (INCR, EXPIRE, EXISTS, SETEX),
  over an in-memory map from key to integer value and optional deadline.
  Time is passed in explicitly as whole seconds; a key whose deadline is at
  or before `now` has expired and counts as absent.
*/
module KeyValueStore {
  import opened Wrappers

  /** A stored integer and the instant it expires, if it has a time-to-live. */
  datatype Entry = Entry(value: int, deadline: Option<nat>)

  type Entries = map<string, Entry>

  /** The key exists at `now`: it is stored and has not reached its deadline. */
  predicate Live(m: Entries, k: string, now: nat)
  {
    k in m && (m[k].deadline.None? || now < m[k].deadline.value)
  }

  /** The integer INCR reads: the stored value of a live key, 0 for a missing one. */
  function ValueAt(m: Entries, k: string, now: nat): int
  {
    if Live(m, k, now) then m[k].value else 0
  }

  /** Every key other than those in `ks` is stored in `m'` exactly as in `m`. */
  ghost predicate SameOutside(m: Entries, m': Entries, ks: set<string>)
  {
    forall j :: j !in ks ==> (j in m <==> j in m') && (j in m ==> m[j] == m'[j])
  }

  /** Two updates that each keep everything outside `ks` keep it together. */
  lemma SameOutsideChain(m1: Entries, m2: Entries, m3: Entries, ks1: set<string>, ks2: set<string>, ks: set<string>)
    requires SameOutside(m1, m2, ks1) && SameOutside(m2, m3, ks2)
    requires ks1 <= ks && ks2 <= ks
    ensures SameOutside(m1, m3, ks)
  {
  }

  /** A key outside `ks` is stored the same way before and after. */
  lemma SameOutsideAt(m: Entries, m': Entries, ks: set<string>, x: string)
    requires SameOutside(m, m', ks) && x !in ks
    ensures (x in m <==> x in m') && (x in m ==> m'[x] == m[x])
  {
  }

  /** INCR: add one to a live key keeping its deadline; create a missing or expired one as 1 with no deadline. */
  function Incremented(m: Entries, k: string, now: nat): (m': Entries)
    ensures Live(m', k, now) && ValueAt(m', k, now) == ValueAt(m, k, now) + 1
    ensures m'[k].deadline == if Live(m, k, now) then m[k].deadline else None
    ensures SameOutside(m, m', {k})
  {
    if Live(m, k, now) then m[k := Entry(m[k].value + 1, m[k].deadline)]
    else m[k := Entry(1, None)]
  }

  /** EXPIRE: a live key now expires `ttl` seconds from `now`; a missing key stays missing. */
  function WithExpiry(m: Entries, k: string, ttl: nat, now: nat): (m': Entries)
    requires ttl > 0
    ensures Live(m', k, now) == Live(m, k, now)
    ensures ValueAt(m', k, now) == ValueAt(m, k, now)
    ensures Live(m, k, now) ==> m'[k].deadline == Some(now + ttl)
    ensures SameOutside(m, m', if Live(m, k, now) then {k} else {})
  {
    if Live(m, k, now) then m[k := Entry(m[k].value, Some(now + ttl))] else m
  }

  /** SETEX: store `v` under `k` with a deadline `ttl` seconds from `now`, whatever was there. */
  function WithValueAndExpiry(m: Entries, k: string, ttl: nat, v: int, now: nat): (m': Entries)
    requires ttl > 0
    ensures Live(m', k, now) && ValueAt(m', k, now) == v
    ensures m'[k].deadline == Some(now + ttl)
    ensures forall t: nat :: Live(m', k, t) <==> t < now + ttl
    ensures SameOutside(m, m', {k})
  {
    m[k := Entry(v, Some(now + ttl))]
  }

  /** The shared store the throttle talks to. */
  class Store {
    var entries: Entries

    constructor ()
      ensures entries == map[]
    {
      entries := map[];
    }

    method Incr(k: string, now: nat) returns (n: int)
      modifies this
      ensures n == old(ValueAt(entries, k, now)) + 1
      ensures entries == Incremented(old(entries), k, now)
    {
      n := ValueAt(entries, k, now) + 1;
      entries := Incremented(entries, k, now);
    }

    method Expire(k: string, ttl: nat, now: nat) returns (applied: bool)
      requires ttl > 0
      modifies this
      ensures applied == old(Live(entries, k, now))
      ensures entries == WithExpiry(old(entries), k, ttl, now)
    {
      applied := Live(entries, k, now);
      entries := WithExpiry(entries, k, ttl, now);
    }

    method Exists(k: string, now: nat) returns (present: bool)
      ensures present == Live(entries, k, now)
    {
      present := Live(entries, k, now);
    }

    method SetEx(k: string, ttl: nat, v: int, now: nat)
      requires ttl > 0
      modifies this
      ensures entries == WithValueAndExpiry(old(entries), k, ttl, v, now)
    {
      entries := WithValueAndExpiry(entries, k, ttl, v, now);
    }
  }
}
