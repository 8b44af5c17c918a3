/**
  Sequences of requests against one store: what the throttle promises across
  calls rather than about a single call.
*/
module ThrottleRuns {
  import opened Wrappers
  import opened KeyValueStore
  import opened CacheKeys
  import opened Throttling

  /** One call of `allow_request`: the client's key text and the clock reading. */
  datatype Request = Request(ip: string, now: nat)

  /** The verdict on each request, in order, and the store after the last. */
  datatype Run = Run(verdicts: seq<bool>, entries: Entries)

  /** Requests handled one after another against the store `m`. */
  function Replay(m: Entries, reqs: seq<Request>): (r: Run)
    ensures |r.verdicts| == |reqs|
    decreases |reqs|
  {
    if reqs == [] then Run([], m)
    else
      var before := Replay(m, reqs[..|reqs| - 1]);
      var last := reqs[|reqs| - 1];
      var d := Admit(before.entries, last.ip, last.now);
      Run(before.verdicts + [d.allowed], d.entries)
  }

  /** Requests from `ip` at the given times. */
  function Burst(ip: string, times: seq<nat>): (reqs: seq<Request>)
    ensures |reqs| == |times| && forall i :: 0 <= i < |times| ==> reqs[i] == Request(ip, times[i])
  {
    seq(|times|, i requires 0 <= i < |times| => Request(ip, times[i]))
  }

  /** All the times fall in the minute bucket of the first. */
  predicate SameMinute(times: seq<nat>)
  {
    forall i :: 0 <= i < |times| ==> times[i] / 60 == times[0] / 60
  }

  /** A time in the same minute bucket as `t0` shares all three buckets with it and comes before `t0 + 60`. */
  lemma SameMinuteBuckets(ip: string, t0: nat, t: nat)
    requires t / 60 == t0 / 60
    ensures CacheKeysFor(ip, t) == CacheKeysFor(ip, t0)
    ensures t < t0 + MinuteWindow
  {
    assert t / 3600 == (t / 60) / 60;
    assert t0 / 3600 == (t0 / 60) / 60;
    assert t / 86400 == (t / 60) / 1440;
    assert t0 / 86400 == (t0 / 60) / 1440;
  }

  /**
    The store after the first `n` requests of a burst that started at `t0`:
    each window counter at `n` with the lifetime the first request gave it,
    and no violation or ban recorded.
  */
  ghost predicate AfterBurst(m: Entries, ip: string, t0: nat, n: nat)
  {
    var k := CacheKeysFor(ip, t0);
    && (n == 0 ==> m == map[])
    && (n > 0 ==>
          && k.minute in m && m[k.minute] == Entry(n, Some(t0 + MinuteWindow))
          && k.hour in m && m[k.hour] == Entry(n, Some(t0 + HourWindow))
          && k.day in m && m[k.day] == Entry(n, Some(t0 + DayWindow)))
    && k.violations !in m && k.banned !in m
  }

  /** What the store after `n` requests of the burst shows a further request at `t` of the same minute. */
  lemma BurstSeenAt(m: Entries, ip: string, t0: nat, t: nat, n: nat)
    requires t / 60 == t0 / 60 && (n == 0 ==> t == t0) && AfterBurst(m, ip, t0, n)
    ensures CacheKeysFor(ip, t) == CacheKeysFor(ip, t0)
    ensures var k := CacheKeysFor(ip, t0);
            && ValueAt(m, k.minute, t) == n && ValueAt(m, k.hour, t) == n && ValueAt(m, k.day, t) == n
            && !Live(m, k.banned, t) && ValueAt(m, k.violations, t) == 0
  {
    SameMinuteBuckets(ip, t0, t);
  }

  /** One more request of the burst while the minute count is below the limit: allowed. */
  lemma BurstStepAllowed(m: Entries, ip: string, t0: nat, t: nat, n: nat)
    requires n < MinuteLimit && t / 60 == t0 / 60 && (n == 0 ==> t == t0) && AfterBurst(m, ip, t0, n)
    ensures var d := Admit(m, ip, t);
            d.allowed && AfterBurst(d.entries, ip, t0, n + 1)
  {
    BurstSeenAt(m, ip, t0, t, n);
    var k := CacheKeysFor(ip, t0);
    DecideVerdict(m, k, t);
    DecideCountsWindows(m, k, t);
    DecideRecordsViolation(m, k, t);
  }

  /** The request after five in the same minute: refused, with one violation on the tally. */
  lemma BurstStepRefused(m: Entries, ip: string, t0: nat, t: nat)
    requires t / 60 == t0 / 60 && AfterBurst(m, ip, t0, MinuteLimit)
    ensures var d := Admit(m, ip, t);
            !d.allowed && ValueAt(d.entries, CacheKeysFor(ip, t0).violations, t) == 1
  {
    BurstSeenAt(m, ip, t0, t, MinuteLimit);
    var k := CacheKeysFor(ip, t0);
    DecideVerdict(m, k, t);
    DecideRecordsViolation(m, k, t);
  }

  /** Every request comes from `ip` within the minute bucket of `t0`. */
  predicate OneClientOneMinute(reqs: seq<Request>, ip: string, t0: nat)
  {
    forall i :: 0 <= i < |reqs| ==> reqs[i].ip == ip && reqs[i].now / 60 == t0 / 60
  }

  /** The first `n` (at most five) requests of a burst within one minute are all allowed. */
  lemma {:induction false} BurstPrefix(reqs: seq<Request>, ip: string, n: nat)
    requires n <= MinuteLimit && 0 < |reqs| && n <= |reqs|
    requires OneClientOneMinute(reqs, ip, reqs[0].now)
    ensures var r := Replay(map[], reqs[..n]);
            false !in r.verdicts && AfterBurst(r.entries, ip, reqs[0].now, n)
  {
    if n > 0 {
      var init := reqs[..n - 1];
      assert reqs[..n] == init + [reqs[n - 1]];
      assert reqs[..n][..n - 1] == init;
      BurstPrefix(reqs, ip, n - 1);
      var before := Replay(map[], init);
      BurstStepAllowed(before.entries, ip, reqs[0].now, reqs[n - 1].now, n - 1);
    }
  }

  /** The sixth request of such a burst is the first one refused. */
  lemma BurstSixth(reqs: seq<Request>, ip: string)
    requires 6 <= |reqs| && OneClientOneMinute(reqs, ip, reqs[0].now)
    ensures var r := Replay(map[], reqs[..6]);
            && r.verdicts == [true, true, true, true, true, false]
            && ValueAt(r.entries, CacheKeysFor(ip, reqs[0].now).violations, reqs[5].now) == 1
  {
    assert reqs[..6][..5] == reqs[..5];
    var before := Replay(map[], reqs[..5]);
    var d := Admit(before.entries, ip, reqs[5].now);
    assert before.verdicts == [true, true, true, true, true] && !d.allowed &&
           ValueAt(d.entries, CacheKeysFor(ip, reqs[0].now).violations, reqs[5].now) == 1 by {
      BurstPrefix(reqs, ip, 5);
      BurstStepRefused(before.entries, ip, reqs[0].now, reqs[5].now);
      AllAllowed(before.verdicts);
    }
  }

  /**
    From an empty store, a burst of six requests from one address within one
    minute bucket: the first five are allowed, the sixth is refused, and the
    violation tally then stands at one.
  */
  lemma BurstOfSix(ip: string, times: seq<nat>)
    requires |times| == 6 && SameMinute(times)
    ensures var r := Replay(map[], Burst(ip, times));
            && r.verdicts == [true, true, true, true, true, false]
            && ValueAt(r.entries, CacheKeysFor(ip, times[5]).violations, times[5]) == 1
  {
    var reqs := Burst(ip, times);
    SameMinuteBuckets(ip, times[0], times[5]);
    BurstSixth(reqs, ip);
    assert reqs[..6] == reqs;
  }

  lemma AllAllowed(v: seq<bool>)
    requires |v| == 5 && false !in v
    ensures v == [true, true, true, true, true]
  {
    forall i | 0 <= i < 5
      ensures v[i] == [true, true, true, true, true][i]
    {
      assert v[i] in v;
    }
  }

  /**
    While the ban flag of `ip` is live, every request from `ip` is refused,
    whatever other addresses do in between, and the flag itself is untouched.
  */
  lemma {:induction false} BanHolds(m: Entries, ip: string, reqs: seq<Request>)
    requires KeyOf(ip, Banned) in m
    requires forall i :: 0 <= i < |reqs| ==> Live(m, KeyOf(ip, Banned), reqs[i].now)
    ensures var r := Replay(m, reqs);
            && KeyOf(ip, Banned) in r.entries && r.entries[KeyOf(ip, Banned)] == m[KeyOf(ip, Banned)]
            && forall i :: 0 <= i < |reqs| && reqs[i].ip == ip ==> !r.verdicts[i]
  {
    if reqs != [] {
      var init := reqs[..|reqs| - 1];
      var last := reqs[|reqs| - 1];
      assert reqs == init + [last];
      BanHolds(m, ip, init);
      var before := Replay(m, init);
      BanStep(before.entries, ip, last);
      RefusedExtend(ip, init, last, before.verdicts, Admit(before.entries, last.ip, last.now).allowed);
    }
  }

  /** One request while the ban flag of `ip` is live: the flag is untouched, and a request from `ip` is refused. */
  lemma BanStep(m: Entries, ip: string, req: Request)
    requires Live(m, KeyOf(ip, Banned), req.now)
    ensures var d := Admit(m, req.ip, req.now);
            && KeyOf(ip, Banned) in d.entries && d.entries[KeyOf(ip, Banned)] == m[KeyOf(ip, Banned)]
            && (req.ip == ip ==> !d.allowed)
  {
    if req.ip == ip {
      BannedLeavesStoreUnchanged(m, CacheKeysFor(ip, req.now), req.now);
    } else {
      AdmitIsolation(m, req.ip, req.now, ip, Banned);
    }
  }

  lemma RefusedExtend(ip: string, init: seq<Request>, last: Request, v: seq<bool>, a: bool)
    requires |v| == |init| && forall i :: 0 <= i < |init| && init[i].ip == ip ==> !v[i]
    requires last.ip == ip ==> !a
    ensures forall i :: 0 <= i < |init| + 1 && (init + [last])[i].ip == ip ==> !(v + [a])[i]
  {
    forall i | 0 <= i < |init| + 1 && (init + [last])[i].ip == ip
      ensures !(v + [a])[i]
    {
      if i < |init| {
        assert (init + [last])[i] == init[i] && (v + [a])[i] == v[i];
      }
    }
  }

  /**
    The request that brings the tally to the threshold bans its address: every
    later request from it within `BanDuration` seconds is refused.
  */
  lemma BanLastsItsDuration(m: Entries, ip: string, now: nat, reqs: seq<Request>)
    requires !Live(m, CacheKeysFor(ip, now).banned, now)
    requires OverLimit(m, CacheKeysFor(ip, now), now)
    requires ValueAt(m, CacheKeysFor(ip, now).violations, now) + 1 >= ViolationThreshold
    requires forall i :: 0 <= i < |reqs| ==> reqs[i].now < now + BanDuration
    ensures var r := Replay(Admit(m, ip, now).entries, reqs);
            forall i :: 0 <= i < |reqs| && reqs[i].ip == ip ==> !r.verdicts[i]
  {
    DecideRecordsViolation(m, CacheKeysFor(ip, now), now);
    BanHolds(Admit(m, ip, now).entries, ip, reqs);
  }
}
