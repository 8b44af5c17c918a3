/**
  The per-address admission throttle (AnonymousRateThrottle in
  movies/throttling.py). A request is refused outright while the ban flag
  exists; otherwise it is counted in fixed minute, hour and day windows and
  refused when any count passes its limit, which also adds one to a 24-hour
  violation tally that bans the address for an hour once it reaches ten.
*/
module Throttling {
  import opened Wrappers
  import opened KeyValueStore
  import opened CacheKeys
  import ClientIp

  const MinuteLimit := 5
  const HourlyLimit := 20
  const DailyLimit := 50
  const ViolationThreshold := 10
  const BanDuration: nat := 3600

  /** Lifetime of each counter, set when the counter is created. */
  const MinuteWindow: nat := 60
  const HourWindow: nat := 3600
  const DayWindow: nat := 86400
  const ViolationWindow: nat := 86400

  /** How an f-string writes `get_client_ip`'s result into a key: `None` becomes the text "None". */
  function IpText(ip: Option<string>): string
  {
    match ip
    case Some(s) => s
    case None => "None"
  }

  /**
    The counter rule at key `w`: the count at `now` went up by exactly one, and
    the deadline was set to `ttl` seconds from `now` only if this increment
    created the counter (its new count is 1); otherwise the deadline stays.
  */
  ghost predicate Bumped(m: Entries, m': Entries, w: string, ttl: nat, now: nat)
  {
    && Live(m', w, now)
    && ValueAt(m', w, now) == ValueAt(m, w, now) + 1
    && m'[w].deadline == (if ValueAt(m, w, now) == 0 then Some(now + ttl) else m[w].deadline)
  }

  /** The three post-increment window counts and the store after they were taken. */
  datatype Counted = Counted(minute: int, hour: int, day: int, entries: Entries)
  {
    predicate Exceeded()
    {
      minute > MinuteLimit || hour > HourlyLimit || day > DailyLimit
    }
  }

  /** The `if count == 1: expire(...)` step that follows each INCR. */
  function ExpireIfCreated(m: Entries, w: string, count: int, ttl: nat, now: nat): (m': Entries)
    requires ttl > 0
    ensures Live(m', w, now) == Live(m, w, now) && ValueAt(m', w, now) == ValueAt(m, w, now)
    ensures Live(m, w, now) ==> m'[w].deadline == if count == 1 then Some(now + ttl) else m[w].deadline
    ensures SameOutside(m, m', {w})
  {
    if count == 1 then WithExpiry(m, w, ttl, now) else m
  }

  /** INCR the three window keys, then EXPIRE each one whose new count is 1. */
  function CountWindows(m: Entries, k: Keys, now: nat): (c: Counted)
    requires k.Distinct()
    ensures c.minute == ValueAt(m, k.minute, now) + 1
    ensures c.hour == ValueAt(m, k.hour, now) + 1
    ensures c.day == ValueAt(m, k.day, now) + 1
  {
    var minute := ValueAt(m, k.minute, now) + 1;
    var m1 := Incremented(m, k.minute, now);
    var hour := ValueAt(m1, k.hour, now) + 1;
    var m2 := Incremented(m1, k.hour, now);
    var day := ValueAt(m2, k.day, now) + 1;
    var m3 := Incremented(m2, k.day, now);
    var m4 := ExpireIfCreated(m3, k.minute, minute, MinuteWindow, now);
    var m5 := ExpireIfCreated(m4, k.hour, hour, HourWindow, now);
    var m6 := ExpireIfCreated(m5, k.day, day, DayWindow, now);
    Counted(minute, hour, day, m6)
  }

  /**
    Counting adds one to each window counter, sets a counter's lifetime only
    when the count was 0 before, and touches no other key.
  */
  lemma CountWindowsEffect(m: Entries, k: Keys, now: nat)
    requires k.Distinct()
    ensures var c := CountWindows(m, k, now);
            && Bumped(m, c.entries, k.minute, MinuteWindow, now)
            && Bumped(m, c.entries, k.hour, HourWindow, now)
            && Bumped(m, c.entries, k.day, DayWindow, now)
            && SameOutside(m, c.entries, {k.minute, k.hour, k.day})
  {
    var minute := ValueAt(m, k.minute, now) + 1;
    var m1 := Incremented(m, k.minute, now);
    var hour := ValueAt(m1, k.hour, now) + 1;
    var m2 := Incremented(m1, k.hour, now);
    var day := ValueAt(m2, k.day, now) + 1;
    var m3 := Incremented(m2, k.day, now);
    var m4 := ExpireIfCreated(m3, k.minute, minute, MinuteWindow, now);
    var m5 := ExpireIfCreated(m4, k.hour, hour, HourWindow, now);
    var m6 := ExpireIfCreated(m5, k.day, day, DayWindow, now);
    var ks := {k.minute, k.hour, k.day};
    SameOutsideChain(m, m1, m2, {k.minute}, {k.hour}, ks);
    SameOutsideChain(m2, m3, m4, {k.day}, {k.minute}, ks);
    SameOutsideChain(m4, m5, m6, {k.hour}, {k.day}, ks);
    SameOutsideChain(m, m2, m4, ks, ks, ks);
    SameOutsideChain(m, m4, m6, ks, ks, ks);
  }

  /**
    An over-limit request: INCR the violation tally, EXPIRE it if new, and
    SETEX the ban flag for `BanDuration` once the tally reaches the threshold.
  */
  function RecordViolation(m: Entries, k: Keys, now: nat): (m': Entries)
    requires k.Distinct()
  {
    var violations := ValueAt(m, k.violations, now) + 1;
    var m1 := Incremented(m, k.violations, now);
    var m2 := ExpireIfCreated(m1, k.violations, violations, ViolationWindow, now);
    if violations >= ViolationThreshold then WithValueAndExpiry(m2, k.banned, BanDuration, 1, now) else m2
  }

  /**
    Recording a violation adds one to the tally (setting its 24-hour lifetime
    when it was 0), sets the ban flag to 1 for `BanDuration` once the tally
    reaches the threshold, and touches nothing else.
  */
  lemma RecordViolationEffect(m: Entries, k: Keys, now: nat)
    requires k.Distinct()
    ensures var m' := RecordViolation(m, k, now);
            && Bumped(m, m', k.violations, ViolationWindow, now)
            && (ValueAt(m, k.violations, now) + 1 >= ViolationThreshold ==>
                  k.banned in m' && m'[k.banned] == Entry(1, Some(now + BanDuration)))
            && (ValueAt(m, k.violations, now) + 1 < ViolationThreshold ==>
                  SameOutside(m, m', {k.violations}))
            && SameOutside(m, m', {k.violations, k.banned})
  {
  }

  /** The verdict on one request and the store it leaves behind. */
  datatype Decision = Decision(allowed: bool, entries: Entries)

  /** `allow_request` once the five keys of the client and the current buckets are known. */
  function Decide(m: Entries, k: Keys, now: nat): Decision
    requires k.Distinct()
  {
    if Live(m, k.banned, now) then
      Decision(false, m)
    else
      var c := CountWindows(m, k, now);
      if c.Exceeded() then Decision(false, RecordViolation(c.entries, k, now))
      else Decision(true, c.entries)
  }

  /** `allow_request` for a client whose key text is `ip`, at time `now`. */
  function Admit(m: Entries, ip: string, now: nat): Decision
  {
    Decide(m, CacheKeysFor(ip, now), now)
  }

  /** Some window count, after this request is added, is strictly above its limit. */
  ghost predicate OverLimit(m: Entries, k: Keys, now: nat)
  {
    || ValueAt(m, k.minute, now) + 1 > MinuteLimit
    || ValueAt(m, k.hour, now) + 1 > HourlyLimit
    || ValueAt(m, k.day, now) + 1 > DailyLimit
  }

  /** While the ban flag exists the request is refused and the store is left exactly as it was. */
  lemma BannedLeavesStoreUnchanged(m: Entries, k: Keys, now: nat)
    requires k.Distinct() && Live(m, k.banned, now)
    ensures Decide(m, k, now) == Decision(false, m)
  {
  }

  /**
    The verdict: allowed exactly when the address is not banned and every
    count including this request is within its limit, so the request that
    reaches a limit passes and the one after it is refused.
  */
  lemma DecideVerdict(m: Entries, k: Keys, now: nat)
    requires k.Distinct()
    ensures Decide(m, k, now).allowed <==> !Live(m, k.banned, now) && !OverLimit(m, k, now)
  {
  }

  /**
    A request from an address that is not banned adds exactly one to each of
    its three current window counters, and gives a counter its lifetime only
    when this request created it: later requests in the same bucket leave the
    deadline where it was, so the windows are fixed rather than sliding.
  */
  lemma DecideCountsWindows(m: Entries, k: Keys, now: nat)
    requires k.Distinct() && !Live(m, k.banned, now)
    ensures var m' := Decide(m, k, now).entries;
            && Bumped(m, m', k.minute, MinuteWindow, now)
            && Bumped(m, m', k.hour, HourWindow, now)
            && Bumped(m, m', k.day, DayWindow, now)
  {
    var c := CountWindows(m, k, now);
    CountWindowsEffect(m, k, now);
    if c.Exceeded() {
      var m' := RecordViolation(c.entries, k, now);
      RecordViolationEffect(c.entries, k, now);
      SameOutsideAt(c.entries, m', {k.violations, k.banned}, k.minute);
      SameOutsideAt(c.entries, m', {k.violations, k.banned}, k.hour);
      SameOutsideAt(c.entries, m', {k.violations, k.banned}, k.day);
    }
  }

  /**
    An over-limit request adds exactly one to the violation tally however
    many windows it exceeds, gives the tally its 24-hour lifetime only when it
    creates it, and (re)sets the ban flag for `BanDuration` once the tally
    reaches the threshold; a request within the limits touches neither.
  */
  lemma DecideRecordsViolation(m: Entries, k: Keys, now: nat)
    requires k.Distinct() && !Live(m, k.banned, now)
    ensures var m' := Decide(m, k, now).entries;
            var tally := ValueAt(m, k.violations, now) + 1;
            && (OverLimit(m, k, now) ==> Bumped(m, m', k.violations, ViolationWindow, now))
            && (OverLimit(m, k, now) && tally >= ViolationThreshold ==>
                  k.banned in m' && m'[k.banned] == Entry(1, Some(now + BanDuration)))
            && (!OverLimit(m, k, now) || tally < ViolationThreshold ==>
                  (k.banned in m <==> k.banned in m') && (k.banned in m ==> m'[k.banned] == m[k.banned]))
            && (!OverLimit(m, k, now) ==>
                  (k.violations in m <==> k.violations in m') &&
                  (k.violations in m ==> m'[k.violations] == m[k.violations]))
  {
    var c := CountWindows(m, k, now);
    CountWindowsEffect(m, k, now);
    SameOutsideAt(m, c.entries, {k.minute, k.hour, k.day}, k.violations);
    SameOutsideAt(m, c.entries, {k.minute, k.hour, k.day}, k.banned);
    if c.Exceeded() {
      var m' := RecordViolation(c.entries, k, now);
      RecordViolationEffect(c.entries, k, now);
      if ValueAt(m, k.violations, now) + 1 < ViolationThreshold {
        SameOutsideAt(c.entries, m', {k.violations}, k.banned);
      }
    }
  }

  /** A request changes no key other than its own five. */
  lemma DecideFrame(m: Entries, k: Keys, now: nat)
    requires k.Distinct()
    ensures SameOutside(m, Decide(m, k, now).entries, k.Set())
  {
    if !Live(m, k.banned, now) {
      var c := CountWindows(m, k, now);
      CountWindowsEffect(m, k, now);
      if c.Exceeded() {
        RecordViolationEffect(c.entries, k, now);
        SameOutsideChain(m, c.entries, RecordViolation(c.entries, k, now),
                         {k.minute, k.hour, k.day}, {k.violations, k.banned}, k.Set());
      }
    }
  }

  /** Isolation: a request never changes a key of any other address, for any slot or bucket. */
  lemma AdmitIsolation(m: Entries, ip: string, now: nat, other: string, s: Slot)
    requires other != ip
    ensures var m', x := Admit(m, ip, now).entries, KeyOf(other, s);
            (x in m <==> x in m') && (x in m ==> m'[x] == m[x])
  {
    var k := CacheKeysFor(ip, now);
    DecideFrame(m, k, now);
    CacheKeysOwned(ip, now, other, s);
    SameOutsideAt(m, Decide(m, k, now).entries, k.Set(), KeyOf(other, s));
  }

  /** Isolation of verdicts: another address's request leaves this address's next verdict as it was. */
  lemma OtherClientsDoNotAffectVerdict(m: Entries, ip: string, now: nat, other: string, later: nat)
    requires other != ip
    ensures Admit(Admit(m, other, now).entries, ip, later).allowed == Admit(m, ip, later).allowed
  {
    var m' := Admit(m, other, now).entries;
    var k := CacheKeysFor(ip, later);
    AdmitIsolation(m, other, now, ip, Minute(later / 60));
    AdmitIsolation(m, other, now, ip, Hour(later / 3600));
    AdmitIsolation(m, other, now, ip, Day(later / 86400));
    AdmitIsolation(m, other, now, ip, Banned);
    SameKeysSameVerdict(m, m', k, later);
    DecideVerdict(m, k, later);
    DecideVerdict(m', k, later);
  }

  /** Two stores that hold the same window counters and ban flag give the same verdict inputs. */
  lemma SameKeysSameVerdict(m: Entries, m': Entries, k: Keys, now: nat)
    requires forall x | x in {k.minute, k.hour, k.day, k.banned} :: (x in m <==> x in m') && (x in m ==> m'[x] == m[x])
    ensures Live(m, k.banned, now) == Live(m', k.banned, now)
    ensures OverLimit(m, k, now) == OverLimit(m', k, now)
  {
    assert k.minute in {k.minute, k.hour, k.day, k.banned};
    assert k.hour in {k.minute, k.hour, k.day, k.banned};
    assert k.day in {k.minute, k.hour, k.day, k.banned};
    assert k.banned in {k.minute, k.hour, k.day, k.banned};
  }

  /** `allow_request` against the shared store, issuing the store commands in the source's order. */
  method AllowRequest(store: Store, meta: ClientIp.Meta, now: nat) returns (allowed: bool)
    modifies store
    ensures allowed == Admit(old(store.entries), IpText(ClientIp.GetClientIp(meta)), now).allowed
    ensures store.entries == Admit(old(store.entries), IpText(ClientIp.GetClientIp(meta)), now).entries
  {
    allowed := AllowAddress(store, IpText(ClientIp.GetClientIp(meta)), now);
  }

  /** The body of `allow_request` once the client's key text `ip` is known. */
  method AllowAddress(store: Store, ip: string, now: nat) returns (allowed: bool)
    modifies store
    ensures allowed == Admit(old(store.entries), ip, now).allowed
    ensures store.entries == Admit(old(store.entries), ip, now).entries
  {
    var k := CacheKeysFor(ip, now);

    var banned := store.Exists(k.banned, now);
    if banned {
      return false;
    }

    var minuteCount, hourCount, dayCount := CountRequest(store, k, now);

    if minuteCount > MinuteLimit || hourCount > HourlyLimit || dayCount > DailyLimit {
      RecordViolationIn(store, k, now);
      return false;
    }
    return true;
  }

  /** The window counting of `allow_request`: three INCRs, then an EXPIRE for each counter this request created. */
  method CountRequest(store: Store, k: Keys, now: nat) returns (minuteCount: int, hourCount: int, dayCount: int)
    requires k.Distinct()
    modifies store
    ensures Counted(minuteCount, hourCount, dayCount, store.entries) == CountWindows(old(store.entries), k, now)
  {
    minuteCount := store.Incr(k.minute, now);
    hourCount := store.Incr(k.hour, now);
    dayCount := store.Incr(k.day, now);

    ExpireIfNew(store, k.minute, minuteCount, MinuteWindow, now);
    ExpireIfNew(store, k.hour, hourCount, HourWindow, now);
    ExpireIfNew(store, k.day, dayCount, DayWindow, now);
  }

  /** `if count == 1: expire(key, ttl)`: give a counter its lifetime when this request created it. */
  method ExpireIfNew(store: Store, w: string, count: int, ttl: nat, now: nat)
    requires ttl > 0
    modifies store
    ensures store.entries == ExpireIfCreated(old(store.entries), w, count, ttl, now)
  {
    if count == 1 {
      var _ := store.Expire(w, ttl, now);
    }
  }

  /** The over-limit branch of `allow_request`: count the violation and ban once the tally reaches the threshold. */
  method RecordViolationIn(store: Store, k: Keys, now: nat)
    requires k.Distinct()
    modifies store
    ensures store.entries == RecordViolation(old(store.entries), k, now)
  {
    var violations := store.Incr(k.violations, now);
    ExpireIfNew(store, k.violations, violations, ViolationWindow, now);
    if violations >= ViolationThreshold {
      store.SetEx(k.banned, BanDuration, 1, now);
    }
  }
}
