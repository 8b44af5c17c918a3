/**
  The Redis keys the throttle derives for a client address (get_cache_keys in
  movies/throttling.py): `rl:ip:<ip>:minute:<bucket>`, `rl:ip:<ip>:hour:<bucket>`,
  `rl:ip:<ip>:day:<bucket>`, `rl:ip:<ip>:violations` and `rl:ip:<ip>:banned`,
  with each bucket written in decimal.
*/
module CacheKeys {

  predicate IsDigit(c: char)
  {
    '0' <= c <= '9'
  }

  function DigitChar(d: nat): (c: char)
    requires d < 10
    ensures IsDigit(c)
  {
    ('0' as int + d) as char
  }

  /** Python's `str(n)` for a non-negative integer: its decimal digits, most significant first. */
  function DecimalText(n: nat): (s: string)
    ensures 1 <= |s| && forall i :: 0 <= i < |s| ==> IsDigit(s[i])
    ensures n >= 10 <==> |s| >= 2
  {
    if n < 10 then [DigitChar(n)] else DecimalText(n / 10) + [DigitChar(n % 10)]
  }

  /** The number a string of decimal digits denotes, most significant digit first (Python's `int(s)`). */
  function DecimalValue(s: string): nat
    requires forall i :: 0 <= i < |s| ==> IsDigit(s[i])
  {
    if s == [] then 0
    else
      assert IsDigit(s[|s| - 1]);
      DecimalValue(s[..|s| - 1]) * 10 + (s[|s| - 1] as int - '0' as int)
  }

  /** Reading the digits of `DecimalText(n)` back gives `n`, and there is no leading zero: the text is `str(n)`. */
  lemma {:induction false} DecimalTextRoundTrip(n: nat)
    ensures DecimalValue(DecimalText(n)) == n
    ensures |DecimalText(n)| >= 2 ==> DecimalText(n)[0] != '0'
    decreases n
  {
    if n >= 10 {
      var s := DecimalText(n);
      assert s[..|s| - 1] == DecimalText(n / 10);
      DecimalTextRoundTrip(n / 10);
      assert s[0] == DecimalText(n / 10)[0];
    }
  }

  /** Different numbers are written differently, so distinct buckets give distinct keys. */
  lemma {:induction false} DecimalTextInjective(a: nat, b: nat)
    requires DecimalText(a) == DecimalText(b)
    ensures a == b
    decreases a
  {
    if a >= 10 && b >= 10 {
      var sa, sb := DecimalText(a), DecimalText(b);
      assert sa[|sa| - 1] == DigitChar(a % 10) && sb[|sb| - 1] == DigitChar(b % 10);
      assert sa[..|sa| - 1] == DecimalText(a / 10) && sb[..|sb| - 1] == DecimalText(b / 10);
      DecimalTextInjective(a / 10, b / 10);
    } else if a < 10 && b < 10 {
      assert DecimalText(a)[0] == DigitChar(a);
    }
  }

  /** What a key is about: one of the three windows at a given bucket, the violation tally or the ban flag. */
  datatype Slot = Minute(bucket: nat) | Hour(bucket: nat) | Day(bucket: nat) | Violations | Banned

  /** The part of a key that follows the client address. */
  function SlotText(s: Slot): string
  {
    match s
    case Minute(b) => ":minute:" + DecimalText(b)
    case Hour(b) => ":hour:" + DecimalText(b)
    case Day(b) => ":day:" + DecimalText(b)
    case Violations => ":violations"
    case Banned => ":banned"
  }

  const KeyPrefix := "rl:ip:"

  function KeyOf(ip: string, s: Slot): string
  {
    KeyPrefix + ip + SlotText(s)
  }

  /** Every slot text starts with a colon and a non-digit. */
  lemma SlotTextHead(s: Slot)
    ensures |SlotText(s)| >= 2 && SlotText(s)[0] == ':' && !IsDigit(SlotText(s)[1])
  {
  }

  /** A colon past the first character of a slot text is followed by a digit. */
  lemma SlotTextInnerColon(s: Slot, d: nat)
    requires 0 < d < |SlotText(s)| && SlotText(s)[d] == ':'
    ensures d + 1 < |SlotText(s)| && IsDigit(SlotText(s)[d + 1])
  {
    var t := SlotText(s);
    match s
    case Minute(b) =>
      var u := ":minute:";
      if d < |u| { assert t[d] == u[d]; assert t[d + 1] == DecimalText(b)[0]; }
    case Hour(b) =>
      var u := ":hour:";
      if d < |u| { assert t[d] == u[d]; assert t[d + 1] == DecimalText(b)[0]; }
    case Day(b) =>
      var u := ":day:";
      if d < |u| { assert t[d] == u[d]; assert t[d + 1] == DecimalText(b)[0]; }
    case Violations =>
    case Banned =>
  }

  lemma SlotTextInjective(s1: Slot, s2: Slot)
    requires SlotText(s1) == SlotText(s2)
    ensures s1 == s2
  {
    var t := SlotText(s1);
    assert t[1] == SlotText(s2)[1];
    match s1
    case Minute(b) =>
      assert t[|":minute:"|..] == DecimalText(b) == DecimalText(s2.bucket);
      DecimalTextInjective(b, s2.bucket);
    case Hour(b) =>
      assert t[|":hour:"|..] == DecimalText(b) == DecimalText(s2.bucket);
      DecimalTextInjective(b, s2.bucket);
    case Day(b) =>
      assert t[|":day:"|..] == DecimalText(b) == DecimalText(s2.bucket);
      DecimalTextInjective(b, s2.bucket);
    case Violations =>
    case Banned =>
  }

  /** One direction of the injectivity argument: the longer slot text cannot end in a different one. */
  lemma KeyOfInjectiveOrdered(ip1: string, s1: Slot, ip2: string, s2: Slot)
    requires KeyOf(ip1, s1) == KeyOf(ip2, s2)
    requires |SlotText(s1)| >= |SlotText(s2)|
    ensures ip1 == ip2 && s1 == s2
  {
    var x := KeyOf(ip1, s1);
    var a, b := SlotText(s1), SlotText(s2);
    var n := |x|;
    assert a == x[n - |a|..];
    assert b == x[n - |b|..];
    var d := |a| - |b|;
    assert b == a[d..];
    SlotTextHead(s2);
    if d > 0 {
      assert a[d] == ':' && a[d + 1] == b[1];
      SlotTextInnerColon(s1, d);
      assert false;
    }
    SlotTextInjective(s1, s2);
    assert KeyPrefix + ip1 == x[..n - |a|] == KeyPrefix + ip2;
    assert ip1 == (KeyPrefix + ip1)[|KeyPrefix|..];
  }

  /**
    A key names exactly one client address and one slot, whatever characters
    the address contains: keys of different addresses never coincide.
  */
  lemma KeyOfInjective(ip1: string, s1: Slot, ip2: string, s2: Slot)
    ensures KeyOf(ip1, s1) == KeyOf(ip2, s2) <==> ip1 == ip2 && s1 == s2
  {
    if KeyOf(ip1, s1) == KeyOf(ip2, s2) {
      if |SlotText(s1)| >= |SlotText(s2)| {
        KeyOfInjectiveOrdered(ip1, s1, ip2, s2);
      } else {
        KeyOfInjectiveOrdered(ip2, s2, ip1, s1);
      }
    }
  }

  /** The five keys `get_cache_keys` returns. */
  datatype Keys = Keys(minute: string, hour: string, day: string, violations: string, banned: string)
  {
    function Set(): set<string>
    {
      {minute, hour, day, violations, banned}
    }

    predicate Distinct()
    {
      && minute != hour && minute != day && minute != violations && minute != banned
      && hour != day && hour != violations && hour != banned
      && day != violations && day != banned
      && violations != banned
    }
  }

  /** The slot of each key `get_cache_keys` derives for a request at `now`. */
  function SlotsAt(now: nat): set<Slot>
  {
    {Minute(now / 60), Hour(now / 3600), Day(now / 86400), Violations, Banned}
  }

  /** `get_cache_keys`, with the clock read once as `now`: five different keys. */
  function CacheKeysFor(ip: string, now: nat): (k: Keys)
    ensures k.Distinct()
  {
    SlotKeysDistinct(ip, Minute(now / 60), Hour(now / 3600), Day(now / 86400));
    Keys(KeyOf(ip, Minute(now / 60)), KeyOf(ip, Hour(now / 3600)), KeyOf(ip, Day(now / 86400)),
         KeyOf(ip, Violations), KeyOf(ip, Banned))
  }

  lemma SlotKeysDistinct(ip: string, m: Slot, h: Slot, d: Slot)
    requires m.Minute? && h.Hour? && d.Day?
    ensures Keys(KeyOf(ip, m), KeyOf(ip, h), KeyOf(ip, d), KeyOf(ip, Violations), KeyOf(ip, Banned)).Distinct()
  {
    KeyOfInjective(ip, m, ip, h);
    KeyOfInjective(ip, m, ip, d);
    KeyOfInjective(ip, m, ip, Violations);
    KeyOfInjective(ip, m, ip, Banned);
    KeyOfInjective(ip, h, ip, d);
    KeyOfInjective(ip, h, ip, Violations);
    KeyOfInjective(ip, h, ip, Banned);
    KeyOfInjective(ip, d, ip, Violations);
    KeyOfInjective(ip, d, ip, Banned);
    KeyOfInjective(ip, Violations, ip, Banned);
  }

  /**
    The keys derived for `ip` at `now` are exactly the keys of `ip` in the
    slots of `now`; in particular no key of another address is among them.
  */
  lemma CacheKeysOwned(ip: string, now: nat, ip': string, s: Slot)
    ensures KeyOf(ip', s) in CacheKeysFor(ip, now).Set() <==> ip' == ip && s in SlotsAt(now)
  {
    var k := CacheKeysFor(ip, now);
    var x := KeyOf(ip', s);
    KeyOfInjective(ip', s, ip, Minute(now / 60));
    KeyOfInjective(ip', s, ip, Hour(now / 3600));
    KeyOfInjective(ip', s, ip, Day(now / 86400));
    KeyOfInjective(ip', s, ip, Violations);
    KeyOfInjective(ip', s, ip, Banned);
    assert x in k.Set() <==> x == k.minute || x == k.hour || x == k.day || x == k.violations || x == k.banned;
    assert s in SlotsAt(now) <==>
      s == Minute(now / 60) || s == Hour(now / 3600) || s == Day(now / 86400) || s == Violations || s == Banned;
  }

  /** Two requests share a window key exactly when they fall in the same bucket of that window. */
  lemma WindowKeysFollowBuckets(ip: string, t1: nat, t2: nat)
    ensures CacheKeysFor(ip, t1).minute == CacheKeysFor(ip, t2).minute <==> t1 / 60 == t2 / 60
    ensures CacheKeysFor(ip, t1).hour == CacheKeysFor(ip, t2).hour <==> t1 / 3600 == t2 / 3600
    ensures CacheKeysFor(ip, t1).day == CacheKeysFor(ip, t2).day <==> t1 / 86400 == t2 / 86400
  {
    KeyOfInjective(ip, Minute(t1 / 60), ip, Minute(t2 / 60));
    KeyOfInjective(ip, Hour(t1 / 3600), ip, Hour(t2 / 3600));
    KeyOfInjective(ip, Day(t1 / 86400), ip, Day(t2 / 86400));
  }
}
