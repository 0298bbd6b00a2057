/** The token-bucket limiter, with real-valued tokens. */
module RateLimiter {
  import opened Words

  datatype Bucket = Bucket(tokens: real, maxCapacity: real, ratePerSec: real, lastUpdate: UInt64)

  /** What the map inserts for a subnet it has not seen. */
  const Blank := Bucket(0.0, 1000.0, 1000.0, 0)

  /** The limits of a limiter: a rate per second and a burst. */
  datatype Limits = Limits(rate: real, burst: real)

  datatype Packet = Packet(subnet: UInt32, ts: UInt64, cost: real)

  /** The nanoseconds since, as the unsigned subtraction gives them. */
  function Since(now: UInt64, last: UInt64): UInt64 {
    (now - last) % 0x1_0000_0000_0000_0000
  }

  function Min(a: real, b: real): real {
    if a <= b then a else b
  }

  /** What a rate per second earns in that many nanoseconds. */
  function Gain(ns: int, ratePerSec: real): real {
    ns as real / 1000000000.0 * ratePerSec
  }

  /** The bucket brought up to date; a last update of zero marks it as new. */
  function Refilled(l: Limits, b: Bucket, now: UInt64): Bucket {
    if b.lastUpdate == 0 then Bucket(l.burst, l.burst, l.rate, now)
    else
      b.(tokens := Min(b.maxCapacity, b.tokens + Gain(Since(now, b.lastUpdate), b.ratePerSec)), lastUpdate := now)
  }

  predicate Allows(l: Limits, b: Bucket, p: Packet) {
    Refilled(l, b, p.ts).tokens >= p.cost
  }

  function Charged(l: Limits, b: Bucket, p: Packet): Bucket {
    var r := Refilled(l, b, p.ts);
    if Allows(l, b, p) then r.(tokens := r.tokens - p.cost) else r
  }

  class RateLimiter {
    const limits: Limits
    var buckets: map<UInt32, Bucket>

    constructor (defaultRate: real, defaultBurst: real)
      ensures limits == Limits(defaultRate, defaultBurst) && buckets == map[]
    {
      limits, buckets := Limits(defaultRate, defaultBurst), map[];
    }

    method AllowPacket(subnet: UInt32, ts: UInt64, cost: real) returns (allowed: bool)
      modifies this
      ensures var b := BucketOf(old(buckets), subnet);
              var p := Packet(subnet, ts, cost);
              allowed == Allows(limits, b, p) && buckets == old(buckets)[subnet := Charged(limits, b, p)]
    {
      var b := if subnet in buckets then buckets[subnet] else Blank;
      if b.lastUpdate == 0 {
        b := Bucket(limits.burst, limits.burst, limits.rate, ts);
      } else {
        var filled := b.tokens + Gain(Since(ts, b.lastUpdate), b.ratePerSec);
        b := b.(tokens := if b.maxCapacity <= filled then b.maxCapacity else filled, lastUpdate := ts);
      }
      allowed := b.tokens >= cost;
      if allowed {
        b := b.(tokens := b.tokens - cost);
      }
      buckets := buckets[subnet := b];
    }
  }

  function BucketOf(buckets: map<UInt32, Bucket>, subnet: UInt32): Bucket {
    if subnet in buckets then buckets[subnet] else Blank
  }

  // ----- one subnet's traffic -----

  /** The bucket after some packets of its subnet. */
  function After(l: Limits, ps: seq<Packet>): Bucket {
    if ps == [] then Blank else Charged(l, After(l, ps[..|ps| - 1]), ps[|ps| - 1])
  }

  predicate Admitted(l: Limits, ps: seq<Packet>, k: nat)
    requires k < |ps|
  {
    Allows(l, After(l, ps[..k]), ps[k])
  }

  function Sum(xs: seq<real>, i: nat, n: nat): real
    requires i <= n <= |xs|
  {
    if i == n then 0.0 else Sum(xs, i, n - 1) + xs[n - 1]
  }

  function Costs(ps: seq<Packet>): seq<real> {
    seq(|ps|, i requires 0 <= i < |ps| => ps[i].cost)
  }

  /** What each packet takes from the bucket: its cost if it is admitted. */
  function Charges(l: Limits, ps: seq<Packet>): seq<real> {
    seq(|ps|, i requires 0 <= i < |ps| => if Admitted(l, ps, i) then ps[i].cost else 0.0)
  }

  /** The cost of the packets from `i` up to `n`, or only of those that are admitted. */
  function Cost(ps: seq<Packet>, i: nat, n: nat): real
    requires i <= n <= |ps|
  {
    Sum(Costs(ps), i, n)
  }

  function AdmittedCost(l: Limits, ps: seq<Packet>, i: nat, n: nat): real
    requires i <= n <= |ps|
  {
    Sum(Charges(l, ps), i, n)
  }

  /** What the rate earns from one time to another. */
  function Earned(l: Limits, from: UInt64, to: UInt64): real {
    Gain(to - from, l.rate)
  }

  lemma Distribute(a: real, b: real, r: real)
    ensures (a + b) * r == a * r + b * r
  {
  }

  lemma GainIsNotNegative(ns: nat, r: real)
    requires r >= 0.0
    ensures Gain(ns, r) >= 0.0
  {
    var x := ns as real / 1000000000.0;
    assert x >= 0.0;
  }

  lemma EarnedAdds(l: Limits, a: UInt64, b: UInt64, c: UInt64)
    ensures Earned(l, a, c) == Earned(l, a, b) + Earned(l, b, c)
  {
    var x, y := (b - a) as real / 1000000000.0, (c - b) as real / 1000000000.0;
    assert (c - a) as real == (b - a) as real + (c - b) as real;
    Distribute(x, y, l.rate);
    assert (c - a) as real / 1000000000.0 == x + y;
  }

  /** Timestamps that do not go back, no negative cost. */
  predicate Ordered(ps: seq<Packet>) {
    && (forall i :: 0 <= i < |ps| ==> ps[i].cost >= 0.0)
    && (forall i, j :: 0 <= i <= j < |ps| ==> ps[i].ts <= ps[j].ts)
  }

  /** Ordered traffic of a clock that has started. */
  predicate Regular(ps: seq<Packet>) {
    Ordered(ps) && forall i :: 0 <= i < |ps| ==> ps[i].ts > 0
  }

  predicate Sensible(l: Limits) {
    l.rate >= 0.0 && l.burst >= 0.0
  }

  /** A bucket in use. */
  predicate InUse(l: Limits, b: Bucket, last: UInt64) {
    b.lastUpdate == last && b.maxCapacity == l.burst && b.ratePerSec == l.rate && 0.0 <= b.tokens <= l.burst
  }

  lemma RefillEarns(l: Limits, b: Bucket, last: UInt64, now: UInt64)
    requires Sensible(l) && InUse(l, b, last) && 0 < last <= now
    ensures var r := Refilled(l, b, now);
            InUse(l, r, now) && r.tokens == Min(l.burst, b.tokens + Earned(l, last, now))
  {
    assert Since(now, last) == now - last;
    GainIsNotNegative(now - last, l.rate);
  }

  lemma {:induction false} AfterIsInUse(l: Limits, ps: seq<Packet>)
    requires Sensible(l) && Regular(ps) && ps != []
    ensures InUse(l, After(l, ps), ps[|ps| - 1].ts)
  {
    var n := |ps| - 1;
    if n > 0 {
      AfterIsInUse(l, ps[..n]);
      RefillEarns(l, After(l, ps[..n]), ps[n - 1].ts, ps[n].ts);
    }
  }

  /** The tokens before a packet is charged: full for the first, refilled by the time since for the others. */
  lemma TokensBefore(l: Limits, ps: seq<Packet>, n: nat)
    requires Sensible(l) && Regular(ps) && n < |ps|
    ensures var r := Refilled(l, After(l, ps[..n]), ps[n].ts);
            && r.tokens == (if n == 0 then l.burst else Min(l.burst, After(l, ps[..n]).tokens + Earned(l, ps[n - 1].ts, ps[n].ts)))
            && After(l, ps[..n + 1]).tokens == r.tokens - if Admitted(l, ps, n) then ps[n].cost else 0.0
  {
    assert ps[..n + 1][..n] == ps[..n];
    if n > 0 {
      AfterIsInUse(l, ps[..n]);
      RefillEarns(l, After(l, ps[..n]), ps[n - 1].ts, ps[n].ts);
    }
  }

  /** Charges that are paid step by step are paid over any window. */
  lemma {:induction false} Telescope(charges: seq<real>, left: seq<real>, clock: seq<real>, burst: real, i: nat, n: nat)
    requires |charges| == |left| == |clock| && i < n <= |charges|
    requires forall k :: 0 <= k < |charges| ==> charges[k] + left[k] <= burst
    requires forall k :: 0 < k < |charges| ==> charges[k] + left[k] <= left[k - 1] + (clock[k] - clock[k - 1])
    ensures Sum(charges, i, n) + left[n - 1] <= burst + (clock[n - 1] - clock[i])
    decreases n
  {
    if i < n - 1 {
      Telescope(charges, left, clock, burst, i, n - 1);
    } else {
      assert Sum(charges, i, i) == 0.0;
    }
  }

  lemma EarnedIsDifference(l: Limits, from: UInt64, to: UInt64)
    ensures Earned(l, from, to) == Gain(to, l.rate) - Gain(from, l.rate)
  {
    EarnedAdds(l, 0, from, to);
  }

  lemma PacketIsPaid(l: Limits, ps: seq<Packet>, k: nat)
    requires Sensible(l) && Regular(ps) && k < |ps|
    ensures var left := After(l, ps[..k + 1]).tokens;
            && 0.0 <= left && Charges(l, ps)[k] + left <= l.burst
            && (k > 0 ==> Charges(l, ps)[k] + left <= After(l, ps[..k]).tokens + (Gain(ps[k].ts, l.rate) - Gain(ps[k - 1].ts, l.rate)))
  {
    TokensBefore(l, ps, k);
    AfterIsInUse(l, ps[..k + 1]);
    if k > 0 {
      EarnedIsDifference(l, ps[k - 1].ts, ps[k].ts);
    }
  }

  predicate Paid(l: Limits, ps: seq<Packet>, i: nat, n: nat)
    requires i < n <= |ps|
  {
    AdmittedCost(l, ps, i, n) <= l.burst + Earned(l, ps[i].ts, ps[n - 1].ts)
  }

  /** The cost admitted in a window never exceeds the burst and what was earned. */
  lemma WindowIsPaid(l: Limits, ps: seq<Packet>, i: nat, n: nat)
    requires Sensible(l) && Regular(ps) && i < n <= |ps|
    ensures Paid(l, ps, i, n)
  {
    var left := seq(|ps|, k requires 0 <= k < |ps| => After(l, ps[..k + 1]).tokens);
    var clock := seq(|ps|, k requires 0 <= k < |ps| => Gain(ps[k].ts, l.rate));
    var charges := Charges(l, ps);
    forall k | 0 <= k < |ps|
      ensures charges[k] + left[k] <= l.burst && left[k] >= 0.0
              && (k > 0 ==> charges[k] + left[k] <= left[k - 1] + (clock[k] - clock[k - 1]))
    {
      PacketIsPaid(l, ps, k);
    }
    Telescope(charges, left, clock, l.burst, i, n);
    EarnedIsDifference(l, ps[i].ts, ps[n - 1].ts);
  }

  predicate WindowFits(l: Limits, ps: seq<Packet>, i: nat, n: nat)
    requires i < n <= |ps|
  {
    Cost(ps, i, n) <= l.burst + Earned(l, ps[i].ts, ps[n - 1].ts)
  }

  lemma {:induction false} AllAdmittedCost(l: Limits, ps: seq<Packet>, i: nat, n: nat)
    requires i <= n <= |ps| && forall k: nat :: k < n ==> Admitted(l, ps, k)
    ensures AdmittedCost(l, ps, i, n) == Cost(ps, i, n)
  {
    if i < n {
      AllAdmittedCost(l, ps, i, n - 1);
    }
  }

  lemma FirstIsTight(l: Limits, ps: seq<Packet>, k: nat)
    requires Sensible(l) && Regular(ps) && k < |ps| && WindowFits(l, ps, k, k + 1)
    ensures Cost(ps, k, k + 1) == ps[k].cost <= l.burst && Earned(l, ps[k].ts, ps[k].ts) == 0.0
  {
    assert Cost(ps, k, k) == 0.0;
  }

  /** The next packet is admitted, and its own window or the one before it is tight. */
  lemma StaysTight(l: Limits, ps: seq<Packet>, j: nat, k: nat)
    requires Sensible(l) && Regular(ps) && j < k < |ps|
    requires WindowFits(l, ps, j, k + 1) && WindowFits(l, ps, k, k + 1)
    requires After(l, ps[..k]).tokens == l.burst + Earned(l, ps[j].ts, ps[k - 1].ts) - Cost(ps, j, k)
    ensures Admitted(l, ps, k)
    ensures var left := After(l, ps[..k + 1]).tokens;
            || left == l.burst + Earned(l, ps[j].ts, ps[k].ts) - Cost(ps, j, k + 1)
            || left == l.burst + Earned(l, ps[k].ts, ps[k].ts) - Cost(ps, k, k + 1)
  {
    TokensBefore(l, ps, k);
    FirstIsTight(l, ps, k);
    EarnedAdds(l, ps[j].ts, ps[k - 1].ts, ps[k].ts);
    assert Cost(ps, j, k + 1) == Cost(ps, j, k) + ps[k].cost;
  }

  /** While every window fits all packets are admitted, and some window accounts for the tokens left exactly. */
  lemma {:induction false} TightWindow(l: Limits, ps: seq<Packet>, n: nat) returns (i: nat)
    requires Sensible(l) && Regular(ps) && 0 < n <= |ps|
    requires forall i: nat, m: nat :: i < m <= n ==> WindowFits(l, ps, i, m)
    ensures forall k: nat :: k < n ==> Admitted(l, ps, k)
    ensures i < n && After(l, ps[..n]).tokens == l.burst + Earned(l, ps[i].ts, ps[n - 1].ts) - Cost(ps, i, n)
    decreases n
  {
    var k := n - 1;
    i := k;
    assert WindowFits(l, ps, k, n);
    if k == 0 {
      TokensBefore(l, ps, k);
      FirstIsTight(l, ps, k);
    } else {
      var j := TightWindow(l, ps, k);
      assert WindowFits(l, ps, j, n);
      StaysTight(l, ps, j, k);
      if After(l, ps[..n]).tokens == l.burst + Earned(l, ps[j].ts, ps[k].ts) - Cost(ps, j, n) {
        i := j;
      }
    }
  }

  ghost predicate NeverDropped(l: Limits, ps: seq<Packet>) {
    forall k: nat :: k < |ps| ==> Admitted(l, ps, k)
  }

  ghost predicate AllWindowsFit(l: Limits, ps: seq<Packet>) {
    forall i: nat, n: nat :: i < n <= |ps| ==> WindowFits(l, ps, i, n)
  }

  /** A subnet's traffic is never dropped if and only if its cost in every window is at most
      the burst and what the rate earns over the window. */
  lemma NeverDroppedIffWindowsFit(l: Limits, ps: seq<Packet>)
    requires Sensible(l) && Regular(ps)
    ensures NeverDropped(l, ps) <==> AllWindowsFit(l, ps)
  {
    if NeverDropped(l, ps) {
      forall i: nat, n: nat | i < n <= |ps| ensures WindowFits(l, ps, i, n) {
        AllAdmittedCost(l, ps, i, n);
        WindowIsPaid(l, ps, i, n);
      }
    }
    if AllWindowsFit(l, ps) && ps != [] {
      var i := TightWindow(l, ps, |ps|);
    }
  }

  // ----- the clock -----

  /** The rate is per second: in whole seconds, of a billion nanoseconds each, the earnings are the rate that many times. */
  lemma EarnedPerSecond(l: Limits, from: UInt64, to: UInt64, seconds: nat)
    requires to - from == seconds * 1_000_000_000
    ensures Earned(l, from, to) == seconds as real * l.rate
  {
    assert (to - from) as real == seconds as real * 1000000000.0;
    assert (seconds as real * 1000000000.0) / 1000000000.0 == seconds as real;
  }

  /** When the clock goes back, the time since wraps around, and the bucket earns for the rest of the 64-bit range. */
  lemma BackwardsEarns(l: Limits, b: Bucket, now: UInt64)
    requires 0 < b.lastUpdate && now < b.lastUpdate
    ensures Refilled(l, b, now).tokens
            == Min(b.maxCapacity, b.tokens + Gain(0x1_0000_0000_0000_0000 - (b.lastUpdate - now), b.ratePerSec))
  {
    assert Since(now, b.lastUpdate) == 0x1_0000_0000_0000_0000 - (b.lastUpdate - now);
  }

  lemma FirstPacket(l: Limits, p: Packet)
    requires p.cost == l.burst && p.ts > 0
    ensures After(l, [p]) == Bucket(0.0, l.burst, l.rate, p.ts)
  {
    assert [p][..0] == [];
  }

  /** So a subnet that spends its burst and then goes back in time can spend it at once again if and only if the rate
      earns it in that time. */
  lemma BackwardsRefillsIff(l: Limits, subnet: UInt32, first: UInt64, second: UInt64)
    requires Sensible(l) && 0 < second < first
    ensures var ps := [Packet(subnet, first, l.burst), Packet(subnet, second, l.burst)];
            Admitted(l, ps, 0) && (Admitted(l, ps, 1) <==> l.burst <= Gain(0x1_0000_0000_0000_0000 - (first - second), l.rate))
  {
    var ps := [Packet(subnet, first, l.burst), Packet(subnet, second, l.burst)];
    assert ps[..0] == [] && ps[..1] == [ps[0]];
    FirstPacket(l, ps[0]);
    BackwardsEarns(l, After(l, [ps[0]]), second);
  }

  // ----- when the windows are paid -----

  ghost predicate AllWindowsPaid(l: Limits, ps: seq<Packet>) {
    forall i: nat, n: nat :: i < n <= |ps| ==> Paid(l, ps, i, n)
  }

  /** Ordered traffic that begins at a given time. */
  predicate StartsAt(ps: seq<Packet>, ts: UInt64) {
    ps != [] && ps[0].ts == ts && Ordered(ps)
  }

  /** A timestamp of zero leaves the bucket marked as new, so the next packet gets a full burst again. */
  lemma ZeroTimestampRefills(l: Limits, subnet: UInt32)
    requires l.burst > 0.0
    ensures var ps := [Packet(subnet, 0, l.burst), Packet(subnet, 0, l.burst)];
            AdmittedCost(l, ps, 0, 2) == l.burst + l.burst && !Paid(l, ps, 0, 2)
  {
    var ps := [Packet(subnet, 0, l.burst), Packet(subnet, 0, l.burst)];
    assert ps[..1][..0] == [] && ps[..0] == [];
    assert After(l, ps[..0]) == Blank && After(l, ps[..1]) == Charged(l, Blank, ps[0]);
    assert AdmittedCost(l, ps, 0, 0) == 0.0 && AdmittedCost(l, ps, 0, 1) == l.burst;
    assert Earned(l, 0, 0) == 0.0;
  }

  /** Without a burst the bucket is always empty. */
  lemma {:induction false} StaysEmpty(l: Limits, ps: seq<Packet>)
    requires Sensible(l) && l.burst == 0.0 && Ordered(ps) && ps != []
    ensures InUse(l, After(l, ps), ps[|ps| - 1].ts)
  {
    var n := |ps| - 1;
    if n > 0 {
      StaysEmpty(l, ps[..n]);
      if ps[n - 1].ts > 0 {
        RefillEarns(l, After(l, ps[..n]), ps[n - 1].ts, ps[n].ts);
      }
    }
  }

  lemma {:induction false} NothingIsCharged(l: Limits, ps: seq<Packet>, i: nat, n: nat)
    requires Sensible(l) && l.burst == 0.0 && Ordered(ps) && i <= n <= |ps|
    ensures AdmittedCost(l, ps, i, n) == 0.0
    decreases n
  {
    if i < n {
      NothingIsCharged(l, ps, i, n - 1);
      StaysEmpty(l, ps[..n]);
      assert ps[..n][..n - 1] == ps[..n - 1];
      assert Admitted(l, ps, n - 1) ==> ps[n - 1].cost <= 0.0;
    }
  }

  lemma StartedIsPaid(l: Limits, ps: seq<Packet>, ts: UInt64)
    requires Sensible(l) && StartsAt(ps, ts) && (ts > 0 || l.burst == 0.0)
    ensures AllWindowsPaid(l, ps)
  {
    forall i: nat, n: nat | i < n <= |ps| ensures Paid(l, ps, i, n) {
      if ts > 0 {
        WindowIsPaid(l, ps, i, n);
      } else {
        NothingIsCharged(l, ps, i, n);
        GainIsNotNegative(ps[n - 1].ts - ps[i].ts, l.rate);
      }
    }
  }

  /** Whatever follows, every window of ordered traffic is paid if and only if its first timestamp is not zero,
      or there is no burst to be given twice. */
  lemma PaidIffClockHasStarted(l: Limits, ts: UInt64)
    requires Sensible(l)
    ensures (forall ps: seq<Packet> | StartsAt(ps, ts) :: AllWindowsPaid(l, ps)) <==> ts > 0 || l.burst == 0.0
  {
    if ts > 0 || l.burst == 0.0 {
      forall ps: seq<Packet> | StartsAt(ps, ts) ensures AllWindowsPaid(l, ps) {
        StartedIsPaid(l, ps, ts);
      }
    } else {
      var ps := [Packet(0, 0, l.burst), Packet(0, 0, l.burst)];
      ZeroTimestampRefills(l, 0);
      assert StartsAt(ps, ts) && !Paid(l, ps, 0, 2);
    }
  }

  // ----- all traffic -----

  /** The limiter's buckets after some packets of any subnets. */
  function Buckets(l: Limits, traffic: seq<Packet>): map<UInt32, Bucket> {
    if traffic == [] then map[]
    else
      var before, p := Buckets(l, traffic[..|traffic| - 1]), traffic[|traffic| - 1];
      before[p.subnet := Charged(l, BucketOf(before, p.subnet), p)]
  }

  predicate Allowed(l: Limits, traffic: seq<Packet>, k: nat)
    requires k < |traffic|
  {
    Allows(l, BucketOf(Buckets(l, traffic[..k]), traffic[k].subnet), traffic[k])
  }

  function ForSubnet(traffic: seq<Packet>, subnet: UInt32): seq<Packet> {
    if traffic == [] then []
    else
      var p, rest := traffic[|traffic| - 1], ForSubnet(traffic[..|traffic| - 1], subnet);
      if p.subnet == subnet then rest + [p] else rest
  }

  /** The cost admitted for a subnet from position `i` up to `n`. */
  function AllowedCost(l: Limits, traffic: seq<Packet>, subnet: UInt32, i: nat, n: nat): real
    requires i <= n <= |traffic|
  {
    if i == n then 0.0
    else AllowedCost(l, traffic, subnet, i, n - 1)
         + if traffic[n - 1].subnet == subnet && Allowed(l, traffic, n - 1) then traffic[n - 1].cost else 0.0
  }

  /** Subnets do not share tokens. */
  lemma {:induction false} SubnetsAreIndependent(l: Limits, traffic: seq<Packet>, subnet: UInt32)
    ensures BucketOf(Buckets(l, traffic), subnet) == After(l, ForSubnet(traffic, subnet))
  {
    if traffic != [] {
      var n := |traffic| - 1;
      SubnetsAreIndependent(l, traffic[..n], subnet);
      if traffic[n].subnet == subnet {
        var ps := ForSubnet(traffic[..n], subnet);
        assert (ps + [traffic[n]])[..|ps|] == ps;
      }
    }
  }

  /** Where a packet is among those of its subnet. */
  lemma {:induction false} Position(traffic: seq<Packet>, subnet: UInt32, k: nat)
    requires k <= |traffic|
    ensures var ps, c := ForSubnet(traffic, subnet), |ForSubnet(traffic[..k], subnet)|;
            && c <= |ps| && ps[..c] == ForSubnet(traffic[..k], subnet)
            && (k < |traffic| && traffic[k].subnet == subnet ==> c < |ps| && ps[c] == traffic[k])
    decreases |traffic|
  {
    var n := |traffic|;
    if k == n {
      assert traffic[..k] == traffic;
    } else {
      Position(traffic[..n - 1], subnet, k);
      assert traffic[..n - 1][..k] == traffic[..k];
      if k == n - 1 {
        assert traffic[..n - 1] == traffic[..k];
      }
    }
  }

  lemma AllowedIsAdmitted(l: Limits, traffic: seq<Packet>, subnet: UInt32, k: nat)
    requires k < |traffic| && traffic[k].subnet == subnet
    ensures var ps, c := ForSubnet(traffic, subnet), |ForSubnet(traffic[..k], subnet)|;
            && c < |ps| && ps[c] == traffic[k] && (Allowed(l, traffic, k) <==> Admitted(l, ps, c))
            && |ForSubnet(traffic[..k + 1], subnet)| == c + 1
  {
    Position(traffic, subnet, k);
    SubnetsAreIndependent(l, traffic[..k], subnet);
    assert traffic[..k + 1][..k] == traffic[..k];
  }

  lemma OtherSubnet(traffic: seq<Packet>, subnet: UInt32, k: nat)
    requires k < |traffic| && traffic[k].subnet != subnet
    ensures ForSubnet(traffic[..k + 1], subnet) == ForSubnet(traffic[..k], subnet)
  {
    assert traffic[..k + 1][..k] == traffic[..k];
  }

  lemma {:induction false} AllowedIsAdmittedCost(l: Limits, traffic: seq<Packet>, subnet: UInt32, i: nat, n: nat)
    requires i <= n <= |traffic|
    ensures var a, c := |ForSubnet(traffic[..i], subnet)|, |ForSubnet(traffic[..n], subnet)|;
            && a <= c <= |ForSubnet(traffic, subnet)|
            && AllowedCost(l, traffic, subnet, i, n) == AdmittedCost(l, ForSubnet(traffic, subnet), a, c)
    decreases n
  {
    Position(traffic, subnet, n);
    if i < n {
      AllowedIsAdmittedCost(l, traffic, subnet, i, n - 1);
      if traffic[n - 1].subnet == subnet {
        AllowedIsAdmitted(l, traffic, subnet, n - 1);
      } else {
        OtherSubnet(traffic, subnet, n - 1);
      }
    }
  }

  /** A window of the traffic is a window of the subnet's packets. */
  lemma WindowOfSubnet(l: Limits, traffic: seq<Packet>, subnet: UInt32, i: nat, j: nat) returns (a: nat, n: nat)
    requires i <= j < |traffic| && traffic[i].subnet == subnet && traffic[j].subnet == subnet
    ensures var ps := ForSubnet(traffic, subnet);
            && a < n <= |ps| && ps[a] == traffic[i] && ps[n - 1] == traffic[j]
            && AllowedCost(l, traffic, subnet, i, j + 1) == AdmittedCost(l, ps, a, n)
  {
    a, n := |ForSubnet(traffic[..i], subnet)|, |ForSubnet(traffic[..j + 1], subnet)|;
    AllowedIsAdmitted(l, traffic, subnet, i);
    AllowedIsAdmitted(l, traffic, subnet, j);
    AllowedIsAdmittedCost(l, traffic, subnet, i, j);
    AllowedIsAdmittedCost(l, traffic, subnet, i, j + 1);
  }

  /** What a subnet is admitted in a window is at most the burst and what the rate earns in the window. */
  predicate WithinLimits(l: Limits, traffic: seq<Packet>, subnet: UInt32, i: nat, j: nat)
    requires i <= j < |traffic|
  {
    AllowedCost(l, traffic, subnet, i, j + 1) <= l.burst + Earned(l, traffic[i].ts, traffic[j].ts)
  }

  /** Every window of any traffic in which a subnet sends regularly keeps its limits. */
  lemma AdmittedWithinLimits(l: Limits, traffic: seq<Packet>, subnet: UInt32, i: nat, j: nat)
    requires Sensible(l) && Regular(ForSubnet(traffic, subnet))
    requires i <= j < |traffic| && traffic[i].subnet == subnet && traffic[j].subnet == subnet
    ensures WithinLimits(l, traffic, subnet, i, j)
  {
    var a, n := WindowOfSubnet(l, traffic, subnet, i, j);
    WindowIsPaid(l, ForSubnet(traffic, subnet), a, n);
  }

  ghost predicate AlwaysWithinLimits(l: Limits, traffic: seq<Packet>, subnet: UInt32) {
    forall i: nat, j: nat :: i <= j < |traffic| && traffic[i].subnet == subnet && traffic[j].subnet == subnet
                             ==> WithinLimits(l, traffic, subnet, i, j)
  }

  lemma StartedIsWithinLimits(l: Limits, traffic: seq<Packet>, subnet: UInt32, ts: UInt64)
    requires Sensible(l) && StartsAt(ForSubnet(traffic, subnet), ts) && (ts > 0 || l.burst == 0.0)
    ensures AlwaysWithinLimits(l, traffic, subnet)
  {
    StartedIsPaid(l, ForSubnet(traffic, subnet), ts);
    forall i: nat, j: nat | i <= j < |traffic| && traffic[i].subnet == subnet && traffic[j].subnet == subnet
      ensures WithinLimits(l, traffic, subnet, i, j)
    {
      var a, n := WindowOfSubnet(l, traffic, subnet, i, j);
      assert Paid(l, ForSubnet(traffic, subnet), a, n);
    }
  }

  lemma TwoPackets(l: Limits, p: Packet)
    ensures ForSubnet([p, p], p.subnet) == [p, p]
    ensures AllowedCost(l, [p, p], p.subnet, 0, 2) == AdmittedCost(l, [p, p], 0, 2)
  {
    var ps := [p, p];
    assert ps[..1] == [p] && [p][..0] == [] && ps[..0] == [] && ps[..2] == ps;
    assert ForSubnet([p], p.subnet) == [p];
    assert ForSubnet(ps, p.subnet) == ps;
    AllowedIsAdmittedCost(l, ps, p.subnet, 0, 2);
  }

  lemma TwoBurstsExceed(l: Limits, subnet: UInt32)
    requires l.burst > 0.0
    ensures var traffic := [Packet(subnet, 0, l.burst), Packet(subnet, 0, l.burst)];
            StartsAt(ForSubnet(traffic, subnet), 0) && !AlwaysWithinLimits(l, traffic, subnet)
  {
    var ps := [Packet(subnet, 0, l.burst), Packet(subnet, 0, l.burst)];
    ZeroTimestampRefills(l, subnet);
    TwoPackets(l, ps[0]);
    assert !WithinLimits(l, ps, subnet, 0, 1);
  }

  /** In any mix of subnets, a subnet is kept within its limits, whatever all send later, if and only if the first
      timestamp it sends is not zero, or there is no burst. */
  lemma WithinLimitsIffClockHasStarted(l: Limits, subnet: UInt32, ts: UInt64)
    requires Sensible(l)
    ensures (forall traffic: seq<Packet> | StartsAt(ForSubnet(traffic, subnet), ts) :: AlwaysWithinLimits(l, traffic, subnet))
            <==> ts > 0 || l.burst == 0.0
  {
    if ts > 0 || l.burst == 0.0 {
      forall traffic: seq<Packet> | StartsAt(ForSubnet(traffic, subnet), ts) ensures AlwaysWithinLimits(l, traffic, subnet) {
        StartedIsWithinLimits(l, traffic, subnet, ts);
      }
    } else {
      TwoBurstsExceed(l, subnet);
    }
  }

  ghost predicate AllAllowed(l: Limits, traffic: seq<Packet>, subnet: UInt32) {
    forall k: nat :: k < |traffic| && traffic[k].subnet == subnet ==> Allowed(l, traffic, k)
  }

  /** A subnet's packets all pass if and only if every window of them fits the limits, whatever other subnets send. */
  lemma AllAllowedIffWindowsFit(l: Limits, traffic: seq<Packet>, subnet: UInt32)
    requires Sensible(l) && Regular(ForSubnet(traffic, subnet))
    ensures AllAllowed(l, traffic, subnet) <==> AllWindowsFit(l, ForSubnet(traffic, subnet))
  {
    var ps := ForSubnet(traffic, subnet);
    NeverDroppedIffWindowsFit(l, ps);
    if NeverDropped(l, ps) {
      forall k: nat | k < |traffic| && traffic[k].subnet == subnet ensures Allowed(l, traffic, k) {
        AllowedIsAdmitted(l, traffic, subnet, k);
      }
    }
    if AllAllowed(l, traffic, subnet) {
      forall c: nat | c < |ps| ensures Admitted(l, ps, c) {
        var k := Origin(traffic, subnet, c);
        AllowedIsAdmitted(l, traffic, subnet, k);
      }
    }
  }

  lemma {:induction false} Origin(traffic: seq<Packet>, subnet: UInt32, c: nat) returns (k: nat)
    requires c < |ForSubnet(traffic, subnet)|
    ensures k < |traffic| && traffic[k].subnet == subnet && |ForSubnet(traffic[..k], subnet)| == c
    decreases |traffic|
  {
    var n := |traffic| - 1;
    if c < |ForSubnet(traffic[..n], subnet)| {
      k := Origin(traffic[..n], subnet, c);
      assert traffic[..n][..k] == traffic[..k];
    } else {
      k := n;
    }
  }
}
