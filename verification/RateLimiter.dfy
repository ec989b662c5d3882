/** The shared token bucket. Times are in seconds and reals; consumers are served in the order they take the lock. */
module RateLimiter {

  const MAX_SLEEP: real := 300.0

  datatype Bucket = Bucket(tokens: real, lastRefill: real, rate: real)

  /** One consumer's request, and the time at which it holds the lock. */
  datatype Admission = Admission(bytes: nat, at: real)

  function Min(x: real, y: real): real {
    if x <= y then x else y
  }

  function Full(rate: real, now: real): Bucket {
    Bucket(rate, now, rate)
  }

  /** Refill for the time passed, at most one second's worth, then take the bytes, possibly on credit. */
  function Admit(b: Bucket, x: Admission): Bucket {
    Bucket(Min(b.rate, b.tokens + (x.at - b.lastRefill) * b.rate) - x.bytes as real, x.at, b.rate)
  }

  function Sleep(b: Bucket): real
    requires b.rate > 0.0
  {
    if b.tokens < 0.0 then Min(-b.tokens / b.rate, MAX_SLEEP) else 0.0
  }

  class RateLimiter {
    const limited: bool
    const rate: real
    var tokens: real
    var lastRefill: real

    ghost predicate Valid() {
      limited ==> rate > 0.0
    }

    function State(): Bucket
      reads this
    {
      Bucket(tokens, lastRefill, rate)
    }

    constructor (bytesPerSecond: nat, now: real)
      ensures Valid() && (limited <==> bytesPerSecond > 0)
      ensures State() == Full(bytesPerSecond as real, now)
    {
      limited := bytesPerSecond != 0;
      rate := bytesPerSecond as real;
      tokens := bytesPerSecond as real;
      lastRefill := now;
    }

    /** Takes the bytes at time `now`; the caller sleeps for the time returned, after giving up the lock. */
    method Consume(bytes: nat, now: real) returns (sleep: real)
      requires Valid()
      modifies this`tokens, this`lastRefill
      ensures limited ==> State() == Admit(old(State()), Admission(bytes, now)) && sleep == Sleep(State())
      ensures !limited ==> State() == old(State()) && sleep == 0.0
    {
      if !limited {
        return 0.0;
      }
      var elapsed := now - lastRefill;
      tokens := tokens + elapsed * rate;
      lastRefill := now;
      if tokens > rate {
        tokens := rate;
      }
      tokens := tokens - bytes as real;
      if tokens < 0.0 {
        var deficit := -tokens;
        var computed := deficit / rate;
        sleep := if computed <= MAX_SLEEP then computed else MAX_SLEEP;
      } else {
        sleep := 0.0;
      }
    }
  }

  // -- runs of admissions --

  function After(b: Bucket, xs: seq<Admission>): (r: Bucket)
    ensures r.rate == b.rate
  {
    if xs == [] then b else Admit(After(b, xs[..|xs| - 1]), xs[|xs| - 1])
  }

  function Bytes(xs: seq<Admission>): nat {
    if xs == [] then 0 else Bytes(xs[..|xs| - 1]) + xs[|xs| - 1].bytes
  }

  /** Admissions to a bucket that was full at `start`, in lock order. */
  predicate InLockOrder(xs: seq<Admission>, start: real) {
    && (forall i :: 0 <= i < |xs| ==> start <= xs[i].at)
    && (forall i, j :: 0 <= i < j < |xs| ==> xs[i].at <= xs[j].at)
  }

  /** The bucket after the `j`-th admission. */
  function BucketAt(rate: real, start: real, xs: seq<Admission>, j: nat): (b: Bucket)
    requires j < |xs|
    ensures b.rate == rate
  {
    After(Full(rate, start), xs[..j + 1])
  }

  /** When the `j`-th consumer may go on: its lock time plus its sleep. */
  function Return(rate: real, start: real, xs: seq<Admission>, j: nat): real
    requires rate > 0.0 && j < |xs|
  {
    xs[j].at + Sleep(BucketAt(rate, start, xs, j))
  }

  predicate Capped(rate: real, start: real, xs: seq<Admission>, j: nat)
    requires j < |xs|
  {
    BucketAt(rate, start, xs, j).tokens < -(MAX_SLEEP * rate)
  }

  // -- the same in seconds: at one second's worth of tokens per second, all arithmetic is linear --

  /** Seconds' worth of tokens taken, and when. */
  datatype Charge = Charge(seconds: real, at: real)

  function Fill(cs: seq<Charge>, j: nat): real
    requires j < |cs|
  {
    (if j == 0 then 1.0 else Min(1.0, Fill(cs, j - 1) + (cs[j].at - cs[j - 1].at))) - cs[j].seconds
  }

  function Total(cs: seq<Charge>, i: nat, j: nat): real
    requires i <= j < |cs|
    decreases j
  {
    (if i == j then 0.0 else Total(cs, i, j - 1)) + cs[j].seconds
  }

  /** What one second's burst and the time from the `i`-th to the `j`-th lock leave after charges `i` to `j`. */
  function Allowance(cs: seq<Charge>, i: nat, j: nat): real
    requires i <= j < |cs|
  {
    1.0 + (cs[j].at - cs[i].at) - Total(cs, i, j)
  }

  // The fill is the least allowance over all windows that end at the last charge.
  lemma {:induction false} FillIsLeastAllowance(cs: seq<Charge>, j: nat)
    requires j < |cs|
    ensures forall i :: 0 <= i <= j ==> Fill(cs, j) <= Allowance(cs, i, j)
    ensures exists i :: 0 <= i <= j && Fill(cs, j) == Allowance(cs, i, j)
  {
    if j == 0 {
      assert Fill(cs, 0) == Allowance(cs, 0, 0);
    } else {
      FillIsLeastAllowance(cs, j - 1);
      forall i | 0 <= i <= j
        ensures Fill(cs, j) <= Allowance(cs, i, j)
      {
        if i < j {
          assert Fill(cs, j - 1) <= Allowance(cs, i, j - 1);
        }
      }
      var w :| 0 <= w <= j - 1 && Fill(cs, j - 1) == Allowance(cs, w, j - 1);
      assert Fill(cs, j) == Allowance(cs, w, j) || Fill(cs, j) == Allowance(cs, j, j);
    }
  }

  function Charges(rate: real, xs: seq<Admission>): seq<Charge>
    requires rate > 0.0
  {
    seq(|xs|, i requires 0 <= i < |xs| => Charge(xs[i].bytes as real / rate, xs[i].at))
  }

  lemma ScaleLess(rate: real, x: real, y: real)
    requires rate > 0.0
    ensures x <= y <==> rate * x <= rate * y
  {
    assert rate * y - rate * x == rate * (y - x);
  }

  lemma ScaleAdmit(rate: real, fill: real, elapsed: real, bytes: real, seconds: real)
    requires rate > 0.0 && seconds == bytes / rate
    ensures Min(rate, fill * rate + elapsed * rate) - bytes == (Min(1.0, fill + elapsed) - seconds) * rate
  {
    assert seconds * rate == bytes;
    assert (fill + elapsed) * rate == fill * rate + elapsed * rate;
    assert (Min(1.0, fill + elapsed) - seconds) * rate == Min(1.0, fill + elapsed) * rate - seconds * rate;
    ScaleLess(rate, 1.0, fill + elapsed);
  }

  /** The bucket holds `fill` seconds' worth of tokens. */
  predicate Holds(b: Bucket, rate: real, fill: real, at: real) {
    b.rate == rate && b.lastRefill == at && b.tokens == fill * rate
  }

  lemma AdmitIsScaled(b: Bucket, x: Admission, rate: real, fill: real, last: real, c: Charge)
    requires rate > 0.0 && Holds(b, rate, fill, last)
    requires c.seconds == x.bytes as real / rate && c.at == x.at
    ensures Holds(Admit(b, x), rate, Min(1.0, fill + (c.at - last)) - c.seconds, c.at)
  {
    ScaleAdmit(rate, fill, c.at - last, x.bytes as real, c.seconds);
  }

  /** The bucket before the `j`-th admission. */
  function BucketBefore(rate: real, start: real, xs: seq<Admission>, j: nat): Bucket
    requires j < |xs|
  {
    if j == 0 then Full(rate, start) else BucketAt(rate, start, xs, j - 1)
  }

  lemma BucketStep(rate: real, start: real, xs: seq<Admission>, j: nat)
    requires j < |xs|
    ensures BucketAt(rate, start, xs, j) == Admit(BucketBefore(rate, start, xs, j), xs[j])
  {
    AfterStep(Full(rate, start), xs[..j], xs[j]);
    assert xs[..j + 1] == xs[..j] + [xs[j]];
    assert j > 0 ==> xs[..j - 1 + 1] == xs[..j];
  }

  lemma AfterStep(b: Bucket, xs: seq<Admission>, x: Admission)
    ensures After(b, xs + [x]) == Admit(After(b, xs), x)
  {
    assert (xs + [x])[..|xs|] == xs;
  }

  lemma {:induction false} TokensAreScaledFill(rate: real, start: real, xs: seq<Admission>, cs: seq<Charge>, j: nat)
    requires rate > 0.0 && InLockOrder(xs, start) && j < |xs| && cs == Charges(rate, xs)
    ensures Holds(BucketAt(rate, start, xs, j), rate, Fill(cs, j), xs[j].at)
  {
    BucketStep(rate, start, xs, j);
    if j == 0 {
      AdmitIsScaled(Full(rate, start), xs[0], rate, 1.0, start, cs[0]);
    } else {
      TokensAreScaledFill(rate, start, xs, cs, j - 1);
      AdmitIsScaled(BucketAt(rate, start, xs, j - 1), xs[j], rate, Fill(cs, j - 1), xs[j - 1].at, cs[j]);
    }
  }

  lemma ScaleSum(rate: real, x: real, y: real, b: real)
    requires rate > 0.0 && y == b / rate
    ensures rate * (x + y) == rate * x + b
  {
    assert y * rate == b;
  }

  lemma {:induction false} BytesAreScaledTotal(rate: real, xs: seq<Admission>, i: nat, j: nat)
    requires rate > 0.0 && i <= j < |xs|
    ensures Bytes(xs[i..j + 1]) as real == rate * Total(Charges(rate, xs), i, j)
    decreases j
  {
    var cs := Charges(rate, xs);
    assert xs[i..j + 1][..j - i] == xs[i..j];
    if i == j {
      assert xs[i..j] == [];
      ScaleSum(rate, 0.0, cs[j].seconds, xs[j].bytes as real);
    } else {
      BytesAreScaledTotal(rate, xs, i, j - 1);
      assert xs[i..j - 1 + 1] == xs[i..j];
      ScaleSum(rate, Total(cs, i, j - 1), cs[j].seconds, xs[j].bytes as real);
    }
  }

  function SleepSeconds(fill: real): real {
    if fill < 0.0 then Min(-fill, MAX_SLEEP) else 0.0
  }

  lemma SleepOfFill(b: Bucket, rate: real, fill: real, at: real)
    requires rate > 0.0 && Holds(b, rate, fill, at)
    ensures b.tokens < -(MAX_SLEEP * rate) <==> fill < -MAX_SLEEP
    ensures Sleep(b) == SleepSeconds(fill)
  {
    ScaleLess(rate, 0.0, fill);
    ScaleLess(rate, -MAX_SLEEP, fill);
    assert rate * -MAX_SLEEP == -(MAX_SLEEP * rate);
    Unscale(rate, b.tokens, fill);
  }

  lemma Unscale(rate: real, tokens: real, fill: real)
    requires rate > 0.0 && tokens == fill * rate
    ensures -tokens / rate == -fill
  {
    var q := -tokens / rate;
    assert q * rate == -tokens;
    ScaleLess(rate, q, -fill);
    ScaleLess(rate, -fill, q);
  }

  // How long the `j`-th consumer sleeps, in terms of the fill.
  lemma SleepIsFill(rate: real, start: real, xs: seq<Admission>, cs: seq<Charge>, j: nat)
    requires rate > 0.0 && InLockOrder(xs, start) && j < |xs| && cs == Charges(rate, xs)
    ensures Capped(rate, start, xs, j) <==> Fill(cs, j) < -MAX_SLEEP
    ensures Return(rate, start, xs, j) == xs[j].at + SleepSeconds(Fill(cs, j))
  {
    TokensAreScaledFill(rate, start, xs, cs, j);
    SleepOfFill(BucketAt(rate, start, xs, j), rate, Fill(cs, j), xs[j].at);
  }

  // -- the guarantees --

  /** The bytes of admissions `i` to `j` fit the rate and one second of burst, from the first lock to time `t`. */
  predicate WithinRate(rate: real, xs: seq<Admission>, i: nat, j: nat, t: real)
    requires i <= j < |xs|
  {
    Bytes(xs[i..j + 1]) as real <= rate * (1.0 + t - xs[i].at)
  }

  lemma ScaledWithin(rate: real, bytes: real, total: real, room: real)
    requires rate > 0.0 && bytes == rate * total
    ensures bytes <= rate * room <==> total <= room
  {
    ScaleLess(rate, total, room);
  }

  lemma BytesFitRoom(rate: real, xs: seq<Admission>, i: nat, j: nat, room: real)
    requires rate > 0.0 && i <= j < |xs|
    ensures Bytes(xs[i..j + 1]) as real <= rate * room <==> Total(Charges(rate, xs), i, j) <= room
  {
    var bytes, total := Bytes(xs[i..j + 1]) as real, Total(Charges(rate, xs), i, j);
    assert bytes == rate * total by {
      BytesAreScaledTotal(rate, xs, i, j);
    }
    ScaledWithin(rate, bytes, total, room);
  }

  lemma WithinRoom(rate: real, xs: seq<Admission>, i: nat, j: nat, t: real, room: real)
    requires i <= j < |xs| && room == 1.0 + t - xs[i].at
    ensures WithinRate(rate, xs, i, j, t) <==> Bytes(xs[i..j + 1]) as real <= rate * room
  {
  }

  lemma WithinRateInSeconds(rate: real, xs: seq<Admission>, i: nat, j: nat, t: real)
    requires rate > 0.0 && i <= j < |xs|
    ensures WithinRate(rate, xs, i, j, t) <==> Total(Charges(rate, xs), i, j) <= 1.0 + t - xs[i].at
  {
    var room := 1.0 + t - xs[i].at;
    WithinRoom(rate, xs, i, j, t, room);
    BytesFitRoom(rate, xs, i, j, room);
  }

  // Any window of admissions stays within the rate by the time its last consumer goes on, and no consumer
  // sleeps longer than that takes: its return is the earliest time by which every window that ends with it fits.
  lemma ReturnIsEarliest(rate: real, start: real, xs: seq<Admission>, j: nat, t: real)
    requires rate > 0.0 && InLockOrder(xs, start) && j < |xs| && !Capped(rate, start, xs, j) && t >= xs[j].at
    ensures Return(rate, start, xs, j) <= t <==> forall i :: 0 <= i <= j ==> WithinRate(rate, xs, i, j, t)
  {
    var cs := Charges(rate, xs);
    SleepIsFill(rate, start, xs, cs, j);
    FillIsLeastAllowance(cs, j);
    forall i | 0 <= i <= j
      ensures WithinRate(rate, xs, i, j, t) <==> Allowance(cs, i, j) + (t - xs[j].at) >= 0.0
    {
      WithinRateInSeconds(rate, xs, i, j, t);
    }
  }

  /** Every window that ends with the `j`-th consumer fits by time `t`. */
  predicate WindowsFit(rate: real, xs: seq<Admission>, j: nat, t: real)
    requires j < |xs|
  {
    forall i :: 0 <= i <= j ==> WithinRate(rate, xs, i, j, t)
  }

  lemma WindowsFitIff(rate: real, xs: seq<Admission>, j: nat, t: real)
    requires rate > 0.0 && j < |xs|
    ensures WindowsFit(rate, xs, j, t) <==> Fill(Charges(rate, xs), j) + (t - xs[j].at) >= 0.0
  {
    var cs := Charges(rate, xs);
    FillIsLeastAllowance(cs, j);
    forall i | 0 <= i <= j
      ensures WithinRate(rate, xs, i, j, t) <==> Allowance(cs, i, j) + (t - xs[j].at) >= 0.0
    {
      WithinRateInSeconds(rate, xs, i, j, t);
    }
  }

  // With the cap: a consumer goes on at the earliest time by which every window that ends with it fits, but after five
  // minutes at the latest.
  lemma ReturnIsEarliestOrCap(rate: real, start: real, xs: seq<Admission>, j: nat, t: real)
    requires rate > 0.0 && InLockOrder(xs, start) && j < |xs| && t >= xs[j].at
    ensures xs[j].at <= Return(rate, start, xs, j) <= xs[j].at + 300.0
    ensures t < xs[j].at + 300.0 ==> (Return(rate, start, xs, j) <= t <==> WindowsFit(rate, xs, j, t))
    ensures Capped(rate, start, xs, j) <==> !WindowsFit(rate, xs, j, xs[j].at + 300.0)
  {
    SleepIsFill(rate, start, xs, Charges(rate, xs), j);
    WindowsFitIff(rate, xs, j, t);
    WindowsFitIff(rate, xs, j, xs[j].at + 300.0);
  }

  lemma WindowBound(rate: real, start: real, xs: seq<Admission>, i: nat, j: nat)
    requires rate > 0.0 && InLockOrder(xs, start) && i <= j < |xs| && !Capped(rate, start, xs, j)
    ensures WithinRate(rate, xs, i, j, Return(rate, start, xs, j))
  {
    SleepIsFill(rate, start, xs, Charges(rate, xs), j);
    ReturnIsEarliest(rate, start, xs, j, Return(rate, start, xs, j));
  }

  /** The bytes of the first `n` consumers that have gone on by time `t`. */
  function ReturnedBy(rate: real, start: real, xs: seq<Admission>, t: real, n: nat): nat
    requires rate > 0.0 && n <= |xs|
  {
    if n == 0 then 0
    else ReturnedBy(rate, start, xs, t, n - 1) + if Return(rate, start, xs, n - 1) <= t then xs[n - 1].bytes else 0
  }

  // All bytes returned by `t` were admitted no later than the last consumer among them.
  lemma {:induction false} ReturnedIsPrefix(rate: real, start: real, xs: seq<Admission>, t: real, n: nat) returns (k: nat)
    requires rate > 0.0 && n <= |xs|
    ensures k <= n && ReturnedBy(rate, start, xs, t, n) <= Bytes(xs[..k])
    ensures k > 0 ==> Return(rate, start, xs, k - 1) <= t
  {
    if n == 0 {
      k := 0;
    } else {
      k := ReturnedIsPrefix(rate, start, xs, t, n - 1);
      if Return(rate, start, xs, n - 1) <= t {
        MoreBytes(xs, k, n - 1);
        assert xs[..n][..n - 1] == xs[..n - 1];
        k := n;
      }
    }
  }

  lemma {:induction false} MoreBytes(xs: seq<Admission>, k: nat, n: nat)
    requires k <= n <= |xs|
    ensures Bytes(xs[..k]) <= Bytes(xs[..n])
  {
    if k < n {
      MoreBytes(xs, k, n - 1);
      assert xs[..n][..n - 1] == xs[..n - 1];
    }
  }

  lemma TotalOfReturned(rate: real, start: real, xs: seq<Admission>, t: real, j: nat)
    requires rate > 0.0 && InLockOrder(xs, start) && j < |xs|
    requires !Capped(rate, start, xs, j) && Return(rate, start, xs, j) <= t
    ensures Total(Charges(rate, xs), 0, j) <= 1.0 + t - start
  {
    WindowBound(rate, start, xs, 0, j);
    WithinRateInSeconds(rate, xs, 0, j, Return(rate, start, xs, j));
  }

  lemma PrefixFits(rate: real, xs: seq<Admission>, j: nat, room: real)
    requires rate > 0.0 && j < |xs| && Total(Charges(rate, xs), 0, j) <= room
    ensures Bytes(xs[..j + 1]) as real <= rate * room
  {
    assert xs[0..j + 1] == xs[..j + 1];
    BytesFitRoom(rate, xs, 0, j, room);
  }

  // The bytes of the first consumers, in terms of their seconds.
  lemma PrefixBound(rate: real, xs: seq<Admission>, k: nat, room: real)
    requires rate > 0.0 && k <= |xs| && room >= 0.0
    requires k > 0 ==> Total(Charges(rate, xs), 0, k - 1) <= room
    ensures Bytes(xs[..k]) as real <= rate * room
  {
    if k == 0 {
      ScaleLess(rate, 0.0, room);
    } else {
      PrefixFits(rate, xs, k - 1, room);
    }
  }

  lemma ReturnedAreEarly(rate: real, start: real, xs: seq<Admission>, t: real) returns (k: nat)
    requires rate > 0.0 && InLockOrder(xs, start) && t >= start
    requires forall j :: 0 <= j < |xs| ==> !Capped(rate, start, xs, j)
    ensures k <= |xs| && ReturnedBy(rate, start, xs, t, |xs|) <= Bytes(xs[..k])
    ensures k > 0 ==> Total(Charges(rate, xs), 0, k - 1) <= 1.0 + t - start
  {
    k := ReturnedIsPrefix(rate, start, xs, t, |xs|);
    if k > 0 {
      TotalOfReturned(rate, start, xs, t, k - 1);
    }
  }

  lemma PrefixBoundSince(rate: real, start: real, xs: seq<Admission>, t: real, k: nat)
    requires rate > 0.0 && k <= |xs| && start <= t
    requires k > 0 ==> Total(Charges(rate, xs), 0, k - 1) <= 1.0 + t - start
    ensures Bytes(xs[..k]) as real <= rate * (1.0 + t - start)
  {
    PrefixBound(rate, xs, k, 1.0 + t - start);
  }

  // At any time the bytes let through are at most the rate times the time since the start, plus one second's burst.
  lemma ThroughputBound(rate: real, start: real, xs: seq<Admission>, t: real)
    requires rate > 0.0 && InLockOrder(xs, start) && t >= start
    requires forall j :: 0 <= j < |xs| ==> !Capped(rate, start, xs, j)
    ensures ReturnedBy(rate, start, xs, t, |xs|) as real <= rate * (1.0 + t - start)
  {
    var k := ReturnedAreEarly(rate, start, xs, t);
    PrefixBoundSince(rate, start, xs, t, k);
  }

  // The five-minute cap gives the bound up: by the time a consumer goes on, every window that ends with it fits
  // the rate if and only if its sleep was not capped.
  lemma WindowsFitIffNotCapped(rate: real, start: real, xs: seq<Admission>, j: nat)
    requires rate > 0.0 && InLockOrder(xs, start) && j < |xs|
    ensures (forall i :: 0 <= i <= j ==> WithinRate(rate, xs, i, j, Return(rate, start, xs, j)))
            <==> !Capped(rate, start, xs, j)
  {
    if Capped(rate, start, xs, j) {
      var cs := Charges(rate, xs);
      SleepIsFill(rate, start, xs, cs, j);
      FillIsLeastAllowance(cs, j);
      var i :| 0 <= i <= j && Fill(cs, j) == Allowance(cs, i, j);
      WithinRateInSeconds(rate, xs, i, j, Return(rate, start, xs, j));
    } else {
      forall i | 0 <= i <= j
        ensures WithinRate(rate, xs, i, j, Return(rate, start, xs, j))
      {
        WindowBound(rate, start, xs, i, j);
      }
    }
  }
}
