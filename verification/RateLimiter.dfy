/**
 The per-principal rate limiter: a token bucket and a count of permits in use for every
 authority. Token amounts and times are exact reals.
 */
module RateLimiter {
  import opened Prelude

  datatype Bucket = Bucket(tokens: real, lastRefill: real, active: nat)

  datatype Limits = Limits(requestsPerMinute: nat, burst: nat, maxConcurrent: nat)

  datatype LimitError = Rate | Concurrency

  type Buckets = map<string, Bucket>

  function PerSecond(limits: Limits): (r: real)
    ensures r >= 0.0
  {
    limits.requestsPerMinute as real / 60.0
  }

  /** Tokens gained in some seconds. */
  function Gain(seconds: real, limits: Limits): real {
    seconds * PerSecond(limits)
  }

  /** The refill is rpm / 60 tokens a second. */
  lemma GainIs(seconds: real, limits: Limits)
    ensures Gain(seconds, limits) == seconds * limits.requestsPerMinute as real / 60.0
  {
  }

  lemma GainAdds(x: real, y: real, limits: Limits)
    ensures Gain(x + y, limits) == Gain(x, limits) + Gain(y, limits) && Gain(0.0, limits) == 0.0
  {
  }

  lemma GainGrows(x: real, y: real, limits: Limits)
    requires x <= y
    ensures Gain(x, limits) <= Gain(y, limits)
  {
    assert PerSecond(limits) >= 0.0;
  }

  function Min(x: real, y: real): real {
    if x <= y then x else y
  }

  function Elapsed(now: real, since: real): real {
    if now >= since then now - since else 0.0
  }

  /** The bucket an acquisition sees: a full one for a new authority, else the old one refilled. */
  function Refilled(b: Option<Bucket>, now: real, limits: Limits): Bucket {
    var start := if b.Some? then b.value else Bucket(limits.burst as real, now, 0);
    Bucket(Min(start.tokens + Gain(Elapsed(now, start.lastRefill), limits), limits.burst as real), now, start.active)
  }

  function Decision(b: Bucket, limits: Limits): Result<Bucket, LimitError> {
    if b.active >= limits.maxConcurrent then Err(Concurrency)
    else if b.tokens < 1.0 then Err(Rate)
    else Ok(b.(tokens := b.tokens - 1.0, active := b.active + 1))
  }

  function Find(buckets: Buckets, authority: string): Option<Bucket> {
    if authority in buckets then Some(buckets[authority]) else None
  }

  /** The bucket after an acquisition, admitted or not. */
  function Acquired(b: Option<Bucket>, now: real, limits: Limits): Bucket {
    var seen := Refilled(b, now, limits);
    if Decision(seen, limits).Ok? then Decision(seen, limits).value else seen
  }

  function Released(b: Bucket): Bucket {
    b.(active := if b.active == 0 then 0 else b.active - 1)
  }

  /** `PrincipalLimiter`, one critical section per method. */
  class PrincipalLimiter {
    var buckets: Buckets

    constructor ()
      ensures buckets == map[]
    {
      buckets := map[];
    }

    /** Admits or refuses one request of an authority; no other bucket is touched. */
    method Acquire(authority: string, now: real, limits: Limits) returns (r: Result<(), LimitError>)
      modifies this
      ensures buckets == old(buckets)[authority := Acquired(Find(old(buckets), authority), now, limits)]
      ensures r.Ok? <==> Decision(Refilled(Find(old(buckets), authority), now, limits), limits).Ok?
      ensures r.Err? ==> Decision(Refilled(Find(old(buckets), authority), now, limits), limits) == Err(r.error)
    {
      if authority !in buckets {
        buckets := buckets[authority := Bucket(limits.burst as real, now, 0)];
      }
      var bucket := buckets[authority];
      var elapsed := Elapsed(now, bucket.lastRefill);
      bucket := bucket.(tokens := Min(bucket.tokens + elapsed * PerSecond(limits), limits.burst as real));
      bucket := bucket.(lastRefill := now);
      buckets := buckets[authority := bucket];
      if bucket.active >= limits.maxConcurrent {
        return Err(Concurrency);
      }
      if bucket.tokens < 1.0 {
        return Err(Rate);
      }
      bucket := bucket.(tokens := bucket.tokens - 1.0, active := bucket.active + 1);
      buckets := buckets[authority := bucket];
      return Ok(());
    }

    /** Dropping a permit. */
    method Drop(authority: string)
      modifies this
      ensures buckets == if authority in old(buckets) then old(buckets)[authority := Released(old(buckets)[authority])] else old(buckets)
    {
      if authority in buckets {
        buckets := buckets[authority := Released(buckets[authority])];
      }
    }
  }

  // ----- runs -----

  datatype Event = Acquire(authority: string, now: real) | Drop(authority: string)

  function Step(limits: string -> Limits, buckets: Buckets, e: Event): Buckets {
    match e
    case Acquire(a, now) => buckets[a := Acquired(Find(buckets, a), now, limits(a))]
    case Drop(a) => if a in buckets then buckets[a := Released(buckets[a])] else buckets
  }

  function Run(limits: string -> Limits, events: seq<Event>): Buckets {
    if events == [] then map[] else Step(limits, Run(limits, events[..|events| - 1]), events[|events| - 1])
  }

  /** Event k is an acquisition by the authority. */
  predicate Asks(events: seq<Event>, a: string, k: nat) {
    k < |events| && events[k].Acquire? && events[k].authority == a
  }

  function Seen(limits: string -> Limits, events: seq<Event>, k: nat): Bucket
    requires k < |events| && events[k].Acquire?
  {
    Refilled(Find(Run(limits, events[..k]), events[k].authority), events[k].now, limits(events[k].authority))
  }

  /** What the acquisition at event k returns. */
  function Outcome(limits: string -> Limits, events: seq<Event>, k: nat): Result<(), LimitError>
    requires k < |events| && events[k].Acquire?
  {
    match Decision(Seen(limits, events, k), limits(events[k].authority))
    case Ok(_) => Ok(())
    case Err(e) => Err(e)
  }

  predicate Admits(limits: string -> Limits, events: seq<Event>, a: string, k: nat) {
    Asks(events, a, k) && Outcome(limits, events, k).Ok?
  }

  /** Requests of the authority admitted at events i up to j. */
  function Admitted(limits: string -> Limits, events: seq<Event>, a: string, i: nat, j: nat): nat
    requires i <= j <= |events|
    decreases j
  {
    if i == j then 0 else Admitted(limits, events, a, i, j - 1) + (if Admits(limits, events, a, j - 1) then 1 else 0)
  }

  function Dropped(events: seq<Event>, a: string, j: nat): nat
    requires j <= |events|
  {
    if j == 0 then 0 else Dropped(events, a, j - 1) + (if events[j - 1] == Drop(a) then 1 else 0)
  }

  /** Only permits that were given out and not yet dropped can be dropped. */
  ghost predicate PermitsLinear(limits: string -> Limits, events: seq<Event>) {
    forall k :: 0 <= k < |events| && events[k].Drop? ==>
      Dropped(events, events[k].authority, k) < Admitted(limits, events, events[k].authority, 0, k)
  }

  ghost predicate ClockMonotone(events: seq<Event>) {
    forall i, j :: 0 <= i < j < |events| && events[i].Acquire? && events[j].Acquire? ==> events[i].now <= events[j].now
  }

  // ----- the bucket of one authority after k events -----

  function After(limits: string -> Limits, events: seq<Event>, a: string, k: nat): Option<Bucket>
    requires k <= |events|
  {
    Find(Run(limits, events[..k]), a)
  }

  lemma AfterStep(limits: string -> Limits, events: seq<Event>, a: string, k: nat)
    requires k < |events|
    ensures events[k].authority != a ==> After(limits, events, a, k + 1) == After(limits, events, a, k)
    ensures Asks(events, a, k) ==> After(limits, events, a, k + 1) == Some(Acquired(After(limits, events, a, k), events[k].now, limits(a)))
    ensures events[k] == Drop(a) && After(limits, events, a, k).Some? ==> After(limits, events, a, k + 1) == Some(Released(After(limits, events, a, k).value))
    ensures events[k] == Drop(a) && After(limits, events, a, k).None? ==> After(limits, events, a, k + 1).None?
  {
    assert events[..k + 1][..k] == events[..k];
  }

  /** Tokens stay within zero and the burst. */
  lemma {:induction false} TokensBounded(limits: string -> Limits, events: seq<Event>, a: string, k: nat)
    requires k <= |events|
    ensures var b := After(limits, events, a, k); b.Some? ==> 0.0 <= b.value.tokens <= limits(a).burst as real
  {
    if k > 0 {
      AfterStep(limits, events, a, k - 1);
      TokensBounded(limits, events, a, k - 1);
    }
  }

  /** The permits in use are those admitted and not yet dropped, and never exceed the limit. */
  lemma {:induction false} ActiveIsOutstanding(limits: string -> Limits, events: seq<Event>, a: string, k: nat)
    requires k <= |events| && PermitsLinear(limits, events)
    ensures var b := After(limits, events, a, k);
      Admitted(limits, events, a, 0, k) - Dropped(events, a, k) == (if b.Some? then b.value.active else 0) <= limits(a).maxConcurrent
  {
    if k > 0 {
      AfterStep(limits, events, a, k - 1);
      ActiveIsOutstanding(limits, events, a, k - 1);
    }
  }

  // ----- isolation -----

  function Only(events: seq<Event>, a: string): seq<Event> {
    if events == [] then []
    else Only(events[..|events| - 1], a) + (if events[|events| - 1].authority == a then [events[|events| - 1]] else [])
  }

  /** An authority's bucket is what its own events alone would have made of it. */
  lemma {:induction false} Isolation(limits: string -> Limits, events: seq<Event>, a: string)
    ensures Find(Run(limits, events), a) == Find(Run(limits, Only(events, a)), a)
  {
    if events != [] {
      var before, e := events[..|events| - 1], events[|events| - 1];
      Isolation(limits, before, a);
      if e.authority == a {
        var own := Only(before, a) + [e];
        assert own[..|own| - 1] == Only(before, a);
      } else {
        assert Only(events, a) == Only(before, a);
      }
    }
  }

  // ----- the window bound -----

  lemma {:induction false} LastRefillIsOwn(limits: string -> Limits, events: seq<Event>, a: string, k: nat)
    requires k <= |events|
    ensures var b := After(limits, events, a, k); b.Some? ==> exists i :: 0 <= i < k && Asks(events, a, i) && events[i].now == b.value.lastRefill
  {
    if k > 0 {
      AfterStep(limits, events, a, k - 1);
      LastRefillIsOwn(limits, events, a, k - 1);
    }
  }

  /** Where the bucket stands against a window that opens with event i. */
  ghost predicate WithinWindow(limits: string -> Limits, events: seq<Event>, a: string, i: nat, k: nat, start: real)
    requires i <= k <= |events|
  {
    var b := After(limits, events, a, k);
    if b.None? || b.value.lastRefill < start then Admitted(limits, events, a, i, k) == 0
    else Admitted(limits, events, a, i, k) as real + b.value.tokens <= limits(a).burst as real + Gain(b.value.lastRefill - start, limits(a))
  }

  lemma WindowStep(limits: string -> Limits, events: seq<Event>, a: string, i: nat, k: nat, start: real)
    requires i <= k < |events| && WithinWindow(limits, events, a, i, k, start)
    requires events[k].Acquire? ==> start <= events[k].now
    requires ClockMonotone(events)
    ensures WithinWindow(limits, events, a, i, k + 1, start)
  {
    hide Gain, Run;
    AfterStep(limits, events, a, k);
    if Asks(events, a, k) {
      var b, now := After(limits, events, a, k), events[k].now;
      LastRefillIsOwn(limits, events, a, k);
      if b.Some? && b.value.lastRefill >= start {
        assert b.value.lastRefill <= now;
        GainAdds(b.value.lastRefill - start, now - b.value.lastRefill, limits(a));
      } else {
        GainAdds(0.0, 0.0, limits(a));
        GainGrows(0.0, now - start, limits(a));
      }
    }
  }

  lemma {:induction false} WindowHolds(limits: string -> Limits, events: seq<Event>, a: string, i: nat, k: nat, start: real)
    requires i <= k <= |events| && ClockMonotone(events)
    requires forall n :: i <= n < k && events[n].Acquire? ==> start <= events[n].now
    requires forall n :: 0 <= n < i && events[n].Acquire? ==> events[n].now <= start
    ensures WithinWindow(limits, events, a, i, k, start)
    decreases k
  {
    hide Gain, Run;
    if k == i {
      TokensBounded(limits, events, a, i);
      LastRefillIsOwn(limits, events, a, i);
      if After(limits, events, a, k).Some? {
        assert After(limits, events, a, k).value.lastRefill <= start;
        GainAdds(0.0, 0.0, limits(a));
      }
    } else {
      WindowHolds(limits, events, a, i, k - 1, start);
      WindowStep(limits, events, a, i, k - 1, start);
    }
  }

  /** In any window of the given length at most burst + length * rpm / 60 requests are admitted. */
  lemma WindowBound(limits: string -> Limits, events: seq<Event>, a: string, i: nat, j: nat, start: real, length: real)
    requires i <= j <= |events| && ClockMonotone(events) && length >= 0.0
    requires forall n :: i <= n < j && events[n].Acquire? ==> start <= events[n].now <= start + length
    requires forall n :: 0 <= n < i && events[n].Acquire? ==> events[n].now <= start
    ensures Admitted(limits, events, a, i, j) as real <= limits(a).burst as real + length * limits(a).requestsPerMinute as real / 60.0
  {
    GainIs(length, limits(a));
    hide Gain, Run;
    WindowHolds(limits, events, a, i, j, start);
    TokensBounded(limits, events, a, j);
    LastRefillIsOwn(limits, events, a, j);
    var b := After(limits, events, a, j);
    GainAdds(0.0, 0.0, limits(a));
    GainGrows(0.0, length, limits(a));
    if b.Some? && b.value.lastRefill >= start {
      var n :| 0 <= n < j && Asks(events, a, n) && events[n].now == b.value.lastRefill;
      assert events[n].now <= start + length;
      GainGrows(b.value.lastRefill - start, length, limits(a));
    }
  }

  // ----- no stricter than the bound -----

  /** The window that opens with the authority's own event i is what limits its tokens after k events. */
  ghost predicate Limiting(limits: string -> Limits, events: seq<Event>, a: string, i: nat, k: nat)
    requires k <= |events|
  {
    var b := After(limits, events, a, k);
    b.Some? && i < k && Asks(events, a, i) && b.value.tokens
      == limits(a).burst as real + Gain(b.value.lastRefill - events[i].now, limits(a)) - Admitted(limits, events, a, i, k) as real
  }

  lemma {:induction false} SomeWindowLimits(limits: string -> Limits, events: seq<Event>, a: string, k: nat) returns (i: nat)
    requires k <= |events| && ClockMonotone(events)
    ensures After(limits, events, a, k).Some? ==> Limiting(limits, events, a, i, k)
  {
    i := 0;
    if k > 0 {
      i := SomeWindowLimits(limits, events, a, k - 1);
      if Asks(events, a, k - 1) {
        i := LimitingStep(limits, events, a, i, k - 1);
      } else if After(limits, events, a, k - 1).Some? {
        LimitingStays(limits, events, a, i, k - 1);
      } else {
        AfterStep(limits, events, a, k - 1);
      }
    }
  }

  lemma LimitingStays(limits: string -> Limits, events: seq<Event>, a: string, i: nat, k: nat)
    requires k < |events| && !Asks(events, a, k) && Limiting(limits, events, a, i, k)
    ensures Limiting(limits, events, a, i, k + 1)
  {
    hide Gain, Run;
    AfterStep(limits, events, a, k);
    assert !Admits(limits, events, a, k);
  }

  lemma LimitingStep(limits: string -> Limits, events: seq<Event>, a: string, i: nat, k: nat) returns (i': nat)
    requires k < |events| && ClockMonotone(events) && Asks(events, a, k)
    requires After(limits, events, a, k).Some? ==> Limiting(limits, events, a, i, k)
    ensures Limiting(limits, events, a, i', k + 1)
  {
    hide Gain, Run;
    AfterStep(limits, events, a, k);
    var b, now := After(limits, events, a, k), events[k].now;
    if b.None? || b.value.tokens + Gain(Elapsed(now, b.value.lastRefill), limits(a)) > limits(a).burst as real {
      i' := k;
    } else {
      i' := i;
      LastRefillIsOwn(limits, events, a, k);
      assert b.value.lastRefill <= now;
      GainAdds(b.value.lastRefill - events[i].now, now - b.value.lastRefill, limits(a));
    }
    assert Admitted(limits, events, a, k, k) == 0;
    GainAdds(0.0, 0.0, limits(a));
  }

  /** Admitting event k too would exceed the bound of the window that opens with the authority's event i. */
  ghost predicate WouldExceed(limits: string -> Limits, events: seq<Event>, a: string, i: nat, k: nat)
    requires i <= k < |events| && Asks(events, a, i) && Asks(events, a, k)
  {
    Admitted(limits, events, a, i, k) as real + 1.0
      > limits(a).burst as real + (events[k].now - events[i].now) * limits(a).requestsPerMinute as real / 60.0
  }

  lemma ExceedsByGain(limits: string -> Limits, events: seq<Event>, a: string, i: nat, k: nat)
    requires i <= k < |events| && Asks(events, a, i) && Asks(events, a, k)
    ensures WouldExceed(limits, events, a, i, k)
      <==> Admitted(limits, events, a, i, k) as real + 1.0 > limits(a).burst as real + Gain(events[k].now - events[i].now, limits(a))
  {
    hide Gain, Admitted;
    GainIs(events[k].now - events[i].now, limits(a));
  }

  /** Tokens run short exactly when one more admission would exceed the bound in some window. */
  lemma ShortExactly(limits: string -> Limits, events: seq<Event>, a: string, k: nat)
    requires ClockMonotone(events) && Asks(events, a, k)
    ensures Seen(limits, events, k).tokens < 1.0 <==> exists i :: 0 <= i <= k && Asks(events, a, i) && WouldExceed(limits, events, a, i, k)
  {
    hide Gain, Run;
    var b, now := After(limits, events, a, k), events[k].now;
    GainAdds(0.0, 0.0, limits(a));
    if Seen(limits, events, k).tokens < 1.0 {
      hide WouldExceed;
      var i := SomeWindowLimits(limits, events, a, k);
      if b.None? || b.value.tokens + Gain(Elapsed(now, b.value.lastRefill), limits(a)) > limits(a).burst as real {
        ExceedsByGain(limits, events, a, k, k);
        assert WouldExceed(limits, events, a, k, k);
      } else {
        LastRefillIsOwn(limits, events, a, k);
        assert b.value.lastRefill <= now;
        GainAdds(b.value.lastRefill - events[i].now, now - b.value.lastRefill, limits(a));
        ExceedsByGain(limits, events, a, i, k);
        assert WouldExceed(limits, events, a, i, k);
      }
    } else {
      forall i | 0 <= i <= k && Asks(events, a, i)
        ensures !WouldExceed(limits, events, a, i, k)
      {
        EnoughInWindow(limits, events, a, i, k);
      }
    }
  }

  /** With a whole token left, one more admission keeps to the bound of every window. */
  lemma EnoughInWindow(limits: string -> Limits, events: seq<Event>, a: string, i: nat, k: nat)
    requires ClockMonotone(events) && i <= k && Asks(events, a, i) && Asks(events, a, k)
    requires Seen(limits, events, k).tokens >= 1.0
    ensures !WouldExceed(limits, events, a, i, k)
  {
    hide Gain, Run, WouldExceed;
    ExceedsByGain(limits, events, a, i, k);
    var b, now, start := After(limits, events, a, k), events[k].now, events[i].now;
    WindowHolds(limits, events, a, i, k, start);
    LastRefillIsOwn(limits, events, a, k);
    GainAdds(0.0, 0.0, limits(a));
    GainGrows(0.0, now - start, limits(a));
    if b.Some? && b.value.lastRefill >= start {
      assert b.value.lastRefill <= now;
      GainAdds(b.value.lastRefill - start, now - b.value.lastRefill, limits(a));
    }
  }

  /** Permits of the authority given out and not yet dropped when event k comes. */
  function Outstanding(limits: string -> Limits, events: seq<Event>, a: string, k: nat): int
    requires k <= |events|
  {
    Admitted(limits, events, a, 0, k) - Dropped(events, a, k)
  }

  /**
   Every decision of every history: a request is refused for concurrency exactly when all permits of its authority are
   out, and otherwise for its rate exactly when admitting it would exceed the bound in some window.
   */
  lemma RefusedExactly(limits: string -> Limits, events: seq<Event>, a: string, k: nat)
    requires ClockMonotone(events) && PermitsLinear(limits, events) && Asks(events, a, k)
    ensures Outcome(limits, events, k)
      == if Outstanding(limits, events, a, k) >= limits(a).maxConcurrent then Err(Concurrency)
         else if exists i :: 0 <= i <= k && Asks(events, a, i) && WouldExceed(limits, events, a, i, k) then Err(Rate)
         else Ok(())
  {
    hide Run, WouldExceed;
    ActiveIsOutstanding(limits, events, a, k);
    ShortExactly(limits, events, a, k);
  }
}
