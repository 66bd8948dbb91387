/** Token buckets, with exact real arithmetic and the clock as a parameter. */
module RateLimit {

  datatype Bucket = Bucket(tokens: real, updated: real)

  datatype Call = Call(time: real, amount: real)

  function Min(a: real, b: real): real {
    if a < b then a else b
  }

  /** What flows in between two times. */
  function Inflow(refill: real, from: real, to: real): real {
    refill * (to - from)
  }

  lemma InflowAdds(refill: real, a: real, b: real, c: real)
    ensures Inflow(refill, a, c) == Inflow(refill, a, b) + Inflow(refill, b, c)
    ensures Inflow(refill, a, a) == 0.0
  {}

  /** The tokens there are at a time, before anything is taken. */
  function Available(capacity: real, refill: real, b: Bucket, now: real): real {
    Min(capacity, b.tokens + Inflow(refill, b.updated, now))
  }

  function Consumed(capacity: real, refill: real, b: Bucket, c: Call): (Bucket, bool) {
    var available := Available(capacity, refill, b, c.time);
    if available < c.amount then (Bucket(available, c.time), false)
    else (Bucket(available - c.amount, c.time), true)
  }

  lemma InflowMeans(refill: real, from: real, to: real)
    ensures Inflow(refill, from, to) == refill * (to - from)
  {}

  /** The bucket refills at its rate up to its capacity; a call takes its amount if that is there, and otherwise
      nothing. */
  lemma ConsumedMeans(capacity: real, refill: real, b: Bucket, c: Call)
    ensures var refilled := b.tokens + refill * (c.time - b.updated);
      var available := if refilled < capacity then refilled else capacity;
      Consumed(capacity, refill, b, c) ==
        if c.amount <= available then (Bucket(available - c.amount, c.time), true)
        else (Bucket(available, c.time), false)
  {
    InflowMeans(refill, b.updated, c.time);
    hide Inflow;
  }

  /** Whoever waits long enough is served: a call of at most the capacity is granted once the missing
      tokens have had the time to flow in. */
  lemma WaitingGrants(capacity: real, refill: real, b: Bucket, c: Call)
    requires refill > 0.0 && c.amount <= capacity && c.time - b.updated >= (c.amount - b.tokens) / refill
    ensures Consumed(capacity, refill, b, c).1
  {
    var missing, wait := c.amount - b.tokens, c.time - b.updated;
    assert missing == refill * (missing / refill);
    MultiplyKeeps(refill, missing / refill, wait);
    ConsumedMeans(capacity, refill, b, c);
    hide Consumed;
  }

  lemma MultiplyKeeps(factor: real, a: real, b: real)
    requires factor > 0.0 && a <= b
    ensures factor * a <= factor * b
  {}

  class TokenBucket {
    const capacity: real
    const refill: real
    var tokens: real
    var updated: real

    constructor (capacity: real, refill: real, now: real)
      ensures this.capacity == capacity && this.refill == refill
      ensures tokens == capacity && updated == now
    {
      this.capacity, this.refill := capacity, refill;
      tokens, updated := capacity, now;
    }

    ghost function State(): Bucket
      reads this
    {
      Bucket(tokens, updated)
    }

    method Consume(now: real, amount: real) returns (granted: bool)
      modifies this`tokens, this`updated
      ensures (State(), granted) == Consumed(capacity, refill, old(State()), Call(now, amount))
      ensures var refilled := old(tokens) + refill * (now - old(updated));
        var available := if refilled < capacity then refilled else capacity;
        granted == (amount <= available) && updated == now
        && tokens == if granted then available - amount else available
    {
      tokens := Min(capacity, tokens + Inflow(refill, updated, now));
      updated := now;
      if tokens < amount {
        return false;
      }
      tokens := tokens - amount;
      return true;
    }
  }

  // ---------- runs of one bucket ----------

  /** The bucket created at `start` after the calls. */
  function After(capacity: real, refill: real, start: real, calls: seq<Call>): Bucket {
    if calls == [] then Bucket(capacity, start)
    else Consumed(capacity, refill, After(capacity, refill, start, calls[..|calls| - 1]), calls[|calls| - 1]).0
  }

  predicate Granted(capacity: real, refill: real, start: real, calls: seq<Call>, k: nat)
    requires k < |calls|
  {
    Consumed(capacity, refill, After(capacity, refill, start, calls[..k]), calls[k]).1
  }

  /** What was granted from call i on. */
  function Spent(capacity: real, refill: real, start: real, calls: seq<Call>, i: nat): real
    requires i <= |calls|
    decreases |calls| - i
  {
    if i == |calls| then 0.0
    else
      var granted := if Granted(capacity, refill, start, calls, i) then calls[i].amount else 0.0;
      granted + Spent(capacity, refill, start, calls, i + 1)
  }

  /** Windows start when the bucket is created (window 0) or at a call (window j at call j - 1). */
  function WindowStart(start: real, calls: seq<Call>, j: nat): real
    requires j <= |calls|
  {
    if j == 0 then start else calls[j - 1].time
  }

  function SpentSince(capacity: real, refill: real, start: real, calls: seq<Call>, j: nat): real
    requires j <= |calls|
  {
    Spent(capacity, refill, start, calls, if j == 0 then 0 else j - 1)
  }

  /** What window j leaves at a time: the capacity and the refill since its start, less what was granted in it. */
  function Allowance(capacity: real, refill: real, start: real, calls: seq<Call>, j: nat, now: real): real
    requires j <= |calls|
  {
    capacity + Inflow(refill, WindowStart(start, calls, j), now) - SpentSince(capacity, refill, start, calls, j)
  }

  lemma {:induction false} SpentAppend(capacity: real, refill: real, start: real, calls: seq<Call>, c: Call, i: nat)
    requires i <= |calls|
    ensures Spent(capacity, refill, start, calls + [c], i) == Spent(capacity, refill, start, calls, i)
      + if Granted(capacity, refill, start, calls + [c], |calls|) then c.amount else 0.0
    decreases |calls| - i
  {
    hide Consumed, After;
    var more := calls + [c];
    if i == |calls| {
      assert Spent(capacity, refill, start, more, i + 1) == 0.0;
    } else {
      SpentAppend(capacity, refill, start, calls, c, i + 1);
      assert more[..i] == calls[..i] && more[i] == calls[i];
    }
  }

  /** Time passing adds the same inflow to every allowance. */
  lemma AllowanceLater(capacity: real, refill: real, start: real, calls: seq<Call>, j: nat, t: real, now: real)
    requires j <= |calls|
    ensures Allowance(capacity, refill, start, calls, j, now)
      == Allowance(capacity, refill, start, calls, j, t) + Inflow(refill, t, now)
  {
    hide SpentSince, Inflow;
    InflowAdds(refill, WindowStart(start, calls, j), t, now);
  }

  /** A call lowers every allowance by what it was granted. */
  lemma AllowanceAfterCall(capacity: real, refill: real, start: real, calls: seq<Call>, c: Call, j: nat)
    requires j <= |calls|
    ensures Allowance(capacity, refill, start, calls + [c], j, c.time)
      == Allowance(capacity, refill, start, calls, j, c.time)
      - if Granted(capacity, refill, start, calls + [c], |calls|) then c.amount else 0.0
  {
    hide Granted, Spent, Inflow;
    SpentAppend(capacity, refill, start, calls, c, if j == 0 then 0 else j - 1);
    assert WindowStart(start, calls + [c], j) == WindowStart(start, calls, j);
  }

  /** The bucket is exact: after any calls its tokens are the least allowance of all windows so far. */
  lemma {:induction false} TokensAreLeastAllowance(capacity: real, refill: real, start: real, calls: seq<Call>)
    ensures var b := After(capacity, refill, start, calls);
      b.updated == WindowStart(start, calls, |calls|)
      && (forall j | 0 <= j <= |calls| :: b.tokens <= Allowance(capacity, refill, start, calls, j, b.updated))
      && (exists j | 0 <= j <= |calls| :: b.tokens == Allowance(capacity, refill, start, calls, j, b.updated))
  {
    if calls == [] {
      assert Allowance(capacity, refill, start, calls, 0, start) == capacity;
    } else {
      var n := |calls| - 1;
      var before, c := calls[..n], calls[n];
      assert calls == before + [c];
      TokensAreLeastAllowance(capacity, refill, start, before);
      LeastAllowanceStep(capacity, refill, start, before, c);
    }
  }

  lemma LeastAllowanceStep(capacity: real, refill: real, start: real, before: seq<Call>, c: Call)
    requires var b := After(capacity, refill, start, before);
      b.updated == WindowStart(start, before, |before|)
      && (forall j | 0 <= j <= |before| :: b.tokens <= Allowance(capacity, refill, start, before, j, b.updated))
      && (exists j | 0 <= j <= |before| :: b.tokens == Allowance(capacity, refill, start, before, j, b.updated))
    ensures var calls := before + [c];
      var b := After(capacity, refill, start, calls);
      b.updated == c.time
      && (forall j | 0 <= j <= |calls| :: b.tokens <= Allowance(capacity, refill, start, calls, j, b.updated))
      && (exists j | 0 <= j <= |calls| :: b.tokens == Allowance(capacity, refill, start, calls, j, b.updated))
  {
    hide Allowance, Inflow;
    var calls, n := before + [c], |before|;
    var previous, b := After(capacity, refill, start, before), After(capacity, refill, start, before + [c]);
    assert calls[..n] == before;
    var inflow := Inflow(refill, previous.updated, c.time);
    var granted := if Granted(capacity, refill, start, calls, n) then c.amount else 0.0;
    assert b.tokens == Min(capacity, previous.tokens + inflow) - granted;
    NewWindow(capacity, refill, start, before, c);
    forall j | 0 <= j <= n
      ensures Allowance(capacity, refill, start, calls, j, c.time)
        == Allowance(capacity, refill, start, before, j, previous.updated) + inflow - granted
    {
      AllowanceLater(capacity, refill, start, before, j, previous.updated, c.time);
      AllowanceAfterCall(capacity, refill, start, before, c, j);
    }
    hide Granted, After;
    var k :| 0 <= k <= n && previous.tokens == Allowance(capacity, refill, start, before, k, previous.updated);
    var tightest := if capacity <= previous.tokens + inflow then n + 1 else k;
    assert b.tokens == Allowance(capacity, refill, start, calls, tightest, c.time);
  }

  /** The window that starts at a call allows the capacity less what the call was granted. */
  lemma NewWindow(capacity: real, refill: real, start: real, before: seq<Call>, c: Call)
    ensures var calls := before + [c];
      Allowance(capacity, refill, start, calls, |before| + 1, c.time)
        == capacity - if Granted(capacity, refill, start, calls, |before|) then c.amount else 0.0
  {
    hide Granted;
    var calls, n := before + [c], |before|;
    assert Spent(capacity, refill, start, calls, n + 1) == 0.0;
    InflowAdds(refill, c.time, c.time, c.time);
  }

  /** The window leaves room for a call. */
  predicate Fits(capacity: real, refill: real, start: real, calls: seq<Call>, c: Call, j: nat)
    requires j <= |calls|
  {
    SpentSince(capacity, refill, start, calls, j) + c.amount
      <= capacity + Inflow(refill, WindowStart(start, calls, j), c.time)
  }

  lemma FitsAllowance(capacity: real, refill: real, start: real, calls: seq<Call>, c: Call, j: nat)
    requires j <= |calls|
    ensures Fits(capacity, refill, start, calls, c, j)
        <==> c.amount <= Allowance(capacity, refill, start, calls, j, c.time)
  {
    hide SpentSince, WindowStart, Inflow;
  }

  /** A call is refused exactly when granting it would break the bound of some window, the one starting now included. */
  lemma RefusedIffSomeWindowBreaks(capacity: real, refill: real, start: real, calls: seq<Call>, c: Call)
    ensures Granted(capacity, refill, start, calls + [c], |calls|)
      <==> c.amount <= capacity && forall j | 0 <= j <= |calls| :: Fits(capacity, refill, start, calls, c, j)
  {
    hide Allowance, Inflow, Fits;
    var b := After(capacity, refill, start, calls);
    var inflow := Inflow(refill, b.updated, c.time);
    assert (calls + [c])[..|calls|] == calls;
    assert Granted(capacity, refill, start, calls + [c], |calls|) <==> c.amount <= Min(capacity, b.tokens + inflow);
    TokensAreLeastAllowance(capacity, refill, start, calls);
    forall j | 0 <= j <= |calls|
      ensures Allowance(capacity, refill, start, calls, j, c.time)
        == Allowance(capacity, refill, start, calls, j, b.updated) + inflow
      ensures Fits(capacity, refill, start, calls, c, j)
          <==> c.amount <= Allowance(capacity, refill, start, calls, j, c.time)
    {
      AllowanceLater(capacity, refill, start, calls, j, b.updated, c.time);
      FitsAllowance(capacity, refill, start, calls, c, j);
    }
    hide Granted, After;
    var k :| 0 <= k <= |calls| && b.tokens == Allowance(capacity, refill, start, calls, k, b.updated);
    assert Fits(capacity, refill, start, calls, c, k) <==> c.amount <= b.tokens + inflow;
  }

  // ---------- what a window can grant ----------

  predicate Monotone(start: real, calls: seq<Call>) {
    forall i, j | 0 <= i <= j <= |calls| :: WindowStart(start, calls, i) <= WindowStart(start, calls, j)
  }

  lemma {:induction false} TokensNeverNegative(capacity: real, refill: real, start: real, calls: seq<Call>)
    requires capacity >= 0.0 && refill >= 0.0 && Monotone(start, calls)
    ensures After(capacity, refill, start, calls).tokens >= 0.0
  {
    if calls != [] {
      var n := |calls| - 1;
      assert Monotone(start, calls[..n]) by {
        forall i, j | 0 <= i <= j <= n ensures WindowStart(start, calls[..n], i) <= WindowStart(start, calls[..n], j) {
          assert WindowStart(start, calls, i) <= WindowStart(start, calls, j);
        }
      }
      TokensNeverNegative(capacity, refill, start, calls[..n]);
      TokensAreLeastAllowance(capacity, refill, start, calls[..n]);
      assert WindowStart(start, calls, n) <= WindowStart(start, calls, n + 1);
      assert Inflow(refill, After(capacity, refill, start, calls[..n]).updated, calls[n].time) >= 0.0;
    }
  }

  /** Under a clock that never goes back, the calls of any window of any run are granted at most
      the capacity plus the refill over the window. */
  lemma WindowBound(capacity: real, refill: real, start: real, calls: seq<Call>, i: nat)
    requires capacity >= 0.0 && refill >= 0.0 && i < |calls|
    requires start <= calls[0].time && forall k | 0 < k < |calls| :: calls[k - 1].time <= calls[k].time
    ensures Spent(capacity, refill, start, calls, i)
      <= capacity + refill * (calls[|calls| - 1].time - calls[i].time)
  {
    StepsMonotone(start, calls);
    hide Monotone, Spent, Inflow;
    SpentWithin(capacity, refill, start, calls, i);
    InflowMeans(refill, calls[i].time, calls[|calls| - 1].time);
  }

  lemma {:induction false} StepsMonotone(start: real, calls: seq<Call>)
    requires calls == [] || start <= calls[0].time
    requires forall k | 0 < k < |calls| :: calls[k - 1].time <= calls[k].time
    ensures Monotone(start, calls)
  {
    if calls != [] {
      var n := |calls| - 1;
      StepsMonotone(start, calls[..n]);
      assert forall j | 0 <= j <= n :: WindowStart(start, calls, j) == WindowStart(start, calls[..n], j);
      assert WindowStart(start, calls, n) <= WindowStart(start, calls, n + 1);
    }
  }

  lemma SpentWithin(capacity: real, refill: real, start: real, calls: seq<Call>, i: nat)
    requires capacity >= 0.0 && refill >= 0.0 && Monotone(start, calls) && i < |calls|
    ensures Spent(capacity, refill, start, calls, i)
      <= capacity + Inflow(refill, calls[i].time, calls[|calls| - 1].time)
  {
    TokensNeverNegative(capacity, refill, start, calls);
    TokensAreLeastAllowance(capacity, refill, start, calls);
    var b := After(capacity, refill, start, calls);
    CallWindow(capacity, refill, start, calls, i, b.updated);
    hide Allowance, Spent, After, Inflow;
    assert b.tokens <= Allowance(capacity, refill, start, calls, i + 1, b.updated);
  }

  lemma CallWindow(capacity: real, refill: real, start: real, calls: seq<Call>, i: nat, now: real)
    requires i < |calls|
    ensures WindowStart(start, calls, |calls|) == calls[|calls| - 1].time
    ensures Allowance(capacity, refill, start, calls, i + 1, now)
      == capacity + Inflow(refill, calls[i].time, now) - Spent(capacity, refill, start, calls, i)
  {
    hide Spent, Inflow;
  }

  // ---------- one bucket to a key ----------

  type Buckets = map<string, Bucket>

  /** One unit, from the key's bucket, created full when the key is new. */
  function Checked(capacity: real, refill: real, buckets: Buckets, key: string, now: real): (Buckets, bool) {
    var bucket := if key in buckets then buckets[key] else Bucket(capacity, now);
    var (after, granted) := Consumed(capacity, refill, bucket, Call(now, 1.0));
    (buckets[key := after], granted)
  }

  class RateLimiter {
    const capacity: real
    const refill: real
    var buckets: map<string, TokenBucket>

    ghost predicate Valid()
      reads this, buckets.Values
    {
      (forall k | k in buckets :: buckets[k].capacity == capacity && buckets[k].refill == refill)
      && forall k, l | k in buckets && l in buckets && k != l :: buckets[k] != buckets[l]
    }

    ghost function State(): Buckets
      reads this, buckets.Values
    {
      map k | k in buckets :: buckets[k].State()
    }

    constructor (capacity: real, refill: real)
      ensures Valid() && this.capacity == capacity && this.refill == refill && State() == map[]
    {
      this.capacity, this.refill := capacity, refill;
      buckets := map[];
    }

    /** False stands for a RateLimitError. */
    method Check(key: string, now: real) returns (granted: bool)
      requires Valid()
      modifies this`buckets, buckets.Values
      ensures Valid() && fresh(buckets.Values - old(buckets.Values))
      ensures (State(), granted) == Checked(capacity, refill, old(State()), key, now)
    {
      hide Consumed;
      ghost var before := State();
      var bucket: TokenBucket;
      if key in buckets {
        bucket := buckets[key];
      } else {
        bucket := new TokenBucket(capacity, refill, now);
        buckets := buckets[key := bucket];
      }
      assert bucket == buckets[key] && bucket in buckets.Values;
      granted := bucket.Consume(now, 1.0);
      assert forall k | k in before && k != key :: buckets[k].State() == before[k];
      assert State() == Checked(capacity, refill, before, key, now).0;
    }
  }

  datatype Event = Event(key: string, time: real)

  function AfterEvents(capacity: real, refill: real, events: seq<Event>): Buckets {
    if events == [] then map[]
    else
      var e := events[|events| - 1];
      Checked(capacity, refill, AfterEvents(capacity, refill, events[..|events| - 1]), e.key, e.time).0
  }

  function CallsOf(events: seq<Event>, key: string): seq<Call> {
    if events == [] then []
    else
      var e := events[|events| - 1];
      CallsOf(events[..|events| - 1], key) + if e.key == key then [Call(e.time, 1.0)] else []
  }

  /** Interleaved keys do not touch each other: each key's bucket is a bucket of its own that was
      created at the key's first check and saw the key's checks only. */
  lemma {:induction false} KeysAreIndependent(capacity: real, refill: real, events: seq<Event>, key: string)
    ensures var calls := CallsOf(events, key);
      (key in AfterEvents(capacity, refill, events) <==> calls != [])
      && (calls != [] ==> AfterEvents(capacity, refill, events)[key] == After(capacity, refill, calls[0].time, calls))
  {
    hide Consumed;
    if events != [] {
      var n := |events| - 1;
      KeysAreIndependent(capacity, refill, events[..n], key);
      var before, calls := CallsOf(events[..n], key), CallsOf(events, key);
      if events[n].key == key {
        assert calls == before + [Call(events[n].time, 1.0)];
        assert calls[..|calls| - 1] == before;
        assert before != [] ==> calls[0] == before[0];
        var previous := AfterEvents(capacity, refill, events[..n]);
        var bucket := if key in previous then previous[key] else Bucket(capacity, events[n].time);
        assert bucket == After(capacity, refill, calls[0].time, before);
      } else {
        assert calls == before;
      }
    }
  }

  /** ... and each decision is the one that bucket makes. */
  lemma DecisionsAreIndependent(capacity: real, refill: real, events: seq<Event>, e: Event)
    ensures var calls := CallsOf(events + [e], e.key);
      calls != []
      && Checked(capacity, refill, AfterEvents(capacity, refill, events), e.key, e.time).1
        == Granted(capacity, refill, calls[0].time, calls, |calls| - 1)
  {
    hide Consumed;
    assert (events + [e])[..|events|] == events;
    KeysAreIndependent(capacity, refill, events, e.key);
    var before, calls := CallsOf(events, e.key), CallsOf(events + [e], e.key);
    assert calls[..|calls| - 1] == before;
  }

  /** Checks of one key at one moment. */
  function Burst(key: string, time: real, n: nat): seq<Event> {
    if n == 0 then [] else Burst(key, time, n - 1) + [Event(key, time)]
  }

  /** A new key is granted exactly as many checks at one moment as the capacity has units. */
  lemma {:induction false} BurstExact(capacity: nat, refill: real, key: string, time: real, n: nat)
    requires n <= capacity
    ensures n > 0 ==> var after := AfterEvents(capacity as real, refill, Burst(key, time, n));
      key in after && after[key] == Bucket((capacity - n) as real, time)
    ensures Checked(capacity as real, refill, AfterEvents(capacity as real, refill, Burst(key, time, n)), key, time).1
      <==> n < capacity
  {
    hide Checked, AfterEvents;
    var buckets := AfterEvents(capacity as real, refill, Burst(key, time, n));
    NoEvents(capacity as real, refill);
    if n > 0 {
      BurstExact(capacity, refill, key, time, n - 1);
      BurstStep(capacity as real, refill, key, time, n);
      var before := AfterEvents(capacity as real, refill, Burst(key, time, n - 1));
      assert (capacity - (n - 1)) as real == (capacity - n) as real + 1.0;
      CheckNow(capacity as real, refill, before, key, time, (capacity - n) as real + 1.0);
    }
    CheckNow(capacity as real, refill, buckets, key, time, (capacity - n) as real);
  }

  lemma NoEvents(capacity: real, refill: real)
    ensures AfterEvents(capacity, refill, []) == map[]
  {}

  lemma BurstStep(capacity: real, refill: real, key: string, time: real, n: nat)
    requires n > 0
    ensures AfterEvents(capacity, refill, Burst(key, time, n))
      == Checked(capacity, refill, AfterEvents(capacity, refill, Burst(key, time, n - 1)), key, time).0
  {
    hide Checked;
    BurstLength(key, time, n);
    assert Burst(key, time, n)[..n - 1] == Burst(key, time, n - 1);
  }

  lemma CheckNow(capacity: real, refill: real, buckets: Buckets, key: string, time: real, tokens: real)
    requires if key in buckets then buckets[key] == Bucket(tokens, time) else tokens == capacity
    requires tokens <= capacity
    ensures Checked(capacity, refill, buckets, key, time)
      == if tokens >= 1.0 then (buckets[key := Bucket(tokens - 1.0, time)], true)
         else (buckets[key := Bucket(tokens, time)], false)
  {
    ConsumedMeans(capacity, refill, Bucket(tokens, time), Call(time, 1.0));
    hide Consumed;
    assert refill * (time - time) == 0.0;
  }

  lemma {:induction false} BurstLength(key: string, time: real, n: nat)
    ensures |Burst(key, time, n)| == n
  {
    if n > 0 { BurstLength(key, time, n - 1); }
  }
}
