/** Counting limiters on a shared store with expiring counters: the per-second limiter of queued tasks
    and the fixed-window limiter of authentication attempts. */
module RateLimit {
  import opened Text

  /** An admitted request: when, and in which bucket it was counted. */
  datatype Admission = Admission(time: nat, bucket: nat)

  function CountBucket(log: seq<Admission>, bucket: nat): nat {
    if log == [] then 0
    else CountBucket(log[..|log| - 1], bucket) + if log[|log| - 1].bucket == bucket then 1 else 0
  }

  /** Admissions at `from` or later, before `until`. */
  function CountWindow(log: seq<Admission>, from: nat, until: nat): nat {
    if log == [] then 0
    else CountWindow(log[..|log| - 1], from, until) + if from <= log[|log| - 1].time < until then 1 else 0
  }

  /** If a window only meets two buckets, it holds no more than both. */
  lemma {:induction false} TwoBuckets(log: seq<Admission>, from: nat, until: nat, a: nat, b: nat)
    requires forall k :: 0 <= k < |log| && from <= log[k].time < until ==> log[k].bucket == a || log[k].bucket == b
    ensures CountWindow(log, from, until) <= CountBucket(log, a) + CountBucket(log, b)
  {
    if log != [] {
      TwoBuckets(log[..|log| - 1], from, until, a, b);
    }
  }

  lemma {:induction false} EmptyWindow(log: seq<Admission>, from: nat, until: nat)
    requires forall k :: 0 <= k < |log| ==> !(from <= log[k].time < until)
    ensures CountWindow(log, from, until) == 0
  {
    if log != [] {
      EmptyWindow(log[..|log| - 1], from, until);
    }
  }

  lemma CountAppend(log: seq<Admission>, e: Admission, bucket: nat)
    ensures CountBucket(log + [e], bucket) == CountBucket(log, bucket) + if e.bucket == bucket then 1 else 0
  {
    assert (log + [e])[..|log|] == log;
  }

  // ---------------------------------------------------------------- tasks: one counter per second

  const SECOND := 1_000_000

  /** A counter and the millisecond at which the store drops it. */
  datatype Counter = Counter(count: nat, expiresAt: nat)

  /** Sleeping for the delay that is returned always ends in a later second, and never oversleeps the
      start of the next one by a millisecond or more. */
  lemma SleepReachesNextSecond(now: nat)
    ensures var wake := now + (1000 - now % SECOND / 1000) * 1000;
            wake / SECOND == now / SECOND + 1 && wake % SECOND < 1000
  {
    var micros := now % SECOND;
    assert micros == micros / 1000 * 1000 + micros % 1000;
    var wake := now + (1000 - micros / 1000) * 1000;
    assert wake == (now / SECOND + 1) * SECOND + micros % 1000;
  }

  class TaskLimiter {
    const limit: nat
    /** The clock of the store in microseconds. */
    var now: nat
    /** Counters by the second in their key. */
    var counters: map<nat, Counter>
    ghost var admitted: seq<Admission>

    /** The counter of the running second is complete and outlives it; no second admitted too many. */
    ghost predicate Valid()
      reads this
    {
      && (forall s <- counters :: s <= now / SECOND && counters[s].expiresAt >= (s + 2) * 1000 &&
                                  CountBucket(admitted, s) <= counters[s].count)
      && (forall s: nat :: CountBucket(admitted, s) <= limit)
      && (forall s: nat :: s > now / SECOND || (s == now / SECOND && s !in counters) ==> CountBucket(admitted, s) == 0)
      && (forall k :: 0 <= k < |admitted| ==> admitted[k].bucket == admitted[k].time / SECOND)
    }

    constructor (limit: nat)
      ensures Valid() && this.limit == limit && admitted == []
    {
      this.limit, now, counters, admitted := limit, 0, map[], [];
    }

    /** Time passes, and counters that have expired may be dropped at any time. */
    method Advance(later: nat)
      requires Valid() && later >= now
      modifies `now, `counters
      ensures Valid() && now == later
    {
      hide CountBucket;
      assert later / SECOND >= now / SECOND;
      now := later;
      var dropped: set<nat> := *;
      OutlivesItsSecond(now);
      counters := map s | s in counters && !(s in dropped && counters[s].expiresAt <= now / 1000) :: counters[s];
    }

    /** The script: count the request in the running second and admit it up to the limit, or say how many
        milliseconds to wait. */
    method Reserve() returns (delay: nat)
      requires Valid()
      modifies `counters, `admitted
      ensures Valid()
      ensures delay == 0 ==> admitted == old(admitted) + [Admission(now, now / SECOND)]
      ensures delay > 0 ==> admitted == old(admitted) && delay == 1000 - now % SECOND / 1000
      ensures delay == 0 <==> (if now / SECOND in old(counters) then old(counters)[now / SECOND].count else 0) < limit
    {
      hide CountBucket;
      var second := now / SECOND;
      OutlivesItsSecond(now);
      var counter := if second in counters then counters[second] else Counter(0, now / 1000 + 2000);
      counter := counter.(count := counter.count + 1);
      forall s: nat
        ensures CountBucket(admitted + [Admission(now, second)], s) == CountBucket(admitted, s) + if s ==
                second then 1 else 0
      {
        CountAppend(admitted, Admission(now, second), s);
      }
      counters := counters[second := counter];
      if counter.count <= limit {
        admitted := admitted + [Admission(now, second)];
        return 0;
      }
      delay := 1000 - now % SECOND / 1000;
    }

    /** Try until admitted or past the deadline, each time in a later second, as `tried` shows; between two
        tries others use the limiter too. */
    method Wait(deadline: nat) returns (ok: bool, ghost tried: seq<nat>)
      requires Valid()
      modifies this
      ensures Valid() && now >= old(now)
      ensures forall i, j :: 0 <= i < j < |tried| ==> tried[i] < tried[j]
      ensures limit == 0 ==> ok && tried == [] && unchanged(this)
      ensures limit > 0 ==> |tried| > 0 && tried[0] == old(now) / SECOND
      ensures ok && limit > 0 ==>
                |admitted| > 0 && admitted[|admitted| - 1] == Admission(now, now / SECOND) &&
                tried[|tried| - 1] == now / SECOND
      ensures !ok ==> now > deadline && tried[|tried| - 1] < now / SECOND
    {
      hide Valid;
      tried := [];
      if limit == 0 {
        return true, [];
      }
      while true
        invariant Valid() && now >= old(now)
        invariant forall i, j :: 0 <= i < j < |tried| ==> tried[i] < tried[j]
        invariant if tried == [] then now == old(now) else tried[0] == old(now) / SECOND
        invariant tried != [] ==> tried[|tried| - 1] < now / SECOND
        decreases if deadline < now then 0 else deadline - now + 1
      {
        tried := tried + [now / SECOND];
        var delay := Reserve();
        if delay == 0 {
          return true, tried;
        }
        SleepReachesNextSecond(now);
        var late: nat := *;
        LaterSecond(now + delay * 1000, late);
        Advance(now + delay * 1000 + late);
        if now > deadline {
          return false, tried;
        }
        OthersReserve();
      }
    }

    method OthersReserve()
      requires Valid()
      modifies `counters, `admitted
      ensures Valid()
    {
      var others: nat := *;
      while others > 0
        invariant Valid()
      {
        var delay := Reserve();
        others := others - 1;
      }
    }

    /** No interval of one second admits more than twice the limit. */
    lemma AtMostTwiceInAnySecond(t: nat)
      requires Valid()
      ensures CountWindow(admitted, t, t + SECOND) <= 2 * limit
    {
      hide CountBucket, CountWindow;
      var s := t / SECOND;
      forall k | 0 <= k < |admitted| && t <= admitted[k].time < t + SECOND
        ensures admitted[k].bucket == s || admitted[k].bucket == s + 1
      {
        SecondsMet(t, admitted[k].time);
      }
      TwoBuckets(admitted, t, t + SECOND, s, s + 1);
    }
  }

  lemma LaterSecond(now: nat, late: nat)
    ensures now / SECOND <= (now + late) / SECOND
  {
  }

  lemma SecondsMet(t: nat, time: nat)
    requires t <= time < t + SECOND
    ensures time / SECOND == t / SECOND || time / SECOND == t / SECOND + 1
  {
  }

  /** A counter made in its second, to be dropped two seconds later, is still there when the second ends. */
  lemma OutlivesItsSecond(now: nat)
    ensures now / 1000 + 2000 >= (now / SECOND + 2) * 1000 > now / 1000
  {
  }

  // ---------------------------------------------------------------- authentication: one counter per window

  class WindowLimiter {
    const limit: nat
    /** In nanoseconds; the store counts the lifetime of a counter in whole milliseconds. */
    const window: nat
    const lifetime: nat
    var now: nat
    /** The counter, and since when it has been there. */
    var counter: Option<Counter>
    ghost var since: nat
    ghost var admitted: seq<Admission>

    /** Counters live for one lifetime each, one after the other; each admitted no more than the limit. A
        counter that is to live for no time at all is gone at once. */
    ghost predicate Valid()
      reads this
    {
      && limit > 0 && window > 0 && lifetime == window / 1_000_000
      && if lifetime == 0 then counter == None else
        && Buckets(admitted, lifetime, limit)
        && (match counter
            case Some(c) => c.expiresAt == since + lifetime && since <= now && Until(admitted, since, lifetime) &&
                            CountBucket(admitted, since) <= c.count
            case None => forall k :: 0 <= k < |admitted| ==> admitted[k].bucket + lifetime <= now)
    }

    constructor (limit: nat, window: nat)
      requires limit > 0 && window > 0
      ensures Valid() && this.limit == limit && this.window == window && admitted == []
    {
      this.limit, this.window, lifetime := limit, window, window / 1_000_000;
      now, counter, since, admitted := 0, None, 0, [];
    }

    /** Time passes; the counter is gone as soon as it expires. */
    method Advance(later: nat)
      requires Valid() && later >= now
      modifies `now, `counter
      ensures Valid() && now == later && (counter.Some? ==> now < counter.value.expiresAt)
    {
      now := later;
      if counter.Some? && counter.value.expiresAt <= now {
        counter := None;
      }
    }

    /** The script: start a counter with its lifetime, or count; admit up to the limit and say how long the
        counter still lives. */
    method Allow() returns (allowed: bool, ttl: nat)
      requires Valid() && (counter.Some? ==> now < counter.value.expiresAt)
      modifies `counter, `since, `admitted
      ensures Valid() && (counter.Some? ==> now < counter.value.expiresAt) && (counter == None <==> lifetime == 0)
      ensures allowed <==> old(counter) == None || old(counter).value.count < limit
      ensures |admitted| == |old(admitted)| + if allowed then 1 else 0
      ensures admitted == old(admitted) + if allowed then [Admission(now, since)] else []
      ensures ttl <= lifetime && (counter.Some? ==> ttl == counter.value.expiresAt - now)
    {
      hide CountBucket, Buckets, Until;
      if counter == None {
        if lifetime > 0 {
          NewBucket(admitted, now, lifetime);
        }
        counter, since := Some(Counter(0, now + lifetime)), now;
      }
      counter := Some(counter.value.(count := counter.value.count + 1));
      allowed := counter.value.count <= limit;
      ttl := counter.value.expiresAt - now;
      if counter.value.expiresAt <= now {
        counter := None;
      }
      if allowed {
        if lifetime > 0 {
          OneMoreAdmitted(admitted, since, lifetime, limit, now);
        }
        admitted := admitted + [Admission(now, since)];
      }
    }

    /** A window below a millisecond limits nothing: any number of calls is admitted at one moment. */
    method Burst(n: nat)
      requires Valid() && window < 1_000_000
      modifies `counter, `since, `admitted
      ensures Valid() && |admitted| == |old(admitted)| + n
      ensures forall k :: |old(admitted)| <= k < |admitted| ==> admitted[k].time == now
    {
      for k := 0 to n
        invariant Valid() && |admitted| == |old(admitted)| + k
        invariant forall j :: |old(admitted)| <= j < |admitted| ==> admitted[j].time == now
      {
        var allowed, ttl := Allow();
      }
    }

    /** No interval as long as the lifetime of a counter admits more than twice the limit. */
    lemma AtMostTwiceInAnyWindow(t: nat)
      requires Valid() && window >= 1_000_000
      ensures CountWindow(admitted, t, t + lifetime) <= 2 * limit
    {
      hide CountBucket, CountWindow;
      if a :| 0 <= a < |admitted| && t <= admitted[a].time < t + lifetime {
        if b :| 0 <= b < |admitted| && t <= admitted[b].time < t + lifetime &&
                admitted[b].bucket != admitted[a].bucket
        {
          TwoBuckets(admitted, t, t + lifetime, admitted[a].bucket, admitted[b].bucket);
        } else {
          TwoBuckets(admitted, t, t + lifetime, admitted[a].bucket, admitted[a].bucket);
        }
      } else {
        EmptyWindow(admitted, t, t + lifetime);
      }
    }
  }

  /** Each bucket admitted at most the limit, within its lifetime; two lifetimes do not overlap. */
  ghost predicate Buckets(log: seq<Admission>, window: nat, limit: nat) {
    && (forall b: nat :: CountBucket(log, b) <= limit)
    && (forall k :: 0 <= k < |log| ==> log[k].bucket <= log[k].time < log[k].bucket + window)
    && (forall j, k :: 0 <= j < |log| && 0 <= k < |log| ==>
          log[j].bucket == log[k].bucket || log[j].bucket + window <= log[k].bucket ||
              log[k].bucket + window <= log[j].bucket)
  }

  /** Every other bucket had ended when this one began. */
  ghost predicate Until(log: seq<Admission>, bucket: nat, window: nat) {
    forall k :: 0 <= k < |log| ==> log[k].bucket == bucket || log[k].bucket + window <= bucket
  }

  lemma {:induction false} NewBucket(log: seq<Admission>, bucket: nat, window: nat)
    requires window > 0 && forall k :: 0 <= k < |log| ==> log[k].bucket + window <= bucket
    ensures CountBucket(log, bucket) == 0 && Until(log, bucket, window)
  {
    if log != [] {
      NewBucket(log[..|log| - 1], bucket, window);
    }
  }

  lemma OneMoreAdmitted(log: seq<Admission>, bucket: nat, window: nat, limit: nat, time: nat)
    requires Buckets(log, window, limit) && Until(log, bucket, window) && CountBucket(log, bucket) < limit
    requires bucket <= time < bucket + window
    ensures var more := log + [Admission(time, bucket)];
            Buckets(more, window, limit) && Until(more, bucket, window) &&
                CountBucket(more, bucket) == CountBucket(log, bucket) + 1
  {
    hide CountBucket;
    forall b: nat
      ensures CountBucket(log + [Admission(time, bucket)], b) == CountBucket(log, b) + if b == bucket then 1 else 0
    {
      CountAppend(log, Admission(time, bucket), b);
    }
  }
}
