/**
 * `check_rate_limit`: a fixed-window counter per client IP. A call with no
 * stored counter creates one and admits; a call more than one second after
 * the window's start resets the counter and admits; a call inside the
 * window admits and counts while fewer than two requests were counted, and
 * otherwise answers 429 without writing anything.
 *
 * The counters are a map from IP to stored record (`find_one({ip})` and
 * `update_one({ip})` address a counter by its IP). The clock reading, in
 * whole seconds, and the ObjectId the driver generates for an insert are
 * parameters. Calls are sequential.
 */
module CheckRateLimitHandler {
  import opened Options
  import opened ObjectIds
  import opened Serde
  import opened Responses
  import opened RateLimits

  /** A window lasts while fewer than this many seconds, or exactly this many, have passed. */
  const WindowSeconds := 1

  /** Requests admitted per window. */
  const MaxRequests := 2

  type Counters = map<string, RateLimitEntry>

  /** Seconds since the counter's window started, as the handler computes them. */
  function Elapsed(e: RateLimitEntry, now: int): (elapsed: int)
    ensures forall start :: e.lastRequestTime == SecsToMillis(start) ==> elapsed == now - start
  {
    SecsRoundTripAll();
    now - MillisToSecs(e.lastRequestTime)
  }

  /** Every counter sits under its own IP and counts one or two requests. */
  ghost predicate WellFormed(counters: Counters) {
    forall ip :: ip in counters ==> counters[ip].ip == ip && 1 <= counters[ip].requestCount <= MaxRequests
  }

  /** Some stored counter already carries this `_id`, so inserting another with it fails. */
  predicate IdTaken(counters: Counters, v: Value) {
    exists ip :: ip in counters && StoredId(counters[ip]) == v
  }

  /**
   * A call for an IP whose counter is stored: the reply and the counter as
   * stored afterwards (unchanged when nothing is written).
   */
  function Revisit(e: RateLimitEntry, now: int): (res: (Response<()>, RateLimitEntry))
    ensures res.0 == TooManyRequests <==> Elapsed(e, now) <= WindowSeconds && e.requestCount >= MaxRequests
    ensures res.0 != TooManyRequests ==> res.0 == Ok(())
    ensures res.0 == TooManyRequests ==> res.1 == e
    ensures Elapsed(e, now) <= WindowSeconds && e.requestCount < MaxRequests ==>
      res.1 == e.(requestCount := e.requestCount + 1)
    ensures Elapsed(e, now) > WindowSeconds ==>
      && res.1 == e.(requestCount := 1, lastRequestTime := now * MillisPerSecond)
      && MillisToSecs(res.1.lastRequestTime) == now
  {
    SecsRoundTrip(now);
    if Elapsed(e, now) <= WindowSeconds then
      if e.requestCount >= MaxRequests then (TooManyRequests, e)
      else (Ok(()), e.(requestCount := e.requestCount + 1))
    else
      (Ok(()), e.(requestCount := 1, lastRequestTime := SecsToMillis(now)))
  }

  /**
   * A first call for an IP: `insert_one` of the given document of a newEntry
   * counter. The driver stores the document's own `_id` if it has one and
   * the generated one otherwise; an `_id` some counter already has is a
   * duplicate key, and the `unwrap` on the insert's result panics.
   */
  function Insert(counters: Counters, newEntry: RateLimitEntry, doc: seq<Field>, generated: ObjectId)
    : (res: (Response<()>, Counters))
    requires InsertedId(doc, generated).Oid? || InsertedId(doc, generated).Null?
    ensures res.0 == Panicked <==> IdTaken(counters, InsertedId(doc, generated))
    ensures res.0 != Panicked ==> res.0 == Ok(())
    ensures res.0 == Panicked ==> res.1 == counters
    ensures res.0 == Ok(()) ==>
      && res.1.Keys == counters.Keys + {newEntry.ip}
      && res.1[newEntry.ip] == newEntry.(id := ReadId(InsertedId(doc, generated)))
      && StoredId(res.1[newEntry.ip]) == InsertedId(doc, generated)
      && forall other :: other in counters && other != newEntry.ip ==> res.1[other] == counters[other]
  {
    var v := InsertedId(doc, generated);
    if IdTaken(counters, v) then (Panicked, counters)
    else (Ok(()), counters[newEntry.ip := newEntry.(id := ReadId(v))])
  }

  /** The counter a first call for `ip` at `now` creates, before the store gives it an `_id`. */
  function FreshCounter(ip: string, now: int): (e: RateLimitEntry)
    ensures e.id == None && e.ip == ip && e.requestCount == 1
    ensures e.lastRequestTime == now * MillisPerSecond && MillisToSecs(e.lastRequestTime) == now
  {
    SecsRoundTrip(now);
    RateLimitEntry(None, ip, 1, SecsToMillis(now))
  }

  /**
   * `check_rate_limit` as the handler is written: the newEntry counter is
   * inserted as `to_document` writes it, with an `_id` of null.
   */
  function StepAsWritten(counters: Counters, ip: string, now: int, generated: ObjectId): (res: (Response<()>, Counters))
    ensures ip !in counters ==> (res.0 != Panicked <==> !IdTaken(counters, Null))
  {
    if ip in counters then
      var (r, e) := Revisit(counters[ip], now);
      (r, if r == TooManyRequests then counters else counters[ip := e])
    else
      var newEntry := FreshCounter(ip, now);
      Insert(counters, newEntry, ToDocument(newEntry), generated)
  }

  /**
   * `check_rate_limit` with the counter's absent `_id` left out of the
   * inserted document, so that the store assigns the generated identifier.
   * Only the counter of `ip` is read or written.
   */
  function Step(counters: Counters, ip: string, now: int, generated: ObjectId): (res: (Response<()>, Counters))
    ensures res.0 in {Ok(()), TooManyRequests, Panicked}
    ensures res.0 == Panicked <==> ip !in counters && IdTaken(counters, Oid(generated))
    ensures res.0 != Ok(()) ==> res.1 == counters
    ensures res.0 == Ok(()) ==> ip in res.1 && res.1.Keys == counters.Keys + {ip}
    ensures forall other :: other != ip && other in counters ==> other in res.1 && res.1[other] == counters[other]
  {
    if ip in counters then
      var (r, e) := Revisit(counters[ip], now);
      (r, if r == TooManyRequests then counters else counters[ip := e])
    else
      var newEntry := FreshCounter(ip, now);
      Insert(counters, newEntry, ToDocumentSkippingNoneId(newEntry), generated)
  }

  /**
   * The first call from an IP with no counter creates one holding a single
   * request at `now` (in milliseconds) under the generated `_id`, and admits.
   */
  lemma FirstRequestCreatesCounter(counters: Counters, ip: string, now: int, generated: ObjectId)
    requires ip !in counters && !IdTaken(counters, Oid(generated))
    ensures Step(counters, ip, now, generated)
         == (Ok(()), counters[ip := RateLimitEntry(Some(generated), ip, 1, now * 1000)])
  {
  }

  /** Every call keeps each counter under its own IP and between one and two requests. */
  lemma StepKeepsCountsInRange(counters: Counters, ip: string, now: int, generated: ObjectId)
    requires WellFormed(counters)
    ensures WellFormed(Step(counters, ip, now, generated).1)
  {
  }

  /** The replies and final counters of successive calls from one IP at the given clock readings. */
  function Run(counters: Counters, ip: string, times: seq<int>, generated: ObjectId): (res: (seq<Response<()>>, Counters))
    ensures |res.0| == |times|
    decreases |times|
  {
    if times == [] then ([], counters)
    else
      var (r, next) := Step(counters, ip, times[0], generated);
      var (rs, last) := Run(next, ip, times[1..], generated);
      ([r] + rs, last)
  }

  /** The number of admitted calls among the replies. */
  function Admitted(rs: seq<Response<()>>): nat
    decreases |rs|
  {
    if rs == [] then 0 else (if rs[0] == Ok(()) then 1 else 0) + Admitted(rs[1..])
  }

  /** The same clock reading n times. */
  function Repeat(now: int, n: nat): (times: seq<int>)
    ensures |times| == n && forall i :: 0 <= i < n ==> times[i] == now
  {
    seq(n, _ => now)
  }

  /**
   * Once a window has started at or after t0, calls at readings within
   * [t0, t0 + 1] stay inside it, so at most the requests the counter has
   * not yet counted are admitted.
   */
  lemma {:induction false} WindowCapsAdmissions(
    counters: Counters, ip: string, times: seq<int>, generated: ObjectId, t0: int, start: int)
    requires ip in counters && counters[ip].lastRequestTime == SecsToMillis(start) && t0 <= start
    requires 1 <= counters[ip].requestCount
    requires forall i :: 0 <= i < |times| ==> t0 <= times[i] <= t0 + WindowSeconds
    ensures Admitted(Run(counters, ip, times, generated).0)
         <= if counters[ip].requestCount >= MaxRequests then 0 else MaxRequests - counters[ip].requestCount
    decreases |times|
  {
    if times != [] {
      SecsRoundTrip(start);
      var (r, next) := Step(counters, ip, times[0], generated);
      assert Elapsed(counters[ip], times[0]) <= WindowSeconds;
      WindowCapsAdmissions(next, ip, times[1..], generated, t0, start);
      var rs := Run(counters, ip, times, generated).0;
      assert rs[1..] == Run(next, ip, times[1..], generated).0;
    }
  }

  /**
   * From an IP with no counter, calls whose clock readings all lie within
   * one second of each other ([t0, t0 + 1]) are admitted at most twice.
   */
  lemma AtMostTwoAdmittedWithinOneSecond(
    counters: Counters, ip: string, times: seq<int>, generated: ObjectId, t0: int)
    requires ip !in counters && !IdTaken(counters, Oid(generated))
    requires forall i :: 0 <= i < |times| ==> t0 <= times[i] <= t0 + WindowSeconds
    ensures Admitted(Run(counters, ip, times, generated).0) <= MaxRequests
  {
    if times != [] {
      var (r, next) := Step(counters, ip, times[0], generated);
      WindowCapsAdmissions(next, ip, times[1..], generated, t0, times[0]);
      var rs := Run(counters, ip, times, generated).0;
      assert rs[1..] == Run(next, ip, times[1..], generated).0;
    }
  }

  /**
   * Calls at the reading the window started at: the ones the counter has
   * room for are admitted, every later one gets 429.
   */
  lemma {:induction false} SameSecondFromCounter(counters: Counters, ip: string, now: int, n: nat, generated: ObjectId)
    requires ip in counters && counters[ip].lastRequestTime == SecsToMillis(now)
    requires 1 <= counters[ip].requestCount <= MaxRequests
    ensures var rs := Run(counters, ip, Repeat(now, n), generated).0;
      forall i :: 0 <= i < n ==>
        rs[i] == if i < MaxRequests - counters[ip].requestCount then Ok(()) else TooManyRequests
    decreases n
  {
    if n > 0 {
      SecsRoundTrip(now);
      var times := Repeat(now, n);
      var (r, next) := Step(counters, ip, now, generated);
      assert Elapsed(counters[ip], now) == 0;
      assert times[1..] == Repeat(now, n - 1);
      var c := counters[ip].requestCount;
      if c >= MaxRequests {
        assert r == TooManyRequests && next == counters;
      } else {
        assert r == Ok(()) && next[ip] == counters[ip].(requestCount := c + 1);
      }
      SameSecondFromCounter(next, ip, now, n - 1, generated);
      assert var rs2 := Run(next, ip, Repeat(now, n - 1), generated).0;
        forall i :: 0 <= i < n - 1 ==> rs2[i] == if i < MaxRequests - next[ip].requestCount then Ok(()) else TooManyRequests;
      var rs := Run(counters, ip, times, generated).0;
      var rest := Run(next, ip, Repeat(now, n - 1), generated).0;
      var c' := next[ip].requestCount;
      assert rs == [r] + rest;
      forall i | 0 <= i < n ensures rs[i] == if i < MaxRequests - c then Ok(()) else TooManyRequests {
        if i > 0 {
          assert rs[i] == rest[i - 1];
          assert c' == if c >= MaxRequests then c else c + 1;
        } else {
          assert rs[0] == r;
        }
      }
    }
  }

  /**
   * n calls in the same second from an IP with no counter: the first two
   * are admitted and every later one gets 429 (OK, OK, 429, ...).
   */
  lemma SameSecondTrace(counters: Counters, ip: string, now: int, n: nat, generated: ObjectId)
    requires ip !in counters && !IdTaken(counters, Oid(generated))
    ensures var rs := Run(counters, ip, Repeat(now, n), generated).0;
      forall i :: 0 <= i < n ==> rs[i] == if i < MaxRequests then Ok(()) else TooManyRequests
  {
    if n > 0 {
      var times := Repeat(now, n);
      var (r, next) := Step(counters, ip, now, generated);
      assert times[1..] == Repeat(now, n - 1);
      SameSecondFromCounter(next, ip, now, n - 1, generated);
      var rs := Run(counters, ip, times, generated).0;
      assert rs == [r] + Run(next, ip, Repeat(now, n - 1), generated).0;
    }
  }

  /**
   * As written, the first counter ever created is stored with an `_id` of
   * null, and the first call from any other new IP then collides with it:
   * the insert fails, the `unwrap` panics and no counter is created.
   */
  lemma SecondNewIpPanicsAsWritten(ip1: string, ip2: string, now1: int, now2: int, g1: ObjectId, g2: ObjectId)
    requires ip1 != ip2
    ensures var (r1, after1) := StepAsWritten(map[], ip1, now1, g1);
      && r1 == Ok(())
      && ip1 in after1 && after1[ip1].id == None
      && StepAsWritten(after1, ip2, now2, g2) == (Panicked, after1)
  {
    var (r1, after1) := StepAsWritten(map[], ip1, now1, g1);
    assert StoredId(after1[ip1]) == Null;
  }

  /**
   * With the absent `_id` left out, two new IPs each get a counter and are
   * admitted, whatever distinct identifiers the driver generates.
   */
  lemma TwoNewIpsAdmitted(ip1: string, ip2: string, now1: int, now2: int, g1: ObjectId, g2: ObjectId)
    requires ip1 != ip2 && g1 != g2
    ensures var (r1, after1) := Step(map[], ip1, now1, g1);
      && r1 == Ok(())
      && Step(after1, ip2, now2, g2).0 == Ok(())
  {
    var (r1, after1) := Step(map[], ip1, now1, g1);
    assert after1.Keys == {ip1};
    assert !IdTaken(after1, Oid(g2));
  }

  /** The `rate_limits` collection and the handler that consults and updates it. */
  class RateLimiter {
    var counters: Counters

    ghost predicate Valid()
      reads this
    {
      WellFormed(counters)
    }

    constructor ()
      ensures Valid() && counters == map[]
    {
      counters := map[];
    }

    /** `check_rate_limit` for a request from `ip` at clock reading `now`, in seconds. */
    method Check(ip: string, now: int, generated: ObjectId) returns (r: Response<()>)
      requires Valid()
      modifies this
      ensures Valid()
      ensures (r, counters) == Step(old(counters), ip, now, generated)
    {
      StepKeepsCountsInRange(counters, ip, now, generated);
      if ip in counters {
        var entry := counters[ip];
        var lastRequestTime := MillisToSecs(entry.lastRequestTime);
        var elapsedTime := now - lastRequestTime;
        if elapsedTime <= WindowSeconds {
          if entry.requestCount >= MaxRequests {
            return TooManyRequests;
          } else {
            entry := entry.(requestCount := entry.requestCount + 1);
          }
        } else {
          entry := entry.(requestCount := 1, lastRequestTime := SecsToMillis(now));
        }
        counters := counters[ip := entry];
      } else {
        var newEntry := FreshCounter(ip, now);
        var stored := InsertedId(ToDocumentSkippingNoneId(newEntry), generated);
        if IdTaken(counters, stored) {
          return Panicked;
        }
        counters := counters[ip := newEntry.(id := ReadId(stored))];
      }
      r := Ok(());
    }
  }
}
