/** `AsyncCircuitBreaker`: calls begin and complete in any interleaving, each touching the state once under
    the lock when it begins and once when it completes. */
module Breaker {
  import opened Time
  import opened Words

  datatype State = Closed(failureCount: nat) | Open(openedAt: Instant) | HalfOpen

  datatype Config = Config(failureThreshold: u32, recoveryTimeout: nat)

  /** An error of the HTTP library, with the status if it was made from a response, or any other error. */
  datatype HttpError = Reqwest(status: nat, hasStatus: bool) | OtherError

  /** Client errors do not trip the breaker; server errors, network errors and all others do. */
  predicate ShouldTrip(e: HttpError) {
    e.Reqwest? && e.hasStatus ==> 500 <= e.status < 600
  }

  /** What happens to the state, in the order in which the lock is taken. `now` is read before the lock. */
  datatype Event =
    | Began(now: Instant)
    | Rejected(now: Instant)
    | Succeeded
    | Failed(trips: bool, at: Instant)

  predicate Blocks(c: Config, s: State, now: Instant) {
    s.Open? && DurationSince(now, s.openedAt) <= c.recoveryTimeout
  }

  predicate Possible(c: Config, s: State, e: Event) {
    && (e.Began? ==> !Blocks(c, s, e.now))
    && (e.Rejected? ==> Blocks(c, s, e.now))
  }

  function Next(c: Config, s: State, e: Event): State
    requires Possible(c, s, e)
  {
    match e
    case Began(_) => if s.Open? then HalfOpen else s
    case Rejected(_) => s
    case Succeeded => if s.HalfOpen? then Closed(0) else s
    case Failed(trips, at) =>
      if !trips then s
      else if s.Closed? && s.failureCount + 1 < c.failureThreshold then Closed(s.failureCount + 1)
      else Open(at)
  }

  // --- Every interleaving ------------------------------------------------------------------------

  /** `es` can happen to a new breaker, one after the other. */
  ghost predicate Happens(c: Config, es: seq<Event>)
    decreases |es|, 0
  {
    es == [] || (Happens(c, es[..|es| - 1]) && Possible(c, After(c, es[..|es| - 1]), es[|es| - 1]))
  }

  ghost function After(c: Config, es: seq<Event>): State
    requires Happens(c, es)
    decreases |es|, 1
  {
    if es == [] then Closed(0) else Next(c, After(c, es[..|es| - 1]), es[|es| - 1])
  }

  predicate Trips(e: Event) {
    e.Failed? && e.trips
  }

  function TripCount(es: seq<Event>): nat {
    if es == [] then 0 else TripCount(es[..|es| - 1]) + (if Trips(es[|es| - 1]) then 1 else 0)
  }

  lemma {:induction false} HappensPrefix(c: Config, es: seq<Event>, n: nat)
    requires Happens(c, es) && n <= |es|
    ensures Happens(c, es[..n])
    decreases |es|
  {
    if n < |es| {
      HappensPrefix(c, es[..|es| - 1], n);
      assert es[..|es| - 1][..n] == es[..n];
    } else {
      assert es[..n] == es;
    }
  }

  /** The breaker is closed after each of the first `i` to all of `es`, and was not before, unless it was new. */
  ghost predicate ClosedSince(c: Config, es: seq<Event>, i: nat)
    requires Happens(c, es)
  {
    && i <= |es|
    && (forall k :: i <= k <= |es| ==> ClosedAt(c, es, k))
    && (i > 0 ==> !ClosedAt(c, es, i - 1))
  }

  ghost predicate ClosedAt(c: Config, es: seq<Event>, k: nat)
    requires Happens(c, es) && k <= |es|
  {
    HappensPrefix(c, es, k); After(c, es[..k]).Closed?
  }

  lemma ClosedAtPrefix(c: Config, es: seq<Event>, n: nat, k: nat)
    requires Happens(c, es) && k <= n <= |es|
    ensures Happens(c, es[..n]) && (ClosedAt(c, es[..n], k) <==> ClosedAt(c, es, k))
  {
    HappensPrefix(c, es, n);
    assert es[..n][..k] == es[..k];
  }

  lemma TripCountSnoc(es: seq<Event>, i: nat)
    requires i < |es|
    ensures TripCount(es[i..]) == TripCount(es[..|es| - 1][i..]) + (if Trips(es[|es| - 1]) then 1 else 0)
  {
    assert es[i..][..|es[i..]| - 1] == es[..|es| - 1][i..];
  }

  /** While the breaker is closed its count is the number of tripping failures since it last became closed, however
      many successes there were in between, and stays below what it takes to open. */
  lemma {:induction false} CountIsTrips(c: Config, es: seq<Event>) returns (i: nat)
    requires Happens(c, es)
    ensures After(c, es).Closed? ==> ClosedSince(c, es, i)
    ensures After(c, es).Closed? ==> After(c, es).failureCount == TripCount(es[i..])
    ensures After(c, es).Closed? ==> After(c, es).failureCount < if c.failureThreshold == 0 then 1 else c.failureThreshold
  {
    i := 0;
    assert es[..|es|] == es;
    if es != [] {
      var n := |es| - 1;
      var before := es[..n];
      i := CountIsTrips(c, before);
      if After(c, es).Closed? {
        if After(c, before).Closed? {
          TripCountSnoc(es, i);
          forall k | i <= k <= |es| ensures ClosedAt(c, es, k) {
            if k < |es| { ClosedAtPrefix(c, es, n, k); }
          }
          if i > 0 { ClosedAtPrefix(c, es, n, i - 1); }
        } else {
          i := |es|;
          assert es[i..] == [];
          assert before[..n] == before;
          ClosedAtPrefix(c, es, n, n);
        }
      }
    }
  }

  lemma Last(c: Config, es: seq<Event>, n: nat)
    requires Happens(c, es) && n < |es|
    ensures Happens(c, es[..n]) && Happens(c, es[..n + 1]) && Possible(c, After(c, es[..n]), es[n])
    ensures After(c, es[..n + 1]) == Next(c, After(c, es[..n]), es[n])
  {
    HappensPrefix(c, es, n);
    HappensPrefix(c, es, n + 1);
    assert es[..n + 1][..n] == es[..n];
  }

  /** `k` is the latest tripping failure in `es`. */
  ghost predicate LatestTrip(es: seq<Event>, k: nat) {
    k < |es| && Trips(es[k]) && forall m :: k < m < |es| ==> !Trips(es[m])
  }

  /** While the breaker is open, the time it counts from is that of the latest tripping failure. */
  lemma {:induction false} OpenedAtLatestTrip(c: Config, es: seq<Event>) returns (k: nat)
    requires Happens(c, es) && After(c, es).Open?
    ensures LatestTrip(es, k) && After(c, es).openedAt == es[k].at
  {
    var n := |es| - 1;
    assert es[..n + 1] == es;
    if Trips(es[n]) {
      k := n;
    } else {
      k := OpenedAtLatestTrip(c, es[..n]);
    }
  }

  /** A breaker opens from closed on exactly as many tripping failures as it takes. */
  lemma OpensOnNeeded(c: Config, es: seq<Event>, n: nat) returns (i: nat)
    requires Happens(c, es) && n < |es|
    requires ClosedAt(c, es, n) && !ClosedAt(c, es, n + 1)
    ensures Happens(c, es[..n]) && ClosedSince(c, es[..n], i)
    ensures Trips(es[n]) && TripCount(es[i..n]) + 1 == if c.failureThreshold == 0 then 1 else c.failureThreshold
  {
    Last(c, es, n);
    i := CountIsTrips(c, es[..n]);
    assert es[..n][i..] == es[i..n];
  }

  /** Without tripping failures a breaker stays closed, with a count of zero. */
  lemma {:induction false} NoTripsNoOpening(c: Config, es: seq<Event>)
    requires Happens(c, es) && forall e <- es :: !Trips(e)
    ensures After(c, es) == Closed(0)
    decreases |es|
  {
    if es != [] {
      NoTripsNoOpening(c, es[..|es| - 1]);
      assert es[|es| - 1] in es;
    }
  }

  ghost predicate FailureTimesOrdered(es: seq<Event>) {
    forall i, j :: 0 <= i < j < |es| && Trips(es[i]) && Trips(es[j]) ==> es[i].at <= es[j].at
  }

  /** Nothing but an admitted start ends the open state. */
  lemma {:induction false} StaysOpen(c: Config, es: seq<Event>, k: nat, j: nat)
    requires Happens(c, es) && k < j <= |es| && Happens(c, es[..k + 1]) && After(c, es[..k + 1]).Open?
    requires forall i :: k < i < j ==> !es[i].Began?
    ensures Happens(c, es[..j]) && After(c, es[..j]).Open?
    decreases j
  {
    if j > k + 1 {
      StaysOpen(c, es, k, j - 1);
      Last(c, es, j - 1);
    }
  }

  /** Once a tripping failure has left the breaker open, the next operation to start read the clock more than the
      recovery timeout after that failure, and after every tripping failure in between. */
  lemma NoEarlyStart(c: Config, es: seq<Event>, k: nat, j: nat, m: nat)
    requires Happens(c, es) && FailureTimesOrdered(es) && k < j < |es|
    requires Happens(c, es[..k + 1]) && Trips(es[k]) && After(c, es[..k + 1]).Open?
    requires es[j].Began? && forall i :: k < i < j ==> !es[i].Began?
    requires k <= m < j && Trips(es[m])
    ensures es[j].now > es[m].at + c.recoveryTimeout
  {
    StaysOpen(c, es, k, j);
    Last(c, es, j);
    var latest := OpenedAtLatestTrip(c, es[..j]);
    assert es[..j][latest] == es[latest] && es[..j][m] == es[m];
  }

  // --- What each event does, in every run ------------------------------------------------------

  /** A tripping failure leaves a breaker that is not closed open from the time of that failure: a failed probe opens
      it again. In a closed breaker it counts, and opens it as soon as it takes no more. */
  lemma AfterTrip(c: Config, es: seq<Event>, at: Instant)
    requires Happens(c, es + [Failed(true, at)])
    ensures Happens(c, es)
    ensures After(c, es + [Failed(true, at)])
         == if After(c, es).Closed? && After(c, es).failureCount + 1 < (if c.failureThreshold == 0 then 1 else c.failureThreshold)
            then Closed(After(c, es).failureCount + 1) else Open(at)
  {
    assert (es + [Failed(true, at)])[..|es|] == es;
  }

  /** Only a success of a half-open breaker closes it, with a count of zero; any other success changes nothing. */
  lemma AfterSuccess(c: Config, es: seq<Event>)
    requires Happens(c, es + [Succeeded])
    ensures Happens(c, es)
    ensures After(c, es + [Succeeded]) == if After(c, es) == HalfOpen then Closed(0) else After(c, es)
  {
    assert (es + [Succeeded])[..|es|] == es;
  }

  /** A failure that does not trip, and a rejection, change nothing. */
  lemma AfterNoTrip(c: Config, es: seq<Event>, e: Event)
    requires Happens(c, es + [e]) && (e.Rejected? || (e.Failed? && !e.trips))
    ensures Happens(c, es) && After(c, es + [e]) == After(c, es)
  {
    assert (es + [e])[..|es|] == es;
  }

  /** A start is admitted if and only if the breaker is not open, or opened longer ago than the recovery timeout; it
      then leaves it half open. Otherwise, and only then, it is rejected. */
  lemma StartIff(c: Config, es: seq<Event>, now: Instant)
    requires Happens(c, es)
    ensures Happens(c, es + [Began(now)]) <==> !(After(c, es).Open? && now <= After(c, es).openedAt + c.recoveryTimeout)
    ensures Happens(c, es + [Rejected(now)]) <==> After(c, es).Open? && now <= After(c, es).openedAt + c.recoveryTimeout
    ensures Happens(c, es + [Began(now)]) ==>
      After(c, es + [Began(now)]) == if After(c, es).Open? then HalfOpen else After(c, es)
  {
    assert (es + [Began(now)])[..|es|] == es && (es + [Rejected(now)])[..|es|] == es;
  }

  /** Whatever happens, a breaker that was not closed is closed only by a success of a half-open one. */
  lemma OnlySuccessCloses(c: Config, es: seq<Event>, n: nat)
    requires Happens(c, es) && n < |es|
    ensures Happens(c, es[..n]) && Happens(c, es[..n + 1])
    ensures !After(c, es[..n]).Closed? && After(c, es[..n + 1]).Closed? ==>
      After(c, es[..n]).HalfOpen? && es[n] == Succeeded && After(c, es[..n + 1]) == Closed(0)
  {
    Last(c, es, n);
  }

  // --- The breaker as an object ----------------------------------------------------------------

  /** One event more. */
  lemma HappensSnoc(c: Config, es: seq<Event>, e: Event)
    requires Happens(c, es) && Possible(c, After(c, es), e)
    ensures Happens(c, es + [e]) && After(c, es + [e]) == Next(c, After(c, es), e)
  {
    assert (es + [e])[..|es|] == es;
  }

  /** No failure in `es` happened after `t`. */
  ghost predicate FailedBy(es: seq<Event>, t: Instant) {
    forall e <- es :: e.Failed? ==> e.at <= t
  }

  class AsyncCircuitBreaker {
    const config: Config
    var state: State
    /** What has happened to it so far. */
    ghost var history: seq<Event>

    ghost predicate Valid()
      reads this
    {
      Happens(config, history) && state == After(config, history) && FailureTimesOrdered(history)
    }

    constructor (failureThreshold: u32, recoveryTimeout: nat)
      ensures Valid() && config == Config(failureThreshold, recoveryTimeout) && history == [] && state == Closed(0)
    {
      config := Config(failureThreshold, recoveryTimeout);
      state := Closed(0);
      history := [];
    }

    /** The first half of `call`: may the operation start? */
    method Begin(now: Instant) returns (admitted: bool)
      requires Valid()
      modifies this
      ensures Valid() && history == old(history) + [if admitted then Began(now) else Rejected(now)]
    {
      ghost var blocked := Blocks(config, state, now);
      HappensSnoc(config, history, if blocked then Rejected(now) else Began(now));
      history := history + [if blocked then Rejected(now) else Began(now)];
      if state.Open? {
        if DurationSince(now, state.openedAt) > config.recoveryTimeout {
          state := HalfOpen;
        } else {
          return false;
        }
      }
      return true;
    }

    /** The second half, after the operation succeeded. */
    method CompleteOk()
      requires Valid()
      modifies this
      ensures Valid() && history == old(history) + [Succeeded]
    {
      HappensSnoc(config, history, Succeeded);
      history := history + [Succeeded];
      if state == HalfOpen {
        state := Closed(0);
      }
    }

    /** The second half, after the operation failed. The failure count never overflows. */
    method CompleteErr(e: HttpError, now: Instant)
      requires Valid() && FailedBy(history, now)
      modifies this
      ensures Valid() && history == old(history) + [Failed(e.OtherError? || !e.hasStatus || 500 <= e.status < 600, now)]
    {
      ghost var _ := CountIsTrips(config, history);
      HappensSnoc(config, history, Failed(ShouldTrip(e), now));
      history := history + [Failed(ShouldTrip(e), now)];
      if ShouldTrip(e) {
        match state
        case Closed(count) =>
          var newCount: u32 := count + 1;
          state := if newCount >= config.failureThreshold then Open(now) else Closed(newCount);
        case HalfOpen => state := Open(now);
        case Open(_) => state := Open(now);
      }
    }
  }
}
