/**
 The host's three timers: one word of bits says which run, and select sleeps until the next is due.
 Times are seconds and microseconds and compared in that order.  SetTimer's carry leaves a million
 microseconds as they are, and GetNextExpiry never lets select sleep for less than 100,
 not even for a timer that is due already.
 */
module Timers {
  import opened Wrappers
  import opened Words

  const TIMER_ID_SEND := 0
  const TIMER_ID_RECEIVE := 1
  const TIMER_ID_FLUSH := 2
  const TIMERS := 3

  const MILLION := 1_000_000

  /** struct timeval. */
  datatype Time = Time(sec: int, usec: int)

  function Micros(t: Time): int { t.sec * MILLION + t.usec }

  /** What the clock shows. */
  predicate OnClock(t: Time) { 0 <= t.usec < MILLION }

  /** What SetTimer stores: its loop stops at a million. */
  predicate Stored(t: Time) { 0 <= t.usec <= MILLION }

  /** The comparison the timers use: seconds first, then microseconds. */
  predicate Before(a: Time, b: Time) { a.sec < b.sec || (a.sec == b.sec && a.usec < b.usec) }

  /** It orders times as they are, but for a stored million, which also counts as past at the very instant. */
  lemma BeforeExactlyIfEarlier(a: Time, b: Time)
    requires Stored(a) && OnClock(b)
    ensures Before(a, b) <==> Micros(a) < Micros(b) || (Micros(a) == Micros(b) && a.usec == MILLION)
  {
  }

  lemma BeforeIsNotLater(a: Time, b: Time)
    requires Stored(a) && Stored(b)
    ensures if Before(a, b) then Micros(a) <= Micros(b) else Micros(b) <= Micros(a)
  {
  }

  /** For how long the program sets each timer, in milliseconds. */
  function Lasts(id: nat): nat { if id == TIMER_ID_SEND then 10000 else 1500 }

  class HostTimers {
    const expiry: array<Time>
    var on: bv32
    /** What the clock has shown whenever it was read, and at which of these times each timer was last set. */
    ghost var readings: seq<Time>
    ghost var since: seq<nat>

    ghost predicate Sane()
      reads `since, `readings, expiry
    {
      && expiry.Length == TIMERS == |since| && readings != []
      && forall i :: 0 <= i < TIMERS ==> Stored(expiry[i]) && since[i] < |readings|
    }

    ghost function Shown(): Time
      requires readings != []
      reads `readings
    {
      readings[|readings| - 1]
    }

    /** Each timer that runs is due so long after it was set. */
    ghost predicate Valid()
      reads `on, `since, `readings, expiry
    {
      && Sane()
      && forall i: nat :: i < TIMERS && Runs(i) ==> Micros(expiry[i]) == Micros(readings[since[i]]) + 1000 * Lasts(i)
    }

    predicate Runs(i: nat)
      reads `on
    {
      Has(on, Mask(i))
    }

    /** Some timer runs that is due at `now`. */
    predicate Due(i: nat, now: Time)
      requires i < expiry.Length
      reads this, expiry
    {
      Runs(i) && Before(expiry[i], now)
    }

    constructor ()
      ensures Valid() && fresh(expiry)
      ensures forall i: nat :: i < TIMERS ==> !Runs(i)
    {
      expiry := new Time[TIMERS](_ => Time(0, 0));
      on := 0;
      readings, since := [Time(0, 0)], [0, 0, 0];
      new;
      forall i: nat | i < TIMERS ensures !Runs(i) { ZeroAnd(Mask(i)); }
    }

    lemma IsSane()
      requires Valid()
      ensures Sane() && expiry.Length == TIMERS == |since| && readings != []
    {
    }

    /** A timer is due when its time has passed; at the very microsecond it may be. */
    lemma DueWhen(now: Time)
      requires Valid() && OnClock(now)
      ensures forall i: nat :: i < TIMERS ==>
        && (Due(i, now) ==> Runs(i) && Micros(expiry[i]) <= Micros(now))
        && (Runs(i) && Micros(expiry[i]) < Micros(now) ==> Due(i, now))
        && (Runs(i) ==> Micros(expiry[i]) == Micros(readings[since[i]]) + 1000 * Lasts(i))
    {
      hide Runs;
    }

    /** One bit is cleared, and no other. */
    method KillTimer(id: nat)
      requires Valid() && id < TIMERS
      modifies `on
      ensures Valid() && forall i: nat :: i < TIMERS ==> (Runs(i) <==> i != id && old(Runs(i)))
    {
      hide Mask, Has, Without;
      ghost var was := on;
      on := Without(on, Mask(id));
      forall i: nat | i < TIMERS ensures Runs(i) <==> i != id && Has(was, Mask(i)) { BitChanges(was, id, i); }
    }

    /** One timer is set to `ms` milliseconds from now, and the others are as they were. */
    method SetTimer(id: nat, ms: nat, now: Time)
      requires Sane() && id < TIMERS && OnClock(now) && now == Shown()
      modifies `on, `since, expiry
      ensures Sane() && Micros(expiry[id]) == Micros(now) + 1000 * ms && since == old(since)[id := |readings| - 1]
      ensures old(Valid()) && ms == Lasts(id) ==> Valid()
      ensures forall i: nat :: i < TIMERS ==> (Runs(i) <==> i == id || old(Runs(i)))
      ensures forall i :: 0 <= i < TIMERS && i != id ==> expiry[i] == old(expiry[i])
    {
      hide Mask, Has, With;
      ghost var was := on;
      var t := Time(now.sec + ms / 1000, now.usec + ms % 1000 * 1000);
      while t.usec > MILLION
        invariant 0 <= t.usec && Micros(t) == Micros(now) + 1000 * ms
        decreases t.usec
      {
        t := Time(t.sec + 1, t.usec - MILLION);
      }
      expiry[id] := t;
      since := since[id := |readings| - 1];
      on := With(on, Mask(id));
      forall i: nat | i < TIMERS ensures Runs(i) <==> i == id || Has(was, Mask(i)) { BitChanges(was, id, i); }
    }

    /** The timer whose time comes first, if any runs. */
    method Earliest() returns (go: Option<Time>)
      requires Valid()
      requires forall i :: 0 <= i < TIMERS ==> Before(expiry[i], Time(0x7fffffff, 0))
      ensures go.None? <==> forall i: nat :: i < TIMERS ==> !Runs(i)
      ensures go.Some? ==> Stored(go.value)
      ensures go.Some? ==> exists i: nat :: i < TIMERS && Runs(i) && go.value == expiry[i]
      ensures go.Some? ==> forall i: nat :: i < TIMERS && Runs(i) ==> Micros(go.value) <= Micros(expiry[i])
    {
      hide Mask, Has, Micros, Stored;
      go := None;
      for i := 0 to TIMERS
        invariant go.None? ==> forall j: nat :: j < i ==> !Runs(j)
        invariant go.Some? ==> exists j: nat :: j < i && Runs(j) && go.value == expiry[j]
        invariant go.Some? ==> forall j: nat :: j < i && Runs(j) ==> Micros(go.value) <= Micros(expiry[j])
      {
        if Runs(i) {
          if go.Some? { BeforeIsNotLater(expiry[i], go.value); }
          if go.None? || Before(expiry[i], go.value) {
            go := Some(expiry[i]);
          }
        }
      }
    }

    /**
     GetNextExpiry: select sleeps until the first timer is due, but at least 100 microseconds, and
     for ever exactly if no timer runs.
     */
    method GetNextExpiry(now: Time) returns (sleep: Option<Time>)
      requires Valid() && OnClock(now)
      requires forall i :: 0 <= i < TIMERS ==> Before(expiry[i], Time(0x7fffffff, 0))
      ensures sleep.None? <==> forall i: nat :: i < TIMERS ==> !Runs(i)
      ensures sleep.Some? ==> OnClock(sleep.value)
      ensures sleep.Some? ==>
        exists i: nat :: i < TIMERS && Runs(i) && Micros(sleep.value) == Max(100, Micros(expiry[i]) - Micros(now))
      ensures sleep.Some? ==> forall i: nat :: i < TIMERS && Runs(i) ==>
        Micros(sleep.value) <= Max(100, Micros(expiry[i]) - Micros(now))
    {
      hide Mask, Has;
      var go := Earliest();
      if go.None? {
        return None;
      }
      var t := Time(go.value.sec - now.sec, go.value.usec - now.usec);
      while t.usec < 0
        invariant t.usec <= MILLION && Micros(t) == Micros(go.value) - Micros(now)
      {
        t := Time(t.sec - 1, t.usec + MILLION);
      }
      while t.usec >= MILLION
        invariant t.usec >= 0 && Micros(t) == Micros(go.value) - Micros(now)
      {
        t := Time(t.sec + 1, t.usec - MILLION);
      }
      if t.sec < 0 {
        t := Time(0, 100);
      }
      if t.sec == 0 && t.usec < 100 {
        t := t.(usec := 100);
      }
      sleep := Some(t);
    }

    /** SetTransmitTimeout: ten seconds from now, and the other timers as they were. */
    method SetTransmitTimeout()
      requires Valid()
      modifies this, expiry
      ensures Valid() && Runs(TIMER_ID_SEND) && Others() == old(Others())
      ensures since[TIMER_ID_SEND] == |readings| - 1
      ensures Micros(expiry[TIMER_ID_SEND]) == Micros(Shown()) + 10_000_000
    {
      hide Mask, Has, Stored;
      KillTimer(TIMER_ID_SEND);
      var now := GetTimeOfDay();
      SetTimer(TIMER_ID_SEND, 10000, now);
    }

    method KillTransmitTimeout()
      requires Valid()
      modifies this
      ensures Valid() && !Runs(TIMER_ID_SEND) && Others() == old(Others())
    {
      hide Mask, Has, Stored;
      KillTimer(TIMER_ID_SEND);
    }

    /** What is not the send timer's. */
    ghost function Others(): (bool, bool, Time, Time)
      requires Valid()
      reads this, expiry
    {
      (Runs(TIMER_ID_RECEIVE), Runs(TIMER_ID_FLUSH), expiry[TIMER_ID_RECEIVE], expiry[TIMER_ID_FLUSH])
    }

    /** The clock shows what it shows. */
    method GetTimeOfDay() returns (now: Time)
      requires Sane()
      modifies `readings
      ensures OnClock(now) && readings == old(readings) + [now] && now == Shown()
      ensures Sane() && (old(Valid()) ==> Valid())
    {
      var sec: int, usec: int := *, *;
      now := Time(sec, usec % MILLION);
      readings := readings + [now];
    }
  }

  function Max(a: int, b: int): int { if a < b then b else a }
}
