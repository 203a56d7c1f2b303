/** The event unit of a tile and the waits built on it, under any arrival of events.
    A register is the set of its bits: the waits only join, intersect and remove. */
module EventUnit {
  import opened Arith

  type Bit = b: nat | b < 32
  type Word = set<Bit>

  const ALL: Word := set b: Bit | b < 32
  const IDMA_A2O_DONE: Word := {2}
  const IDMA_O2A_DONE: Word := {3}
  const REDMULE_DONE: Word := {10}
  const CLUSTER_DONE: Word := {12}
  const FSYNC_DONE: Word := {24}

  /** The cycles a wait for all its events, or for the cluster, polls at most. */
  const TIMEOUT := 1_000_000

  /** The events raised at each moment; a moment passes at every register access. */
  type Schedule = nat -> Word

  /** Everything raised from moment `from` up to, not including, moment `until`. */
  function Arrived(schedule: Schedule, from: nat, until: nat): Word
    decreases until
  {
    if until <= from then {} else Arrived(schedule, from, until - 1) + schedule(until - 1)
  }

  /** What has been in the buffer by moment `until`, starting from `buffer` at `from`. */
  function Seen(schedule: Schedule, buffer: Word, from: nat, until: nat): Word {
    buffer + Arrived(schedule, from, until)
  }

  function Required(redmule: bool, idmaA2O: bool, idmaO2A: bool, fsync: bool): Word {
    (if redmule then REDMULE_DONE else {}) + (if idmaA2O then IDMA_A2O_DONE else {})
    + (if idmaO2A then IDMA_O2A_DONE else {}) + (if fsync then FSYNC_DONE else {})
  }

  /** By the numbers of their bits. */
  lemma RequiredBits(redmule: bool, idmaA2O: bool, idmaO2A: bool, fsync: bool)
    ensures forall b: Bit :: b in Required(redmule, idmaA2O, idmaO2A, fsync) <==>
              (redmule && b == 10) || (idmaA2O && b == 2) || (idmaO2A && b == 3) || (fsync && b == 24)
  {
  }

  lemma {:induction false} SeenStep(schedule: Schedule, buffer: Word, from: nat, until: nat)
    requires from <= until
    ensures Seen(schedule, buffer, from, until + 1) == Seen(schedule, buffer, from, until) + schedule(until)
  {
  }

  /** Whether a wait for `required` entered at `from`, which first loads at `load`, is over
      by moment `limit`: nothing is required, or it loads before that and all of it has been
      seen by then. */
  predicate Comes(schedule: Schedule, buffer: Word, from: nat, load: nat, limit: nat, required: Word) {
    required == {} || (load < limit && required <= Seen(schedule, buffer, from, limit))
  }

  lemma {:induction false} SeenGrows(schedule: Schedule, buffer: Word, from: nat, mid: nat, until: nat)
    requires from <= mid <= until
    ensures Seen(schedule, buffer, from, until) == Seen(schedule, Seen(schedule, buffer, from, mid), mid, until)
    ensures Seen(schedule, buffer, from, mid) <= Seen(schedule, buffer, from, until)
    decreases until
  {
    if mid < until {
      SeenGrows(schedule, buffer, from, mid, until - 1);
    }
  }

  datatype Outcome = Found | TimedOut | Polling

  /** The 32-bit cycle counter after `p` polls. */
  function Spent(p: nat): nat {
    10 * p % TWO32
  }

  lemma {:induction false} SpentStep(p: nat, cycles: nat)
    requires cycles == Spent(p)
    ensures Spent(p + 1) == (cycles + 10) % TWO32
  {
    ModStep(10 * p, TWO32, 1, 10);
  }

  /** The loop goes on after `p` polls that found nothing. */
  predicate GoesOn(timeout: nat, p: nat) {
    timeout == 0 || forall q :: 1 <= q <= p ==> Spent(q) < timeout
  }

  lemma {:induction false} NoPollYet(schedule: Schedule, buffer: Word, from: nat, timeout: nat)
    ensures Spent(0) == 0 && GoesOn(timeout, 0) && Seen(schedule, buffer, from, from) == buffer
  {
  }

  lemma {:induction false} OnePollMore(timeout: nat, p: nat)
    requires GoesOn(timeout, p)
    ensures timeout == 0 || Spent(p + 1) < timeout ==> GoesOn(timeout, p + 1)
    ensures timeout != 0 && Spent(p + 1) >= timeout ==> TimesOutAfter(timeout, p + 1)
  {
  }

  predicate TimesOutAfter(timeout: nat, p: nat) {
    p >= 1 && timeout != 0 && GoesOn(timeout, p - 1) && Spent(p) >= timeout
  }

  /** A timeout low enough for the counter runs out after that many tens of cycles. */
  lemma {:induction false} PollBudget(timeout: nat, p: nat)
    requires 0 < timeout <= TWO32 - 6
    ensures TimesOutAfter(timeout, p) <==> p == (timeout + 9) / 10
    ensures GoesOn(timeout, p) <==> p < (timeout + 9) / 10
  {
    var budget := (timeout + 9) / 10;
    assert Spent(budget) == 10 * budget >= timeout;
    forall q | 1 <= q < budget ensures Spent(q) < timeout {
      assert Spent(q) == 10 * q;
    }
  }

  /** How a polling wait for the enabled events `wanted`, entered at `from`, stands after
      `polls` polls that found nothing: how it ends when followed up to `limit`, and when. */
  function Polled(schedule: Schedule, start: Word, from: nat, wanted: Word, timeout: nat, polls: nat, limit: nat)
    : (r: (Outcome, nat))
    decreases limit - from - polls
  {
    var next := from + polls + 1;
    if Seen(schedule, start, from, next) * wanted != {} then (Found, next + 1)
    else if timeout != 0 && Spent(polls + 1) >= timeout then (TimedOut, next)
    else if limit <= next then (Polling, next)
    else Polled(schedule, start, from, wanted, timeout, polls + 1, limit)
  }

  /** Nothing wanted is latched or ever raised. */
  ghost predicate Quiet(schedule: Schedule, start: Word, from: nat, wanted: Word) {
    forall until: nat :: until >= from ==> Seen(schedule, start, from, until) * wanted == {}
  }

  /** A wait to which no wanted event comes gives up at the first poll at which the counter
      has reached the timeout, if it is followed that far. */
  lemma {:induction false} QuietWait(schedule: Schedule, start: Word, from: nat, wanted: Word, timeout: nat, polls: nat,
                                     limit: nat)
    requires Quiet(schedule, start, from, wanted) && GoesOn(timeout, polls)
    ensures var r := Polled(schedule, start, from, wanted, timeout, polls, limit);
            && (r.0.TimedOut? ==> r.1 > from && TimesOutAfter(timeout, r.1 - from))
            && (r.0.Polling? ==> r.1 >= limit && r.1 > from && GoesOn(timeout, r.1 - from))
            && !r.0.Found?
    decreases limit - from - polls
  {
    if !(timeout != 0 && Spent(polls + 1) >= timeout) && limit > from + polls + 1 {
      QuietWait(schedule, start, from, wanted, timeout, polls + 1, limit);
    }
  }

  /** A counter that has reached the timeout once has ended the wait. */
  lemma {:induction false} ReachedEnds(schedule: Schedule, start: Word, from: nat, wanted: Word, timeout: nat, p: nat)
    requires Quiet(schedule, start, from, wanted)
    requires p >= 1 && 0 < timeout <= Spent(p)
    ensures Polled(schedule, start, from, wanted, timeout, 0, from + p).0 == TimedOut
  {
    QuietWait(schedule, start, from, wanted, timeout, 0, from + p);
  }

  lemma {:induction false} SpentIsEven(p: nat)
    ensures Spent(p) <= TWO32 - 2
  {
    var q, r := 5 * p / (TWO32 / 2), 5 * p % (TWO32 / 2);
    assert 10 * p == q * TWO32 + 2 * r;
    DivModUnique(10 * p, TWO32, q, 2 * r);
  }

  /** The counter goes up in tens and wraps, and reaches every timeout but the largest: a
      wait to which nothing comes ever times out if and only if it has a timeout and the
      timeout is not the largest 32-bit value. */
  lemma {:induction false} TimesOutIff(schedule: Schedule, start: Word, from: nat, wanted: Word, timeout: nat)
    requires timeout < TWO32 && Quiet(schedule, start, from, wanted)
    ensures (exists limit :: Polled(schedule, start, from, wanted, timeout, 0, limit).0 == TimedOut)
            <==> 0 < timeout < TWO32 - 1
  {
    if 0 < timeout < TWO32 - 1 {
      var p := (TWO32 - 1) / 5;
      assert Spent(p) == TWO32 - 2;
      ReachedEnds(schedule, start, from, wanted, timeout, p);
    } else {
      forall limit: nat ensures Polled(schedule, start, from, wanted, timeout, 0, limit).0 != TimedOut {
        QuietWait(schedule, start, from, wanted, timeout, 0, limit);
        var r := Polled(schedule, start, from, wanted, timeout, 0, limit);
        SpentIsEven(if r.1 > from then r.1 - from else 0);
      }
    }
  }

  /** A required event that is enabled but neither returned nor pending has not been seen. */
  lemma {:induction false} NotYet(accumulated: Word, pending: Word, mask: Word, required: Word)
    requires pending * mask == {} && required <= mask && !(required <= accumulated)
    ensures !(required <= accumulated + pending)
  {
    var event :| event in required && event !in accumulated;
    assert event in mask;
    assert event !in pending * mask;
  }

  class Unit {
    var mask: Word
    var buffer: Word
    var now: nat
    const schedule: Schedule

    constructor (mask: Word, buffer: Word, schedule: Schedule)
      ensures this.mask == mask && this.buffer == buffer && this.now == 0 && this.schedule == schedule
    {
      this.mask, this.buffer, this.now, this.schedule := mask, buffer, 0, schedule;
    }

    /** A moment passes and what is raised in it is latched. */
    method Latch()
      modifies this
      ensures now == old(now) + 1 && mask == old(mask) && buffer == old(buffer) + schedule(old(now))
    {
      buffer := buffer + schedule(now);
      now := now + 1;
    }

    method SetMask(events: Word)
      modifies this
      ensures now == old(now) + 1 && mask == events && buffer == old(buffer) + schedule(old(now))
    {
      Latch();
      mask := events;
    }

    method Enable(events: Word)
      modifies this
      ensures now == old(now) + 1 && mask == old(mask) + events && buffer == old(buffer) + schedule(old(now))
    {
      Latch();
      mask := mask + events;
    }

    method Clear(events: Word)
      modifies this
      ensures now == old(now) + 1 && mask == old(mask)
      ensures buffer == old(buffer) + schedule(old(now)) - events
    {
      Latch();
      buffer := buffer - events;
    }

    method Check(events: Word) returns (r: Word)
      modifies this
      ensures now == old(now) + 1 && mask == old(mask) && buffer == old(buffer) + schedule(old(now))
      ensures r == buffer * mask * events
    {
      Latch();
      r := buffer * mask * events;
    }

    /** The blocking load: asleep until an enabled event is latched, then returns and
        clears the enabled ones. Followed up to moment `limit`. */
    method WaitClear(limit: nat) returns (woke: bool, events: Word)
      modifies this
      ensures mask == old(mask) && old(now) <= now <= if old(now) <= limit then limit else old(now)
      ensures woke <==> old(now) < limit && Seen(schedule, old(buffer), old(now), limit) * mask != {}
      ensures woke ==> events == Seen(schedule, old(buffer), old(now), now) * mask
      ensures woke ==> events != {} && now > old(now)
      ensures woke && now > old(now) + 1 ==> Seen(schedule, old(buffer), old(now), now - 1) * mask == {}
      ensures !woke ==> events == {} && (now == limit || now == old(now))
      ensures buffer == Seen(schedule, old(buffer), old(now), now) - events
    {
      woke, events := false, {};
      while now < limit
        invariant mask == old(mask) && old(now) <= now && (now <= limit || now == old(now))
        invariant buffer == Seen(schedule, old(buffer), old(now), now)
        invariant old(now) < now ==> buffer * mask == {}
      {
        Latch();
        if buffer * mask != {} {
          woke, events := true, buffer * mask;
          buffer := buffer - events;
          SeenGrows(schedule, old(buffer), old(now), now, limit);
          return;
        }
      }
    }

    /** Waiting for all of `required` asleep. Nothing is lost: an event latched before or
        raised since is either returned or still in the buffer. Followed up to `limit`,
        the wait is over by then exactly when every required event has been latched or
        raised by then, and it ends at the first moment that is so. */
    method WaitAllWfe(required: Word, limit: nat) returns (done: bool, accumulated: Word)
      modifies this
      ensures mask == old(mask) + required && old(now) < now
      ensures accumulated + buffer == Seen(schedule, old(buffer), old(now), now)
      ensures done == Comes(schedule, old(buffer), old(now), old(now) + 1, limit, required)
      ensures done ==> required <= accumulated <= mask
      ensures done && required != {} ==> accumulated == Seen(schedule, old(buffer), old(now), now) * mask
      ensures done && now > old(now) + 2 ==> !(required <= Seen(schedule, old(buffer), old(now), now - 1))
    {
      Enable(required);
      done, accumulated := true, {};
      assert Arrived(schedule, old(now), old(now)) == {};
      while !(required <= accumulated)
        invariant old(now) < now && mask == old(mask) + required
        invariant now == old(now) + 1 ==> accumulated == {}
        invariant now > old(now) + 1 ==> now <= limit && required != {}
        invariant now > old(now) + 1 ==> accumulated == Seen(schedule, old(buffer), old(now), now) * mask
        invariant now > old(now) + 2 ==> !(required <= Seen(schedule, old(buffer), old(now), now - 1))
        invariant accumulated + buffer == Seen(schedule, old(buffer), old(now), now)
        decreases limit - now
      {
        var woke, events := ReadMore(old(buffer), old(now), accumulated, required, limit);
        accumulated := accumulated + events;
        if !woke {
          return false, accumulated;
        }
      }
      SeenGrows(schedule, old(buffer), old(now), now, if limit < now then now else limit);
    }

    /** One more blocking load of that wait. */
    method ReadMore(ghost start: Word, ghost from: nat, accumulated: Word, required: Word, limit: nat)
      returns (woke: bool, events: Word)
      requires from < now && required <= mask && !(required <= accumulated)
      requires accumulated + buffer == Seen(schedule, start, from, now)
      requires now == from + 1 ==> accumulated == {}
      requires now > from + 1 ==> now <= limit && accumulated == Seen(schedule, start, from, now) * mask
      modifies this
      ensures mask == old(mask) && old(now) <= now && (now <= limit || !woke)
      ensures accumulated + events + buffer == Seen(schedule, start, from, now)
      ensures woke ==> old(now) < now && accumulated + events == Seen(schedule, start, from, now) * mask
      ensures woke && now > from + 2 ==> !(required <= Seen(schedule, start, from, now - 1))
      ensures !woke ==> !(from + 1 < limit && required <= Seen(schedule, start, from, limit))
    {
      woke, events := WaitClear(limit);
      SeenGrows(schedule, start, from, old(now), now);
      ghost var last := if woke then now - 1 else limit;
      if old(now) < last {
        SeenGrows(schedule, start, from, old(now), last);
        NotYet(accumulated, Seen(schedule, old(buffer), old(now), last), mask, required);
        assert Seen(schedule, start, from, last) == accumulated + Seen(schedule, old(buffer), old(now), last);
      } else if old(now) == last && last > from + 1 {
        NotYet(accumulated, Seen(schedule, start, from, last) - accumulated, mask, required);
        assert Seen(schedule, start, from, last) == accumulated + (Seen(schedule, start, from, last) - accumulated);
      }
    }

    /** Waiting for all of `required` by polling: clears nothing, returns exactly the
        required events latched or raised by the last poll, and stops at the first poll
        that sees them all or after the last of the polls the timeout allows. */
    method WaitAllPolling(required: Word) returns (accumulated: Word)
      modifies this
      ensures mask == old(mask) + required
      ensures buffer == Seen(schedule, old(buffer), old(now), now)
      ensures accumulated == required * buffer
      ensures old(now) < now <= old(now) + 1 + TIMEOUT / 10 == old(now) + 100_001
      ensures required <= accumulated || now == old(now) + 1 + TIMEOUT / 10
      ensures now > old(now) + 2 ==> !(required <= Seen(schedule, old(buffer), old(now), now - 1))
    {
      Enable(required);
      var cycles := 0;
      accumulated := {};
      assert Arrived(schedule, old(now), old(now)) == {};
      while cycles < TIMEOUT && !(required <= accumulated)
        invariant mask == old(mask) + required && buffer == Seen(schedule, old(buffer), old(now), now)
        invariant cycles == 10 * (now - old(now) - 1) <= TIMEOUT
        invariant accumulated == if cycles == 0 then {} else required * buffer
        invariant now > old(now) + 2 ==> !(required <= Seen(schedule, old(buffer), old(now), now - 1))
      {
        var events := Check(required);
        accumulated := accumulated + events;
        cycles := cycles + 10;
      }
    }

    /** Waiting for every kind of event asked for, asleep or polling. */
    method MultiWaitAll(redmule: bool, idmaA2O: bool, idmaO2A: bool, fsync: bool, asleep: bool, limit: nat)
      returns (done: bool, accumulated: Word)
      modifies this
      ensures mask == old(mask) + Required(redmule, idmaA2O, idmaO2A, fsync)
      ensures forall b: Bit :: b in mask <==>
                (b in old(mask) || (redmule && b == 10) || (idmaA2O && b == 2) || (idmaO2A && b == 3) || (fsync && b == 24))
      ensures asleep && done ==> (redmule ==> 10 in accumulated) && (idmaA2O ==> 2 in accumulated)
                                 && (idmaO2A ==> 3 in accumulated) && (fsync ==> 24 in accumulated)
      ensures accumulated + buffer == Seen(schedule, old(buffer), old(now), now)
      ensures asleep && done ==> Required(redmule, idmaA2O, idmaO2A, fsync) <= accumulated <= mask
      ensures asleep && done && Required(redmule, idmaA2O, idmaO2A, fsync) != {} ==>
                accumulated == Seen(schedule, old(buffer), old(now), now) * mask
      ensures !asleep ==> accumulated == Required(redmule, idmaA2O, idmaO2A, fsync) * buffer
      ensures !asleep ==> now <= old(now) + 1 + TIMEOUT / 10
      ensures !asleep && now < old(now) + 1 + TIMEOUT / 10 ==>
                Required(redmule, idmaA2O, idmaO2A, fsync) <= accumulated
      ensures asleep ==>
                done == Comes(schedule, old(buffer), old(now), old(now) + 1, limit, Required(redmule, idmaA2O, idmaO2A, fsync))
    {
      var required := {};
      if redmule {
        required := required + REDMULE_DONE;
      }
      if idmaA2O {
        required := required + IDMA_A2O_DONE;
      }
      if idmaO2A {
        required := required + IDMA_O2A_DONE;
      }
      if fsync {
        required := required + FSYNC_DONE;
      }
      RequiredBits(redmule, idmaA2O, idmaO2A, fsync);
      assert required == Required(redmule, idmaA2O, idmaO2A, fsync);
      if asleep {
        done, accumulated := WaitAllWfe(required, limit);
      } else {
        accumulated := WaitAllPolling(required);
        done := true;
      }
    }

    ghost function Pending(start: Word, from: nat, until: nat, events: Word): Word
      reads this
    {
      Seen(schedule, start, from, until) * (mask * events)
    }

    /** One poll of that wait: what it detects it clears. */
    method Poll(ghost start: Word, ghost from: nat, events: Word) returns (detected: Word)
      requires from <= now && buffer == Seen(schedule, start, from, now)
      modifies this
      ensures mask == old(mask) && now == old(now) + if detected == {} then 1 else 2
      ensures detected == Pending(start, from, old(now) + 1, events)
      ensures buffer == Seen(schedule, start, from, now) - detected
    {
      SeenStep(schedule, start, from, now);
      detected := Check(events);
      if detected != {} {
        SeenStep(schedule, start, from, now);
        Clear(detected);
      }
    }

    /** Waiting for any of `events` by polling, with a cycle counter of 32 bits and no
        timeout when `timeout` is 0. Followed up to `limit`. It never polls on once the
        counter has reached the timeout. */
    method WaitPolling(events: Word, timeout: nat, limit: nat) returns (outcome: Outcome, detected: Word)
      requires timeout < TWO32
      modifies this
      ensures mask == old(mask) && old(now) < now
      ensures buffer == Seen(schedule, old(buffer), old(now), now) - detected
      ensures (outcome, now) == Polled(schedule, old(buffer), old(now), mask * events, timeout, 0, limit)
      ensures outcome.Found? ==> now > old(now) + 1 && detected != {}
      ensures outcome.Found? ==> detected == Pending(old(buffer), old(now), now - 1, events)
      ensures outcome.Found? && now > old(now) + 2 ==> Pending(old(buffer), old(now), now - 2, events) == {}
      ensures outcome.Found? ==> GoesOn(timeout, now - old(now) - 2)
      ensures !outcome.Found? ==> detected == {} && Pending(old(buffer), old(now), now, events) == {}
      ensures outcome.TimedOut? ==> TimesOutAfter(timeout, now - old(now))
      ensures outcome.Polling? ==> now >= limit && GoesOn(timeout, now - old(now))
    {
      hide GoesOn, TimesOutAfter, Spent, Arrived;
      NoPollYet(schedule, buffer, now, timeout);
      var cycles := 0;
      while true
        invariant mask == old(mask) && old(now) <= now
        invariant buffer == Seen(schedule, old(buffer), old(now), now)
        invariant now > old(now) ==> Pending(old(buffer), old(now), now, events) == {}
        invariant cycles == Spent(now - old(now)) && GoesOn(timeout, now - old(now))
        invariant Polled(schedule, old(buffer), old(now), mask * events, timeout, 0, limit)
               == Polled(schedule, old(buffer), old(now), mask * events, timeout, now - old(now), limit)
        invariant now <= if old(now) < limit then limit else old(now)
        decreases (if old(now) < limit then limit else old(now) + 1) - now
      {
        detected := Poll(old(buffer), old(now), events);
        if detected != {} {
          return Found, detected;
        }
        ghost var polls := now - old(now) - 1;
        SpentStep(polls, cycles);
        OnePollMore(timeout, polls);
        cycles := (cycles + 10) % TWO32;
        if !(timeout == 0 || cycles < timeout) {
          return TimedOut, {};
        }
        if limit <= now {
          return Polling, {};
        }
      }
    }

    /** The blocking wait: enables the events, then sleeps. */
    method WaitWfe(events: Word, limit: nat) returns (woke: bool, seen: Word)
      modifies this
      ensures mask == old(mask) + events && old(now) < now
      ensures woke <==> old(now) + 1 < limit && Seen(schedule, old(buffer), old(now), limit) * mask != {}
      ensures woke ==> seen != {} && seen == Seen(schedule, old(buffer), old(now), now) * mask
      ensures woke && now > old(now) + 2 ==> Seen(schedule, old(buffer), old(now), now - 1) * mask == {}
      ensures !woke ==> seen == {}
      ensures buffer == Seen(schedule, old(buffer), old(now), now) - seen
    {
      Enable(events);
      ghost var start, from := buffer, now;
      SeenStep(schedule, old(buffer), old(now), old(now));
      woke, seen := WaitClear(limit);
      SeenGrows(schedule, old(buffer), old(now), from, now);
      if from < now {
        SeenGrows(schedule, old(buffer), old(now), from, now - 1);
      }
      if from < limit {
        SeenGrows(schedule, old(buffer), old(now), from, limit);
      }
    }

    /** Disables everything, drops everything latched, enables the cluster's done event:
        only what is raised after the clear is still there. */
    method ClusterDoneInit()
      modifies this
      ensures now == old(now) + 3 && mask == {12} == CLUSTER_DONE && buffer == schedule(old(now) + 2)
    {
      SetMask({});
      Clear(ALL);
      Enable(CLUSTER_DONE);
    }

    /** Waiting for the cluster. Armed as above, the blocking wait wakes on the done event
        and on nothing else, and wakes if it is latched or raised; the polling wait is over
        within the polls of its timeout whatever happens. */
    method ClusterDoneWait(asleep: bool, limit: nat) returns (outcome: Outcome, events: Word)
      modifies this
      ensures mask == old(mask) + CLUSTER_DONE
      ensures buffer == Seen(schedule, old(buffer), old(now), now) - events
      ensures asleep && old(mask) == CLUSTER_DONE ==>
                outcome.Found? == Comes(schedule, old(buffer), old(now), old(now) + 2, limit, CLUSTER_DONE)
      ensures asleep && old(mask) == CLUSTER_DONE && outcome.Found? ==> events == CLUSTER_DONE
      ensures asleep ==> !outcome.TimedOut?
      ensures !asleep ==> events == if outcome.Found? then CLUSTER_DONE else {}
      ensures !asleep ==> now <= old(now) + 2 + TIMEOUT / 10 == old(now) + 100_002
      ensures !asleep && outcome.Polling? ==> limit <= now <= old(now) + TIMEOUT / 10
      ensures events <= Seen(schedule, old(buffer), old(now), now)
      ensures outcome.TimedOut? ==> now == old(now) + 1 + TIMEOUT / 10
      ensures outcome.TimedOut? ==> CLUSTER_DONE * Seen(schedule, old(buffer), old(now), now) == {}
    {
      hide GoesOn, TimesOutAfter, Spent, Polled;
      Enable(CLUSTER_DONE);
      ghost var start, from := buffer, now;
      SeenStep(schedule, old(buffer), old(now), old(now));
      if asleep {
        var woke;
        woke, events := WaitWfe(CLUSTER_DONE, limit);
        outcome := if woke then Found else Polling;
      } else {
        outcome, events := WaitPolling(CLUSTER_DONE, TIMEOUT, limit);
        PollBudget(TIMEOUT, now - from);
        if outcome.Found? {
          PollBudget(TIMEOUT, now - from - 2);
        }
      }
      SeenGrows(schedule, old(buffer), old(now), from, now);
      if from < limit {
        SeenGrows(schedule, old(buffer), old(now), from, limit);
      }
    }
  }
}
