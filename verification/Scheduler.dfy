/**
 The frame scheduler of src/frame.rs. Instants are nanosecond counts, so a clock reading
 may lie before the scheduler's origin or before an earlier reading.
 */
module Scheduler {
  import opened Common

  const MILLI: nat := 1_000_000

  datatype NextRendering =
    | Idle
    | EveryFrame
    | After(delay: nat)
    | AfterWall(wall: nat)
    | AfterBoth(delay: nat, wall: nat)

  datatype RenderDemand = RenderDemand(needsPaint: bool, next: NextRendering)

  datatype FramePlan = Wait | WaitUntil(deadline: int) | Redraw

  /** Everything the scheduler remembers. */
  datatype State =
    State(origin: int, lastElapsedMs: nat, interval: nat, nextDeadline: int, redrawPending: bool, externallyInvalidated: bool)

  function Fresh(origin: int, interval: nat): State {
    State(origin, 0, if interval < 1 then 1 else interval, origin, false, true)
  }

  /** Whole milliseconds since the origin, within 64 bits; a reading before the origin counts as zero. */
  function ElapsedMs(origin: int, now: int): nat {
    var since := if now < origin then 0 else now - origin;
    if since / MILLI > U64_MAX then U64_MAX else since / MILLI
  }

  /** A call on the scheduler, with the clock reading the host passes. */
  datatype Call =
    | RequestRenderingOpportunity(now: int)
    | QueueRedrawIfDue(now: int)
    | QueueRedraw
    | BeginFrame(now: int)
    | AdvanceTime(now: int)

  datatype Reply = Nothing | Queued(first: bool) | Delta(ms: nat)

  function Advance(s: State, now: int): (State, nat) {
    var elapsed := ElapsedMs(s.origin, now);
    if elapsed > s.lastElapsedMs then (s.(lastElapsedMs := elapsed), elapsed - s.lastElapsedMs) else (s, 0)
  }

  function Step(s: State, call: Call): (State, Reply) {
    match call
    case RequestRenderingOpportunity(now) =>
      (s.(externallyInvalidated := true, nextDeadline := if now < s.nextDeadline then now else s.nextDeadline), Nothing)
    case QueueRedrawIfDue(now) =>
      if s.redrawPending || now < s.nextDeadline then (s, Queued(false)) else (s.(redrawPending := true), Queued(true))
    case QueueRedraw => (s.(redrawPending := true), Queued(!s.redrawPending))
    case BeginFrame(now) =>
      var framed := s.(redrawPending := false, externallyInvalidated := false, nextDeadline := now + s.interval);
      (Advance(framed, now).0, Delta(Advance(framed, now).1))
    case AdvanceTime(now) => (Advance(s, now).0, Delta(Advance(s, now).1))
  }

  function Plan(s: State, now: int, demand: RenderDemand): FramePlan {
    if s.redrawPending then Wait
    else if s.externallyInvalidated || demand.needsPaint then Redraw
    else match demand.next
      case Idle => Wait
      case EveryFrame => Due(now, s.nextDeadline)
      case After(delay) => Due(now, TimerDeadline(s, delay))
      case AfterWall(wall) => Due(now, now + wall)
      case AfterBoth(delay, wall) =>
        Due(now, if TimerDeadline(s, delay) < now + wall then TimerDeadline(s, delay) else now + wall)
  }

  function Due(now: int, deadline: int): FramePlan {
    if now >= deadline then Redraw else WaitUntil(deadline)
  }

  /** Page timers run from the page time already consumed. */
  function TimerDeadline(s: State, delay: nat): int {
    s.origin + s.lastElapsedMs * MILLI + delay
  }

  // ----- runs -----

  /** The state after a run of calls. */
  function Reached(s: State, calls: seq<Call>): State {
    if calls == [] then s else Step(Reached(s, calls[..|calls| - 1]), calls[|calls| - 1]).0
  }

  /** What the call at `i` answered. */
  function Answer(s: State, calls: seq<Call>, i: nat): Reply
    requires i < |calls|
  {
    Step(Reached(s, calls[..i]), calls[i]).1
  }

  function DeltaOf(s: State, calls: seq<Call>, i: nat): nat
    requires i < |calls|
  {
    var reply := Answer(s, calls, i);
    if reply.Delta? then reply.ms else 0
  }

  /** All milliseconds a run handed out. */
  function Handed(s: State, calls: seq<Call>): nat {
    if calls == [] then 0 else Handed(s, calls[..|calls| - 1]) + DeltaOf(s, calls, |calls| - 1)
  }

  predicate ReadsClock(call: Call) { call.BeginFrame? || call.AdvanceTime? }

  /** No frame begins in `calls[i..j]`. */
  predicate NoFrame(calls: seq<Call>, i: nat, j: nat)
    requires i <= j <= |calls|
  {
    forall k :: i <= k < j ==> !calls[k].BeginFrame?
  }

  lemma AfterSnoc(s: State, calls: seq<Call>, n: nat)
    requires n < |calls|
    ensures Reached(s, calls[..n + 1]) == Step(Reached(s, calls[..n]), calls[n]).0
  {
    assert calls[..n + 1][..n] == calls[..n];
  }

  lemma {:induction false} OriginIsFixed(s: State, calls: seq<Call>)
    ensures Reached(s, calls).origin == s.origin && Reached(s, calls).interval == s.interval
  {
    if calls != [] {
      OriginIsFixed(s, calls[..|calls| - 1]);
    }
  }

  /** What is handed out is exactly how far the consumed page time moved. */
  lemma {:induction false} HandedIsProgress(s: State, calls: seq<Call>)
    ensures Reached(s, calls).lastElapsedMs == s.lastElapsedMs + Handed(s, calls)
  {
    if calls != [] {
      HandedIsProgress(s, calls[..|calls| - 1]);
    }
  }

  /** The consumed page time is the largest reading so far. */
  lemma {:induction false} ConsumedIsLargest(s: State, calls: seq<Call>)
    ensures var last := Reached(s, calls).lastElapsedMs;
      && s.lastElapsedMs <= last
      && (forall i :: 0 <= i < |calls| && ReadsClock(calls[i]) ==> ElapsedMs(s.origin, calls[i].now) <= last)
      && (last == s.lastElapsedMs || exists i :: 0 <= i < |calls| && ReadsClock(calls[i]) && ElapsedMs(s.origin, calls[i].now) == last)
  {
    if calls != [] {
      var n := |calls| - 1;
      var shorter := calls[..n];
      ConsumedIsLargest(s, shorter);
      OriginIsFixed(s, shorter);
      var before, after := Reached(s, shorter).lastElapsedMs, Reached(s, calls).lastElapsedMs;
      forall i | 0 <= i < |calls| && ReadsClock(calls[i])
        ensures ElapsedMs(s.origin, calls[i].now) <= after
      {
        if i < n {
          assert shorter[i] == calls[i];
        }
      }
      if after != before {
        assert ReadsClock(calls[n]) && ElapsedMs(s.origin, calls[n].now) == after;
      } else if before != s.lastElapsedMs {
        var i :| 0 <= i < n && ReadsClock(shorter[i]) && ElapsedMs(s.origin, shorter[i].now) == before;
        assert calls[i] == shorter[i];
      }
    }
  }

  /**
   Conservation. Whatever the clock does, the milliseconds handed out add up to the
   largest whole-millisecond elapsed time the scheduler has been shown.
   */
  lemma DeltasSumToLargestReading(origin: int, interval: nat, calls: seq<Call>)
    ensures var sum := Handed(Fresh(origin, interval), calls);
      && (forall i :: 0 <= i < |calls| && ReadsClock(calls[i]) ==> ElapsedMs(origin, calls[i].now) <= sum)
      && (sum == 0 || exists i :: 0 <= i < |calls| && ReadsClock(calls[i]) && ElapsedMs(origin, calls[i].now) == sum)
  {
    HandedIsProgress(Fresh(origin, interval), calls);
    ConsumedIsLargest(Fresh(origin, interval), calls);
  }

  /** A redraw is pending exactly when one was queued and no frame has begun since. */
  lemma {:induction false} PendingMeansQueued(s: State, calls: seq<Call>)
    requires !s.redrawPending
    ensures Reached(s, calls).redrawPending <==>
            exists i :: 0 <= i < |calls| && Answer(s, calls, i) == Queued(true) && NoFrame(calls, i + 1, |calls|)
  {
    if calls != [] {
      var n := |calls| - 1;
      var shorter := calls[..n];
      PendingMeansQueued(s, shorter);
      forall i | 0 <= i < n
        ensures Answer(s, calls, i) == Answer(s, shorter, i)
        ensures NoFrame(calls, i + 1, |calls|) <==> NoFrame(shorter, i + 1, n) && !calls[n].BeginFrame?
      {
        assert calls[..i] == shorter[..i];
        if NoFrame(calls, i + 1, |calls|) {
          assert !calls[n].BeginFrame?;
          assert forall k :: i + 1 <= k < n ==> shorter[k] == calls[k];
        }
      }
      if Reached(s, calls).redrawPending {
        if Reached(s, shorter).redrawPending {
          var i :| 0 <= i < n && Answer(s, shorter, i) == Queued(true) && NoFrame(shorter, i + 1, n);
          assert Answer(s, calls, i) == Queued(true) && NoFrame(calls, i + 1, |calls|);
        } else {
          assert Answer(s, calls, n) == Queued(true) && NoFrame(calls, n + 1, |calls|);
        }
      }
    }
  }

  /** Between two redraws that were queued a frame has begun. */
  lemma OneRedrawPerFrame(s: State, calls: seq<Call>, i: nat, j: nat)
    requires i < j < |calls| && Answer(s, calls, i) == Queued(true) && Answer(s, calls, j) == Queued(true)
    ensures !NoFrame(calls, i, j)
  {
    if NoFrame(calls, i, j) {
      StillPending(s, calls, i, j);
    }
  }

  lemma {:induction false} StillPending(s: State, calls: seq<Call>, i: nat, j: nat)
    requires i < j <= |calls| && Answer(s, calls, i) == Queued(true) && NoFrame(calls, i, j)
    ensures Reached(s, calls[..j]).redrawPending
  {
    AfterSnoc(s, calls, j - 1);
    if i + 1 < j {
      StillPending(s, calls, i, j - 1);
      assert !calls[j - 1].BeginFrame?;
    }
  }

  /** The scheduler is invalidated exactly when no frame has begun since it was, or ever. */
  lemma {:induction false} InvalidationIsKept(s: State, calls: seq<Call>)
    ensures Reached(s, calls).externallyInvalidated <==>
            || (s.externallyInvalidated && NoFrame(calls, 0, |calls|))
            || exists i :: 0 <= i < |calls| && calls[i].RequestRenderingOpportunity? && NoFrame(calls, i + 1, |calls|)
  {
    if calls != [] {
      var n := |calls| - 1;
      var shorter := calls[..n];
      InvalidationIsKept(s, shorter);
      forall i | 0 <= i <= n
        ensures NoFrame(calls, i, |calls|) <==> NoFrame(shorter, i, n) && !calls[n].BeginFrame?
      {
        if NoFrame(calls, i, |calls|) {
          assert !calls[n].BeginFrame?;
          assert forall k :: i <= k < n ==> shorter[k] == calls[k];
        }
      }
      if calls[n].RequestRenderingOpportunity? {
        assert NoFrame(calls, n + 1, |calls|);
      } else if Reached(s, shorter).externallyInvalidated && !calls[n].BeginFrame? {
        if !(s.externallyInvalidated && NoFrame(shorter, 0, n)) {
          var i :| 0 <= i < n && shorter[i].RequestRenderingOpportunity? && NoFrame(shorter, i + 1, n);
          assert calls[i].RequestRenderingOpportunity? && NoFrame(calls, i + 1, |calls|);
        }
      }
    }
  }

  /**
   An invalidation leads to a redraw: until the next frame begins, the plan is to redraw
   at once unless a redraw is already on its way, and then the next queueing call succeeds.
   */
  lemma InvalidationIsNotLost(s: State, calls: seq<Call>, i: nat, now: int, demand: RenderDemand)
    requires i < |calls| && calls[i].RequestRenderingOpportunity? && NoFrame(calls, i + 1, |calls|)
    ensures var end := Reached(s, calls);
      && Plan(end, now, demand) == (if end.redrawPending then Wait else Redraw)
      && (end.redrawPending || Step(end, QueueRedraw).1 == Queued(true))
      && (now >= calls[i].now ==> end.redrawPending || Step(end, QueueRedrawIfDue(now)).1 == Queued(true))
  {
    InvalidationIsKept(s, calls);
    DeadlineStaysForward(s, calls, i, |calls|);
    assert calls[..|calls|] == calls;
  }

  lemma {:induction false} DeadlineStaysForward(s: State, calls: seq<Call>, i: nat, j: nat)
    requires i < j <= |calls| && calls[i].RequestRenderingOpportunity? && NoFrame(calls, i + 1, j)
    ensures Reached(s, calls[..j]).nextDeadline <= calls[i].now
  {
    AfterSnoc(s, calls, j - 1);
    if i + 1 < j {
      DeadlineStaysForward(s, calls, i, j - 1);
      assert !calls[j - 1].BeginFrame?;
    }
  }

  /**
   Frames are paced by delivery: with no invalidation after a frame, no redraw becomes due
   before a full interval has passed since that frame began, and from then on it is due.
   */
  lemma PacedByDelivery(s: State, calls: seq<Call>, i: nat, j: nat)
    requires i < j < |calls| && calls[i].BeginFrame? && calls[j].QueueRedrawIfDue?
    requires forall k :: i < k < j ==> !calls[k].BeginFrame? && !calls[k].RequestRenderingOpportunity?
    ensures Answer(s, calls, j) ==
            Queued(!Reached(s, calls[..j]).redrawPending && calls[j].now >= calls[i].now + s.interval)
  {
    DeadlineAfterFrame(s, calls, i, j);
  }

  lemma {:induction false} DeadlineAfterFrame(s: State, calls: seq<Call>, i: nat, j: nat)
    requires i < j <= |calls| && calls[i].BeginFrame?
    requires forall k :: i < k < j ==> !calls[k].BeginFrame? && !calls[k].RequestRenderingOpportunity?
    ensures Reached(s, calls[..j]).nextDeadline == calls[i].now + s.interval
  {
    AfterSnoc(s, calls, j - 1);
    OriginIsFixed(s, calls[..j - 1]);
    if i + 1 < j {
      DeadlineAfterFrame(s, calls, i, j - 1);
      assert !calls[j - 1].BeginFrame? && !calls[j - 1].RequestRenderingOpportunity?;
    }
  }

  /** What is left of a timer's delay after the page has consumed `ms`. */
  function Left(delay: nat, ms: nat): nat { if delay < ms * MILLI then 0 else delay - ms * MILLI }

  /**
   Over any run, a timer whose remaining delay the page shortens by what was handed out
   keeps the instant at which it is due; an overdue one is due at the page time consumed.
   */
  lemma TimerDeadlineIsKept(s: State, calls: seq<Call>, delay: nat)
    ensures var end, handed := Reached(s, calls), Handed(s, calls);
      TimerDeadline(end, Left(delay, handed)) ==
      if delay < handed * MILLI then TimerDeadline(end, 0) else TimerDeadline(s, delay)
    ensures Handed(s, calls) * MILLI > delay ==> TimerDeadline(Reached(s, calls), 0) > TimerDeadline(s, delay)
  {
    HandedIsProgress(s, calls);
    OriginIsFixed(s, calls);
  }

  /** A demand as it reads `waited` nanoseconds later: page delays stand, wall delays shrink. */
  function Aged(next: NextRendering, waited: nat): NextRendering {
    match next
    case AfterWall(wall) => AfterWall(if wall < waited then 0 else wall - waited)
    case AfterBoth(delay, wall) => AfterBoth(delay, if wall < waited then 0 else wall - waited)
    case _ => next
  }

  /**
   A planned wake-up does not drift: planning again at any later instant names the same
   deadline before it and asks for the redraw from it on.
   */
  lemma PlanDoesNotDrift(s: State, now: int, next: NextRendering, later: int)
    requires now <= later && Plan(s, now, RenderDemand(false, next)).WaitUntil?
    ensures var deadline := Plan(s, now, RenderDemand(false, next)).deadline;
      && now < deadline
      && Plan(s, later, RenderDemand(false, Aged(next, later - now))) == if later >= deadline then Redraw else WaitUntil(deadline)
  {
  }

  /**
   A page timer over a run wakes the host at the instant first planned, whatever ran in
   between, or, if it is overdue, as soon as the clock is back at the page time consumed.
   */
  lemma TimerFiresAsPlanned(s: State, calls: seq<Call>, delay: nat, later: int)
    requires var end := Reached(s, calls); !end.redrawPending && !end.externallyInvalidated
    ensures var end, handed := Reached(s, calls), Handed(s, calls);
      var due := if delay < handed * MILLI then TimerDeadline(end, 0) else TimerDeadline(s, delay);
      Plan(end, later, RenderDemand(false, After(Left(delay, handed)))) == if later >= due then Redraw else WaitUntil(due)
  {
    TimerDeadlineIsKept(s, calls, delay);
  }

  /** So an overdue timer is served at every reading at or after the one that made it overdue. */
  lemma OverdueTimerFires(s: State, calls: seq<Call>, delay: nat, i: nat, later: int)
    requires var end := Reached(s, calls); !end.redrawPending && !end.externallyInvalidated
    requires delay < Handed(s, calls) * MILLI && i < |calls| && ReadsClock(calls[i]) && calls[i].now <= later
    requires ElapsedMs(s.origin, calls[i].now) == Reached(s, calls).lastElapsedMs
    ensures Plan(Reached(s, calls), later, RenderDemand(false, After(Left(delay, Handed(s, calls))))) == Redraw
  {
    TimerFiresAsPlanned(s, calls, delay, later);
    HandedIsProgress(s, calls);
    OriginIsFixed(s, calls);
    ElapsedIsPast(s.origin, calls[i].now);
  }

  lemma ElapsedIsPast(origin: int, now: int)
    requires ElapsedMs(origin, now) > 0
    ensures origin + ElapsedMs(origin, now) * MILLI <= now
  {
    var since := now - origin;
    assert since / MILLI * MILLI <= since;
  }

  // ----- what the numbers mean -----

  /** Elapsed time is the whole milliseconds since the origin, none before it, and at most what fits. */
  lemma ElapsedIsWholeMs(origin: int, now: int)
    ensures var ms := ElapsedMs(origin, now);
      && (now < origin ==> ms == 0) && ms <= U64_MAX
      && (now >= origin ==> ms * MILLI <= now - origin)
      && (now >= origin && ms < U64_MAX ==> now - origin < (ms + 1) * MILLI)
  {
    if now >= origin {
      assert (now - origin) / MILLI * MILLI <= now - origin < ((now - origin) / MILLI + 1) * MILLI;
    }
  }

  /** A new scheduler is due at its origin and asks for a redraw at once; its interval is never zero. */
  lemma FirstIsDue(origin: int, interval: nat, now: int, demand: RenderDemand)
    ensures Step(Fresh(origin, interval), QueueRedrawIfDue(now)).1 == Queued(now >= origin)
    ensures Plan(Fresh(origin, interval), now, demand) == Redraw
    ensures Fresh(origin, interval).interval >= 1 && (interval >= 1 ==> Fresh(origin, interval).interval == interval)
  {
  }

  /** Between frames, with nothing invalidated, a page that animates is served one interval after the frame was delivered. */
  lemma EveryFrameIsPaced(s: State, calls: seq<Call>, i: nat, now: int)
    requires i < |calls| && calls[i].BeginFrame?
    requires forall k :: i < k < |calls| ==> calls[k].AdvanceTime?
    ensures var due := calls[i].now + s.interval;
      Plan(Reached(s, calls), now, RenderDemand(false, EveryFrame)) == if now >= due then Redraw else WaitUntil(due)
  {
    DeadlineAfterFrame(s, calls, i, |calls|);
    QuietAfterFrame(s, calls, i, |calls|);
    assert calls[..|calls|] == calls;
  }

  lemma {:induction false} QuietAfterFrame(s: State, calls: seq<Call>, i: nat, j: nat)
    requires i < j <= |calls| && calls[i].BeginFrame? && forall k :: i < k < j ==> calls[k].AdvanceTime?
    ensures !Reached(s, calls[..j]).redrawPending && !Reached(s, calls[..j]).externallyInvalidated
  {
    AfterSnoc(s, calls, j - 1);
    if i + 1 < j {
      QuietAfterFrame(s, calls, i, j - 1);
      assert calls[j - 1].AdvanceTime?;
    }
  }

  /** From a new scheduler, a page timer runs from the largest whole-millisecond time it has been shown. */
  lemma TimerRunsFromPageTime(origin: int, interval: nat, calls: seq<Call>, delay: nat, now: int)
    requires var end := Reached(Fresh(origin, interval), calls); !end.redrawPending && !end.externallyInvalidated
    ensures var due := origin + Handed(Fresh(origin, interval), calls) * MILLI + delay;
      Plan(Reached(Fresh(origin, interval), calls), now, RenderDemand(false, After(delay))) ==
      if now >= due then Redraw else WaitUntil(due)
  {
    HandedIsProgress(Fresh(origin, interval), calls);
    OriginIsFixed(Fresh(origin, interval), calls);
  }

  ghost predicate Wakes(plan: FramePlan, now: int, at: int) {
    plan == if now >= at then Redraw else WaitUntil(at)
  }

  /** A wall delay runs from now; of a page and a wall delay the earlier one counts. */
  lemma EarlierDelayCounts(s: State, now: int, delay: nat, wall: nat)
    requires !s.redrawPending && !s.externallyInvalidated
    ensures Wakes(Plan(s, now, RenderDemand(false, AfterWall(wall))), now, now + wall)
    ensures exists page :: Wakes(Plan(s, now, RenderDemand(false, After(delay))), now, page) &&
              Wakes(Plan(s, now, RenderDemand(false, AfterBoth(delay, wall))), now, if page < now + wall then page else now + wall)
  {
    assert Wakes(Plan(s, now, RenderDemand(false, After(delay))), now, TimerDeadline(s, delay));
  }

  /** A pending redraw is waited for, a page that needs paint is painted at once, and an idle one sleeps. */
  lemma PlanPriorities(s: State, now: int, demand: RenderDemand)
    ensures s.redrawPending ==> Plan(s, now, demand) == Wait
    ensures !s.redrawPending && demand.needsPaint ==> Plan(s, now, demand) == Redraw
    ensures !s.redrawPending && !s.externallyInvalidated && demand == RenderDemand(false, Idle) ==> Plan(s, now, demand) == Wait
  {
  }

  // ----- the scheduler -----

  class PlatformFrameScheduler {
    const origin: int
    const interval: nat
    var lastElapsedMs: nat
    var nextDeadline: int
    var redrawPending: bool
    var externallyInvalidated: bool

    ghost function Now(): State
      reads this
    {
      State(origin, lastElapsedMs, interval, nextDeadline, redrawPending, externallyInvalidated)
    }

    constructor (origin: int, interval: nat)
      ensures Now() == Fresh(origin, interval)
    {
      this.origin := origin;
      this.interval := if interval < 1 then 1 else interval;
      lastElapsedMs, nextDeadline := 0, origin;
      redrawPending, externallyInvalidated := false, true;
    }

    method RequestRenderingOpportunity(now: int)
      modifies this
      ensures Now() == Step(old(Now()), Call.RequestRenderingOpportunity(now)).0
    {
      externallyInvalidated := true;
      if now < nextDeadline {
        nextDeadline := now;
      }
    }

    method QueueRedrawIfDue(now: int) returns (first: bool)
      modifies this
      ensures (Now(), Queued(first)) == Step(old(Now()), Call.QueueRedrawIfDue(now))
    {
      if redrawPending || now < nextDeadline {
        return false;
      }
      redrawPending := true;
      return true;
    }

    method QueueRedraw() returns (first: bool)
      modifies this
      ensures (Now(), Queued(first)) == Step(old(Now()), Call.QueueRedraw)
    {
      if redrawPending {
        return false;
      }
      redrawPending := true;
      return true;
    }

    method BeginFrame(now: int) returns (ms: nat)
      modifies this
      ensures (Now(), Delta(ms)) == Step(old(Now()), Call.BeginFrame(now))
    {
      redrawPending := false;
      externallyInvalidated := false;
      nextDeadline := now + interval;
      ms := AdvanceTime(now);
    }

    method AdvanceTime(now: int) returns (ms: nat)
      modifies this
      ensures (Now(), Delta(ms)) == Step(old(Now()), Call.AdvanceTime(now))
    {
      var elapsed := ElapsedMs(origin, now);
      ms := if elapsed > lastElapsedMs then elapsed - lastElapsedMs else 0;
      lastElapsedMs := if elapsed > lastElapsedMs then elapsed else lastElapsedMs;
    }
  }
}
