/** The browser's event reporter: a bounded queue, one batch in flight, retries with backoff, one timer. */
module EventReporter {
  import opened Seqs

  const MAX_BATCH: nat := 20
  const MAX_QUEUE: nat := 200
  const FLUSH_MS: nat := 5000
  const MAX_BACKOFF_MS: nat := 60000
  const FIRST_BACKOFF_MS: nat := 1000

  /** Events stand for their records and are numbered in the order of their reports: `next` have been reported.
      `timer` is the delay of a pending timer, `batch` what a send in progress carries. `acked`, `dropped` and
      `failures` (in a row) are history. */
  datatype State = State(queue: seq<nat>, timer: Option<nat>, sending: bool, backoffMs: nat, batch: seq<nat>,
                         acked: seq<nat>, dropped: set<nat>, next: nat, failures: nat)

  const FRESH := State([], None, false, FIRST_BACKOFF_MS, [], [], {}, 0, 0)

  function Elems(s: seq<nat>): set<nat> { set x | x in s }

  function Schedule(s: State, delay: nat): State { if s.timer.Some? then s else s.(timer := Some(delay)) }

  /** The part of a flush before the request. `canFetch` and `token` tell whether there is a way to send and a login. */
  function Flush(s: State, canFetch: bool, token: bool): State {
    if s.sending || s.queue == [] || !canFetch then s
    else if !token then Schedule(s, FLUSH_MS)
    else
      var n := if |s.queue| < MAX_BATCH then |s.queue| else MAX_BATCH;
      s.(timer := None, batch := s.queue[..n], queue := s.queue[n..], sending := true)
  }

  /** A report joins the queue, and the oldest give way when it is full. */
  function Join(s: State): State {
    var q := s.queue + [s.next];
    var n := if |q| > MAX_QUEUE then |q| - MAX_QUEUE else 0;
    s.(queue := q[n..], dropped := s.dropped + Elems(q[..n]), next := s.next + 1)
  }

  function Report(s: State, canFetch: bool, token: bool): State {
    var t := Join(s);
    if |t.queue| >= MAX_BATCH then Flush(t, canFetch, token) else Schedule(t, FLUSH_MS)
  }

  function Succeed(s: State): State {
    var t := s.(acked := s.acked + s.batch, batch := [], backoffMs := FIRST_BACKOFF_MS, failures := 0,
      sending := false);
    if t.queue != [] then Schedule(t, 0) else t
  }

  function Fail(s: State): State {
    var q := s.batch + s.queue;
    var n := if |q| > MAX_QUEUE then MAX_QUEUE else |q|;
    var t := Schedule(s.(queue := q[..n], dropped := s.dropped + Elems(q[n..]), batch := []), s.backoffMs);
    t.(backoffMs := if t.backoffMs * 2 > MAX_BACKOFF_MS then MAX_BACKOFF_MS else t.backoffMs * 2,
       failures := s.failures + 1, sending := false)
  }

  // ---------------------------------------------------------------- the object

  class EventReporter {
    var queue: seq<nat>
    var timer: Option<nat>
    var sending: bool
    var backoffMs: nat
    var batch: seq<nat>
    const canFetch: bool
    ghost var acked: seq<nat>
    ghost var dropped: set<nat>
    ghost var failures: nat
    var next: nat

    constructor (canFetch: bool)
      ensures View() == FRESH && this.canFetch == canFetch
    {
      queue, timer, sending, backoffMs, batch := [], None, false, FIRST_BACKOFF_MS, [];
      this.canFetch := canFetch;
      acked, dropped, failures, next := [], {}, 0, 0;
    }

    ghost function View(): State
      reads this
    {
      State(queue, timer, sending, backoffMs, batch, acked, dropped, next, failures)
    }

    method ScheduleTimer(delay: nat)
      modifies this`timer
      ensures View() == Schedule(old(View()), delay)
    {
      if timer.Some? {
        return;
      }
      timer := Some(delay);
    }

    method Enqueue()
      modifies this
      ensures View() == Join(old(View()))
    {
      queue := queue + [next];
      next := next + 1;
      assert Elems([]) == {};
      if |queue| > MAX_QUEUE {
        dropped := dropped + Elems(queue[..|queue| - MAX_QUEUE]);
        queue := queue[|queue| - MAX_QUEUE..];
      }
    }

    /** Reports an event; without a type nothing happens. */
    method ReportEvent(kind: string, token: bool)
      modifies this
      ensures View() == if kind == "" then old(View()) else Report(old(View()), canFetch, token)
    {
      if kind == "" {
        return;
      }
      hide Flush, Schedule, Join;
      Enqueue();
      if |queue| >= MAX_BATCH {
        StartFlush(token);
      } else {
        ScheduleTimer(FLUSH_MS);
      }
    }

    method StartFlush(token: bool)
      modifies this
      ensures View() == Flush(old(View()), canFetch, token)
    {
      if sending || |queue| == 0 || !canFetch {
        return;
      }
      if !token {
        ScheduleTimer(FLUSH_MS);
        return;
      }
      timer := None;
      var n := if |queue| < MAX_BATCH then |queue| else MAX_BATCH;
      batch, queue := queue[..n], queue[n..];
      sending := true;
    }

    /** What follows the request: success, or any failure. */
    method EndFlush(ok: bool)
      requires sending
      modifies this
      ensures View() == if ok then Succeed(old(View())) else Fail(old(View()))
    {
      if ok {
        acked, failures := acked + batch, 0;
        backoffMs := FIRST_BACKOFF_MS;
        if |queue| > 0 {
          ScheduleTimer(0);
        }
      } else {
        queue := batch + queue;
        if |queue| > MAX_QUEUE {
          dropped := dropped + Elems(queue[MAX_QUEUE..]);
          queue := queue[..MAX_QUEUE];
        }
        assert Elems([]) == {};
        ScheduleTimer(backoffMs);
        backoffMs := if backoffMs * 2 < MAX_BACKOFF_MS then backoffMs * 2 else MAX_BACKOFF_MS;
        failures := failures + 1;
      }
      batch := [];
      sending := false;
    }

    method FireTimer(token: bool)
      requires timer.Some?
      modifies this
      ensures View() == Flush(old(View()).(timer := None), canFetch, token)
    {
      timer := None;
      StartFlush(token);
    }

    method Unload(token: bool)
      modifies this
      ensures View() == Flush(old(View()), canFetch, token)
    {
      if |queue| == 0 {
        return;
      }
      StartFlush(token);
    }
  }

  // ---------------------------------------------------------------- runs

  /** What can happen between two turns of the event loop. */
  datatype Step =
    | Reports(token: bool)
    | Fires(token: bool)
    | Flushes(token: bool)
    | Answers(ok: bool)

  /** One step; a step that is not possible changes nothing. */
  function Apply(s: State, canFetch: bool, step: Step): State {
    match step
    case Reports(token) => Report(s, canFetch, token)
    case Fires(token) => if s.timer.Some? then Flush(s.(timer := None), canFetch, token) else s
    case Flushes(token) => Flush(s, canFetch, token)
    case Answers(ok) => if !s.sending then s else if ok then Succeed(s) else Fail(s)
  }

  function After(canFetch: bool, steps: seq<Step>, n: nat): State
    requires n <= |steps|
  {
    if n == 0 then FRESH else Apply(After(canFetch, steps, n - 1), canFetch, steps[n - 1])
  }

  /** Everything not dropped, in the order of its fate. */
  function Line(s: State): seq<nat> { s.acked + s.batch + s.queue }

  ghost predicate Ascending(xs: seq<nat>) { forall i, j :: 0 <= i < j < |xs| ==> xs[i] < xs[j] }

  /** Every reported event is in the line or dropped, not both. */
  ghost predicate Accounted(s: State) {
    && (forall x: nat :: x < s.next <==> x in Line(s) || x in s.dropped)
    && (forall x :: x in s.dropped ==> x !in Line(s))
    && Ascending(Line(s))
  }

  ghost predicate Bounded(s: State) {
    |s.queue| <= MAX_QUEUE && |s.batch| <= MAX_BATCH && (s.sending <==> s.batch != [])
      && s.backoffMs == Backoff(s.failures)
  }

  function Power(n: nat): nat { if n == 0 then 1 else 2 * Power(n - 1) }

  function Min(a: nat, b: nat): nat { if a < b then a else b }

  /** The delay after `k` failures in a row. */
  function Backoff(k: nat): nat { Min(MAX_BACKOFF_MS, FIRST_BACKOFF_MS * Power(k)) }

  lemma FlushKeepsLine(s: State, canFetch: bool, token: bool)
    requires !s.sending ==> s.batch == []
    ensures var t := Flush(s, canFetch, token); Line(t) == Line(s) && t.dropped == s.dropped && t.next == s.next
  {
    var n := if |s.queue| < MAX_BATCH then |s.queue| else MAX_BATCH;
    assert s.queue == s.queue[..n] + s.queue[n..];
  }

  lemma Accounts(s: State, t: State)
    requires Accounted(s) && Line(t) == Line(s) && t.dropped == s.dropped && t.next == s.next
    ensures Accounted(t)
  {
  }

  /** Joining the end of the line. */
  lemma JoinAccounts(s: State)
    requires Accounted(s)
    ensures Accounted(s.(queue := s.queue + [s.next], next := s.next + 1))
  {
    var t := s.(queue := s.queue + [s.next], next := s.next + 1);
    assert Line(t) == Line(s) + [s.next];
    forall x | x in Line(s)
      ensures x < s.next
    {
    }
    forall i | 0 <= i < |Line(s)|
      ensures Line(s)[i] < s.next
    {
      assert Line(s)[i] in Line(s);
    }
  }

  /** Dropping a stretch of the queue. */
  lemma DropAccounts(s: State, before: seq<nat>, out: seq<nat>, rest: seq<nat>)
    requires Accounted(s) && s.queue == before + out + rest
    ensures Accounted(s.(queue := before + rest, dropped := s.dropped + Elems(out)))
  {
    var t := s.(queue := before + rest, dropped := s.dropped + Elems(out));
    var front := s.acked + s.batch + before;
    assert Line(s) == front + out + rest;
    assert Line(t) == front + rest;
    assert forall x :: x in Line(s) <==> x in front || x in out || x in rest;
    assert forall x :: x in Line(t) <==> x in front || x in rest;
    forall x | x in out
      ensures x !in front + rest
    {
      var k :| 0 <= k < |out| && out[k] == x;
      assert Line(s)[|front| + k] == x;
      forall i | 0 <= i < |front + rest|
        ensures (front + rest)[i] != x
      {
        assert (front + rest)[i] == Line(s)[if i < |front| then i else i + |out|];
      }
    }
    forall i, j | 0 <= i < j < |Line(t)|
      ensures Line(t)[i] < Line(t)[j]
    {
      assert Line(t)[i] == Line(s)[if i < |front| then i else i + |out|];
      assert Line(t)[j] == Line(s)[if j < |front| then j else j + |out|];
    }
  }

  lemma ReportAccounts(s: State, canFetch: bool, token: bool)
    requires Accounted(s) && Bounded(s)
    ensures Accounted(Report(s, canFetch, token))
  {
    hide Accounted;
    JoinAccounts(s);
    var q := s.queue + [s.next];
    var n := if |q| > MAX_QUEUE then |q| - MAX_QUEUE else 0;
    assert q == [] + q[..n] + q[n..] && q[n..] == [] + q[n..];
    DropAccounts(s.(queue := q, next := s.next + 1), [], q[..n], q[n..]);
    var t := Join(s);
    FlushKeepsLine(t, canFetch, token);
    Accounts(t, Report(s, canFetch, token));
  }

  lemma FailAccounts(s: State)
    requires Accounted(s)
    ensures Accounted(Fail(s))
  {
    hide Accounted;
    var q := s.batch + s.queue;
    var u := s.(batch := [], queue := q);
    assert Line(u) == Line(s);
    Accounts(s, u);
    var n := if |q| > MAX_QUEUE then MAX_QUEUE else |q|;
    assert q == q[..n] + q[n..] + [] && q[..n] == q[..n] + [];
    DropAccounts(u, q[..n], q[n..], []);
    Accounts(u.(queue := q[..n], dropped := s.dropped + Elems(q[n..])), Fail(s));
  }

  lemma SucceedAccounts(s: State)
    requires Accounted(s)
    ensures Accounted(Succeed(s))
  {
    assert Line(Succeed(s)) == Line(s);
    Accounts(s, Succeed(s));
  }

  lemma BackoffDoubles(k: nat)
    ensures Backoff(k + 1) == Min(MAX_BACKOFF_MS, Backoff(k) * 2)
  {
  }

  lemma BoundedKept(s: State, canFetch: bool, step: Step)
    requires Bounded(s)
    ensures Bounded(Apply(s, canFetch, step))
  {
    hide Backoff;
    BackoffDoubles(s.failures);
    NoBackoffYet();
  }

  lemma NoBackoffYet()
    ensures Backoff(0) == FIRST_BACKOFF_MS
  {
  }

  lemma AccountedKept(s: State, canFetch: bool, step: Step)
    requires Accounted(s) && Bounded(s)
    ensures Accounted(Apply(s, canFetch, step))
  {
    match step
    case Reports(token) => ReportAccounts(s, canFetch, token);
    case Answers(ok) =>
      if s.sending {
        SucceedAccounts(s);
        FailAccounts(s);
      }
    case _ =>
      hide Accounted;
      FlushKeepsLine(s, canFetch, step.token);
      FlushKeepsLine(s.(timer := None), canFetch, step.token);
      Accounts(s, Apply(s, canFetch, step));
  }

  lemma {:induction false} Always(canFetch: bool, steps: seq<Step>, n: nat)
    requires n <= |steps|
    ensures Accounted(After(canFetch, steps, n)) && Bounded(After(canFetch, steps, n))
  {
    if n > 0 {
      hide Apply, Accounted, Bounded;
      Always(canFetch, steps, n - 1);
      AccountedKept(After(canFetch, steps, n - 1), canFetch, steps[n - 1]);
      BoundedKept(After(canFetch, steps, n - 1), canFetch, steps[n - 1]);
    } else {
      NoBackoffYet();
    }
  }

  // ---------------------------------------------------------------- what it comes to

  /** Reported events are acknowledged, in flight, queued or dropped, each exactly one of these, and what is not
      dropped keeps the order of the reports. */
  lemma {:induction false} NothingVanishes(canFetch: bool, steps: seq<Step>, n: nat)
    requires n <= |steps|
    ensures var s := After(canFetch, steps, n);
      && (forall x: nat :: x < s.next <==> x in s.acked || x in s.batch || x in s.queue || x in s.dropped)
      && Elems(s.acked) !! Elems(s.batch) !! Elems(s.queue) !! s.dropped
      && Ascending(s.acked) && Ascending(s.batch + s.queue)
  {
    hide After;
    Always(canFetch, steps, n);
    var s := After(canFetch, steps, n);
    Disjointly(s);
    Members(s.acked, s.batch, s.queue);
    hide Ascending;
  }

  lemma Members(a: seq<nat>, b: seq<nat>, c: seq<nat>)
    ensures forall x :: x in a + b + c <==> x in a || x in b || x in c
  {
    assert forall x :: x in a + b <==> x in a || x in b;
  }

  lemma AscendingSplits(a: seq<nat>, b: seq<nat>)
    requires Ascending(a + b)
    ensures Ascending(a) && Ascending(b) && Elems(a) !! Elems(b)
  {
    assert forall i :: 0 <= i < |a| ==> (a + b)[i] == a[i];
    assert forall i :: 0 <= i < |b| ==> (a + b)[|a| + i] == b[i];
  }

  lemma Disjointly(s: State)
    requires Accounted(s)
    ensures Elems(s.acked) !! Elems(s.batch) !! Elems(s.queue) !! s.dropped
    ensures Ascending(s.acked) && Ascending(s.batch + s.queue)
  {
    Members(s.acked, s.batch, s.queue);
    assert Line(s) == s.acked + (s.batch + s.queue);
    AscendingSplits(s.acked, s.batch + s.queue);
    AscendingSplits(s.batch, s.queue);
    hide Ascending;
    assert forall x :: x in Elems(s.batch) || x in Elems(s.queue) ==> x in Elems(s.batch + s.queue);
  }

  /** The queue never holds more than 200 events, a send carries one batch of 1 to 20, and the backoff after k
      failures in a row is min(60000, 1000 * 2^k). */
  lemma {:induction false} BoundsHold(canFetch: bool, steps: seq<Step>, n: nat)
    requires n <= |steps|
    ensures var s := After(canFetch, steps, n);
      && |s.queue| <= 200 && (s.sending <==> 1 <= |s.batch|) && |s.batch| <= 20
      && s.backoffMs == Min(60000, 1000 * Power(s.failures))
  {
    hide After, Accounted;
    Always(canFetch, steps, n);
  }

  /** Events are given up only when the queue is full. */
  lemma DropsOnlyWhenFull(canFetch: bool, steps: seq<Step>, n: nat)
    requires n < |steps| && After(canFetch, steps, n + 1).dropped != After(canFetch, steps, n).dropped
    ensures match steps[n]
      case Reports(_) => |After(canFetch, steps, n).queue| == 200
      case Answers(ok) => !ok && |After(canFetch, steps, n + 1).queue| == 200
      case _ => false
  {
    hide Accounted;
    Always(canFetch, steps, n);
    var s := After(canFetch, steps, n);
    assert Elems([]) == {};
    FlushKeepsLine(s, canFetch, false);
  }

  /** A failed batch is back in front of the queue, cut at 200, and tried again after the backoff unless a timer is
      already pending; after a success a backlog is sent at once. */
  lemma AnswersAreFollowedUp(canFetch: bool, steps: seq<Step>, n: nat, ok: bool)
    requires n < |steps| && steps[n] == Answers(ok) && After(canFetch, steps, n).sending
    ensures var s, t := After(canFetch, steps, n), After(canFetch, steps, n + 1);
      var delay := if ok then 0 else Min(60000, 1000 * Power(s.failures));
      && !t.sending && t.failures == (if ok then 0 else s.failures + 1)
      && t.queue <= (if ok then s.queue else s.batch + s.queue)
      && (t.queue != [] && s.timer.None? ==> t.timer == Some(delay)) && (s.timer.Some? ==> t.timer == s.timer)
      && t.acked == (if ok then s.acked + s.batch else s.acked)
  {
    hide Accounted;
    Always(canFetch, steps, n);
  }

  /** A flush sends exactly when nothing is being sent, there is something to send and a way to, and somebody is logged
      in: the first 20 events of the queue, or all of them; the timer goes. Without a login it is tried again in 5
      seconds, and otherwise nothing happens. */
  lemma FlushSendsAFullBatch(s: State, canFetch: bool, token: bool)
    requires !s.sending ==> s.batch == []
    ensures var t := Flush(s, canFetch, token); var ready := !s.sending && s.queue != [] && canFetch;
      && (ready && token ==>
            && t.sending && t.timer == None && t.batch + t.queue == s.queue
            && |t.batch| == (if |s.queue| < 20 then |s.queue| else 20))
      && (ready && !token ==> t == s.(timer := if s.timer.Some? then s.timer else Some(5000)))
      && (!ready ==> t == s)
  {
  }

  /** The step asks for a flush: a call of it, a timer that fires, or a report that makes 20. */
  predicate Asks(s: State, step: Step) {
    match step
    case Reports(_) => |s.queue| >= 19
    case Fires(_) => s.timer.Some?
    case Flushes(_) => true
    case Answers(_) => false
  }

  /** The queue with the report that comes with the step, the oldest event gone if there are 201. */
  function Waiting(s: State, step: Step): seq<nat> {
    var line := if step.Reports? then s.queue + [s.next] else s.queue;
    if |line| <= 200 then line else line[1..]
  }

  ghost predicate SendsWhenItCan(s: State, t: State, canFetch: bool, step: Step, token: bool) {
    var line, ready := Waiting(s, step), Asks(s, step) && !s.sending && Waiting(s, step) != [] && canFetch;
    && (ready && token <==> t.sending && !s.sending)
    && (if ready && token then
          t.batch == line[..if |line| < 20 then |line| else 20] && t.queue == line[|t.batch|..] && t.timer == None
        else t.batch == s.batch && t.queue == line)
    && (ready && !token ==> t.timer == if s.timer.Some? && !step.Fires? then s.timer else Some(5000))
    && (step.Reports? && |line| < 20 ==> t.timer == if s.timer.Some? then s.timer else Some(5000))
    && (step.Flushes? && !ready ==> t == s) && (step.Fires? && s.timer.Some? && !ready ==> t == s.(timer := None))
  }

  lemma StepSends(s: State, canFetch: bool, step: Step, token: bool)
    requires Bounded(s) && step in {Reports(token), Fires(token), Flushes(token)}
    ensures SendsWhenItCan(s, Apply(s, canFetch, step), canFetch, step, token)
  {
    hide Backoff;
    assert step.Reports? ==> Join(s).queue == Waiting(s, step);
    var u := if step.Reports? then Join(s) else if step.Fires? then s.(timer := None) else s;
    FlushSendsAFullBatch(u, canFetch, token);
    hide Flush, Join, Waiting;
    var v := Flush(u, canFetch, token);
    assert v.batch == (v.batch + v.queue)[..|v.batch|] && v.queue == (v.batch + v.queue)[|v.batch|..];
  }

  /** A send begins exactly with such a step, if none is under way and there is a queue, a way to send and a login. It
      carries the 20 oldest events, or all; a report is the last in line. Without a login the queue waits for a timer;
      without a way to send nothing is set going. */
  lemma SendsBeginWhenTheyCan(canFetch: bool, steps: seq<Step>, n: nat, token: bool)
    requires n < |steps| && steps[n] in {Reports(token), Fires(token), Flushes(token)}
    ensures SendsWhenItCan(After(canFetch, steps, n), After(canFetch, steps, n + 1), canFetch, steps[n], token)
  {
    hide Accounted, SendsWhenItCan;
    Always(canFetch, steps, n);
    StepSends(After(canFetch, steps, n), canFetch, steps[n], token);
  }

  /** Something is going to move the queue. */
  predicate Armed(s: State) { s.queue == [] || s.timer.Some? || s.sending }

  lemma ArmedKept(s: State, step: Step)
    requires Armed(s)
    ensures Armed(Apply(s, true, step))
  {
  }

  lemma {:induction false} AlwaysArmed(steps: seq<Step>, n: nat)
    requires n <= |steps|
    ensures Armed(After(true, steps, n))
  {
    if n == 0 {
    } else {
      hide Apply, Armed;
      AlwaysArmed(steps, n - 1);
      ArmedKept(After(true, steps, n - 1), steps[n - 1]);
    }
  }

  ghost predicate NeverStuck(canFetch: bool) {
    forall steps: seq<Step>, n: nat :: n <= |steps| ==> Armed(After(canFetch, steps, n))
  }

  /** A queue that is not empty always has a timer or a send in progress, exactly if there is a way to send:
      without one the first timer that fires leaves the queue to itself. */
  lemma NeverStuckIffItCanFetch(canFetch: bool)
    ensures NeverStuck(canFetch) <==> canFetch
  {
    if canFetch {
      forall steps: seq<Step>, n: nat | n <= |steps|
        ensures Armed(After(canFetch, steps, n))
      {
        AlwaysArmed(steps, n);
      }
    } else {
      var steps := [Reports(true), Fires(true)];
      var one := After(canFetch, steps, 1);
      assert one == Report(FRESH, canFetch, true);
      assert one.queue == [0] && one.timer.Some?;
      assert After(canFetch, steps, 2) == Flush(one.(timer := None), canFetch, true);
      assert !Armed(After(canFetch, steps, 2));
    }
  }
}
