/** Many workers, a user who cancels, crashes, lost replies and a clock, on one stored notification. */
module NotificationRuns {
  import opened Seqs
  import opened Notification

  /** Where a worker is with the task: it picked it from a scan, computed the lease, read the clock for the
      lease condition, holds the lease, has reloaded, has stepped, or found no row to write back to. */
  datatype Phase =
    | Off
    | Picked
    | Computed(lease: int)
    | Checking(lease: int, cond: int)
    | Leased(lease: int)
    | Loaded(lease: int, seen: Task)
    | Done(lease: int, seen: Task, result: Task, late: bool)
    | Missed(lease: int)

  /** What the switch has said: the legs it dialed, the playbacks it started on them and those it reported finished, and
      whether it has said that the call is over. */
  datatype Told = Told(dialed: set<string>, started: set<(string, string)>, finished: set<(string, string)>, over: bool)

  /** `holder` is the worker granted the lease last, as long as it is still at it. */
  datatype Sys = Sys(row: Row, now: int, deadline: int, workers: map<nat, Phase>, holder: Option<nat>, told: Told)

  function Start(now: int, deadline: int): Sys {
    Sys(Row(SUBMITTED, None), now, deadline, map[], None, Told({}, {}, {}, false))
  }

  function At(s: Sys, w: nat): Phase { if w in s.workers then s.workers[w] else Off }

  datatype Step =
    | Tick(elapsed: nat)
    | Cancel
    | Scan(w: nat)
    | Compute(w: nat)
    | Check(w: nat)
    | Lease(w: nat)
    | LeaseLost(w: nat)
    | Reload(w: nat)
    | Work(w: nat, answers: Answers, shutdown: bool)
    | Commit(w: nat)
    | CommitFails(w: nat)
    | CommitLost(w: nat)
    | Release(w: nat)
    | Crash(w: nat)

  function Move(s: Sys, w: nat, p: Phase): Sys {
    s.(workers := s.workers[w := p],
       holder := if s.holder == Some(w) && (p.Off? || p.Checking?) then None else s.holder)
  }

  predicate Holding(p: Phase) { p.Leased? || p.Loaded? || p.Done? || p.Missed? }

  /** One step; a step that does not apply changes nothing. The Lost ones take effect although the worker is told
      that they failed: it then skips the task, or goes on to the release. */
  function Apply(s: Sys, step: Step): Sys {
    match step
    case Tick(elapsed) => s.(now := s.now + elapsed)
    case Cancel => s.(row := CancelRow(s.row))
    case Scan(w) => if At(s, w).Off? && Leasable(s.row, s.now) then Move(s, w, Picked) else s
    case Compute(w) => if At(s, w).Picked? then Move(s, w, Computed(s.now + LEASE)) else s
    case Check(w) => if At(s, w).Computed? then Move(s, w, Checking(At(s, w).lease, s.now)) else s
    case Lease(w) =>
      if !At(s, w).Checking? then s
      else if Leasable(s.row, At(s, w).cond) then
        Move(s, w, Leased(At(s, w).lease)).(row := LeaseRow(s.row, At(s, w).cond, At(s, w).lease), holder := Some(w))
      else Move(s, w, Off)
    case LeaseLost(w) =>
      if !At(s, w).Checking? then s
      else if Leasable(s.row, At(s, w).cond) then
        Move(s, w, Off).(row := LeaseRow(s.row, At(s, w).cond, At(s, w).lease), holder := None)
      else Move(s, w, Off)
    case Reload(w) => if At(s, w).Leased? then Move(s, w, Loaded(At(s, w).lease, s.row.task)) else s
    case Work(w, a, shutdown) => if At(s, w).Loaded? then DoWork(s, w, a, shutdown) else s
    case Commit(w) =>
      if !At(s, w).Done? then s
      else
        var p := At(s, w);
        var row := CommitRow(s.row, p.seen.state, p.lease, p.result);
        Move(s, w, if Committable(s.row, p.seen.state, p.lease) then Off else Missed(p.lease)).(row := row)
    case CommitFails(w) => if At(s, w).Done? then Move(s, w, Missed(At(s, w).lease)) else s
    case CommitLost(w) =>
      if !At(s, w).Done? then s
      else
        var p := At(s, w);
        Move(s, w, Missed(p.lease)).(row := CommitRow(s.row, p.seen.state, p.lease, p.result))
    case Release(w) =>
      if At(s, w).Missed? then Move(s, w, Off).(row := ReleaseRow(s.row, At(s, w).lease)) else s
    case Crash(w) => Move(s, w, Off)
  }

  /** What the requests of a step add to that. */
  function Heard(k: Told, asked: seq<Request>, a: Answers): Told {
    Told(k.dialed + (set x | x in asked && x.Dial? && a.dial.Good? :: a.dial.value),
         k.started + (set x | x in asked && x.PlayOn? && a.play.Good? :: (x.leg, a.play.value)),
         k.finished + (set x | x in asked && x.AskPlayback? && a.playback == Good("finished") :: (x.leg, x.playback)),
         || k.over || (AskCall in asked && a.call == Good("ended")) || (HangUp(true) in asked && a.hangup.Good?)
         || (HangUp(false) in asked && (a.hangup.Good? || a.hangup.notFound)))
  }

  function DoWork(s: Sys, w: nat, a: Answers, shutdown: bool): Sys
    requires At(s, w).Loaded?
  {
    var p := At(s, w);
    var late := s.now > s.deadline;
    Move(s, w, Done(p.lease, p.seen, Result(p.seen, late, a, shutdown), late))
    .(told := Heard(s.told, StepTask(p.seen, late, a).asked, a))
  }

  /** The state after the first `n` of `steps`. */
  function After(s: Sys, steps: seq<Step>, n: nat): Sys
    requires n <= |steps|
  {
    if n == 0 then s else Apply(After(s, steps, n - 1), steps[n - 1])
  }

  lemma {:induction false} AfterStable(s: Sys, steps: seq<Step>, step: Step, n: nat)
    requires n <= |steps|
    ensures After(s, steps + [step], n) == After(s, steps, n)
  {
    if n == 0 {
    } else {
      AfterStable(s, steps, step, n - 1);
    }
  }

  // ---------------------------------------------------------------- stored states follow the step machine

  /** What a worker has read is not ahead of the row, and its result follows from what it read. */
  predicate Sound(s: Sys, p: Phase) {
    match p
    case Loaded(_, seen) => Behind(s, seen) && Backed(s.told, seen)
    case Done(_, seen, result, late) =>
      && Behind(s, seen) && Backed(s.told, result) && Edge(seen.state, result.state)
      && (Terminal(seen.state) ==> result == seen)
      && (late ==> Stopped(result.state))
    case _ => true
  }

  predicate Behind(s: Sys, seen: Task) {
    && Rank(seen.state) <= Rank(s.row.task.state)
    && (Terminal(seen.state) ==> seen == s.row.task)
  }

  /** A task is where the switch has told: its leg was dialed, its playback was started on that very leg and has
      finished, and the call is over. */
  predicate Backed(k: Told, t: Task) {
    && (t.state in {Dialing, Playing, Finishing, Completed} ==> t.leg in k.dialed)
    && (t.state in {Playing, Finishing, Completed} ==> (t.leg, t.playback) in k.started)
    && (t.state in {Finishing, Completed} ==> (t.leg, t.playback) in k.finished)
    && (Terminal(t.state) ==> k.over)
  }

  predicate Knows(k: Told, l: Told) {
    k.dialed <= l.dialed && k.started <= l.started && k.finished <= l.finished && (k.over ==> l.over)
  }

  predicate Consistent(s: Sys) {
    Backed(s.told, s.row.task) && forall w :: w in s.workers ==> Sound(s, s.workers[w])
  }

  /** What any single step may do to the stored task. */
  predicate Allowed(a: Task, b: Task) {
    b == a || b == CancelRow(Row(a, None)).task || (Edge(a.state, b.state) && !Terminal(a.state))
  }

  lemma SoundGrows(s: Sys, t: Sys, p: Phase)
    requires Sound(s, p) && Allowed(s.row.task, t.row.task) && Knows(s.told, t.told)
    ensures Sound(t, p)
  {
  }

  lemma HeardGrows(k: Told, asked: seq<Request>, a: Answers)
    ensures Knows(k, Heard(k, asked, a))
  {
  }

  lemma KnowingMoreBacks(k: Told, l: Told, t: Task)
    requires Backed(k, t) && Knows(k, l)
    ensures Backed(l, t)
  {
  }

  lemma FailingStepIsBacked(k: Told, t: Task, late: bool, a: Answers)
    requires Backed(k, t) && !Terminal(t.state) && StepTask(t, late, a).error.Some?
    ensures Backed(Heard(k, StepTask(t, late, a).asked, a), StepTask(t, late, a).task)
  {
    var r := StepTask(t, late, a);
    HeardGrows(k, r.asked, a);
    StepFailsWithItsLastRequest(t, late, a);
    if t.state == Playing && HangUp(true) in r.asked {
      FinishingWasFinished(t, late, a);
    }
    hide StepTask;
  }

  lemma SuccessfulStepIsBacked(k: Told, t: Task, late: bool, a: Answers)
    requires Backed(k, t) && !Terminal(t.state) && StepTask(t, late, a).error.None?
    ensures Backed(Heard(k, StepTask(t, late, a).asked, a), StepTask(t, late, a).task)
  {
    var r := StepTask(t, late, a);
    HeardGrows(k, r.asked, a);
    StepFailsWithItsLastRequest(t, late, a);
    StepSucceeds(t, late, a);
    hide StepTask;
    assert r.asked[0] in r.asked && r.asked[|r.asked| - 1] in r.asked;
  }

  /** A step leaves the task where the answers to its own requests put it. */
  lemma StepIsBacked(k: Told, t: Task, late: bool, a: Answers)
    requires Backed(k, t)
    ensures Backed(Heard(k, StepTask(t, late, a).asked, a), StepTask(t, late, a).task)
  {
    if Terminal(t.state) {
      HeardGrows(k, StepTask(t, late, a).asked, a);
    } else if StepTask(t, late, a).error.Some? {
      hide StepTask, Heard;
      FailingStepIsBacked(k, t, late, a);
    } else {
      hide StepTask, Heard;
      SuccessfulStepIsBacked(k, t, late, a);
    }
  }

  lemma FinishingWasFinished(t: Task, late: bool, a: Answers)
    requires !Terminal(t.state) && t.state == Playing && HangUp(true) in StepTask(t, late, a).asked
    ensures a.playback == Good("finished") && AskPlayback(t.leg, t.playback) in StepTask(t, late, a).asked
  {
  }

  lemma WorkIsSound(s: Sys, w: nat, a: Answers, shutdown: bool)
    requires Consistent(s) && At(s, w).Loaded?
    ensures var t := DoWork(s, w, a, shutdown); Sound(t, At(t, w)) && t.row == s.row && Knows(s.told, t.told)
  {
    var p := At(s, w);
    HeardGrows(s.told, StepTask(p.seen, s.now > s.deadline, a).asked, a);
    StepIsBacked(s.told, p.seen, s.now > s.deadline, a);
    hide StepTask, Heard;
    StepFollowsEdge(p.seen, s.now > s.deadline, a, shutdown);
    if s.now > s.deadline {
      StepStopsIffLateOrStopped(p.seen, true);
      assert Stopped(Result(p.seen, true, a, shutdown).state);
    }
  }

  lemma ConsistentKept(s: Sys, step: Step)
    requires Consistent(s)
    ensures Consistent(Apply(s, step)) && Allowed(s.row.task, Apply(s, step).row.task)
  {
    var t := Apply(s, step);
    if step.Work? && At(s, step.w).Loaded? {
      WorkIsSound(s, step.w, step.answers, step.shutdown);
    }
    assert Allowed(s.row.task, t.row.task) && Knows(s.told, t.told);
    forall w | w in t.workers
      ensures Sound(t, t.workers[w])
    {
      if w in s.workers {
        SoundGrows(s, t, s.workers[w]);
      }
    }
  }

  lemma {:induction false} AlwaysConsistent(s: Sys, steps: seq<Step>, n: nat)
    requires Consistent(s) && n <= |steps|
    ensures Consistent(After(s, steps, n))
  {
    if n == 0 {
    } else {
      AlwaysConsistent(s, steps, n - 1);
      ConsistentKept(After(s, steps, n - 1), steps[n - 1]);
    }
  }

  /** Whatever workers, crashes, expired leases and cancels do: the stored state only climbs the ladder
      queued, dialing, playing, finishing, stopping, terminal; a terminal task never changes again; and the task
      is backed by what the switch has told. */
  lemma {:induction false} StoredTaskClimbs(now: int, deadline: int, steps: seq<Step>, i: nat, j: nat)
    requires i <= j <= |steps|
    ensures var a, b := After(Start(now, deadline), steps, i).row.task, After(Start(now, deadline), steps, j).row.task;
            && Rank(a.state) <= Rank(b.state)
            && (Terminal(a.state) ==> b == a)
            && Backed(After(Start(now, deadline), steps, j).told, b)
    decreases j
  {
    AlwaysConsistent(Start(now, deadline), steps, j);
    if i == j {
    } else {
      StoredTaskClimbs(now, deadline, steps, i, j - 1);
      AlwaysConsistent(Start(now, deadline), steps, j - 1);
      ConsistentKept(After(Start(now, deadline), steps, j - 1), steps[j - 1]);
    }
  }

  /** Each single change of the stored task is a cancellation or an edge of the step machine. */
  lemma StoredTaskFollowsPath(now: int, deadline: int, steps: seq<Step>, i: nat)
    requires i < |steps|
    ensures Allowed(After(Start(now, deadline), steps, i).row.task, After(Start(now, deadline), steps, i + 1).row.task)
  {
    AlwaysConsistent(Start(now, deadline), steps, i);
    ConsistentKept(After(Start(now, deadline), steps, i), steps[i]);
  }

  /** A request is for a leg that was dialed, for a playback that was started on that very leg,
    and a normal hang-up comes
      after the task's playback has finished. */
  predicate Warranted(k: Told, t: Task, x: Request) {
    match x
    case PlayOn(leg) => leg in k.dialed
    case AskPlayback(leg, playback) => leg in k.dialed && (leg, playback) in k.started
    case HangUp(normal) => normal ==> (t.leg, t.playback) in k.finished
    case _ => true
  }

  lemma RequestsNameTheTask(t: Task, late: bool, a: Answers, x: Request)
    requires x in StepTask(t, late, a).asked
    ensures x.PlayOn? ==> t.state == Dialing && x.leg == t.leg
    ensures x.AskPlayback? ==> t.state == Playing && x.leg == t.leg && x.playback == t.playback
    ensures x == HangUp(true) ==> t.state in {Playing, Finishing}
  {
  }

  lemma RequestIsWarranted(k: Told, t: Task, late: bool, a: Answers, x: Request)
    requires Backed(k, t) && x in StepTask(t, late, a).asked
    ensures Warranted(Heard(k, StepTask(t, late, a).asked, a), t, x)
  {
    HeardGrows(k, StepTask(t, late, a).asked, a);
    RequestsNameTheTask(t, late, a, x);
    if x == HangUp(true) && t.state == Playing {
      FinishingWasFinished(t, late, a);
    }
    hide StepTask;
  }

  /** In every run, whatever a worker asks of the switch is warranted by what the switch has told. */
  lemma RequestsAreWarranted(now: int, deadline: int, steps: seq<Step>, i: nat, x: Request)
    requires i < |steps| && steps[i].Work?
    requires var s := After(Start(now, deadline), steps, i);
      At(s, steps[i].w).Loaded?
      && x in StepTask(At(s, steps[i].w).seen, s.now > s.deadline, steps[i].answers).asked
    ensures Warranted(After(Start(now, deadline), steps, i + 1).told,
                      At(After(Start(now, deadline), steps, i), steps[i].w).seen, x)
  {
    var s := After(Start(now, deadline), steps, i);
    AlwaysConsistent(Start(now, deadline), steps, i);
    assert Sound(s, s.workers[steps[i].w]);
    RequestIsWarranted(s.told, At(s, steps[i].w).seen, s.now > s.deadline, steps[i].answers, x);
    hide StepTask, Heard, Warranted;
  }

  // ---------------------------------------------------------------- an undisturbed visit

  /** The steps of a visit from the computation of its lease on, with its clock readings and the fates of its calls. */
  function VisitSteps(v: Visit, w: nat): seq<Step>
    requires v.leaseAt <= v.condAt <= v.stepAt
  {
    [Compute(w), Tick(v.condAt - v.leaseAt), Check(w),
     match v.lease case Fine => Lease(w) case Lost => LeaseLost(w) case Broken => Crash(w),
     if v.reloads then Reload(w) else Crash(w), Tick(v.stepAt - v.condAt), Work(w, v.answers, v.shutdown),
     match v.update case Fine => Commit(w) case Lost => CommitLost(w) case Broken => CommitFails(w),
     if v.release.Broken? then Crash(w) else Release(w)]
  }

  lemma NineSteps(s: Sys, steps: seq<Step>)
    requires |steps| == 9
    ensures After(s, steps, 9) == Apply(Apply(Apply(Apply(After(s, steps, 5), steps[5]), steps[6]), steps[7]), steps[8])
    ensures After(s, steps, 5) == Apply(Apply(Apply(Apply(Apply(s, steps[0]), steps[1]), steps[2]), steps[3]), steps[4])
  {
    hide Apply;
    assert After(s, steps, 0) == s && After(s, steps, 1) == Apply(s, steps[0]);
    assert After(s, steps, 2) == Apply(After(s, steps, 1), steps[1]);
    assert After(s, steps, 3) == Apply(After(s, steps, 2), steps[2]);
    assert After(s, steps, 4) == Apply(After(s, steps, 3), steps[3]);
    assert After(s, steps, 5) == Apply(After(s, steps, 4), steps[4]);
    assert After(s, steps, 6) == Apply(After(s, steps, 5), steps[5]);
    assert After(s, steps, 7) == Apply(After(s, steps, 6), steps[6]);
    assert After(s, steps, 8) == Apply(After(s, steps, 7), steps[7]);
  }

  lemma VisitReadsTheClock(s: Sys, w: nat, elapsed: nat)
    requires At(s, w) == Picked
    ensures var a := Apply(Apply(Apply(s, Compute(w)), Tick(elapsed)), Check(w));
      At(a, w) == Checking(s.now + LEASE, s.now + elapsed) && a.row == s.row && a.deadline == s.deadline
      && a.now == s.now + elapsed
  {
  }

  lemma VisitAsksForTheLease(a: Sys, w: nat, v: Visit, lease: int)
    requires At(a, w) == Checking(lease, v.condAt)
    ensures var b := Apply(a, match v.lease case Fine => Lease(w) case Lost => LeaseLost(w) case Broken => Crash(w));
      var c := Apply(b, if v.reloads then Reload(w) else Crash(w));
      c.deadline == a.deadline && c.now == a.now
      && if v.lease.Broken? || !Leasable(a.row, v.condAt) then At(c, w).Off? && c.row == a.row
         else
           c.row == LeaseRow(a.row, v.condAt, lease)
           && At(c, w) == if v.lease.Fine? && v.reloads then Loaded(lease, a.row.task) else Off
  {
    hide DoWork, CommitRow, ReleaseRow;
  }

  lemma VisitLeases(s: Sys, w: nat, v: Visit)
    requires At(s, w) == Picked && s.now == v.leaseAt <= v.condAt <= v.stepAt
    ensures var a := After(s, VisitSteps(v, w), 5);
      a.deadline == s.deadline && a.now == v.condAt
      && if v.lease.Broken? || !Leasable(s.row, v.condAt) then At(a, w).Off? && a.row == s.row
         else
           a.row == LeaseRow(s.row, v.condAt, v.leaseAt + LEASE)
           && At(a, w) == if v.lease.Fine? && v.reloads then Loaded(v.leaseAt + LEASE, s.row.task) else Off
  {
    hide After, Apply, Leasable, LeaseRow;
    var steps := VisitSteps(v, w);
    NineSteps(s, steps);
    VisitReadsTheClock(s, w, v.condAt - v.leaseAt);
    VisitAsksForTheLease(Apply(Apply(Apply(s, steps[0]), steps[1]), steps[2]), w, v, v.leaseAt + LEASE);
  }

  lemma VisitWritesBack(a: Sys, w: nat, v: Visit, lease: int)
    requires a.now <= v.stepAt && (At(a, w).Off? || (At(a, w).Loaded? && At(a, w).lease == lease))
    ensures var work := Work(w, v.answers, v.shutdown);
      var commit := match v.update case Fine => Commit(w) case Lost => CommitLost(w) case Broken => CommitFails(w);
      var release := if v.release.Broken? then Crash(w) else Release(w);
      var b := Apply(Apply(Apply(Apply(a, Tick(v.stepAt - a.now)), work), commit), release);
      b.row == if At(a, w).Off? then a.row
               else WrittenBack(a.row, At(a, w).seen.state, lease,
                                Result(At(a, w).seen, v.stepAt > a.deadline, v.answers, v.shutdown), v.update,
                                  v.release)
  {
    hide Result, Heard, StepTask;
  }

  /** A visit that nothing disturbs leaves in the row what its steps leave there. */
  lemma VisitIsARun(s: Sys, w: nat, v: Visit)
    requires At(s, w) == Picked && s.now == v.leaseAt <= v.condAt <= v.stepAt && s.deadline == v.deadline
    ensures After(s, VisitSteps(v, w), 9).row == Visited(s.row, v)
  {
    hide After, Apply, Result, WrittenBack, LeaseRow, Leasable;
    var steps := VisitSteps(v, w);
    NineSteps(s, steps);
    VisitLeases(s, w, v);
    var a := After(s, steps, 5);
    assert v.stepAt - v.condAt == v.stepAt - a.now;
    VisitWritesBack(a, w, v, v.leaseAt + LEASE);
  }

  // ---------------------------------------------------------------- what leases fence off

  /** A worker that still works under a lease although another lease was granted since. */
  predicate Superseded(s: Sys, w: nat) { Holding(At(s, w)) && s.holder != Some(w) }

  /** The update of the lease finds the row. */
  predicate Grants(s: Sys, step: Step) {
    (step.Lease? || step.LeaseLost?) && At(s, step.w).Checking? && Leasable(s.row, At(s, step.w).cond)
  }

  /** What `w` still does in the visit it is in. */
  predicate Ends(step: Step, w: nat) {
    match step
    case Reload(v) => v == w
    case Work(v, _, _) => v == w
    case Commit(v) => v == w
    case CommitFails(v) => v == w
    case CommitLost(v) => v == w
    case Release(v) => v == w
    case Crash(v) => v == w
    case _ => false
  }

  ghost predicate OnlyEnds(tail: seq<Step>, w: nat) { forall k :: 0 <= k < |tail| ==> Ends(tail[k], w) }

  /** However `w` goes on with its visit, it does not change the row. */
  ghost predicate FencedOff(s: Sys, w: nat) {
    forall tail: seq<Step> :: OnlyEnds(tail, w) ==> After(s, tail, |tail|).row == s.row
  }

  /** The worker does not have the key to the row. */
  predicate Keyless(r: Row, p: Phase) { p.Off? || (Holding(p) && r.lockedUntil != Some(p.lease)) }

  lemma KeylessStep(s: Sys, step: Step, w: nat)
    requires Keyless(s.row, At(s, w)) && Ends(step, w)
    ensures Apply(s, step).row == s.row && Keyless(s.row, At(Apply(s, step), w))
  {
  }

  lemma {:induction false} KeylessTail(s: Sys, w: nat, tail: seq<Step>, n: nat)
    requires Keyless(s.row, At(s, w)) && OnlyEnds(tail, w) && n <= |tail|
    ensures After(s, tail, n).row == s.row && Keyless(s.row, At(After(s, tail, n), w))
  {
    if n == 0 {
    } else {
      hide Apply, Keyless, At;
      KeylessTail(s, w, tail, n - 1);
      KeylessStep(After(s, tail, n - 1), tail[n - 1], w);
    }
  }

  /** The steps that end a visit from any phase of it. */
  function Ending(w: nat): seq<Step> { [Reload(w), Work(w, ANSWERING, false), Commit(w), Release(w)] }

  lemma KeyOpens(s: Sys, w: nat)
    requires Holding(At(s, w)) && s.row.lockedUntil == Some(At(s, w).lease)
    ensures After(s, Ending(w), 4).row.lockedUntil == None
  {
    hide StepTask, Heard, Result;
    var a := Apply(s, Reload(w));
    var b := Apply(a, Work(w, ANSWERING, false));
    assert b.row == s.row && (At(b, w).Done? || At(b, w).Missed?) && At(b, w).lease == At(s, w).lease;
    var c := Apply(b, Commit(w));
    assert c.row.lockedUntil == None || (At(c, w) == Missed(At(s, w).lease) && c.row == s.row);
    FourSteps(s, Ending(w));
  }

  lemma FourSteps(s: Sys, steps: seq<Step>)
    requires |steps| == 4
    ensures After(s, steps, 4) == Apply(Apply(Apply(Apply(s, steps[0]), steps[1]), steps[2]), steps[3])
  {
    hide Apply;
    assert After(s, steps, 1) == Apply(After(s, steps, 0), steps[0]);
    assert After(s, steps, 2) == Apply(After(s, steps, 1), steps[1]);
    assert After(s, steps, 3) == Apply(After(s, steps, 2), steps[2]);
  }

  /** A worker is fenced off exactly if the row does not carry its lease. */
  lemma FencedOffIffKeyless(s: Sys, w: nat)
    requires Holding(At(s, w))
    ensures FencedOff(s, w) <==> s.row.lockedUntil != Some(At(s, w).lease)
  {
    if s.row.lockedUntil != Some(At(s, w).lease) {
      forall tail: seq<Step> | OnlyEnds(tail, w)
        ensures After(s, tail, |tail|).row == s.row
      {
        KeylessTail(s, w, tail, |tail|);
      }
    } else {
      KeyOpens(s, w);
      assert OnlyEnds(Ending(w), w) && |Ending(w)| == 4;
    }
  }

  // ---------------------------------------------------------------- grants that are fresh

  /** A grant gives out no lease that another worker still works under. */
  predicate Fresh(s: Sys, step: Step) {
    Grants(s, step) ==>
      forall w :: w in s.workers && w != step.w && Holding(s.workers[w]) ==> s.workers[w].lease != At(s, step.w).lease
  }

  ghost predicate FreshGrants(s: Sys, steps: seq<Step>) {
    forall k :: 0 <= k < |steps| ==> Fresh(After(s, steps, k), steps[k])
  }

  /** Every worker that was superseded is fenced off, at every moment of the run. */
  ghost predicate Fences(s: Sys, steps: seq<Step>) {
    forall n: nat, w: nat :: n <= |steps| && Superseded(After(s, steps, n), w) ==> FencedOff(After(s, steps, n), w)
  }

  ghost predicate Lone(s: Sys) {
    forall w :: w in s.workers && Superseded(s, w) ==> s.row.lockedUntil != Some(At(s, w).lease)
  }

  lemma LoneKept(s: Sys, step: Step)
    requires Lone(s) && Fresh(s, step)
    ensures Lone(Apply(s, step))
  {
    hide Result;
    var t := Apply(s, step);
    forall w | w in t.workers && Superseded(t, w)
      ensures t.row.lockedUntil != Some(At(t, w).lease)
    {
      assert w in s.workers && Superseded(s, w) ==> s.row.lockedUntil != Some(At(s, w).lease);
    }
  }

  lemma {:induction false} AlwaysLone(s: Sys, steps: seq<Step>, n: nat)
    requires Lone(s) && FreshGrants(s, steps) && n <= |steps|
    ensures Lone(After(s, steps, n))
  {
    if n == 0 {
    } else {
      hide Apply, Lone, Fresh;
      AlwaysLone(s, steps, n - 1);
      LoneKept(After(s, steps, n - 1), steps[n - 1]);
    }
  }

  /** A grant of a lease that `w` still works under supersedes `w` and leaves it the key. */
  lemma StaleGrant(s: Sys, step: Step, w: nat)
    requires Grants(s, step) && w != step.w && Holding(At(s, w)) && At(s, w).lease == At(s, step.w).lease
    ensures Superseded(Apply(s, step), w) && !FencedOff(Apply(s, step), w)
  {
    var t := Apply(s, step);
    assert At(t, w) == At(s, w) && t.row.lockedUntil == Some(At(s, w).lease);
    FencedOffIffKeyless(t, w);
  }

  /** Run by run: leases fence off every superseded worker exactly if every grant is fresh. No timing comes into it. */
  lemma LeasesFenceIffGrantsAreFresh(now: int, deadline: int, steps: seq<Step>)
    ensures Fences(Start(now, deadline), steps) <==> FreshGrants(Start(now, deadline), steps)
  {
    var s := Start(now, deadline);
    if FreshGrants(s, steps) {
      forall n: nat, w: nat | n <= |steps| && Superseded(After(s, steps, n), w)
        ensures FencedOff(After(s, steps, n), w)
      {
        AlwaysLone(s, steps, n);
        FencedOffIffKeyless(After(s, steps, n), w);
      }
    } else {
      var k :| 0 <= k < |steps| && !Fresh(After(s, steps, k), steps[k]);
      var a := After(s, steps, k);
      var w :| w in a.workers && w != steps[k].w && Holding(a.workers[w])
        && a.workers[w].lease == At(a, steps[k].w).lease;
      StaleGrant(a, steps[k], w);
      assert After(s, steps, k + 1) == Apply(a, steps[k]);
    }
  }

  /** Two workers compute a lease each. */
  predicate Rivals(a: Step, b: Step) { a.Compute? && b.Compute? && a.w != b.w }

  /** No two workers read the clock in the same microsecond for a lease: the column keeps no more of a lease. */
  ghost predicate DistinctReadings(s: Sys, steps: seq<Step>) {
    forall i, j :: 0 <= i < |steps| && 0 <= j < |steps| && Rivals(steps[i], steps[j]) ==>
      After(s, steps, i).now != After(s, steps, j).now
  }

  predicate Carries(p: Phase) { p.Computed? || p.Checking? || Holding(p) }

  lemma CarriedOrComputed(s: Sys, step: Step, w: nat)
    requires Carries(At(Apply(s, step), w))
    ensures || (Carries(At(s, w)) && At(s, w).lease == At(Apply(s, step), w).lease)
            || (step == Compute(w) && At(Apply(s, step), w).lease == s.now + LEASE)
  {
  }

  /** Where a worker's lease comes from. */
  lemma {:induction false} LeaseWasComputed(now: int, deadline: int, steps: seq<Step>, n: nat, w: nat) returns (i: nat)
    requires n <= |steps| && Carries(At(After(Start(now, deadline), steps, n), w))
    ensures i < n && steps[i] == Compute(w)
    ensures After(Start(now, deadline), steps, i).now + LEASE == At(After(Start(now, deadline), steps, n), w).lease
  {
    var s := After(Start(now, deadline), steps, n - 1);
    CarriedOrComputed(s, steps[n - 1], w);
    hide Apply, Carries;
    if steps[n - 1] == Compute(w) && At(Apply(s, steps[n - 1]), w).lease == s.now + LEASE {
      i := n - 1;
    } else {
      i := LeaseWasComputed(now, deadline, steps, n - 1, w);
    }
  }

  lemma DistinctReadingsAreFresh(now: int, deadline: int, steps: seq<Step>)
    requires DistinctReadings(Start(now, deadline), steps)
    ensures FreshGrants(Start(now, deadline), steps)
  {
    var s := Start(now, deadline);
    forall k | 0 <= k < |steps|
      ensures Fresh(After(s, steps, k), steps[k])
    {
      var a := After(s, steps, k);
      if Grants(a, steps[k]) {
        forall w | w in a.workers && w != steps[k].w && Holding(a.workers[w])
          ensures a.workers[w].lease != At(a, steps[k].w).lease
        {
          hide Apply;
          var i := LeaseWasComputed(now, deadline, steps, k, w);
          var j := LeaseWasComputed(now, deadline, steps, k, steps[k].w);
        }
      }
    }
  }

  /** In every run, at least of those in which no two workers read the same clock value, leases fence. */
  ghost predicate FencesIf(distinct: bool) {
    forall now, deadline, steps: seq<Step> ::
      (distinct ==> DistinctReadings(Start(now, deadline), steps)) ==> Fences(Start(now, deadline), steps)
  }

  // ---------------------------------------------------------------- grants that are timely

  /** A grant is carried out at most `d` microseconds after its lease was computed; only if `lost` does a write-back
      take effect while its reply is lost. */
  predicate Within(s: Sys, step: Step, d: nat, lost: bool) {
    (Grants(s, step) ==> s.now <= At(s, step.w).lease - LEASE + d) && (step.CommitLost? ==> lost)
  }

  ghost predicate AllWithin(s: Sys, steps: seq<Step>, n: nat, d: nat, lost: bool)
    requires n <= |steps|
  {
    forall k :: 0 <= k < n ==> Within(After(s, steps, k), steps[k], d, lost)
  }

  /** The row carries the holder's lease; everyone else's has run out and is not the one in the row. */
  ghost predicate Fenced(s: Sys) {
    && (s.holder.Some? ==> Holding(At(s, s.holder.value)))
    && forall w :: w in s.workers ==> FencedAt(s, w)
  }

  predicate FencedAt(s: Sys, w: nat) {
    var p := At(s, w);
    && (Holding(p) ==> if s.holder == Some(w) then s.row.lockedUntil == Some(p.lease)
                       else p.lease < s.now && s.row.lockedUntil != Some(p.lease))
    && (p.Checking? ==> p.cond <= s.now)
  }

  lemma FencedKept(s: Sys, step: Step)
    requires Fenced(s) && Within(s, step, LEASE, false)
    ensures Fenced(Apply(s, step))
  {
    hide Result;
    var t := Apply(s, step);
    forall w | w in t.workers
      ensures FencedAt(t, w)
    {
      if w in s.workers {
        assert FencedAt(s, w);
      }
      if s.holder.Some? {
        assert FencedAt(s, s.holder.value);
      }
    }
  }

  /** A grant is above every lease another worker still works under. */
  lemma LaterLeaseIsGreater(s: Sys, step: Step, w: nat)
    requires Fenced(s) && Grants(s, step) && Within(s, step, LEASE, false) && w != step.w && Holding(At(s, w))
    ensures At(s, w).lease < At(s, step.w).lease
  {
    assert FencedAt(s, w) && FencedAt(s, step.w);
  }

  lemma {:induction false} AlwaysFenced(s: Sys, steps: seq<Step>, n: nat, d: nat)
    requires Fenced(s) && n <= |steps| && d <= LEASE && AllWithin(s, steps, n, d, false)
    ensures Fenced(After(s, steps, n))
  {
    if n == 0 {
    } else {
      AlwaysFenced(s, steps, n - 1, d);
      assert Within(After(s, steps, n - 1), steps[n - 1], d, false);
      hide Apply, Fenced;
      FencedKept(After(s, steps, n - 1), steps[n - 1]);
    }
  }

  /** In every run whose grants are carried out within `d`, with or without lost replies, leases fence. */
  ghost predicate FencesWithin(d: nat, lost: bool) {
    forall now, deadline, steps: seq<Step> ::
      AllWithin(Start(now, deadline), steps, |steps|, d, lost) ==> Fences(Start(now, deadline), steps)
  }

  /** And every lease is strictly greater than those other workers still work under when it is granted. */
  ghost predicate RisesWithin(d: nat, lost: bool) {
    forall now, deadline, steps: seq<Step>, n: nat, w: nat ::
      n < |steps| && AllWithin(Start(now, deadline), steps, |steps|, d, lost)
        && Grants(After(Start(now, deadline), steps, n), steps[n])
      && w != steps[n].w && Holding(At(After(Start(now, deadline), steps, n), w))
      ==> At(After(Start(now, deadline), steps, n), w).lease
          < At(After(Start(now, deadline), steps, n), steps[n].w).lease
  }

  // ---------------------------------------------------------------- schedules that go wrong

  const ANSWERING := Answers(Good(()), Good(()), Good("leg"), Good("playing"), Good("active"), Good("playback"))

  lemma AfterSnoc(s: Sys, steps: seq<Step>, step: Step)
    ensures After(s, steps + [step], |steps| + 1) == Apply(After(s, steps, |steps|), step)
  {
    AfterStable(s, steps, step, |steps|);
  }

  lemma WithinSnoc(s: Sys, steps: seq<Step>, step: Step, d: nat, lost: bool)
    requires AllWithin(s, steps, |steps|, d, lost) && Within(After(s, steps, |steps|), step, d, lost)
    ensures AllWithin(s, steps + [step], |steps| + 1, d, lost)
  {
    forall k | 0 <= k < |steps| + 1
      ensures Within(After(s, steps + [step], k), (steps + [step])[k], d, lost)
    {
      AfterStable(s, steps, step, k);
      assert k < |steps| ==> Within(After(s, steps, k), steps[k], d, lost);
    }
  }

  /** One more step of a schedule under construction. */
  lemma Extend(s: Sys, steps: seq<Step>, a: Sys, step: Step, d: nat, lost: bool) returns (steps': seq<Step>, a': Sys)
    requires a == After(s, steps, |steps|) && AllWithin(s, steps, |steps|, d, lost) && Within(a, step, d, lost)
    ensures steps' == steps + [step] && a' == Apply(a, step) && a' == After(s, steps', |steps'|)
    ensures AllWithin(s, steps', |steps'|, d, lost)
  {
    AfterSnoc(s, steps, step);
    WithinSnoc(s, steps, step, d, lost);
    steps', a' := steps + [step], Apply(a, step);
  }

  /** A worker computes a lease for a free task and at once checks the clock. */
  lemma ComputeAndCheck(s: Sys, steps: seq<Step>, a: Sys, w: nat, d: nat, lost: bool)
      returns (steps': seq<Step>, a': Sys)
    requires a == After(s, steps, |steps|) && AllWithin(s, steps, |steps|, d, lost)
    requires At(a, w).Off? && Leasable(a.row, a.now) && a.holder == None
    ensures a' == After(s, steps', |steps'|) && AllWithin(s, steps', |steps'|, d, lost)
    ensures a' == a.(workers := a'.workers) && At(a', w) == Checking(a.now + LEASE, a.now)
    ensures forall v :: v != w ==> At(a', v) == At(a, v)
  {
    hide After, AllWithin;
    steps', a' := Extend(s, steps, a, Scan(w), d, lost);
    steps', a' := Extend(s, steps', a', Compute(w), d, lost);
    steps', a' := Extend(s, steps', a', Check(w), d, lost);
  }

  /** A worker leases a free task and reloads it. */
  lemma LeaseAndReload(s: Sys, steps: seq<Step>, a: Sys, w: nat, d: nat, lost: bool)
      returns (steps': seq<Step>, a': Sys)
    requires a == After(s, steps, |steps|) && AllWithin(s, steps, |steps|, d, lost)
    requires At(a, w).Off? && Leasable(a.row, a.now) && a.holder == None
    ensures a' == After(s, steps', |steps'|) && AllWithin(s, steps', |steps'|, d, lost)
    ensures a' == a.(workers := a'.workers, row := Row(a.row.task, Some(a.now + LEASE)), holder := Some(w))
    ensures At(a', w) == Loaded(a.now + LEASE, a.row.task)
    ensures forall v :: v != w ==> At(a', v) == At(a, v)
  {
    hide After, AllWithin, DoWork;
    steps', a' := ComputeAndCheck(s, steps, a, w, d, lost);
    steps', a' := Extend(s, steps', a', Lease(w), d, lost);
    steps', a' := Extend(s, steps', a', Reload(w), d, lost);
  }

  /** The worker of a queued task dials in time. */
  lemma DialInTime(s: Sys, steps: seq<Step>, a: Sys, w: nat, d: nat, lost: bool) returns (steps': seq<Step>, a': Sys)
    requires a == After(s, steps, |steps|) && AllWithin(s, steps, |steps|, d, lost)
    requires At(a, w).Loaded? && At(a, w).seen == SUBMITTED && a.now <= a.deadline
    ensures a' == After(s, steps', |steps'|) && AllWithin(s, steps', |steps'|, d, lost)
    ensures a' == a.(workers := a'.workers, told := a'.told)
    ensures At(a', w) == Done(At(a, w).lease, SUBMITTED, Task(Dialing, "leg", "", ""), false)
    ensures forall v :: v != w ==> At(a', v) == At(a, v)
  {
    steps', a' := Extend(s, steps, a, Work(w, ANSWERING, false), d, lost);
  }

  /** The worker of a queued task finds the deadline past and cannot hang up. */
  lemma FailToStop(s: Sys, steps: seq<Step>, a: Sys, w: nat, d: nat, lost: bool) returns (steps': seq<Step>, a': Sys)
    requires a == After(s, steps, |steps|) && AllWithin(s, steps, |steps|, d, lost)
    requires At(a, w).Loaded? && At(a, w).seen == SUBMITTED == a.row.task && a.now > a.deadline
    requires a.row.lockedUntil == Some(At(a, w).lease) && a.holder == Some(w)
    ensures a' == After(s, steps', |steps'|) && AllWithin(s, steps', |steps'|, d, lost)
    ensures At(a', w).Off? && a'.row == Row(Task(Stopping, "", "", DEADLINE_ERROR), None) && a'.holder == None
    ensures a'.now == a.now && a'.deadline == a.deadline
  {
    hide After, AllWithin;
    steps', a' := Extend(s, steps, a, Work(w, ANSWERING.(hangup := Bad("down", false)), false), d, lost);
    assert At(a', w) == Done(At(a, w).lease, SUBMITTED, Task(Stopping, "", "", DEADLINE_ERROR), true);
    steps', a' := Extend(s, steps', a', Commit(w), d, lost);
  }

  lemma JustCompute(s: Sys, v: nat, d: nat, lost: bool) returns (steps: seq<Step>, a: Sys)
    requires At(s, v).Off? && Leasable(s.row, s.now) && s.holder == None
    ensures a == After(s, steps, |steps|) && AllWithin(s, steps, |steps|, d, lost)
    ensures a == s.(workers := s.workers[v := Computed(s.now + LEASE)])
  {
    steps, a := Extend(s, [], s, Scan(v), d, lost);
    steps, a := Extend(s, steps, a, Compute(v), d, lost);
    assert a.workers == s.workers[v := Computed(s.now + LEASE)];
  }

  /** Two workers compute the same lease, and the first one is granted it and steps. */
  lemma SameReading(now: int, deadline: int, v: nat, w: nat, d: nat, lost: bool) returns (steps: seq<Step>, a: Sys)
    requires v != w && now <= deadline
    ensures a == After(Start(now, deadline), steps, |steps|) && AllWithin(Start(now, deadline), steps, |steps|, d, lost)
    ensures At(a, v) == Computed(now + LEASE) && At(a, w).Done? && At(a, w).lease == now + LEASE
      && At(a, w).seen == SUBMITTED
    ensures a.row == Row(SUBMITTED, Some(now + LEASE)) && a.now == now && !Terminal(At(a, w).result.state)
  {
    hide After, AllWithin, Apply;
    var s := Start(now, deadline);
    steps, a := JustCompute(s, v, d, lost);
    steps, a := LeaseAndReload(s, steps, a, w, d, lost);
    steps, a := DialInTime(s, steps, a, w, d, lost);
  }

  /** The other one is about to be granted the very lease under which the first still works. */
  ghost predicate Collides(now: int, deadline: int, steps: seq<Step>, a: Sys, v: nat, w: nat, d: nat, lost: bool) {
    && a == After(Start(now, deadline), steps, |steps|) && AllWithin(Start(now, deadline), steps, |steps|, d, lost)
    && Grants(a, Lease(v)) && Within(a, Lease(v), d, lost) && v != w && Holding(At(a, w))
      && At(a, w).lease == At(a, v).lease
  }

  /** It paused for longer than a lease lasts. */
  lemma LateGrantCollides(now: int, deadline: int, v: nat, w: nat, d: nat) returns (steps: seq<Step>, a: Sys)
    requires d > LEASE && v != w && now <= deadline
    ensures Collides(now, deadline, steps, a, v, w, d, false)
  {
    steps, a := SameReading(now, deadline, v, w, d, false);
    hide After, AllWithin;
    steps, a := Extend(Start(now, deadline), steps, a, Tick(d), d, false);
    steps, a := Extend(Start(now, deadline), steps, a, Check(v), d, false);
    assert At(a, v) == Checking(now + LEASE, now + d);
  }

  /** Or the first one's write-back freed the row, but its reply was lost, and the first one has yet to release:
      all this can happen within the same microsecond. */
  lemma LostReplyCollides(now: int, deadline: int, v: nat, w: nat, d: nat) returns (steps: seq<Step>, a: Sys)
    requires v != w && now <= deadline
    ensures Collides(now, deadline, steps, a, v, w, d, true)
  {
    steps, a := SameReading(now, deadline, v, w, d, true);
    hide After, AllWithin;
    steps, a := Extend(Start(now, deadline), steps, a, CommitLost(w), d, true);
    assert a.row.lockedUntil == None && At(a, w) == Missed(now + LEASE) && At(a, v) == Computed(now + LEASE);
    steps, a := Extend(Start(now, deadline), steps, a, Check(v), d, true);
    assert At(a, v) == Checking(now + LEASE, now) && At(a, w) == Missed(now + LEASE);
  }

  /** After a collision leases neither fence nor rise. */
  lemma CollisionDefeats(now: int, deadline: int, steps: seq<Step>, a: Sys, v: nat, w: nat, d: nat, lost: bool)
    requires Collides(now, deadline, steps, a, v, w, d, lost)
    ensures !FencesWithin(d, lost) && !RisesWithin(d, lost) && !FencesIf(false)
  {
    var s := Start(now, deadline);
    StaleGrant(a, Lease(v), w);
    hide After, AllWithin, Apply, FencedOff;
    var steps', a' := Extend(s, steps, a, Lease(v), d, lost);
    AfterStable(s, steps, Lease(v), |steps|);
    assert steps'[|steps|] == Lease(v) && After(s, steps', |steps|) == a;
    assert Superseded(After(s, steps', |steps'|), w) && !FencedOff(After(s, steps', |steps'|), w);
    assert !Fences(s, steps');
  }

  /** Among all runs, it takes distinct clock readings, and these are enough. */
  lemma LeasesFenceIffReadingsAreDistinct(distinct: bool)
    ensures FencesIf(distinct) <==> distinct
  {
    if distinct {
      forall now, deadline, steps: seq<Step> | DistinctReadings(Start(now, deadline), steps)
        ensures Fences(Start(now, deadline), steps)
      {
        DistinctReadingsAreFresh(now, deadline, steps);
        LeasesFenceIffGrantsAreFresh(now, deadline, steps);
      }
    } else {
      var steps, a := LostReplyCollides(0, 0, 1, 2, 0);
      CollisionDefeats(0, 0, steps, a, 1, 2, 0, true);
    }
  }

  lemma TimelyGrantsRise(d: nat)
    requires d <= LEASE
    ensures RisesWithin(d, false)
  {
    forall now, deadline, steps: seq<Step>, n: nat, w: nat |
      n < |steps| && AllWithin(Start(now, deadline), steps, |steps|, d, false)
        && Grants(After(Start(now, deadline), steps, n), steps[n])
      && w != steps[n].w && Holding(At(After(Start(now, deadline), steps, n), w))
      ensures At(After(Start(now, deadline), steps, n), w).lease
              < At(After(Start(now, deadline), steps, n), steps[n].w).lease
    {
      AlwaysFenced(Start(now, deadline), steps, n, d);
      assert Within(After(Start(now, deadline), steps, n), steps[n], d, false);
      LaterLeaseIsGreater(After(Start(now, deadline), steps, n), steps[n], w);
    }
  }

  lemma TimelyGrantsFence(d: nat)
    requires d <= LEASE
    ensures FencesWithin(d, false)
  {
    forall now, deadline, steps: seq<Step> | AllWithin(Start(now, deadline), steps, |steps|, d, false)
      ensures Fences(Start(now, deadline), steps)
    {
      forall n: nat, w: nat | n <= |steps| && Superseded(After(Start(now, deadline), steps, n), w)
        ensures FencedOff(After(Start(now, deadline), steps, n), w)
      {
        AlwaysFenced(Start(now, deadline), steps, n, d);
        assert FencedAt(After(Start(now, deadline), steps, n), w);
        FencedOffIffKeyless(After(Start(now, deadline), steps, n), w);
      }
    }
  }

  /** When readings may coincide, leases fence exactly if grants are carried out before they run out and no reply to a
      write-back is lost. */
  lemma LeasesFenceIffTimelyAndHeard(d: nat, lost: bool)
    ensures FencesWithin(d, lost) <==> d <= LEASE && !lost
  {
    if lost {
      var steps, a := LostReplyCollides(0, 0, 1, 2, d);
      CollisionDefeats(0, 0, steps, a, 1, 2, d, true);
    } else if d > LEASE {
      var steps, a := LateGrantCollides(0, 0, 1, 2, d);
      CollisionDefeats(0, 0, steps, a, 1, 2, d, false);
    } else {
      TimelyGrantsFence(d);
    }
  }

  /** The same condition decides whether later leases are strictly greater. */
  lemma LeasesRiseIffTimelyAndHeard(d: nat, lost: bool)
    ensures RisesWithin(d, lost) <==> d <= LEASE && !lost
  {
    if lost {
      var steps, a := LostReplyCollides(0, 0, 1, 2, d);
      CollisionDefeats(0, 0, steps, a, 1, 2, d, true);
    } else if d > LEASE {
      var steps, a := LateGrantCollides(0, 0, 1, 2, d);
      CollisionDefeats(0, 0, steps, a, 1, 2, d, false);
    } else {
      TimelyGrantsRise(d);
    }
  }

  // ---------------------------------------------------------------- cancellation

  /** The row is on its way to canceled, or there. */
  predicate Canceling(t: Task) { t.state in {Stopping, Canceled} && t.lastError == CANCELED }

  /** No worker carries a result that could undo the cancellation. */
  predicate Harmless(p: Phase) {
    match p
    case Loaded(_, seen) => seen.state in {Stopping, Canceled} ==> Canceling(seen)
    case Done(_, seen, result, _) => seen.state in {Stopping, Canceled} ==> Canceling(result)
    case _ => true
  }

  ghost predicate Won(s: Sys) {
    Canceling(s.row.task) && forall w :: w in s.workers ==> Harmless(s.workers[w])
  }

  lemma WonKept(s: Sys, step: Step)
    requires Won(s)
    ensures Won(Apply(s, step))
  {
    var t := Apply(s, step);
    if step.Work? && At(s, step.w).Loaded? {
      StepFollowsEdge(At(s, step.w).seen, s.now > s.deadline, step.answers, step.shutdown);
      assert Harmless(s.workers[step.w]);
    }
    if step.Commit? && At(s, step.w).Done? {
      assert Harmless(s.workers[step.w]);
    }
    forall w | w in t.workers
      ensures Harmless(t.workers[w])
    {
      if w in s.workers {
        assert Harmless(s.workers[w]);
      }
    }
  }

  lemma {:induction false} StaysWon(s: Sys, steps: seq<Step>, i: nat, j: nat)
    requires i <= j <= |steps| && Won(After(s, steps, i))
    ensures Won(After(s, steps, j))
    decreases j
  {
    if i == j {
    } else {
      StaysWon(s, steps, i, j - 1);
      WonKept(After(s, steps, j - 1), steps[j - 1]);
    }
  }

  /** A cancel issued in stored state `st` leaves the task stopping as canceled, then canceled, in every run. */
  ghost predicate CancelWinsFrom(st: State) {
    forall now, deadline, steps: seq<Step>, i: nat, j: nat ::
      i < j <= |steps| && steps[i] == Cancel && After(Start(now, deadline), steps, i).row.task.state == st
      ==> Canceling(After(Start(now, deadline), steps, j).row.task)
  }

  lemma CancelWins(now: int, deadline: int, steps: seq<Step>, i: nat, j: nat)
    requires i < j <= |steps| && steps[i] == Cancel
    requires var st := After(Start(now, deadline), steps, i).row.task.state; st != Stopping && !Terminal(st)
    ensures Canceling(After(Start(now, deadline), steps, j).row.task)
  {
    var s := After(Start(now, deadline), steps, i);
    AlwaysConsistent(Start(now, deadline), steps, i);
    forall w | w in s.workers
      ensures Harmless(s.workers[w])
    {
      assert Sound(s, s.workers[w]);
    }
    assert Won(Apply(s, Cancel));
    StaysWon(Start(now, deadline), steps, i + 1, j);
  }

  /** A worker has reloaded a stopping task, the user cancels, the worker writes back "failed". */
  lemma {:induction false} OverwriteCancel(s: Sys, steps: seq<Step>, a: Sys, w: nat) returns (steps': seq<Step>)
    requires a == After(s, steps, |steps|) && AllWithin(s, steps, |steps|, LEASE, false) && a.row.task.state == Stopping
    requires At(a, w).Loaded? && At(a, w).seen == a.row.task && a.row.lockedUntil == Some(At(a, w).lease)
    requires a.row.task.lastError != CANCELED
    ensures |steps| < |steps'| && steps'[|steps|] == Cancel && After(s, steps', |steps|) == a
    ensures After(s, steps', |steps'|).row.task.state == Failed
  {
    hide After, AllWithin;
    var b;
    steps', b := Extend(s, steps, a, Cancel, LEASE, false);
    AfterStable(s, steps, Cancel, |steps|);
    AfterStable(s, steps', Work(w, ANSWERING, false), |steps|);
    steps', b := Extend(s, steps', b, Work(w, ANSWERING, false), LEASE, false);
    AfterStable(s, steps', Commit(w), |steps|);
    steps', b := Extend(s, steps', b, Commit(w), LEASE, false);
  }

  /** The task misses its deadline, a worker fails to hang up and leaves it stopping, and it is reloaded just
      before the cancel: the result overwrites the cancellation. */
  lemma CancelWhileStoppingIsLost(now: int, deadline: int, w: nat) returns (steps: seq<Step>, i: nat)
    requires now > deadline
    ensures i < |steps| && steps[i] == Cancel
    ensures After(Start(now, deadline), steps, i).row.task.state == Stopping
    ensures After(Start(now, deadline), steps, |steps|).row.task.state == Failed
  {
    var s, a := Start(now, deadline), Start(now, deadline);
    steps, a := LeaseAndReload(s, [], a, w, LEASE, false);
    steps, a := FailToStop(s, steps, a, w, LEASE, false);
    steps, a := LeaseAndReload(s, steps, a, w, LEASE, false);
    i := |steps|;
    assert DEADLINE_ERROR[0] == 'n' && CANCELED[0] == 'c';
    steps := OverwriteCancel(s, steps, a, w);
  }

  /** Among the states a task can still be canceled in, the cancel is certain to win from all but stopping. */
  lemma CancelWinsIffNotStopping(st: State)
    requires !Terminal(st)
    ensures CancelWinsFrom(st) <==> st != Stopping
  {
    if st != Stopping {
      forall now, deadline, steps: seq<Step>, i: nat, j: nat |
        i < j <= |steps| && steps[i] == Cancel && After(Start(now, deadline), steps, i).row.task.state == st
        ensures Canceling(After(Start(now, deadline), steps, j).row.task)
      {
        CancelWins(now, deadline, steps, i, j);
      }
    } else {
      var steps, i := CancelWhileStoppingIsLost(1, 0, 0);
      assert !Canceling(After(Start(1, 0), steps, |steps|).row.task);
    }
  }

  // ---------------------------------------------------------------- the deadline

  /** A write-back of a step that read the clock after the deadline lands in stopping or a terminal state. */
  lemma LateWorkStops(now: int, deadline: int, steps: seq<Step>, i: nat)
    requires i < |steps| && (steps[i].Commit? || steps[i].CommitLost?)
    requires var s := After(Start(now, deadline), steps, i); At(s, steps[i].w).Done? && At(s, steps[i].w).late
    ensures var a, b := After(Start(now, deadline), steps, i).row.task,
      After(Start(now, deadline), steps, i + 1).row.task;
            b == a || Stopped(b.state)
  {
    var s := After(Start(now, deadline), steps, i);
    AlwaysConsistent(Start(now, deadline), steps, i);
    assert Sound(s, s.workers[steps[i].w]);
  }

  /** The write-back at place `i`, of a step that started from state `st`, comes after the deadline. */
  ghost predicate CommitsLate(now: int, deadline: int, steps: seq<Step>, i: nat, st: State)
    requires i < |steps|
  {
    var s := After(Start(now, deadline), steps, i);
    && steps[i].Commit? && At(s, steps[i].w).Done? && s.now > s.deadline
    && At(s, steps[i].w).seen.state == st && Committable(s.row, st, At(s, steps[i].w).lease)
  }

  /** Whatever is written back after the deadline for a task that stood at `st` is stopping or terminal. */
  ghost predicate LateCommitStopsFrom(st: State) {
    forall now, deadline, steps: seq<Step>, i: nat ::
      i < |steps| && CommitsLate(now, deadline, steps, i, st) ==>
        Stopped(After(Start(now, deadline), steps, i + 1).row.task.state)
  }

  lemma LateCommitFromStopped(now: int, deadline: int, steps: seq<Step>, i: nat, st: State)
    requires i < |steps| && Stopped(st) && CommitsLate(now, deadline, steps, i, st)
    ensures Stopped(After(Start(now, deadline), steps, i + 1).row.task.state)
  {
    var s := After(Start(now, deadline), steps, i);
    AlwaysConsistent(Start(now, deadline), steps, i);
    assert Sound(s, s.workers[steps[i].w]);
  }

  /** An undisturbed visit in time, under which the switch answers `x` and the worker is shutting down. */
  lemma VisitInTime(s: Sys, steps: seq<Step>, a: Sys, w: nat, x: Answers) returns (steps': seq<Step>, a': Sys)
    requires a == After(s, steps, |steps|) && AllWithin(s, steps, |steps|, LEASE, false)
    requires At(a, w).Off? && Leasable(a.row, a.now) && a.holder == None && a.now <= a.deadline
    ensures a' == After(s, steps', |steps'|) && AllWithin(s, steps', |steps'|, LEASE, false)
    ensures At(a', w).Off? && a'.holder == None && a'.now == a.now && a'.deadline == a.deadline
    ensures a'.row == Row(Result(a.row.task, false, x, true), None)
  {
    hide After, AllWithin, Result;
    steps', a' := LeaseAndReload(s, steps, a, w, LEASE, false);
    steps', a' := Extend(s, steps', a', Work(w, x, true), LEASE, false);
    steps', a' := Extend(s, steps', a', Commit(w), LEASE, false);
  }

  /** A visit in time whose write-back waits until the deadline is past. */
  lemma {:induction false} VisitUntilLate(s: Sys, steps: seq<Step>, a: Sys, w: nat, x: Answers)
      returns (steps': seq<Step>, a': Sys)
    requires a == After(s, steps, |steps|) && AllWithin(s, steps, |steps|, LEASE, false)
    requires At(a, w).Off? && Leasable(a.row, a.now) && a.holder == None && a.now <= a.deadline
    ensures a' == After(s, steps', |steps'|) && a'.now > a'.deadline
    ensures At(a', w) == Done(a.now + LEASE, a.row.task, Result(a.row.task, false, x, true), false)
    ensures a'.row == Row(a.row.task, Some(a.now + LEASE))
  {
    hide After, AllWithin, Result;
    steps', a' := LeaseAndReload(s, steps, a, w, LEASE, false);
    steps', a' := Extend(s, steps', a', Work(w, x, true), LEASE, false);
    steps', a' := Extend(s, steps', a', Tick(a.deadline - a.now + 1), LEASE, false);
  }

  lemma PersistingGoesOn(t: Task)
    requires !Stopped(t.state)
    ensures var r := Result(t, false, PERSISTING, true).state;
      && !Stopped(r) && (t.state == Queued ==> r == Dialing) && (t.state == Dialing ==> r == Playing)
      && (t.state == Playing ==> Result(t, false, PERSISTING.(playback := Good("finished")), true).state == Finishing)
  {
  }

  /** Every state that is neither stopping nor terminal can be reached in time. */
  lemma ReachInTime(now: int, deadline: int, w: nat, st: State) returns (steps: seq<Step>, a: Sys)
    requires now <= deadline && !Stopped(st)
    ensures a == After(Start(now, deadline), steps, |steps|)
      && AllWithin(Start(now, deadline), steps, |steps|, LEASE, false)
    ensures At(a, w).Off? && a.holder == None && a.now <= a.deadline && a.row.lockedUntil == None
      && a.row.task.state == st
    decreases Rank(st)
  {
    hide After, AllWithin, Result, Apply;
    var s := Start(now, deadline);
    if st == Queued {
      steps, a := [], s;
      NothingYet(s);
    } else {
      var prior := if st == Dialing then Queued else if st == Playing then Dialing else Playing;
      steps, a := ReachInTime(now, deadline, w, prior);
      PersistingGoesOn(a.row.task);
      steps, a := VisitInTime(s, steps, a, w, if st == Finishing then PERSISTING.(playback := Good("finished"))
        else PERSISTING);
    }
  }

  lemma NothingYet(s: Sys)
    ensures After(s, [], 0) == s && AllWithin(s, [], 0, LEASE, false)
  {
  }

  /** From any such state a step begun in time may be written back after the deadline, and the task goes on. */
  lemma CommitAfterDeadlineGoesOn(now: int, deadline: int, w: nat, st: State) returns (steps: seq<Step>, i: nat)
    requires now <= deadline && !Stopped(st)
    ensures i < |steps| && CommitsLate(now, deadline, steps, i, st)
      && !Stopped(After(Start(now, deadline), steps, i + 1).row.task.state)
  {
    var s := Start(now, deadline);
    var a;
    steps, a := ReachInTime(now, deadline, w, st);
    PersistingGoesOn(a.row.task);
    hide Result, AllWithin;
    steps, a := VisitUntilLate(s, steps, a, w, PERSISTING);
    i := |steps|;
    AfterSnoc(s, steps, Commit(w));
    AfterStable(s, steps, Commit(w), |steps|);
    steps := steps + [Commit(w)];
  }

  /** What is written back after the deadline is certain to be stopping or terminal exactly for tasks that already
      were. */
  lemma LateCommitStopsIffStopped(st: State)
    ensures LateCommitStopsFrom(st) <==> Stopped(st)
  {
    if Stopped(st) {
      forall now, deadline, steps: seq<Step>, i: nat | i < |steps| && CommitsLate(now, deadline, steps, i, st)
        ensures Stopped(After(Start(now, deadline), steps, i + 1).row.task.state)
      {
        LateCommitFromStopped(now, deadline, steps, i, st);
      }
    } else {
      var steps, i := CommitAfterDeadlineGoesOn(0, 0, 1, st);
    }
  }
}
