/** The leased voice-notification worker: one stored task, any number of workers and a user who may cancel. */
module Notification {
  import opened Seqs

  datatype State = Queued | Dialing | Playing | Finishing | Stopping | Completed | Failed | Canceled

  datatype Task = Task(state: State, leg: string, playback: string, lastError: string)

  const SUBMITTED := Task(Queued, "", "", "")

  const DEADLINE_ERROR := "notification deadline exceeded"
  const ENDED_ERROR := "call ended before notification completed"
  const INTERRUPTED_ERROR := "notification playback interrupted"
  const CANCELED := "canceled"

  predicate Terminal(s: State) { s in {Completed, Failed, Canceled} }

  // ---------------------------------------------------------------- one step of a task

  /** An answer of the switch: a value, or an error that may be an API error with HTTP status 404. */
  datatype Answer<+T> = Good(value: T) | Bad(message: string, notFound: bool)

  /** Whatever the switch would answer to each call the step may make. */
  datatype Answers = Answers(hangup: Answer<()>, create: Answer<()>, dial: Answer<string>,
                             playback: Answer<string>, call: Answer<string>, play: Answer<string>)

  /** What a step asks of the switch. A hang-up is a normal one or one because of an error. */
  datatype Request =
    | CreateCall | Dial | AskPlayback(leg: string, playback: string) | AskCall | PlayOn(leg: string)
    | HangUp(normal: bool)

  /** The task a step leaves, the error it ends in, and what it asked on the way. */
  datatype Stepped = Stepped(task: Task, error: Option<string>, asked: seq<Request>)

  function WithError<T>(t: Task, a: Answer<T>, asked: seq<Request>): Stepped
    requires a.Bad?
  {
    Stepped(t, Some(a.message), asked)
  }

  function StepTask(t: Task, late: bool, a: Answers): Stepped {
    if Terminal(t.state) then Stepped(t, None, [])
    else
      var t := if late && t.state != Stopping then t.(state := Stopping, lastError := DEADLINE_ERROR) else t;
      match t.state
      case Stopping =>
        if a.hangup.Bad? && !a.hangup.notFound then WithError(t, a.hangup, [HangUp(false)])
        else Stepped(t.(state := if t.lastError == CANCELED then Canceled else Failed), None, [HangUp(false)])
      case Queued =>
        if a.create.Bad? then WithError(t, a.create, [CreateCall])
        else if a.dial.Bad? then WithError(t, a.dial, [CreateCall, Dial])
        else Stepped(t.(leg := a.dial.value, state := Dialing), None, [CreateCall, Dial])
      case Playing =>
        var asked := [AskPlayback(t.leg, t.playback)];
        if a.playback.Bad? then WithError(t, a.playback, asked)
        else if a.playback.value in ["stopped", "failed"] then Stepped(t, Some(INTERRUPTED_ERROR), asked)
        else if a.playback.value == "finished" then FinishTask(t.(state := Finishing), a, asked)
        else ObserveCall(t, a, asked)
      case Finishing => FinishTask(t, a, [])
      case _ => ObserveCall(t, a, [])
  }

  function FinishTask(t: Task, a: Answers, asked: seq<Request>): Stepped {
    if a.hangup.Bad? then WithError(t, a.hangup, asked + [HangUp(true)])
    else Stepped(t.(state := Completed), None, asked + [HangUp(true)])
  }

  function ObserveCall(t: Task, a: Answers, before: seq<Request>): Stepped {
    var asked := before + [AskCall];
    if a.call.Bad? then WithError(t, a.call, asked)
    else if a.call.value == "ended" then Stepped(t.(state := Failed, lastError := ENDED_ERROR), None, asked)
    else if t.state != Dialing || a.call.value != "active" then Stepped(t, None, asked)
    else if a.play.Bad? then WithError(t, a.play, asked + [PlayOn(t.leg)])
    else Stepped(t.(playback := a.play.value, state := Playing), None, asked + [PlayOn(t.leg)])
  }

  /** What the worker writes back: an error stops the task unless the worker itself is shutting down. */
  function Settle(r: Stepped, shutdown: bool): Task {
    if r.error.Some? && !shutdown then
      r.task.(state := Stopping, lastError := if r.task.lastError == "" then r.error.value else r.task.lastError)
    else r.task
  }

  /** What the worker writes back for a task. */
  function Result(t: Task, late: bool, a: Answers, shutdown: bool): Task { Settle(StepTask(t, late, a), shutdown) }

  class VoiceNotification {
    var state: State
    var leg: string
    var playback: string
    var lastError: string

    constructor (t: Task)
      ensures View() == t
    {
      state, leg, playback, lastError := t.state, t.leg, t.playback, t.lastError;
    }

    function View(): Task
      reads this
    {
      Task(state, leg, playback, lastError)
    }

    /** `step`: the fields change in place, also when the step ends in an error. */
    method Step(late: bool, a: Answers) returns (error: Option<string>, asked: seq<Request>)
      modifies this
      ensures Stepped(View(), error, asked) == StepTask(old(View()), late, a)
    {
      asked := [];
      if Terminal(state) {
        return None, asked;
      }
      if late && state != Stopping {
        state, lastError := Stopping, DEADLINE_ERROR;
      }
      if state == Stopping {
        asked := asked + [HangUp(false)];
        if a.hangup.Bad? && !a.hangup.notFound {
          return Some(a.hangup.message), asked;
        }
        state := Failed;
        if lastError == CANCELED {
          state := Canceled;
        }
        return None, asked;
      }
      if state == Queued {
        asked := asked + [CreateCall];
        if a.create.Bad? {
          return Some(a.create.message), asked;
        }
        asked := asked + [Dial];
        if a.dial.Bad? {
          return Some(a.dial.message), asked;
        }
        leg, state := a.dial.value, Dialing;
        return None, asked;
      }
      if state == Playing {
        asked := asked + [AskPlayback(leg, playback)];
        if a.playback.Bad? {
          return Some(a.playback.message), asked;
        }
        if a.playback.value == "finished" {
          state := Finishing;
        } else if a.playback.value == "stopped" || a.playback.value == "failed" {
          return Some(INTERRUPTED_ERROR), asked;
        }
      }
      if state == Finishing {
        asked := asked + [HangUp(true)];
        if a.hangup.Bad? {
          return Some(a.hangup.message), asked;
        }
        state := Completed;
        return None, asked;
      }
      asked := asked + [AskCall];
      if a.call.Bad? {
        return Some(a.call.message), asked;
      }
      if a.call.value == "ended" {
        state, lastError := Failed, ENDED_ERROR;
        return None, asked;
      }
      if state == Dialing {
        if a.call.value != "active" {
          return None, asked;
        }
        asked := asked + [PlayOn(leg)];
        if a.play.Bad? {
          return Some(a.play.message), asked;
        }
        playback, state := a.play.value, Playing;
        return None, asked;
      }
      return None, asked;
    }
  }

  // ---------------------------------------------------------------- the stored row

  datatype Row = Row(task: Task, lockedUntil: Option<int>)

  function CancelRow(r: Row): Row {
    if Terminal(r.task.state) then r else r.(task := r.task.(state := Stopping, lastError := CANCELED))
  }

  predicate Leasable(r: Row, now: int) {
    !Terminal(r.task.state) && (r.lockedUntil.None? || r.lockedUntil.value < now)
  }

  function LeaseRow(r: Row, now: int, lease: int): Row {
    if Leasable(r, now) then r.(lockedUntil := Some(lease)) else r
  }

  predicate Committable(r: Row, was: State, lease: int) {
    r.task.state == was && r.lockedUntil == Some(lease)
  }

  function CommitRow(r: Row, was: State, lease: int, t: Task): Row {
    if Committable(r, was, lease) then Row(t, None) else r
  }

  function ReleaseRow(r: Row, lease: int): Row {
    if r.lockedUntil == Some(lease) then r.(lockedUntil := None) else r
  }

  /** The write-back and, unless it is told that it changed a row, the release. */
  function WrittenBack(r: Row, was: State, lease: int, t: Task, update: Db, release: Db): Row {
    var after := if update.Broken? then r else CommitRow(r, was, lease, t);
    if (update.Fine? && Committable(r, was, lease)) || release.Broken? then after else ReleaseRow(after, lease)
  }

  class NotificationRow {
    var task: Task
    var lockedUntil: Option<int>

    constructor ()
      ensures View() == Row(SUBMITTED, None)
    {
      task, lockedUntil := SUBMITTED, None;
    }

    function View(): Row
      reads this
    {
      Row(task, lockedUntil)
    }

    method Cancel()
      modifies this
      ensures View() == CancelRow(old(View()))
    {
      if !Terminal(task.state) {
        task := task.(state := Stopping, lastError := CANCELED);
      }
    }

    method Lease(now: int, lease: int, db: Db) returns (rowsAffected: nat)
      modifies this
      ensures View() == if db.Broken? then old(View()) else LeaseRow(old(View()), now, lease)
      ensures rowsAffected == 1 <==> db.Fine? && Leasable(old(View()), now)
    {
      rowsAffected := 0;
      if !db.Broken? && !Terminal(task.state) && (lockedUntil.None? || lockedUntil.value < now) {
        lockedUntil := Some(lease);
        rowsAffected := if db.Fine? then 1 else 0;
      }
    }

    /** The conditional write-back, followed by the release when it reports no row. */
    method WriteBack(was: State, lease: int, t: Task, update: Db, release: Db)
      modifies this
      ensures View() == WrittenBack(old(View()), was, lease, t, update, release)
    {
      var rowsAffected := 0;
      if !update.Broken? && task.state == was && lockedUntil == Some(lease) {
        task, lockedUntil := t, None;
        rowsAffected := if update.Fine? then 1 else 0;
      }
      if rowsAffected == 0 && !release.Broken? && lockedUntil == Some(lease) {
        lockedUntil := None;
      }
    }
  }

  /** How long a lease lasts. Times are whole microseconds, the resolution of the stored columns. */
  const LEASE := 90_000_000

  /** The clock readings of one visit to a task (for the lease, for its condition, for the deadline), how its
      database calls end, the switch's answers, and whether the worker is shutting down. */
  datatype Visit = Visit(leaseAt: int, condAt: int, stepAt: int, deadline: int,
                         lease: Db, reloads: bool, update: Db, release: Db, answers: Answers, shutdown: bool)

  function Visited(r: Row, v: Visit): Row {
    if v.lease.Broken? || !Leasable(r, v.condAt) then r
    else
      var leased := LeaseRow(r, v.condAt, v.leaseAt + LEASE);
      if v.lease.Lost? || !v.reloads then leased
      else
        var t := Result(r.task, v.stepAt > v.deadline, v.answers, v.shutdown);
        WrittenBack(leased, r.task.state, v.leaseAt + LEASE, t, v.update, v.release)
  }

  /** The body of the loop over the tasks, when nothing interrupts it. */
  method VisitTask(row: NotificationRow, v: Visit)
    modifies row
    ensures row.View() == Visited(old(row.View()), v)
  {
    var lease := v.leaseAt + LEASE;
    var affected := row.Lease(v.condAt, lease, v.lease);
    if affected != 1 || !v.reloads {
      return;
    }
    var task := new VoiceNotification(row.task);
    var was := task.state;
    var error, asked := task.Step(v.stepAt > v.deadline, v.answers);
    if error.Some? && !v.shutdown {
      task.state := Stopping;
      if task.lastError == "" {
        task.lastError := error.value;
      }
    }
    row.WriteBack(was, lease, task.View(), v.update, v.release);
  }

  /** The loop: every task picked by the scan, until the worker is told to stop. */
  method TickTasks(rows: seq<NotificationRow>, visits: seq<Visit>, stopAt: nat)
    requires |rows| == |visits| <= 32
    requires forall i, j :: 0 <= i < j < |rows| ==> rows[i] != rows[j]
    modifies set i | 0 <= i < |rows| :: rows[i]
    ensures forall i :: 0 <= i < |rows| ==>
      rows[i].View() == if i < stopAt then Visited(old(rows[i].View()), visits[i]) else old(rows[i].View())
  {
    hide Visited;
    var n := 0;
    while n < |rows| && n < stopAt
      invariant 0 <= n <= |rows| && (n <= stopAt || n == 0)
      invariant forall i :: 0 <= i < n ==> rows[i].View() == Visited(old(rows[i].View()), visits[i])
      invariant forall i :: n <= i < |rows| ==> rows[i].View() == old(rows[i].View())
    {
      VisitTask(rows[n], visits[n]);
      n := n + 1;
    }
  }

  // ---------------------------------------------------------------- the shape of a step

  /** From where to where one step may take a task. */
  predicate Edge(a: State, b: State) {
    match a
    case Queued => b in {Queued, Dialing, Stopping, Failed}
    case Dialing => b in {Dialing, Playing, Stopping, Failed}
    case Playing => b in {Playing, Finishing, Completed, Stopping, Failed}
    case Finishing => b in {Finishing, Completed, Stopping, Failed}
    case Stopping => b in {Stopping, Failed, Canceled}
    case _ => b == a
  }

  function Rank(s: State): nat {
    match s
    case Queued => 0
    case Dialing => 1
    case Playing => 2
    case Finishing => 3
    case Stopping => 4
    case _ => 5
  }

  /** Every outcome of a step follows an edge, terminal tasks do not change at all, and a stopping task that
      was canceled can only become canceled. */
  lemma StepFollowsEdge(t: Task, late: bool, a: Answers, shutdown: bool)
    ensures var t' := Result(t, late, a, shutdown);
            && Edge(t.state, t'.state)
            && (Terminal(t.state) ==> t' == t)
            && (t.state == Stopping && t.lastError == CANCELED ==>
              t'.state in {Stopping, Canceled} && t'.lastError == CANCELED)
  {
  }

  /** The error a request ends in. An error hang-up takes a call that is gone for one that is hung up, and a playback
      must not have been broken off. */
  function ErrorOf(a: Answers, x: Request): Option<string> {
    match x
    case CreateCall => if a.create.Bad? then Some(a.create.message) else None
    case Dial => if a.dial.Bad? then Some(a.dial.message) else None
    case AskPlayback(_, _) =>
      if a.playback.Bad? then Some(a.playback.message)
      else if a.playback.value == "stopped" || a.playback.value == "failed" then Some(INTERRUPTED_ERROR) else None
    case AskCall => if a.call.Bad? then Some(a.call.message) else None
    case PlayOn(_) => if a.play.Bad? then Some(a.play.message) else None
    case HangUp(normal) => if a.hangup.Bad? && (normal || !a.hangup.notFound) then Some(a.hangup.message) else None
  }

  /** A step stops at the first request that goes wrong and ends in its error. It then leaves the task as it was, but
      for a deadline it has noticed and a playback it has seen finished. */
  lemma StepFailsWithItsLastRequest(t: Task, late: bool, a: Answers)
    requires !Terminal(t.state)
    ensures var r := StepTask(t, late, a);
      && r.asked != [] && r.error == ErrorOf(a, r.asked[|r.asked| - 1])
      && (forall k :: 0 <= k < |r.asked| - 1 ==> ErrorOf(a, r.asked[k]) == None)
      && (r.error.Some? ==>
            r.task == if late && t.state != Stopping then t.(state := Stopping, lastError := DEADLINE_ERROR)
                      else if t.state == Playing && HangUp(true) in r.asked then t.(state := Finishing) else t)
  {
  }

  /** What a step asks and leaves when all is answered: a task that is stopping, or late, is hung up; a queued one has
      the leg that was dialed; a dialing one plays on that leg once the call is active; a playing one is hung up once
      its own playback has finished. */
  lemma StepSucceeds(t: Task, late: bool, a: Answers)
    requires !Terminal(t.state) && StepTask(t, late, a).error.None?
    ensures var r := StepTask(t, late, a); var t' := r.task;
      if late || t.state == Stopping then
        && r.asked == [HangUp(false)] && t'.leg == t.leg && t'.playback == t.playback
        && t'.lastError == (if t.state == Stopping then t.lastError else DEADLINE_ERROR)
        && t'.state == (if t.state == Stopping && t.lastError == "canceled" then Canceled else Failed)
      else match t.state
        case Queued => r.asked == [CreateCall, Dial] && t' == Task(Dialing, a.dial.value, t.playback, t.lastError)
        case Dialing =>
          if a.call == Good("active") then
            r.asked == [AskCall, PlayOn(t.leg)] && t' == Task(Playing, t.leg, a.play.value, t.lastError)
          else r.asked == [AskCall] && t' == if a.call == Good("ended") then Ended(t) else t
        case Playing =>
          if a.playback == Good("finished") then
            r.asked == [AskPlayback(t.leg, t.playback), HangUp(true)] && t' == t.(state := Completed)
          else
            && r.asked == [AskPlayback(t.leg, t.playback), AskCall]
            && t' == if a.call == Good("ended") then Ended(t) else t
        case _ => r.asked == [HangUp(true)] && t' == t.(state := Completed)
  {
  }

  /** A step that ends in an error stops the task, with the first error it ever had, unless the worker is shutting down;
      what it had found out it keeps. */
  lemma ErrorsStop(t: Task, late: bool, a: Answers, shutdown: bool)
    ensures var r, t' := StepTask(t, late, a), Result(t, late, a, shutdown);
      && (r.error.None? || shutdown ==> t' == r.task)
      && (r.error.Some? && !shutdown ==>
            && t'.state == Stopping && t'.leg == t.leg && t'.playback == t.playback
            && t'.lastError == if late && t.state != Stopping then "notification deadline exceeded"
                               else if t.lastError != "" then t.lastError else r.error.value)
  {
    if !Terminal(t.state) {
      StepFailsWithItsLastRequest(t, late, a);
    }
    hide StepTask;
    assert DEADLINE_ERROR != "";
  }

  function Ended(t: Task): Task { Task(Failed, t.leg, t.playback, "call ended before notification completed") }

  predicate Stopped(s: State) { s == Stopping || Terminal(s) }

  /** Everything works, but hanging up. */
  const PERSISTING := Answers(Bad("down", false), Good(()), Good("leg"), Good("playing"), Good("active"),
    Good("playback"))

  /** A step ends in stopping or a terminal state whatever it is answered, exactly if it reads the clock after the
      deadline or starts from such a state. */
  lemma StepStopsIffLateOrStopped(t: Task, late: bool)
    ensures (forall a: Answers, shutdown: bool :: Stopped(Result(t, late, a, shutdown).state))
            <==> late || Stopped(t.state)
  {
    if !late && !Stopped(t.state) {
      assert !Stopped(Result(t, late, PERSISTING, true).state);
    }
  }
}
