/** Idempotent commands: a table row per idempotency key decides whether the body may run. */
module Commands {
  import opened Seqs

  datatype Status = Accepted | Running | Succeeded | Failed | Unknown

  /** `code` is the stored error code, `updated` the time of the last write. */
  datatype Row = Row(hash: string, status: Status, code: string, updated: int)

  /** The table. Its UNIQUE constraint makes the idempotency key a key. */
  type Rows = map<string, Row>

  /** What the body returned: nil, or an error with a code. */
  datatype Outcome = Success | Failure(code: string)

  datatype Reply =
    | Succeeds                      // the body has returned nil
    | RunFails(code: string)        // the error the body has just returned
    | FailedBefore(code: string)    // replay of a failed command
    | StillRunning                  // replay of a command that is not known to have ended
    | Refused                       // the key belongs to a different request
    | Errs                          // the store failed

  predicate Terminal(st: Status) { st.Succeeded? || st.Failed? }

  const STALE := "stale_command"

  // ---------------------------------------------------------------- the store's operations

  /** Insertion violates the constraint when the key is taken. The second result is what the caller learns. */
  function InsertRow(rows: Rows, key: string, hash: string, at: int, db: Db): (Rows, bool) {
    if key in rows || db.Broken? then (rows, false) else (rows[key := Row(hash, Accepted, "", at)], db.Fine?)
  }

  function MarkRow(rows: Rows, key: string, at: int, db: Db): (Rows, bool) {
    if key !in rows || !rows[key].status.Accepted? || db.Broken? then (rows, false)
    else (rows[key := rows[key].(status := Running, updated := at)], db.Fine?)
  }

  function CompleteRow(rows: Rows, key: string, status: Status, code: string, at: int, db: Db): (Rows, bool) {
    if key !in rows || Terminal(rows[key].status) || db.Broken? then (rows, false)
    else (rows[key := rows[key].(status := status, code := code, updated := at)], db.Fine?)
  }

  /** What a caller is told about a key that is taken. */
  function Replay(row: Row, hash: string): Reply {
    if row.hash != hash then Refused
    else match row.status
      case Succeeded => Succeeds
      case Failed => FailedBefore(row.code)
      case _ => StillRunning
  }

  function ReplyTo(outcome: Outcome): Reply {
    match outcome
    case Success => Succeeds
    case Failure(code) => RunFails(code)
  }

  function StatusOf(outcome: Outcome): Status { if outcome.Success? then Succeeded else Failed }

  function CodeOf(outcome: Outcome): string { if outcome.Success? then "" else outcome.code }

  predicate Stale(row: Row, cutoff: int) { row.status in {Accepted, Running} && row.updated < cutoff }

  /** A whole call: the table and the reply it leaves, and whether the body ran. */
  function Called(rows: Rows, key: string, hash: string, outcome: Outcome, at: int, look: Db, insert: Db, mark: Db,
      complete: Db): (Rows, Reply, bool)
  {
    if key == "" then (rows, ReplyTo(outcome), true)
    else if !look.Fine? then (rows, Errs, false)
    else if key in rows then (rows, Replay(rows[key], hash), false)
    else
      var (a, inserted) := InsertRow(rows, key, hash, at, insert);
      if !inserted then (a, Errs, false)
      else
        var (b, marked) := MarkRow(a, key, at, mark);
        if !marked then (b, Errs, false)
        else (CompleteRow(b, key, StatusOf(outcome), CodeOf(outcome), at, complete).0, ReplyTo(outcome), true)
  }

  /** The body runs for a call without a key, and for one whose key is free and whose row goes in and is marked. Then
      the reply is what the body returned, and the row says so unless the database did not take it; otherwise the reply
      is that of the row there is, or an error. No other row changes. */
  lemma CallMeans(rows: Rows, key: string, hash: string, outcome: Outcome, at: int, look: Db, insert: Db, mark: Db,
      complete: Db)
    ensures var (after, reply, ran) := Called(rows, key, hash, outcome, at, look, insert, mark, complete);
      && (ran <==> key == "" || (key !in rows && look.Fine? && insert.Fine? && mark.Fine?))
      && (ran ==> reply == if outcome.Success? then Succeeds else RunFails(outcome.code))
      && (!ran && key in rows && look.Fine? ==>
            var row := rows[key];
            reply == if row.hash != hash then Refused else if row.status.Succeeded? then Succeeds
                     else if row.status.Failed? then FailedBefore(row.code) else StillRunning)
      && (!ran && (key !in rows || !look.Fine?) ==> reply == Errs)
      && (key == "" || key in rows || !look.Fine? || insert.Broken? ==> after == rows)
      && (key != "" && key !in rows && look.Fine? && !insert.Broken? ==>
            after == rows[key :=
              if !insert.Fine? || mark.Broken? then Row(hash, Accepted, "", at)
              else if mark.Lost? || complete.Broken? then Row(hash, Running, "", at)
              else if outcome.Success? then Row(hash, Succeeded, "", at) else Row(hash, Failed, outcome.code, at)])
  {
  }

  datatype Answer = New | Existing(row: Row) | Conflict | StoreError

  /** The store, called by one caller at a time. */
  class CommandTable {
    var rows: Rows

    constructor ()
      ensures rows == map[]
    {
      rows := map[];
    }

    method Accept(key: string, hash: string, at: int, look: Db, insert: Db) returns (answer: Answer)
      modifies this
      ensures look.Fine? && key in old(rows) ==>
        rows == old(rows) && answer == if old(rows)[key].hash == hash then Existing(old(rows)[key]) else Conflict
      ensures look.Fine? && key !in old(rows) ==>
        rows == InsertRow(old(rows), key, hash, at, insert).0 && answer == if insert.Fine? then New else StoreError
      ensures !look.Fine? ==> rows == old(rows) && answer == StoreError
    {
      if !look.Fine? {
        return StoreError;
      }
      if key in rows {
        if rows[key].hash != hash {
          return Conflict;
        }
        return Existing(rows[key]);
      }
      if insert.Broken? {
        return StoreError;
      }
      rows := rows[key := Row(hash, Accepted, "", at)];
      answer := if insert.Fine? then New else StoreError;
    }

    method MarkRunning(key: string, at: int, db: Db) returns (ok: bool)
      modifies this
      ensures (rows, ok) == MarkRow(old(rows), key, at, db)
      ensures ok <==> key in old(rows) && old(rows)[key].status.Accepted? && db.Fine?
      ensures ok ==> rows == old(rows)[key := Row(old(rows)[key].hash, Running, old(rows)[key].code, at)]
    {
      if key !in rows || !rows[key].status.Accepted? || db.Broken? {
        return false;
      }
      rows := rows[key := rows[key].(status := Running, updated := at)];
      ok := db.Fine?;
    }

    method Complete(key: string, status: Status, code: string, at: int, db: Db) returns (ok: bool)
      modifies this
      ensures (rows, ok) == CompleteRow(old(rows), key, status, code, at, db)
      ensures ok <==>
        && key in old(rows) && !old(rows)[key].status.Succeeded? && !old(rows)[key].status.Failed? && db.Fine?
      ensures ok ==> rows == old(rows)[key := Row(old(rows)[key].hash, status, code, at)]
    {
      if key !in rows || rows[key].status !in {Accepted, Running, Unknown} || db.Broken? {
        return false;
      }
      rows := rows[key := rows[key].(status := status, code := code, updated := at)];
      ok := db.Fine?;
    }

    /** Exactly the commands that were stale when the pass began, and whose update the database takes, become
        unknown. */
    method ReconcileStale(cutoff: int, at: int, broken: set<string>)
      modifies this
      ensures rows.Keys == old(rows).Keys
      ensures forall k :: k in rows ==>
        var was := old(rows)[k];
        rows[k] == if (was.status.Accepted? || was.status.Running?) && was.updated < cutoff && k !in broken
          then Row(was.hash, Unknown, "stale_command", at) else was
    {
      var stale := set k | k in rows && Stale(rows[k], cutoff);
      while stale != {}
        invariant rows.Keys == old(rows).Keys
        invariant forall k :: k in stale ==> k in rows && Stale(rows[k], cutoff) && rows[k] == old(rows)[k]
        invariant forall k :: k in rows && k !in stale ==>
          rows[k] == if Stale(old(rows)[k], cutoff) && k !in broken
            then old(rows)[k].(status := Unknown, code := STALE, updated := at)
                     else old(rows)[k]
        decreases |stale|
      {
        var k :| k in stale;
        var ok := Complete(k, Unknown, STALE, at, if k in broken then Broken else Fine);
        stale := stale - {k};
      }
    }

    /** A whole call that nothing interrupts. `outcome` is what the body returns if it is run. */
    method RunIdempotentMutation(key: string, hash: string, outcome: Outcome, at: int, look: Db, insert: Db, mark: Db,
        complete: Db)
      returns (reply: Reply, ran: bool)
      modifies this
      ensures (rows, reply, ran) == Called(old(rows), key, hash, outcome, at, look, insert, mark, complete)
    {
      if key == "" {
        return ReplyTo(outcome), true;
      }
      var answer := Accept(key, hash, at, look, insert);
      match answer {
        case StoreError => return Errs, false;
        case Conflict => return Refused, false;
        case Existing(row) =>
          match row.status {
            case Succeeded => return Succeeds, false;
            case Failed => return FailedBefore(row.code), false;
            case _ => return StillRunning, false;
          }
        case New =>
      }
      var ok := MarkRunning(key, at, mark);
      if !ok {
        return Errs, false;
      }
      ran := true;
      if outcome.Failure? {
        ok := Complete(key, Failed, outcome.code, at, complete);
        return RunFails(outcome.code), true;
      }
      ok := Complete(key, Succeeded, "", at, complete);
      reply := Succeeds;
    }
  }

  // ---------------------------------------------------------------- many callers, a reconciler, crashes

  /** Where a caller is. The key is "" for a call without one. */
  datatype Phase =
    | Off
    | Looked(key: string, hash: string)       // found the key free
    | Registered(key: string, hash: string)   // its row is in
    | Entitled(key: string, hash: string)     // its row is running
    | Inside(key: string, hash: string)       // in the body
    | Ended(key: string, hash: string, outcome: Outcome)
    | Returned(key: string, hash: string, reply: Reply)

  /** `owner` names the caller that inserted a row, `begun` counts how often the body was entered under a key,
      `ended` what it returned, `pending` the rows that reconciliations have selected and not yet completed. */
  datatype Sys = Sys(rows: Rows, callers: map<nat, Phase>, pending: seq<string>, owner: map<string, nat>,
                     begun: map<string, nat>, ended: map<string, Outcome>)

  datatype Step =
    | Look(w: nat, key: string, hash: string, db: Db)
    | Insert(w: nat, at: int, db: Db)
    | Mark(w: nat, at: int, db: Db)
    | Begin(w: nat)
    | End(w: nat, outcome: Outcome)
    | Finish(w: nat, at: int, db: Db)
    | Crash(w: nat)
    | Select(cutoff: int, order: seq<string>)
    | Reconcile(k: nat, at: int, db: Db)

  function CallerAt(s: Sys, w: nat): Phase { if w in s.callers then s.callers[w] else Off }

  function Begun(s: Sys, key: string): nat { if key in s.begun then s.begun[key] else 0 }

  function Goes(s: Sys, w: nat, p: Phase): Sys { s.(callers := s.callers[w := p]) }

  function DoLook(s: Sys, w: nat, key: string, hash: string, db: Db): Sys {
    if key == "" then Goes(s, w, Entitled(key, hash))
    else if !db.Fine? then Goes(s, w, Returned(key, hash, Errs))
    else if key in s.rows then Goes(s, w, Returned(key, hash, Replay(s.rows[key], hash)))
    else Goes(s, w, Looked(key, hash))
  }

  function DoInsert(s: Sys, w: nat, key: string, hash: string, at: int, db: Db): Sys {
    var (rows, ok) := InsertRow(s.rows, key, hash, at, db);
    Goes(s.(rows := rows, owner := if key in s.rows || db.Broken? then s.owner else s.owner[key := w]), w,
         if ok then Registered(key, hash) else Returned(key, hash, Errs))
  }

  function DoMark(s: Sys, w: nat, key: string, hash: string, at: int, db: Db): Sys {
    var (rows, ok) := MarkRow(s.rows, key, at, db);
    Goes(s.(rows := rows), w, if ok then Entitled(key, hash) else Returned(key, hash, Errs))
  }

  function DoBegin(s: Sys, w: nat, key: string, hash: string): Sys {
    Goes(s.(begun := s.begun[key := Begun(s, key) + 1]), w, Inside(key, hash))
  }

  function DoEnd(s: Sys, w: nat, key: string, hash: string, outcome: Outcome): Sys {
    Goes(s.(ended := s.ended[key := outcome]), w, Ended(key, hash, outcome))
  }

  function DoFinish(s: Sys, w: nat, key: string, hash: string, outcome: Outcome, at: int, db: Db): Sys {
    var rows := if key == "" then s.rows else CompleteRow(s.rows, key, StatusOf(outcome), CodeOf(outcome), at, db).0;
    Goes(s.(rows := rows), w, Returned(key, hash, ReplyTo(outcome)))
  }

  /** The rows a reconciliation may select: every stale one once, in an order the database chooses. */
  predicate Selects(rows: Rows, cutoff: int, order: seq<string>) {
    && (forall k :: k in order ==> k in rows && Stale(rows[k], cutoff))
    && (forall k :: k in rows && Stale(rows[k], cutoff) ==> k in order)
    && (forall i, j :: 0 <= i < j < |order| ==> order[i] != order[j])
  }

  /** Those are the accepted and the running commands that have not been written since the cutoff. */
  lemma SelectsTheStale(rows: Rows, cutoff: int, order: seq<string>, k: string)
    requires Selects(rows, cutoff, order)
    ensures k in order <==>
      k in rows && (rows[k].status.Accepted? || rows[k].status.Running?) && rows[k].updated < cutoff
    ensures multiset(order)[k] <= 1
  {
    AtMostOnce(order, k);
  }

  lemma {:induction false} AtMostOnce(order: seq<string>, k: string)
    requires forall i, j :: 0 <= i < j < |order| ==> order[i] != order[j]
    ensures multiset(order)[k] <= 1
  {
    if order == [] {
    } else {
      var init, last := order[..|order| - 1], order[|order| - 1];
      AtMostOnce(init, k);
      assert order == init + [last];
      if last == k {
        assert k !in init;
      }
    }
  }

  /** One step; a step that is not possible changes nothing. Any number of reconciliations may be under way: each adds
      what it selects to `pending`, and any of them may be the next to complete one of its rows. */
  function Apply(s: Sys, step: Step): Sys {
    match step
    case Look(w, key, hash, db) =>
      if CallerAt(s, w).Off? || CallerAt(s, w).Returned? then DoLook(s, w, key, hash, db) else s
    case Insert(w, at, db) =>
      (match CallerAt(s, w) case Looked(key, hash) => DoInsert(s, w, key, hash, at, db) case _ => s)
    case Mark(w, at, db) =>
      (match CallerAt(s, w) case Registered(key, hash) => DoMark(s, w, key, hash, at, db) case _ => s)
    case Begin(w) => (match CallerAt(s, w) case Entitled(key, hash) => DoBegin(s, w, key, hash) case _ => s)
    case End(w, outcome) =>
      (match CallerAt(s, w) case Inside(key, hash) => DoEnd(s, w, key, hash, outcome) case _ => s)
    case Finish(w, at, db) =>
      (match CallerAt(s, w) case Ended(key, hash, outcome) => DoFinish(s, w, key, hash, outcome, at, db) case _ => s)
    case Crash(w) => Goes(s, w, Off)
    case Select(cutoff, order) => if Selects(s.rows, cutoff, order) then s.(pending := s.pending + order) else s
    case Reconcile(k, at, db) =>
      if k >= |s.pending| then s
      else s.(rows := CompleteRow(s.rows, s.pending[k], Unknown, STALE, at, db).0,
              pending := s.pending[..k] + s.pending[k + 1..])
  }

  const EMPTY := Sys(map[], map[], [], map[], map[], map[])

  /** The state after the first `n` of `steps`, from `s` on. */
  function From(s: Sys, steps: seq<Step>, n: nat): Sys
    requires n <= |steps|
  {
    if n == 0 then s else Apply(From(s, steps, n - 1), steps[n - 1])
  }

  function After(steps: seq<Step>, n: nat): Sys
    requires n <= |steps|
  {
    From(EMPTY, steps, n)
  }

  // ---------------------------------------------------------------- the invariant

  /** The body has not been entered, has been entered once, has returned. */
  ghost predicate NotBegun(s: Sys, key: string) { key !in s.begun && key !in s.ended }

  ghost predicate Owns(s: Sys, w: nat, key: string, hash: string) {
    key in s.rows && s.rows[key].hash == hash && key in s.owner && s.owner[key] == w
  }

  /** What a reply means. */
  ghost predicate Truthful(s: Sys, key: string, hash: string, reply: Reply) {
    && (reply.Succeeds? || reply.FailedBefore? || reply.RunFails? || reply.StillRunning? ==>
      key in s.rows && s.rows[key].hash == hash)
    && (reply.Refused? ==> key in s.rows && s.rows[key].hash != hash)
    && (reply.Succeeds? ==> key in s.ended && s.ended[key] == Success)
    && (reply.FailedBefore? || reply.RunFails? ==> key in s.ended && s.ended[key] == Failure(reply.code))
  }

  ghost predicate Sound(s: Sys, w: nat, p: Phase) {
    match p
    case Registered(key, hash) => key != "" && Owns(s, w, key, hash) && NotBegun(s, key)
    case Entitled(key, hash) => key != "" ==> Owns(s, w, key, hash) && NotBegun(s, key)
    case Inside(key, hash) => key != "" ==> Owns(s, w, key, hash) && Begun(s, key) == 1 && key !in s.ended
    case Ended(key, hash, outcome) =>
      key != "" ==> Owns(s, w, key, hash) && key in s.ended && s.ended[key] == outcome && !Terminal(s.rows[key].status)
    case Returned(key, hash, reply) => key != "" ==> Truthful(s, key, hash, reply)
    case Looked(key, hash) => key != ""
    case Off => true
  }

  /** A row and the body's history under its key. */
  ghost predicate RowSound(s: Sys, key: string) {
    && (key in s.begun || key in s.ended ==> key in s.rows && Begun(s, key) == 1)
    && (key in s.rows <==> key in s.owner)
    && (key in s.rows && s.rows[key].status.Succeeded? ==> key in s.ended && s.ended[key] == Success)
    && (key in s.rows && s.rows[key].status.Failed? ==> key in s.ended && s.ended[key] == Failure(s.rows[key].code))
  }

  ghost predicate Inv(s: Sys) {
    && (forall w :: w in s.callers ==> Sound(s, w, s.callers[w]))
    && (forall key :: key != "" ==> RowSound(s, key))
  }

  /** What no step takes back: rows stay, with their hash and owner; so do outcomes; terminal rows stay as they are. */
  ghost predicate Onward(s: Sys, t: Sys, key: string) {
    && (key in s.rows ==> key in t.rows && t.rows[key].hash == s.rows[key].hash)
    && (key in s.rows && Terminal(s.rows[key].status) ==> t.rows[key] == s.rows[key])
    && (key in s.owner && key in s.rows ==> key in t.owner && t.owner[key] == s.owner[key])
    && (key in s.ended ==> key in t.ended)
    && (key in s.begun ==> key in t.begun)
  }

  lemma RowsGoOnward(s: Sys, step: Step, key: string)
    requires key in s.rows
    ensures var t := Apply(s, step);
      key in t.rows && t.rows[key].hash == s.rows[key].hash
      && (Terminal(s.rows[key].status) ==> t.rows[key] == s.rows[key])
      && (key in s.owner ==> key in t.owner && t.owner[key] == s.owner[key])
  {
    hide Selects, Replay, ReplyTo, StatusOf, CodeOf;
  }

  lemma StepGoesOnward(s: Sys, step: Step, key: string)
    ensures Onward(s, Apply(s, step), key)
  {
    if key in s.rows {
      RowsGoOnward(s, step, key);
    }
    hide Selects, Replay, ReplyTo, StatusOf, CodeOf, InsertRow, MarkRow, CompleteRow, Terminal;
  }

  /** What a step of caller `w` must leave alone for every other caller `v`. */
  ghost predicate Spares(s: Sys, t: Sys, key: string) {
    Begun(t, key) == Begun(s, key) && (key in t.begun <==> key in s.begun) && (key in t.ended <==> key in s.ended)
    && (key in s.ended ==> t.ended[key] == s.ended[key])
  }

  lemma SparedStaysSound(s: Sys, t: Sys, v: nat, p: Phase)
    requires Sound(s, v, p)
    requires !p.Off? && p.key != "" ==> Onward(s, t, p.key) && Spares(s, t, p.key)
    requires p.Ended? && p.key != "" && p.key in t.rows ==> !Terminal(t.rows[p.key].status)
    ensures Sound(t, v, p)
  {
  }

  /** Entering the body. */
  lemma BeginKeeps(s: Sys, w: nat)
    requires Inv(s) && CallerAt(s, w).Entitled?
    ensures Inv(Apply(s, Begin(w)))
  {
    var t, key := Apply(s, Begin(w)), s.callers[w].key;
    assert Sound(s, w, s.callers[w]);
    forall v | v in t.callers
      ensures Sound(t, v, t.callers[v])
    {
      if v != w {
        assert Sound(s, v, s.callers[v]);
      }
    }
    forall k | k != ""
      ensures RowSound(t, k)
    {
      assert RowSound(s, k);
    }
  }

  /** Leaving it. */
  lemma EndKeeps(s: Sys, w: nat, outcome: Outcome)
    requires Inv(s) && CallerAt(s, w).Inside?
    ensures Inv(Apply(s, End(w, outcome)))
  {
    var t := Apply(s, End(w, outcome));
    assert Sound(s, w, s.callers[w]);
    assert s.callers[w].key != "" ==> RowSound(s, s.callers[w].key);
    forall v | v in t.callers
      ensures Sound(t, v, t.callers[v])
    {
      if v != w {
        assert Sound(s, v, s.callers[v]);
      }
    }
    forall k | k != ""
      ensures RowSound(t, k)
    {
      assert RowSound(s, k);
    }
  }

  lemma LookIsSound(s: Sys, w: nat, key: string, hash: string, db: Db)
    requires key != "" ==> RowSound(s, key)
    ensures var t := DoLook(s, w, key, hash, db); Sound(t, w, t.callers[w])
  {
  }

  lemma InsertIsSound(s: Sys, w: nat, key: string, hash: string, at: int, db: Db)
    requires key != "" && RowSound(s, key)
    ensures var t := DoInsert(s, w, key, hash, at, db); Sound(t, w, t.callers[w])
  {
  }

  lemma MarkIsSound(s: Sys, w: nat, key: string, hash: string, at: int, db: Db)
    requires Sound(s, w, Registered(key, hash))
    ensures var t := DoMark(s, w, key, hash, at, db); Sound(t, w, t.callers[w])
  {
  }

  lemma FinishIsSound(s: Sys, w: nat, key: string, hash: string, outcome: Outcome, at: int, db: Db)
    requires Sound(s, w, Ended(key, hash, outcome))
    ensures var t := DoFinish(s, w, key, hash, outcome, at, db); Sound(t, w, t.callers[w])
  {
  }

  /** The step of caller `w` brings it to a sound phase. */
  lemma OwnStepIsSound(s: Sys, step: Step, w: nat)
    requires Inv(s) && !step.Select? && !step.Reconcile? && !step.Begin? && !step.End? && w == step.w
    ensures w in Apply(s, step).callers ==> Sound(Apply(s, step), w, Apply(s, step).callers[w])
  {
    var p := CallerAt(s, w);
    if w in s.callers {
      assert Sound(s, w, p);
    }
    if p.Looked? {
      assert RowSound(s, p.key);
    }
    if step.Look? {
      assert step.key != "" ==> RowSound(s, step.key);
    }
    hide DoLook, DoInsert, DoMark, DoFinish, RowSound, Owns, Truthful;
    match step
    case Look(_, key, hash, db) => LookIsSound(s, w, key, hash, db);
    case Insert(_, at, db) =>
      if p.Looked? {
        InsertIsSound(s, w, p.key, p.hash, at, db);
      }
    case Mark(_, at, db) =>
      if p.Registered? {
        MarkIsSound(s, w, p.key, p.hash, at, db);
      }
    case Finish(_, at, db) =>
      if p.Ended? {
        FinishIsSound(s, w, p.key, p.hash, p.outcome, at, db);
      }
    case _ =>
  }

  lemma TableStepKeepsRow(s: Sys, step: Step, key: string)
    requires Inv(s) && key != "" && !step.Begin? && !step.End?
    ensures RowSound(Apply(s, step), key)
  {
    assert RowSound(s, key);
    if step.Finish? && step.w in s.callers {
      assert Sound(s, step.w, s.callers[step.w]);
    }
  }

  lemma TableStepSpares(s: Sys, step: Step, key: string)
    requires !step.Begin? && !step.End?
    ensures Spares(s, Apply(s, step), key)
  {
  }

  /** Only the caller that owns a row ends it. */
  lemma OnlyTheOwnerEnds(s: Sys, step: Step, v: nat)
    requires Inv(s) && v in s.callers && s.callers[v].Ended? && s.callers[v].key != ""
    requires step.Select? || step.Reconcile? || v != step.w
    ensures s.callers[v].key in Apply(s, step).rows ==> !Terminal(Apply(s, step).rows[s.callers[v].key].status)
  {
    assert Sound(s, v, s.callers[v]);
    if step.Finish? && step.w in s.callers {
      assert Sound(s, step.w, s.callers[step.w]);
    }
  }

  lemma OthersStay(s: Sys, step: Step, v: nat)
    requires v in Apply(s, step).callers
    requires step.Select? || step.Reconcile? || v != step.w
    ensures v in s.callers && Apply(s, step).callers[v] == s.callers[v]
  {
    hide InsertRow, MarkRow, CompleteRow, Replay, Selects, ReplyTo;
  }

  lemma TableStepKeeps(s: Sys, step: Step)
    requires Inv(s) && !step.Begin? && !step.End?
    ensures Inv(Apply(s, step))
  {
    hide Apply, Sound, RowSound, Onward, Spares;
    var t := Apply(s, step);
    forall v | v in t.callers
      ensures Sound(t, v, t.callers[v])
    {
      if !step.Select? && !step.Reconcile? && v == step.w {
        OwnStepIsSound(s, step, v);
      } else {
        OthersStay(s, step, v);
        var p := s.callers[v];
        if !p.Off? {
          StepGoesOnward(s, step, p.key);
          TableStepSpares(s, step, p.key);
          if p.Ended? && p.key != "" {
            OnlyTheOwnerEnds(s, step, v);
          }
        }
        SparedStaysSound(s, t, v, p);
      }
    }
    forall key | key != ""
      ensures RowSound(t, key)
    {
      TableStepKeepsRow(s, step, key);
    }
  }

  lemma Kept(s: Sys, step: Step)
    requires Inv(s)
    ensures Inv(Apply(s, step))
  {
    if step.Begin? && CallerAt(s, step.w).Entitled? {
      BeginKeeps(s, step.w);
    } else if step.End? && CallerAt(s, step.w).Inside? {
      EndKeeps(s, step.w, step.outcome);
    } else if !step.Begin? && !step.End? {
      TableStepKeeps(s, step);
    }
  }

  lemma {:induction false} Always(steps: seq<Step>, n: nat)
    requires n <= |steps|
    ensures Inv(After(steps, n))
  {
    if n > 0 {
      hide Inv, Apply;
      Always(steps, n - 1);
      Kept(After(steps, n - 1), steps[n - 1]);
    } else {
      hide Apply;
    }
  }

  lemma OnwardChains(s: Sys, t: Sys, u: Sys, key: string)
    requires Onward(s, t, key) && Onward(t, u, key)
    ensures Onward(s, u, key)
  {
  }

  lemma {:induction false} AlwaysOnward(steps: seq<Step>, i: nat, j: nat, key: string)
    requires i <= j <= |steps|
    ensures Onward(After(steps, i), After(steps, j), key)
    decreases j
  {
    if i == j {
      hide Apply;
    } else {
      hide Apply, Onward;
      AlwaysOnward(steps, i, j - 1, key);
      StepGoesOnward(After(steps, j - 1), steps[j - 1], key);
      OnwardChains(After(steps, i), After(steps, j - 1), After(steps, j), key);
    }
  }

  // ---------------------------------------------------------------- what it comes to

  /** Under one key the body is entered at most once, whatever callers, crashes and reconciliations do. */
  lemma RunsAtMostOnce(steps: seq<Step>, n: nat, key: string)
    requires n <= |steps| && key != ""
    ensures Begun(After(steps, n), key) <= 1
  {
    hide After, Sound;
    Always(steps, n);
    assert RowSound(After(steps, n), key);
  }

  /** A caller that is in the body is there for the request the key belongs to, for good. */
  lemma BodyServesTheStoredRequest(steps: seq<Step>, i: nat, j: nat, w: nat)
    requires i <= j <= |steps| && CallerAt(After(steps, i), w).Inside? && CallerAt(After(steps, i), w).key != ""
    ensures var p := CallerAt(After(steps, i), w);
      p.key in After(steps, j).rows && After(steps, j).rows[p.key].hash == p.hash
  {
    hide After, RowSound;
    Always(steps, i);
    AlwaysOnward(steps, i, j, CallerAt(After(steps, i), w).key);
    assert Sound(After(steps, i), w, CallerAt(After(steps, i), w));
  }

  predicate Free(s: Sys, w: nat) { CallerAt(s, w).Off? || CallerAt(s, w).Returned? }

  /** Once a key is taken, a different request under it is always refused. */
  lemma DifferentRequestIsRefused(steps: seq<Step>, i: nat, j: nat, w: nat, key: string, hash: string)
    requires i <= j < |steps| && key != "" && key in After(steps, i).rows && hash != After(steps, i).rows[key].hash
    requires steps[j] == Look(w, key, hash, Fine) && Free(After(steps, j), w)
    ensures CallerAt(After(steps, j + 1), w) == Returned(key, hash, Refused)
  {
    AlwaysOnward(steps, i, j, key);
  }

  /** Succeeded and failed commands never change. */
  lemma EndedIsFinal(steps: seq<Step>, i: nat, j: nat, key: string)
    requires i <= j <= |steps| && key in After(steps, i).rows && Terminal(After(steps, i).rows[key].status)
    ensures key in After(steps, j).rows && After(steps, j).rows[key] == After(steps, i).rows[key]
  {
    hide After;
    AlwaysOnward(steps, i, j, key);
  }

  /** Success is reported only if the one run returned nil, failure only if it failed with that code, a refusal
      exactly when the key belongs to a different request. */
  lemma RepliesAreTrue(steps: seq<Step>, n: nat, w: nat)
    requires n <= |steps| && CallerAt(After(steps, n), w).Returned? && CallerAt(After(steps, n), w).key != ""
    ensures var s := After(steps, n); var p := CallerAt(s, w);
      && (p.reply.Succeeds? ==> p.key in s.ended && s.ended[p.key] == Success)
      && (p.reply.FailedBefore? || p.reply.RunFails? ==> p.key in s.ended && s.ended[p.key] == Failure(p.reply.code))
      && (!p.reply.Errs? ==> p.key in s.rows && (p.reply.Refused? <==> s.rows[p.key].hash != p.hash))
  {
    hide After, RowSound;
    Always(steps, n);
    assert Sound(After(steps, n), w, CallerAt(After(steps, n), w));
  }

  /** The result the database took is what every later call is told. */
  lemma ResultIsReplayed(steps: seq<Step>, i: nat, j: nat, v: nat, w: nat, at: int, db: Db)
    requires i < j < |steps| && steps[i] == Finish(v, at, db) && !db.Broken?
    requires CallerAt(After(steps, i), v).Ended? && CallerAt(After(steps, i), v).key != ""
    requires var p := CallerAt(After(steps, i), v); steps[j] == Look(w, p.key, p.hash, Fine) && Free(After(steps, j), w)
    ensures var p := CallerAt(After(steps, i), v);
      CallerAt(After(steps, j + 1), w)
      == Returned(p.key, p.hash, if p.outcome.Success? then Succeeds else FailedBefore(p.outcome.code))
  {
    hide After;
    Always(steps, i);
    var p := CallerAt(After(steps, i), v);
    assert Sound(After(steps, i), v, p);
    assert After(steps, i + 1) == Apply(After(steps, i), steps[i]) by {
      OneStep(steps, i);
    }
    hide Inv, Sound;
    FinishWrites(After(steps, i), v, at, db);
    EndedIsFinal(steps, i + 1, j, p.key);
    OneStep(steps, j);
    LookReplays(After(steps, j), w, p.key, p.hash);
  }

  lemma OneStep(steps: seq<Step>, n: nat)
    requires n < |steps|
    ensures After(steps, n + 1) == Apply(After(steps, n), steps[n])
  {
  }

  lemma FinishWrites(s: Sys, v: nat, at: int, db: Db)
    requires CallerAt(s, v).Ended? && CallerAt(s, v).key != "" && !db.Broken?
    requires var p := CallerAt(s, v); p.key in s.rows && s.rows[p.key].hash == p.hash && !Terminal(s.rows[p.key].status)
    ensures var p, t := CallerAt(s, v), Apply(s, Finish(v, at, db));
      p.key in t.rows && t.rows[p.key] == Row(p.hash, StatusOf(p.outcome), CodeOf(p.outcome), at)
  {
  }

  lemma LookReplays(s: Sys, w: nat, key: string, hash: string)
    requires key != "" && key in s.rows && Free(s, w)
    ensures CallerAt(Apply(s, Look(w, key, hash, Fine)), w) == Returned(key, hash, Replay(s.rows[key], hash))
  {
  }

  /** The steps of a call that nothing interrupts. */
  function Call(w: nat, key: string, hash: string, outcome: Outcome, at: int, look: Db, insert: Db, mark: Db,
      complete: Db): seq<Step>
  {
    [Look(w, key, hash, look), Insert(w, at, insert), Mark(w, at, mark), Begin(w), End(w, outcome),
     Finish(w, at, complete)]
  }

  lemma SixSteps(s: Sys, steps: seq<Step>)
    requires |steps| == 6
    ensures From(s, steps, 6)
         == Apply(Apply(Apply(Apply(Apply(Apply(s, steps[0]), steps[1]), steps[2]), steps[3]), steps[4]), steps[5])
  {
    hide Apply;
    assert From(s, steps, 0) == s && From(s, steps, 1) == Apply(s, steps[0]);
    assert From(s, steps, 2) == Apply(From(s, steps, 1), steps[1]);
    assert From(s, steps, 3) == Apply(From(s, steps, 2), steps[2]);
    assert From(s, steps, 4) == Apply(From(s, steps, 3), steps[3]);
    assert From(s, steps, 5) == Apply(From(s, steps, 4), steps[4]);
  }

  /** Who has got a reply does nothing more. */
  lemma ReturnedStays(s: Sys, w: nat, outcome: Outcome, at: int, insert: Db, mark: Db, complete: Db)
    requires CallerAt(s, w).Returned?
    ensures Apply(s, Insert(w, at, insert)) == s && Apply(s, Mark(w, at, mark)) == s && Apply(s, Begin(w)) == s
    ensures Apply(s, End(w, outcome)) == s && Apply(s, Finish(w, at, complete)) == s
  {
  }

  lemma EntitledRuns(s: Sys, w: nat, key: string, hash: string, outcome: Outcome, at: int, complete: Db)
    requires CallerAt(s, w) == Entitled(key, hash)
    ensures var t := Apply(Apply(Apply(s, Begin(w)), End(w, outcome)), Finish(w, at, complete));
      && t.rows == (if key == "" then s.rows
                    else CompleteRow(s.rows, key, StatusOf(outcome), CodeOf(outcome), at, complete).0)
      && CallerAt(t, w) == Returned(key, hash, ReplyTo(outcome)) && Begun(t, key) == Begun(s, key) + 1
  {
    hide CompleteRow, StatusOf, CodeOf, ReplyTo;
  }

  /** They leave in the table, and reply, what the whole call does, and enter the body if it does. */
  lemma CallIsARun(s: Sys, w: nat, key: string, hash: string, outcome: Outcome, at: int, look: Db, insert: Db, mark: Db,
      complete: Db)
    requires Free(s, w)
    ensures var t := From(s, Call(w, key, hash, outcome, at, look, insert, mark, complete), 6);
      var (rows, reply, ran) := Called(s.rows, key, hash, outcome, at, look, insert, mark, complete);
      && t.rows == rows && CallerAt(t, w) == Returned(key, hash, reply)
      && Begun(t, key) == Begun(s, key) + if ran then 1 else 0
  {
    hide Apply, From, InsertRow, MarkRow, CompleteRow, Replay, ReplyTo, StatusOf, CodeOf;
    SixSteps(s, Call(w, key, hash, outcome, at, look, insert, mark, complete));
    Looks(s, w, key, hash, look);
    var a := Apply(s, Look(w, key, hash, look));
    if CallerAt(a, w).Returned? {
      ReturnedStays(a, w, outcome, at, insert, mark, complete);
    } else if key == "" {
      EntitledWaits(a, w, at, insert, mark);
      EntitledRuns(a, w, key, hash, outcome, at, complete);
    } else {
      CallGoesOn(a, w, key, hash, outcome, at, insert, mark, complete);
    }
  }

  lemma Looks(s: Sys, w: nat, key: string, hash: string, look: Db)
    requires Free(s, w)
    ensures var a := Apply(s, Look(w, key, hash, look));
      a.rows == s.rows && a.begun == s.begun
      && CallerAt(a, w) == if key == "" then Entitled(key, hash) else if !look.Fine? then Returned(key, hash, Errs)
                           else if key in s.rows then Returned(key, hash, Replay(s.rows[key], hash))
                           else Looked(key, hash)
  {
    hide Replay;
  }

  lemma EntitledWaits(s: Sys, w: nat, at: int, insert: Db, mark: Db)
    requires CallerAt(s, w).Entitled?
    ensures Apply(Apply(s, Insert(w, at, insert)), Mark(w, at, mark)) == s
  {
  }

  lemma CallGoesOn(a: Sys, w: nat, key: string, hash: string, outcome: Outcome, at: int, insert: Db, mark: Db,
      complete: Db)
    requires CallerAt(a, w) == Looked(key, hash) && key != "" && key !in a.rows
    ensures var c := Apply(Apply(a, Insert(w, at, insert)), Mark(w, at, mark));
      var t := Apply(Apply(Apply(c, Begin(w)), End(w, outcome)), Finish(w, at, complete));
      var (rows, reply, ran) := Called(a.rows, key, hash, outcome, at, Fine, insert, mark, complete);
      && t.rows == rows && CallerAt(t, w) == Returned(key, hash, reply)
      && Begun(t, key) == Begun(a, key) + if ran then 1 else 0
  {
    var b := Apply(a, Insert(w, at, insert));
    assert b.rows == InsertRow(a.rows, key, hash, at, insert).0 && b.begun == a.begun;
    assert CallerAt(b, w) == if insert.Fine? then Registered(key, hash) else Returned(key, hash, Errs);
    var c := Apply(b, Mark(w, at, mark));
    if insert.Fine? {
      assert c.rows == MarkRow(b.rows, key, at, mark).0 && c.begun == a.begun;
      assert CallerAt(c, w) == if mark.Fine? then Entitled(key, hash) else Returned(key, hash, Errs);
    }
    hide Apply, CompleteRow, MarkRow, InsertRow, StatusOf, CodeOf;
    if CallerAt(c, w).Entitled? {
      EntitledRuns(c, w, key, hash, outcome, at, complete);
    } else {
      if CallerAt(b, w).Returned? {
        ReturnedStays(b, w, outcome, at, insert, mark, complete);
      }
      ReturnedStays(c, w, outcome, at, insert, mark, complete);
    }
  }

  // ---------------------------------------------------------------- commands that never end

  /** A caller that may still end the command: it has the right to the body or is past that, or it can still get it. */
  predicate Capable(row: Row, p: Phase, key: string) {
    && !p.Off? && p.key == key
    && (p.Entitled? || p.Inside? || p.Ended? || (p.Registered? && row.status.Accepted?))
  }

  /** The command has not ended, and no caller may still end it. */
  ghost predicate Stuck(s: Sys, key: string) {
    && key != "" && key in s.rows && !Terminal(s.rows[key].status)
    && (forall w :: w in s.callers ==> !Capable(s.rows[key], s.callers[w], key))
  }

  lemma StuckRowStays(s: Sys, step: Step, key: string)
    requires Stuck(s, key)
    ensures key in Apply(s, step).rows && Apply(s, step).rows[key].hash == s.rows[key].hash
    ensures var a, b := s.rows[key].status, Apply(s, step).rows[key].status;
      !Terminal(b) && (b.Accepted? ==> a.Accepted?)
  {
    hide Replay, Selects;
    if step.Finish? && step.w in s.callers {
      assert !Capable(s.rows[key], s.callers[step.w], key);
    }
  }

  lemma NobodyBecomesCapable(s: Sys, step: Step, key: string, w: nat)
    requires Stuck(s, key) && w in Apply(s, step).callers && key in Apply(s, step).rows
    requires Apply(s, step).rows[key].status.Accepted? ==> s.rows[key].status.Accepted?
    ensures !Capable(Apply(s, step).rows[key], Apply(s, step).callers[w], key)
  {
    hide CompleteRow, Replay, Selects, ReplyTo, StatusOf, CodeOf;
    if step.Select? || step.Reconcile? || w != step.w {
      OthersStay(s, step, w);
    }
    assert w in s.callers ==> !Capable(s.rows[key], s.callers[w], key);
  }

  lemma StuckStays(s: Sys, step: Step, key: string)
    requires Stuck(s, key)
    ensures Stuck(Apply(s, step), key) && Apply(s, step).rows[key].hash == s.rows[key].hash
  {
    hide Apply, Capable;
    StuckRowStays(s, step, key);
    forall w | w in Apply(s, step).callers
      ensures !Capable(Apply(s, step).rows[key], Apply(s, step).callers[w], key)
    {
      NobodyBecomesCapable(s, step, key, w);
    }
  }

  lemma {:induction false} StuckForever(s: Sys, tail: seq<Step>, n: nat, key: string)
    requires n <= |tail| && Stuck(s, key)
    ensures Stuck(From(s, tail, n), key) && From(s, tail, n).rows[key].hash == s.rows[key].hash
  {
    if n == 0 {
    } else {
      hide Apply, Stuck;
      StuckForever(s, tail, n - 1, key);
      StuckStays(From(s, tail, n - 1), tail[n - 1], key);
    }
  }

  /** However the run goes on, everyone who repeats the request is told that it still runs. */
  ghost predicate StillRunsForGood(s: Sys, key: string)
    requires key in s.rows
  {
    forall tail: seq<Step>, w: nat :: Free(From(s, tail, |tail|), w) ==>
      CallerAt(Apply(From(s, tail, |tail|), Look(w, key, s.rows[key].hash, Fine)), w)
      == Returned(key, s.rows[key].hash, StillRunning)
  }

  /** What a capable caller does to end the command, wherever it is. */
  function Ending(w: nat): seq<Step> { [Mark(w, 0, Fine), Begin(w), End(w, Success), Finish(w, 0, Fine)] }

  lemma FourSteps(s: Sys, steps: seq<Step>)
    requires |steps| == 4
    ensures From(s, steps, 4) == Apply(Apply(Apply(Apply(s, steps[0]), steps[1]), steps[2]), steps[3])
  {
    hide Apply;
    assert From(s, steps, 1) == Apply(From(s, steps, 0), steps[0]);
    assert From(s, steps, 2) == Apply(From(s, steps, 1), steps[1]);
    assert From(s, steps, 3) == Apply(From(s, steps, 2), steps[2]);
  }

  /** The caller is in the body or on its way there, with its row still open. */
  predicate OnTheWay(s: Sys, w: nat, key: string) {
    var p := CallerAt(s, w);
    key in s.rows && !Terminal(s.rows[key].status) && (p.Entitled? || p.Inside? || p.Ended?) && p.key == key
  }

  lemma MarkGoesOn(s: Sys, w: nat, key: string)
    requires key in s.rows && !Terminal(s.rows[key].status) && w in s.callers && Capable(s.rows[key], s.callers[w], key)
    ensures OnTheWay(Apply(s, Mark(w, 0, Fine)), w, key)
  {
  }

  lemma BodyGoesOn(s: Sys, w: nat, key: string)
    requires OnTheWay(s, w, key)
    ensures var t := Apply(Apply(s, Begin(w)), End(w, Success)); OnTheWay(t, w, key) && CallerAt(t, w).Ended?
  {
    assert OnTheWay(Apply(s, Begin(w)), w, key);
  }

  lemma FinishEnds(s: Sys, w: nat, key: string)
    requires OnTheWay(s, w, key) && CallerAt(s, w).Ended? && key != ""
    ensures var t := Apply(s, Finish(w, 0, Fine));
      Free(t, w) && key in t.rows && Terminal(t.rows[key].status) && t.rows[key].hash == s.rows[key].hash
  {
  }

  lemma OnwardKeepsHash(s: Sys, step: Step, key: string)
    requires key in s.rows
    ensures key in Apply(s, step).rows && Apply(s, step).rows[key].hash == s.rows[key].hash
  {
    StepGoesOnward(s, step, key);
    hide Apply;
  }

  /** Where there is a capable caller, the command can end, and the next one to ask is told so. */
  lemma CapableCallersEnd(s: Sys, w: nat, key: string)
    requires key != "" && key in s.rows && !Terminal(s.rows[key].status)
    requires w in s.callers && Capable(s.rows[key], s.callers[w], key)
    ensures var t := From(s, Ending(w), 4);
      Free(t, w) && key in t.rows && Terminal(t.rows[key].status) && t.rows[key].hash == s.rows[key].hash
  {
    var a := Apply(s, Mark(w, 0, Fine));
    var b := Apply(a, Begin(w));
    var c := Apply(b, End(w, Success));
    FourSteps(s, Ending(w));
    hide Apply, OnTheWay, Free;
    MarkGoesOn(s, w, key);
    BodyGoesOn(a, w, key);
    FinishEnds(c, w, key);
    OnwardKeepsHash(s, Mark(w, 0, Fine), key);
    OnwardKeepsHash(a, Begin(w), key);
    OnwardKeepsHash(b, End(w, Success), key);
  }

  lemma CrashFrees(s: Sys, w: nat)
    ensures var t := From(s, [Crash(w)], 1); Free(t, w) && t.rows == s.rows
  {
    assert From(s, [Crash(w)], 0) == s;
  }

  lemma {:induction false} EndedIsNotRunning(s: Sys, key: string, tail: seq<Step>, w: nat)
    requires key != "" && key in s.rows
    requires var t := From(s, tail, |tail|);
      Free(t, w) && key in t.rows && Terminal(t.rows[key].status) && t.rows[key].hash == s.rows[key].hash
    ensures !StillRunsForGood(s, key)
  {
    var t := From(s, tail, |tail|);
    LookReplays(t, w, key, s.rows[key].hash);
    hide Apply;
    assert CallerAt(Apply(t, Look(w, key, s.rows[key].hash, Fine)), w) == Returned(key, s.rows[key].hash,
      Replay(t.rows[key], s.rows[key].hash));
  }

  /** A key answers "still running" for good exactly if its command has not ended and no caller may still end it. */
  lemma StillRunsForGoodIffStuck(s: Sys, key: string)
    requires key != "" && key in s.rows
    ensures StillRunsForGood(s, key) <==> Stuck(s, key)
  {
    if Stuck(s, key) {
      forall tail: seq<Step>, w: nat | Free(From(s, tail, |tail|), w)
        ensures CallerAt(Apply(From(s, tail, |tail|), Look(w, key, s.rows[key].hash, Fine)), w)
                == Returned(key, s.rows[key].hash, StillRunning)
      {
        StuckForever(s, tail, |tail|, key);
        LookReplays(From(s, tail, |tail|), w, key, s.rows[key].hash);
        hide Apply, Free;
      }
    } else if Terminal(s.rows[key].status) {
      CrashFrees(s, 0);
      EndedIsNotRunning(s, key, [Crash(0)], 0);
    } else {
      var w :| w in s.callers && Capable(s.rows[key], s.callers[w], key);
      CapableCallersEnd(s, w, key);
      EndedIsNotRunning(s, key, Ending(w), w);
    }
  }

  // ---------------------------------------------------------------- how commands get stuck

  /** One more step of a run under construction. */
  lemma Extend(steps: seq<Step>, a: Sys, step: Step) returns (steps': seq<Step>, a': Sys)
    requires a == After(steps, |steps|)
    ensures steps' == steps + [step] && a' == Apply(a, step) && a' == After(steps', |steps'|)
  {
    steps', a' := steps + [step], Apply(a, step);
    FromStable(EMPTY, steps, step, |steps|);
  }

  lemma {:induction false} FromStable(s: Sys, steps: seq<Step>, step: Step, n: nat)
    requires n <= |steps|
    ensures From(s, steps + [step], n) == From(s, steps, n)
  {
    if n == 0 {
    } else {
      hide Apply;
      FromStable(s, steps, step, n - 1);
    }
  }

  /** A first caller has its row in. */
  lemma Register(w: nat, key: string, hash: string, at: int) returns (steps: seq<Step>, a: Sys)
    requires key != ""
    ensures a == After(steps, |steps|) && steps == [Look(w, key, hash, Fine), Insert(w, at, Fine)]
    ensures a == EMPTY.(rows := map[key := Row(hash, Accepted, "", at)], callers := map[w := Registered(key, hash)],
                        owner := map[key := w])
  {
    hide After;
    assert EMPTY == After([], 0) by {
      NothingYet();
    }
    steps, a := Extend([], EMPTY, Look(w, key, hash, Fine));
    steps, a := Extend(steps, a, Insert(w, at, Fine));
  }

  lemma NothingYet()
    ensures After([], 0) == EMPTY
  {
  }

  lemma SelectTakesStale(a: Sys, key: string, at: int)
    requires a.rows.Keys == {key} && a.rows[key].status.Accepted? && a.rows[key].updated == at && a.pending == []
    ensures Apply(a, Select(at + 1, [key])) == a.(pending := [key])
    ensures Apply(a.(pending := [key]), Reconcile(0, at + 1, Fine))
         == a.(rows := a.rows[key := a.rows[key].(status := Unknown, code := STALE, updated := at + 1)])
  {
    assert [] + [key] == [key];
    assert [key][..0] + [key][1..] == [];
  }

  /** Nobody crashes and every reply arrives, but a reconciliation comes before MarkRunning. */
  lemma ReconciledTooSoon(w: nat, key: string, hash: string, at: int) returns (steps: seq<Step>)
    requires key != ""
    ensures var s := After(steps, |steps|); Stuck(s, key) && CallerAt(s, w) == Registered(key, hash)
    ensures forall k :: 0 <= k < |steps| ==> !steps[k].Crash?
  {
    var a;
    steps, a := Register(w, key, hash, at);
    hide After;
    SelectTakesStale(a, key, at);
    steps, a := Extend(steps, a, Select(at + 1, [key]));
    steps, a := Extend(steps, a, Reconcile(0, at + 1, Fine));
  }

  /** A first caller has run the body to its end. */
  lemma RunBody(w: nat, key: string, hash: string, at: int) returns (steps: seq<Step>, a: Sys)
    requires key != ""
    ensures a == After(steps, |steps|) && a.callers == map[w := Ended(key, hash, Success)]
    ensures a.rows == map[key := Row(hash, Running, "", at)] && key in a.ended && a.ended[key] == Success
  {
    hide After;
    steps, a := Register(w, key, hash, at);
    steps, a := Extend(steps, a, Mark(w, at, Fine));
    assert a.callers == map[w := Entitled(key, hash)] && a.rows == map[key := Row(hash, Running, "", at)];
    steps, a := Extend(steps, a, Begin(w));
    assert a.callers == map[w := Inside(key, hash)];
    steps, a := Extend(steps, a, End(w, Success));
    assert a.callers == map[w := Ended(key, hash, Success)];
  }

  /** The body has succeeded and its caller says so, but the database did not take the result. */
  lemma ResultIsLost(w: nat, key: string, hash: string, at: int) returns (steps: seq<Step>)
    requires key != ""
    ensures var s := After(steps, |steps|);
      Stuck(s, key) && CallerAt(s, w) == Returned(key, hash, Succeeds) && key in s.ended && s.ended[key] == Success
  {
    hide After;
    var a;
    steps, a := RunBody(w, key, hash, at);
    steps, a := Extend(steps, a, Finish(w, at, Broken));
    assert a.callers == map[w := Returned(key, hash, Succeeds)];
  }

  /** The reply to the insertion or to MarkRunning is lost, or the caller crashes in between. */
  lemma ReplyIsLost(w: nat, key: string, hash: string, at: int, last: Step) returns (steps: seq<Step>)
    requires key != "" && last in {Mark(w, at, Lost), Crash(w)}
    ensures var s := After(steps, |steps|); |steps| > 0 && steps[|steps| - 1] == last && Stuck(s, key)
  {
    var a;
    steps, a := Register(w, key, hash, at);
    hide After;
    steps, a := Extend(steps, a, last);
    assert a.callers.Keys == {w};
  }

  /** The insertion takes effect, but its caller is told that it failed. */
  lemma InsertionIsLost(w: nat, key: string, hash: string, at: int) returns (steps: seq<Step>)
    requires key != ""
    ensures steps == [Look(w, key, hash, Fine), Insert(w, at, Lost)] && Stuck(After(steps, 2), key)
  {
    hide After;
    assert EMPTY == After([], 0) by {
      NothingYet();
    }
    var a;
    steps, a := Extend([], EMPTY, Look(w, key, hash, Fine));
    steps, a := Extend(steps, a, Insert(w, at, Lost));
    assert a.callers == map[w := Returned(key, hash, Errs)];
  }
}
