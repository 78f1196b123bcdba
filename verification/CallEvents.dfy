/** Sequence numbers of a call's events, allocated under the row lock of the call by concurrent transactions. */
module CallEvents {
  import opened Seqs

  /** `call` is "" for an event that belongs to no call. */
  datatype Row = Row(call: string, number: nat)

  // ---------------------------------------------------------------- one caller

  /** Which statements of an append work, and how its transaction ends. */
  datatype Env = Env(bump: bool, insert: bool, stage: bool, commit: Db)

  class Store {
    var calls: map<string, nat>      // event_seq of every call
    var events: map<nat, Row>        // by event id
    var dispatches: map<nat, nat>    // dispatches staged, by event id
    var nextId: nat                  // the id sequence, which no rollback takes back
    const dispatching: bool          // whether a hook stages dispatches

    constructor (dispatching: bool)
      ensures calls == map[] && events == map[] && dispatches == map[] && nextId == 1
      ensures this.dispatching == dispatching
    {
      calls, events, dispatches, nextId := map[], map[], map[], 1;
      this.dispatching := dispatching;
    }

    /** Whether an append gets through to the end of its transaction. */
    predicate Completes(call: string, env: Env)
      reads this
    {
      env.insert && (call == "" || (env.bump && call in calls)) && (dispatching ==> env.stage)
    }

    /** One append in a transaction of its own: all of it takes effect or none, except that an id may be used up. */
    method Append(call: string, env: Env) returns (id: nat, number: nat, ok: bool)
      modifies this
      ensures ok <==> old(Completes(call, env)) && env.commit.Fine?
      ensures !ok ==> id == 0
      ensures old(Completes(call, env)) && !env.commit.Broken? ==>
        var n := if call == "" then 0 else old(calls)[call] + 1;
        && (ok ==> id == old(nextId) && number == n)
        && nextId == old(nextId) + 1
        && events == old(events)[old(nextId) := Row(call, n)]
        && calls == (if call == "" then old(calls) else old(calls)[call := n])
        && dispatches == if dispatching then OneMore(old(dispatches), old(nextId)) else old(dispatches)
      ensures !old(Completes(call, env)) || env.commit.Broken? ==>
        && events == old(events) && calls == old(calls) && dispatches == old(dispatches)
        && old(nextId) <= nextId <= old(nextId) + 1
    {
      id, number, ok := 0, 0, false;
      var calls' := calls;
      if call != "" {
        if !env.bump || call !in calls {
          return;
        }
        number := calls[call] + 1;
        calls' := calls[call := number];
      }
      if !env.insert {
        return;
      }
      var id' := nextId;
      nextId := nextId + 1;
      var dispatches' := dispatches;
      if dispatching {
        if !env.stage {
          return;
        }
        dispatches' := OneMore(dispatches, id');
      }
      if env.commit.Broken? {
        return;
      }
      calls, events, dispatches := calls', events[id' := Row(call, number)], dispatches';
      if env.commit.Fine? {
        id, ok := id', true;
      }
    }
  }

  function OneMore(counts: map<nat, nat>, id: nat): map<nat, nat> {
    counts[id := (if id in counts then counts[id] else 0) + 1]
  }

  // ---------------------------------------------------------------- concurrent transactions

  /** Where a transaction is in an append: the call's counter raised, the event inserted under an id. */
  datatype Doing = Between | Bumped(call: string, number: nat) | Inserted(call: string, number: nat, id: nat)

  /** A transaction may append several events, with other work in between. `seqs` holds the counters it has
      raised, `rows` and `staged` what it has written, `own` its events of each call in order. An append that fails
      goes back to a savepoint, so its traces are only in `doing`. */
  datatype Tx = Tx(seqs: map<string, nat>, rows: map<nat, Row>, own: map<string, seq<nat>>, staged: map<nat, nat>,
    doing: Doing)

  const NEW_TX := Tx(map[], map[], map[], map[], Between)

  /** `index` lists the committed events of each call in the order of their commits. */
  datatype Sys = Sys(calls: map<string, nat>, events: map<nat, Row>, dispatches: map<nat, nat>, nextId: nat,
                     txs: map<nat, Tx>, index: map<string, seq<nat>>, dispatching: bool)

  datatype Step =
    | NewCall(call: string)
    | Begin(w: nat)
    | Bump(w: nat, call: string)
    | Insert(w: nat)
    | Stage(w: nat)
    | Undo(w: nat)
    | Commit(w: nat)
    | Abort(w: nat)

  /** The row of a call is locked by the transaction that has raised its counter. */
  predicate Locks(tx: Tx, call: string) { call in tx.seqs || (!tx.doing.Between? && tx.doing.call == call) }

  predicate Free(s: Sys, w: nat, call: string) { forall v :: v in s.txs && v != w ==> !Locks(s.txs[v], call) }

  function Goes(s: Sys, w: nat, tx: Tx): Sys { s.(txs := s.txs[w := tx]) }

  function Own(tx: Tx, call: string): seq<nat> { if call in tx.own then tx.own[call] else [] }

  /** The update waits for the lock and then reads the newest committed counter, or the transaction's own. */
  function Raise(s: Sys, w: nat, tx: Tx, call: string): Tx {
    if call == "" then tx.(doing := Bumped("", 0))
    else if call !in s.calls || !Free(s, w, call) then tx
    else tx.(doing := Bumped(call, (if call in tx.seqs then tx.seqs[call] else s.calls[call]) + 1))
  }

  function Write(dispatching: bool, tx: Tx, call: string, n: nat, id: nat): Tx {
    Tx(if call == "" then tx.seqs else tx.seqs[call := n], tx.rows[id := Row(call, n)],
       if call == "" then tx.own else tx.own[call := Own(tx, call) + [id]],
       if dispatching then OneMore(tx.staged, id) else tx.staged,
       Between)
  }

  /** A step inside transaction `w`. */
  function Within(s: Sys, w: nat, tx: Tx, step: Step): Tx {
    match step
    case Bump(_, call) => if tx.doing.Between? then Raise(s, w, tx, call) else tx
    case Insert(_) => if tx.doing.Bumped? then tx.(doing := Inserted(tx.doing.call, tx.doing.number, s.nextId)) else tx
    case Stage(_) => if tx.doing.Inserted? then Write(s.dispatching, tx, tx.doing.call, tx.doing.number, tx.doing.id)
      else tx
    case Undo(_) => tx.(doing := Between)
    case _ => tx
  }

  function DoCommit(s: Sys, w: nat, tx: Tx): Sys {
    s.(calls := s.calls + tx.seqs, events := s.events + tx.rows, dispatches := s.dispatches + tx.staged,
      txs := s.txs - {w},
       index := map c | c in s.index :: s.index[c] + Own(tx, c))
  }

  function Continue(s: Sys, step: Step): Sys
    requires Local(step) && step.w in s.txs
  {
    var tx := s.txs[step.w];
    Goes(s, step.w, Within(s, step.w, tx, step)).(nextId := if step.Insert?
      && tx.doing.Bumped? then s.nextId + 1 else s.nextId)
  }

  predicate Local(step: Step) { step.Bump? || step.Insert? || step.Stage? || step.Undo? }

  /** One step; a step that is not possible, or has to wait, changes nothing. */
  function Apply(s: Sys, step: Step): Sys {
    match step
    case NewCall(call) =>
      if call == "" || call in s.calls then s else s.(calls := s.calls[call := 0], index := s.index[call := []])
    case Begin(w) => if w in s.txs then s else Goes(s, w, NEW_TX)
    case Commit(w) => if w in s.txs && s.txs[w].doing.Between? then DoCommit(s, w, s.txs[w]) else s
    case Abort(w) => s.(txs := s.txs - {w})
    case _ => if step.w in s.txs then Continue(s, step) else s
  }

  function Empty(dispatching: bool): Sys { Sys(map[], map[], map[], 1, map[], map[], dispatching) }

  function After(dispatching: bool, steps: seq<Step>, n: nat): Sys
    requires n <= |steps|
  {
    if n == 0 then Empty(dispatching) else Apply(After(dispatching, steps, n - 1), steps[n - 1])
  }

  // ---------------------------------------------------------------- an undisturbed append

  /** The steps of an append in a transaction of its own, up to its commit. */
  function Appending(w: nat, call: string): seq<Step> { [Begin(w), Bump(w, call), Insert(w), Stage(w), Commit(w)] }

  /** While nobody else has the row of the call locked, they leave what a whole append leaves: the next number under the
      next id, with its dispatch if there is a hook, and nothing else. */
  lemma AppendIsARun(s: Sys, w: nat, call: string)
    requires w !in s.txs && (call != "" ==> call in s.calls && call in s.index && Free(s, w, call))
    ensures var steps, id := Appending(w, call), s.nextId;
      var t := Apply(Apply(Apply(Apply(Apply(s, steps[0]), steps[1]), steps[2]), steps[3]), steps[4]);
      var n := if call == "" then 0 else s.calls[call] + 1;
      && t.events == s.events[id := Row(call, n)] && t.nextId == id + 1 && t.txs == s.txs
      && t.calls == (if call == "" then s.calls else s.calls[call := n])
      && t.index == (if call == "" then s.index else s.index[call := s.index[call] + [id]])
      && t.dispatches == if s.dispatching then s.dispatches[id := 1] else s.dispatches
  {
    var n := if call == "" then 0 else s.calls[call] + 1;
    var tx := Write(s.dispatching, NEW_TX, call, n, s.nextId);
    var d := Goes(s, w, tx).(nextId := s.nextId + 1);
    BeginAndBump(s, w, call);
    InsertAndStage(s, w, call, n);
    CommitAppend(d, w, tx, call, n, s.nextId);
    assert d.txs - {w} == s.txs;
    assert Apply(d, Commit(w)) == DoCommit(d, w, tx);
    hide Apply, DoCommit, Write;
  }

  lemma BeginAndBump(s: Sys, w: nat, call: string)
    requires w !in s.txs && (call != "" ==> call in s.calls && Free(s, w, call))
    ensures Apply(Apply(s, Begin(w)), Bump(w, call))
         == Goes(s, w, NEW_TX.(doing := Bumped(call, if call == "" then 0 else s.calls[call] + 1)))
  {
    var a := Apply(s, Begin(w));
    assert call != "" ==> Free(a, w, call);
    assert a.txs[w := NEW_TX.(doing := Bumped(call, if call == "" then 0 else s.calls[call] + 1))]
        == s.txs[w := NEW_TX.(doing := Bumped(call, if call == "" then 0 else s.calls[call] + 1))];
  }

  lemma InsertAndStage(s: Sys, w: nat, call: string, n: nat)
    ensures Apply(Apply(Goes(s, w, NEW_TX.(doing := Bumped(call, n))), Insert(w)), Stage(w))
         == Goes(s, w, Write(s.dispatching, NEW_TX, call, n, s.nextId)).(nextId := s.nextId + 1)
  {
    var c := Apply(Goes(s, w, NEW_TX.(doing := Bumped(call, n))), Insert(w));
    assert c.txs == s.txs[w := NEW_TX.(doing := Inserted(call, n, s.nextId))];
    assert c.txs[w := Write(s.dispatching, NEW_TX, call, n, s.nextId)]
        == s.txs[w := Write(s.dispatching, NEW_TX, call, n, s.nextId)];
  }

  lemma WrittenOnce(dispatching: bool, call: string, n: nat, id: nat)
    ensures Write(dispatching, NEW_TX, call, n, id)
         == Tx(if call == "" then map[] else map[call := n], map[id := Row(call, n)],
               if call == "" then map[] else map[call := [id]], if dispatching then map[id := 1] else map[], Between)
  {
    assert Own(NEW_TX, call) + [id] == [id];
  }

  lemma AddingOne<K, V>(m: map<K, V>, k: K, v: V)
    ensures m + map[k := v] == m[k := v] && m + map[] == m
  {
  }

  lemma IndexGrows(index: map<string, seq<nat>>, tx: Tx, call: string, id: nat)
    requires call != "" ==> call in index
    requires tx.own == if call == "" then map[] else map[call := [id]]
    ensures (map c | c in index :: index[c] + Own(tx, c))
         == if call == "" then index else index[call := index[call] + [id]]
  {
    forall c | c in index
      ensures index[c] + Own(tx, c) == if call != "" && c == call then index[c] + [id] else index[c]
    {
      assert index[c] + [] == index[c];
    }
  }

  lemma CommitAppend(d: Sys, w: nat, tx: Tx, call: string, n: nat, id: nat)
    requires w in d.txs && d.txs[w] == tx == Write(d.dispatching, NEW_TX, call, n, id)
    requires call != "" ==> call in d.index
    ensures DoCommit(d, w, tx)
         == d.(events := d.events[id := Row(call, n)], calls := if call == "" then d.calls else d.calls[call := n],
               index := if call == "" then d.index else d.index[call := d.index[call] + [id]], txs := d.txs - {w},
               dispatches := if d.dispatching then d.dispatches[id := 1] else d.dispatches)
  {
    WrittenOnce(d.dispatching, call, n, id);
    hide Write, Own;
    AddingOne(d.events, id, Row(call, n));
    AddingOne(d.calls, call, n);
    AddingOne(d.dispatches, id, 1);
    IndexGrows(d.index, tx, call, id);
  }

  /** An append that fails leaves its transaction as it was. */
  lemma UndoneLeavesNoTrace(s: Sys, w: nat, call: string)
    requires w in s.txs && s.txs[w].doing.Between?
    ensures Apply(Apply(s, Bump(w, call)), Undo(w)) == s
    ensures var t := Apply(Apply(Apply(s, Bump(w, call)), Insert(w)), Undo(w));
      t == s.(nextId := t.nextId) && s.nextId <= t.nextId <= s.nextId + 1
  {
    var a := Apply(s, Bump(w, call));
    assert a.txs[w := s.txs[w]] == s.txs;
    assert Apply(a, Insert(w)).txs[w := s.txs[w]] == s.txs;
  }

  /** An event is inserted, and an id used, only after its number. */
  lemma InsertNeedsANumber(s: Sys, w: nat)
    requires w in s.txs && !s.txs[w].doing.Bumped?
    ensures Apply(s, Insert(w)) == s
  {
    assert s.txs[w := s.txs[w]] == s.txs;
  }

  /** And a transaction that is rolled back, or never begins, leaves no trace but the ids it used up; a new call has no
      events. */
  lemma AbortLeavesNoTrace(s: Sys, w: nat, call: string)
    ensures Apply(s, Abort(w)) == s.(txs := s.txs - {w})
    ensures var t := Apply(s, NewCall(call));
      if call == "" || call in s.calls then t == s
      else
        && t == s.(calls := t.calls, index := t.index)
        && t.calls == s.calls[call := 0] && t.index == s.index[call := []]
  {
  }

  // ---------------------------------------------------------------- ids are used once

  /** An id is in the committed table, in one transaction, or in none; ids from `nextId` on are in none. */
  ghost predicate Apart(s: Sys, id: nat) {
    && (id in s.events ==> id < s.nextId)
    && (id in s.dispatches ==> id in s.events)
    && (forall w :: w in s.txs && Uses(s.txs[w], id) ==> id < s.nextId && id !in s.events)
    && (forall w, v :: w in s.txs && v in s.txs && w != v && Uses(s.txs[w], id) ==> !Uses(s.txs[v], id))
    && (forall w :: w in s.txs && id in s.txs[w].staged ==> id in s.txs[w].rows)
    && (forall w :: w in s.txs && id in s.txs[w].rows ==> !(s.txs[w].doing.Inserted? && s.txs[w].doing.id == id))
  }

  predicate Uses(tx: Tx, id: nat) { id in tx.rows || (tx.doing.Inserted? && tx.doing.id == id) }

  /** What one transaction may look like for an id. */
  predicate Tidy(tx: Tx, id: nat) {
    && (id in tx.staged ==> id in tx.rows)
    && (id in tx.rows ==> !(tx.doing.Inserted? && tx.doing.id == id))
  }

  lemma LocalKeepsApart(s: Sys, w: nat, tx: Tx, next: nat, id: nat)
    requires Apart(s, id) && s.nextId <= next && Tidy(tx, id)
    requires Uses(tx, id) ==> (w in s.txs && Uses(s.txs[w], id)) || id == s.nextId < next
    requires Apart(s, s.nextId)
    ensures Apart(Goes(s, w, tx).(nextId := next), id)
  {
  }

  lemma CommitKeepsApart(s: Sys, w: nat, id: nat)
    requires Apart(s, id) && w in s.txs
    ensures Apart(DoCommit(s, w, s.txs[w]), id)
  {
    assert id in s.txs[w].rows ==> Uses(s.txs[w], id);
  }

  lemma WithinStaysTidy(s: Sys, w: nat, tx: Tx, step: Step, id: nat)
    requires Tidy(tx, id) && !Uses(tx, s.nextId)
    ensures Tidy(Within(s, w, tx, step), id)
    ensures Uses(Within(s, w, tx, step), id) ==> Uses(tx, id) || (id == s.nextId && step.Insert? && tx.doing.Bumped?)
  {
  }

  lemma ApartKept(s: Sys, step: Step, id: nat)
    requires Apart(s, id) && Apart(s, s.nextId)
    ensures Apart(Apply(s, step), id)
  {
    hide Within;
    if step.Commit? && step.w in s.txs {
      CommitKeepsApart(s, step.w, id);
    } else if step.Begin? && step.w !in s.txs {
      LocalKeepsApart(s, step.w, NEW_TX, s.nextId, id);
    } else if Local(step) && step.w in s.txs {
      WithinStaysTidy(s, step.w, s.txs[step.w], step, id);
      LocalKeepsApart(s, step.w, Within(s, step.w, s.txs[step.w], step), Apply(s, step).nextId, id);
    }
  }

  /** Every written event has exactly one dispatch, if there is a hook. */
  ghost predicate Dispatched(s: Sys, id: nat) {
    && (id in s.events && s.dispatching ==> id in s.dispatches && s.dispatches[id] == 1)
    && (forall w :: w in s.txs && id in s.txs[w].rows && s.dispatching ==>
      id in s.txs[w].staged && s.txs[w].staged[id] == 1)
  }

  predicate StagedOnce(tx: Tx, id: nat) { id in tx.rows ==> id in tx.staged && tx.staged[id] == 1 }

  lemma LocalKeepsDispatched(s: Sys, w: nat, tx: Tx, next: nat, id: nat)
    requires Dispatched(s, id) && (s.dispatching ==> StagedOnce(tx, id))
    ensures Dispatched(Goes(s, w, tx).(nextId := next), id)
  {
  }

  lemma WithinStagesOnce(s: Sys, w: nat, tx: Tx, step: Step, id: nat)
    requires Tidy(tx, id) && StagedOnce(tx, id) && s.dispatching
    ensures StagedOnce(Within(s, w, tx, step), id)
  {
  }

  lemma CommitKeepsDispatched(s: Sys, w: nat, id: nat)
    requires Apart(s, id) && Dispatched(s, id) && w in s.txs
    ensures Dispatched(DoCommit(s, w, s.txs[w]), id)
  {
    assert id in s.txs[w].rows ==> Uses(s.txs[w], id);
  }

  lemma DispatchedKept(s: Sys, step: Step, id: nat)
    requires Apart(s, id) && Dispatched(s, id)
    ensures Dispatched(Apply(s, step), id)
  {
    hide Within;
    if step.Commit? && step.w in s.txs {
      CommitKeepsDispatched(s, step.w, id);
    } else if step.Begin? && step.w !in s.txs {
      LocalKeepsDispatched(s, step.w, NEW_TX, s.nextId, id);
    } else if Local(step) && step.w in s.txs {
      if s.dispatching {
        WithinStagesOnce(s, step.w, s.txs[step.w], step, id);
      }
      LocalKeepsDispatched(s, step.w, Within(s, step.w, s.txs[step.w], step), Apply(s, step).nextId, id);
    }
  }

  // ---------------------------------------------------------------- the numbers of one call

  ghost predicate Ascending(ids: seq<nat>) { forall i, j :: 0 <= i < j < |ids| ==> ids[i] < ids[j] }

  /** The events `ids` of the call carry the numbers after `base`, in order. */
  ghost predicate Chain(ids: seq<nat>, rows: map<nat, Row>, call: string, base: nat) {
    forall k :: 0 <= k < |ids| ==> ids[k] in rows && rows[ids[k]] == Row(call, base + k + 1)
  }

  /** And they are all of its events. */
  ghost predicate All(ids: seq<nat>, rows: map<nat, Row>, call: string, base: nat) {
    forall id :: id in rows && rows[id].call == call ==>
      base < rows[id].number <= base + |ids| && ids[rows[id].number - base - 1] == id
  }

  ghost predicate Numbered(s: Sys, call: string) {
    && (call in s.calls <==> call in s.index)
    && (call !in s.calls ==> All([], s.events, call, 0))
    && (call in s.calls ==>
          |s.index[call]| == s.calls[call] && Chain(s.index[call], s.events, call, 0)
            && All(s.index[call], s.events, call, 0)
          && Ascending(s.index[call]))
  }

  /** What a transaction has written for the call continues what is committed. */
  ghost predicate Continues(s: Sys, call: string, tx: Tx) {
    && (call in tx.seqs <==> call in tx.own)
    && (Locks(tx, call) ==> call in s.calls)
    && (call in tx.seqs ==> call in s.calls && tx.seqs[call] == s.calls[call] + |tx.own[call]|)
    && (call !in s.calls ==> All([], tx.rows, call, 0))
    && (call in s.calls && call in s.index ==>
          Chain(Own(tx, call), tx.rows, call, s.calls[call]) && All(Own(tx, call), tx.rows, call, s.calls[call])
          && Ascending(s.index[call] + Own(tx, call))
          && (!tx.doing.Between? && tx.doing.call == call ==> tx.doing.number == s.calls[call] + |Own(tx, call)| + 1)
          && (tx.doing.Inserted? && tx.doing.call == call ==> Ascending(s.index[call] + Own(tx, call) + [tx.doing.id])))
  }

  /** Only one transaction at a time works on the call. */
  ghost predicate Exclusive(s: Sys, call: string) {
    forall w, v :: w in s.txs && v in s.txs && w != v && Locks(s.txs[w], call) ==> !Locks(s.txs[v], call)
  }

  ghost predicate AllApart(s: Sys) { forall id: nat :: Apart(s, id) }

  /** The new id comes after everything the call has. */
  lemma NewIdIsLast(s: Sys, w: nat, call: string)
    requires AllApart(s) && Numbered(s, call) && w in s.txs && Continues(s, call, s.txs[w]) && call in s.calls
    ensures Ascending(s.index[call] + Own(s.txs[w], call) + [s.nextId])
  {
    var tx := s.txs[w];
    var ids := s.index[call] + Own(tx, call);
    forall k | 0 <= k < |ids|
      ensures ids[k] < s.nextId
    {
      assert Apart(s, ids[k]);
      if k >= |s.index[call]| {
        assert Own(tx, call)[k - |s.index[call]|] in tx.rows;
        assert Uses(tx, ids[k]);
      }
    }
  }

  lemma WriteKeepsChain(ids: seq<nat>, rows: map<nat, Row>, call: string, base: nat, c: string, n: nat, id: nat)
    requires Chain(ids, rows, call, base) && All(ids, rows, call, base) && id !in rows
    requires c == call ==> n == base + |ids| + 1
    ensures var t, own := rows[id := Row(c, n)], if c == call then ids + [id] else ids;
      Chain(own, t, call, base) && All(own, t, call, base)
  {
  }

  /** What a write means for one call. */
  lemma WriteShows(dispatching: bool, tx: Tx, call: string, c: string, n: nat, id: nat)
    requires call != ""
    ensures var t := Write(dispatching, tx, c, n, id);
      && Own(t, call) == (if c == call then Own(tx, call) + [id] else Own(tx, call))
      && t.rows == tx.rows[id := Row(c, n)] && t.doing == Between
      && (call in t.seqs <==> call in tx.seqs || c == call) && (call in t.own <==> call in tx.own || c == call)
      && (c == call ==> t.seqs[call] == n) && (c != call && call in tx.seqs ==> t.seqs[call] == tx.seqs[call])
  {
  }

  lemma WriteContinues(s: Sys, call: string, tx: Tx, c: string, n: nat, id: nat)
    requires call != "" && Continues(s, call, tx) && Numbered(s, call)
    requires tx.doing == Inserted(c, n, id) && id !in tx.rows
    ensures Continues(s, call, Write(s.dispatching, tx, c, n, id))
  {
    hide Write, Chain, Ascending;
    WriteShows(s.dispatching, tx, call, c, n, id);
    if call in s.calls {
      WriteKeepsChain(Own(tx, call), tx.rows, call, s.calls[call], c, n, id);
      hide All;
      assert s.index[call] + (Own(tx, call) + [id]) == s.index[call] + Own(tx, call) + [id];
    }
  }

  lemma WithinContinues(s: Sys, call: string, w: nat, step: Step)
    requires call != "" && AllApart(s) && Numbered(s, call) && Local(step) && w in s.txs && Continues(s, call, s.txs[w])
    ensures Continues(s, call, Within(s, w, s.txs[w], step))
  {
    var tx := s.txs[w];
    if step.Stage? && tx.doing.Inserted? {
      assert Apart(s, tx.doing.id);
      WriteContinues(s, call, tx, tx.doing.call, tx.doing.number, tx.doing.id);
    } else if step.Insert? && tx.doing.Bumped? && tx.doing.call == call {
      NewIdIsLast(s, w, call);
    }
  }

  lemma WithinLocks(s: Sys, call: string, w: nat, tx: Tx, step: Step)
    requires call != ""
    ensures Locks(Within(s, w, tx, step), call) ==> Locks(tx, call) || Free(s, w, call)
  {
  }

  lemma WithinStaysExclusive(s: Sys, call: string, w: nat, step: Step)
    requires call != "" && Exclusive(s, call) && w in s.txs
    ensures Exclusive(Goes(s, w, Within(s, w, s.txs[w], step)), call)
  {
    hide Within, Locks;
    WithinLocks(s, call, w, s.txs[w], step);
  }

  ghost predicate Inv(s: Sys, call: string) {
    Numbered(s, call) && Exclusive(s, call) && forall w :: w in s.txs ==> Continues(s, call, s.txs[w])
  }

  lemma CommittedRowsStay(s: Sys, w: nat, id: nat)
    requires Apart(s, id) && w in s.txs
    ensures id in s.events ==> id !in s.txs[w].rows
  {
    assert id in s.txs[w].rows ==> Uses(s.txs[w], id);
  }

  lemma ChainsJoin(ids: seq<nat>, own: seq<nat>, events: map<nat, Row>, rows: map<nat, Row>, call: string)
    requires forall id :: id in events ==> id !in rows
    requires Chain(ids, events, call, 0) && Chain(own, rows, call, |ids|)
    requires All(ids, events, call, 0) && All(own, rows, call, |ids|)
    ensures Chain(ids + own, events + rows, call, 0) && All(ids + own, events + rows, call, 0)
  {
    forall id | id in events + rows && (events + rows)[id].call == call
      ensures 0 < (events + rows)[id].number <= |ids + own| && (ids + own)[(events + rows)[id].number - 1] == id
    {
      if id in rows {
        assert own[rows[id].number - |ids| - 1] == id;
      } else {
        assert ids[events[id].number - 1] == id;
      }
    }
  }

  lemma CommitNumbers(s: Sys, call: string, w: nat)
    requires call != "" && AllApart(s) && Numbered(s, call) && w in s.txs && Continues(s, call, s.txs[w])
    ensures Numbered(DoCommit(s, w, s.txs[w]), call)
  {
    forall id | id in s.events
      ensures id !in s.txs[w].rows
    {
      assert Apart(s, id);
      CommittedRowsStay(s, w, id);
    }
    if call in s.calls {
      ChainsJoin(s.index[call], Own(s.txs[w], call), s.events, s.txs[w].rows, call);
    }
    hide Chain, AllApart;
  }

  lemma CommitLeavesOthers(s: Sys, call: string, w: nat, v: nat)
    requires call != "" && Inv(s, call) && w in s.txs && v in s.txs && v != w
      && Numbered(DoCommit(s, w, s.txs[w]), call)
    ensures Continues(DoCommit(s, w, s.txs[w]), call, s.txs[v])
  {
    var t := DoCommit(s, w, s.txs[w]);
    assert Continues(s, call, s.txs[w]) && Continues(s, call, s.txs[v]);
    if call in s.txs[w].seqs {
      assert Locks(s.txs[w], call) && !Locks(s.txs[v], call);
      assert Own(s.txs[v], call) == [];
      assert t.index[call] + Own(s.txs[v], call) == t.index[call];
    } else if call in s.calls {
      assert Own(s.txs[w], call) == [];
      assert t.index[call] == s.index[call];
    }
  }

  lemma CommitKeeps(s: Sys, call: string, w: nat)
    requires call != "" && AllApart(s) && Inv(s, call) && w in s.txs
    ensures Inv(DoCommit(s, w, s.txs[w]), call)
  {
    hide Numbered, Continues, AllApart, DoCommit, Locks;
    CommitNumbers(s, call, w);
    var t := DoCommit(s, w, s.txs[w]);
    assert t.txs == s.txs - {w} by {
      CommitEnds(s, w);
    }
    forall v | v in t.txs
      ensures Continues(t, call, t.txs[v])
    {
      CommitLeavesOthers(s, call, w, v);
    }
  }

  lemma CommitEnds(s: Sys, w: nat)
    requires w in s.txs
    ensures DoCommit(s, w, s.txs[w]).txs == s.txs - {w}
  {
  }

  lemma LocalKeeps(s: Sys, call: string, step: Step)
    requires call != "" && AllApart(s) && Inv(s, call) && Local(step) && step.w in s.txs
    ensures Inv(Continue(s, step), call)
  {
    hide Within, AllApart, Locks;
    WithinContinues(s, call, step.w, step);
    WithinStaysExclusive(s, call, step.w, step);
    var t := Continue(s, step);
    forall v | v in t.txs
      ensures Continues(t, call, t.txs[v])
    {
      assert v == step.w || Continues(s, call, s.txs[v]);
    }
  }

  lemma BeginKeeps(s: Sys, call: string, w: nat)
    requires call != "" && Inv(s, call) && w !in s.txs
    ensures Inv(Goes(s, w, NEW_TX), call)
  {
    var t := Goes(s, w, NEW_TX);
    assert call in s.calls ==> s.index[call] + [] == s.index[call];
    forall v | v in t.txs
      ensures Continues(t, call, t.txs[v])
    {
      assert v == w || Continues(s, call, s.txs[v]);
    }
  }

  lemma NewCallContinues(s: Sys, call: string, c: string, tx: Tx)
    requires call != "" && c != "" && c !in s.calls && Continues(s, call, tx)
    ensures Continues(s.(calls := s.calls[c := 0], index := s.index[c := []]), call, tx)
  {
  }

  lemma NewCallKeeps(s: Sys, call: string, c: string)
    requires call != "" && Inv(s, call)
    ensures Inv(Apply(s, NewCall(c)), call)
  {
    if c != "" && c !in s.calls {
      var t := Apply(s, NewCall(c));
      forall v | v in t.txs
        ensures Continues(t, call, t.txs[v])
      {
        NewCallContinues(s, call, c, s.txs[v]);
      }
    }
  }

  lemma Kept(s: Sys, call: string, step: Step)
    requires call != "" && AllApart(s) && Inv(s, call)
    ensures Inv(Apply(s, step), call)
  {
    hide DoCommit, Continue, AllApart, Numbered, Continues;
    match step
    case NewCall(c) => NewCallKeeps(s, call, c);
    case Begin(w) =>
      if w !in s.txs {
        BeginKeeps(s, call, w);
      }
    case Commit(w) =>
      if w in s.txs && s.txs[w].doing.Between? {
        CommitKeeps(s, call, w);
      }
    case Abort(w) => AbortKeeps(s, call, w);
    case _ =>
      if step.w in s.txs {
        LocalKeeps(s, call, step);
      }
  }

  lemma AbortKeeps(s: Sys, call: string, w: nat)
    requires Inv(s, call)
    ensures Inv(s.(txs := s.txs - {w}), call)
  {
    var t := s.(txs := s.txs - {w});
    forall v | v in t.txs
      ensures Continues(t, call, t.txs[v])
    {
      assert Continues(s, call, s.txs[v]);
    }
  }

  lemma {:induction false} AlwaysApart(dispatching: bool, steps: seq<Step>, n: nat)
    requires n <= |steps|
    ensures AllApart(After(dispatching, steps, n)) && forall id: nat :: Dispatched(After(dispatching, steps, n), id)
  {
    if n == 0 {
    } else {
      hide Apply, Apart, Dispatched;
      AlwaysApart(dispatching, steps, n - 1);
      var s, step := After(dispatching, steps, n - 1), steps[n - 1];
      var t := Apply(s, step);
      forall id: nat
        ensures Apart(t, id) && Dispatched(t, id)
      {
        assert Apart(s, id) && Apart(s, s.nextId) && Dispatched(s, id);
        ApartKept(s, step, id);
        DispatchedKept(s, step, id);
      }
    }
  }

  lemma {:induction false} Always(dispatching: bool, steps: seq<Step>, n: nat, call: string)
    requires n <= |steps| && call != ""
    ensures Inv(After(dispatching, steps, n), call)
  {
    if n == 0 {
    } else {
      hide Apply, Apart, Dispatched, Inv;
      Always(dispatching, steps, n - 1, call);
      AlwaysApart(dispatching, steps, n - 1);
      Kept(After(dispatching, steps, n - 1), call, steps[n - 1]);
    }
  }

  // ---------------------------------------------------------------- what it comes to

  ghost predicate Carried(s: Sys, call: string, k: nat) { exists id :: id in s.events && s.events[id] == Row(call, k) }

  /** The committed events of a call carry exactly the numbers 1 to its counter, each once. */
  lemma NumbersAreExact(dispatching: bool, steps: seq<Step>, n: nat, call: string)
    requires n <= |steps| && call != ""
    ensures var s := After(dispatching, steps, n);
      && (forall id :: id in s.events && s.events[id].call == call ==>
        call in s.calls && 1 <= s.events[id].number <= s.calls[call])
      && (call in s.calls ==> forall k: nat :: 1 <= k <= s.calls[call] ==> Carried(s, call, k))
      && (forall i, j :: i in s.events && j in s.events && s.events[i] == s.events[j] && s.events[i].call == call ==>
            i == j)
  {
    hide After;
    Always(dispatching, steps, n, call);
    var s := After(dispatching, steps, n);
    if call in s.calls {
      forall k: nat | 1 <= k <= s.calls[call]
        ensures Carried(s, call, k)
      {
        assert s.events[s.index[call][k - 1]] == Row(call, k);
      }
    }
  }

  /** Ids and numbers order the events of a call alike, so a reader that goes by ids sees them in order. */
  lemma IdsFollowNumbers(dispatching: bool, steps: seq<Step>, n: nat, call: string, i: nat, j: nat)
    requires n <= |steps| && call != ""
    requires var s := After(dispatching, steps, n);
      i in s.events && j in s.events && s.events[i].call == s.events[j].call == call
        && s.events[i].number < s.events[j].number
    ensures i < j
  {
    hide After;
    Always(dispatching, steps, n, call);
  }

  /** Every committed event has exactly one dispatch, and no dispatch lacks its event. */
  lemma OneDispatchEach(steps: seq<Step>, n: nat, id: nat)
    requires n <= |steps|
    ensures var s := After(true, steps, n);
      (id in s.events <==> id in s.dispatches) && (id in s.events ==> s.dispatches[id] == 1)
  {
    hide After;
    AlwaysApart(true, steps, n);
    HookStays(true, steps, n);
    assert Apart(After(true, steps, n), id) && Dispatched(After(true, steps, n), id);
  }

  lemma StepKeepsHook(s: Sys, step: Step)
    ensures Apply(s, step).dispatching == s.dispatching
  {
    hide Within;
  }

  lemma {:induction false} HookStays(dispatching: bool, steps: seq<Step>, n: nat)
    requires n <= |steps|
    ensures After(dispatching, steps, n).dispatching == dispatching
  {
    if n == 0 {
    } else {
      hide Apply;
      HookStays(dispatching, steps, n - 1);
      StepKeepsHook(After(dispatching, steps, n - 1), steps[n - 1]);
    }
  }
}
