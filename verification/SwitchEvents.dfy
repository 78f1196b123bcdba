/** Events from the switch: an inbox that deduplicates, projections, an outbox, dead letters, delivery. */
module SwitchEvents {
  import opened Seqs

  /** Event ids are 64-bit integers. */
  type Int64 = x: int | -0x8000_0000_0000_0000 <= x < 0x8000_0000_0000_0000

  datatype Json = Number(n: int) | Text(text: string)

  /** An agent's new state, its reason and the time of the event. */
  datatype Routing = Routing(state: string, reason: string, at: int)

  /** `routing` is what decoding the event gives of that, None if it fails. */
  datatype Event = Event(id: Int64, kind: string, callId: string, agentId: string, callSeq: int, version: int,
                         payload: map<string, Json>, targetOnly: bool, routing: Option<Routing>)

  datatype CallEvent = CallEvent(kind: string, callId: string, agentId: string, payload: map<string, Json>)

  datatype Out = Out(payload: CallEvent, delivered: bool)

  datatype AgentRow = AgentRow(agentId: string, state: string, reason: string, at: int)

  datatype Failures = Failures(count: nat, dead: bool)

  /** The tables. `applied` lists the events whose projection is part of a committed transaction, in that order;
      `published` is what the hub has been given. */
  datatype Store = Store(inbox: set<Int64>, outbox: map<Int64, Out>, cursor: Int64, agents: map<Int64, AgentRow>,
                         failures: map<Int64, Failures>, applied: seq<Int64>, published: seq<CallEvent>)

  const ROUTING := "agent.routing_state_changed"
  const ACTION := "business_action.requested"
  const MAX_FAILURES: nat := 12
  const PASS: nat := 100

  /** How a transaction ends: it commits, it does not, or it does and its caller is told that it did not. */
  datatype Fate = Commits | Aborts | CommitsUnheard

  // ---------------------------------------------------------------- one event

  /** What subscribers get. Events meant for an agent alone do not name the call. */
  function Pack(ev: Event): CallEvent {
    CallEvent(ev.kind, if ev.targetOnly then "" else ev.callId, ev.agentId,
              ev.payload["switch_event_id" := Number(ev.id)]["switch_call_seq" := Number(ev.callSeq)]["version" :=
                Number(ev.version)])
  }

  predicate Projects(ev: Event) { ev.kind == ROUTING ==> ev.routing.Some? }

  function Project(agents: map<Int64, AgentRow>, ev: Event): map<Int64, AgentRow>
    requires Projects(ev)
  {
    if ev.kind == ROUTING && ev.id !in agents
    then agents[ev.id := AgentRow(ev.agentId, ev.routing.value.state, ev.routing.value.reason, ev.routing.value.at)]
      else agents
  }

  function Max(a: Int64, b: Int64): Int64 { if a < b then b else a }

  /** A new event goes in. */
  function Admit(s: Store, ev: Event): Store
    requires Projects(ev)
  {
    s.(inbox := s.inbox + {ev.id}, outbox := s.outbox[ev.id := Out(Pack(ev), false)], cursor := Max(s.cursor, ev.id),
       agents := Project(s.agents, ev), failures := s.failures - {ev.id}, applied := s.applied + [ev.id])
  }

  /** The transaction, and what its caller learns. */
  function Transact(s: Store, ev: Event, fate: Fate): (Store, bool) {
    if fate.Aborts? then (s, false)
    else if ev.id in s.inbox then (s, fate.Commits?)
    else if !Projects(ev) || ev.id in s.outbox then (s, false)
    else (Admit(s, ev), fate.Commits?)
  }

  function CountFailure(fs: map<Int64, Failures>, id: Int64): Failures {
    if id !in fs then Failures(1, false)
    else Failures(fs[id].count + 1, fs[id].count + 1 >= MAX_FAILURES || fs[id].dead)
  }

  function WithFailure(fs: map<Int64, Failures>, id: Int64, db: Db): (r: map<Int64, Failures>)
    ensures !db.Broken? ==> id in r
  {
    if db.Broken? then fs else fs[id := CountFailure(fs, id)]
  }

  predicate Dead(s: Store, id: Int64) { id in s.failures && s.failures[id].dead }

  // ---------------------------------------------------------------- what a committed event leaves

  const OWN_KEYS: set<string> := {"switch_event_id", "switch_call_seq", "version"}

  /** What subscribers are told of an event: all that is in it, its numbers under keys of their own, and its call unless
      the event is for an agent alone. */
  predicate Announces(p: CallEvent, ev: Event) {
    && p.kind == ev.kind && p.agentId == ev.agentId
    && (ev.targetOnly ==> p.callId == "") && (!ev.targetOnly ==> p.callId == ev.callId)
    && p.payload.Keys == ev.payload.Keys + OWN_KEYS
    && p.payload["switch_event_id"] == Number(ev.id) && p.payload["switch_call_seq"] == Number(ev.callSeq)
    && p.payload["version"] == Number(ev.version)
    && (forall key :: key in ev.payload && key !in OWN_KEYS ==> p.payload[key] == ev.payload[key])
  }

  /** The row about the agent that a routing event leaves. */
  predicate Tells(row: AgentRow, ev: Event) {
    && row.agentId == ev.agentId
    && ev.routing == Some(Routing(row.state, row.reason, row.at))
  }

  lemma KeysDiffer()
    ensures "switch_event_id" != "switch_call_seq" && "switch_event_id" != "version" && "switch_call_seq" != "version"
  {
    assert "switch_event_id"[7] != "switch_call_seq"[7] && "version"[0] != "switch_event_id"[0];
  }

  lemma PackAnnounces(ev: Event)
    ensures Announces(Pack(ev), ev)
  {
    KeysDiffer();
  }

  /** Admitting an event changes one row of each table, and only these. */
  lemma AdmitLeaves(s: Store, ev: Event)
    requires Projects(ev)
    ensures var t := Admit(s, ev);
      && t.inbox == s.inbox + {ev.id} && t.outbox.Keys == s.outbox.Keys + {ev.id}
      && Announces(t.outbox[ev.id].payload, ev) && !t.outbox[ev.id].delivered
      && (forall id :: id in s.outbox && id != ev.id ==> t.outbox[id] == s.outbox[id])
      && (ev.kind == ROUTING && ev.id !in s.agents ==>
            ev.id in t.agents && Tells(t.agents[ev.id], ev) && t.agents.Keys == s.agents.Keys + {ev.id})
      && (ev.kind != ROUTING || ev.id in s.agents ==> t.agents == s.agents)
      && (forall id :: id in s.agents ==> id in t.agents && t.agents[id] == s.agents[id])
      && t.cursor == (if s.cursor < ev.id then ev.id else s.cursor)
      && t.failures == s.failures - {ev.id} && t.published == s.published
  {
    PackAnnounces(ev);
    hide Pack, Announces;
  }

  /** A transaction takes effect exactly if it is not aborted and brings a new event that can be projected; otherwise it
      changes nothing. Its caller is told so exactly if it hears of a commit and the event is in the inbox. */
  lemma CommitsExactlyNewEvents(s: Store, ev: Event, fate: Fate)
    ensures var (t, ok) := Transact(s, ev, fate);
      && (t.inbox != s.inbox <==> !fate.Aborts? && ev.id !in s.inbox && ev.id !in s.outbox && Projects(ev))
      && (if t.inbox == s.inbox then t == s else t == Admit(s, ev))
      && (ok <==> fate.Commits? && ev.id in t.inbox)
  {
  }

  // ---------------------------------------------------------------- delivery

  ghost function Undelivered(s: Store): set<Int64> { set id | id in s.outbox && !s.outbox[id].delivered }

  predicate Ascending(rows: seq<Int64>) { forall i, j :: 0 <= i < j < |rows| ==> rows[i] < rows[j] }

  /** The oldest undelivered rows that no other pass has locked, at most `PASS` of them. */
  ghost predicate Oldest(s: Store, locked: set<Int64>, rows: seq<Int64>) {
    && Ascending(rows) && |rows| <= PASS
    && (forall id :: id in rows ==> id in Undelivered(s) - locked)
    && (forall id :: id in Undelivered(s) - locked && id !in rows ==> |rows| == PASS && forall r :: r in rows ==>
      r < id)
  }

  function Payloads(s: Store, rows: seq<Int64>): seq<CallEvent>
    requires forall id :: id in rows ==> id in s.outbox
  {
    if rows == [] then []
    else
      var last := rows[|rows| - 1];
      Payloads(s, rows[..|rows| - 1]) + [s.outbox[last].payload]
  }

  function Marked(outbox: map<Int64, Out>, rows: seq<Int64>): map<Int64, Out> {
    map id | id in outbox :: if id in rows then outbox[id].(delivered := true) else outbox[id]
  }

  /** A pass that published the first `sent` of its rows. Unless it got through all of them it rolls back. */
  function Pass(s: Store, rows: seq<Int64>, sent: nat, fate: Fate): (Store, bool)
    requires sent <= |rows| && forall id :: id in rows ==> id in s.outbox
  {
    var t := s.(published := s.published + Payloads(s, rows[..sent]));
    if sent < |rows| || fate.Aborts? then (t, false) else (t.(outbox := Marked(s.outbox, rows)), fate.Commits?)
  }

  // ---------------------------------------------------------------- the program

  datatype Reply = Accepted | DeadLetter | Error

  /** What a callback leaves in the tables and is told, when nothing interrupts it. */
  function Called(s: Store, ev: Event, readable: bool, fate: Fate, record: Db, actions: bool, handled: bool):
      (Store, Reply)
  {
    if ev.id <= 0 then (s, Error)
    else if readable && Dead(s, ev.id) then (s, DeadLetter)
    else
      var (t, ok) := Transact(s, ev, fate);
      if ok then (t, if actions && ev.kind == ACTION && !handled then Error else Accepted)
      else
        var u := t.(failures := WithFailure(t.failures, ev.id, record));
        (u, if record.Fine? && u.failures[ev.id].count >= MAX_FAILURES then DeadLetter else Error)
  }

  /** What the reply to a callback says: accepted, that the event is stored and a requested action was carried out; dead
      letter, that the event has failed for good; and an error, that the switch has to send the event again. */
  lemma RepliesMeanWhatTheySay(s: Store, ev: Event, readable: bool, fate: Fate, record: Db, actions: bool,
      handled: bool)
    ensures var (t, reply) := Called(s, ev, readable, fate, record, actions, handled);
      var buried := readable && Dead(s, ev.id);
      && (reply.Accepted? <==>
            && ev.id > 0 && !buried && fate.Commits? && ev.id in t.inbox
            && (actions && ev.kind == "business_action.requested" ==> handled))
      && (reply.DeadLetter? <==>
            ev.id > 0
            && (buried || (!(fate.Commits? && ev.id in t.inbox) && record.Fine? && t.failures[ev.id].count >= 12)))
      && (ev.id <= 0 || buried ==> t == s)
      && (ev.id > 0 && !buried && !(fate.Commits? && ev.id in t.inbox) && !record.Broken? ==>
            ev.id in t.failures && t.failures[ev.id].count
            == 1 + if ev.id in s.failures && ev.id in (t.inbox - s.inbox) then 0
                   else if ev.id in s.failures then s.failures[ev.id].count else 0)
  {
    CommitsExactlyNewEvents(s, ev, fate);
    hide Transact;
  }

  /** Which statements of the transaction work, and how it ends. */
  datatype Env = Env(lock: bool, insert: bool, project: bool, clear: bool, create: bool, update: bool, end: Fate)

  function FateOf(env: Env, known: bool): Fate {
    if env.lock && env.insert && (known || (env.project && env.clear && env.create && env.update)) then env.end
      else Aborts
  }

  /** An event goes in only if every statement of its transaction works, and none does anything by itself; one that is
      known needs only the lock and the insertion that finds it. */
  lemma CommitNeedsEveryStatement(s: Store, ev: Event, env: Env)
    ensures var (t, ok) := Transact(s, ev, FateOf(env, ev.id in s.inbox));
      && (t != s <==>
            && env.lock && env.insert && env.project && env.clear && env.create && env.update && !env.end.Aborts?
            && ev.id !in s.inbox && ev.id !in s.outbox && Projects(ev))
      && (ok <==> env.lock && env.insert && env.end.Commits? && (ev.id in s.inbox || t != s))
  {
    CommitsExactlyNewEvents(s, ev, FateOf(env, ev.id in s.inbox));
  }

  class SwitchStore {
    var inbox: set<Int64>
    var outbox: map<Int64, Out>
    var cursor: Int64
    var agents: map<Int64, AgentRow>
    var failures: map<Int64, Failures>
    var applied: seq<Int64>
    var published: seq<CallEvent>

    constructor (s: Store)
      ensures View() == s
    {
      inbox, outbox, cursor, agents, failures := s.inbox, s.outbox, s.cursor, s.agents, s.failures;
      applied, published := s.applied, s.published;
    }

    function View(): Store
      reads this
    {
      Store(inbox, outbox, cursor, agents, failures, applied, published)
    }

    /** The statements of the transaction one by one; the fields change only when it commits. */
    method CommitSwitchEvent(ev: Event, env: Env) returns (ok: bool)
      modifies this
      ensures (View(), ok) == Transact(old(View()), ev, FateOf(env, ev.id in old(inbox)))
    {
      if !env.lock || !env.insert {
        return false;
      }
      if ev.id in inbox {
        return env.end.Commits?;
      }
      if !env.project || !Projects(ev) {
        return false;
      }
      var agents' := agents;
      if ev.kind == ROUTING && ev.id !in agents {
        var r := ev.routing.value;
        agents' := agents[ev.id := AgentRow(ev.agentId, r.state, r.reason, r.at)];
      }
      if !env.clear {
        return false;
      }
      var callId := ev.callId;
      if ev.targetOnly {
        callId := "";
      }
      var payload := ev.payload;
      payload := payload["switch_event_id" := Number(ev.id)];
      payload := payload["switch_call_seq" := Number(ev.callSeq)];
      payload := payload["version" := Number(ev.version)];
      if !env.create || ev.id in outbox || !env.update || env.end.Aborts? {
        return false;
      }
      inbox, agents, failures, applied := inbox + {ev.id}, agents', failures - {ev.id}, applied + [ev.id];
      outbox := outbox[ev.id := Out(CallEvent(ev.kind, callId, ev.agentId, payload), false)];
      cursor := if cursor < ev.id then ev.id else cursor;
      ok := env.end.Commits?;
    }

    /** Counts a failure; the caller learns that the event is dead only if it gets the reply. */
    method RecordProjectionFailure(id: Int64, db: Db) returns (dead: bool)
      modifies this`failures
      ensures View() == old(View()).(failures := WithFailure(old(failures), id, db))
      ensures dead <==> db.Fine? && failures[id].count >= MAX_FAILURES
    {
      if db.Broken? {
        return false;
      }
      if id !in failures {
        failures := failures[id := Failures(1, false)];
      } else {
        var f := failures[id];
        failures := failures[id := Failures(f.count + 1, if f.count + 1 >= MAX_FAILURES then true else f.dead)];
      }
      dead := db.Fine? && failures[id].count >= MAX_FAILURES;
    }

    /** A callback that nothing interrupts. */
    method SwitchEventHTTP(ev: Event, readable: bool, env: Env, record: Db, actions: bool, handled: bool)
        returns (reply: Reply)
      modifies this
      ensures (View(), reply)
           == Called(old(View()), ev, readable, FateOf(env, ev.id in old(inbox)), record, actions, handled)
    {
      hide Transact, FateOf, WithFailure;
      if ev.id <= 0 {
        return Error;
      }
      if readable && ev.id in failures && failures[ev.id].dead {
        return DeadLetter;
      }
      var ok := CommitSwitchEvent(ev, env);
      if !ok {
        var dead := RecordProjectionFailure(ev.id, record);
        return if dead then DeadLetter else Error;
      }
      if actions && ev.kind == ACTION && !handled {
        return Error;
      }
      reply := Accepted;
    }

    /** The rows of a pass, oldest first. */
    method SelectRows(locked: set<Int64>) returns (rows: seq<Int64>)
      ensures Oldest(View(), locked, rows)
    {
      rows := [];
      var rest := (set id | id in outbox && !outbox[id].delivered) - locked;
      while rest != {} && |rows| < PASS
        invariant Ascending(rows) && |rows| <= PASS
        invariant forall id :: id in rows ==> id in Undelivered(View()) - locked
        invariant forall id :: id in rest ==> id in Undelivered(View()) - locked
        invariant forall id, k :: id in rest && 0 <= k < |rows| ==> rows[k] < id
        invariant forall id :: id in Undelivered(View()) - locked ==> id in rows || id in rest
        decreases |rest|
      {
        var least := Least(rest);
        rows := rows + [least];
        rest := rest - {least};
      }
    }

    /** `publishable` and `markable` say for which rows publishing and marking work. */
    method DeliverSwitchEvents(locked: set<Int64>, publishable: set<Int64>, markable: set<Int64>, end: Fate)
      returns (ok: bool, ghost rows: seq<Int64>, ghost sent: nat, ghost fate: Fate)
      modifies this`outbox, this`published
      ensures Oldest(old(View()), locked, rows) && sent <= |rows| && forall id :: id in rows ==> id in old(outbox)
      ensures (View(), ok) == Pass(old(View()), rows, sent, fate)
      ensures ok <==> end.Commits? && forall id :: id in rows ==> id in publishable && id in markable
      ensures ok ==> forall id :: id in rows ==> outbox[id].delivered && outbox[id].payload in published
      ensures if forall id :: id in rows ==> id in publishable && id in markable then sent == |rows|
        && fate == end else fate == Aborts
    {
      var todo := SelectRows(locked);
      RowsExist(View(), locked, todo);
      rows := todo;
      var out, marked, i := SendRows(outbox, todo, publishable, markable);
      sent, fate := |out|, if i < |todo| then Aborts else end;
      PayloadsOf(View(), todo, out);
      published := published + out;
      if i == |todo| && !end.Aborts? {
        outbox := marked;
      }
      ok := i == |todo| && end.Commits?;
    }
  }

  lemma RowsExist(s: Store, locked: set<Int64>, rows: seq<Int64>)
    requires Oldest(s, locked, rows)
    ensures forall id :: id in rows ==> id in s.outbox
  {
  }

  lemma {:induction false} PayloadsOf(s: Store, rows: seq<Int64>, out: seq<CallEvent>)
    requires (forall id :: id in rows ==> id in s.outbox) && |out| <= |rows|
    requires forall k :: 0 <= k < |out| ==> rows[k] in s.outbox && out[k] == s.outbox[rows[k]].payload
    ensures Payloads(s, rows[..|out|]) == out
  {
    if out == [] {
    } else {
      var n := |out| - 1;
      PayloadsOf(s, rows, out[..n]);
      assert rows[..|out|][..n] == rows[..n];
    }
  }

  /** The loop over the rows of a pass: publishes and marks, and stops at the first row for which either fails. */
  method SendRows(outbox: map<Int64, Out>, rows: seq<Int64>, publishable: set<Int64>, markable: set<Int64>)
    returns (out: seq<CallEvent>, marked: map<Int64, Out>, done: nat)
    requires forall id :: id in rows ==> id in outbox
    ensures done <= |out| <= |rows| && |out| <= done + 1
    ensures forall k :: 0 <= k < |out| ==> rows[k] in outbox && out[k] == outbox[rows[k]].payload
    ensures done == |rows| <==> forall id :: id in rows ==> id in publishable && id in markable
    ensures done == |rows| ==> marked == Marked(outbox, rows)
  {
    out, marked, done := [], outbox, 0;
    while done < |rows|
      invariant |out| == done <= |rows|
      invariant forall k :: 0 <= k < done ==> rows[k] in publishable && rows[k] in markable
      invariant forall k :: 0 <= k < |out| ==> rows[k] in outbox && out[k] == outbox[rows[k]].payload
      invariant marked == Marked(outbox, rows[..done])
    {
      var id := rows[done];
      assert id in rows && rows[..done + 1] == rows[..done] + [id];
      if id !in publishable {
        return;
      }
      out := out + [outbox[id].payload];
      if id !in markable {
        return;
      }
      marked := marked[id := marked[id].(delivered := true)];
      done := done + 1;
    }
    assert rows[..|rows|] == rows;
  }

  method Least(s: set<Int64>) returns (least: Int64)
    requires s != {}
    ensures least in s && forall x :: x in s ==> least <= x
  {
    least :| least in s;
    var rest := s - {least};
    while rest != {}
      invariant rest <= s && least in s
      invariant forall x :: x in s && x !in rest ==> least <= x
      decreases |rest|
    {
      var x :| x in rest;
      if x < least {
        least := x;
      }
      rest := rest - {x};
    }
  }
}
