/** Interleaved callbacks, crashes and delivery passes over the event tables. */
module SwitchEventRuns {
  import opened Seqs
  import opened SwitchEvents

  /** Where the handling of a callback is. `handled` tells whether the business action succeeded in it. */
  datatype Phase =
    | Got(ev: Event)
    | Checked(ev: Event)    // not a dead letter
    | Stored(ev: Event)     // the transaction was reported to commit
    | Refused(ev: Event)    // it was reported to fail
    | Replied(ev: Event, reply: Reply, handled: bool)

  datatype Sys = Sys(store: Store, requests: map<nat, Phase>, actions: bool)

  datatype Step =
    | Arrive(r: nat, ev: Event)
    | Check(r: nat, readable: bool)
    | Commit(r: nat, fate: Fate)
    | Record(r: nat, db: Db)
    | Act(r: nat, handled: bool)
    | Crash(r: nat)
    | Deliver(rows: seq<Int64>, sent: nat, fate: Fate)

  function Goes(s: Sys, r: nat, p: Phase): Sys { s.(requests := s.requests[r := p]) }

  function DoCheck(s: Sys, r: nat, ev: Event, readable: bool): Sys {
    if ev.id <= 0 then Goes(s, r, Replied(ev, Error, false))
    else if readable && Dead(s.store, ev.id) then Goes(s, r, Replied(ev, DeadLetter, false))
    else Goes(s, r, Checked(ev))
  }

  function DoCommit(s: Sys, r: nat, ev: Event, fate: Fate): Sys {
    var (store, ok) := Transact(s.store, ev, fate);
    Goes(s.(store := store), r, if ok then Stored(ev) else Refused(ev))
  }

  function DoRecord(s: Sys, r: nat, ev: Event, db: Db): Sys {
    var dead := db.Fine? && CountFailure(s.store.failures, ev.id).count >= MAX_FAILURES;
    Goes(s.(store := s.store.(failures := WithFailure(s.store.failures, ev.id, db))), r,
         Replied(ev, if dead then DeadLetter else Error, false))
  }

  function DoAct(s: Sys, r: nat, ev: Event, handled: bool): Sys {
    if s.actions && ev.kind == ACTION && !handled then Goes(s, r, Replied(ev, Error, false))
    else Goes(s, r, Replied(ev, Accepted, s.actions && ev.kind == ACTION))
  }

  /** One step; a step that is not possible changes nothing. A pass may skip rows that others have locked, so any
      rows of the outbox may be its rows here. */
  function Apply(s: Sys, step: Step): Sys {
    match step
    case Arrive(r, ev) => if r in s.requests then s else Goes(s, r, Got(ev))
    case Check(r, readable) => if r in s.requests && s.requests[r].Got? then DoCheck(s, r, s.requests[r].ev, readable)
      else s
    case Commit(r, fate) => if r in s.requests && s.requests[r].Checked? then DoCommit(s, r, s.requests[r].ev, fate)
      else s
    case Record(r, db) => if r in s.requests && s.requests[r].Refused? then DoRecord(s, r, s.requests[r].ev, db) else s
    case Act(r, handled) => if r in s.requests && s.requests[r].Stored? then DoAct(s, r, s.requests[r].ev, handled)
      else s
    case Crash(r) => s.(requests := s.requests - {r})
    case Deliver(rows, sent, fate) =>
      if sent <= |rows| && forall id :: id in rows ==> id in s.store.outbox
        then s.(store := Pass(s.store, rows, sent, fate).0) else s
  }

  function After(s0: Sys, steps: seq<Step>, n: nat): Sys
    requires n <= |steps|
  {
    if n == 0 then s0 else Apply(After(s0, steps, n - 1), steps[n - 1])
  }

  // ---------------------------------------------------------------- what the tables say of each other

  /** The inbox holds what it began with and what has been projected since, each once; the outbox matches it. */
  ghost predicate Tallied(s0: Store, s: Store) {
    && s.outbox.Keys == s.inbox
    && (forall id :: id in s.inbox <==> id in s0.inbox || id in s.applied)
    && (forall id :: id in s.applied ==> id !in s0.inbox)
    && (forall i, j :: 0 <= i < j < |s.applied| ==> s.applied[i] != s.applied[j])
  }

  /** The watermark is the greatest of its first value and the ids committed since. */
  ghost predicate Watermark(s0: Store, s: Store) {
    && s0.cursor <= s.cursor && (forall id :: id in s.applied ==> id <= s.cursor)
    && (s.cursor == s0.cursor || s.cursor in s.applied)
  }

  type Feed = map<Int64, Event>

  /** What was committed since the beginning is what the feed says, whatever the order. */
  ghost predicate Rendered(feed: Feed, s0: Store, s: Store) {
    && (forall id :: id in s.applied ==> id in feed && feed[id].id == id && Projects(feed[id]))
    && (forall id :: id in s.applied && id in s.outbox ==> s.outbox[id].payload == Pack(feed[id]))
    && (forall id :: id in s0.outbox ==> id in s.outbox && s.outbox[id].payload == s0.outbox[id].payload)
  }

  ghost predicate Tracked(feed: Feed, s0: Store, s: Store)
    requires Rendered(feed, s0, s)
  {
    && (forall id :: id in s.agents <==> id in s0.agents || (id in s.applied && feed[id].kind == ROUTING))
    && (forall id :: id in s.agents ==>
          s.agents[id] == if id in s0.agents then s0.agents[id] else Project(map[], feed[id])[id])
  }

  /** Rows are marked delivered only after the hub has been given them. */
  ghost predicate Delivered(s0: Store, s: Store) {
    forall id :: id in s.outbox && s.outbox[id].delivered ==>
      (id in s0.outbox && s0.outbox[id].delivered) || s.outbox[id].payload in s.published
  }

  ghost predicate Counted(s: Store) {
    forall id :: id in s.failures ==> (s.failures[id].dead <==> s.failures[id].count >= MAX_FAILURES)
  }

  lemma AdmitTallies(s0: Store, s: Store, ev: Event)
    requires Tallied(s0, s) && Projects(ev) && ev.id !in s.inbox
    ensures Tallied(s0, Admit(s, ev))
  {
    var t := Admit(s, ev);
    assert forall id :: id in t.applied <==> id in s.applied || id == ev.id;
  }

  lemma AdmitMovesWatermark(s0: Store, s: Store, ev: Event)
    requires Watermark(s0, s) && Projects(ev)
    ensures Watermark(s0, Admit(s, ev))
  {
    assert Admit(s, ev).applied[|s.applied|] == ev.id;
  }

  lemma AdmitApplies(s: Store, ev: Event)
    requires Projects(ev)
    ensures forall id :: id in Admit(s, ev).applied <==> id in s.applied || id == ev.id
  {
  }

  lemma AdmitRenders(feed: Feed, s0: Store, s: Store, ev: Event)
    requires Tallied(s0, s) && Projects(ev) && ev.id !in s.inbox && ev.id in feed && feed[ev.id] == ev
    requires s0.outbox.Keys <= s0.inbox && Rendered(feed, s0, s)
    ensures Rendered(feed, s0, Admit(s, ev))
  {
    AdmitApplies(s, ev);
    hide Pack, Projects;
  }

  lemma AdmitTracks(feed: Feed, s0: Store, s: Store, ev: Event)
    requires Projects(ev) && ev.id in feed && feed[ev.id] == ev
    requires Rendered(feed, s0, s) && Tracked(feed, s0, s) && Rendered(feed, s0, Admit(s, ev))
    ensures Tracked(feed, s0, Admit(s, ev))
  {
    AdmitApplies(s, ev);
    hide Rendered, Pack;
  }

  lemma PassKeepsRows(s: Store, rows: seq<Int64>, sent: nat, fate: Fate)
    requires sent <= |rows| && forall id :: id in rows ==> id in s.outbox
    ensures var t := Pass(s, rows, sent, fate).0;
      t == s.(outbox := t.outbox, published := t.published) && t.outbox.Keys == s.outbox.Keys
        && s.published <= t.published
    ensures forall id :: id in s.outbox ==> Pass(s, rows, sent, fate).0.outbox[id].payload == s.outbox[id].payload
  {
  }

  lemma {:induction false} PayloadsInclude(s: Store, rows: seq<Int64>, k: nat)
    requires k < |rows| && forall id :: id in rows ==> id in s.outbox
    ensures rows[k] in s.outbox && s.outbox[rows[k]].payload in Payloads(s, rows)
  {
    var init, last := rows[..|rows| - 1], rows[|rows| - 1];
    assert last in rows;
    if k == |rows| - 1 {
      assert Payloads(s, rows) == Payloads(s, init) + [s.outbox[last].payload];
    } else {
      PayloadsInclude(s, init, k);
      assert Payloads(s, rows) == Payloads(s, init) + [s.outbox[last].payload];
    }
  }

  lemma PassDeliversWhatItPublished(s0: Store, s: Store, rows: seq<Int64>, sent: nat, fate: Fate)
    requires Delivered(s0, s) && sent <= |rows| && forall id :: id in rows ==> id in s.outbox
    ensures Delivered(s0, Pass(s, rows, sent, fate).0)
  {
    var t := Pass(s, rows, sent, fate).0;
    forall id | id in t.outbox && t.outbox[id].delivered
      ensures (id in s0.outbox && s0.outbox[id].delivered) || t.outbox[id].payload in t.published
    {
      if sent == |rows| && id in rows {
        var k :| 0 <= k < |rows| && rows[k] == id;
        assert rows[..sent] == rows;
        PayloadsInclude(s, rows, k);
      }
    }
  }

  // ---------------------------------------------------------------- every step keeps it

  /** A request is where its phase says. */
  ghost predicate Honest(s: Sys, p: Phase) {
    && (p.Stored? ==> p.ev.id in s.store.inbox)
    && (p.Replied? && p.reply.Accepted? ==>
          p.ev.id in s.store.inbox && (s.actions && p.ev.kind == ACTION ==> p.handled))
  }

  ghost predicate AllHonest(s: Sys) { forall r :: r in s.requests ==> Honest(s, s.requests[r]) }

  ghost predicate Fed(feed: Feed, s: Sys) {
    forall r :: r in s.requests ==> s.requests[r].ev.id in feed && feed[s.requests[r].ev.id] == s.requests[r].ev
  }

  ghost predicate Tables(s0: Store, s: Store) {
    Tallied(s0, s) && Watermark(s0, s) && Delivered(s0, s) && Counted(s)
  }

  /** What may happen to the tables in one step. */
  ghost predicate StoreStep(s: Store, t: Store, step: Step) {
    || t == s
    || (exists ev: Event :: ev.id !in s.inbox && Projects(ev) && t == Admit(s, ev))
    || (step.Record? && t == s.(failures := t.failures))
    || (step.Deliver? && step.sent <= |step.rows| && (forall id :: id in step.rows ==> id in s.outbox)
        && t == Pass(s, step.rows, step.sent, step.fate).0)
  }

  lemma StepStores(s: Sys, step: Step)
    ensures StoreStep(s.store, Apply(s, step).store, step)
  {
  }

  lemma AdmitKeeps(s0: Store, s: Store, ev: Event)
    requires Tallied(s0, s) && Watermark(s0, s) && Delivered(s0, s) && Projects(ev) && ev.id !in s.inbox
    ensures var t := Admit(s, ev); Tallied(s0, t) && Watermark(s0, t) && Delivered(s0, t)
  {
    AdmitTallies(s0, s, ev);
    AdmitMovesWatermark(s0, s, ev);
    hide Tallied, Watermark;
  }

  lemma RecordKeeps(s0: Store, s: Store, t: Store)
    requires Tallied(s0, s) && Watermark(s0, s) && Delivered(s0, s) && t == s.(failures := t.failures)
    ensures Tallied(s0, t) && Watermark(s0, t) && Delivered(s0, t)
  {
  }

  lemma PassKeeps(s0: Store, s: Store, rows: seq<Int64>, sent: nat, fate: Fate)
    requires Tallied(s0, s) && Watermark(s0, s) && Delivered(s0, s)
    requires sent <= |rows| && forall id :: id in rows ==> id in s.outbox
    ensures var t := Pass(s, rows, sent, fate).0; Tallied(s0, t) && Watermark(s0, t) && Delivered(s0, t)
  {
    PassKeepsRows(s, rows, sent, fate);
    PassDeliversWhatItPublished(s0, s, rows, sent, fate);
    hide Pass, Delivered;
  }

  lemma TablesKept(s0: Store, s: Sys, step: Step)
    requires Tables(s0, s.store)
    ensures Tables(s0, Apply(s, step).store)
  {
    hide Apply, Counted, Tallied, Watermark, Delivered, Admit, Pass;
    var t := Apply(s, step).store;
    CountedKept(s, step);
    StepStores(s, step);
    if t == s.store {
    } else if ev: Event :| ev.id !in s.store.inbox && Projects(ev) && t == Admit(s.store, ev) {
      AdmitKeeps(s0, s.store, ev);
    } else if step.Record? {
      RecordKeeps(s0, s.store, t);
    } else {
      PassKeeps(s0, s.store, step.rows, step.sent, step.fate);
    }
  }

  lemma CountedKept(s: Sys, step: Step)
    requires Counted(s.store)
    ensures Counted(Apply(s, step).store)
  {
  }

  lemma HonestKept(s: Sys, step: Step)
    requires AllHonest(s)
    ensures AllHonest(Apply(s, step))
  {
    var t := Apply(s, step);
    forall r | r in t.requests
      ensures Honest(t, t.requests[r])
    {
      if r in s.requests {
        assert Honest(s, s.requests[r]);
      }
    }
  }

  lemma {:induction false} Always(s0: Sys, steps: seq<Step>, n: nat)
    requires n <= |steps| && Tables(s0.store, s0.store) && AllHonest(s0)
    ensures Tables(s0.store, After(s0, steps, n).store) && AllHonest(After(s0, steps, n))
  {
    if n == 0 {
    } else {
      hide Apply, Tables, AllHonest;
      Always(s0, steps, n - 1);
      TablesKept(s0.store, After(s0, steps, n - 1), steps[n - 1]);
      HonestKept(After(s0, steps, n - 1), steps[n - 1]);
    }
  }

  // ---------------------------------------------------------------- what it comes to

  /** Tables to start from: any inbox with its outbox, any watermark, agent rows and failure counts. */
  ghost predicate Start(s0: Sys) { Tables(s0.store, s0.store) && s0.requests == map[] && s0.store.applied == [] }

  /** Every committed event has been projected exactly once, and has exactly one outbox row. */
  lemma {:induction false} ProjectedExactlyOnce(s0: Sys, steps: seq<Step>, n: nat)
    requires n <= |steps| && Start(s0)
    ensures var s := After(s0, steps, n).store;
      && (forall id :: id in s.inbox && id !in s0.store.inbox <==> id in s.applied)
      && (forall i, j :: 0 <= i < j < |s.applied| ==> s.applied[i] != s.applied[j])
      && s.outbox.Keys == s.inbox
  {
    hide After, Watermark, Delivered, Counted;
    Always(s0, steps, n);
  }

  /** The watermark is the maximum of its first value and all ids committed since. */
  lemma {:induction false} WatermarkIsTheMaximum(s0: Sys, steps: seq<Step>, n: nat)
    requires n <= |steps| && Start(s0)
    ensures var s := After(s0, steps, n).store;
      && s.cursor >= s0.store.cursor
      && (forall id :: id in s.inbox && id !in s0.store.inbox ==> id <= s.cursor)
      && (s.cursor == s0.store.cursor || (s.cursor in s.inbox && s.cursor !in s0.store.inbox))
  {
    hide After, Delivered, Counted;
    Always(s0, steps, n);
  }

  /** Every event that arrives is the feed's event of that id. */
  ghost predicate FollowsFeed(feed: Feed, steps: seq<Step>) {
    forall i :: 0 <= i < |steps| && steps[i].Arrive? ==> steps[i].ev.id in feed && feed[steps[i].ev.id] == steps[i].ev
  }

  lemma FedKept(feed: Feed, s: Sys, step: Step)
    requires Fed(feed, s) && (step.Arrive? ==> step.ev.id in feed && feed[step.ev.id] == step.ev)
    ensures Fed(feed, Apply(s, step))
  {
  }

  ghost predicate Image(feed: Feed, s0: Store, s: Store) { Rendered(feed, s0, s) && Tracked(feed, s0, s) }

  lemma PassKeepsImage(feed: Feed, s0: Store, s: Store, rows: seq<Int64>, sent: nat, fate: Fate)
    requires Image(feed, s0, s) && sent <= |rows| && forall id :: id in rows ==> id in s.outbox
    ensures Image(feed, s0, Pass(s, rows, sent, fate).0)
  {
    PassKeepsRows(s, rows, sent, fate);
    hide Pass;
  }

  lemma RecordKeepsImage(feed: Feed, s0: Store, s: Store, t: Store)
    requires Image(feed, s0, s) && t == s.(failures := t.failures)
    ensures Image(feed, s0, t)
  {
  }

  lemma AdmitKeepsImage(feed: Feed, s0: Store, s: Store, ev: Event)
    requires Image(feed, s0, s) && Tallied(s0, s) && Tallied(s0, s0)
    requires Projects(ev) && ev.id !in s.inbox && ev.id in feed && feed[ev.id] == ev
    ensures Image(feed, s0, Admit(s, ev))
  {
    AdmitRenders(feed, s0, s, ev);
    AdmitTracks(feed, s0, s, ev);
    hide Admit, Rendered, Tracked;
  }

  lemma ImageKept(feed: Feed, s0: Store, s: Sys, step: Step)
    requires Image(feed, s0, s.store) && Fed(feed, s) && Tallied(s0, s.store) && Tallied(s0, s0)
    ensures Image(feed, s0, Apply(s, step).store)
  {
    hide Pass, Admit, Image;
    if step.Commit? && step.r in s.requests && s.requests[step.r].Checked? {
      var ev := s.requests[step.r].ev;
      if Projects(ev) && ev.id !in s.store.inbox {
        AdmitKeepsImage(feed, s0, s.store, ev);
      }
    } else if step.Deliver? && step.sent <= |step.rows| && forall id :: id in step.rows ==> id in s.store.outbox {
      PassKeepsImage(feed, s0, s.store, step.rows, step.sent, step.fate);
    } else if step.Record? {
      RecordKeepsImage(feed, s0, s.store, Apply(s, step).store);
    }
  }

  lemma ImageAtStart(feed: Feed, s0: Sys)
    requires Start(s0)
    ensures Fed(feed, s0) && Image(feed, s0.store, s0.store) && AllHonest(s0)
  {
  }

  lemma {:induction false} AlwaysImage(feed: Feed, s0: Sys, steps: seq<Step>, n: nat)
    requires n <= |steps| && Start(s0) && FollowsFeed(feed, steps)
    ensures Fed(feed, After(s0, steps, n)) && Image(feed, s0.store, After(s0, steps, n).store)
  {
    hide Fed, Image, AllHonest, Tallied, Watermark, Delivered, Counted;
    if n == 0 {
      ImageAtStart(feed, s0);
    } else {
      hide Apply;
      var s := After(s0, steps, n - 1);
      ImageAtStart(feed, s0);
      Always(s0, steps, n - 1);
      AlwaysImage(feed, s0, steps, n - 1);
      FedKept(feed, s, steps[n - 1]);
      ImageKept(feed, s0.store, s, steps[n - 1]);
    }
  }

  lemma SameEventsApplied(s0: Store, a: Store, b: Store)
    requires Tallied(s0, a) && Tallied(s0, b) && a.inbox == b.inbox
    ensures forall id :: id in a.applied <==> id in b.applied
    ensures a.outbox.Keys == b.outbox.Keys == a.inbox
    ensures forall id :: id in a.inbox ==> id in s0.inbox || id in a.applied
  {
  }

  lemma SameCursor(s0: Store, a: Store, b: Store)
    requires Watermark(s0, a) && Watermark(s0, b) && forall id :: id in a.applied <==> id in b.applied
    ensures a.cursor == b.cursor
  {
  }

  lemma SameAgents(feed: Feed, s0: Store, a: Store, b: Store)
    requires Rendered(feed, s0, a) && Tracked(feed, s0, a) && Rendered(feed, s0, b) && Tracked(feed, s0, b)
    requires forall id :: id in a.applied <==> id in b.applied
    ensures a.agents == b.agents
  {
    hide Project, Pack;
    assert a.agents.Keys == b.agents.Keys;
  }

  lemma SamePayloads(feed: Feed, s0: Store, a: Store, b: Store)
    requires Rendered(feed, s0, a) && Rendered(feed, s0, b) && s0.outbox.Keys == s0.inbox
    requires forall id :: id in a.applied <==> id in b.applied
    requires forall id :: id in a.outbox ==> id in s0.inbox || id in a.applied
    ensures forall id :: id in a.outbox && id in b.outbox ==> a.outbox[id].payload == b.outbox[id].payload
  {
    hide Project, Pack;
    forall id | id in a.outbox && id in b.outbox
      ensures a.outbox[id].payload == b.outbox[id].payload
    {
      assert id in s0.outbox || id in a.applied;
    }
  }

  /** Two tables that hold the same committed events are the same, but for delivery and failure counts. */
  lemma SameEventsSameTables(feed: Feed, s0: Store, a: Store, b: Store)
    requires Tallied(s0, s0) && Tallied(s0, a) && Tallied(s0, b) && Watermark(s0, a) && Watermark(s0, b)
    requires Image(feed, s0, a) && Image(feed, s0, b) && a.inbox == b.inbox
    ensures a.cursor == b.cursor && a.agents == b.agents && a.outbox.Keys == b.outbox.Keys
    ensures forall id :: id in a.outbox && id in b.outbox ==> a.outbox[id].payload == b.outbox[id].payload
  {
    SameEventsApplied(s0, s0, s0);
    SameEventsApplied(s0, a, b);
    hide Tallied, Watermark, Rendered, Tracked;
    SameCursor(s0, a, b);
    SameAgents(feed, s0, a, b);
    SamePayloads(feed, s0, a, b);
  }

  /** In whatever order, how often and with what failures two schedules deliver the events of one feed: if they
      have committed the same events, their tables agree. */
  lemma {:induction false} OrderDoesNotMatter(feed: Feed, s0: Sys, a: seq<Step>, n: nat, b: seq<Step>, m: nat)
    requires n <= |a| && m <= |b| && Start(s0) && FollowsFeed(feed, a) && FollowsFeed(feed, b)
    requires After(s0, a, n).store.inbox == After(s0, b, m).store.inbox
    ensures var s, t := After(s0, a, n).store, After(s0, b, m).store;
      && s.cursor == t.cursor && s.agents == t.agents && s.outbox.Keys == t.outbox.Keys
      && forall id :: id in s.outbox && id in t.outbox ==> s.outbox[id].payload == t.outbox[id].payload
  {
    hide After, Tallied, Watermark, Delivered, Counted, Image;
    Always(s0, a, n);
    Always(s0, b, m);
    AlwaysImage(feed, s0, a, n);
    AlwaysImage(feed, s0, b, m);
    SameEventsSameTables(feed, s0.store, After(s0, a, n).store, After(s0, b, m).store);
  }

  // ---------------------------------------------------------------- undisturbed callbacks and passes

  /** The steps of a callback that nothing interrupts. */
  function Callback(r: nat, ev: Event, readable: bool, fate: Fate, record: Db, handled: bool): seq<Step> {
    [Arrive(r, ev), Check(r, readable), Commit(r, fate), Record(r, record), Act(r, handled)]
  }

  lemma FiveSteps(s: Sys, steps: seq<Step>)
    requires |steps| == 5
    ensures After(s, steps, 5) == Apply(Apply(Apply(Apply(Apply(s, steps[0]), steps[1]), steps[2]), steps[3]), steps[4])
  {
    hide Apply;
    assert After(s, steps, 1) == Apply(After(s, steps, 0), steps[0]);
    assert After(s, steps, 2) == Apply(After(s, steps, 1), steps[1]);
    assert After(s, steps, 3) == Apply(After(s, steps, 2), steps[2]);
    assert After(s, steps, 4) == Apply(After(s, steps, 3), steps[3]);
  }

  /** The request stands replied, and its remaining steps change nothing. */
  lemma RepliedStays(s: Sys, r: nat, readable: bool, fate: Fate, record: Db, handled: bool)
    requires r in s.requests && s.requests[r].Replied?
    ensures Apply(s, Check(r, readable)) == s
    ensures Apply(Apply(Apply(s, Commit(r, fate)), Record(r, record)), Act(r, handled)) == s
  {
  }

  lemma CheckedGoesOn(s: Sys, r: nat, ev: Event, fate: Fate, record: Db, handled: bool)
    requires r in s.requests && s.requests[r] == Checked(ev)
    ensures var t := Apply(Apply(Apply(s, Commit(r, fate)), Record(r, record)), Act(r, handled));
      var (u, ok) := Transact(s.store, ev, fate);
      && r in t.requests && t.requests[r].Replied? && t.requests[r].ev == ev
      && (t.requests[r].handled <==> t.requests[r].reply.Accepted? && s.actions && ev.kind == ACTION)
      && (ok ==> t.store == u
                 && t.requests[r].reply == if s.actions && ev.kind == ACTION && !handled then Error else Accepted)
      && (!ok ==>
            && t.store == u.(failures := WithFailure(u.failures, ev.id, record))
            && t.requests[r].reply
               == if record.Fine? && t.store.failures[ev.id].count >= MAX_FAILURES then DeadLetter else Error)
  {
    hide Transact;
    var (u, ok) := Transact(s.store, ev, fate);
    var a := Apply(s, Commit(r, fate));
    assert a == Goes(s.(store := u), r, if ok then Stored(ev) else Refused(ev));
    var b := Apply(a, Record(r, record));
    assert ok ==> b == a;
    assert !ok ==> b.requests[r].Replied? && Apply(b, Act(r, handled)) == b;
  }

  /** They leave in the tables, and reply, what the whole callback does. */
  lemma CallbackIsARun(s: Sys, r: nat, ev: Event, readable: bool, fate: Fate, record: Db, handled: bool)
    requires r !in s.requests
    ensures var t := After(s, Callback(r, ev, readable, fate, record, handled), 5);
      var (store, reply) := Called(s.store, ev, readable, fate, record, s.actions, handled);
      t.store == store && r in t.requests && t.requests[r].Replied? && t.requests[r].ev == ev
        && t.requests[r].reply == reply
        && (t.requests[r].handled <==> reply.Accepted? && s.actions && ev.kind == ACTION)
  {
    FiveSteps(s, Callback(r, ev, readable, fate, record, handled));
    var a := Apply(Apply(s, Arrive(r, ev)), Check(r, readable));
    assert a == DoCheck(Goes(s, r, Got(ev)), r, ev, readable);
    hide Apply, After, Transact, WithFailure;
    if a.requests[r].Replied? {
      RepliedStays(a, r, readable, fate, record, handled);
    } else {
      CheckedGoesOn(a, r, ev, fate, record, handled);
    }
  }

  /** Whatever a callback does comes to an end with a crash. */
  lemma CrashEndsIt(s: Sys, r: nat, step: Step)
    requires step in {Check(r, true), Check(r, false)} || (step.Commit? && step.r == r) || (step.Record? && step.r == r)
      || (step.Act? && step.r == r)
    ensures Apply(Apply(s, Crash(r)), step) == Apply(s, Crash(r))
    ensures Apply(s, Crash(r)).store == s.store
  {
  }

  /** A pass that gets through all its rows and commits has published them all and marks them, and no others. */
  lemma PassDelivers(s0: Sys, steps: seq<Step>, n: nat, rows: seq<Int64>, fate: Fate)
    requires n < |steps| && steps[n] == Deliver(rows, |rows|, fate) && !fate.Aborts?
    requires forall id :: id in rows ==> id in After(s0, steps, n).store.outbox
    ensures var s, t := After(s0, steps, n).store, After(s0, steps, n + 1).store;
      && t.outbox.Keys == s.outbox.Keys
      && (forall id :: id in s.outbox ==> t.outbox[id].delivered == (s.outbox[id].delivered || id in rows))
      && (forall id :: id in rows ==> t.outbox[id].payload in t.published)
      && (forall id :: id in s.outbox ==> t.outbox[id].payload == s.outbox[id].payload)
  {
    var s := After(s0, steps, n).store;
    assert rows[..|rows|] == rows;
    forall id | id in rows
      ensures s.outbox[id].payload in Payloads(s, rows)
    {
      var k :| 0 <= k < |rows| && rows[k] == id;
      PayloadsInclude(s, rows, k);
    }
    hide After, Payloads;
    assert After(s0, steps, n + 1) == Apply(After(s0, steps, n), steps[n]) by {
      OneStep(s0, steps, n);
    }
  }

  lemma OneStep(s0: Sys, steps: seq<Step>, n: nat)
    requires n < |steps|
    ensures After(s0, steps, n + 1) == Apply(After(s0, steps, n), steps[n])
  {
  }

  // ---------------------------------------------------------------- what was committed is what came in

  /** The event has come in by then. */
  ghost predicate Arrived(steps: seq<Step>, n: nat, ev: Event)
    requires n <= |steps|
  {
    exists i :: 0 <= i < n && steps[i].Arrive? && steps[i].ev == ev
  }

  /** The row of a committed event announces an event that came in, and so does the agent's row if it is a new one. */
  ghost predicate Announced(steps: seq<Step>, n: nat, s0: Store, s: Store, id: Int64)
    requires n <= |steps|
  {
    exists ev ::
      && Arrived(steps, n, ev) && ev.id == id && id in s.outbox && Announces(s.outbox[id].payload, ev)
      && (id !in s0.agents ==> (id in s.agents <==> ev.kind == ROUTING))
      && (id !in s0.agents && ev.kind == ROUTING ==> Tells(s.agents[id], ev))
      && (id in s0.agents ==> id in s.agents && s.agents[id] == s0.agents[id])
  }

  /** Every row committed in the run announces, and no other agent's row has changed. */
  ghost predicate AllAnnounced(steps: seq<Step>, n: nat, s0: Store, s: Sys)
    requires n <= |steps|
  {
    && (forall r :: r in s.requests ==> Arrived(steps, n, s.requests[r].ev))
    && (forall id :: id in s.store.applied ==> Announced(steps, n, s0, s.store, id))
    && (forall id :: id !in s.store.applied && id in s.store.agents ==> id in s0.agents)
    && (forall id :: id in s0.agents ==> id in s.store.agents && s.store.agents[id] == s0.agents[id])
  }

  lemma StillAnnounced(steps: seq<Step>, n: nat, s0: Store, s: Store, t: Store, id: Int64)
    requires n < |steps| && Announced(steps, n, s0, s, id) && id in t.outbox
    requires t.outbox[id].payload == s.outbox[id].payload && (id in t.agents <==> id in s.agents)
    requires id in s.agents ==> t.agents[id] == s.agents[id]
    ensures Announced(steps, n + 1, s0, t, id)
  {
    hide Announces, Tells;
    var ev :| Arrived(steps, n, ev) && ev.id == id && id in s.outbox && Announces(s.outbox[id].payload, ev)
      && (id !in s0.agents ==> (id in s.agents <==> ev.kind == ROUTING))
      && (id !in s0.agents && ev.kind == ROUTING ==> Tells(s.agents[id], ev))
      && (id in s0.agents ==> id in s.agents && s.agents[id] == s0.agents[id]);
    assert Arrived(steps, n + 1, ev);
  }

  lemma CommitAnnounces(steps: seq<Step>, n: nat, s0: Store, s: Sys, ev: Event)
    requires n < |steps| && AllAnnounced(steps, n, s0, s) && Arrived(steps, n, ev) && Tallied(s0, s.store)
    requires Projects(ev) && ev.id !in s.store.inbox
    ensures forall id :: id in Admit(s.store, ev).applied ==> Announced(steps, n + 1, s0, Admit(s.store, ev), id)
    ensures forall id :: id !in Admit(s.store, ev).applied && id in Admit(s.store, ev).agents ==> id in s0.agents
    ensures forall id :: id in s0.agents ==>
      id in Admit(s.store, ev).agents && Admit(s.store, ev).agents[id] == s0.agents[id]
  {
    var t := Admit(s.store, ev);
    AdmitLeaves(s.store, ev);
    AdmitApplies(s.store, ev);
    hide Admit, Announces, Tells;
    forall id | id in t.applied
      ensures Announced(steps, n + 1, s0, t, id)
    {
      if id == ev.id {
        assert Arrived(steps, n + 1, ev);
      } else {
        assert id in s.store.outbox;
        StillAnnounced(steps, n, s0, s.store, t, id);
      }
    }
  }

  lemma RequestsArrived(steps: seq<Step>, n: nat, s: Sys)
    requires n < |steps| && forall r :: r in s.requests ==> Arrived(steps, n, s.requests[r].ev)
    ensures forall r :: r in Apply(s, steps[n]).requests ==> Arrived(steps, n + 1, Apply(s, steps[n]).requests[r].ev)
  {
    hide Transact, Pass;
    var t := Apply(s, steps[n]);
    forall r | r in t.requests
      ensures Arrived(steps, n + 1, t.requests[r].ev)
    {
      if r in s.requests {
        assert Arrived(steps, n, s.requests[r].ev);
      }
    }
  }

  /** What a step other than a commit that takes effect leaves alone. */
  lemma OthersLeaveRows(s: Sys, step: Step)
    requires !step.Commit? || Apply(s, step).store == s.store
    ensures var t := Apply(s, step).store;
      t.applied == s.store.applied && t.agents == s.store.agents && t.outbox.Keys == s.store.outbox.Keys
      && forall id :: id in s.store.outbox ==> t.outbox[id].payload == s.store.outbox[id].payload
  {
    hide Transact, Pass;
    if step.Deliver? && step.sent <= |step.rows| && forall id :: id in step.rows ==> id in s.store.outbox {
      PassKeepsRows(s.store, step.rows, step.sent, step.fate);
    }
  }

  lemma AnnouncedKept(steps: seq<Step>, n: nat, s0: Store, s: Sys)
    requires n < |steps| && AllAnnounced(steps, n, s0, s) && Tallied(s0, s.store)
    ensures AllAnnounced(steps, n + 1, s0, Apply(s, steps[n]))
  {
    var step, t := steps[n], Apply(s, steps[n]);
    RequestsArrived(steps, n, s);
    hide Pass, Admit, Announced;
    if step.Commit? && t.store != s.store {
      hide Arrived;
      CommitAnnounces(steps, n, s0, s, s.requests[step.r].ev);
    } else {
      OthersLeaveRows(s, step);
      hide Apply;
      forall id | id in t.store.applied
        ensures Announced(steps, n + 1, s0, t.store, id)
      {
        assert id in s.store.outbox;
        StillAnnounced(steps, n, s0, s.store, t.store, id);
      }
    }
  }

  lemma NothingAnnounced(s0: Sys, steps: seq<Step>)
    requires Start(s0)
    ensures AllAnnounced(steps, 0, s0.store, After(s0, steps, 0))
  {
  }

  lemma {:induction false} AlwaysTallied(s0: Sys, steps: seq<Step>, n: nat)
    requires n <= |steps| && Start(s0)
    ensures Tallied(s0.store, After(s0, steps, n).store)
  {
    hide After, Tallied, Watermark, Delivered, Counted;
    Always(s0, steps, n);
  }

  lemma {:induction false} AlwaysAnnounced(s0: Sys, steps: seq<Step>, n: nat)
    requires n <= |steps| && Start(s0)
    ensures AllAnnounced(steps, n, s0.store, After(s0, steps, n))
  {
    hide Apply, AllAnnounced, Start, Tallied;
    if n == 0 {
      NothingAnnounced(s0, steps);
    } else {
      AlwaysAnnounced(s0, steps, n - 1);
      AlwaysTallied(s0, steps, n - 1);
      AnnouncedKept(steps, n - 1, s0.store, After(s0, steps, n - 1));
    }
  }

  /** What is committed is what came in: every outbox row of the run announces an event that has arrived, with its call
      exactly if it is not for an agent alone, and the same event's routing is in the agent's row. */
  lemma CommittedIsWhatArrived(s0: Sys, steps: seq<Step>, n: nat, id: Int64)
    requires n <= |steps| && Start(s0)
    requires id in After(s0, steps, n).store.outbox && id !in s0.store.outbox
    ensures Announced(steps, n, s0.store, After(s0, steps, n).store, id)
  {
    hide After, Watermark, Delivered, Counted, Announced;
    AlwaysAnnounced(s0, steps, n);
    Always(s0, steps, n);
  }

  /** Agent rows change by that alone. */
  lemma OtherAgentsStay(s0: Sys, steps: seq<Step>, n: nat, id: Int64)
    requires n <= |steps| && Start(s0)
    ensures var agents := After(s0, steps, n).store.agents;
      && (id in s0.store.agents ==> id in agents && agents[id] == s0.store.agents[id])
      && (id in agents ==> id in s0.store.agents || id in After(s0, steps, n).store.applied)
  {
    hide After, Announced;
    AlwaysAnnounced(s0, steps, n);
  }

  lemma InboxGrows(s: Sys, step: Step)
    ensures s.store.inbox <= Apply(s, step).store.inbox
  {
  }

  lemma {:induction false} InboxKeeps(s0: Sys, steps: seq<Step>, i: nat, j: nat)
    requires i <= j <= |steps|
    ensures After(s0, steps, i).store.inbox <= After(s0, steps, j).store.inbox
    decreases j
  {
    if i == j {
    } else {
      hide Apply;
      InboxKeeps(s0, steps, i, j - 1);
      InboxGrows(After(s0, steps, j - 1), steps[j - 1]);
    }
  }

  /** An acknowledgement that is not a dead letter: the event is in the inbox for good, and a requested business
      action succeeded in that very call. */
  lemma {:induction false} AcceptedIsStored(s0: Sys, steps: seq<Step>, i: nat, j: nat, r: nat)
    requires i <= j <= |steps| && Start(s0) && r in After(s0, steps, i).requests
    requires var p := After(s0, steps, i).requests[r]; p.Replied? && p.reply.Accepted?
    ensures var p := After(s0, steps, i).requests[r];
      p.ev.id in After(s0, steps, j).store.inbox && (s0.actions && p.ev.kind == ACTION ==> p.handled)
  {
    hide After, Tables;
    Always(s0, steps, i);
    InboxKeeps(s0, steps, i, j);
    ActionsStay(s0, steps, i);
    assert Honest(After(s0, steps, i), After(s0, steps, i).requests[r]);
  }

  lemma {:induction false} ActionsStay(s0: Sys, steps: seq<Step>, n: nat)
    requires n <= |steps|
    ensures After(s0, steps, n).actions == s0.actions
  {
    if n == 0 {
    } else {
      ActionsStay(s0, steps, n - 1);
    }
  }

  /** No row is marked delivered before the hub has been given its payload. */
  lemma {:induction false} DeliveredWasPublished(s0: Sys, steps: seq<Step>, n: nat, id: Int64)
    requires n <= |steps| && Start(s0)
    requires var s := After(s0, steps, n).store; id in s.outbox && s.outbox[id].delivered
    requires !(id in s0.store.outbox && s0.store.outbox[id].delivered)
    ensures var s := After(s0, steps, n).store; s.outbox[id].payload in s.published
  {
    hide After, Tallied, Watermark, Counted;
    Always(s0, steps, n);
  }

  ghost function Without(all: set<Int64>, rows: seq<Int64>): set<Int64> { set id | id in all && id !in rows }

  lemma {:induction false} DistinctCount(rows: seq<Int64>, all: set<Int64>)
    requires Ascending(rows) && forall id :: id in rows ==> id in all
    ensures |Without(all, rows)| == |all| - |rows|
  {
    if rows == [] {
      assert Without(all, rows) == all;
    } else {
      var init, last := rows[..|rows| - 1], rows[|rows| - 1];
      assert forall id :: id in rows <==> id in init || id == last;
      DistinctCount(init, all);
      assert last in rows && last !in init;
      assert Without(all, rows) == Without(all, init) - {last};
    }
  }

  lemma AllOrPass(rows: seq<Int64>, all: set<Int64>)
    requires Ascending(rows) && |rows| <= PASS && forall id :: id in rows ==> id in all
    requires forall id :: id in all && id !in rows ==> |rows| == PASS
    ensures |rows| == if |all| < PASS then |all| else PASS
  {
    DistinctCount(rows, all);
    if Without(all, rows) != {} {
      var id :| id in Without(all, rows);
      assert id in all && id !in rows;
    }
  }

  /** A pass that commits takes exactly min(100, n) rows off the undelivered, the oldest ones it may touch; one that
      does not leaves every mark as it was. */
  lemma PassTakesOldest(s: Store, locked: set<Int64>, rows: seq<Int64>, sent: nat, fate: Fate)
    requires Oldest(s, locked, rows) && sent <= |rows| && forall id :: id in rows ==> id in s.outbox
    ensures var t, n := Pass(s, rows, sent, fate).0, |Undelivered(s) - locked|;
      if sent == |rows| && !fate.Aborts?
      then Undelivered(t) == (Without(Undelivered(s), rows))
           && |Undelivered(t)| == |Undelivered(s)| - (if n < PASS then n else PASS)
      else t.outbox == s.outbox
  {
    var t := Pass(s, rows, sent, fate).0;
    AllOrPass(rows, Undelivered(s) - locked);
    DistinctCount(rows, Undelivered(s));
    if sent == |rows| && !fate.Aborts? {
      assert Undelivered(t) == Without(Undelivered(s), rows);
    }
  }

  // ---------------------------------------------------------------- dead letters

  predicate Records(s: Sys, step: Step, id: Int64) {
    step.Record? && !step.db.Broken? && step.r in s.requests && s.requests[step.r].Refused?
      && s.requests[step.r].ev.id == id
  }

  function CountIn(s: Store, id: Int64): nat { if id in s.failures then s.failures[id].count else 0 }

  /** How many failures of `id` have been recorded since it was last committed. */
  function Recorded(s0: Sys, steps: seq<Step>, n: nat, id: Int64): nat
    requires n <= |steps|
  {
    if n == 0 then CountIn(s0.store, id)
    else
      var s := After(s0, steps, n - 1);
      if Records(s, steps[n - 1], id) then Recorded(s0, steps, n - 1, id) + 1
      else if id in Apply(s, steps[n - 1]).store.inbox && id !in s.store.inbox then 0
      else Recorded(s0, steps, n - 1, id)
  }

  lemma StepCounts(s: Sys, step: Step, id: Int64)
    ensures CountIn(Apply(s, step).store, id)
         == if Records(s, step, id) then CountIn(s.store, id) + 1
            else if id in Apply(s, step).store.inbox && id !in s.store.inbox then 0
            else CountIn(s.store, id)
  {
  }

  lemma {:induction false} FailuresAreCounted(s0: Sys, steps: seq<Step>, n: nat, id: Int64)
    requires n <= |steps|
    ensures CountIn(After(s0, steps, n).store, id) == Recorded(s0, steps, n, id)
  {
    if n == 0 {
    } else {
      hide Apply, Records, CountIn;
      FailuresAreCounted(s0, steps, n - 1, id);
      StepCounts(After(s0, steps, n - 1), steps[n - 1], id);
    }
  }

  /** An event is acknowledged without being projected exactly after twelve recorded failures. */
  lemma TwelveFailuresBury(s0: Sys, steps: seq<Step>, n: nat, r: nat, ev: Event)
    requires n < |steps| && Start(s0) && steps[n] == Check(r, true) && ev.id > 0
    requires r in After(s0, steps, n).requests && After(s0, steps, n).requests[r] == Got(ev)
    ensures After(s0, steps, n + 1)
         == Goes(After(s0, steps, n), r, if Recorded(s0, steps, n, ev.id) >= 12 then Replied(ev, DeadLetter, false)
           else Checked(ev))
  {
    hide Tallied, Watermark, Delivered, Recorded;
    Always(s0, steps, n);
    FailuresAreCounted(s0, steps, n, ev.id);
  }

  /** The callback that records a failure is itself told "dead letter" exactly if that failure is at least the twelfth
      and the database says so; otherwise it is told of an error. */
  lemma TwelfthFailureIsToldSo(s0: Sys, steps: seq<Step>, n: nat, r: nat, ev: Event, db: Db)
    requires n < |steps| && steps[n] == Record(r, db)
    requires r in After(s0, steps, n).requests && After(s0, steps, n).requests[r] == Refused(ev)
    ensures After(s0, steps, n + 1).requests[r]
         == Replied(ev, if db.Fine? && Recorded(s0, steps, n + 1, ev.id) >= 12 then DeadLetter else Error, false)
  {
    FailuresAreCounted(s0, steps, n + 1, ev.id);
    hide Recorded;
  }

  ghost predicate ToldDead(s: Sys, r: nat, ev: Event) {
    r in s.requests && s.requests[r] == Replied(ev, DeadLetter, false)
  }

  lemma ToldDeadAtTwelve(s: Sys, step: Step, r: nat, ev: Event)
    requires Counted(s.store) && ToldDead(Apply(s, step), r, ev) && !ToldDead(s, r, ev)
    ensures CountIn(Apply(s, step).store, ev.id) >= 12
  {
    hide Transact, Pass;
  }

  /** Whoever is told "dead letter", by a check or on recording a failure, is told so after twelve failures. */
  lemma DeadLetterMeansTwelveFailures(s0: Sys, steps: seq<Step>, n: nat, r: nat, ev: Event)
    requires n < |steps| && Start(s0)
    requires ToldDead(After(s0, steps, n + 1), r, ev) && !ToldDead(After(s0, steps, n), r, ev)
    ensures Recorded(s0, steps, n + 1, ev.id) >= 12
  {
    hide Tallied, Watermark, Delivered, Recorded, CountIn, Counted, ToldDead, Apply;
    Always(s0, steps, n);
    FailuresAreCounted(s0, steps, n + 1, ev.id);
    ToldDeadAtTwelve(After(s0, steps, n), steps[n], r, ev);
  }

  /** Dead, not in the inbox, and no callback under way that has passed the check. */
  ghost predicate Buried(s: Sys, id: Int64) {
    && Dead(s.store, id) && id !in s.store.inbox
    && (forall r :: r in s.requests ==> !(s.requests[r].Checked? && s.requests[r].ev.id == id))
  }

  lemma BuriedStays(s: Sys, step: Step, id: Int64)
    requires Buried(s, id) && (step.Check? ==> step.readable)
    ensures Buried(Apply(s, step), id)
  {
    var t := Apply(s, step);
    assert Dead(t.store, id) && id !in t.store.inbox by {
      if step.Commit? && step.r in s.requests {
        assert !(s.requests[step.r].Checked? && s.requests[step.r].ev.id == id);
      }
    }
    forall r | r in t.requests
      ensures !(t.requests[r].Checked? && t.requests[r].ev.id == id)
    {
      if r in s.requests {
        assert !(s.requests[r].Checked? && s.requests[r].ev.id == id);
      }
    }
  }

  /** A buried event is never projected, as long as the dead-letter table can be read. */
  lemma {:induction false} BuriedForever(s0: Sys, steps: seq<Step>, i: nat, j: nat, id: Int64)
    requires i <= j <= |steps| && Buried(After(s0, steps, i), id)
    requires forall k :: i <= k < j && steps[k].Check? ==> steps[k].readable
    ensures Buried(After(s0, steps, j), id)
    decreases j
  {
    if i == j {
    } else {
      hide Apply, Buried;
      BuriedForever(s0, steps, i, j - 1, id);
      BuriedStays(After(s0, steps, j - 1), steps[j - 1], id);
    }
  }
}
