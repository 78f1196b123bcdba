/** The whole application-audio path as interleaved steps of four threads: the provider reader, the
    sender, the Switch loop and the acknowledgement receiver, each of which may stop at any point. */
module AudioProtocol {
  import opened Seqs
  import opened ReadLoop
  import opened PcmStream
  import opened MediaServer

  /** An entry of the hand-off channel, which holds at most CAPACITY of them. */
  datatype Item = Chunk(generation: nat, pcm: seq<Byte>) | Fin(generation: nat)

  const CAPACITY: nat := 100

  /** A call the reader still has to make for the event at hand. */
  datatype Call = ToClear(generation: nat) | ToQueue(item: Item)

  /** Idle between items; Trying from taking an item (or from the end of a back-off) to the next write;
      Waiting for the answer to the frame it wrote as message number `at`. */
  datatype Sender = Idle | Trying | Waiting(at: nat)

  /** The channel is produced[taken..], the wire written[delivered..]: both only grow at the end and shrink
      at the front. While the sender is not idle, its item is produced[taken - 1]. */
  datatype Sys = Sys(
    reader: Reader, todo: seq<Call>, readerUp: bool,
    produced: seq<Item>, taken: nat, sender: Sender, senderUp: bool,
    client: Client, delivered: nat,
    output: Output, serverUp: bool, accepted: seq<Item>,
    acks: seq<Ack>, mailbox: Option<Ack>,
    events: seq<Event>)

  const INITIAL := Sys(START, [], true, [], 0, Idle, true, Client(1, []), 0, OPENED, true, [], [], None, [])

  datatype Step =
    | ReaderEvent(event: Event)
    | ReaderQueues
    | ReaderClears(io: Io)
    | ReaderStops
    | SenderTakes
    | SenderWrites(io: Io)
    | SenderHears
    | SenderStops
    | ServerAnswers(env: Env)
    | ServerPlays(samples: nat)
    | ServerStops
    | AckArrives

  // ---------------------------------------------------------------- the steps

  /** The calls one event leads to. */
  function Calls(effect: Effect): seq<Call> {
    match effect
    case Clears(g) => [ToClear(g)]
    case Emits(g, pcm) => Queueing(g, Handed(pcm))
    case Finishes(g) => [ToQueue(Fin(g))]
    case _ => []
  }

  function Queueing(g: nat, blocks: seq<seq<Byte>>): seq<Call> {
    seq(|blocks|, i requires 0 <= i < |blocks| => ToQueue(Chunk(g, blocks[i])))
  }

  function DoEvent(s: Sys, e: Event): Sys
    requires s.readerUp && s.todo == []
  {
    var turn := ReadLoop.Step(s.reader, e);
    s.(reader := turn.reader, todo := Calls(turn.effect), readerUp := !turn.effect.Fails?,
       events := s.events + [e])
  }

  function DoQueue(s: Sys): Sys
    requires s.readerUp && s.todo != [] && s.todo[0].ToQueue?
    requires s.taken <= |s.produced|
  {
    if |s.produced| - s.taken < CAPACITY then
      s.(produced := s.produced + [s.todo[0].item], todo := s.todo[1..])
    else
      s.(readerUp := false)
  }

  function DoClear(s: Sys, io: Io): Sys
    requires s.readerUp && s.todo != [] && s.todo[0].ToClear?
  {
    var (c, outcome) := PcmStream.Clear(s.client, s.todo[0].generation, io);
    s.(client := c, todo := s.todo[1..], readerUp := outcome.Done?)
  }

  function Current(s: Sys): Item
    requires 0 < s.taken <= |s.produced|
  {
    s.produced[s.taken - 1]
  }

  function DoTake(s: Sys): Sys
    requires s.senderUp && s.sender.Idle? && s.taken < |s.produced|
  {
    s.(taken := s.taken + 1, sender := Trying)
  }

  function DoWrite(s: Sys, io: Io): Sys
    requires s.senderUp && s.sender.Trying? && 0 < s.taken <= |s.produced|
  {
    match Current(s)
    case Chunk(g, pcm) =>
      var (c, outcome) := TrySend(s.client, g, pcm, io);
      s.(client := c, senderUp := !outcome.Failed?,
         sender := if |c.written| > |s.client.written| then Waiting(|s.client.written|)
                   else if outcome.Skipped? then Idle else Trying)
    case Fin(g) =>
      var (c, outcome) := PcmStream.Finish(s.client, g, io);
      s.(client := c, senderUp := !outcome.Failed?, sender := Idle)
  }

  function DoHear(s: Sys): Sys
    requires s.senderUp && s.sender.Waiting? && s.mailbox.Some?
  {
    s.(mailbox := None, sender := if s.mailbox.value.Pushback? then Trying else Idle)
  }

  function DoAnswer(s: Sys, env: Env): Sys
    requires s.serverUp && s.delivered < |s.client.written|
  {
    var m := s.client.written[s.delivered];
    var reply := Handle(s.output, m, OUT_RATE, env);
    s.(delivered := s.delivered + 1, output := reply.output, serverUp := reply.up,
       acks := if reply.ack.Some? then s.acks + [reply.ack.value] else s.acks,
       accepted := if reply.taken then s.accepted + [Chunk(m.generation, m.pcm)] else s.accepted)
  }

  function DoArrive(s: Sys): Sys
    requires s.acks != [] && s.mailbox.None?
  {
    s.(mailbox := Some(s.acks[0]), acks := s.acks[1..])
  }

  predicate Enabled(s: Sys, step: Step) {
    s.taken <= |s.produced| &&
    match step
    case ReaderEvent(_) => s.readerUp && s.todo == []
    case ReaderQueues => s.readerUp && s.todo != [] && s.todo[0].ToQueue?
    case ReaderClears(_) => s.readerUp && s.todo != [] && s.todo[0].ToClear?
    case ReaderStops => true
    case SenderTakes => s.senderUp && s.sender.Idle? && s.taken < |s.produced|
    case SenderWrites(_) => s.senderUp && s.sender.Trying? && 0 < s.taken
    case SenderHears => s.senderUp && s.sender.Waiting? && s.mailbox.Some?
    case SenderStops => true
    case ServerAnswers(_) => s.serverUp && s.delivered < |s.client.written|
    case ServerPlays(n) => s.serverUp && n <= s.output.queued
    case ServerStops => true
    case AckArrives => s.acks != [] && s.mailbox.None?
  }

  function Apply(s: Sys, step: Step): Sys
    requires Enabled(s, step)
  {
    match step
    case ReaderEvent(e) => DoEvent(s, e)
    case ReaderQueues => DoQueue(s)
    case ReaderClears(io) => DoClear(s, io)
    case ReaderStops => s.(readerUp := false)
    case SenderTakes => DoTake(s)
    case SenderWrites(io) => DoWrite(s, io)
    case SenderHears => DoHear(s)
    case SenderStops => s.(senderUp := false)
    case ServerAnswers(env) => DoAnswer(s, env)
    case ServerPlays(n) => s.(output := s.output.(queued := s.output.queued - n))
    case ServerStops => s.(serverUp := false)
    case AckArrives => DoArrive(s)
  }

  /** `run` is an execution: it starts fresh and every state follows from the one before by an enabled step. */
  ghost predicate Run(run: seq<Sys>) {
    run != [] && run[0] == INITIAL &&
    forall i :: 0 < i < |run| ==> Follows(run[i - 1], run[i])
  }

  ghost predicate Follows(s: Sys, t: Sys) {
    exists step :: Enabled(s, step) && t == Apply(s, step)
  }

  // ---------------------------------------------------------------- what a step is

  /** What goes wrong in a step of the reader or the sender. */
  predicate GoesWrong(s: Sys, step: Step)
    requires Enabled(s, step)
  {
    match step
    case ReaderEvent(e) => ReadLoop.Step(s.reader, e).effect.Fails?
    case ReaderQueues => |s.produced| - s.taken >= 100
    case ReaderClears(io) => io.Broken? || s.todo[0].generation <= s.client.generation
    case SenderWrites(io) => io.Broken? && Current(s).generation == s.client.generation
    case _ => false
  }

  /** Reader and sender stop exactly when something goes wrong in a step of theirs, or when they are told to. */
  lemma ThreadsStopWhenTheyFail(s: Sys, step: Step)
    requires Enabled(s, step)
    ensures var t := Apply(s, step); var readers := step.ReaderEvent? || step.ReaderQueues? || step.ReaderClears?;
      && (t.readerUp <==> s.readerUp && !step.ReaderStops? && !(readers && GoesWrong(s, step)))
      && (t.senderUp <==> s.senderUp && !step.SenderStops? && !(step.SenderWrites? && GoesWrong(s, step)))
  {
  }

  /** The sender drops what belongs to a passed generation, writes the rest, and waits for the answer to a frame. */
  lemma SenderWritesOrDrops(s: Sys, io: Io)
    requires Enabled(s, SenderWrites(io))
    ensures var t, item, n := Apply(s, SenderWrites(io)), Current(s), |s.client.written|;
      var m := match item case Chunk(g, pcm) => Frame(g, pcm) case Fin(g) => FinishCommand(g);
      && (item.generation != s.client.generation ==> t == s.(sender := Idle))
      && (item.generation == s.client.generation ==>
            && t == s.(client := t.client, sender := t.sender, senderUp := io.Ok?)
            && t.client == s.client.(written := if io.Ok? || io.onWire then s.client.written + [m]
              else s.client.written)
            && t.sender == if item.Fin? then Idle else if io.Ok? || io.onWire then Waiting(n) else Trying)
  {
  }

  /** Anyone may stop at any time, and the mixer takes what it likes of what is queued; nothing else changes. */
  lemma AnyoneMayStop(s: Sys, samples: nat)
    requires s.taken <= |s.produced|
    ensures Enabled(s, ReaderStops) && Apply(s, ReaderStops) == s.(readerUp := false)
    ensures Enabled(s, SenderStops) && Apply(s, SenderStops) == s.(senderUp := false)
    ensures Enabled(s, ServerStops) && Apply(s, ServerStops) == s.(serverUp := false)
    ensures Enabled(s, ServerPlays(samples)) <==> s.serverUp && samples <= s.output.queued
    ensures Enabled(s, ServerPlays(samples)) ==>
      var t := Apply(s, ServerPlays(samples));
      t.output.queued + samples == s.output.queued && t == s.(output := s.output.(queued := t.output.queued))
  {
  }

  // ---------------------------------------------------------------- histories by generation

  /** The chunks of generation `g` among the first `n` items, in order. */
  function Pcms(items: seq<Item>, n: nat, g: nat): seq<seq<Byte>>
    requires n <= |items|
  {
    if n == 0 then []
    else if items[n - 1].Chunk? && items[n - 1].generation == g then Pcms(items, n - 1, g) + [items[n - 1].pcm]
    else Pcms(items, n - 1, g)
  }

  function AllPcms(items: seq<Item>, g: nat): seq<seq<Byte>> { Pcms(items, |items|, g) }

  lemma {:induction false} PcmsStable(items: seq<Item>, x: Item, n: nat, g: nat)
    requires n <= |items|
    ensures Pcms(items + [x], n, g) == Pcms(items, n, g)
  {
    if n == 0 {
    } else {
      PcmsStable(items, x, n - 1, g);
    }
  }

  lemma PcmsSnoc(items: seq<Item>, x: Item)
    ensures forall n, g :: 0 <= n <= |items| ==> Pcms(items + [x], n, g) == Pcms(items, n, g)
    ensures forall g :: AllPcms(items + [x], g)
                     == AllPcms(items, g) + if x.Chunk? && x.generation == g then [x.pcm] else []
  {
    forall n, g | 0 <= n <= |items|
      ensures Pcms(items + [x], n, g) == Pcms(items, n, g)
    {
      PcmsStable(items, x, n, g);
    }
  }

  lemma {:induction false} PcmsPrefix(items: seq<Item>, m: nat, n: nat, g: nat)
    requires m <= n <= |items|
    ensures Pcms(items, m, g) <= Pcms(items, n, g)
    decreases n
  {
    if m == n {
    } else {
      PcmsPrefix(items, m, n - 1, g);
    }
  }

  lemma {:induction false} NoPcmsAbove(items: seq<Item>, n: nat, g: nat)
    requires n <= |items| && forall i :: 0 <= i < n ==> items[i].generation < g
    ensures Pcms(items, n, g) == []
  {
    if n == 0 {
    } else {
      NoPcmsAbove(items, n - 1, g);
    }
  }

  // ---------------------------------------------------------------- invariants

  /** How many items the sender is done with. */
  function Settled(s: Sys): nat
    requires s.sender.Idle? || 0 < s.taken
  {
    if s.sender.Idle? then s.taken else s.taken - 1
  }

  ghost predicate Shape(s: Sys) {
    && s.taken <= |s.produced| && (s.sender.Idle? || 0 < s.taken)
    && s.delivered <= |s.client.written|
  }

  /** Wire discipline: the buffer's generation is that of the place it has read to, nothing queued is ahead
      of the wire, and only a reader whose clear failed to go out can leave the counter ahead. */
  ghost predicate Wire(s: Sys)
    requires Shape(s)
  {
    var ms := s.client.written;
    && Disciplined(ms)
    && s.output.generation == WireGeneration(ms, s.delivered)
    && (forall i :: 0 <= i < |s.produced| ==> s.produced[i].generation <= WireGeneration(ms, |ms|))
    && WireGeneration(ms, |ms|) <= s.client.generation
    && (s.readerUp ==> s.client.generation == WireGeneration(ms, |ms|))
  }

  /** What a running reader still has to do fits the counter. */
  ghost predicate Reading(s: Sys) {
    && s.client.generation < MODULUS && s.reader.generation < MODULUS
    && (s.readerUp ==>
         (s.todo == [ToClear(s.reader.generation)] && s.reader.generation == NextGeneration(s.client.generation))
         || (s.reader.generation == s.client.generation
             && forall c :: c in s.todo ==> c.ToQueue? && c.item.generation == s.reader.generation))
  }

  ghost predicate BlockItem(x: Item) { x.Chunk? ==> Block(x.pcm, TENTH) }

  ghost predicate Sized(s: Sys) {
    && (forall i :: 0 <= i < |s.produced| ==> BlockItem(s.produced[i]))
    && (forall c :: c in s.todo && c.ToQueue? ==> BlockItem(c.item))
  }

  /** Only message number `at` may be a frame in transit. */
  ghost predicate OnlyFrame(s: Sys, at: nat) {
    forall i :: s.delivered <= i < |s.client.written| && s.client.written[i].Frame? ==> i == at
  }

  ghost predicate NoFrame(s: Sys) {
    forall i :: s.delivered <= i < |s.client.written| ==> !s.client.written[i].Frame?
  }

  /** The buffer has taken from generation `g` exactly what the first `n` items hold of it. */
  ghost predicate Exact(s: Sys, n: nat, g: nat)
    requires n <= |s.produced|
  {
    AllPcms(s.accepted, g) == Pcms(s.produced, n, g)
  }

  /** An answer on its way tells the truth about the sender's item. */
  ghost predicate Truthful(s: Sys, a: Ack)
    requires Shape(s) && s.sender.Waiting?
  {
    match a
    case Accepted(_) => Exact(s, s.taken, Current(s).generation)
    case Pushback(_) => Exact(s, s.taken - 1, Current(s).generation)
    case Discarded(_) => false
  }

  /** Credit: at most one frame or answer is under way, and it belongs to the sender's item. */
  ghost predicate Credit(s: Sys)
    requires Shape(s)
  {
    match s.sender
    case Waiting(at) =>
      var it := Current(s);
      && it.Chunk? && at < |s.client.written| && s.client.written[at] == Frame(it.generation, it.pcm)
      && OnlyFrame(s, at)
      && |s.acks| + (if s.mailbox.Some? then 1 else 0) <= 1
      && (s.delivered <= at ==> s.acks == [] && s.mailbox.None? && Exact(s, s.taken - 1, it.generation))
      && (s.acks != [] ==> Truthful(s, s.acks[0]))
      && (s.mailbox.Some? ==> Truthful(s, s.mailbox.value))
      && (Exact(s, s.taken - 1, it.generation) || Exact(s, s.taken, it.generation))
      && (s.delivered > at && s.acks == [] && s.mailbox.None? ==> !s.serverUp)
    case _ => NoFrame(s) && s.acks == [] && s.mailbox.None?
  }

  /** Acceptance: every generation is a prefix, the current one is complete up to the sender's item. */
  ghost predicate Acceptance(s: Sys)
    requires Shape(s)
  {
    && (forall g :: AllPcms(s.accepted, g) <= Pcms(s.produced, s.taken, g))
    && ((s.sender.Waiting? && Current(s).generation == s.client.generation)
        || Exact(s, Settled(s), s.client.generation))
  }

  ghost predicate Inv(s: Sys) {
    Shape(s) && Wire(s) && Reading(s) && Sized(s) && Credit(s) && Acceptance(s)
  }

  /** The deltas the reader let through among the first `n` provider events. */
  function Emissions(es: seq<Event>, n: nat): seq<Item>
    requires n <= |es|
  {
    if n == 0 then []
    else match EffectAt(es, n - 1)
      case Emits(g, pcm) => Emissions(es, n - 1) + [Chunk(g, pcm)]
      case _ => Emissions(es, n - 1)
  }

  /** All audio the provider was allowed to play in generation `g`. */
  function Allowed(s: Sys, g: nat): seq<Byte> {
    Flatten(AllPcms(Emissions(s.events, |s.events|), g))
  }

  function TodoPcms(todo: seq<Call>, g: nat): seq<seq<Byte>> {
    if todo == [] then []
    else (if todo[0].ToQueue? && todo[0].item.Chunk? && todo[0].item.generation == g then [todo[0].item.pcm] else [])
         + TodoPcms(todo[1..], g)
  }

  /** What was queued, followed by what a running reader still has to queue, is what the provider was allowed to
      play. */
  ghost predicate FaithfulAt(s: Sys, g: nat) {
    var queued := Flatten(AllPcms(s.produced, g));
    queued <= Allowed(s, g) && (s.readerUp ==> Allowed(s, g) == queued + Flatten(TodoPcms(s.todo, g)))
  }

  ghost predicate Faithful(s: Sys) {
    s.reader == After(s.events, |s.events|) && forall g :: FaithfulAt(s, g)
  }

  // ---------------------------------------------------------------- every step keeps them

  lemma EventsTouchNoCredit(s: Sys, t: Sys)
    requires Shape(s) && Credit(s) && Acceptance(s)
    requires t == s.(reader := t.reader, todo := t.todo, readerUp := t.readerUp, events := t.events)
    ensures Shape(t) && Credit(t) && Acceptance(t)
  {
    hide AllPcms, Pcms;
  }

  lemma EventKeepsWire(s: Sys, e: Event)
    requires Shape(s) && Wire(s) && Reading(s) && Sized(s) && Enabled(s, ReaderEvent(e))
    ensures var t := DoEvent(s, e); Shape(t) && Wire(t) && Reading(t) && Sized(t)
  {
    hide Handed, Disciplined, WireGeneration;
    var t := DoEvent(s, e);
    var turn := ReadLoop.Step(s.reader, e);
    if turn.effect.Emits? {
      HandedPreserves(turn.effect.pcm);
      var blocks := Handed(turn.effect.pcm);
      forall c | c in t.todo
        ensures c.ToQueue? && c.item.generation == t.reader.generation && BlockItem(c.item)
      {
        var i :| 0 <= i < |blocks| && c == ToQueue(Chunk(turn.effect.generation, blocks[i]));
        assert blocks[i] in blocks;
      }
    }
  }

  lemma KeptByEvent(s: Sys, e: Event)
    requires Inv(s) && Enabled(s, ReaderEvent(e))
    ensures Inv(Apply(s, ReaderEvent(e)))
  {
    hide Wire, Reading, Sized, Credit, Acceptance, ReadLoop.Step;
    EventKeepsWire(s, e);
    EventsTouchNoCredit(s, DoEvent(s, e));
  }

  lemma QueueKeepsExact(s: Sys, t: Sys, x: Item)
    requires Shape(s) && t == s.(produced := s.produced + [x], todo := t.todo)
    ensures forall n, g :: 0 <= n <= |s.produced| ==> Pcms(t.produced, n, g) == Pcms(s.produced, n, g)
    ensures forall n, g :: 0 <= n <= |s.produced| ==> (Exact(t, n, g) <==> Exact(s, n, g))
    ensures Shape(t) && (0 < s.taken ==> Current(t) == Current(s))
  {
    PcmsSnoc(s.produced, x);
  }

  lemma QueueKeepsCredit(s: Sys, t: Sys, x: Item)
    requires Shape(s) && Credit(s) && Acceptance(s)
    requires t == s.(produced := s.produced + [x], todo := t.todo)
    ensures Shape(t) && Credit(t) && Acceptance(t)
  {
    QueueKeepsExact(s, t, x);
    hide Exact, AllPcms, Pcms, Current;
  }

  lemma QueueKeepsWire(s: Sys)
    requires Shape(s) && Wire(s) && Reading(s) && Sized(s) && Enabled(s, ReaderQueues)
    ensures var t := DoQueue(s); Shape(t) && Wire(t) && Reading(t) && Sized(t)
  {
    assert s.todo[0] in s.todo;
    assert forall c :: c in s.todo[1..] ==> c in s.todo;
  }

  lemma KeptByQueue(s: Sys)
    requires Inv(s) && Enabled(s, ReaderQueues)
    ensures Inv(Apply(s, ReaderQueues))
  {
    hide Wire, Reading, Sized, Credit, Acceptance;
    if |s.produced| - s.taken < CAPACITY {
      QueueKeepsWire(s);
      QueueKeepsCredit(s, DoQueue(s), s.todo[0].item);
    } else {
      KeptByOthers(s, ReaderStops);
    }
  }

  lemma ClearKeepsWire(s: Sys, io: Io)
    requires Shape(s) && Wire(s) && Reading(s) && Sized(s) && Enabled(s, ReaderClears(io))
    ensures var t := DoClear(s, io); Shape(t) && Wire(t) && Reading(t) && Sized(t)
  {
    assert s.todo[0] in s.todo;
    var g := s.todo[0].generation;
    if g > s.client.generation {
      DisciplinedSnoc(s.client.written, ClearCommand(g));
    }
  }

  lemma ClearKeepsCredit(s: Sys, io: Io)
    requires Shape(s) && Credit(s) && Enabled(s, ReaderClears(io))
    ensures var t := DoClear(s, io); Shape(t) && Credit(t)
  {
  }

  lemma ClearKeepsAcceptance(s: Sys, io: Io)
    requires Shape(s) && Acceptance(s) && Enabled(s, ReaderClears(io))
    requires forall i :: 0 <= i < |s.produced| ==> s.produced[i].generation <= s.client.generation
    ensures var t := DoClear(s, io); Shape(t) && Acceptance(t)
  {
    var g := s.todo[0].generation;
    if g > s.client.generation {
      NoPcmsAbove(s.produced, s.taken, g);
      NoPcmsAbove(s.produced, Settled(s), g);
      assert Exact(s, Settled(s), g);
    }
  }

  lemma KeptByClear(s: Sys, io: Io)
    requires Inv(s) && Enabled(s, ReaderClears(io))
    ensures Inv(Apply(s, ReaderClears(io)))
  {
    ClearKeepsWire(s, io);
    ClearKeepsCredit(s, io);
    ClearKeepsAcceptance(s, io);
  }

  lemma KeptByTake(s: Sys)
    requires Inv(s) && Enabled(s, SenderTakes)
    ensures Inv(Apply(s, SenderTakes))
  {
    var t := DoTake(s);
    forall g
      ensures AllPcms(t.accepted, g) <= Pcms(t.produced, t.taken, g)
    {
      PcmsPrefix(s.produced, s.taken, t.taken, g);
    }
  }

  lemma WriteKeepsWire(s: Sys, io: Io)
    requires Shape(s) && Wire(s) && Reading(s) && Enabled(s, SenderWrites(io))
    ensures var t := DoWrite(s, io); Shape(t) && Wire(t) && Reading(t)
  {
    var it, ms := Current(s), s.client.written;
    if it.generation == s.client.generation {
      assert it.generation == WireGeneration(ms, |ms|);
      DisciplinedSnoc(ms, if it.Chunk? then Frame(it.generation, it.pcm) else FinishCommand(it.generation));
    }
  }

  lemma WriteKeepsCredit(s: Sys, io: Io)
    requires Shape(s) && Credit(s) && Acceptance(s) && Enabled(s, SenderWrites(io))
    ensures var t := DoWrite(s, io); Shape(t) && Credit(t) && Acceptance(t)
  {
    assert Exact(s, s.taken - 1, s.client.generation);
  }

  lemma KeptByWrite(s: Sys, io: Io)
    requires Inv(s) && Enabled(s, SenderWrites(io))
    ensures Inv(Apply(s, SenderWrites(io)))
  {
    WriteKeepsWire(s, io);
    WriteKeepsCredit(s, io);
  }

  lemma KeptByHear(s: Sys)
    requires Inv(s) && Enabled(s, SenderHears)
    ensures Inv(Apply(s, SenderHears))
  {
    var t := DoHear(s);
    var it, at := Current(s), s.sender.at;
    assert s.delivered > at;
    assert NoFrame(t);
    assert s.acks == [];
    if it.generation == s.client.generation {
      assert Exact(t, Settled(t), t.client.generation);
    }
    assert Acceptance(t);
  }

  lemma AnswerKeepsWire(s: Sys, env: Env)
    requires Shape(s) && Wire(s) && Enabled(s, ServerAnswers(env))
    ensures var t := DoAnswer(s, env); Shape(t) && Wire(t)
  {
    assert Fits(s.client.written, s.delivered);
  }

  /** Answering the sender's frame: the buffer is at the frame's generation, so it is taken or pushed back. */
  lemma LastTaken(s: Sys)
    requires Shape(s) && 0 < s.taken && Current(s).Chunk?
    ensures forall g :: Pcms(s.produced, s.taken, g)
                     == Pcms(s.produced, s.taken - 1, g) + if Current(s).generation == g then [Current(s).pcm] else []
  {
  }

  lemma AnswerToFrame(s: Sys, env: Env)
    requires Shape(s) && Credit(s) && Acceptance(s) && Enabled(s, ServerAnswers(env))
    requires s.client.written[s.delivered].Frame?
    requires s.client.written[s.delivered].generation == s.output.generation
    ensures var t := DoAnswer(s, env); Shape(t) && Credit(t) && Acceptance(t)
  {
    hide AllPcms, Pcms, Expected, Larger, Yield;
    var t := DoAnswer(s, env);
    var it := Current(s);
    assert s.sender == Waiting(s.delivered);
    LastTaken(s);
    if t.accepted != s.accepted {
      PcmsSnoc(s.accepted, it);
      assert Exact(t, t.taken, it.generation);
    }
  }

  lemma AnswerToCommand(s: Sys, env: Env)
    requires Shape(s) && Credit(s) && Acceptance(s) && Enabled(s, ServerAnswers(env))
    requires !s.client.written[s.delivered].Frame?
    ensures var t := DoAnswer(s, env); Shape(t) && Credit(t) && Acceptance(t)
  {
  }

  lemma KeptByAnswer(s: Sys, env: Env)
    requires Inv(s) && Enabled(s, ServerAnswers(env))
    ensures Inv(Apply(s, ServerAnswers(env)))
  {
    AnswerKeepsWire(s, env);
    assert Fits(s.client.written, s.delivered);
    if s.client.written[s.delivered].Frame? {
      AnswerToFrame(s, env);
    } else {
      AnswerToCommand(s, env);
    }
  }

  lemma KeptByArrive(s: Sys)
    requires Inv(s) && Enabled(s, AckArrives)
    ensures Inv(Apply(s, AckArrives))
  {
  }

  predicate Other(step: Step) { step.ReaderStops? || step.SenderStops? || step.ServerPlays? || step.ServerStops? }

  lemma OthersKeepWire(s: Sys, step: Step)
    requires Inv(s) && Enabled(s, step) && Other(step)
    ensures var t := Apply(s, step); Shape(t) && Wire(t) && Reading(t) && Sized(t)
  {
  }

  lemma OthersKeepCredit(s: Sys, step: Step)
    requires Inv(s) && Enabled(s, step) && Other(step)
    ensures var t := Apply(s, step); Shape(t) && Credit(t) && Acceptance(t)
  {
    hide Wire, Reading, Sized, AllPcms, Pcms;
  }

  lemma KeptByOthers(s: Sys, step: Step)
    requires Inv(s) && Enabled(s, step) && Other(step)
    ensures Inv(Apply(s, step))
  {
    hide Shape, Wire, Reading, Sized, Credit, Acceptance, Apply, Enabled;
    OthersKeepWire(s, step);
    OthersKeepCredit(s, step);
  }

  lemma Kept(s: Sys, step: Step)
    requires Inv(s) && Enabled(s, step)
    ensures Inv(Apply(s, step))
  {
    match step
    case ReaderEvent(e) => KeptByEvent(s, e);
    case ReaderQueues => KeptByQueue(s);
    case ReaderClears(io) => KeptByClear(s, io);
    case SenderTakes => KeptByTake(s);
    case SenderWrites(io) => KeptByWrite(s, io);
    case SenderHears => KeptByHear(s);
    case ServerAnswers(env) => KeptByAnswer(s, env);
    case AckArrives => KeptByArrive(s);
    case _ => KeptByOthers(s, step);
  }

  lemma {:induction false} AfterStable(es: seq<Event>, e: Event, n: nat)
    requires n <= |es|
    ensures After(es + [e], n) == After(es, n)
  {
    if n == 0 {
    } else {
      hide ReadLoop.Step;
      AfterStable(es, e, n - 1);
      assert (es + [e])[n - 1] == es[n - 1];
    }
  }

  lemma EffectStable(es: seq<Event>, e: Event, i: nat)
    requires i < |es|
    ensures EffectAt(es + [e], i) == EffectAt(es, i)
  {
    AfterStable(es, e, i);
    assert (es + [e])[i] == es[i];
    hide ReadLoop.Step, After;
  }

  lemma {:induction false} EmissionsStable(es: seq<Event>, e: Event, n: nat)
    requires n <= |es|
    ensures Emissions(es + [e], n) == Emissions(es, n)
  {
    hide EffectAt;
    if n == 0 {
    } else {
      EmissionsStable(es, e, n - 1);
      EffectStable(es, e, n - 1);
    }
  }

  lemma {:induction false} QueueingPcms(g: nat, blocks: seq<seq<Byte>>, h: nat)
    ensures TodoPcms(Queueing(g, blocks), h) == if g == h then blocks else []
    decreases |blocks|
  {
    if blocks == [] {
    } else {
      assert Queueing(g, blocks)[1..] == Queueing(g, blocks[1..]);
      QueueingPcms(g, blocks[1..], h);
    }
  }

  lemma EmissionBytes(es: seq<Event>, e: Event, g: nat)
    ensures Flatten(AllPcms(Emissions(es + [e], |es| + 1), g))
         == Flatten(AllPcms(Emissions(es, |es|), g))
            + Flatten(TodoPcms(Calls(ReadLoop.Step(After(es, |es|), e).effect), g))
  {
    AfterStable(es, e, |es|);
    EmissionsStable(es, e, |es|);
    var effect := ReadLoop.Step(After(es, |es|), e).effect;
    var before := Emissions(es, |es|);
    if effect.Emits? {
      PcmsSnoc(before, Chunk(effect.generation, effect.pcm));
      HandedPreserves(effect.pcm);
      QueueingPcms(effect.generation, Handed(effect.pcm), g);
      FlattenSnoc(AllPcms(before, g), effect.pcm);
      assert AllPcms(before, g) + [] == AllPcms(before, g);
    } else {
      assert TodoPcms(Calls(effect), g) == [];
    }
  }

  lemma FlattenNothing<T>()
    ensures Flatten<T>([]) == []
  {
  }

  lemma FaithfulByEvent(s: Sys, e: Event, g: nat)
    requires s.reader == After(s.events, |s.events|) && FaithfulAt(s, g) && s.readerUp && s.todo == []
    ensures FaithfulAt(DoEvent(s, e), g)
  {
    hide ReadLoop.Step, Flatten;
    EmissionBytes(s.events, e, g);
    FlattenNothing<Byte>();
    assert Allowed(s, g) == Flatten(AllPcms(s.produced, g)) + [];
  }

  lemma FaithfulByQueue(s: Sys, g: nat)
    requires FaithfulAt(s, g) && s.readerUp && s.todo != [] && s.todo[0].ToQueue? && s.taken <= |s.produced|
    ensures FaithfulAt(DoQueue(s), g)
  {
    var x := s.todo[0].item;
    PcmsSnoc(s.produced, x);
    var moved := if x.Chunk? && x.generation == g then [x.pcm] else [];
    FlattenMove(AllPcms(s.produced, g), moved, TodoPcms(s.todo[1..], g));
    assert TodoPcms(s.todo, g) == moved + TodoPcms(s.todo[1..], g);
  }

  lemma FaithfulByOthers(s: Sys, step: Step, g: nat)
    requires FaithfulAt(s, g) && Enabled(s, step) && !step.ReaderEvent? && !step.ReaderQueues?
    ensures FaithfulAt(Apply(s, step), g)
  {
    var t := Apply(s, step);
    if step.ReaderClears? {
      assert TodoPcms(s.todo, g) == TodoPcms(t.todo, g);
    }
    assert t.events == s.events && t.produced == s.produced;
  }

  lemma FaithfulKeptAt(s: Sys, step: Step, g: nat)
    requires s.reader == After(s.events, |s.events|) && FaithfulAt(s, g) && Enabled(s, step)
    ensures FaithfulAt(Apply(s, step), g)
  {
    match step
    case ReaderEvent(e) => FaithfulByEvent(s, e, g);
    case ReaderQueues => FaithfulByQueue(s, g);
    case _ => FaithfulByOthers(s, step, g);
  }

  lemma FaithfulKept(s: Sys, step: Step)
    requires Faithful(s) && Enabled(s, step)
    ensures Faithful(Apply(s, step))
  {
    hide FaithfulAt, ReadLoop.Step;
    if step.ReaderEvent? {
      AfterStable(s.events, step.event, |s.events|);
    }
    forall g
      ensures FaithfulAt(Apply(s, step), g)
    {
      FaithfulKeptAt(s, step, g);
    }
  }

  lemma {:induction false} Always(run: seq<Sys>, i: nat)
    requires Run(run) && i < |run|
    ensures Inv(run[i]) && Faithful(run[i])
  {
    if i > 0 {
      Always(run, i - 1);
      assert Follows(run[i - 1], run[i]);
      var step :| Enabled(run[i - 1], step) && run[i] == Apply(run[i - 1], step);
      Kept(run[i - 1], step);
      FaithfulKept(run[i - 1], step);
    }
  }

  // ---------------------------------------------------------------- what it comes to

  /** Exactly once, in order: what the buffer took of a generation is a prefix of the chunks queued for it,
      and its bytes are a prefix of the audio the provider was allowed to play in that generation. */
  lemma ExactlyOnceInOrder(run: seq<Sys>, i: nat, g: nat)
    requires Run(run) && i < |run|
    ensures AllPcms(run[i].accepted, g) <= AllPcms(run[i].produced, g)
    ensures Flatten(AllPcms(run[i].accepted, g)) <= Allowed(run[i], g)
  {
    var s := run[i];
    Always(run, i);
    PcmsPrefix(s.produced, s.taken, |s.produced|, g);
    FlattenPrefix(AllPcms(s.accepted, g), AllPcms(s.produced, g));
    assert FaithfulAt(s, g);
  }

  /** The frames among the messages still in transit from place `n`. */
  function FramesFrom(ms: seq<Msg>, n: nat): nat
    requires n <= |ms|
    decreases |ms| - n
  {
    if n == |ms| then 0 else (if ms[n].Frame? then 1 else 0) + FramesFrom(ms, n + 1)
  }

  lemma {:induction false} FewFrames(ms: seq<Msg>, n: nat, at: nat)
    requires n <= |ms| && forall i :: n <= i < |ms| && ms[i].Frame? ==> i == at
    ensures FramesFrom(ms, n) <= if n <= at then 1 else 0
    decreases |ms| - n
  {
    if n < |ms| {
      FewFrames(ms, n + 1, at);
    }
  }

  /** Stop and wait: never more than one frame or answer under way, counting the receiver's mailbox. */
  lemma OneOutstanding(run: seq<Sys>, i: nat)
    requires Run(run) && i < |run|
    ensures var s := run[i];
            s.delivered <= |s.client.written| &&
            FramesFrom(s.client.written, s.delivered) + |s.acks| + (if s.mailbox.Some? then 1 else 0) <= 1
  {
    var s := run[i];
    Always(run, i);
    FewFrames(s.client.written, s.delivered,
              if s.sender.Waiting? then s.sender.at else if s.delivered > 0 then s.delivered - 1
                else |s.client.written|);
  }

  /** `n` items are all the sender has got, or all but the one it is busy with. */
  predicate Got(s: Sys, n: nat) { n <= |s.produced| && (n == s.taken || (n == s.taken - 1 && !s.sender.Idle?)) }

  /** The current generation is never missing anything, failures or not: the buffer took of it exactly what the
      channel has given the sender, save possibly the item the sender is still busy with. */
  lemma NothingLost(run: seq<Sys>, i: nat) returns (n: nat)
    requires Run(run) && i < |run|
    ensures Got(run[i], n)
    ensures AllPcms(run[i].accepted, run[i].client.generation) == Pcms(run[i].produced, n, run[i].client.generation)
  {
    Always(run, i);
    var s := run[i];
    n := if s.sender.Waiting? && Exact(s, s.taken, s.client.generation) then s.taken else Settled(s);
    assert Exact(s, n, s.client.generation);
  }

  lemma {:induction false} ClearWasWritten(ms: seq<Msg>, n: nat, g: nat) returns (k: nat)
    requires Disciplined(ms) && n <= |ms| && 1 <= g < WireGeneration(ms, n)
    ensures k < n && ms[k] == ClearCommand(g + 1)
  {
    assert Fits(ms, n - 1);
    if ms[n - 1].ClearCommand? && WireGeneration(ms, n) == g + 1 {
      k := n - 1;
    } else {
      k := ClearWasWritten(ms, n - 1, g);
    }
  }

  /** The clear that ends generation `g` is on the wire. */
  predicate Cleared(s: Sys, g: nat) { ClearCommand(g + 1) in s.client.written }

  /** A generation lacks more than the item in hand only because the clear that ends it went out, or because the
      reader failed in a clear after it. */
  lemma CutShortOnlyByClear(run: seq<Sys>, i: nat, g: nat) returns (n: nat)
    requires Run(run) && i < |run| && g >= 1
    ensures Got(run[i], n)
    ensures || AllPcms(run[i].accepted, g) == Pcms(run[i].produced, n, g)
            || Cleared(run[i], g)
            || (!run[i].readerUp && g < run[i].client.generation)
  {
    var s := run[i];
    Always(run, i);
    var ms := s.client.written;
    n := NothingLost(run, i);
    if g > s.client.generation {
      NoPcmsAbove(s.produced, n, g);
      NoPcmsAbove(s.produced, s.taken, g);
      assert AllPcms(s.accepted, g) <= [];
    } else if g < WireGeneration(ms, |ms|) {
      var k := ClearWasWritten(ms, |ms|, g);
    }
  }

  /** Once a running reader is done with its event and the sender has caught up, all the audio the provider was
      allowed to play in a generation has been taken, or the clear that ends it went out. */
  lemma AllIsTakenUnlessCleared(run: seq<Sys>, i: nat, g: nat)
    requires Run(run) && i < |run| && g >= 1
    requires run[i].readerUp && run[i].todo == [] && run[i].sender.Idle? && run[i].taken == |run[i].produced|
    ensures Flatten(AllPcms(run[i].accepted, g)) == Allowed(run[i], g) || Cleared(run[i], g)
  {
    Always(run, i);
    assert FaithfulAt(run[i], g);
    FlattenNothing<Byte>();
    var n := CutShortOnlyByClear(run, i, g);
  }

  /** In every state of a run a reader or sender that is up has its next step: the reader once it has an event, the
      sender once it has an item or an answer. */
  lemma ThreadsGoOn(run: seq<Sys>, i: nat, e: Event, io: Io)
    requires Run(run) && i < |run|
    ensures var s := run[i];
      && (s.readerUp ==>
            Enabled(s, if s.todo == [] then ReaderEvent(e) else if s.todo[0].ToQueue? then ReaderQueues
              else ReaderClears(io)))
      && (s.senderUp && s.sender.Trying? ==> Enabled(s, SenderWrites(io)))
      && (s.senderUp && s.sender.Idle? && s.taken < |s.produced| ==> Enabled(s, SenderTakes))
      && (s.senderUp && s.sender.Waiting? && s.mailbox.Some? ==> Enabled(s, SenderHears))
  {
    Always(run, i);
    hide Wire, Reading, Sized, Credit, Acceptance, Faithful;
  }

  /** Every message carries the generation of its place on the wire, so generations never go backwards. */
  lemma WireOrder(run: seq<Sys>, i: nat, k: nat)
    requires Run(run) && i < |run| && k < |run[i].client.written|
    ensures Fits(run[i].client.written, k)
  {
    Always(run, i);
  }

  /** The counter refuses a clear of the reader in one case only: the reader's own counter has wrapped. */
  lemma ClearRefusedOnlyOnWrap(run: seq<Sys>, i: nat, io: Io)
    requires Run(run) && i < |run| && Enabled(run[i], ReaderClears(io))
    ensures PcmStream.Clear(run[i].client, run[i].todo[0].generation, io).1.Rejected?
        <==> run[i].client.generation == MODULUS - 1
  {
    Always(run, i);
    assert run[i].todo[0] in run[i].todo;
  }

  /** A finish goes out only when everything queued before it for its generation has been taken. */
  lemma FinishAfterAll(run: seq<Sys>, i: nat, io: Io)
    requires Run(run) && i < |run| && Enabled(run[i], SenderWrites(io))
    requires Current(run[i]).Fin? && Current(run[i]).generation == run[i].client.generation
    ensures AllPcms(run[i].accepted, Current(run[i]).generation)
         == Pcms(run[i].produced, run[i].taken - 1, Current(run[i]).generation)
  {
    Always(run, i);
    assert Exact(run[i], Settled(run[i]), run[i].client.generation);
  }

  /** The Switch never sees a stale message or a malformed block: it refuses a frame only after a finish of the
      same generation, or when the session is closed or the resampler fails, and a finish only when the resampler
      fails or what it still holds does not fit. */
  lemma ServerNeverStale(run: seq<Sys>, i: nat, env: Env)
    requires Run(run) && i < |run| && Enabled(run[i], ServerAnswers(env))
    ensures var m, o := run[i].client.written[run[i].delivered], run[i].output;
            var reply := Handle(o, m, OUT_RATE, env);
            && (m.Frame? && !env.closed && !o.finished && env.resampled && env.acked ==>
                 reply.up && reply.ack == Some(if reply.taken then Accepted(m.generation) else Pushback(m.generation)))
            && (m.ClearCommand? ==> reply.up && reply.output.generation == m.generation)
            && (m.FinishCommand? ==>
                 (reply.up <==> !o.resampling || (env.resampled && (o.queued + env.converted) as real <= MAX_SAMPLES)))
  {
    var s := run[i];
    Always(run, i);
    assert Fits(s.client.written, s.delivered);
    if s.client.written[s.delivered].Frame? {
      assert BlockItem(Current(s));
    }
  }

  // ---------------------------------------------------------------- the bound of the buffer

  /** The resampler gives out no more than it was given. */
  predicate Honest(s: Sys, step: Step)
    requires Enabled(s, step)
  {
    step.ServerAnswers? ==>
      var m := s.client.written[s.delivered];
      && (m.Frame? ==> step.env.converted as real <= s.output.pending + Expected(|m.pcm| / 2, OUT_RATE))
      && (m.FinishCommand? ==> step.env.converted as real <= s.output.pending)
  }

  ghost predicate FollowsHonestly(s: Sys, t: Sys) {
    exists step :: Enabled(s, step) && Honest(s, step) && t == Apply(s, step)
  }

  ghost predicate HonestRun(run: seq<Sys>) {
    run != [] && run[0] == INITIAL && forall i :: 0 < i < |run| ==> FollowsHonestly(run[i - 1], run[i])
  }

  lemma AnswerKeepsBound(o: Output, m: Msg, env: Env)
    requires Bounded(o)
    requires m.Frame? ==> env.converted as real <= o.pending + Expected(|m.pcm| / 2, OUT_RATE)
    requires m.FinishCommand? ==> env.converted as real <= o.pending
    ensures Bounded(Handle(o, m, OUT_RATE, env).output)
  {
    hide Expected;
    if m.Frame? && WriteRate(o, m.generation, |m.pcm| / 2, OUT_RATE, env).1.Accept? {
      AcceptedWriteKeepsBound(o, m.generation, |m.pcm| / 2, OUT_RATE, env);
    }
  }

  lemma StepKeepsBound(s: Sys, step: Step)
    requires Enabled(s, step) && Honest(s, step) && Bounded(s.output)
    ensures Bounded(Apply(s, step).output)
  {
    hide Handle, Expected, ReadLoop.Step, Handed;
    if step.ServerAnswers? {
      AnswerKeepsBound(s.output, s.client.written[s.delivered], step.env);
    }
  }

  /** In every run with such a resampler the buffer, what is inside the resampler included, stays within 200 ms. */
  lemma {:induction false} BufferStaysBounded(run: seq<Sys>, i: nat)
    requires HonestRun(run) && i < |run|
    ensures Bounded(run[i].output)
  {
    if i == 0 {
    } else {
      hide Apply, Enabled, Honest, Bounded;
      BufferStaysBounded(run, i - 1);
      assert FollowsHonestly(run[i - 1], run[i]);
      var step :| Enabled(run[i - 1], step) && Honest(run[i - 1], step) && run[i] == Apply(run[i - 1], step);
      StepKeepsBound(run[i - 1], step);
    }
  }

  // ---------------------------------------------------------------- the counter does wrap

  /** Speech that starts again and again drives the reader to every generation. */
  lemma {:induction false} EveryGenerationIsReached(g: nat) returns (run: seq<Sys>)
    requires 1 <= g < MODULUS
    ensures Run(run)
    ensures var s := run[|run| - 1];
            && s.readerUp && s.todo == [] && s.produced == [] && s.taken == 0
            && s.reader.generation == g && s.client.generation == g
  {
    if g == 1 {
      run := [INITIAL];
    } else {
      var before := EveryGenerationIsReached(g - 1);
      var s := before[|before| - 1];
      var heard := Apply(s, ReaderEvent(SpeechStarted));
      assert Follows(s, heard);
      var cleared := Apply(heard, ReaderClears(Io.Ok));
      assert Follows(heard, cleared);
      run := before + [heard, cleared];
    }
  }

  /** The counter does wrap in a run: there the reader's clear is refused, and the reader ends. */
  lemma WrapIsReached() returns (run: seq<Sys>)
    ensures Run(run) && run[|run| - 1].client.generation == MODULUS - 1
    ensures var s := run[|run| - 1];
            && Enabled(s, ReaderClears(Io.Ok)) && s.todo == [ToClear(0)]
            && PcmStream.Clear(s.client, 0, Io.Ok).1.Rejected? && !Apply(s, ReaderClears(Io.Ok)).readerUp
  {
    var before := EveryGenerationIsReached(MODULUS - 1);
    var s := before[|before| - 1];
    var heard := Apply(s, ReaderEvent(SpeechStarted));
    assert Follows(s, heard);
    run := before + [heard];
  }
}
