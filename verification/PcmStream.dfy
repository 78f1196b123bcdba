/** The client end of the application-audio socket: three critical sections over one generation counter. */
module PcmStream {
  import opened Seqs
  import opened ReadLoop

  datatype Msg =
    | Frame(generation: nat, pcm: seq<Byte>)
    | ClearCommand(generation: nat)
    | FinishCommand(generation: nat)

  /** The counter, and every message written to the socket so far. */
  datatype Client = Client(generation: nat, written: seq<Msg>)

  /** How a socket write ends. A write that reports an error may still have put the message on the wire. */
  datatype Io = Ok | Broken(onWire: bool)

  datatype Outcome = Skipped | Done | Rejected | Failed

  function Put(c: Client, m: Msg, io: Io): (Client, Outcome) {
    (if io.Ok? || io.onWire then c.(written := c.written + [m]) else c, if io.Ok? then Done else Failed)
  }

  /** One round of Send between taking and releasing the mutex. */
  function TrySend(c: Client, g: nat, pcm: seq<Byte>, io: Io): (Client, Outcome) {
    if g != c.generation then (c, Skipped) else Put(c, Frame(g, pcm), io)
  }

  function Clear(c: Client, g: nat, io: Io): (Client, Outcome) {
    if g <= c.generation then (c, Rejected) else Put(c.(generation := g), ClearCommand(g), io)
  }

  function Finish(c: Client, g: nat, io: Io): (Client, Outcome) {
    if g != c.generation then (c, Skipped) else Put(c, FinishCommand(g), io)
  }

  /** What Send hears after a frame: an answer, which may ask to try again, or nothing in time. */
  datatype Heard = Answered(pushback: bool) | TimedOut

  /** One round of Send; before it another thread may get in a Clear. */
  datatype Round = Round(clear: Option<(nat, Io)>, io: Io, heard: Heard)

  function Interrupted(c: Client, r: Round): Client {
    if r.clear.Some? then Clear(c, r.clear.value.0, r.clear.value.1).0 else c
  }

  /** The client after the first `n` rounds, and how Send has ended; None while it goes on. */
  function Rounds(c: Client, g: nat, pcm: seq<Byte>, rs: seq<Round>, n: nat): (Client, Option<Outcome>)
    requires n <= |rs|
  {
    if n == 0 then (c, None)
    else
      var (before, outcome) := Rounds(c, g, pcm, rs, n - 1);
      if outcome.Some? then (before, outcome)
      else
        var (after, written) := TrySend(Interrupted(before, rs[n - 1]), g, pcm, rs[n - 1].io);
        (after, if !written.Done? then Some(written)
                else if rs[n - 1].heard.TimedOut? then Some(Failed)
                else if rs[n - 1].heard.pushback then None else Some(Done))
  }

  class PCMStream {
    var generation: nat
    var written: seq<Msg>

    constructor ()
      ensures View() == Client(1, [])
    {
      generation, written := 1, [];
    }

    function View(): Client
      reads this
    {
      Client(generation, written)
    }

    method Write(m: Msg, io: Io) returns (outcome: Outcome)
      modifies this`written
      ensures (View(), outcome) == Put(old(View()), m, io)
    {
      if io.Ok? || io.onWire {
        written := written + [m];
      }
      outcome := if io.Ok? then Done else Failed;
    }

    method SendOnce(g: nat, pcm: seq<Byte>, io: Io) returns (outcome: Outcome)
      modifies this
      ensures (View(), outcome) == TrySend(old(View()), g, pcm, io)
      ensures generation == old(generation) && (outcome.Skipped? <==> g != generation)
      ensures g == generation && (io.Ok? || io.onWire) ==> written == old(written) + [Frame(g, pcm)]
      ensures g != generation || (io.Broken? && !io.onWire) ==> written == old(written)
    {
      if g != generation {
        return Skipped;
      }
      outcome := Write(Frame(g, pcm), io);
    }

    /** The retry loop. */
    method Send(g: nat, pcm: seq<Byte>, rs: seq<Round>) returns (outcome: Option<Outcome>)
      modifies this
      ensures (View(), outcome) == Rounds(old(View()), g, pcm, rs, |rs|)
    {
      hide TrySend, Clear;
      var n := 0;
      while n < |rs|
        invariant 0 <= n <= |rs|
        invariant (View(), None) == Rounds(old(View()), g, pcm, rs, n)
      {
        if rs[n].clear.Some? {
          var cleared := ClearTo(rs[n].clear.value.0, rs[n].clear.value.1);
        }
        var written := SendOnce(g, pcm, rs[n].io);
        n := n + 1;
        if !written.Done? {
          outcome := Some(written);
          RoundsEnd(old(View()), g, pcm, rs, n, |rs|);
          return;
        }
        if rs[n - 1].heard.TimedOut? {
          outcome := Some(Failed);
          RoundsEnd(old(View()), g, pcm, rs, n, |rs|);
          return;
        }
        if !rs[n - 1].heard.pushback {
          outcome := Some(Done);
          RoundsEnd(old(View()), g, pcm, rs, n, |rs|);
          return;
        }
      }
      outcome := None;
    }

    method ClearTo(g: nat, io: Io) returns (outcome: Outcome)
      modifies this
      ensures (View(), outcome) == Clear(old(View()), g, io)
      ensures (outcome.Rejected? <==> g <= old(generation)) && generation == if g > old(generation) then g
        else old(generation)
      ensures written == if g > old(generation) && (io.Ok? || io.onWire) then old(written) + [ClearCommand(g)]
        else old(written)
    {
      if g <= generation {
        return Rejected;
      }
      generation := g;
      outcome := Write(ClearCommand(g), io);
    }

    method FinishAt(g: nat, io: Io) returns (outcome: Outcome)
      modifies this
      ensures (View(), outcome) == Finish(old(View()), g, io)
      ensures generation == old(generation) && (outcome.Skipped? <==> g != generation)
      ensures written == if g == generation && (io.Ok? || io.onWire) then old(written) + [FinishCommand(g)]
        else old(written)
    {
      if g != generation {
        return Skipped;
      }
      outcome := Write(FinishCommand(g), io);
    }
  }

  // ---------------------------------------------------------------- the retry loop

  lemma {:induction false} RoundsEnd(c: Client, g: nat, pcm: seq<Byte>, rs: seq<Round>, m: nat, n: nat)
    requires m <= n <= |rs| && Rounds(c, g, pcm, rs, m).1.Some?
    ensures Rounds(c, g, pcm, rs, n) == Rounds(c, g, pcm, rs, m)
    decreases n
  {
    if m == n {
    } else {
      RoundsEnd(c, g, pcm, rs, m, n - 1);
    }
  }

  /** The frames among the first `n` messages. */
  function FramesIn(ms: seq<Msg>, n: nat): nat
    requires n <= |ms|
  {
    if n == 0 then 0 else FramesIn(ms, n - 1) + if ms[n - 1].Frame? then 1 else 0
  }

  function FramesOf(c: Client): nat { FramesIn(c.written, |c.written|) }

  lemma {:induction false} FramesStable(ms: seq<Msg>, m: Msg, n: nat)
    requires n <= |ms|
    ensures FramesIn(ms + [m], n) == FramesIn(ms, n)
  {
    if n == 0 {
    } else {
      FramesStable(ms, m, n - 1);
    }
  }

  lemma PutCounts(c: Client, m: Msg, io: Io)
    ensures FramesOf(Put(c, m, io).0) <= FramesOf(c) + (if m.Frame? then 1 else 0)
    ensures io.Ok? || !m.Frame? ==> FramesOf(Put(c, m, io).0) == FramesOf(c) + (if m.Frame? then 1 else 0)
  {
    FramesStable(c.written, m, |c.written|);
  }

  lemma InterruptionCounts(c: Client, r: Round)
    ensures FramesOf(Interrupted(c, r)) == FramesOf(c) && Interrupted(c, r).generation >= c.generation
  {
    if r.clear.Some? {
      PutCounts(c.(generation := r.clear.value.0), ClearCommand(r.clear.value.0), r.clear.value.1);
    }
  }

  /** Stop and wait: every frame but the last has been pushed back before the next one goes out. While Send goes on,
      each round so far has put exactly one frame on the wire. */
  lemma {:induction false} OneFramePerPushback(c: Client, g: nat, pcm: seq<Byte>, rs: seq<Round>, n: nat)
    requires n <= |rs|
    ensures var (after, outcome) := Rounds(c, g, pcm, rs, n);
      && (outcome.None? ==> FramesOf(after) == FramesOf(c) + n && forall k :: 0 <= k < n ==>
        rs[k].heard == Answered(true))
      && FramesOf(after) <= FramesOf(c) + n
  {
    if n == 0 {
    } else {
      hide FramesOf;
      OneFramePerPushback(c, g, pcm, rs, n - 1);
      var (before, outcome) := Rounds(c, g, pcm, rs, n - 1);
      InterruptionCounts(before, rs[n - 1]);
      PutCounts(Interrupted(before, rs[n - 1]), Frame(g, pcm), rs[n - 1].io);
    }
  }

  /** Once the counter has passed the frame's generation, Send puts nothing more on the wire, and ends. */
  lemma {:induction false} NoFrameAfterClear(c: Client, g: nat, pcm: seq<Byte>, rs: seq<Round>, m: nat, n: nat)
    requires m < n <= |rs| && Interrupted(Rounds(c, g, pcm, rs, m).0, rs[m]).generation > g
    ensures FramesOf(Rounds(c, g, pcm, rs, n).0) == FramesOf(Rounds(c, g, pcm, rs, m).0)
      && Rounds(c, g, pcm, rs, n).1.Some?
  {
    hide FramesOf;
    InterruptionCounts(Rounds(c, g, pcm, rs, m).0, rs[m]);
    RoundsEnd(c, g, pcm, rs, m + 1, n);
    if Rounds(c, g, pcm, rs, m).1.Some? {
      RoundsEnd(c, g, pcm, rs, m, n);
    }
  }

  // ---------------------------------------------------------------- order on the wire

  /** 1 + the number of clears among the first `n` messages. */
  function WireGeneration(ms: seq<Msg>, n: nat): nat
    requires n <= |ms|
  {
    if n == 0 then 1 else WireGeneration(ms, n - 1) + if ms[n - 1].ClearCommand? then 1 else 0
  }

  /** A frame or finish carries the wire generation of its place, a clear the next one. */
  predicate Fits(ms: seq<Msg>, i: nat)
    requires i < |ms|
  {
    ms[i].generation == WireGeneration(ms, i) + if ms[i].ClearCommand? then 1 else 0
  }

  predicate Disciplined(ms: seq<Msg>) {
    forall i :: 0 <= i < |ms| ==> Fits(ms, i)
  }

  lemma {:induction false} WireGenerationStable(ms: seq<Msg>, m: Msg, n: nat)
    requires n <= |ms|
    ensures WireGeneration(ms + [m], n) == WireGeneration(ms, n)
  {
    if n == 0 {
    } else {
      WireGenerationStable(ms, m, n - 1);
    }
  }

  lemma DisciplinedSnoc(ms: seq<Msg>, m: Msg)
    requires Disciplined(ms)
    requires m.generation == WireGeneration(ms, |ms|) + if m.ClearCommand? then 1 else 0
    ensures Disciplined(ms + [m])
    ensures WireGeneration(ms + [m], |ms| + 1) == WireGeneration(ms, |ms|) + if m.ClearCommand? then 1 else 0
    ensures forall n :: 0 <= n <= |ms| ==> WireGeneration(ms + [m], n) == WireGeneration(ms, n)
  {
    forall n | 0 <= n <= |ms|
      ensures WireGeneration(ms + [m], n) == WireGeneration(ms, n)
    {
      WireGenerationStable(ms, m, n);
    }
    forall i | 0 <= i < |ms + [m]|
      ensures Fits(ms + [m], i)
    {
      if i < |ms| {
        assert Fits(ms, i);
      }
    }
  }
}
