/** The Switch end of the application-audio socket: the bounded output buffer and the loop that
    answers every frame with exactly one acknowledgement. */
module MediaServer {
  import opened Seqs
  import opened ReadLoop
  import opened PcmStream

  /** Mixer rate in Hz, and the buffer bound of 200 ms in mixer samples. */
  const MIX_RATE := 8000
  const MAX_SAMPLES: real := 1600.0

  /** `queued` samples wait for the mixer; `pending` estimates those still inside the resampler, if there is one. */
  datatype Output = Output(generation: nat, finished: bool, queued: nat, pending: real, resampling: bool)

  const OPENED := Output(1, false, 0, 0.0, false)

  datatype Verdict = Accept | Backpressure | Stale | Refuse

  /** What only the running system decides: whether the media session was closed, whether the resampler
      works and how many samples it gives out now, and whether the acknowledgement can be written. */
  datatype Env = Env(closed: bool, resampled: bool, converted: nat, acked: bool)

  function Load(o: Output): real { o.queued as real + o.pending }

  /** The mixer samples a block stands for. */
  function Expected(samples: nat, rate: nat): real
    requires rate > 0
  {
    samples as real * MIX_RATE as real / rate as real
  }

  /** The mixer samples a block yields at once. */
  function Yield(samples: nat, rate: nat, env: Env): nat { if rate == MIX_RATE then samples else env.converted }

  function WriteRate(o: Output, g: nat, samples: nat, rate: nat, env: Env): (Output, Verdict) {
    if g != o.generation then (o, Stale)
    else if o.finished then (o, Refuse)
    else if rate == 0 then (o, Refuse)
    else if Load(o) + Expected(samples, rate) > MAX_SAMPLES then (o, Backpressure)
    else if rate != MIX_RATE && !env.resampled then (o, Refuse)
    else
      var out := Yield(samples, rate, env);
      (Output(o.generation, false, o.queued + out, Larger(0.0, o.pending + Expected(samples, rate) - out as real),
              o.resampling || rate != MIX_RATE),
       Accept)
  }

  function ClearOutput(o: Output, g: nat): (Output, bool) {
    if g <= o.generation then (o, false) else (Output(g, false, 0, 0.0, false), true)
  }

  /** A finish empties the resampler, if there is one; what it still held must fit. */
  function FinishOutput(o: Output, g: nat, env: Env): (Output, bool) {
    if g != o.generation then (o, false)
    else if !o.resampling then (o.(finished := true), true)
    else if !env.resampled then (o.(finished := true, resampling := false), false)
    else (Output(g, true, o.queued + env.converted, 0.0, false), (o.queued + env.converted) as real <= MAX_SAMPLES)
  }

  /** The bound of the buffer, counting what is inside the resampler. */
  predicate Bounded(o: Output) { o.pending >= 0.0 && Load(o) <= MAX_SAMPLES }

  /** What an accepted write does to the load: the bound holds afterwards exactly if the queue itself fits, and it is
      certain to hold if the resampler gives out no more than it was given. */
  lemma AcceptedWriteKeepsBound(o: Output, g: nat, samples: nat, rate: nat, env: Env)
    requires Bounded(o) && rate > 0 && WriteRate(o, g, samples, rate, env).1.Accept?
    ensures var t := WriteRate(o, g, samples, rate, env).0;
      && Load(t) == Larger(Load(o) + Expected(samples, rate), t.queued as real)
      && (Bounded(t) <==> t.queued as real <= MAX_SAMPLES)
      && (rate == MIX_RATE || env.converted as real <= o.pending + Expected(samples, rate) ==> Bounded(t))
  {
    if rate == MIX_RATE {
      assert Expected(samples, rate) == samples as real;
    }
  }

  /** A block the stream takes: whole samples, at most one second. */
  predicate WholeBlock(pcm: seq<Byte>, rate: nat) {
    pcm != [] && |pcm| % 2 == 0 && |pcm| <= rate * 2
  }

  datatype Ack = Accepted(generation: nat) | Pushback(generation: nat) | Discarded(generation: nat)

  /** The answer to one message: the buffer, the acknowledgement if one is sent, whether the block was
      taken, and whether the loop goes on. */
  datatype Reply = Reply(output: Output, ack: Option<Ack>, taken: bool, up: bool)

  function Handle(o: Output, m: Msg, rate: nat, env: Env): Reply {
    match m
    case Frame(g, pcm) =>
      if |pcm| < 2 || env.closed || !WholeBlock(pcm, rate) then Reply(o, None, false, false)
      else
        var (o', verdict) := WriteRate(o, g, |pcm| / 2, rate, env);
        if verdict.Refuse? then Reply(o', None, false, false)
        else
          var ack := match verdict
            case Backpressure => Pushback(g)
            case Stale => Discarded(g)
            case _ => Accepted(g);
          Reply(o', if env.acked then Some(ack) else None, verdict.Accept?, env.acked)
    case ClearCommand(g) =>
      var (o', ok) := ClearOutput(o, g);
      Reply(o', None, false, ok)
    case FinishCommand(g) =>
      var (o', ok) := FinishOutput(o, g, env);
      Reply(o', None, false, ok)
  }

  /** An acknowledgement tells the client what became of its frame. */
  lemma AckTellsTheVerdict(o: Output, g: nat, pcm: seq<Byte>, rate: nat, env: Env)
    ensures var reply := Handle(o, Frame(g, pcm), rate, env);
      && (reply.ack == Some(Accepted(g)) ==> reply.taken && g == o.generation)
      && (reply.ack == Some(Pushback(g)) ==> !reply.taken && reply.output == o && g == o.generation)
      && (reply.ack == Some(Discarded(g)) ==> !reply.taken && reply.output == o && g != o.generation)
      && (reply.ack.Some? ==> reply.ack.value.generation == g) && (reply.up <==> reply.ack.Some?)
      && var fit := pcm != [] && |pcm| % 2 == 0 && |pcm| <= 2 * rate && !env.closed;
         var (after, verdict) := WriteRate(o, g, |pcm| / 2, rate, env);
         && reply.output == (if fit then after else o) && (reply.taken <==> fit && verdict.Accept?)
         && (reply.up <==> fit && !verdict.Refuse? && env.acked)
  {
  }

  class AudioOutput {
    var generation: nat
    var finished: bool
    var queued: nat
    var pending: real
    var resampling: bool

    constructor ()
      ensures View() == OPENED
    {
      generation, finished, queued, pending, resampling := 1, false, 0, 0.0, false;
    }

    function View(): Output
      reads this
    {
      Output(generation, finished, queued, pending, resampling)
    }

    method Write(g: nat, samples: nat, rate: nat, env: Env) returns (verdict: Verdict)
      modifies this
      ensures (View(), verdict) == WriteRate(old(View()), g, samples, rate, env)
      ensures verdict.Stale? <==> g != old(generation)
      ensures verdict.Backpressure? <==>
        && g == old(generation) && !old(finished) && rate > 0
        && old(queued) as real + old(pending) + samples as real * 8000.0 / rate as real > 1600.0
      ensures verdict.Refuse? ==> old(finished) || rate == 0 || (rate != 8000 && !env.resampled)
      ensures verdict.Accept? ==>
        && !old(finished) && rate > 0 && (rate == 8000 || env.resampled) && generation == old(generation) && !finished
        && queued == old(queued) + (if rate == 8000 then samples else env.converted)
        && pending == Larger(0.0, old(pending) + samples as real * 8000.0 / rate as real
                                  - (queued - old(queued)) as real)
        && (resampling <==> old(resampling) || rate != 8000)
      ensures !verdict.Accept? ==> View() == old(View())
    {
      if g != generation {
        return Stale;
      }
      if finished || rate == 0 {
        return Refuse;
      }
      var expected := samples as real * MIX_RATE as real / rate as real;
      if queued as real + pending + expected > MAX_SAMPLES {
        return Backpressure;
      }
      var out := samples;
      if rate != MIX_RATE {
        if !env.resampled {
          return Refuse;
        }
        resampling := true;
        out := env.converted;
      }
      queued := queued + out;
      pending := Larger(0.0, pending + expected - out as real);
      verdict := Accept;
    }

    method Clear(g: nat) returns (ok: bool)
      modifies this
      ensures (View(), ok) == ClearOutput(old(View()), g)
      ensures ok <==> g > old(generation)
      ensures View() == if ok then OPENED.(generation := g) else old(View())
    {
      if g <= generation {
        return false;
      }
      generation, queued, finished, resampling, pending := g, 0, false, false, 0.0;
      ok := true;
    }

    method Finish(g: nat, env: Env) returns (ok: bool)
      modifies this
      ensures (View(), ok) == FinishOutput(old(View()), g, env)
      ensures g != old(generation) ==> !ok && View() == old(View())
      ensures g == old(generation) ==>
        && finished && !resampling && generation == g
        && queued == old(queued) + (if old(resampling) && env.resampled then env.converted else 0)
        && pending == (if old(resampling) && env.resampled then 0.0 else old(pending))
        && (ok <==> !old(resampling) || (env.resampled && queued as real <= 1600.0))
    {
      if g != generation {
        return false;
      }
      finished := true;
      if resampling {
        resampling := false;
        if !env.resampled {
          return false;
        }
        queued, pending := queued + env.converted, 0.0;
        if queued as real > MAX_SAMPLES {
          return false;
        }
      }
      ok := true;
    }

    /** One pass of the socket loop. */
    method Answer(m: Msg, rate: nat, env: Env) returns (ack: Option<Ack>, taken: bool, up: bool)
      modifies this
      ensures Reply(View(), ack, taken, up) == Handle(old(View()), m, rate, env)
    {
      ack, taken, up := None, false, true;
      match m {
        case Frame(g, pcm) =>
          if |pcm| < 2 || env.closed || !WholeBlock(pcm, rate) {
            up := false;
            return;
          }
          var verdict := Write(g, |pcm| / 2, rate, env);
          var kind := Accepted(g);
          match verdict {
            case Backpressure => kind := Pushback(g);
            case Stale => kind := Discarded(g);
            case Refuse => up := false; return;
            case Accept => taken := true;
          }
          if env.acked {
            ack := Some(kind);
          } else {
            up := false;
          }
        case ClearCommand(g) =>
          up := Clear(g);
        case FinishCommand(g) =>
          up := Finish(g, env);
      }
    }

    /** The socket loop over the messages that arrive: it stops at the first failure. */
    method ReadMediaOutput(ms: seq<Msg>, envs: seq<Env>, rate: nat) returns (acks: seq<Ack>, taken: seq<Msg>, up: bool)
      requires |envs| == |ms|
      modifies this
      ensures Served(View(), acks, taken, up) == ServeAll(old(View()), ms, envs, rate)
    {
      acks, taken, up := [], [], true;
      var i := 0;
      while i < |ms| && up
        invariant 0 <= i <= |ms|
        invariant ServeAll(old(View()), ms, envs, rate)
               == Continue(Served(View(), acks, taken, up), ms[i..], envs[i..], rate)
      {
        var ack, took;
        ack, took, up := Answer(ms[i], rate, envs[i]);
        if ack.Some? {
          acks := acks + [ack.value];
        }
        if took {
          taken := taken + [ms[i]];
        }
        i := i + 1;
      }
    }
  }

  datatype Served = Served(output: Output, acks: seq<Ack>, taken: seq<Msg>, up: bool)

  function Serve(s: Served, m: Msg, env: Env, rate: nat): Served {
    var r := Handle(s.output, m, rate, env);
    Served(r.output, if r.ack.Some? then s.acks + [r.ack.value] else s.acks,
           if r.taken then s.taken + [m] else s.taken, r.up)
  }

  function Continue(s: Served, ms: seq<Msg>, envs: seq<Env>, rate: nat): Served
    requires |envs| == |ms|
    decreases |ms|
  {
    if ms == [] || !s.up then s else Continue(Serve(s, ms[0], envs[0], rate), ms[1..], envs[1..], rate)
  }

  function ServeAll(o: Output, ms: seq<Msg>, envs: seq<Env>, rate: nat): Served
    requires |envs| == |ms|
  {
    Continue(Served(o, [], [], true), ms, envs, rate)
  }

  function Frames(ms: seq<Msg>): nat {
    if ms == [] then 0 else (if ms[0].Frame? then 1 else 0) + Frames(ms[1..])
  }

  lemma OneServe(s: Served, m: Msg, env: Env, rate: nat)
    requires Serve(s, m, env, rate).up
    ensures var t := Serve(s, m, env, rate);
            && |t.acks| == |s.acks| + (if m.Frame? then 1 else 0)
            && AcceptedCount(t.acks) - AcceptedCount(s.acks) == |t.taken| - |s.taken|
  {
    var t := Serve(s, m, env, rate);
    if m.Frame? {
      assert t.acks[..|s.acks|] == s.acks;
    }
  }

  /** A loop that has not failed has sent one acknowledgement per frame, one of them "accepted" per block taken. */
  lemma {:induction false} OneAckPerFrame(s: Served, ms: seq<Msg>, envs: seq<Env>, rate: nat)
    requires |envs| == |ms| && Continue(s, ms, envs, rate).up
    ensures |Continue(s, ms, envs, rate).acks| == |s.acks| + Frames(ms)
    ensures AcceptedCount(Continue(s, ms, envs, rate).acks) - AcceptedCount(s.acks)
         == |Continue(s, ms, envs, rate).taken| - |s.taken|
    decreases |ms|
  {
    if ms == [] {
    } else {
      var s' := Serve(s, ms[0], envs[0], rate);
      OneAckPerFrame(s', ms[1..], envs[1..], rate);
      OneServe(s, ms[0], envs[0], rate);
    }
  }

  function AcceptedCount(acks: seq<Ack>): nat {
    if acks == [] then 0 else AcceptedCount(acks[..|acks| - 1]) + if acks[|acks| - 1].Accepted? then 1 else 0
  }
}
