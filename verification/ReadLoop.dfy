/** The provider side of an AI voice session: which provider events become audio, under which
    generation, and how a large delta is cut into transport blocks. */
module ReadLoop {
  import opened Seqs

  /** Generations are unsigned 64-bit numbers and wrap around. */
  const MODULUS: nat := 0x1_0000_0000_0000_0000

  function NextGeneration(g: nat): nat { if g + 1 == MODULUS then 0 else g + 1 }

  datatype Reader = Reader(generation: nat, current: string, blocked: set<string>, interrupted: bool)

  const START := Reader(1, "", {}, false)

  /** A provider event after JSON decoding. `id` is response_id, or response.id when the former is empty;
      `pcm` is None when the base64 text of a delta does not decode. */
  datatype Event =
    | SpeechStarted
    | Created(id: string)
    | AudioDelta(id: string, pcm: Option<seq<Byte>>)
    | AudioDone(id: string)
    | ProviderError
    | Other

  /** What one event makes the loop do. */
  datatype Effect =
    | Quiet
    | Clears(generation: nat)
    | Emits(generation: nat, pcm: seq<Byte>)
    | Finishes(generation: nat)
    | Fails

  datatype Turn = Turn(reader: Reader, effect: Effect)

  function Step(r: Reader, e: Event): Turn {
    match e
    case SpeechStarted =>
      var g := NextGeneration(r.generation);
      Turn(Reader(g, r.current, if r.current != "" then r.blocked + {r.current} else r.blocked, true), Clears(g))
    case Created(id) =>
      if id == "" || id in r.blocked then Turn(r, Quiet)
      else var g := NextGeneration(r.generation); Turn(Reader(g, id, r.blocked, false), Clears(g))
    case AudioDelta(id, pcm) =>
      if r.interrupted || (id != "" && id in r.blocked) then Turn(r, Quiet)
      else if r.current != "" && id != "" && id != r.current then Turn(r, Quiet)
      else
        var r' := if r.current == "" then r.(current := id) else r;
        if pcm.None? || |pcm.value| % 2 != 0 then Turn(r', Fails) else Turn(r', Emits(r.generation, pcm.value))
    case AudioDone(id) =>
      if r.interrupted || (id != "" && (id in r.blocked || id != r.current)) then Turn(r, Quiet)
      else Turn(r, Finishes(r.generation))
    case ProviderError => Turn(r, Fails)
    case Other => Turn(r, Quiet)
  }

  /** The loop's variables and one pass of its body; the fields are the locals of the source's loop. */
  class Session {
    var generation: nat
    var current: string
    var blocked: set<string>
    var interrupted: bool

    constructor ()
      ensures View() == START
    {
      generation, current, blocked, interrupted := 1, "", {}, false;
    }

    function View(): Reader
      reads this
    {
      Reader(generation, current, blocked, interrupted)
    }

    method Handle(e: Event) returns (effect: Effect)
      modifies this
      ensures Turn(View(), effect) == Step(old(View()), e)
    {
      effect := Quiet;
      match e {
        case SpeechStarted =>
          if current != "" {
            blocked := blocked + {current};
          }
          interrupted := true;
          generation := NextGeneration(generation);
          effect := Clears(generation);
        case Created(id) =>
          if id == "" || id in blocked {
            return;
          }
          current := id;
          interrupted := false;
          generation := NextGeneration(generation);
          effect := Clears(generation);
        case AudioDelta(id, pcm) =>
          if interrupted || (id != "" && id in blocked) {
            return;
          }
          if current != "" && id != "" && id != current {
            return;
          }
          if current == "" {
            current := id;
          }
          if pcm.None? || |pcm.value| % 2 != 0 {
            effect := Fails;
            return;
          }
          effect := Emits(generation, pcm.value);
        case AudioDone(id) =>
          if interrupted || (id != "" && (id in blocked || id != current)) {
            return;
          }
          effect := Finishes(generation);
        case ProviderError =>
          effect := Fails;
        case Other =>
      }
    }
  }

  // ---------------------------------------------------------------- event histories

  /** The loop variables after the first `n` events of a history. */
  function After(es: seq<Event>, n: nat): Reader
    requires n <= |es|
  {
    if n == 0 then START else Step(After(es, n - 1), es[n - 1]).reader
  }

  function EffectAt(es: seq<Event>, i: nat): Effect
    requires i < |es|
  {
    Step(After(es, i), es[i]).effect
  }

  predicate EmitsAt(es: seq<Event>, i: nat)
    requires i < |es|
  {
    EffectAt(es, i).Emits?
  }

  /** The response an emission at `i` plays: the id the loop holds once the delta has been taken. */
  function PlayedAt(es: seq<Event>, i: nat): string
    requires i < |es|
  {
    After(es, i + 1).current
  }

  /** An uninterrupted loop never holds a blocked id, and generations stay in 64 bits. */
  predicate Healthy(r: Reader) {
    "" !in r.blocked && (!r.interrupted ==> r.current !in r.blocked) && r.generation < MODULUS
  }

  lemma StepKeepsHealthy(r: Reader, e: Event)
    requires Healthy(r)
    ensures Healthy(Step(r, e).reader) && r.blocked <= Step(r, e).reader.blocked
  {
  }

  /** Blocked ids stay blocked. */
  lemma {:induction false} BlockedForever(es: seq<Event>, i: nat, j: nat)
    requires i <= j <= |es|
    ensures After(es, i).blocked <= After(es, j).blocked
    ensures "" !in After(es, j).blocked
    ensures !After(es, j).interrupted ==> After(es, j).current !in After(es, j).blocked
    ensures After(es, j).generation < MODULUS
    decreases j
  {
    if j == 0 {
    } else {
      hide Step;
      BlockedForever(es, if i < j then i else j - 1, j - 1);
      StepKeepsHealthy(After(es, j - 1), es[j - 1]);
    }
  }

  /** An emission plays the id it names, if it names one, and never a blocked response. */
  lemma {:induction false} EmissionsPlayUnblocked(es: seq<Event>, j: nat)
    requires j < |es| && EmitsAt(es, j)
    ensures es[j].AudioDelta? && (es[j].id == "" || es[j].id == PlayedAt(es, j))
    ensures PlayedAt(es, j) !in After(es, j).blocked
  {
    BlockedForever(es, j, j);
  }

  lemma EmissionsKeepTheTurn(es: seq<Event>, j: nat)
    requires j < |es| && EmitsAt(es, j)
    ensures EffectAt(es, j).generation == After(es, j).generation == After(es, j + 1).generation
    ensures After(es, j).current in {"", After(es, j + 1).current}
  {
  }

  /** A response that was playing when the caller began to speak is never heard again. */
  lemma InterruptedNeverReplays(es: seq<Event>, i: nat, j: nat)
    requires i < j < |es| && es[i] == SpeechStarted && After(es, i).current != ""
    requires EmitsAt(es, j)
    ensures PlayedAt(es, j) != After(es, i).current
  {
    BlockedForever(es, i + 1, j);
    EmissionsPlayUnblocked(es, j);
  }

  /** Audio of the interrupted response that comes late, naming it or naming none, is heard exactly if it names none
      and another response has been accepted since the caller last spoke. */
  lemma LateAudioIsHeardIffUnnamed(es: seq<Event>, i: nat, j: nat)
    requires i < j < |es| && es[i] == SpeechStarted && After(es, i).current != ""
    requires es[j].AudioDelta? && es[j].id in {"", After(es, i).current}
    requires es[j].pcm.Some? && |es[j].pcm.value| % 2 == 0
    ensures EmitsAt(es, j) <==> es[j].id == "" && !After(es, j).interrupted
  {
    BlockedForever(es, i + 1, j);
    assert After(es, i).current in After(es, i + 1).blocked;
  }

  /** Which happens: "a" is interrupted, "b" begins, and audio that names no response is played as that of "b". */
  lemma UnnamedLateAudioIsPlayed(pcm: seq<Byte>)
    requires |pcm| % 2 == 0
    ensures var es := [Created("a"), SpeechStarted, Created("b"), AudioDelta("", Some(pcm))];
      After(es, 1).current == "a" && EffectAt(es, 3) == Emits(4, pcm) && PlayedAt(es, 3) == "b"
  {
    var es := [Created("a"), SpeechStarted, Created("b"), AudioDelta("", Some(pcm))];
    assert "b"[0] != "a"[0];
    assert After(es, 1) == Reader(2, "a", {}, false);
    assert After(es, 2) == Reader(3, "a", {"a"}, true);
    assert After(es, 3) == Reader(4, "b", {"a"}, false);
  }

  /** The loop accepts the response announced at `k`. */
  predicate AcceptsAt(es: seq<Event>, k: nat)
    requires k < |es|
  {
    es[k].Created? && EffectAt(es, k).Clears?
  }

  /** From the start of speech until the next accepted response nothing is emitted or finished, whatever it names. */
  lemma {:induction false} SilentAfterSpeech(es: seq<Event>, i: nat, j: nat)
    requires i < j <= |es| && es[i] == SpeechStarted
    requires forall k :: i < k < j ==> !AcceptsAt(es, k)
    ensures After(es, j).interrupted
    ensures j < |es| && (es[j].AudioDelta? || es[j].AudioDone?) ==> EffectAt(es, j) == Quiet
    decreases j
  {
    if i < j - 1 {
      SilentAfterSpeech(es, i, j - 1);
      assert !AcceptsAt(es, j - 1);
    }
  }

  /** How many clears the events `i..j` cause. */
  function ClearsBetween(es: seq<Event>, i: nat, j: nat): nat
    requires i <= j <= |es|
    decreases j
  {
    if i == j then 0 else ClearsBetween(es, i, j - 1) + if EffectAt(es, j - 1).Clears? then 1 else 0
  }

  /** The generation of place `n`: 1 and the clears before it, in 64 bits. */
  function Numbered(es: seq<Event>, n: nat): nat
    requires n <= |es|
  {
    (1 + ClearsBetween(es, 0, n)) % MODULUS
  }

  lemma NextIsOneMore(x: nat)
    ensures NextGeneration(x % MODULUS) == (x + 1) % MODULUS
  {
  }

  lemma ClearsMoveOn(r: Reader, e: Event)
    ensures Step(r, e).reader.generation
         == if Step(r, e).effect.Clears? then NextGeneration(r.generation) else r.generation
  {
  }

  /** From any point to any later one the generation moves by the number of clears, modulo 2^64. */
  lemma {:induction false} GenerationCountsClears(es: seq<Event>, i: nat, j: nat)
    requires i <= j <= |es|
    ensures After(es, j).generation == (After(es, i).generation + ClearsBetween(es, i, j)) % MODULUS
    decreases j
  {
    if i == j {
      BlockedForever(es, i, i);
    } else {
      hide NextGeneration, Step;
      GenerationCountsClears(es, i, j - 1);
      ClearsMoveOn(After(es, j - 1), es[j - 1]);
      NextIsOneMore(After(es, i).generation + ClearsBetween(es, i, j - 1));
    }
  }

  lemma {:induction false} GenerationIsNumbered(es: seq<Event>, n: nat)
    requires n <= |es|
    ensures After(es, n).generation == Numbered(es, n)
  {
    GenerationCountsClears(es, 0, n);
  }

  lemma {:induction false} ClearsAtMostEvents(es: seq<Event>, i: nat, j: nat)
    requires i <= j <= |es|
    ensures ClearsBetween(es, i, j) <= j - i
    decreases j
  {
    if i == j {
    } else {
      ClearsAtMostEvents(es, i, j - 1);
    }
  }

  /** While nothing is cleared, an id once adopted stays. */
  lemma {:induction false} AdoptedIdStays(es: seq<Event>, i: nat, j: nat)
    requires i <= j <= |es| && ClearsBetween(es, i, j) == 0 && After(es, i).current != ""
    ensures After(es, j).current == After(es, i).current
    decreases j
  {
    if i == j {
    } else {
      AdoptedIdStays(es, i, j - 1);
    }
  }

  /** All audio of one generation that names a response names the same one. Generations repeat only
      after 2^64 clears, so two emissions closer than that share a generation only without a clear between. */
  lemma OneResponsePerGeneration(es: seq<Event>, i: nat, j: nat)
    requires i < j < |es| && j - i < MODULUS
    requires EmitsAt(es, i) && EmitsAt(es, j) && EffectAt(es, i).generation == EffectAt(es, j).generation
    requires es[i].id != "" && es[j].id != ""
    ensures es[i].id == es[j].id
  {
    hide After, ClearsBetween, EffectAt;
    EmissionsKeepTheTurn(es, i);
    EmissionsKeepTheTurn(es, j);
    EmissionsPlayUnblocked(es, i);
    EmissionsPlayUnblocked(es, j);
    BlockedForever(es, i, i + 1);
    ClearsAtMostEvents(es, i + 1, j);
    GenerationCountsClears(es, i + 1, j);
    AdoptedIdStays(es, i + 1, j);
  }

  // ---------------------------------------------------------------- what is heard

  /** The caller interrupted the response `id` before place `n`. */
  ghost predicate InterruptedBefore(es: seq<Event>, n: nat, id: string)
    requires n <= |es|
  {
    id != "" && exists i :: 0 <= i < n && es[i] == SpeechStarted && After(es, i).current == id
  }

  lemma {:induction false} BlockedIsInterrupted(es: seq<Event>, n: nat, id: string)
    requires n <= |es|
    ensures id in After(es, n).blocked <==> InterruptedBefore(es, n, id)
  {
    if n == 0 {
    } else {
      BlockedIsInterrupted(es, n - 1, id);
      if InterruptedBefore(es, n, id) && !InterruptedBefore(es, n - 1, id) {
        assert es[n - 1] == SpeechStarted && After(es, n - 1).current == id;
      }
    }
  }

  /** The generation is cleared when the caller begins to speak and when a response is announced that has an id and was
      not interrupted before, to the next number, and at no other time. */
  lemma ClearsAtSpeechAndNewResponses(es: seq<Event>, j: nat)
    requires j < |es|
    ensures es[j] == SpeechStarted || (es[j].Created? && es[j].id != "" && !InterruptedBefore(es, j, es[j].id))
            <==> EffectAt(es, j).Clears?
    ensures EffectAt(es, j).Clears? ==> EffectAt(es, j) == Clears(Numbered(es, j + 1))
    ensures es[j] == ProviderError ==> EffectAt(es, j) == Fails
    ensures es[j] == Other || (es[j].Created? && !EffectAt(es, j).Clears?) ==> EffectAt(es, j) == Quiet
  {
    if es[j].Created? {
      BlockedIsInterrupted(es, j, es[j].id);
    }
    GenerationIsNumbered(es, j + 1);
  }

  /** What an event means while `playing` is the response to be heard, in generation `g`. */
  function Played(e: Event, playing: string, g: nat): Effect
    requires e.AudioDelta? || e.AudioDone?
  {
    match e
    case AudioDelta(id, Some(pcm)) =>
      if id !in {"", playing} then Quiet else if |pcm| % 2 == 0 then Emits(g, pcm) else Fails
    case AudioDelta(id, None) => if id !in {"", playing} then Quiet else Fails
    case AudioDone(id) => if id in {"", playing} then Finishes(g) else Quiet
  }

  /** The response announced at `k` is the one to be heard at `j`. */
  predicate Playing(es: seq<Event>, k: nat, j: nat)
    requires k < j <= |es|
  {
    AcceptsAt(es, k) && forall m :: k < m < j ==> es[m] != SpeechStarted && !AcceptsAt(es, m)
  }

  lemma {:induction false} PlayingIsHeld(es: seq<Event>, k: nat, j: nat)
    requires k < j <= |es| && Playing(es, k, j)
    ensures var r := After(es, j); r.current == es[k].id && es[k].id != "" && !r.interrupted
    decreases j
  {
    if k == j - 1 {
    } else {
      PlayingIsHeld(es, k, j - 1);
      assert !AcceptsAt(es, j - 1);
    }
  }

  /** The accepted response is heard: until the caller speaks or another response is accepted, all its audio is emitted
      and its end finishes the generation, whether they name it or name none; what names another response is not. */
  lemma AcceptedResponseIsHeard(es: seq<Event>, k: nat, j: nat)
    requires k < j < |es| && Playing(es, k, j) && (es[j].AudioDelta? || es[j].AudioDone?)
    ensures EffectAt(es, j) == Played(es[j], es[k].id, Numbered(es, j))
  {
    PlayingIsHeld(es, k, j);
    BlockedForever(es, j, j);
    GenerationIsNumbered(es, j);
  }

  /** The first response that audio names. */
  function FirstNamed(es: seq<Event>, n: nat): string
    requires n <= |es|
  {
    if n == 0 then ""
    else if FirstNamed(es, n - 1) != "" || !es[n - 1].AudioDelta? then FirstNamed(es, n - 1)
    else es[n - 1].id
  }

  /** Nobody has spoken and no response has been accepted. */
  predicate Untouched(es: seq<Event>, n: nat)
    requires n <= |es|
  {
    forall m :: 0 <= m < n ==> es[m] != SpeechStarted && !AcceptsAt(es, m)
  }

  lemma {:induction false} UntouchedHolds(es: seq<Event>, n: nat)
    requires n <= |es| && Untouched(es, n)
    ensures After(es, n) == Reader(1, FirstNamed(es, n), {}, false)
  {
    if n == 0 {
    } else {
      UntouchedHolds(es, n - 1);
      assert !AcceptsAt(es, n - 1);
    }
  }

  /** A provider that announces nothing is heard, too: the first response its audio names, in generation 1. */
  lemma {:induction false} UnannouncedResponseIsHeard(es: seq<Event>, j: nat)
    requires j < |es| && Untouched(es, j) && (es[j].AudioDelta? || es[j].AudioDone?)
    ensures EffectAt(es, j)
         == Played(es[j], if es[j].AudioDelta? && FirstNamed(es, j) == "" then es[j].id else FirstNamed(es, j), 1)
  {
    UntouchedHolds(es, j);
  }

  // ---------------------------------------------------------------- cutting a delta into blocks

  /** Consecutive blocks of at most `n` bytes. */
  function Blocks(pcm: seq<Byte>, n: nat): seq<seq<Byte>>
    requires n > 0
    decreases |pcm|
  {
    if pcm == [] then []
    else if |pcm| <= n then [pcm]
    else [pcm[..n]] + Blocks(pcm[n..], n)
  }

  /** Every block of the first cut, cut again. */
  function Recut(blocks: seq<seq<Byte>>, n: nat): seq<seq<Byte>>
    requires n > 0
  {
    if blocks == [] then [] else Recut(blocks[..|blocks| - 1], n) + Blocks(blocks[|blocks| - 1], n)
  }

  /** What a block on its way to the wire must be. */
  predicate Block(b: seq<Byte>, n: nat) { 0 < |b| <= n && |b| % 2 == 0 }

  lemma {:induction false} BlocksPreserve(pcm: seq<Byte>, n: nat)
    requires n > 0 && n % 2 == 0 && |pcm| % 2 == 0
    ensures Flatten(Blocks(pcm, n)) == pcm
    ensures forall b :: b in Blocks(pcm, n) ==> Block(b, n)
    decreases |pcm|
  {
    if pcm == [] {
    } else if |pcm| <= n {
      FlattenSnoc([], pcm);
      assert [] + [pcm] == [pcm];
    } else {
      BlocksPreserve(pcm[n..], n);
      FlattenConcat([pcm[..n]], Blocks(pcm[n..], n));
      FlattenSnoc([], pcm[..n]);
      assert [] + [pcm[..n]] == [pcm[..n]];
      assert pcm == pcm[..n] + pcm[n..];
    }
  }

  lemma {:induction false} RecutPreserves(blocks: seq<seq<Byte>>, n: nat)
    requires n > 0 && n % 2 == 0
    requires forall b :: b in blocks ==> |b| % 2 == 0
    ensures Flatten(Recut(blocks, n)) == Flatten(blocks)
    ensures forall b :: b in Recut(blocks, n) ==> Block(b, n)
  {
    if blocks == [] {
    } else {
      var init, last := blocks[..|blocks| - 1], blocks[|blocks| - 1];
      RecutPreserves(init, n);
      BlocksPreserve(last, n);
      FlattenConcat(Recut(init, n), Blocks(last, n));
    }
  }

  /** Sample rate of every provider, and the two block sizes derived from it. */
  const OUT_RATE: nat := 24000
  const SECOND: nat := OUT_RATE * 2
  const TENTH: nat := OUT_RATE / 10 * 2

  /** The blocks handed over for one delta. */
  function Handed(pcm: seq<Byte>): seq<seq<Byte>> {
    Recut(Blocks(pcm, SECOND), TENTH)
  }

  /** Cutting loses, adds and reorders nothing, and every block is a whole number of samples of at most 100 ms. */
  lemma HandedPreserves(pcm: seq<Byte>)
    requires |pcm| % 2 == 0
    ensures Flatten(Handed(pcm)) == pcm
    ensures forall b :: b in Handed(pcm) ==> Block(b, TENTH)
  {
    BlocksPreserve(pcm, SECOND);
    RecutPreserves(Blocks(pcm, SECOND), TENTH);
  }

  lemma BlocksStep(pcm: seq<Byte>, n: nat)
    requires n > 0 && pcm != []
    ensures var m := if |pcm| < n then |pcm| else n; Blocks(pcm, n) == [pcm[..m]] + Blocks(pcm[m..], n)
  {
    if |pcm| <= n {
      assert pcm[|pcm|..] == [] && pcm[..|pcm|] == pcm;
    }
  }

  lemma RecutSnoc(blocks: seq<seq<Byte>>, b: seq<Byte>, n: nat)
    requires n > 0
    ensures Recut(blocks + [b], n) == Recut(blocks, n) + Blocks(b, n)
  {
    assert (blocks + [b])[..|blocks|] == blocks;
  }

  lemma NothingToCut(n: nat)
    requires n > 0
    ensures Blocks([], n) == [] && Recut([], n) == []
  {
  }

  /** The two nested loops of the source: seconds outside, tenths inside. */
  method Cut(pcm: seq<Byte>) returns (out: seq<seq<Byte>>)
    ensures out == Handed(pcm)
  {
    hide Blocks, Recut;
    NothingToCut(SECOND);
    NothingToCut(TENTH);
    out := [];
    ghost var done: seq<seq<Byte>> := [];
    var rest := pcm;
    while |rest| > 0
      invariant done + Blocks(rest, SECOND) == Blocks(pcm, SECOND)
      invariant out == Recut(done, TENTH)
      decreases |rest|
    {
      var n := if |rest| < SECOND then |rest| else SECOND;
      BlocksStep(rest, SECOND);
      var b := rest[..n];
      ghost var whole, before := b, out;
      while |b| > 0
        invariant out + Blocks(b, TENTH) == before + Blocks(whole, TENTH)
        decreases |b|
      {
        var m := if |b| < TENTH then |b| else TENTH;
        BlocksStep(b, TENTH);
        out := out + [b[..m]];
        b := b[m..];
      }
      RecutSnoc(done, whole, TENTH);
      done := done + [whole];
      rest := rest[n..];
    }
    assert done + [] == done;
  }
}
