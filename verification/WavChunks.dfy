/** Uploaded prompts: the walk over the chunks of a RIFF file. */
module WavChunks {
  import opened Seqs

  const RIFF: seq<Byte> := [0x52, 0x49, 0x46, 0x46]
  const WAVE: seq<Byte> := [0x57, 0x41, 0x56, 0x45]
  const FMT: seq<Byte> := [0x66, 0x6D, 0x74, 0x20]
  const DATA: seq<Byte> := [0x64, 0x61, 0x74, 0x61]

  /** A number from its low byte and the rest. */
  function Combine(low: Byte, high: nat): nat { low as nat + 256 * high }

  lemma Uncombine(low: Byte, high: nat)
    ensures Combine(low, high) % 256 == low as nat && Combine(low, high) / 256 == high
  {
  }

  function Le16(s: seq<Byte>): nat
    requires |s| == 2
  {
    Combine(s[0], s[1])
  }

  function Le32(s: seq<Byte>): nat
    requires |s| == 4
  {
    Combine(s[0], Combine(s[1], Combine(s[2], s[3])))
  }

  function ToLe32(n: nat): (s: seq<Byte>)
    requires n < 0x1_0000_0000
    ensures |s| == 4 && Le32(s) == n
  {
    var n1 := n / 256;
    var n2 := n1 / 256;
    [n % 256, n1 % 256, n2 % 256, n2 / 256]
  }

  lemma SizeIsKept(s: seq<Byte>)
    requires |s| == 4
    ensures Le32(s) < 0x1_0000_0000 && ToLe32(Le32(s)) == s
  {
    Uncombine(s[0], Combine(s[1], Combine(s[2], s[3])));
    Uncombine(s[1], Combine(s[2], s[3]));
    Uncombine(s[2], s[3]);
  }

  /** Four bytes of id, four of size, the body, and a byte of padding after an odd body. */
  datatype Chunk = Chunk(id: seq<Byte>, body: seq<Byte>, pad: seq<Byte>)

  // ---------------------------------------------------------------- chunk lists as bytes

  predicate Sized(c: Chunk) { |c.id| == 4 && |c.body| < 0x1_0000_0000 && |c.pad| <= |c.body| % 2 }

  type RawChunk = c: Chunk | Sized(c) witness Chunk([0, 0, 0, 0], [], [])

  function RenderOne(c: RawChunk): seq<Byte> { c.id + ToLe32(|c.body|) + c.body + c.pad }

  function Render(cs: seq<RawChunk>): seq<Byte> { if cs == [] then [] else RenderOne(cs[0]) + Render(cs[1..]) }

  /** Every odd body is padded, except that the padding may be missing at the very end of the file; what follows the
      last chunk is too short for another. */
  ghost predicate Framed(cs: seq<RawChunk>, tail: seq<Byte>) {
    && |tail| < 8
    && (forall k :: 0 <= k < |cs| && (k < |cs| - 1 || tail != []) ==> |cs[k].pad| == |cs[k].body| % 2)
  }

  function After(s: seq<Byte>, n: nat): seq<Byte> { if n <= |s| then s[n..] else [] }

  /** The first chunk fits. */
  predicate Fits(s: seq<Byte>) { |s| >= 8 && 8 + Le32(s[4..8]) <= |s| }

  /** Where the chunk after the first begins; this may be one byte past the end. */
  function Length(s: seq<Byte>): nat
    requires Fits(s)
  {
    8 + Le32(s[4..8]) + Le32(s[4..8]) % 2
  }

  function ChunkOf(s: seq<Byte>, size: nat): RawChunk
    requires size < 0x1_0000_0000 && 8 + size <= |s|
  {
    Chunk(s[..4], s[8..8 + size], s[8 + size..if 8 + size + size % 2 <= |s| then 8 + size + size % 2 else |s|])
  }

  function First(s: seq<Byte>): RawChunk
    requires Fits(s)
  {
    SizeIsKept(s[4..8]);
    ChunkOf(s, Le32(s[4..8]))
  }

  /** The chunks of a stretch of bytes, None if one of them overruns it. */
  function Parse(s: seq<Byte>): Option<seq<RawChunk>>
    decreases |s|
  {
    if |s| < 8 then Some([])
    else if !Fits(s) then None
    else match Parse(After(s, Length(s)))
      case None => None
      case Some(cs) => Some([First(s)] + cs)
  }

  lemma FirstOfRendered(c: RawChunk, rest: seq<Byte>)
    requires |c.pad| == |c.body| % 2 || rest == []
    ensures var s := RenderOne(c) + rest; Fits(s) && First(s) == c && After(s, Length(s)) == rest
  {
    hide Le32, ToLe32;
    var s := RenderOne(c) + rest;
    assert s == c.id + ToLe32(|c.body|) + c.body + c.pad + rest;
    assert s[..4] == c.id && s[4..8] == ToLe32(|c.body|) && s[8..8 + |c.body|] == c.body;
    if |c.pad| == |c.body| % 2 {
      assert s[8 + |c.body|..8 + |c.body| + |c.pad|] == c.pad;
      assert s[8 + |c.body| + |c.pad|..] == rest;
    } else {
      assert s[8 + |c.body|..] == [] == c.pad;
    }
  }

  lemma Pieces(s: seq<Byte>, end: nat, next: nat)
    requires 8 <= end <= next <= |s|
    ensures s[..4] + s[4..8] + s[8..end] + s[end..next] + s[next..] == s
  {
  }

  lemma RenderedChunk(s: seq<Byte>, size: nat)
    requires 8 + size <= |s| && size < 0x1_0000_0000 && s[4..8] == ToLe32(size)
    ensures RenderOne(ChunkOf(s, size)) + After(s, 8 + size + size % 2) == s
  {
    hide ToLe32;
    Pieces(s, 8 + size, if 8 + size + size % 2 <= |s| then 8 + size + size % 2 else |s|);
  }

  lemma RenderedFirst(s: seq<Byte>)
    requires Fits(s)
    ensures RenderOne(First(s)) + After(s, Length(s)) == s
    ensures After(s, Length(s)) != [] ==> |First(s).pad| == |First(s).body| % 2
  {
    SizeIsKept(s[4..8]);
    hide Le32, ToLe32, RenderOne;
    RenderedChunk(s, Le32(s[4..8]));
  }

  /** Reading what was rendered. */
  lemma {:induction false} ParseRendered(cs: seq<RawChunk>, tail: seq<Byte>)
    requires Framed(cs, tail)
    ensures Parse(Render(cs) + tail) == Some(cs)
  {
    hide RenderOne, Fits, First, Length, After;
    if cs == [] {
      assert Render(cs) + tail == tail;
    } else {
      var rest := Render(cs[1..]) + tail;
      assert Render(cs) + tail == RenderOne(cs[0]) + rest;
      LastIsUnpadded(cs, tail);
      FirstOfRendered(cs[0], rest);
      ParseRendered(cs[1..], tail);
      AtLeastEight(cs[0], rest);
      assert cs == [cs[0]] + cs[1..];
    }
  }

  lemma AtLeastEight(c: RawChunk, rest: seq<Byte>)
    ensures |RenderOne(c) + rest| >= 8
  {
  }

  lemma LastIsUnpadded(cs: seq<RawChunk>, tail: seq<Byte>)
    requires Framed(cs, tail) && cs != []
    ensures |cs[0].pad| == |cs[0].body| % 2 || Render(cs[1..]) + tail == []
    ensures Framed(cs[1..], tail)
  {
  }

  /** Rendering what was read. */
  lemma {:induction false} RenderParsed(s: seq<Byte>) returns (tail: seq<Byte>)
    requires Parse(s).Some?
    ensures Framed(Parse(s).value, tail) && s == Render(Parse(s).value) + tail
    decreases |s|
  {
    hide RenderOne, Fits, First;
    if |s| < 8 {
      tail := s;
    } else {
      var rest := After(s, Length(s));
      var cs := Parse(rest).value;
      tail := RenderParsed(rest);
      RenderedFirst(s);
      var all := [First(s)] + cs;
      assert all[1..] == cs;
      assert Render(all) + tail == RenderOne(First(s)) + (Render(cs) + tail);
      PaddedFirst(First(s), cs, tail);
    }
  }

  lemma PaddedFirst(c: RawChunk, cs: seq<RawChunk>, tail: seq<Byte>)
    requires Framed(cs, tail) && (Render(cs) + tail != [] ==> |c.pad| == |c.body| % 2)
    ensures Framed([c] + cs, tail)
  {
    if cs != [] {
      AtLeastEight(cs[0], Render(cs[1..]));
    }
  }

  /** The bytes are a list of chunks in exactly one way, or in none. */
  lemma ParseIsExact(s: seq<Byte>, cs: seq<RawChunk>)
    ensures Parse(s) == Some(cs) <==> exists tail :: Framed(cs, tail) && s == Render(cs) + tail
  {
    if Parse(s) == Some(cs) {
      var tail := RenderParsed(s);
      assert Framed(cs, tail) && s == Render(cs) + tail;
    }
    forall tail | Framed(cs, tail) && s == Render(cs) + tail
      ensures Parse(s) == Some(cs)
    {
      ParseRendered(cs, tail);
    }
  }

  // ---------------------------------------------------------------- what makes a prompt

  /** 16-bit mono PCM at a rate the switch plays. */
  predicate Playable(body: seq<Byte>)
    requires |body| >= 16
  {
    Le16(body[..2]) == 1 && Le16(body[2..4]) == 1 && Le32(body[4..8]) in {8000, 16000, 48000}
      && Le16(body[14..16]) == 16
  }

  /** The low byte comes first. */
  lemma LittleEndian(s: seq<Byte>)
    requires |s| == 4
    ensures Le32(s) == s[0] as nat + 0x100 * (s[1] as nat) + 0x1_0000 * (s[2] as nat) + 0x100_0000 * (s[3] as nat)
    ensures Le16(s[..2]) == s[0] as nat + 0x100 * (s[1] as nat)
  {
  }

  /** By the bytes: format 1, one channel, 8000, 16000 or 48000 Hz, 16 bits. */
  lemma PlayableByItsBytes(body: seq<Byte>)
    requires |body| >= 16
    ensures Playable(body)
       <==> && body[..4] == [1, 0, 1, 0] && body[14..16] == [16, 0]
            && (body[4..8] == [0x40, 0x1F, 0, 0] || body[4..8] == [0x80, 0x3E, 0, 0]
              || body[4..8] == [0x80, 0xBB, 0, 0])
  {
    var rate := body[4..8];
    LittleEndian(rate);
    assert rate == [rate[0], rate[1], rate[2], rate[3]];
    assert body[..4] == [body[0], body[1], body[2], body[3]];
    assert body[14..16] == [body[14], body[15]];
    assert body[..2] == [body[0], body[1]] && body[2..4] == [body[2], body[3]];
  }

  /** The last chunk with an id. */
  function Last(cs: seq<RawChunk>, id: seq<Byte>): Option<RawChunk> {
    if cs == [] then None
    else if cs[|cs| - 1].id == id then Some(cs[|cs| - 1]) else Last(cs[..|cs| - 1], id)
  }

  ghost predicate Prompt(cs: seq<RawChunk>) {
    && (forall k :: 0 <= k < |cs| && cs[k].id == FMT ==> |cs[k].body| >= 16)
    && Last(cs, FMT).Some? && |Last(cs, FMT).value.body| >= 16 && Playable(Last(cs, FMT).value.body)
    && Last(cs, DATA).Some? && var n := |Last(cs, DATA).value.body|; n > 0 && n % 2 == 0
  }

  // ---------------------------------------------------------------- the walk

  /** The verdict on the chunks still to come, with the flags as they are. */
  predicate Judge(cs: seq<RawChunk>, fmtOk: bool, dataOk: bool) {
    if cs == [] then fmtOk && dataOk
    else if cs[0].id == FMT then |cs[0].body| >= 16 && Judge(cs[1..], Playable(cs[0].body), dataOk)
    else if cs[0].id == DATA then Judge(cs[1..], fmtOk, |cs[0].body| > 0 && |cs[0].body| % 2 == 0)
    else Judge(cs[1..], fmtOk, dataOk)
  }

  lemma {:induction false} LastCons(c: RawChunk, cs: seq<RawChunk>, id: seq<Byte>)
    ensures Last([c] + cs, id) == if Last(cs, id).Some? then Last(cs, id) else if c.id == id then Some(c) else None
  {
    var all := [c] + cs;
    if cs == [] {
      assert all[..0] == [];
    } else {
      assert all[..|all| - 1] == [c] + cs[..|cs| - 1];
      LastCons(c, cs[..|cs| - 1], id);
    }
  }

  /** What the flags decide in the end. */
  ghost predicate Verdict(cs: seq<RawChunk>, fmtOk: bool, dataOk: bool) {
    && (forall k :: 0 <= k < |cs| && cs[k].id == FMT ==> |cs[k].body| >= 16)
    && (match Last(cs, FMT) case None => fmtOk case Some(c) => |c.body| >= 16 && Playable(c.body))
    && (match Last(cs, DATA) case None => dataOk case Some(c) => |c.body| > 0 && |c.body| % 2 == 0)
  }

  lemma {:induction false} LastIsOne(cs: seq<RawChunk>, id: seq<Byte>)
    ensures Last(cs, id).Some? ==> exists k :: 0 <= k < |cs| && cs[k] == Last(cs, id).value && cs[k].id == id
  {
    if cs != [] && cs[|cs| - 1].id != id {
      LastIsOne(cs[..|cs| - 1], id);
    }
  }

  lemma {:induction false} JudgeIsVerdict(cs: seq<RawChunk>, fmtOk: bool, dataOk: bool)
    ensures Judge(cs, fmtOk, dataOk) <==> Verdict(cs, fmtOk, dataOk)
  {
    if cs == [] {
    } else {
      var c, rest := cs[0], cs[1..];
      assert cs == [c] + rest;
      LastCons(c, rest, FMT);
      LastCons(c, rest, DATA);
      assert FMT[0] != DATA[0];
      if c.id == FMT {
        if |c.body| >= 16 {
          JudgeIsVerdict(rest, Playable(c.body), dataOk);
        }
      } else if c.id == DATA {
        JudgeIsVerdict(rest, fmtOk, |c.body| > 0 && |c.body| % 2 == 0);
      } else {
        JudgeIsVerdict(rest, fmtOk, dataOk);
      }
    }
  }

  predicate Accepts(s: seq<Byte>, fmtOk: bool, dataOk: bool) {
    match Parse(s)
    case None => false
    case Some(cs) => Judge(cs, fmtOk, dataOk)
  }

  predicate Marked(raw: seq<Byte>) { |raw| >= 44 && raw[..4] == RIFF && raw[8..12] == WAVE }

  /** A marked list of chunks that makes a prompt. */
  ghost predicate Valid(raw: seq<Byte>) { Marked(raw) && Parse(raw[12..]).Some? && Prompt(Parse(raw[12..]).value) }

  /** Accepts exactly the files that begin with the RIFF and WAVE marks, have at least 44 bytes, and are a list of
      chunks that makes a prompt. */
  method ValidPromptWAV(raw: seq<Byte>) returns (ok: bool)
    ensures ok <==> Valid(raw)
  {
    if |raw| < 44 || raw[..4] != RIFF || raw[8..12] != WAVE {
      return false;
    }
    ok := WalkChunks(raw);
  }

  /** The loop over the chunks. */
  method WalkChunks(raw: seq<Byte>) returns (ok: bool)
    requires |raw| >= 12
    ensures ok <==> Parse(raw[12..]).Some? && Prompt(Parse(raw[12..]).value)
  {
    hide Parse, Playable, Prompt, Le32, Accepts, After;
    var fmtOk, dataOk, off := false, false, 12;
    Conclude(raw);
    while off + 8 <= |raw|
      invariant 12 <= off
      invariant Accepts(raw[12..], false, false) == Accepts(After(raw, off), fmtOk, dataOk)
      decreases |raw| - off
    {
      StepAt(raw, off, fmtOk, dataOk);
      var size := Le32(raw[off + 4..off + 8]);
      var end := off + 8 + size;
      if end > |raw| {
        return false;
      }
      var id := raw[off..off + 4];
      if id == FMT {
        if size < 16 {
          return false;
        }
        fmtOk := Playable(raw[off + 8..end]);
      } else if id == DATA {
        dataOk := size > 0 && size % 2 == 0;
      }
      off := end + size % 2;
    }
    AcceptsEnd(raw, off, fmtOk, dataOk);
    ok := fmtOk && dataOk;
  }

  lemma AcceptsEnd(raw: seq<Byte>, off: nat, fmtOk: bool, dataOk: bool)
    requires off + 8 > |raw|
    ensures Accepts(After(raw, off), fmtOk, dataOk) <==> fmtOk && dataOk
  {
  }

  /** What the chunk at a place in the file does to the flags. */
  lemma StepAt(raw: seq<Byte>, off: nat, fmtOk: bool, dataOk: bool)
    requires off + 8 <= |raw|
    ensures var size := Le32(raw[off + 4..off + 8]); var end := off + 8 + size;
      if end > |raw| then !Accepts(After(raw, off), fmtOk, dataOk)
      else
        var id, body, rest := raw[off..off + 4], raw[off + 8..end], After(raw, end + size % 2);
        Accepts(After(raw, off), fmtOk, dataOk)
        <==> if id == FMT then size >= 16 && Accepts(rest, Playable(body), dataOk)
             else if id == DATA then Accepts(rest, fmtOk, size > 0 && size % 2 == 0)
             else Accepts(rest, fmtOk, dataOk)
  {
    AcceptsStep(raw[off..], fmtOk, dataOk);
    SlicesAt(raw, off);
    hide Le32, Accepts, Playable, First, Length, Fits;
  }

  lemma SlicesAt(raw: seq<Byte>, off: nat)
    requires off + 8 <= |raw|
    ensures var s := raw[off..]; var size := Le32(raw[off + 4..off + 8]); var end := off + 8 + size;
      && After(raw, off) == s && (Fits(s) <==> end <= |raw|)
      && (Fits(s) ==> First(s).id == raw[off..off + 4] && First(s).body == raw[off + 8..end] && |First(s).body| == size
                      && After(s, Length(s)) == After(raw, end + size % 2))
  {
    hide Le32;
    var s := raw[off..];
    assert s[4..8] == raw[off + 4..off + 8];
    if Fits(s) {
      var size := Le32(s[4..8]);
      assert s[8..8 + size] == raw[off + 8..off + 8 + size];
    }
  }

  /** The first chunk decides what becomes of the flags. */
  lemma AcceptsStep(s: seq<Byte>, fmtOk: bool, dataOk: bool)
    requires |s| >= 8
    ensures if !Fits(s) then !Accepts(s, fmtOk, dataOk)
      else
        var c, rest := First(s), After(s, Length(s));
        Accepts(s, fmtOk, dataOk)
        <==> if c.id == FMT then |c.body| >= 16 && Accepts(rest, Playable(c.body), dataOk)
             else if c.id == DATA then Accepts(rest, fmtOk, |c.body| > 0 && |c.body| % 2 == 0)
             else Accepts(rest, fmtOk, dataOk)
  {
    if Fits(s) && Parse(After(s, Length(s))).Some? {
      var cs := Parse(After(s, Length(s))).value;
      hide First, Length, After, Playable;
      assert ([First(s)] + cs)[1..] == cs;
    }
  }

  lemma Conclude(raw: seq<Byte>)
    requires |raw| >= 12
    ensures After(raw, 12) == raw[12..]
    ensures Accepts(raw[12..], false, false) <==> Parse(raw[12..]).Some? && Prompt(Parse(raw[12..]).value)
  {
    if Parse(raw[12..]).Some? {
      JudgeIsVerdict(Parse(raw[12..]).value, false, false);
    }
  }

  /** A file made of chunks is accepted exactly if it is long enough, bears the marks and its chunks make a prompt. */
  lemma RenderedIsJudgedByItsChunks(header: seq<Byte>, cs: seq<RawChunk>, tail: seq<Byte>)
    requires |header| == 12 && Framed(cs, tail)
    ensures var raw := header + Render(cs) + tail;
      Valid(raw) <==> |raw| >= 44 && header[..4] == RIFF && header[8..] == WAVE && Prompt(cs)
  {
    hide Render, Parse, Framed, Prompt;
    var raw := header + Render(cs) + tail;
    assert raw[12..] == Render(cs) + tail && raw[..4] == header[..4] && raw[8..12] == header[8..];
    ParseRendered(cs, tail);
  }
}
