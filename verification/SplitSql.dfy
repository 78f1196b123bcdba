/** Splitting a migration into statements. Text is a sequence of code points. */
module SplitSql {

  type Text = seq<char>

  datatype Mode = Plain | Single | Double

  const BOM := '\U{FEFF}'

  /** White space as Unicode defines it. */
  const SPACES: set<char> := {
    '\t', '\n', '\U{000B}', '\U{000C}', '\r', ' ', '\U{0085}', '\U{00A0}', '\U{1680}', '\U{2000}', '\U{2001}',
    '\U{2002}', '\U{2003}', '\U{2004}',
    '\U{2005}', '\U{2006}', '\U{2007}', '\U{2008}', '\U{2009}', '\U{200A}', '\U{2028}', '\U{2029}', '\U{202F}',
    '\U{205F}', '\U{3000}' }

  // ---------------------------------------------------------------- the specification

  /** The quotes one is in after a character. */
  function Next(q: Mode, c: char): Mode {
    if c == '\'' && !q.Double? then (if q.Single? then Plain else Single)
    else if c == '"' && !q.Single? then (if q.Double? then Plain else Double)
    else q
  }

  function Final(s: Text, q: Mode): Mode { if s == [] then q else Final(s[1..], Next(q, s[0])) }

  predicate Dashes(s: Text) { |s| >= 2 && s[0] == '-' && s[1] == '-' }

  /** What follows a comment: the rest of the text from the end of the line on. */
  function SkipLine(s: Text): (r: Text)
    ensures |r| <= |s|
  {
    if s == [] || s[0] == '\n' then s else SkipLine(s[1..])
  }

  /** The text without its comments. */
  function Strip(s: Text, q: Mode): Text
    decreases |s|
  {
    if s == [] then []
    else if q.Plain? && Dashes(s) then Strip(SkipLine(s[2..]), q)
    else [s[0]] + Strip(s[1..], Next(q, s[0]))
  }

  /** Putting `b` before the first piece. */
  function Glue(b: Text, ps: seq<Text>): seq<Text>
    requires ps != []
  {
    [b + ps[0]] + ps[1..]
  }

  /** The pieces between semicolons outside quotes. */
  function Cut(s: Text, q: Mode): (ps: seq<Text>)
    ensures ps != []
  {
    if s == [] then [[]]
    else if s[0] == ';' && q.Plain? then [[]] + Cut(s[1..], q)
    else Glue([s[0]], Cut(s[1..], Next(q, s[0])))
  }

  function TrimLeft(s: Text): Text { if s != [] && s[0] in SPACES then TrimLeft(s[1..]) else s }

  function TrimRight(s: Text): Text { if s != [] && s[|s| - 1] in SPACES then TrimRight(s[..|s| - 1]) else s }

  function Trim(s: Text): Text { TrimRight(TrimLeft(s)) }

  function One(p: Text): seq<Text> { if Trim(p) == [] then [] else [Trim(p)] }

  function Statements(ps: seq<Text>): seq<Text> { if ps == [] then [] else One(ps[0]) + Statements(ps[1..]) }

  function TrimBom(s: Text): Text { if s != [] && s[0] == BOM then s[1..] else s }

  /** Drop comments, cut at semicolons, trim, drop what is empty. */
  function Split(content: Text): seq<Text> { Statements(Cut(Strip(TrimBom(content), Plain), Plain)) }

  // ---------------------------------------------------------------- the program

  /** The statements still to come, when `b` has been read of the first of them. */
  function Rest(b: Text, s: Text, q: Mode): seq<Text> { Statements(Glue(b, Cut(Strip(s, q), q))) }

  lemma GlueNothing(ps: seq<Text>)
    requires ps != []
    ensures Glue([], ps) == ps
  {
    assert [] + ps[0] == ps[0];
  }

  lemma RestAtEnd(b: Text, q: Mode)
    ensures Rest(b, [], q) == One(b)
  {
    assert b + [] == b;
    assert Glue(b, [[]]) == [b];
    assert Statements([b]) == One(b) + Statements([]);
  }

  lemma RestAtComment(b: Text, s: Text)
    requires Dashes(s)
    ensures Rest(b, s, Plain) == Rest(b, SkipLine(s[2..]), Plain)
  {
  }

  lemma RestAtSemicolon(b: Text, s: Text)
    requires s != [] && s[0] == ';'
    ensures Rest(b, s, Plain) == One(b) + Rest([], s[1..], Plain)
  {
    var t := Strip(s[1..], Plain);
    assert Strip(s, Plain) == [';'] + t;
    assert ([';'] + t)[1..] == t;
    assert Cut([';'] + t, Plain) == [[]] + Cut(t, Plain);
    assert b + [] == b;
    assert Glue(b, [[]] + Cut(t, Plain)) == [b] + Cut(t, Plain);
    GlueNothing(Cut(t, Plain));
    assert ([b] + Cut(t, Plain))[1..] == Cut(t, Plain);
  }

  lemma RestAtCharacter(b: Text, s: Text, q: Mode)
    requires s != [] && !(q.Plain? && (Dashes(s) || s[0] == ';'))
    ensures Rest(b, s, q) == Rest(b + [s[0]], s[1..], Next(q, s[0]))
  {
    var t := Strip(s[1..], Next(q, s[0]));
    assert Strip(s, q) == [s[0]] + t;
    assert ([s[0]] + t)[1..] == t;
    var ps := Cut(t, Next(q, s[0]));
    assert Cut([s[0]] + t, q) == Glue([s[0]], ps);
    assert b + ([s[0]] + ps[0]) == (b + [s[0]]) + ps[0];
    assert Glue(b, Glue([s[0]], ps)) == Glue(b + [s[0]], ps);
  }

  /** The inner loop over a comment; it stops at the last character before the end of the line. */
  method SkipComment(s: Text, start: nat) returns (i: nat)
    requires start + 1 < |s| && s[start + 1] == '-'
    ensures start < i < |s| && SkipLine(s[start + 2..]) == s[i + 1..]
  {
    i := start;
    assert s[start + 1..][1..] == s[start + 2..];
    while i + 1 < |s| && s[i + 1] != '\n'
      invariant start <= i < |s| && SkipLine(s[start + 2..]) == SkipLine(s[i + 1..])
    {
      assert s[i + 1..][1..] == s[i + 2..];
      i := i + 1;
    }
  }

  method SplitSQL(content: Text) returns (out: seq<Text>)
    ensures out == Split(content)
  {
    hide Strip, Cut, Statements, Rest;
    var s := if |content| > 0 && content[0] == BOM then content[1..] else content;
    out := [];
    var b: Text := [];
    var inSingle, inDouble := false, false;
    ghost var q := Plain;
    var i := 0;
    StartRest(s);
    while i < |s|
      invariant 0 <= i <= |s|
      invariant q == if inSingle then Single else if inDouble then Double else Plain
      invariant !(inSingle && inDouble)
      invariant Split(content) == out + Rest(b, s[i..], q)
    {
      var ch := s[i];
      assert s[i..][1..] == s[i + 1..];
      if !inSingle && !inDouble && ch == '-' && i + 1 < |s| && s[i + 1] == '-' {
        RestAtComment(b, s[i..]);
        assert s[i..][2..] == s[i + 2..];
        i := SkipComment(s, i);
      } else if ch == '\'' && !inDouble {
        RestAtCharacter(b, s[i..], q);
        inSingle, q := !inSingle, Next(q, ch);
        b := b + [ch];
      } else if ch == '"' && !inSingle {
        RestAtCharacter(b, s[i..], q);
        inDouble, q := !inDouble, Next(q, ch);
        b := b + [ch];
      } else if ch == ';' && !inSingle && !inDouble {
        RestAtSemicolon(b, s[i..]);
        var stmt := Trim(b);
        if stmt != [] {
          out := out + [stmt];
        }
        b := [];
      } else {
        RestAtCharacter(b, s[i..], q);
        b := b + [ch];
      }
      i := i + 1;
    }
    RestAtEnd(b, q);
    var stmt := Trim(b);
    if stmt != [] {
      out := out + [stmt];
    }
  }

  lemma StartRest(s: Text)
    ensures Statements(Cut(Strip(s, Plain), Plain)) == Rest([], s[0..], Plain)
  {
    var ps := Cut(Strip(s, Plain), Plain);
    assert s[0..] == s;
    GlueNothing(ps);
  }

  // ---------------------------------------------------------------- cutting loses nothing

  function Join(ps: seq<Text>, sep: Text): Text {
    if ps == [] then [] else if |ps| == 1 then ps[0] else ps[0] + sep + Join(ps[1..], sep)
  }

  lemma JoinGlued(b: Text, ps: seq<Text>, sep: Text)
    requires ps != []
    ensures Join(Glue(b, ps), sep) == b + Join(ps, sep)
  {
  }

  lemma JoinAfterNothing(ps: seq<Text>, sep: Text)
    requires ps != []
    ensures Join([[]] + ps, sep) == [] + sep + Join(ps, sep)
  {
    assert ([[]] + ps)[1..] == ps;
  }

  /** The pieces, joined by semicolons, are the text. */
  lemma {:induction false} CutLosesNothing(s: Text, q: Mode)
    ensures Join(Cut(s, q), ";") == s
  {
    if s == [] {
    } else if s[0] == ';' && q.Plain? {
      CutLosesNothing(s[1..], q);
      JoinAfterNothing(Cut(s[1..], q), ";");
      hide Join;
      assert [] + ";" + s[1..] == s;
    } else {
      CutLosesNothing(s[1..], Next(q, s[0]));
      JoinGlued([s[0]], Cut(s[1..], Next(q, s[0])), ";");
      hide Join, Next, Glue;
      assert [s[0]] + s[1..] == s;
    }
  }

  /** No semicolon and no comment outside quotes. */
  predicate Clean(s: Text, q: Mode) {
    s == [] || ((q.Plain? ==> s[0] != ';' && !Dashes(s)) && Clean(s[1..], Next(q, s[0])))
  }

  predicate Commentless(s: Text, q: Mode) {
    s == [] || ((q.Plain? ==> !Dashes(s)) && Commentless(s[1..], Next(q, s[0])))
  }

  /** Stripping leaves no comment behind. */
  lemma {:induction false} StrippedIsCommentless(s: Text, q: Mode)
    ensures Commentless(Strip(s, q), q)
    decreases |s|
  {
    if s == [] {
    } else {
      if q.Plain? && Dashes(s) {
        StrippedIsCommentless(SkipLine(s[2..]), q);
      } else {
        var t := Strip(s[1..], Next(q, s[0]));
        StrippedIsCommentless(s[1..], Next(q, s[0]));
        assert ([s[0]] + t)[1..] == t;
        if q.Plain? && s[0] == '-' && t != [] {
          StripStart(s[1..]);
        }
      }
    }
  }

  /** Outside quotes, what stripping leaves does not begin with a dash unless the text does. */
  lemma StripStart(s: Text)
    requires s == [] || s[0] != '-'
    ensures Strip(s, Plain) == [] || Strip(s, Plain)[0] != '-'
  {
  }

  /** And it changes nothing else: a comment goes, up to the end of its line, and what is before it stays. */
  lemma {:induction false} StripDropsComment(p: Text, c: Text, rest: Text, q: Mode)
    requires Commentless(p + "-", q) && Final(p, q).Plain? && '\n' !in c && (rest == [] || rest[0] == '\n')
    ensures Strip(p + "--" + c + rest, q) == p + Strip(rest, Plain)
  {
    if p == [] {
      var t := [] + "--" + c + rest;
      assert t[2..] == c + rest;
      SkipsLine(c, rest);
    } else {
      hide Next, SkipLine;
      var t := p + "--" + c + rest;
      assert t[1..] == p[1..] + "--" + c + rest;
      assert (p + "-")[1..] == p[1..] + "-";
      StripDropsComment(p[1..], c, rest, Next(q, p[0]));
      assert (p + "-")[0] == t[0] && (p + "-")[1] == t[1];
    }
  }

  lemma {:induction false} SkipsLine(c: Text, rest: Text)
    requires '\n' !in c && (rest == [] || rest[0] == '\n')
    ensures SkipLine(c + rest) == rest
  {
    if c == [] {
      assert c + rest == rest;
    } else {
      assert (c + rest)[1..] == c[1..] + rest;
      SkipsLine(c[1..], rest);
    }
  }

  /** Each piece is clean, and ends outside quotes unless it is the last. */
  ghost predicate Pieces(ps: seq<Text>, q: Mode)
    requires ps != []
  {
    && Clean(ps[0], q) && (|ps| > 1 ==> Final(ps[0], q).Plain?)
    && (forall k :: 1 <= k < |ps| ==> Clean(ps[k], Plain))
    && (forall k :: 1 <= k < |ps| - 1 ==> Final(ps[k], Plain).Plain?)
  }

  lemma {:induction false} CutIntoPieces(s: Text, q: Mode)
    requires Commentless(s, q)
    ensures Pieces(Cut(s, q), q) && Cut(s, q)[0] <= s
  {
    if s == [] {
    } else {
      if s[0] == ';' && q.Plain? {
        CutIntoPieces(s[1..], q);
      } else {
        var q' := Next(q, s[0]);
        CutIntoPieces(s[1..], q');
        var first := Cut(s[1..], q')[0];
        assert ([s[0]] + first)[1..] == first;
      }
    }
  }

  // ---------------------------------------------------------------- quotes

  predicate Quote(c: char) { c == '\'' || c == '"' }

  function Within(c: char): Mode
    requires Quote(c)
  {
    if c == '"' then Double else Single
  }

  /** Up to its closing quote, everything in quotes is text: semicolons, dashes and the other quote. */
  lemma {:induction false} QuotedIsText(c: char, b: Text, rest: Text)
    requires Quote(c) && c !in b
    ensures Strip(b + [c] + rest, Within(c)) == b + [c] + Strip(rest, Plain)
    ensures Cut(b + [c] + rest, Within(c)) == Glue(b + [c], Cut(rest, Plain))
  {
    var t := b + [c] + rest;
    if b == [] {
      assert t[1..] == rest && t[0] == c && b + [c] == [c];
      assert Next(Within(c), c) == Plain;
    } else {
      assert t[1..] == b[1..] + [c] + rest && t[0] == b[0];
      assert Next(Within(c), b[0]) == Within(c);
      QuotedIsText(c, b[1..], rest);
      assert [b[0]] + (b[1..] + [c] + Strip(rest, Plain)) == b + [c] + Strip(rest, Plain);
      assert [b[0]] + (b[1..] + [c]) == b + [c];
      GlueGlued([b[0]], b[1..] + [c], Cut(rest, Plain));
    }
  }

  lemma GlueGlued(a: Text, b: Text, ps: seq<Text>)
    requires ps != []
    ensures Glue(a, Glue(b, ps)) == Glue(a + b, ps)
  {
    assert a + (b + ps[0]) == (a + b) + ps[0];
  }

  /** A quoted stretch stays whole, and what follows is read as if it stood alone. */
  lemma QuotesEnclose(c: char, b: Text, rest: Text)
    requires Quote(c) && c !in b
    ensures var quoted := [c] + b + [c];
      Strip(quoted + rest, Plain) == quoted + Strip(rest, Plain)
      && Cut(quoted + rest, Plain) == Glue(quoted, Cut(rest, Plain))
  {
    var quoted := [c] + b + [c];
    var t := quoted + rest;
    assert t[1..] == b + [c] + rest && t[0] == c;
    QuotedIsText(c, b, rest);
    assert [c] + (b + [c] + Strip(rest, Plain)) == quoted + Strip(rest, Plain);
    assert [c] + (b + [c]) == quoted;
    GlueGlued([c], b + [c], Cut(rest, Plain));
  }

  /** Nothing but quotes, semicolons and dashes is special. */
  lemma PlainIsText(c: char, rest: Text)
    requires !Quote(c) && c != ';' && c != '-'
    ensures Strip([c] + rest, Plain) == [c] + Strip(rest, Plain)
      && Cut([c] + rest, Plain) == Glue([c], Cut(rest, Plain))
  {
    assert ([c] + rest)[1..] == rest;
  }

  // ---------------------------------------------------------------- trimming

  lemma SpaceKeepsMode(c: char, q: Mode)
    requires c in SPACES
    ensures Next(q, c) == q
  {
  }

  lemma {:induction false} TrimLeftKeepsClean(s: Text)
    requires Clean(s, Plain)
    ensures Clean(TrimLeft(s), Plain) && Final(TrimLeft(s), Plain) == Final(s, Plain)
  {
    if s != [] && s[0] in SPACES {
      SpaceKeepsMode(s[0], Plain);
      TrimLeftKeepsClean(s[1..]);
    }
  }

  lemma {:induction false} FinalSnoc(s: Text, c: char, q: Mode)
    ensures Final(s + [c], q) == Next(Final(s, q), c)
  {
    if s != [] {
      assert (s + [c])[1..] == s[1..] + [c];
      FinalSnoc(s[1..], c, Next(q, s[0]));
    } else {
      assert (s + [c])[1..] == [];
    }
  }

  lemma {:induction false} CleanPrefix(s: Text, t: Text, q: Mode)
    requires Clean(s + t, q)
    ensures Clean(s, q)
  {
    if s == [] {
    } else {
      assert (s + t)[1..] == s[1..] + t;
      CleanPrefix(s[1..], t, Next(q, s[0]));
    }
  }

  lemma {:induction false} TrimRightKeepsClean(s: Text)
    requires Clean(s, Plain)
    ensures Clean(TrimRight(s), Plain) && Final(TrimRight(s), Plain) == Final(s, Plain)
  {
    hide Clean, Final, Next;
    if s != [] && s[|s| - 1] in SPACES {
      var init, c := s[..|s| - 1], s[|s| - 1];
      assert s == init + [c];
      CleanPrefix(init, [c], Plain);
      FinalSnoc(init, c, Plain);
      SpaceKeepsMode(c, Final(init, Plain));
      TrimRightKeepsClean(init);
    }
  }

  lemma TrimKeepsClean(s: Text)
    requires Clean(s, Plain)
    ensures Clean(Trim(s), Plain) && Final(Trim(s), Plain) == Final(s, Plain)
  {
    TrimLeftKeepsClean(s);
    TrimRightKeepsClean(TrimLeft(s));
  }

  predicate Trimmed(s: Text) { s == [] || (s[0] !in SPACES && s[|s| - 1] !in SPACES) }

  predicate Spaces(s: Text) { forall c :: c in s ==> c in SPACES }

  lemma {:induction false} TrimLeftDropsSpaces(s: Text) returns (a: Text)
    ensures s == a + TrimLeft(s) && Spaces(a)
  {
    a := [];
    if s != [] && s[0] in SPACES {
      var rest := TrimLeftDropsSpaces(s[1..]);
      a := [s[0]] + rest;
    }
  }

  lemma {:induction false} TrimRightDropsSpaces(s: Text) returns (b: Text)
    ensures s == TrimRight(s) + b && Spaces(b)
  {
    b := [];
    if s != [] && s[|s| - 1] in SPACES {
      var rest := TrimRightDropsSpaces(s[..|s| - 1]);
      b := rest + [s[|s| - 1]];
    }
  }

  /** Trimming takes white space off both ends, all of it and nothing else. */
  lemma TrimDropsSpaces(s: Text) returns (a: Text, b: Text)
    ensures s == a + Trim(s) + b && Spaces(a) && Spaces(b) && Trimmed(Trim(s))
  {
    a := TrimLeftDropsSpaces(s);
    b := TrimRightDropsSpaces(TrimLeft(s));
    TrimTrims(s);
  }

  lemma {:induction false} TrimRightTrims(s: Text)
    requires s == [] || s[0] !in SPACES
    ensures Trimmed(TrimRight(s)) && TrimRight(s) <= s
  {
    if s != [] && s[|s| - 1] in SPACES {
      TrimRightTrims(s[..|s| - 1]);
    }
  }

  lemma {:induction false} TrimLeftTrims(s: Text)
    ensures (TrimLeft(s) == [] || TrimLeft(s)[0] !in SPACES) && |TrimLeft(s)| <= |s|
  {
    if s == [] {
    } else {
      TrimLeftTrims(s[1..]);
    }
  }

  lemma TrimTrims(s: Text)
    ensures Trimmed(Trim(s)) && |Trim(s)| <= |s|
  {
    TrimLeftTrims(s);
    TrimRightTrims(TrimLeft(s));
  }

  lemma TrimmedStays(s: Text)
    requires Trimmed(s)
    ensures Trim(s) == s
  {
  }

  // ---------------------------------------------------------------- splitting what was split

  /** A list that can be joined and split again: clean, and all but the last end outside quotes. */
  ghost predicate Closed(ps: seq<Text>) {
    && (forall k :: 0 <= k < |ps| ==> Clean(ps[k], Plain))
    && (forall k :: 0 <= k < |ps| - 1 ==> Final(ps[k], Plain).Plain?)
  }

  lemma {:induction false} StripBeforeSemicolon(p: Text, rest: Text, q: Mode)
    requires Clean(p, q) && Final(p, q).Plain?
    ensures Strip(p + ";" + rest, q) == p + ";" + Strip(rest, Plain)
  {
    var t := p + ";" + rest;
    if p == [] {
      assert t[1..] == rest;
    } else {
      assert t[1..] == p[1..] + ";" + rest;
      StripBeforeSemicolon(p[1..], rest, Next(q, p[0]));
    }
  }

  lemma {:induction false} CutBeforeSemicolon(p: Text, rest: Text, q: Mode)
    requires Clean(p, q) && Final(p, q).Plain?
    ensures Cut(p + ";" + rest, q) == [p] + Cut(rest, Plain)
  {
    var t := p + ";" + rest;
    if p == [] {
      assert t[1..] == rest;
    } else {
      assert t[1..] == p[1..] + ";" + rest;
      CutBeforeSemicolon(p[1..], rest, Next(q, p[0]));
      assert [p[0]] + p[1..] == p;
      assert Glue([p[0]], [p[1..]] + Cut(rest, Plain)) == [p] + Cut(rest, Plain);
    }
  }

  lemma {:induction false} CleanIsOnePiece(p: Text, q: Mode)
    requires Clean(p, q)
    ensures Strip(p, q) == p && Cut(p, q) == [p]
  {
    if p == [] {
    } else {
      CleanIsOnePiece(p[1..], Next(q, p[0]));
      assert [p[0]] + p[1..] == p;
    }
  }

  /** A line break before a text adds white space to its first piece, no more. */
  lemma LineBreakFirst(s: Text)
    ensures Statements(Cut(Strip("\n" + s, Plain), Plain)) == Statements(Cut(Strip(s, Plain), Plain))
  {
    var t := "\n" + s;
    assert t[1..] == s;
    var u := Strip(s, Plain);
    assert Strip(t, Plain) == "\n" + u;
    assert ("\n" + u)[1..] == u;
    var ps := Cut(u, Plain);
    assert Cut("\n" + u, Plain) == Glue("\n", ps);
    assert ("\n" + ps[0])[1..] == ps[0];
    assert Trim("\n" + ps[0]) == Trim(ps[0]);
  }

  /** Joining clean texts line by line and splitting the result gives them back, trimmed. */
  lemma {:induction false} SplitJoined(ps: seq<Text>)
    requires Closed(ps)
    ensures Statements(Cut(Strip(Join(ps, ";\n"), Plain), Plain)) == Statements(ps)
  {
    if ps == [] {
      assert Trim([]) == [];
      assert Statements([[]]) == One([]) + Statements([]);
    } else if |ps| == 1 {
      CleanIsOnePiece(ps[0], Plain);
      assert ps == [ps[0]];
    } else {
      var rest := Join(ps[1..], ";\n");
      SplitJoined(ps[1..]);
      LineBreakFirst(rest);
      assert Join(ps, ";\n") == ps[0] + ";" + ("\n" + rest);
      StripBeforeSemicolon(ps[0], "\n" + rest, Plain);
      var u := Strip("\n" + rest, Plain);
      CutBeforeSemicolon(ps[0], u, Plain);
      assert ([ps[0]] + Cut(u, Plain))[1..] == Cut(u, Plain);
    }
  }

  /** Every statement is clean, trimmed and not empty; all but the last end outside quotes. */
  ghost predicate Settled(out: seq<Text>) {
    Closed(out) && forall k :: 0 <= k < |out| ==> out[k] != [] && Trimmed(out[k])
  }

  lemma {:induction false} StatementsSettle(ps: seq<Text>)
    requires Closed(ps)
    ensures Settled(Statements(ps))
  {
    if ps == [] {
    } else {
      StatementsSettle(ps[1..]);
      TrimTrims(ps[0]);
      TrimKeepsClean(ps[0]);
      var rest := Statements(ps[1..]);
      assert rest != [] ==> |ps| > 1;
      var out := One(ps[0]) + rest;
      assert Trim(ps[0]) == [] ==> out == rest;
      assert Trim(ps[0]) != [] ==> out == [Trim(ps[0])] + rest;
    }
  }

  lemma SplitSettles(content: Text)
    ensures Settled(Split(content))
  {
    var s := Strip(TrimBom(content), Plain);
    StrippedIsCommentless(TrimBom(content), Plain);
    CutIntoPieces(s, Plain);
    StatementsSettle(Cut(s, Plain));
  }

  lemma {:induction false} SettledStays(out: seq<Text>)
    requires Settled(out)
    ensures Statements(out) == out
  {
    if out == [] {
    } else {
      TrimmedStays(out[0]);
      SettledStays(out[1..]);
      assert out == [out[0]] + out[1..];
    }
  }

  lemma JoinFirst(out: seq<Text>, sep: Text)
    requires out != [] && out[0] != []
    ensures Join(out, sep) != [] && Join(out, sep)[0] == out[0][0]
    ensures Join(out, sep)[1..] == Join([out[0][1..]] + out[1..], sep)
  {
    var first := [out[0][1..]] + out[1..];
    assert first[1..] == out[1..];
    if |out| > 1 {
      assert Join(out, sep)[1..] == out[0][1..] + sep + Join(out[1..], sep);
    }
  }

  predicate StartsWithBom(out: seq<Text>) { out != [] && out[0] != [] && out[0][0] == BOM }

  /** The split, joined again line by line and split again, is the same, exactly unless its first statement begins
      with a byte order mark, which the second split takes for one of the file. */
  lemma SplitAgain(content: Text)
    ensures var out := Split(content);
      Split(Join(out, ";\n")) == out <==> !StartsWithBom(out)
    ensures var text := Join(Split(content), ";\n");
      Split(text) == Split(content) <==> text == [] || text[0] != BOM
  {
    var out := Split(content);
    SplitSettles(content);
    SettledStays(out);
    if out != [] {
      JoinFirst(out, ";\n");
    }
    if !StartsWithBom(out) {
      SplitJoined(out);
    } else {
      BomIsLost(out);
    }
  }

  /** Which happens: of two marks before a statement the first split drops one and the second split the other. */
  lemma {:induction false} TwoMarks(p: Text)
    requires p != [] && Trimmed(p) && Clean(p, Plain)
    ensures Split([BOM, BOM] + p) == [[BOM] + p] && Split(Join([[BOM] + p], ";\n")) == [p]
  {
    var marked := [BOM] + p;
    assert ([BOM, BOM] + p)[1..] == marked && marked[1..] == p;
    assert Next(Plain, BOM) == Plain;
    assert Settled([marked]) && Settled([p]);
    SplitJoined([marked]);
    SplitJoined([p]);
    SettledStays([marked]);
    SettledStays([p]);
  }

  lemma BomIsLost(out: seq<Text>)
    requires Settled(out) && out != [] && out[0][0] == BOM
    ensures Statements(Cut(Strip(Join([out[0][1..]] + out[1..], ";\n"), Plain), Plain)) != out
  {
    var shorter := [out[0][1..]] + out[1..];
    assert Next(Plain, BOM) == Plain;
    assert Closed(shorter);
    SplitJoined(shorter);
    SettledStays(out[1..]);
    assert shorter[1..] == out[1..];
    TrimTrims(out[0][1..]);
  }
}
