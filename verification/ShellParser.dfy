/** The recursive-descent parser of sh.c, over a shared cursor, and its termination of words in place. */
module ShellParser {
  import opened ShellGrammar

  /** Some word of the command ends at `x`. */
  ghost predicate EndsAt(c: Cmd, x: nat) {
    match c
    case Exec(argv) => exists t :: t in argv && t.eq == x
    case Redir(d, file, _, _) => file.eq == x || EndsAt(d, x)
    case Pipe(l, r) => EndsAt(l, x) || EndsAt(r, x)
    case List(l, r) => EndsAt(l, x) || EndsAt(r, x)
    case Back(d) => EndsAt(d, x)
  }

  /** No word of a parsed command ends inside any word. */
  lemma {:induction false} EndsOutside(b: Text, c: Cmd, x: nat)
    requires Words(b, c) && EndsAt(c, x)
    ensures x <= |b| && !WordChar(At(b, x))
  {
    match c
    case Exec(argv) =>
      var t :| t in argv && t.eq == x;
    case Redir(d, file, _, _) =>
      if file.eq != x { EndsOutside(b, d, x); }
    case Pipe(l, r) =>
      if EndsAt(l, x) { EndsOutside(b, l, x); } else { EndsOutside(b, r, x); }
    case List(l, r) =>
      if EndsAt(l, x) { EndsOutside(b, l, x); } else { EndsOutside(b, r, x); }
    case Back(d) =>
      EndsOutside(b, d, x);
  }

  /** The C string at `t.q` in the buffer `m` is the word `t` of the text `b`. */
  ghost predicate Terminated(m: seq<char>, b: Text, t: Tok) {
    && t.q < t.eq < |m| && t.eq <= |b| && m[t.eq] == '\0'
    && forall x :: t.q <= x < t.eq ==> m[x] == b[x] && m[x] != '\0'
  }

  ghost predicate AllTerminated(m: seq<char>, b: Text, c: Cmd) {
    match c
    case Exec(argv) => forall t :: t in argv ==> Terminated(m, b, t)
    case Redir(d, file, _, _) => Terminated(m, b, file) && AllTerminated(m, b, d)
    case Pipe(l, r) => AllTerminated(m, b, l) && AllTerminated(m, b, r)
    case List(l, r) => AllTerminated(m, b, l) && AllTerminated(m, b, r)
    case Back(d) => AllTerminated(m, b, d)
  }

  /** `m` is the text, its NUL included, with a NUL where each word of `c` ends. */
  ghost predicate Cut(m: seq<char>, b: Text, c: Cmd) {
    && |m| == |b| + 1
    && forall x :: 0 <= x <= |b| ==> m[x] == if EndsAt(c, x) then '\0' else At(b, x)
  }

  lemma WordTerminated(m: seq<char>, b: Text, c: Cmd, t: Tok)
    requires Words(b, c) && Cut(m, b, c) && IsWord(b, t) && EndsAt(c, t.eq)
    ensures Terminated(m, b, t)
  {
    forall x | t.q <= x < t.eq ensures m[x] == b[x] && m[x] != '\0' {
      if EndsAt(c, x) {
        EndsOutside(b, c, x);
      }
    }
  }

  /** Every word of every part `d` of the command becomes a C string. */
  lemma {:induction false} CutTerminates(m: seq<char>, b: Text, c: Cmd, d: Cmd)
    requires Words(b, c) && Words(b, d) && Cut(m, b, c) && forall x :: EndsAt(d, x) ==> EndsAt(c, x)
    ensures AllTerminated(m, b, d)
    decreases d
  {
    match d
    case Exec(argv) =>
      forall t | t in argv ensures Terminated(m, b, t) {
        assert EndsAt(d, t.eq);
        WordTerminated(m, b, c, t);
      }
    case Redir(e, file, _, _) =>
      assert EndsAt(d, file.eq);
      WordTerminated(m, b, c, file);
      CutTerminates(m, b, c, e);
    case Pipe(l, r) =>
      CutTerminates(m, b, c, l);
      CutTerminates(m, b, c, r);
    case List(l, r) =>
      CutTerminates(m, b, c, l);
      CutTerminates(m, b, c, r);
    case Back(e) =>
      CutTerminates(m, b, c, e);
  }

  class Parser {
    const buf: array<char>
    /** The cursor. */
    var s: nat

    constructor (buf: array<char>)
      ensures this.buf == buf && s == 0
    {
      this.buf, s := buf, 0;
    }

    /** The buffer holds `b` and its NUL, and the cursor is in it. */
    ghost predicate On(b: Text)
      reads this, buf
    {
      buf.Length == |b| + 1 && s <= |b| && forall x :: 0 <= x <= |b| ==> buf[x] == At(b, x)
    }

    method SkipSpace(es: nat, ghost b: Text)
      requires On(b) && es == |b|
      modifies this`s
      ensures On(b) && s == Skip(b, old(s))
    {
      while s < es && Space(buf[s])
        invariant On(b) && Skip(b, s) == Skip(b, old(s))
      {
        s := s + 1;
      }
    }

    /** gettoken. */
    method GetToken(es: nat, ghost b: Text) returns (kind: char, q: nat, eq: nat)
      requires On(b) && es == |b|
      modifies this`s
      ensures On(b) && Lex(b, old(s)) == Lexeme(kind, Tok(q, eq), s)
    {
      hide IsWord, Space;
      SkipSpace(es, b);
      q := s;
      kind := buf[s];
      if kind == '\0' {
      } else if Mark(kind) || kind == '<' {
        s := s + 1;
      } else if kind == '>' {
        s := s + 1;
        if buf[s] == '>' {
          kind := '+';
          s := s + 1;
        }
      } else {
        kind := 'a';
        while s < es && !Space(buf[s]) && !Symbol(buf[s])
          invariant On(b) && WordEnd(b, s) == WordEnd(b, q)
        {
          s := s + 1;
        }
      }
      eq := s;
      SkipSpace(es, b);
    }

    /** peek. */
    method Peek(es: nat, toks: set<char>, ghost b: Text) returns (r: bool)
      requires On(b) && es == |b|
      modifies this`s
      ensures On(b) && s == Skip(b, old(s)) && (r <==> At(b, s) != '\0' && At(b, s) in toks)
    {
      SkipSpace(es, b);
      r := buf[s] != '\0' && buf[s] in toks;
    }

    /** parseredirs: the redirections, outermost last; false is the panic. */
    method ParseRedirs(es: nat, ghost b: Text) returns (ok: bool, arrows: seq<Arrow>)
      requires On(b) && es == |b|
      modifies this`s
      ensures ok <==> Redirs(b, old(s)).Found?
      ensures ok ==> On(b) && Redirs(b, old(s)) == Found(arrows, s)
      ensures ok ==> forall i :: 0 <= i < |arrows| ==> Signed(b, arrows[i])
    {
      hide Redirs, Lex, Skip, Before, Signed;
      arrows := [];
      var more := Peek(es, {'<', '>'}, b);
      RedirsSkip(b, old(s));
      BeforeNone(Redirs(b, s));
      while more
        invariant On(b) && s == Skip(b, s) && (more <==> At(b, s) == '<' || At(b, s) == '>')
        invariant Redirs(b, old(s)) == Before(arrows, Redirs(b, s))
        decreases es - s
      {
        RedirsStep(b, s);
        var tok, _, _ := GetToken(es, b);
        var kind, q, eq := GetToken(es, b);
        if kind != 'a' {
          BeforeMissing(arrows);
          return false, arrows;
        }
        ghost var p1 := s;
        BeforeNext(arrows, ArrowOf(tok, Tok(q, eq)), Redirs(b, p1));
        arrows := arrows + [ArrowOf(tok, Tok(q, eq))];
        more := Peek(es, {'<', '>'}, b);
        RedirsSkip(b, p1);
      }
      RedirsEnd(b, s, arrows);
      RedirsSigned(b, old(s));
      ok := true;
    }

    /** The loop of parseexec over the words, after the redirections `first`. */
    method ParseArgs(es: nat, first: seq<Arrow>, ghost b: Text) returns (ok: bool, c: Cmd)
      requires On(b) && es == |b| && ArrowWords(b, first)
      modifies this`s
      ensures ok <==> Args(b, old(s), [], first).Ok?
      ensures ok ==> On(b) && Args(b, old(s), [], first) == Ok(c, s)
    {
      hide Args, Lex, Skip, Redirs, Words, IsWord, Wrap;
      ghost var whole := Args(b, s, [], first);
      var argv: seq<Tok> := [];
      var arrows := first;
      c := Exec([]);
      var stop := Peek(es, {'|', ')', '&', ';'}, b);
      ArgsSkip(b, old(s), argv, arrows);
      while !stop
        invariant On(b) && s == Skip(b, s) && (stop <==> At(b, s) == ')' || Ends(At(b, s)))
        invariant |argv| < MAXARGS && (forall t :: t in argv ==> IsWord(b, t)) && ArrowWords(b, arrows)
        invariant whole == Args(b, s, argv, arrows)
        decreases es - s
      {
        ArgsNext(b, s, argv, arrows);
        var kind, q, eq := GetToken(es, b);
        if kind == '\0' {
          return true, Wrap(Exec(argv), arrows);
        }
        if kind != 'a' {
          return false, c;
        }
        argv := argv + [Tok(q, eq)];
        if |argv| >= MAXARGS {
          return false, c;
        }
        var found, more := ParseRedirs(es, b);
        if !found {
          return false, c;
        }
        arrows := arrows + more;
        ghost var p := s;
        stop := Peek(es, {'|', ')', '&', ';'}, b);
        ArgsSkip(b, p, argv, arrows);
      }
      ArgsDone(b, s, argv, arrows);
      return true, Wrap(Exec(argv), arrows);
    }

    /** parseexec. */
    method ParseExec(es: nat, ghost b: Text) returns (ok: bool, c: Cmd)
      requires On(b) && es == |b|
      modifies this`s
      ensures ok <==> Simple(b, old(s)).Ok?
      ensures ok ==> On(b) && Simple(b, old(s)) == Ok(c, s)
      decreases es - s, 2
    {
      hide Simple, Block, Args, Lex, Skip, Redirs, Words;
      c := Exec([]);
      SimpleIs(b, s);
      var open := Peek(es, {'('}, b);
      if open {
        ok, c := ParseBlock(es, b);
        return;
      }
      var found, arrows := ParseRedirs(es, b);
      if !found {
        return false, c;
      }
      ok, c := ParseArgs(es, arrows, b);
    }

    /** parseblock. */
    method ParseBlock(es: nat, ghost b: Text) returns (ok: bool, c: Cmd)
      requires On(b) && es == |b|
      modifies this`s
      ensures ok <==> Block(b, old(s)).Ok?
      ensures ok ==> On(b) && Block(b, old(s)) == Ok(c, s)
      decreases es - s, 1
    {
      hide Block, Group, Line, Lex, Skip, Redirs, Words, Wrap;
      c := Exec([]);
      BlockIs(b, s);
      var open := Peek(es, {'('}, b);
      if !open {
        return false, c;
      }
      LexSymbolMoves(b, s);
      var k, _, _ := GetToken(es, b);
      ok, c := ParseLine(es, b);
      if !ok {
        return;
      }
      var close := Peek(es, {')'}, b);
      if !close {
        return false, c;
      }
      var k1, _, _ := GetToken(es, b);
      var found, arrows := ParseRedirs(es, b);
      if !found {
        return false, c;
      }
      ok, c := true, Wrap(c, arrows);
    }

    /** parsepipe. */
    method ParsePipe(es: nat, ghost b: Text) returns (ok: bool, c: Cmd)
      requires On(b) && es == |b|
      modifies this`s
      ensures ok <==> PipeLine(b, old(s)).Ok?
      ensures ok ==> On(b) && PipeLine(b, old(s)) == Ok(c, s)
      decreases es - s, 3
    {
      hide PipeLine, Simple, Lex, Skip, Words;
      PipeLineIs(b, s);
      ok, c := ParseExec(es, b);
      if !ok {
        return;
      }
      var bar := Peek(es, {'|'}, b);
      if bar {
        LexSymbolMoves(b, s);
        var k, _, _ := GetToken(es, b);
        var d;
        ok, d := ParsePipe(es, b);
        c := Pipe(c, d);
      }
    }

    /** The loop of parseline over "&". */
    method ParseBacks(es: nat, first: Cmd, ghost b: Text) returns (c: Cmd)
      requires On(b) && es == |b| && Words(b, first)
      modifies this`s
      ensures On(b) && old(s) <= s && (c, s) == Backs(b, old(s), first)
    {
      hide Backs, Lex, Skip;
      c := first;
      var more := Peek(es, {'&'}, b);
      BacksSkip(b, old(s), c);
      while more
        invariant On(b) && old(s) <= s && s == Skip(b, s) && (more <==> At(b, s) == '&')
        invariant Words(b, c) && Backs(b, s, c) == Backs(b, old(s), first)
        decreases es - s
      {
        LexSymbolMoves(b, s);
        BacksNext(b, s, c);
        var k, _, _ := GetToken(es, b);
        c := Back(c);
        ghost var p := s;
        more := Peek(es, {'&'}, b);
        BacksSkip(b, p, c);
      }
      BacksEnd(b, s, c);
    }

    /** parseline. */
    method ParseLine(es: nat, ghost b: Text) returns (ok: bool, c: Cmd)
      requires On(b) && es == |b|
      modifies this`s
      ensures ok <==> Line(b, old(s)).Ok?
      ensures ok ==> On(b) && Line(b, old(s)) == Ok(c, s)
      decreases es - s, 4
    {
      hide Line, PipeLine, Backs, Lex, Skip, Words;
      LineIs(b, s);
      ok, c := ParsePipe(es, b);
      if !ok {
        return;
      }
      c := ParseBacks(es, c, b);
      var semi := Peek(es, {';'}, b);
      if semi {
        LexSymbolMoves(b, s);
        var k, _, _ := GetToken(es, b);
        var d;
        ok, d := ParseLine(es, b);
        c := List(c, d);
      }
    }

    /** nulterminate: a NUL is written where each word of the command ends, and nowhere else. */
    method NulTerminate(c: Cmd, ghost b: Text)
      requires Words(b, c) && buf.Length == |b| + 1
      modifies buf
      ensures forall x :: 0 <= x <= |b| ==> buf[x] == if EndsAt(c, x) then '\0' else old(buf[x])
      decreases c
    {
      match c
      case Exec(argv) =>
        var i := 0;
        while i < |argv|
          invariant i <= |argv|
          invariant forall x :: 0 <= x <= |b| ==> buf[x] == if EndsAt(Exec(argv[..i]), x) then '\0' else old(buf[x])
        {
          assert argv[..i + 1] == argv[..i] + [argv[i]];
          assert argv[i] in argv && IsWord(b, argv[i]);
          buf[argv[i].eq] := '\0';
          i := i + 1;
        }
        assert argv[..i] == argv;
      case Redir(d, file, _, _) =>
        NulTerminate(d, b);
        buf[file.eq] := '\0';
      case Pipe(l, r) =>
        NulTerminate(l, b);
        NulTerminate(r, b);
      case List(l, r) =>
        NulTerminate(l, b);
        NulTerminate(r, b);
      case Back(d) =>
        NulTerminate(d, b);
    }

    /** parsecmd: the text must be one whole command line; then each word of it is a C string in the buffer. */
    method ParseCmd(ghost b: Text) returns (ok: bool, c: Cmd)
      requires On(b) && s == 0
      modifies this`s, buf
      ensures ok <==> Parse(b).Ok?
      ensures ok ==> c == Parse(b).cmd && Cut(buf[..], b, c) && AllTerminated(buf[..], b, c)
      ensures !ok ==> buf[..] == old(buf[..])
    {
      var es := buf.Length - 1;
      ok, c := ParseLine(es, b);
      if !ok {
        return;
      }
      var p := Peek(es, {}, b);
      if s != es {
        return false, c;
      }
      NulTerminate(c, b);
      CutTerminates(buf[..], b, c, c);
    }
  }

  /** Redirections found before others. */
  ghost predicate Blank(b: Text, x: nat, y: nat) {
    x <= y <= |b| && forall k :: x <= k < y ==> Space(b[k])
  }

  /** Before the file name, with only blanks between, stands "<" for reading as descriptor 0, or ">" or ">>" for
      writing, creating the file, as descriptor 1. */
  ghost predicate Signed(b: Text, a: Arrow) {
    exists x: nat ::
      && x < a.file.q <= |b|
      && if b[x] == '<' then a.mode == 0 && a.fd == 0 && Blank(b, x + 1, a.file.q)
         else
           && b[x] == '>' && a.mode == 0x201 && a.fd == 1
           && (Blank(b, x + 1, a.file.q) || (At(b, x + 1) == '>' && Blank(b, x + 2, a.file.q)))
  }

  lemma {:induction false} RedirsSigned(b: Text, p: nat)
    requires p <= |b| && Redirs(b, p).Found?
    ensures forall i :: 0 <= i < |Redirs(b, p).arrows| ==> Signed(b, Redirs(b, p).arrows[i])
    decreases |b| - p
  {
    hide Signed, IsWord, Sound, ArrowWords, ArrowOf;
    var x := Skip(b, p);
    if At(b, x) == '<' || At(b, x) == '>' {
      var q := Lex(b, x).next;
      var e := Lex(b, q).next;
      SignBefore(b, x, q);
      RedirsSigned(b, e);
    }
  }

  lemma SignBefore(b: Text, x: nat, q: nat)
    requires x < |b| && (b[x] == '<' || b[x] == '>') && q == Lex(b, x).next && Lex(b, q).kind == 'a'
    ensures Signed(b, ArrowOf(Lex(b, x).kind, Lex(b, q).tok))
  {
    assert Skip(b, x) == x;
    var a := ArrowOf(Lex(b, x).kind, Lex(b, q).tok);
    assert a.file.q == Skip(b, q);
    if b[x] == '>' && At(b, x + 1) == '>' {
      assert Blank(b, x + 2, a.file.q);
    } else {
      assert Blank(b, x + 1, a.file.q);
    }
  }

  ghost function Before(arrows: seq<Arrow>, r: Arrows): Arrows {
    match r
    case Missing => Missing
    case Found(more, pos) => Found(arrows + more, pos)
  }

  lemma BeforeNone(r: Arrows)
    ensures Before([], r) == r
  {
    if r.Found? {
      assert [] + r.arrows == r.arrows;
    }
  }

  lemma BeforeMissing(arrows: seq<Arrow>)
    ensures Before(arrows, Missing) == Missing
  {
  }

  lemma RedirsStep(b: Text, p: nat)
    requires p <= |b| && Skip(b, p) == p && (At(b, p) == '<' || At(b, p) == '>')
    ensures var op := Lex(b, p);
      var f := Lex(b, op.next);
      p < op.next && Redirs(b, p) == if f.kind != 'a' then Missing
        else Before([ArrowOf(op.kind, f.tok)], Redirs(b, f.next))
  {
  }

  lemma RedirsEnd(b: Text, p: nat, arrows: seq<Arrow>)
    requires p <= |b| && Skip(b, p) == p && At(b, p) != '<' && At(b, p) != '>'
    ensures Before(arrows, Redirs(b, p)) == Found(arrows, p)
  {
    assert arrows + [] == arrows;
  }

  lemma BeforeNext(arrows: seq<Arrow>, a: Arrow, r: Arrows)
    ensures Before(arrows, Before([a], r)) == Before(arrows + [a], r)
  {
    if r.Found? {
      assert arrows + ([a] + r.arrows) == arrows + [a] + r.arrows;
    }
  }

  lemma RedirsSkip(b: Text, p: nat)
    requires p <= |b|
    ensures Redirs(b, Skip(b, p)) == Redirs(b, p) && Skip(b, Skip(b, p)) == Skip(b, p)
  {
  }

  lemma LexSymbolMoves(b: Text, p: nat)
    requires p <= |b| && Skip(b, p) == p && Mark(At(b, p))
    ensures p < Lex(b, p).next <= |b|
  {
  }

  lemma ArgsSkip(b: Text, p: nat, argv: seq<Tok>, arrows: seq<Arrow>)
    requires p <= |b| && |argv| < MAXARGS && (forall t :: t in argv ==> IsWord(b, t)) && ArrowWords(b, arrows)
    ensures Skip(b, Skip(b, p)) == Skip(b, p) && Args(b, Skip(b, p), argv, arrows) == Args(b, p, argv, arrows)
  {
  }

  lemma ArgsDone(b: Text, p: nat, argv: seq<Tok>, arrows: seq<Arrow>)
    requires p <= |b| && |argv| < MAXARGS && (forall t :: t in argv ==> IsWord(b, t)) && ArrowWords(b, arrows)
    requires Skip(b, p) == p && (At(b, p) == ')' || Ends(At(b, p)))
    ensures Args(b, p, argv, arrows) == Ok(Wrap(Exec(argv), arrows), p)
  {
  }

  /** What the token at `p` makes of the rest of a simple command. */
  ghost predicate ArgsFrom(b: Text, p: nat, argv: seq<Tok>, arrows: seq<Arrow>, r: Result)
    requires p <= |b| && |argv| < MAXARGS && (forall t :: t in argv ==> IsWord(b, t)) && ArrowWords(b, arrows)
  {
    var l := Lex(b, p);
    if l.kind == '\0' then r == Ok(Wrap(Exec(argv), arrows), l.next)
    else if l.kind != 'a' || |argv| + 1 >= MAXARGS then r == Panic
    else
      && p < l.next && IsWord(b, l.tok)
      && match Redirs(b, l.next)
         case Missing => r == Panic
         case Found(more, p2) =>
           l.next <= p2 <= |b| && ArrowWords(b, more) && r == Args(b, p2, argv + [l.tok], arrows + more)
  }

  /** One word of a simple command. */
  lemma ArgsNext(b: Text, p: nat, argv: seq<Tok>, arrows: seq<Arrow>)
    requires p <= |b| && |argv| < MAXARGS && (forall t :: t in argv ==> IsWord(b, t)) && ArrowWords(b, arrows)
    requires Skip(b, p) == p && At(b, p) != ')' && !Ends(At(b, p))
    ensures ArgsFrom(b, p, argv, arrows, Args(b, p, argv, arrows))
  {
  }

  lemma SimpleIs(b: Text, p: nat)
    requires p <= |b|
    ensures var p1 := Skip(b, p);
      Simple(b, p) == if At(b, p1) == '(' then Block(b, p1) else
        match Redirs(b, p1) case Missing => Panic case Found(arrows, p2) => Args(b, p2, [], arrows)
  {
  }

  lemma BlockIs(b: Text, p: nat)
    requires p <= |b|
    ensures var p1 := Skip(b, p);
      Block(b, p) == if At(b, p1) != '(' then Panic else
        match Line(b, Lex(b, p1).next)
        case Panic => Panic
        case Ok(c, p2) =>
          var p3 := Skip(b, p2);
          if At(b, p3) != ')' then Panic else
            match Redirs(b, Lex(b, p3).next) case Missing => Panic case Found(arrows, p4) => Ok(Wrap(c, arrows), p4)
  {
  }

  lemma PipeLineIs(b: Text, p: nat)
    requires p <= |b|
    ensures PipeLine(b, p) ==
      match Simple(b, p)
      case Panic => Panic
      case Ok(c, p1) =>
        var p2 := Skip(b, p1);
        if At(b, p2) != '|' then Ok(c, p2) else
          match PipeLine(b, Lex(b, p2).next) case Panic => Panic case Ok(d, p3) => Ok(Pipe(c, d), p3)
  {
  }

  lemma LineIs(b: Text, p: nat)
    requires p <= |b|
    ensures Line(b, p) ==
      match PipeLine(b, p)
      case Panic => Panic
      case Ok(c, p1) =>
        var (d, p2) := Backs(b, p1, c);
        var p3 := Skip(b, p2);
        if At(b, p3) != ';' then Ok(d, p3) else
          match Line(b, Lex(b, p3).next) case Panic => Panic case Ok(e, p4) => Ok(List(d, e), p4)
  {
  }

  lemma BacksSkip(b: Text, p: nat, c: Cmd)
    requires p <= |b| && Words(b, c)
    ensures Skip(b, Skip(b, p)) == Skip(b, p) && Backs(b, Skip(b, p), c) == Backs(b, p, c)
  {
  }

  lemma BacksNext(b: Text, p: nat, c: Cmd)
    requires p <= |b| && Words(b, c) && Skip(b, p) == p && At(b, p) == '&'
    ensures Words(b, Back(c)) && Backs(b, p, c) == Backs(b, Lex(b, p).next, Back(c))
  {
  }

  lemma BacksEnd(b: Text, p: nat, c: Cmd)
    requires p <= |b| && Words(b, c) && Skip(b, p) == p && At(b, p) != '&'
    ensures Backs(b, p, c) == (c, p)
  {
  }
}
