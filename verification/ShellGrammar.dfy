/**
 * The command language of sh.c: its tokens, its grammar as functions of a position in the text, and a
 * canonical way of writing a command. `ShellParser` holds the recursive-descent procedures.
 */
module ShellGrammar {

  const MAXARGS: nat := 10
  const O_RDONLY: nat := 0
  /** O_WRONLY | O_CREATE */
  const O_WRITE: nat := 0x201

  // ------------------------------------------------------------------- tokens

  /** A command line: text up to, and without, its terminating NUL. */
  type Text = b: seq<char> | NoNul(b) witness []

  predicate NoNul(b: seq<char>) {
    forall x :: 0 <= x < |b| ==> b[x] != '\0'
  }

  predicate Space(c: char) {
    c == ' ' || c == '\t' || c == '\r' || c == '\n' || c == '\U{B}'
  }

  predicate Mark(c: char) {
    c == '(' || c == ')' || Ends(c)
  }

  /** What ends a simple command inside a line. */
  predicate Ends(c: char) {
    c == '|' || c == ';' || c == '&'
  }

  predicate Symbol(c: char) {
    c == '<' || c == '>' || Mark(c)
  }

  predicate WordChar(c: char) {
    c != '\0' && !Space(c) && !Symbol(c)
  }

  /** The character at `p`, with the NUL at the end. */
  function At(b: Text, p: nat): char {
    if p < |b| then b[p] else '\0'
  }

  function Skip(b: Text, p: nat): (r: nat)
    requires p <= |b|
    ensures p <= r <= |b| && !Space(At(b, r)) && forall x :: p <= x < r ==> Space(b[x])
    decreases |b| - p
  {
    if p < |b| && Space(b[p]) then Skip(b, p + 1) else p
  }

  function WordEnd(b: Text, p: nat): (r: nat)
    requires p <= |b|
    ensures p <= r <= |b| && !WordChar(At(b, r)) && forall x :: p <= x < r ==> WordChar(b[x])
    decreases |b| - p
  {
    if p < |b| && WordChar(b[p]) then WordEnd(b, p + 1) else p
  }

  /** The text from `q` up to `eq`. */
  datatype Tok = Tok(q: nat, eq: nat)

  /** A whole word, up to the character that ends it. */
  ghost predicate IsWord(b: Text, t: Tok) {
    t.q < t.eq <= |b| && !WordChar(At(b, t.eq)) && forall x :: t.q <= x < t.eq ==> WordChar(b[x])
  }

  datatype Lexeme = Lexeme(kind: char, tok: Tok, next: nat)

  /** What gettoken finds from `p` on: kind 'a' is a word, '+' is ">>", NUL is the end. */
  function Lex(b: Text, p: nat): (l: Lexeme)
    requires p <= |b|
    ensures p <= l.next <= |b| && (l.kind != '\0' ==> p < l.next) && (l.kind == 'a' ==> IsWord(b, l.tok))
  {
    var q := Skip(b, p);
    var c := At(b, q);
    if c == '\0' then Lexeme('\0', Tok(q, q), q)
    else if Mark(c) || c == '<' then Lexeme(c, Tok(q, q + 1), Skip(b, q + 1))
    else if c == '>' then
      if At(b, q + 1) == '>' then Lexeme('+', Tok(q, q + 2), Skip(b, q + 2))
        else Lexeme('>', Tok(q, q + 1), Skip(b, q + 1))
    else Lexeme('a', Tok(q, WordEnd(b, q)), Skip(b, WordEnd(b, q)))
  }

  // ------------------------------------------------------------------ grammar

  datatype Cmd =
    | Exec(argv: seq<Tok>)
    | Redir(cmd: Cmd, file: Tok, mode: nat, fd: nat)
    | Pipe(left: Cmd, right: Cmd)
    | List(left: Cmd, right: Cmd)
    | Back(cmd: Cmd)

  /** A redirection, outermost last. */
  datatype Arrow = Arrow(file: Tok, mode: nat, fd: nat)

  function Wrap(c: Cmd, arrows: seq<Arrow>): Cmd
    decreases |arrows|
  {
    if arrows == [] then c
    else Wrap(Redir(c, arrows[0].file, arrows[0].mode, arrows[0].fd), arrows[1..])
  }

  function ArrowOf(kind: char, t: Tok): (a: Arrow)
    ensures Sound(a) && a.file == t
  {
    if kind == '<' then Arrow(t, O_RDONLY, 0) else Arrow(t, O_WRITE, 1)
  }

  /** A parsed command and where it ends; Panic is the shell giving up. */
  datatype Result = Ok(cmd: Cmd, pos: nat) | Panic

  datatype Arrows = Found(arrows: seq<Arrow>, pos: nat) | Missing

  predicate Sound(arrow: Arrow) {
    (arrow.mode == O_RDONLY && arrow.fd == 0) || (arrow.mode == O_WRITE && arrow.fd == 1)
  }

  /** The tokens of a command are whole words of the text. */
  ghost predicate Words(b: Text, c: Cmd) {
    match c
    case Exec(argv) => |argv| < MAXARGS && forall t :: t in argv ==> IsWord(b, t)
    case Redir(d, file, mode, fd) => IsWord(b, file) && Sound(Arrow(file, mode, fd)) && Words(b, d)
    case Pipe(l, r) => Words(b, l) && Words(b, r)
    case List(l, r) => Words(b, l) && Words(b, r)
    case Back(d) => Words(b, d)
  }

  ghost predicate ArrowWords(b: Text, arrows: seq<Arrow>) {
    forall i :: 0 <= i < |arrows| ==> IsWord(b, arrows[i].file) && Sound(arrows[i])
  }

  lemma ArrowWordsFirst(b: Text, a: Arrow, rest: seq<Arrow>)
    requires IsWord(b, a.file) && Sound(a) && ArrowWords(b, rest)
    ensures ArrowWords(b, [a] + rest)
  {
    hide IsWord, Sound;
  }

  lemma {:induction false} WrapWords(b: Text, c: Cmd, arrows: seq<Arrow>)
    requires Words(b, c) && ArrowWords(b, arrows)
    ensures Words(b, Wrap(c, arrows))
    decreases |arrows|
  {
    if arrows != [] {
      WrapWords(b, Redir(c, arrows[0].file, arrows[0].mode, arrows[0].fd), arrows[1..]);
    }
  }

  function Redirs(b: Text, p: nat): (r: Arrows)
    requires p <= |b|
    ensures r.Found? ==> p <= r.pos <= |b| && ArrowWords(b, r.arrows)
    decreases |b| - p
  {
    var p1 := Skip(b, p);
    if At(b, p1) != '<' && At(b, p1) != '>' then Found([], p1)
    else
      var op := Lex(b, p1);
      var f := Lex(b, op.next);
      if f.kind != 'a' then Missing
      else match Redirs(b, f.next)
        case Missing => Missing
        case Found(rest, p2) =>
          ArrowWordsFirst(b, ArrowOf(op.kind, f.tok), rest);
          Found([ArrowOf(op.kind, f.tok)] + rest, p2)
  }

  /** The words of a simple command, after `argv` and `arrows`. */
  function Args(b: Text, p: nat, argv: seq<Tok>, arrows: seq<Arrow>): (r: Result)
    requires p <= |b| && |argv| < MAXARGS && (forall t :: t in argv ==> IsWord(b, t)) && ArrowWords(b, arrows)
    ensures r.Ok? ==> p <= r.pos <= |b| && Words(b, r.cmd)
    decreases |b| - p
  {
    WrapWords(b, Exec(argv), arrows);
    var p1 := Skip(b, p);
    if At(b, p1) == ')' || Ends(At(b, p1)) then Ok(Wrap(Exec(argv), arrows), p1)
    else
      var l := Lex(b, p1);
      if l.kind == '\0' then Ok(Wrap(Exec(argv), arrows), l.next)
      else if l.kind != 'a' || |argv| + 1 >= MAXARGS then Panic
      else match Redirs(b, l.next)
        case Missing => Panic
        case Found(more, p2) => Args(b, p2, argv + [l.tok], arrows + more)
  }

  function Simple(b: Text, p: nat): (r: Result)
    requires p <= |b|
    ensures r.Ok? ==> p <= r.pos <= |b| && Words(b, r.cmd)
    decreases |b| - p, 2
  {
    var p1 := Skip(b, p);
    if At(b, p1) == '(' then Block(b, p1)
    else match Redirs(b, p1)
      case Missing => Panic
      case Found(arrows, p2) => Args(b, p2, [], arrows)
  }

  /** A parenthesised command line. */
  function Group(b: Text, p: nat): (r: Result)
    requires p <= |b|
    ensures r.Ok? ==> p < r.pos <= |b| && Words(b, r.cmd)
    decreases |b| - p, 0
  {
    var p1 := Skip(b, p);
    if At(b, p1) != '(' then Panic
    else match Line(b, Lex(b, p1).next)
      case Panic => Panic
      case Ok(c, p2) =>
        var p3 := Skip(b, p2);
        if At(b, p3) != ')' then Panic else Ok(c, Lex(b, p3).next)
  }

  function Block(b: Text, p: nat): (r: Result)
    requires p <= |b|
    ensures r.Ok? ==> p < r.pos <= |b| && Words(b, r.cmd)
    decreases |b| - p, 1
  {
    match Group(b, p)
    case Panic => Panic
    case Ok(c, p1) =>
      match Redirs(b, p1)
      case Missing => Panic
      case Found(arrows, p2) => WrapWords(b, c, arrows); Ok(Wrap(c, arrows), p2)
  }

  function PipeLine(b: Text, p: nat): (r: Result)
    requires p <= |b|
    ensures r.Ok? ==> p <= r.pos <= |b| && Words(b, r.cmd)
    decreases |b| - p, 3
  {
    match Simple(b, p)
    case Panic => Panic
    case Ok(c, p1) =>
      var p2 := Skip(b, p1);
      if At(b, p2) != '|' then Ok(c, p2)
      else match PipeLine(b, Lex(b, p2).next)
        case Panic => Panic
        case Ok(d, p3) => Ok(Pipe(c, d), p3)
  }

  function Backs(b: Text, p: nat, c: Cmd): (r: (Cmd, nat))
    requires p <= |b| && Words(b, c)
    ensures p <= r.1 <= |b| && Words(b, r.0)
    decreases |b| - p
  {
    var p1 := Skip(b, p);
    if At(b, p1) != '&' then (c, p1) else Backs(b, Lex(b, p1).next, Back(c))
  }

  function Line(b: Text, p: nat): (r: Result)
    requires p <= |b|
    ensures r.Ok? ==> p <= r.pos <= |b| && Words(b, r.cmd)
    decreases |b| - p, 4
  {
    match PipeLine(b, p)
    case Panic => Panic
    case Ok(c, p1) =>
      var (d, p2) := Backs(b, p1, c);
      var p3 := Skip(b, p2);
      if At(b, p3) != ';' then Ok(d, p3)
      else match Line(b, Lex(b, p3).next)
        case Panic => Panic
        case Ok(e, p4) => Ok(List(d, e), p4)
  }

  /** parsecmd, before it terminates the words: the whole text must be one command line. */
  function Parse(b: Text): (r: Result)
    ensures r.Ok? ==> r.pos == |b| && Words(b, r.cmd)
  {
    match Line(b, 0)
    case Panic => Panic
    case Ok(c, p) => if Skip(b, p) == |b| then Ok(c, |b|) else Panic
  }
}
