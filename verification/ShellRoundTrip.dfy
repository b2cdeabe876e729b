/**
 * The shell's command language as a user writes it: forms built from words, redirections, parentheses and the
 * connectives, written with any blanks between the tokens. The parser accepts exactly the texts that write a form,
 * and it gives what the form means. So writing a command out and parsing it again gives the command back.
 */
module ShellRoundTrip {
  import opened ShellGrammar

  // -------------------------------------------------------------------- forms

  /** A command as the user means it: words instead of positions. */
  datatype Tree =
    | Run(args: seq<string>)
    | File(sub: Tree, file: string, mode: nat, fd: nat)
    | Piped(left: Tree, right: Tree)
    | Then(left: Tree, right: Tree)
    | Async(sub: Tree)

  datatype Direction = Input | Output | Append

  /** A word of a simple command, or a redirection among or behind its words. */
  datatype Item = Arg(word: string) | To(dir: Direction, file: string)

  /** How a command is written. */
  datatype Form =
    | Plain(items: seq<Item>)
    | Parens(line: Form, arrows: seq<Item>)
    | Bar(first: Form, rest: Form)
    | Amp(sub: Form)
    | Semi(first: Form, rest: Form)

  predicate IsName(w: string) {
    w != [] && forall x :: 0 <= x < |w| ==> WordChar(w[x])
  }

  predicate Names(ws: seq<string>) {
    forall i :: 0 <= i < |ws| ==> IsName(ws[i])
  }

  function ArgWords(items: seq<Item>): seq<string> {
    if items == [] then []
    else (if items[0].Arg? then [items[0].word] else []) + ArgWords(items[1..])
  }

  predicate ItemsProper(items: seq<Item>) {
    forall i :: 0 <= i < |items| ==> IsName(if items[i].Arg? then items[i].word else items[i].file)
  }

  predicate OnlyArrows(items: seq<Item>) {
    forall i :: 0 <= i < |items| ==> items[i].To?
  }

  /** What may stand where: level 0 is a simple command or a block, 1 a pipeline, 2 one in the background or not, 3 a
      line. A simple command may be empty and has at most nine words. */
  predicate Proper(f: Form, level: nat) {
    match f
    case Plain(items) => ItemsProper(items) && |ArgWords(items)| < 10
    case Parens(l, arrows) => Proper(l, 3) && ItemsProper(arrows) && OnlyArrows(arrows)
    case Bar(x, y) => level >= 1 && Proper(x, 0) && Proper(y, 1)
    case Amp(x) => level >= 2 && Proper(x, 2)
    case Semi(x, y) => level >= 3 && Proper(x, 2) && Proper(y, 3)
  }

  function Sign(d: Direction): string {
    match d
    case Input => "<"
    case Output => ">"
    case Append => ">>"
  }

  function ItemTokens(items: seq<Item>): (ts: seq<string>) {
    if items == [] then []
    else (if items[0].Arg? then [items[0].word] else [Sign(items[0].dir), items[0].file]) + ItemTokens(items[1..])
  }

  /** The tokens a form is written with. */
  function Tokens(f: Form): (ts: seq<string>) {
    match f
    case Plain(items) => ItemTokens(items)
    case Parens(l, arrows) => ["("] + Tokens(l) + [")"] + ItemTokens(arrows)
    case Bar(x, y) => Tokens(x) + ["|"] + Tokens(y)
    case Amp(x) => Tokens(x) + ["&"]
    case Semi(x, y) => Tokens(x) + [";"] + Tokens(y)
  }

  datatype Redirection = Redirection(file: string, mode: nat, fd: nat)

  /** "<" opens for reading as descriptor 0; ">" and ">>" open for writing, and create, as descriptor 1. */
  function Redirections(items: seq<Item>): seq<Redirection> {
    if items == [] then []
    else
      (match items[0]
       case Arg(_) => []
       case To(Input, f) => [Redirection(f, 0, 0)]
       case To(_, f) => [Redirection(f, 0x201, 1)])
      + Redirections(items[1..])
  }

  /** The first redirection is the innermost. */
  function Directed(t: Tree, rs: seq<Redirection>): Tree
    decreases |rs|
  {
    if rs == [] then t else Directed(File(t, rs[0].file, rs[0].mode, rs[0].fd), rs[1..])
  }

  /** What a form means: "&" takes the whole pipeline before it, and "|" and ";" group to the right. */
  function TreeOf(f: Form): Tree {
    match f
    case Plain(items) => Directed(Run(ArgWords(items)), Redirections(items))
    case Parens(l, arrows) => Directed(TreeOf(l), Redirections(arrows))
    case Bar(x, y) => Piped(TreeOf(x), TreeOf(y))
    case Amp(x) => Async(TreeOf(x))
    case Semi(x, y) => Then(TreeOf(x), TreeOf(y))
  }

  /** A command that can be written: proper words, at most nine of them, and the redirections there are. */
  predicate Writable(t: Tree) {
    match t
    case Run(args) => |args| < 10 && Names(args)
    case File(s, f, mode, fd) => IsName(f) && ((mode == 0 && fd == 0) || (mode == 0x201 && fd == 1)) && Writable(s)
    case Piped(l, r) => Writable(l) && Writable(r)
    case Then(l, r) => Writable(l) && Writable(r)
    case Async(s) => Writable(s)
  }

  // ------------------------------------------------------------------ writing

  /** Token `t` stands at `p` with only blanks behind it up to `q`; a word is followed by no further character of a
      word, and ">" by no other ">". */
  ghost predicate TokenAt(b: Text, t: string, p: nat, q: nat) {
    && p + |t| <= q <= |b| && b[p..p + |t|] == t
    && (forall x :: p + |t| <= x < q ==> Space(b[x])) && !Space(At(b, q))
    && (IsName(t) ==> !WordChar(At(b, p + |t|))) && (t == ">" ==> At(b, p + 1) != '>')
  }

  /** The tokens stand one behind the other, the k-th at s[k]. */
  ghost predicate Laid(b: Text, s: seq<nat>, ts: seq<string>) {
    && |s| == |ts| + 1 && s[0] <= |b| && !Space(At(b, s[0]))
    && forall k :: 0 <= k < |ts| ==> TokenAt(b, ts[k], s[k], s[k + 1])
  }

  /** The whole text is these tokens, with blanks before, between and behind them. */
  ghost predicate Writes(b: Text, s: seq<nat>, ts: seq<string>) {
    Laid(b, s, ts) && s[|ts|] == |b| && forall x :: 0 <= x < s[0] ==> Space(b[x])
  }

  ghost predicate Written(b: Text, ts: seq<string>) {
    exists s :: Writes(b, s, ts)
  }

  // ------------------------------------------------------------------ meaning

  ghost function Word(b: Text, t: Tok): (w: string)
    requires IsWord(b, t)
    ensures IsName(w)
  {
    b[t.q..t.eq]
  }

  ghost function Spelling(b: Text, argv: seq<Tok>): (ws: seq<string>)
    requires forall t :: t in argv ==> IsWord(b, t)
    ensures |ws| == |argv| && Names(ws) && forall i :: 0 <= i < |ws| ==> argv[i] in argv && ws[i] == Word(b, argv[i])
  {
    if argv == [] then [] else [Word(b, argv[0])] + Spelling(b, argv[1..])
  }

  /** The command a parse stands for. */
  ghost function Meaning(b: Text, c: Cmd): (t: Tree)
    requires Words(b, c)
    ensures Writable(t)
  {
    match c
    case Exec(argv) => Run(Spelling(b, argv))
    case Redir(d, file, mode, fd) => File(Meaning(b, d), Word(b, file), mode, fd)
    case Pipe(l, r) => Piped(Meaning(b, l), Meaning(b, r))
    case List(l, r) => Then(Meaning(b, l), Meaning(b, r))
    case Back(d) => Async(Meaning(b, d))
  }

  ghost function Spelled(b: Text, arrows: seq<Arrow>): (rs: seq<Redirection>)
    requires ArrowWords(b, arrows)
    ensures |rs| == |arrows|
    ensures forall i :: 0 <= i < |rs| ==> rs[i] == Redirection(Word(b, arrows[i].file), arrows[i].mode, arrows[i].fd)
  {
    if arrows == [] then []
    else [Redirection(Word(b, arrows[0].file), arrows[0].mode, arrows[0].fd)] + Spelled(b, arrows[1..])
  }

  lemma {:induction false} WrapMeaning(b: Text, c: Cmd, arrows: seq<Arrow>)
    requires Words(b, c) && ArrowWords(b, arrows)
    ensures Words(b, Wrap(c, arrows)) && Meaning(b, Wrap(c, arrows)) == Directed(Meaning(b, c), Spelled(b, arrows))
    decreases |arrows|
  {
    WrapWords(b, c, arrows);
    if arrows != [] {
      hide IsWord;
      WrapMeaning(b, Redir(c, arrows[0].file, arrows[0].mode, arrows[0].fd), arrows[1..]);
      assert Spelled(b, arrows)[1..] == Spelled(b, arrows[1..]);
    }
  }

  /** `r` is a parse of `t` that ends at `e`. */
  ghost predicate Reads(b: Text, r: Result, t: Tree, e: nat) {
    r.Ok? && r.pos == e && Words(b, r.cmd) && Meaning(b, r.cmd) == t
  }

  // ------------------------------------------------------------- single tokens

  lemma {:induction false} SkipTo(b: Text, p: nat, q: nat)
    requires p <= q <= |b| && (forall x :: p <= x < q ==> Space(b[x])) && !Space(At(b, q))
    ensures Skip(b, p) == q
    decreases q - p
  {
    if p < q {
      SkipTo(b, p + 1, q);
    }
  }

  lemma {:induction false} WordEndIs(b: Text, p: nat, e: nat)
    requires p <= e <= |b| && (forall x :: p <= x < e ==> WordChar(b[x])) && !WordChar(At(b, e))
    ensures WordEnd(b, p) == e
    decreases e - p
  {
    if p < e {
      WordEndIs(b, p + 1, e);
    }
  }

  lemma FirstChar(b: Text, t: string, p: nat, q: nat)
    requires TokenAt(b, t, p, q) && t != ""
    ensures p < |b| && At(b, p) == b[p] == t[0]
  {
    assert b[p..p + |t|][0] == b[p];
  }

  lemma LexName(b: Text, w: string, p: nat, q: nat)
    requires TokenAt(b, w, p, q) && IsName(w)
    ensures p < |b| && WordChar(At(b, p)) && Skip(b, p) == p && IsWord(b, Tok(p, p + |w|))
    ensures Lex(b, p) == Lexeme('a', Tok(p, p + |w|), q) && Word(b, Tok(p, p + |w|)) == w
  {
    forall x | p <= x < p + |w| ensures WordChar(b[x]) {
      assert b[x] == b[p..p + |w|][x - p];
    }
    SkipTo(b, p, p);
    WordEndIs(b, p, p + |w|);
    SkipTo(b, p + |w|, q);
  }

  /** A parenthesis or connective. */
  lemma LexMark(b: Text, c: char, p: nat, q: nat)
    requires TokenAt(b, [c], p, q) && Mark(c)
    ensures p < |b| && At(b, p) == c && Skip(b, p) == p && Lex(b, p) == Lexeme(c, Tok(p, p + 1), q)
  {
    FirstChar(b, [c], p, q);
    SkipTo(b, p, p);
    SkipTo(b, p + 1, q);
  }

  /** The sign of a redirection. */
  lemma LexSign(b: Text, d: Direction, p: nat, q: nat)
    requires TokenAt(b, Sign(d), p, q)
    ensures p < q && At(b, p) == (if d.Input? then '<' else '>') && Skip(b, p) == p && Lex(b, p).next == q
    ensures Lex(b, p).kind == match d case Input => '<' case Output => '>' case Append => '+'
  {
    FirstChar(b, Sign(d), p, q);
    SkipTo(b, p, p);
    SkipTo(b, p + |Sign(d)|, q);
    if d.Append? {
      assert b[p + 1] == b[p..p + 2][1];
    }
  }

  lemma Split(ts: seq<string>, i: nat, j: nat, x: seq<string>, y: seq<string>)
    requires i <= j <= |ts| && ts[i..j] == x + y
    ensures i + |x| <= j && ts[i..i + |x|] == x && ts[i + |x|..j] == y
  {
    assert ts[i..i + |x|] == ts[i..j][..|x|] && ts[i + |x|..j] == ts[i..j][|x|..];
  }

  // ------------------------------------------------------ a written form is read

  /** Tokens i up to j of a laid text. */
  ghost predicate Part(b: Text, s: seq<nat>, ts: seq<string>, i: nat, j: nat, us: seq<string>) {
    Laid(b, s, ts) && i <= j <= |ts| && ts[i..j] == us
  }

  lemma Place(b: Text, s: seq<nat>, ts: seq<string>, k: nat)
    requires Laid(b, s, ts) && k <= |ts|
    ensures s[k] <= |b| && !Space(At(b, s[k]))
    ensures k < |ts| ==> TokenAt(b, ts[k], s[k], s[k + 1]) && s[k] + |ts[k]| <= s[k + 1] <= |b|
  {
    if k > 0 {
      assert TokenAt(b, ts[k - 1], s[k - 1], s[k]);
    }
  }

  lemma PartSplit(b: Text, s: seq<nat>, ts: seq<string>, i: nat, j: nat, us: seq<string>, vs: seq<string>)
    requires Part(b, s, ts, i, j, us + vs)
    ensures Part(b, s, ts, i, i + |us|, us) && Part(b, s, ts, i + |us|, j, vs)
  {
    hide Laid;
    Split(ts, i, j, us, vs);
  }

  lemma PartFirst(b: Text, s: seq<nat>, ts: seq<string>, i: nat, j: nat, t: string, vs: seq<string>)
    requires Part(b, s, ts, i, j, [t] + vs)
    ensures i < j <= |ts| && |s| == |ts| + 1 && TokenAt(b, t, s[i], s[i + 1])
    ensures Part(b, s, ts, i + 1, j, vs)
  {
    PartSplit(b, s, ts, i, j, [t], vs);
    assert ts[i..i + 1][0] == ts[i];
    Place(b, s, ts, i);
  }

  /** What may follow a form of this level. */
  predicate Stops(c: char, level: nat) {
    c == '\0' || c == ')' || (level <= 2 && c == ';') || (level <= 1 && c == '&') || (level == 0 && c == '|')
  }

  lemma NoRedirs(b: Text, p: nat)
    requires p <= |b| && !Space(At(b, p)) && At(b, p) != '<' && At(b, p) != '>'
    ensures Redirs(b, p) == Found([], p)
  {
    SkipTo(b, p, p);
  }

  lemma MoreArrowWords(b: Text, arrows: seq<Arrow>, more: seq<Arrow>)
    requires ArrowWords(b, arrows) && ArrowWords(b, more)
    ensures ArrowWords(b, arrows + more) && Spelled(b, arrows + more) == Spelled(b, arrows) + Spelled(b, more)
  {
    hide IsWord, Sound;
  }

  /** One redirection, and what comes after it. */
  lemma OneArrow(b: Text, d: Direction, f: string, p: nat, q: nat, e: nat) returns (a: Arrow)
    requires TokenAt(b, Sign(d), p, q) && TokenAt(b, f, q, e) && IsName(f)
    ensures p <= e <= |b| && IsWord(b, a.file) && Sound(a) && Word(b, a.file) == f
    ensures if d.Input? then a.mode == 0 && a.fd == 0 else a.mode == 0x201 && a.fd == 1
    ensures Redirs(b, p) ==
      match Redirs(b, e) case Missing => Missing case Found(rest, p2) => Found([a] + rest, p2)
  {
    hide Lex, Skip, TokenAt, IsName, IsWord, Sign;
    SignAt(b, d, p, q);
    LexSign(b, d, p, q);
    LexName(b, f, q, e);
    a := ArrowOf(Lex(b, p).kind, Tok(q, q + |f|));
  }

  lemma SignAt(b: Text, d: Direction, p: nat, q: nat)
    requires TokenAt(b, Sign(d), p, q)
    ensures p < q <= |b|
  {
  }

  lemma RedirectionsFirst(items: seq<Item>)
    requires items != [] && items[0].To?
    ensures Redirections(items) == [Redirection(items[0].file, if items[0].dir.Input? then 0 else 0x201,
                                                if items[0].dir.Input? then 0 else 1)] + Redirections(items[1..])
    ensures ItemTokens(items) == [Sign(items[0].dir)] + ([items[0].file] + ItemTokens(items[1..]))
    ensures ArgWords(items) == ArgWords(items[1..])
  {
    assert [] + ArgWords(items[1..]) == ArgWords(items[1..]);
  }

  lemma ArgFirst(items: seq<Item>)
    requires items != [] && items[0].Arg?
    ensures Redirections(items) == Redirections(items[1..])
    ensures ItemTokens(items) == [items[0].word] + ItemTokens(items[1..])
    ensures ArgWords(items) == [items[0].word] + ArgWords(items[1..])
  {
    assert [] + Redirections(items[1..]) == Redirections(items[1..]);
  }

  /** Where a redirection stands. */
  lemma ArrowPart(b: Text, s: seq<nat>, ts: seq<string>, i: nat, j: nat, items: seq<Item>)
    requires Part(b, s, ts, i, j, ItemTokens(items)) && items != [] && items[0].To?
    ensures i + 2 <= j <= |ts| && |s| == |ts| + 1 && TokenAt(b, Sign(items[0].dir), s[i], s[i + 1])
    ensures TokenAt(b, items[0].file, s[i + 1], s[i + 2]) && Part(b, s, ts, i + 2, j, ItemTokens(items[1..]))
  {
    RedirectionsFirst(items);
    hide ItemTokens, Part, TokenAt;
    PartFirst(b, s, ts, i, j, Sign(items[0].dir), [items[0].file] + ItemTokens(items[1..]));
    PartFirst(b, s, ts, i + 1, j, items[0].file, ItemTokens(items[1..]));
  }

  lemma PartEmpty(b: Text, s: seq<nat>, ts: seq<string>, i: nat, j: nat)
    requires Part(b, s, ts, i, j, [])
    ensures i == j <= |ts| && |s| == |ts| + 1 && s[j] <= |b| && !Space(At(b, s[j]))
  {
    assert |ts[i..j]| == j - i;
    Place(b, s, ts, j);
  }

  lemma {:induction false} RedirsRead(b: Text, s: seq<nat>, ts: seq<string>, i: nat, j: nat, items: seq<Item>)
    requires Part(b, s, ts, i, j, ItemTokens(items)) && ItemsProper(items) && OnlyArrows(items)
    requires At(b, s[j]) != '<' && At(b, s[j]) != '>' && !Space(At(b, s[j]))
    ensures s[i] <= |b| && Redirs(b, s[i]).Found? && Redirs(b, s[i]).pos == s[j]
    ensures Spelled(b, Redirs(b, s[i]).arrows) == Redirections(items)
    decreases |items|
  {
    hide Laid, TokenAt, IsName, IsWord, Sign, Redirs, Redirections, Part;
    if items == [] {
      PartEmpty(b, s, ts, i, j);
      NoRedirs(b, s[j]);
      NoRedirections();
    } else {
      ArrowPart(b, s, ts, i, j, items);
      var a := OneArrow(b, items[0].dir, items[0].file, s[i], s[i + 1], s[i + 2]);
      RedirsRead(b, s, ts, i + 2, j, items[1..]);
      RedirectionsFirst(items);
      MoreArrowWords(b, [a], Redirs(b, s[i + 2]).arrows);
      assert Spelled(b, [a]) == [Redirection(Word(b, a.file), a.mode, a.fd)];
    }
  }

  lemma NoRedirections()
    ensures Redirections([]) == []
  {
  }

  /** Redirections and then the words, as parseexec has it. */
  ghost function AfterRedirs(b: Text, p: nat, argv: seq<Tok>, arrows: seq<Arrow>): (r: Result)
    requires p <= |b| && |argv| < MAXARGS && (forall t :: t in argv ==> IsWord(b, t)) && ArrowWords(b, arrows)
  {
    match Redirs(b, p)
    case Missing => Panic
    case Found(more, p2) => MoreArrowWords(b, arrows, more); Args(b, p2, argv, arrows + more)
  }

  lemma AfterNothing(b: Text, p: nat, argv: seq<Tok>, arrows: seq<Arrow>)
    requires p <= |b| && |argv| < MAXARGS && (forall t :: t in argv ==> IsWord(b, t)) && ArrowWords(b, arrows)
    requires !Space(At(b, p)) && At(b, p) != '<' && At(b, p) != '>'
    ensures AfterRedirs(b, p, argv, arrows) == Args(b, p, argv, arrows)
  {
    NoRedirs(b, p);
    assert arrows + [] == arrows;
  }

  lemma AfterArrow(b: Text, p: nat, argv: seq<Tok>, arrows: seq<Arrow>, a: Arrow, e: nat)
    requires p <= e <= |b| && |argv| < MAXARGS && (forall t :: t in argv ==> IsWord(b, t)) && ArrowWords(b, arrows)
    requires IsWord(b, a.file) && Sound(a) && Redirs(b, p) ==
      match Redirs(b, e) case Missing => Missing case Found(rest, p2) => Found([a] + rest, p2)
    ensures ArrowWords(b, arrows + [a]) && AfterRedirs(b, p, argv, arrows) == AfterRedirs(b, e, argv, arrows + [a])
  {
    hide IsWord, Sound, Redirs, Args;
    match Redirs(b, e)
    case Missing =>
    case Found(rest, _) =>
      assert arrows + ([a] + rest) == arrows + [a] + rest;
  }

  /** One word, and what comes after it. */
  lemma OneWord(b: Text, w: string, p: nat, q: nat, argv: seq<Tok>, arrows: seq<Arrow>)
    requires TokenAt(b, w, p, q) && IsName(w) && |argv| + 1 < MAXARGS && ArrowWords(b, arrows)
    requires forall t :: t in argv ==> IsWord(b, t)
    ensures p <= q <= |b| && IsWord(b, Tok(p, p + |w|)) && Word(b, Tok(p, p + |w|)) == w
    ensures AfterRedirs(b, p, argv, arrows) == AfterRedirs(b, q, argv + [Tok(p, p + |w|)], arrows)
  {
    LexName(b, w, p, q);
    AfterNothing(b, p, argv, arrows);
  }

  lemma MoreWords(b: Text, argv: seq<Tok>, t: Tok)
    requires (forall u :: u in argv ==> IsWord(b, u)) && IsWord(b, t)
    ensures forall u :: u in argv + [t] ==> IsWord(b, u)
    ensures Spelling(b, argv + [t]) == Spelling(b, argv) + [Word(b, t)]
  {
    hide IsWord;
  }

  lemma ArgsEnd(b: Text, p: nat, argv: seq<Tok>, arrows: seq<Arrow>)
    requires p <= |b| && |argv| < MAXARGS && (forall t :: t in argv ==> IsWord(b, t)) && ArrowWords(b, arrows)
    requires Stops(At(b, p), 0) && !Space(At(b, p))
    ensures Reads(b, AfterRedirs(b, p, argv, arrows), Directed(Run(Spelling(b, argv)), Spelled(b, arrows)), p)
  {
    SkipTo(b, p, p);
    AfterNothing(b, p, argv, arrows);
    WrapMeaning(b, Exec(argv), arrows);
  }

  /** The rest of a simple command is read: `items` from `p` to `e`, after `argv` and `arrows`. */
  ghost predicate RestRead(b: Text, p: nat, argv: seq<Tok>, arrows: seq<Arrow>, items: seq<Item>, e: nat) {
    && p <= |b| && |argv| < MAXARGS && (forall t :: t in argv ==> IsWord(b, t)) && ArrowWords(b, arrows)
    && Reads(b, AfterRedirs(b, p, argv, arrows),
             Directed(Run(Spelling(b, argv) + ArgWords(items)), Spelled(b, arrows) + Redirections(items)), e)
  }

  lemma RestNone(b: Text, p: nat, argv: seq<Tok>, arrows: seq<Arrow>)
    requires p <= |b| && |argv| < MAXARGS && (forall t :: t in argv ==> IsWord(b, t)) && ArrowWords(b, arrows)
    requires Stops(At(b, p), 0) && !Space(At(b, p))
    ensures RestRead(b, p, argv, arrows, [], p)
  {
    hide IsWord, ArrowWords, AfterRedirs, Directed, Reads;
    ArgsEnd(b, p, argv, arrows);
    NothingMore(Spelling(b, argv), Spelled(b, arrows));
  }

  lemma RestArrow(b: Text, p: nat, argv: seq<Tok>, arrows: seq<Arrow>, items: seq<Item>, e: nat, a: Arrow, q: nat)
    requires items != [] && items[0].To? && p <= q && IsWord(b, a.file) && Sound(a)
    requires Redirection(Word(b, a.file), a.mode, a.fd) ==
      Redirection(items[0].file, if items[0].dir.Input? then 0 else 0x201, if items[0].dir.Input? then 0 else 1)
    requires ArrowWords(b, arrows) && RestRead(b, q, argv, arrows + [a], items[1..], e) && Redirs(b, p) ==
      match Redirs(b, q) case Missing => Missing case Found(rest, p2) => Found([a] + rest, p2)
    ensures RestRead(b, p, argv, arrows, items, e)
  {
    hide IsWord, ArrowWords, AfterRedirs, Directed, Reads, Redirs, Redirections, ArgWords, ItemTokens, Sound, Spelled;
    AfterArrow(b, p, argv, arrows, a, q);
    OneSpelled(b, arrows, a);
    RedirectionsFirst(items);
    Around(Spelled(b, arrows), Redirection(Word(b, a.file), a.mode, a.fd), Redirections(items[1..]));
  }

  lemma RestWord(b: Text, p: nat, argv: seq<Tok>, arrows: seq<Arrow>, items: seq<Item>, e: nat, t: Tok, q: nat)
    requires items != [] && items[0].Arg? && p <= |b| && |argv| + 1 < MAXARGS
    requires (forall u :: u in argv ==> IsWord(b, u)) && ArrowWords(b, arrows)
    requires IsWord(b, t) && Word(b, t) == items[0].word && RestRead(b, q, argv + [t], arrows, items[1..], e)
    requires AfterRedirs(b, p, argv, arrows) == AfterRedirs(b, q, argv + [t], arrows)
    ensures RestRead(b, p, argv, arrows, items, e)
  {
    hide IsWord, ArrowWords, AfterRedirs, Directed, Reads, Redirections, ArgWords, ItemTokens;
    MoreWords(b, argv, t);
    ArgFirst(items);
    Around(Spelling(b, argv), items[0].word, ArgWords(items[1..]));
  }

  lemma Around<T>(x: seq<T>, t: T, y: seq<T>)
    ensures x + [t] + y == x + ([t] + y)
  {
  }

  /** The rest of a simple command: words and redirections in any order. */
  lemma {:induction false} RestReads(b: Text, s: seq<nat>, ts: seq<string>, i: nat, j: nat, items: seq<Item>,
                                     argv: seq<Tok>, arrows: seq<Arrow>)
    requires Part(b, s, ts, i, j, ItemTokens(items)) && ItemsProper(items) && Stops(At(b, s[j]), 0)
    requires (forall t :: t in argv ==> IsWord(b, t)) && ArrowWords(b, arrows)
    requires |argv| + |ArgWords(items)| < MAXARGS
    ensures RestRead(b, s[i], argv, arrows, items, s[j])
    decreases |items|
  {
    hide Laid, TokenAt, IsName, IsWord, Sign, Redirs, Redirections, Part, AfterRedirs, Sound, Spelled, ArrowWords,
         ItemTokens, ArgWords, RestRead, Spelling;
    if items == [] {
      NoItems();
      PartEmpty(b, s, ts, i, j);
      RestNone(b, s[j], argv, arrows);
    } else if items[0].To? {
      ArrowPart(b, s, ts, i, j, items);
      var a := OneArrow(b, items[0].dir, items[0].file, s[i], s[i + 1], s[i + 2]);
      RedirectionsFirst(items);
      OneSpelled(b, arrows, a);
      RestReads(b, s, ts, i + 2, j, items[1..], argv, arrows + [a]);
      RestArrow(b, s[i], argv, arrows, items, s[j], a, s[i + 2]);
    } else {
      var w := items[0].word;
      ArgFirst(items);
      PartFirst(b, s, ts, i, j, w, ItemTokens(items[1..]));
      OneWord(b, w, s[i], s[i + 1], argv, arrows);
      MoreWords(b, argv, Tok(s[i], s[i] + |w|));
      RestReads(b, s, ts, i + 1, j, items[1..], argv + [Tok(s[i], s[i] + |w|)], arrows);
      RestWord(b, s[i], argv, arrows, items, s[j], Tok(s[i], s[i] + |w|), s[i + 1]);
    }
  }

  lemma NoItems()
    ensures ItemTokens([]) == [] && ArgWords([]) == []
  {
  }

  lemma NothingMore(ws: seq<string>, rs: seq<Redirection>)
    ensures ws + ArgWords([]) == ws && rs + Redirections([]) == rs
  {
  }

  lemma OneSpelled(b: Text, arrows: seq<Arrow>, a: Arrow)
    requires ArrowWords(b, arrows) && IsWord(b, a.file) && Sound(a)
    ensures ArrowWords(b, arrows + [a])
    ensures Spelled(b, arrows + [a]) == Spelled(b, arrows) + [Redirection(Word(b, a.file), a.mode, a.fd)]
  {
    hide IsWord, Sound;
  }

  lemma PlainStart(b: Text, s: seq<nat>, ts: seq<string>, i: nat, j: nat, items: seq<Item>)
    requires Part(b, s, ts, i, j, ItemTokens(items)) && ItemsProper(items) && Stops(At(b, s[j]), 0)
    ensures s[i] <= |b| && !Space(At(b, s[i])) && At(b, s[i]) != '('
  {
    hide Laid, TokenAt, IsName, IsWord, Part, Sign, Lex;
    if items == [] {
      PartEmpty(b, s, ts, i, j);
    } else if items[0].To? {
      ArrowPart(b, s, ts, i, j, items);
      SignAt(b, items[0].dir, s[i], s[i + 1]);
      LexSign(b, items[0].dir, s[i], s[i + 1]);
    } else {
      ArgFirst(items);
      PartFirst(b, s, ts, i, j, items[0].word, ItemTokens(items[1..]));
      LexName(b, items[0].word, s[i], s[i + 1]);
    }
  }

  lemma SimpleIsRest(b: Text, p: nat)
    requires p <= |b| && !Space(At(b, p)) && At(b, p) != '('
    ensures Simple(b, p) == AfterRedirs(b, p, [], [])
  {
    SkipTo(b, p, p);
    match Redirs(b, p)
    case Missing =>
    case Found(arrows, _) => assert [] + arrows == arrows;
  }

  lemma PlainReads(b: Text, s: seq<nat>, ts: seq<string>, i: nat, j: nat, items: seq<Item>)
    requires Part(b, s, ts, i, j, Tokens(Plain(items))) && Proper(Plain(items), 0) && Stops(At(b, s[j]), 0)
    ensures s[i] <= |b| && Reads(b, Simple(b, s[i]), TreeOf(Plain(items)), s[j])
  {
    hide Part, ItemsProper, Stops, ItemTokens, ArgWords, Redirections, Directed, AfterRedirs, Simple, Reads, Redirs;
    Ending(b, s, ts, i, j, ItemTokens(items));
    PlainStart(b, s, ts, i, j, items);
    SimpleIsRest(b, s[i]);
    RestReads(b, s, ts, i, j, items, [], []);
    NothingBefore(ArgWords(items), Redirections(items));
    assert RestRead(b, s[i], [], [], items, s[j]);
  }

  lemma NothingBefore(ws: seq<string>, rs: seq<Redirection>)
    ensures [] + ws == ws && [] + rs == rs
  {
  }

  /** A line in parentheses, from `p`: the line is at `q` and its end at `m`; the redirections, at `n`, end at `e`. */
  lemma GroupReads(b: Text, p: nat, q: nat, m: nat, n: nat, e: nat, t: Tree, rs: seq<Redirection>)
    requires TokenAt(b, "(", p, q) && q <= |b| && Reads(b, Line(b, q), t, m) && TokenAt(b, ")", m, n) && n <= |b|
    requires Redirs(b, n).Found? && Redirs(b, n).pos == e && Spelled(b, Redirs(b, n).arrows) == rs
    ensures p <= |b| && Reads(b, Simple(b, p), Directed(t, rs), e)
  {
    hide TokenAt, Lex, Skip, Line, Redirs, Words, Meaning, Directed, Wrap;
    LexMark(b, '(', p, q);
    LexMark(b, ')', m, n);
    var c := Line(b, q).cmd;
    WrapMeaning(b, c, Redirs(b, n).arrows);
    assert Group(b, p) == Ok(c, n);
    assert Block(b, p) == Ok(Wrap(c, Redirs(b, n).arrows), e);
  }

  /** A form inside another one: where its tokens are. */
  lemma ParensParts(b: Text, s: seq<nat>, ts: seq<string>, i: nat, j: nat, us: seq<string>, vs: seq<string>)
    requires Part(b, s, ts, i, j, ["("] + us + [")"] + vs)
    ensures var m := i + 1 + |us|;
      && m + 1 <= j <= |ts| && |s| == |ts| + 1 && Part(b, s, ts, i + 1, m, us) && Part(b, s, ts, m + 1, j, vs)
      && TokenAt(b, "(", s[i], s[i + 1]) && TokenAt(b, ")", s[m], s[m + 1])
      && s[i + 1] <= |b| && s[m + 1] <= |b| && At(b, s[m]) == ')'
  {
    hide Part, Laid, TokenAt, At;
    var m := i + 1 + |us|;
    Around(["("] + us, ")", vs);
    PartSplit(b, s, ts, i, j, ["("] + us, [")"] + vs);
    PartFirst(b, s, ts, i, m, "(", us);
    PartFirst(b, s, ts, m, j, ")", vs);
    FirstChar(b, ")", s[m], s[m + 1]);
    Ending(b, s, ts, i + 1, m, us);
    Ending(b, s, ts, m + 1, j, vs);
  }

  lemma PairParts(b: Text, s: seq<nat>, ts: seq<string>, i: nat, j: nat, us: seq<string>, c: char, t: string,
                  vs: seq<string>)
    requires t == [c] && Part(b, s, ts, i, j, us + [t] + vs) && Mark(c)
    ensures var m := i + |us|;
      && m + 1 <= j <= |ts| && |s| == |ts| + 1 && Part(b, s, ts, i, m, us) && Part(b, s, ts, m + 1, j, vs)
      && s[m] <= |b| && At(b, s[m]) == c && Skip(b, s[m]) == s[m] && Lex(b, s[m]).next == s[m + 1] <= |b|
  {
    hide Part, Laid, Lex, Skip, TokenAt, At;
    Around(us, t, vs);
    PartSplit(b, s, ts, i, j, us, [t] + vs);
    PartFirst(b, s, ts, i + |us|, j, t, vs);
    LexMark(b, c, s[i + |us|], s[i + |us| + 1]);
    Ending(b, s, ts, i + |us| + 1, j, vs);
  }

  /** What parses a form of level 0, 1 or 3. */
  ghost function Parsed(b: Text, p: nat, level: nat): Result
    requires p <= |b|
  {
    if level == 0 then Simple(b, p) else if level == 1 then PipeLine(b, p) else Line(b, p)
  }

  lemma PipeEnds(b: Text, p: nat, t: Tree, e: nat)
    requires p <= |b| && Reads(b, Simple(b, p), t, e) && !Space(At(b, e)) && At(b, e) != '|'
    ensures Reads(b, PipeLine(b, p), t, e)
  {
    SkipTo(b, e, e);
  }

  lemma PipeGoesOn(b: Text, p: nat, m: nat, q: nat, t: Tree, u: Tree, e: nat)
    requires p <= |b| && Reads(b, Simple(b, p), t, m) && At(b, m) == '|' && Skip(b, m) == m && Lex(b, m).next == q
    requires Reads(b, PipeLine(b, q), u, e)
    ensures Reads(b, PipeLine(b, p), Piped(t, u), e)
  {
    hide Skip, Lex, Simple;
  }

  /** A pipeline with the "&" behind it is `c`, at `m`. */
  ghost predicate Backed(b: Text, p: nat, m: nat, c: Cmd, t: Tree) {
    && p <= |b| && m <= |b| && PipeLine(b, p).Ok? && Words(b, c) && Meaning(b, c) == t
    && Backs(b, PipeLine(b, p).pos, PipeLine(b, p).cmd) == Backs(b, m, c)
  }

  lemma BackedOnce(b: Text, p: nat, m: nat, q: nat, c: Cmd, t: Tree)
    requires Backed(b, p, m, c, t) && At(b, m) == '&' && Skip(b, m) == m && Lex(b, m).next == q
    ensures Backed(b, p, q, Back(c), Async(t))
  {
    hide Skip, Lex, PipeLine;
  }

  lemma BackedLine(b: Text, p: nat, m: nat, c: Cmd, t: Tree)
    requires Backed(b, p, m, c, t) && Stops(At(b, m), 3) && !Space(At(b, m))
    ensures Reads(b, Line(b, p), t, m)
  {
    hide PipeLine;
    SkipTo(b, m, m);
  }

  lemma BackedList(b: Text, p: nat, m: nat, q: nat, c: Cmd, t: Tree, u: Tree, e: nat)
    requires Backed(b, p, m, c, t) && At(b, m) == ';' && Skip(b, m) == m && Lex(b, m).next == q
    requires Reads(b, Line(b, q), u, e)
    ensures Reads(b, Line(b, p), Then(t, u), e)
  {
    hide PipeLine, Lex;
  }

  /** Outside parentheses and lists a form has a lower level. */
  lemma Lower(f: Form, level: nat)
    requires Proper(f, level)
    ensures level == 0 ==> f.Plain? || f.Parens?
    ensures level == 1 ==> f.Bar? || Proper(f, 0)
    ensures level == 2 ==> f.Amp? || Proper(f, 1)
    ensures level == 3 ==> f.Semi? || Proper(f, 2)
  {
  }

  lemma {:induction false} ParensRead(b: Text, s: seq<nat>, ts: seq<string>, i: nat, j: nat, f: Form)
    requires f.Parens? && Part(b, s, ts, i, j, Tokens(f)) && Proper(f, 0) && Stops(At(b, s[j]), 0)
    ensures s[i] <= |b| && Reads(b, Simple(b, s[i]), TreeOf(f), s[j])
    decreases f, 0
  {
    hide Part, Laid, TokenAt, ItemsProper, ItemTokens, Redirections, Directed, Simple, Line, Reads, Redirs, IsName;
    var m := i + 1 + |Tokens(f.line)|;
    Ending(b, s, ts, i, j, Tokens(f));
    ParensParts(b, s, ts, i, j, Tokens(f.line), ItemTokens(f.arrows));
    FormReads(b, s, ts, i + 1, m, f.line, 3);
    Ending(b, s, ts, m + 1, j, ItemTokens(f.arrows));
    RedirsRead(b, s, ts, m + 1, j, f.arrows);
    GroupReads(b, s[i], s[i + 1], s[m], s[m + 1], s[j], TreeOf(f.line), Redirections(f.arrows));
  }

  lemma Ending(b: Text, s: seq<nat>, ts: seq<string>, i: nat, j: nat, us: seq<string>)
    requires Part(b, s, ts, i, j, us)
    ensures i <= j <= |ts| && |s| == |ts| + 1 && s[i] <= |b| && s[j] <= |b|
    ensures !Space(At(b, s[i])) && !Space(At(b, s[j]))
  {
    Place(b, s, ts, i);
    Place(b, s, ts, j);
  }

  lemma {:induction false} BackReads(b: Text, s: seq<nat>, ts: seq<string>, i: nat, j: nat, f: Form)
    returns (c: Cmd)
    requires Part(b, s, ts, i, j, Tokens(f)) && Proper(f, 2) && Stops(At(b, s[j]), 1)
    ensures Backed(b, s[i], s[j], c, TreeOf(f))
    decreases f, 4
  {
    hide Part, Laid, Simple, PipeLine, Line, Backed, Skip, Lex, Meaning, Words;
    Lower(f, 2);
    Ending(b, s, ts, i, j, Tokens(f));
    if f.Amp? {
      var m := i + |Tokens(f.sub)|;
      WithoutTail(Tokens(f.sub), "&");
      PairParts(b, s, ts, i, j, Tokens(f.sub), '&', "&", []);
      PartEmpty(b, s, ts, m + 1, j);
      var d := BackReads(b, s, ts, i, m, f.sub);
      BackedOnce(b, s[i], s[m], s[j], d, TreeOf(f.sub));
      c := Back(d);
    } else {
      FormReads(b, s, ts, i, j, f, 1);
      c := PipeLine(b, s[i]).cmd;
      PipeBacked(b, s[i], s[j], TreeOf(f));
    }
  }

  lemma PipeBacked(b: Text, p: nat, m: nat, t: Tree)
    requires p <= |b| && Reads(b, PipeLine(b, p), t, m)
    ensures Backed(b, p, m, PipeLine(b, p).cmd, t)
  {
  }

  lemma WithoutTail(us: seq<string>, t: string)
    ensures us + [t] == us + [t] + []
  {
  }

  /** A form that is written somewhere in a text, followed by what may follow it, is parsed to what it means. */
  lemma {:induction false} FormReads(b: Text, s: seq<nat>, ts: seq<string>, i: nat, j: nat, f: Form, level: nat)
    requires Part(b, s, ts, i, j, Tokens(f)) && level in {0, 1, 3} && Proper(f, level) && Stops(At(b, s[j]), level)
    ensures s[i] <= |b| && Reads(b, Parsed(b, s[i], level), TreeOf(f), s[j])
    decreases f, 2 * level + 1
  {
    hide Part, Laid, Simple, PipeLine, Line, Backed, Skip, Lex, Reads, ItemTokens, Redirections, Directed;
    Lower(f, level);
    Ending(b, s, ts, i, j, Tokens(f));
    if level == 0 {
      if f.Plain? {
        PlainReads(b, s, ts, i, j, f.items);
      } else {
        ParensRead(b, s, ts, i, j, f);
      }
    } else if level == 1 {
      if f.Bar? {
        var m := i + |Tokens(f.first)|;
        PairParts(b, s, ts, i, j, Tokens(f.first), '|', "|", Tokens(f.rest));
        FormReads(b, s, ts, i, m, f.first, 0);
        FormReads(b, s, ts, m + 1, j, f.rest, 1);
        PipeGoesOn(b, s[i], s[m], s[m + 1], TreeOf(f.first), TreeOf(f.rest), s[j]);
      } else {
        FormReads(b, s, ts, i, j, f, 0);
        PipeEnds(b, s[i], TreeOf(f), s[j]);
      }
    } else {
      if f.Semi? {
        var m := i + |Tokens(f.first)|;
        PairParts(b, s, ts, i, j, Tokens(f.first), ';', ";", Tokens(f.rest));
        var c := BackReads(b, s, ts, i, m, f.first);
        FormReads(b, s, ts, m + 1, j, f.rest, 3);
        BackedList(b, s[i], s[m], s[m + 1], c, TreeOf(f.first), TreeOf(f.rest), s[j]);
      } else {
        var c := BackReads(b, s, ts, i, j, f);
        BackedLine(b, s[i], s[j], c, TreeOf(f));
      }
    }
  }

  lemma LineSkips(b: Text, p: nat)
    requires p <= |b| && Skip(b, 0) == p && !Space(At(b, p))
    ensures Line(b, 0) == Line(b, p)
  {
    SkipTo(b, p, p);
    assert Simple(b, 0) == Simple(b, p);
    hide Simple, Skip;
    assert PipeLine(b, 0) == PipeLine(b, p);
    hide PipeLine;
  }

  /** A text that writes a form parses to what the form means. */
  lemma ParseWritten(b: Text, f: Form)
    requires Proper(f, 3) && Written(b, Tokens(f))
    ensures Reads(b, Parse(b), TreeOf(f), |b|)
  {
    hide Laid, Line, Tokens, Proper, TreeOf, Reads, Meaning;
    var ts := Tokens(f);
    var s :| Writes(b, s, ts);
    assert Part(b, s, ts, 0, |ts|, ts);
    Ending(b, s, ts, 0, |ts|, ts);
    FormReads(b, s, ts, 0, |ts|, f, 3);
    SkipTo(b, 0, s[0]);
    LineSkips(b, s[0]);
    WholeLine(b, TreeOf(f));
  }

  lemma WholeLine(b: Text, t: Tree)
    requires Reads(b, Line(b, 0), t, |b|)
    ensures Reads(b, Parse(b), t, |b|)
  {
    SkipTo(b, |b|, |b|);
  }

  // ------------------------------------------------- what parses is a written form

  /** From `p` to `e` the text is these tokens. */
  ghost predicate Span(b: Text, p: nat, ts: seq<string>, e: nat) {
    exists s :: Laid(b, s, ts) && s[0] == p && s[|ts|] == e
  }

  lemma SpanEnds(b: Text, p: nat, ts: seq<string>, e: nat)
    requires Span(b, p, ts, e)
    ensures p <= |b| && e <= |b| && !Space(At(b, p)) && !Space(At(b, e))
  {
    var s :| Laid(b, s, ts) && s[0] == p && s[|ts|] == e;
    Place(b, s, ts, 0);
    Place(b, s, ts, |ts|);
  }

  lemma SpanNone(b: Text, p: nat)
    requires p <= |b| && !Space(At(b, p))
    ensures Span(b, p, [], p)
  {
    assert Laid(b, [p], []);
  }

  lemma SpanOne(b: Text, t: string, p: nat, e: nat)
    requires TokenAt(b, t, p, e) && !Space(At(b, p))
    ensures Span(b, p, [t], e)
  {
    hide TokenAt;
    TokenBounds(b, t, p, e);
    assert Laid(b, [p, e], [t]);
  }

  lemma TokenBounds(b: Text, t: string, p: nat, e: nat)
    requires TokenAt(b, t, p, e)
    ensures p <= e <= |b|
  {
  }

  lemma SpanJoin(b: Text, p: nat, ts: seq<string>, m: nat, us: seq<string>, e: nat)
    requires Span(b, p, ts, m) && Span(b, m, us, e)
    ensures Span(b, p, ts + us, e)
  {
    hide TokenAt;
    var s :| Laid(b, s, ts) && s[0] == p && s[|ts|] == m;
    var u :| Laid(b, u, us) && u[0] == m && u[|us|] == e;
    var v := s + u[1..];
    forall k | 0 <= k < |ts + us| ensures TokenAt(b, (ts + us)[k], v[k], v[k + 1]) {
      if k < |ts| {
        assert TokenAt(b, ts[k], s[k], s[k + 1]);
      } else {
        assert TokenAt(b, us[k - |ts|], u[k - |ts|], u[k - |ts| + 1]);
      }
    }
    assert Laid(b, v, ts + us);
  }

  lemma WordToken(b: Text, p: nat) returns (w: string)
    requires p <= |b| && !Space(At(b, p)) && Lex(b, p).kind == 'a'
    ensures IsName(w) && Lex(b, p).tok == Tok(p, p + |w|) && Span(b, p, [w], Lex(b, p).next)
  {
    SkipTo(b, p, p);
    w := b[p..WordEnd(b, p)];
    assert TokenAt(b, w, p, Lex(b, p).next);
    SpanOne(b, w, p, Lex(b, p).next);
  }

  lemma MarkToken(b: Text, p: nat, c: char, t: string)
    requires p <= |b| && At(b, p) == c && Mark(c) && t == [c]
    ensures Span(b, p, [t], Lex(b, p).next)
  {
    SkipTo(b, p, p);
    assert b[p..p + 1] == t;
    assert !WordChar(t[0]);
    SpanOne(b, t, p, Lex(b, p).next);
  }

  lemma SignToken(b: Text, p: nat) returns (d: Direction)
    requires p <= |b| && (At(b, p) == '<' || At(b, p) == '>')
    ensures Span(b, p, [Sign(d)], Lex(b, p).next)
  {
    SkipTo(b, p, p);
    d := if b[p] == '<' then Input else if At(b, p + 1) == '>' then Append else Output;
    assert b[p..p + |Sign(d)|] == Sign(d);
    assert !WordChar(Sign(d)[0]);
    SpanOne(b, Sign(d), p, Lex(b, p).next);
  }

  lemma ItemsFirst(a: seq<Item>, c: seq<Item>)
    requires a != []
    ensures (a + c)[0] == a[0] && (a + c)[1..] == a[1..] + c
  {
  }

  lemma {:induction false} ItemsJoin(a: seq<Item>, c: seq<Item>)
    ensures ItemTokens(a + c) == ItemTokens(a) + ItemTokens(c)
    decreases |a|
  {
    if a == [] {
      assert a + c == c;
    } else {
      ItemsFirst(a, c);
      ItemsJoin(a[1..], c);
    }
  }

  lemma {:induction false} ArgsJoin(a: seq<Item>, c: seq<Item>)
    ensures ArgWords(a + c) == ArgWords(a) + ArgWords(c)
    decreases |a|
  {
    if a == [] {
      assert a + c == c;
    } else {
      ItemsFirst(a, c);
      ArgsJoin(a[1..], c);
      Assoc(if a[0].Arg? then [a[0].word] else [], ArgWords(a[1..]), ArgWords(c));
    }
  }

  lemma Assoc<T>(x: seq<T>, y: seq<T>, z: seq<T>)
    ensures x + y + z == x + (y + z)
  {
  }

  lemma {:induction false} ArrowsHaveNoWords(a: seq<Item>)
    requires OnlyArrows(a)
    ensures ArgWords(a) == []
    decreases |a|
  {
    if a != [] {
      ArrowsHaveNoWords(a[1..]);
    }
  }

  lemma OneItem(x: Item)
    ensures ItemTokens([x]) == if x.Arg? then [x.word] else [Sign(x.dir), x.file]
    ensures ArgWords([x]) == if x.Arg? then [x.word] else []
  {
    assert [x][1..] == [];
  }

  /** An item and the items after it. */
  lemma SpanItem(b: Text, p: nat, x: Item, m: nat, items: seq<Item>, e: nat)
    requires Span(b, p, if x.Arg? then [x.word] else [Sign(x.dir), x.file], m) && Span(b, m, ItemTokens(items), e)
    ensures Span(b, p, ItemTokens([x] + items), e)
  {
    hide Span, ItemTokens;
    OneItem(x);
    ItemsJoin([x], items);
    SpanJoin(b, p, ItemTokens([x]), m, ItemTokens(items), e);
  }

  lemma {:induction false} RedirsWritten(b: Text, p: nat) returns (items: seq<Item>)
    requires p <= |b| && !Space(At(b, p)) && Redirs(b, p).Found?
    ensures OnlyArrows(items) && ItemsProper(items) && Span(b, p, ItemTokens(items), Redirs(b, p).pos)
    decreases |b| - p
  {
    hide Span, Lex, IsName, Sign;
    SkipTo(b, p, p);
    items := [];
    if At(b, p) != '<' && At(b, p) != '>' {
      NoItems();
      SpanNone(b, p);
    } else {
      var d := SignToken(b, p);
      var q := Lex(b, p).next;
      SpanEnds(b, p, [Sign(d)], q);
      var w := WordToken(b, q);
      var e := Lex(b, q).next;
      SpanEnds(b, q, [w], e);
      items := RedirsWritten(b, e);
      SpanJoin(b, p, [Sign(d)], q, [w], e);
      assert [Sign(d)] + [w] == [Sign(d), w];
      SpanItem(b, p, To(d, w), e, items, Redirs(b, p).pos);
      items := [To(d, w)] + items;
    }
  }

  lemma {:induction false} ArgsWritten(b: Text, p: nat, argv: seq<Tok>, arrows: seq<Arrow>) returns (items: seq<Item>)
    requires p <= |b| && |argv| < MAXARGS && (forall t :: t in argv ==> IsWord(b, t)) && ArrowWords(b, arrows)
    requires !Space(At(b, p)) && Args(b, p, argv, arrows).Ok?
    ensures ItemsProper(items) && |argv| + |ArgWords(items)| < MAXARGS
    ensures Span(b, p, ItemTokens(items), Args(b, p, argv, arrows).pos)
    decreases |b| - p
  {
    hide Span, IsName, Sign, IsWord, ArrowWords, ItemTokens, ArgWords, Wrap, Words;
    SkipTo(b, p, p);
    NoItems();
    SpanNone(b, p);
    items := [];
    var l := Lex(b, p);
    if At(b, p) != ')' && !Ends(At(b, p)) && l.kind != '\0' {
      var w := WordToken(b, p);
      SpanEnds(b, p, [w], l.next);
      var first := RedirsWritten(b, l.next);
      var m := Redirs(b, l.next).pos;
      SpanEnds(b, l.next, ItemTokens(first), m);
      MoreArrowWords(b, arrows, Redirs(b, l.next).arrows);
      MoreWords(b, argv, l.tok);
      var rest := ArgsWritten(b, m, argv + [l.tok], arrows + Redirs(b, l.next).arrows);
      items := WordAndItems(b, p, w, l.next, first, m, rest, Args(b, p, argv, arrows).pos);
    }
  }

  lemma WordAndItems(b: Text, p: nat, w: string, q: nat, first: seq<Item>, m: nat, rest: seq<Item>, e: nat)
    returns (items: seq<Item>)
    requires IsName(w) && Span(b, p, [w], q) && Span(b, q, ItemTokens(first), m) && Span(b, m, ItemTokens(rest), e)
    requires OnlyArrows(first) && ItemsProper(first) && ItemsProper(rest)
    ensures ItemsProper(items) && Span(b, p, ItemTokens(items), e) && |ArgWords(items)| == 1 + |ArgWords(rest)|
  {
    hide Span, IsName, ItemTokens, ArgWords;
    SpanJoin(b, q, ItemTokens(first), m, ItemTokens(rest), e);
    ItemsJoin(first, rest);
    ArgsJoin(first, rest);
    ArrowsHaveNoWords(first);
    SpanItem(b, p, Arg(w), q, first + rest, e);
    ArgsJoin([Arg(w)], first + rest);
    OneItem(Arg(w));
    items := [Arg(w)] + (first + rest);
  }

  lemma PlainWritten(b: Text, p: nat) returns (f: Form)
    requires p <= |b| && !Space(At(b, p)) && At(b, p) != '(' && Simple(b, p).Ok?
    ensures Proper(f, 0) && Span(b, p, Tokens(f), Simple(b, p).pos)
  {
    hide Span, IsName, ItemTokens, Args, Words, IsWord;
    SkipTo(b, p, p);
    var first := RedirsWritten(b, p);
    var m := Redirs(b, p).pos;
    SpanEnds(b, p, ItemTokens(first), m);
    var rest := ArgsWritten(b, m, [], Redirs(b, p).arrows);
    SpanJoin(b, p, ItemTokens(first), m, ItemTokens(rest), Simple(b, p).pos);
    ItemsJoin(first, rest);
    ArgsJoin(first, rest);
    ArrowsHaveNoWords(first);
    f := Plain(first + rest);
  }

  lemma SimpleIsGroup(b: Text, p: nat)
    requires p <= |b| && At(b, p) == '(' && Simple(b, p).Ok?
    ensures Skip(b, p) == p && Line(b, Lex(b, p).next).Ok?
    ensures var m := Skip(b, Line(b, Lex(b, p).next).pos);
      && At(b, m) == ')' && Redirs(b, Lex(b, m).next).Found?
      && Simple(b, p).pos == Redirs(b, Lex(b, m).next).pos
  {
    SkipTo(b, p, p);
    hide Lex, Skip, Line, Redirs, Words;
    assert Group(b, p).Ok?;
  }

  lemma ParensWritten(b: Text, p: nat, q: nat, l: Form, m: nat, n: nat) returns (f: Form)
    requires p <= |b| && At(b, p) == '(' && Lex(b, p).next == q && Span(b, q, Tokens(l), m) && Proper(l, 3)
    requires m <= |b| && At(b, m) == ')' && Lex(b, m).next == n && Redirs(b, n).Found?
    ensures Proper(f, 0) && Span(b, p, Tokens(f), Redirs(b, n).pos)
  {
    hide Span, Lex, Redirs, ItemTokens, ItemsProper, OnlyArrows;
    MarkToken(b, p, '(', "(");
    MarkToken(b, m, ')', ")");
    SpanEnds(b, m, [")"], n);
    var arrows := RedirsWritten(b, n);
    SpanJoin(b, p, ["("], q, Tokens(l), m);
    SpanJoin(b, p, ["("] + Tokens(l), m, [")"], n);
    SpanJoin(b, p, ["("] + Tokens(l) + [")"], n, ItemTokens(arrows), Redirs(b, n).pos);
    f := Parens(l, arrows);
  }

  lemma SkipStays(b: Text, p: nat, ts: seq<string>, e: nat)
    requires Span(b, p, ts, e)
    ensures e <= |b| && Skip(b, e) == e && !Space(At(b, e))
  {
    SpanEnds(b, p, ts, e);
    SkipTo(b, e, e);
  }

  lemma {:induction false} SimpleWritten(b: Text, p: nat) returns (f: Form)
    requires p <= |b| && !Space(At(b, p)) && Simple(b, p).Ok?
    ensures Proper(f, 0) && Span(b, p, Tokens(f), Simple(b, p).pos)
    decreases |b| - p, 0
  {
    hide Span, Simple, Line, Redirs, Proper, Tokens;
    if At(b, p) == '(' {
      SimpleIsGroup(b, p);
      MarkToken(b, p, '(', "(");
      var q := Lex(b, p).next;
      SpanEnds(b, p, ["("], q);
      var l := LineWritten(b, q);
      var m := Line(b, q).pos;
      SkipStays(b, q, Tokens(l), m);
      f := ParensWritten(b, p, q, l, m, Lex(b, m).next);
    } else {
      f := PlainWritten(b, p);
    }
  }

  lemma {:induction false} PipeWritten(b: Text, p: nat) returns (f: Form)
    requires p <= |b| && !Space(At(b, p)) && PipeLine(b, p).Ok?
    ensures Proper(f, 1) && Span(b, p, Tokens(f), PipeLine(b, p).pos)
    decreases |b| - p, 1
  {
    hide Span, Simple;
    f := SimpleWritten(b, p);
    Higher(f, 0);
    var m := Simple(b, p).pos;
    SkipStays(b, p, Tokens(f), m);
    if At(b, m) == '|' {
      MarkToken(b, m, '|', "|");
      var q := Lex(b, m).next;
      SpanEnds(b, m, ["|"], q);
      var g := PipeWritten(b, q);
      SpanJoin(b, p, Tokens(f), m, ["|"], q);
      SpanJoin(b, p, Tokens(f) + ["|"], q, Tokens(g), PipeLine(b, p).pos);
      f := Bar(f, g);
    }
  }

  lemma Higher(f: Form, level: nat)
    requires Proper(f, level)
    ensures Proper(f, level + 1)
  {
  }

  lemma {:induction false} BacksWritten(b: Text, p: nat, m: nat, c: Cmd, f: Form) returns (g: Form)
    requires m <= |b| && Words(b, c) && Proper(f, 2) && Span(b, p, Tokens(f), m)
    ensures Proper(g, 2) && Span(b, p, Tokens(g), Backs(b, m, c).1)
    decreases |b| - m
  {
    hide Span, Words;
    g := f;
    SkipStays(b, p, Tokens(f), m);
    if At(b, m) == '&' {
      MarkToken(b, m, '&', "&");
      SpanJoin(b, p, Tokens(f), m, ["&"], Lex(b, m).next);
      BackWords(b, c);
      g := BacksWritten(b, p, Lex(b, m).next, Back(c), Amp(f));
    }
  }

  lemma BackWords(b: Text, c: Cmd)
    requires Words(b, c)
    ensures Words(b, Back(c))
  {
  }

  lemma {:induction false} LineWritten(b: Text, p: nat) returns (f: Form)
    requires p <= |b| && !Space(At(b, p)) && Line(b, p).Ok?
    ensures Proper(f, 3) && Span(b, p, Tokens(f), Line(b, p).pos)
    decreases |b| - p, 2
  {
    hide Span, PipeLine, Words, Backs, Skip;
    var g := PipeWritten(b, p);
    Higher(g, 1);
    var r := PipeLine(b, p);
    f := BacksWritten(b, p, r.pos, r.cmd, g);
    Higher(f, 2);
    var m := Backs(b, r.pos, r.cmd).1;
    SkipStays(b, p, Tokens(f), m);
    if At(b, m) == ';' {
      MarkToken(b, m, ';', ";");
      var q := Lex(b, m).next;
      SpanEnds(b, m, [";"], q);
      g := LineWritten(b, q);
      SpanJoin(b, p, Tokens(f), m, [";"], q);
      SpanJoin(b, p, Tokens(f) + [";"], q, Tokens(g), Line(b, p).pos);
      f := Semi(f, g);
    }
  }

  /** Every text that parses writes a form. */
  lemma ParseIsWritten(b: Text) returns (f: Form)
    requires Parse(b).Ok?
    ensures Proper(f, 3) && Written(b, Tokens(f))
  {
    hide TokenAt, Line, Proper, Tokens;
    var p := Skip(b, 0);
    LineSkips(b, p);
    f := LineWritten(b, p);
    SkipStays(b, p, Tokens(f), Line(b, p).pos);
    var s :| Laid(b, s, Tokens(f)) && s[0] == p && s[|Tokens(f)|] == |b|;
    assert Writes(b, s, Tokens(f));
  }

  /** The parser accepts exactly the texts that write a form with any blanks between its tokens, and gives what the form
      means, whichever form it is that the text writes. */
  lemma ParseExact(b: Text)
    ensures Parse(b).Ok? <==> exists f :: Proper(f, 3) && Written(b, Tokens(f))
    ensures forall f :: Proper(f, 3) && Written(b, Tokens(f)) ==> Reads(b, Parse(b), TreeOf(f), |b|)
  {
    hide Proper, Written, Tokens, Parse, TreeOf, Meaning;
    forall f | Proper(f, 3) && Written(b, Tokens(f)) ensures Reads(b, Parse(b), TreeOf(f), |b|) {
      ParseWritten(b, f);
    }
    if Parse(b).Ok? {
      var f := ParseIsWritten(b);
    }
  }

  // ------------------------------------------------------------ writing it out

  function ArgItems(ws: seq<string>): (items: seq<Item>)
    ensures |items| == |ws| && forall i :: 0 <= i < |ws| ==> items[i] == Arg(ws[i])
  {
    if ws == [] then [] else [Arg(ws[0])] + ArgItems(ws[1..])
  }

  lemma {:induction false} ArgItemsAre(ws: seq<string>, last: seq<Item>)
    ensures ItemTokens(ArgItems(ws) + last) == ws + ItemTokens(last)
    ensures ArgWords(ArgItems(ws) + last) == ws + ArgWords(last)
    ensures Redirections(ArgItems(ws) + last) == Redirections(last)
    decreases |ws|
  {
    hide ItemTokens, ArgWords, Redirections, ArgItems;
    if ws == [] {
      assert ArgItems(ws) + last == last;
    } else {
      ArgItemsAre(ws[1..], last);
      ItemsFirst(ArgItems(ws), last);
      assert ArgItems(ws)[1..] == ArgItems(ws[1..]);
      ArgFirst(ArgItems(ws) + last);
      Assoc([ws[0]], ws[1..], ItemTokens(last));
      Assoc([ws[0]], ws[1..], ArgWords(last));
      assert [ws[0]] + ws[1..] == ws;
    }
  }

  lemma OneRedirection(d: Direction, w: string)
    ensures Redirections([To(d, w)]) == [Redirection(w, if d.Input? then 0 else 0x201, if d.Input? then 0 else 1)]
  {
    RedirectionsFirst([To(d, w)]);
    NoRedirections();
    assert [To(d, w)][1..] == [];
  }

  lemma AppendForm(args: seq<string>, w: string) returns (f: Form)
    requires Names(args) && |args| < 10 && IsName(w)
    ensures Proper(f, 3) && Tokens(f) == args + [">>", w] && TreeOf(f) == File(Run(args), w, 0x201, 1)
  {
    hide ItemTokens, ArgWords, Redirections, ArgItems, IsName, Directed;
    var x := To(Append, w);
    f := Plain(ArgItems(args) + [x]);
    ArgItemsAre(args, [x]);
    OneItem(x);
    OneRedirection(Append, w);
    OneDirected(Run(args), Redirection(w, 0x201, 1));
    assert args + [] == args;
    assert ArgWords(f.items) == args;
    assert ItemsProper(f.items);
    assert Tokens(f) == args + [">>", w];
  }

  /** Words, ">>" and a word, with any blanks between them: a simple command whose descriptor 1 is that file, opened for
      writing and created. */
  lemma AppendRedirects(b: Text, args: seq<string>, w: string)
    requires Names(args) && |args| < 10 && IsName(w) && Written(b, args + [">>", w])
    ensures Parse(b).Ok? && Parse(b).pos == |b|
    ensures var c := Parse(b).cmd;
      && c.Redir? && c.mode == 0x201 && c.fd == 1 && IsWord(b, c.file) && b[c.file.q..c.file.eq] == w
      && c.cmd.Exec? && Words(b, c.cmd) && Spelling(b, c.cmd.argv) == args
  {
    hide Parse, IsWord, IsName, Written, Proper, Tokens, TreeOf;
    hide Meaning, Words;
    var f := AppendForm(args, w);
    ParseWritten(b, f);
    RedirectedIs(b, Parse(b).cmd, args, w);
  }

  lemma RedirectedIs(b: Text, c: Cmd, args: seq<string>, w: string)
    requires Words(b, c) && Meaning(b, c) == File(Run(args), w, 0x201, 1)
    ensures c.Redir? && c.mode == 0x201 && c.fd == 1 && IsWord(b, c.file) && b[c.file.q..c.file.eq] == w
    ensures c.cmd.Exec? && Words(b, c.cmd) && Spelling(b, c.cmd.argv) == args
  {
  }

  lemma OneDirected(t: Tree, r: Redirection)
    ensures Directed(t, [r]) == File(t, r.file, r.mode, r.fd)
  {
    assert [r][1..] == [];
    assert Directed(File(t, r.file, r.mode, r.fd), []) == File(t, r.file, r.mode, r.fd);
  }

  /** Each token with a blank behind it. */
  function Spread(ts: seq<string>): string {
    if ts == [] then "" else ts[0] + " " + Spread(ts[1..])
  }

  /** What a token looks like. */
  predicate TokenText(t: string) {
    t != "" && !Space(t[0]) && forall x :: 0 <= x < |t| ==> t[x] != '\0'
  }

  predicate TokenTexts(ts: seq<string>) {
    forall k :: 0 <= k < |ts| ==> TokenText(ts[k])
  }

  lemma {:induction false} ItemTexts(items: seq<Item>)
    requires ItemsProper(items)
    ensures TokenTexts(ItemTokens(items))
    decreases |items|
  {
    if items != [] {
      ItemTexts(items[1..]);
      assert IsName(if items[0].Arg? then items[0].word else items[0].file);
    }
  }

  lemma {:induction false} FormTexts(f: Form, level: nat)
    requires Proper(f, level)
    ensures TokenTexts(Tokens(f))
  {
    hide TokenText, ItemsProper, ItemTokens, ArgWords;
    Marks();
    match f
    case Plain(items) => ItemTexts(items);
    case Parens(l, arrows) => FormTexts(l, 3); ItemTexts(arrows);
    case Bar(x, y) => FormTexts(x, 0); FormTexts(y, 1);
    case Amp(x) => FormTexts(x, 2);
    case Semi(x, y) => FormTexts(x, 2); FormTexts(y, 3);
  }

  lemma Marks()
    ensures TokenText("(") && TokenText(")") && TokenText("|") && TokenText("&") && TokenText(";")
  {
  }

  lemma {:induction false} SpreadText(ts: seq<string>)
    requires TokenTexts(ts)
    ensures NoNul(Spread(ts)) && (ts != [] ==> Spread(ts) != "" && !Space(Spread(ts)[0]))
    decreases |ts|
  {
    if ts != [] {
      SpreadText(ts[1..]);
      assert TokenText(ts[0]);
    }
  }

  /** The tokens of a spread text are where they should be. */
  lemma {:induction false} SpreadSpans(b: Text, p: nat, ts: seq<string>)
    requires TokenTexts(ts) && p <= |b| && b[p..] == Spread(ts)
    ensures !Space(At(b, p)) && Span(b, p, ts, |b|)
    decreases |ts|
  {
    SpreadText(ts);
    if ts == [] {
      SpanNone(b, p);
    } else {
      var t, rest := ts[0], Spread(ts[1..]);
      var e := p + |t| + 1;
      SpreadFirst(b, p, t, rest);
      SpreadSpans(b, e, ts[1..]);
      assert b[p] == Spread(ts)[0];
      SpanOne(b, t, p, e);
      SpanJoin(b, p, [t], e, ts[1..], |b|);
      assert [t] + ts[1..] == ts;
    }
  }

  lemma SpreadFirst(b: Text, p: nat, t: string, rest: string)
    requires p <= |b| && b[p..] == t + " " + rest
    ensures var e := p + |t| + 1;
      && e <= |b| && b[e..] == rest && (!Space(At(b, e)) ==> TokenAt(b, t, p, e))
  {
    var e := p + |t| + 1;
    assert b[p..p + |t|] == b[p..][..|t|] == t;
    assert b[e..] == b[p..][|t| + 1..];
    assert b[e - 1] == b[p..][|t|];
  }

  /** Writing a form out, with blanks between the tokens, and parsing it gives what the form means. */
  lemma ParseSpread(f: Form)
    requires Proper(f, 3)
    ensures NoNul(Spread(Tokens(f)))
    ensures var b: Text := Spread(Tokens(f)); Reads(b, Parse(b), TreeOf(f), |b|)
  {
    hide Proper, Tokens, TokenAt, Spread, TreeOf, Meaning, Parse, TokenTexts;
    FormTexts(f, 3);
    SpreadText(Tokens(f));
    SpreadWrites(Spread(Tokens(f)), Tokens(f));
    ParseWritten(Spread(Tokens(f)), f);
  }

  lemma SpreadWrites(b: Text, ts: seq<string>)
    requires TokenTexts(ts) && b == Spread(ts)
    ensures Written(b, ts)
  {
    hide TokenAt, Spread, TokenTexts;
    assert b[0..] == b;
    SpreadSpans(b, 0, ts);
    var s :| Laid(b, s, ts) && s[0] == 0 && s[|ts|] == |b|;
    assert Writes(b, s, ts);
  }

  /** One way of writing a command: everything but simple commands in parentheses. */
  function Canonical(t: Tree): Form {
    match t
    case Run(args) => Plain(ArgItems(args))
    case File(s, f, mode, fd) => Parens(Canonical(s), [To(if fd == 0 then Input else Output, f)])
    case Piped(l, r) => Bar(Parens(Canonical(l), []), Parens(Canonical(r), []))
    case Then(l, r) => Semi(Parens(Canonical(l), []), Parens(Canonical(r), []))
    case Async(s) => Amp(Parens(Canonical(s), []))
  }

  lemma {:induction false} CanonicalTree(t: Tree)
    requires Writable(t)
    ensures Proper(Canonical(t), 3) && TreeOf(Canonical(t)) == t
  {
    NoRedirections();
    match t
    case Run(args) =>
      ArgItemsAre(args, []);
      NoItems();
      assert ArgItems(args) + [] == ArgItems(args) && args + [] == args;
    case File(s, f, mode, fd) =>
      CanonicalTree(s);
      var x := To(if fd == 0 then Input else Output, f);
      OneRedirection(x.dir, f);
      OneDirected(s, Redirection(f, mode, fd));
    case Piped(l, r) =>
      CanonicalTree(l);
      CanonicalTree(r);
    case Then(l, r) =>
      CanonicalTree(l);
      CanonicalTree(r);
    case Async(s) =>
      CanonicalTree(s);
  }

  function Render(t: Tree): string {
    Spread(Tokens(Canonical(t)))
  }

  /** Parsing the written form of a command gives that command back. */
  lemma ParseRendered(t: Tree)
    requires Writable(t)
    ensures NoNul(Render(t)) && Reads(Render(t), Parse(Render(t)), t, |Render(t)|)
  {
    CanonicalTree(t);
    ParseSpread(Canonical(t));
  }

  /** Whatever text parses, the written form of what it means parses to the same. */
  lemma ParseStable(b: Text)
    requires Parse(b).Ok?
    ensures var t := Meaning(b, Parse(b).cmd);
      NoNul(Render(t)) && Reads(Render(t), Parse(Render(t)), t, |Render(t)|)
  {
    ParseRendered(Meaning(b, Parse(b).cmd));
  }
}
