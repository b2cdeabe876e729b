/** The regular-expression matcher of grep.c. Strings are the characters before the terminating NUL. */
module Regex {

  // ----------------------------------------------------------- what is meant

  /** One character, or any number of times one character; '.' stands for every character. */
  datatype Item = One(c: char) | Star(c: char)

  /** A pattern without its '^': items, and whether a final '$' ties it to the end of the text. */
  datatype Pattern = Pattern(items: seq<Item>, tied: bool)

  predicate Fits(c: char, x: char) {
    c == '.' || c == x
  }

  predicate AllFit(c: char, w: seq<char>) {
    forall i :: 0 <= i < |w| ==> Fits(c, w[i])
  }

  /** The strings that a sequence of items describes. */
  ghost predicate Language(items: seq<Item>, w: seq<char>)
    decreases |items|
  {
    if items == [] then w == []
    else match items[0]
      case One(c) => w != [] && Fits(c, w[0]) && Language(items[1..], w[1..])
      case Star(c) => exists i :: 0 <= i <= |w| && AllFit(c, w[..i]) && Language(items[1..], w[i..])
  }

  /** Some string described by `p` starts the text, and ends it if `p` is tied. */
  ghost predicate Starts(p: Pattern, text: seq<char>) {
    exists k :: 0 <= k <= |text| && (p.tied ==> k == |text|) && Language(p.items, text[..k])
  }

  /** Some substring described by `p` occurs in the text, tied to its ends as asked. */
  ghost predicate Occurs(p: Pattern, first: bool, text: seq<char>) {
    exists i, j :: 0 <= i <= j <= |text| && (first ==>
      i == 0) && (p.tied ==> j == |text|) && Language(p.items, text[i..j])
  }

  /** How a pattern is written: '*' after a character, '$' only as the last character. */
  function Read(re: seq<char>): Pattern
    decreases |re|
  {
    if re == [] then Pattern([], false)
    else if |re| > 1 && re[1] == '*' then Prepend(Star(re[0]), Read(re[2..]))
    else if re == ['$'] then Pattern([], true)
    else Prepend(One(re[0]), Read(re[1..]))
  }

  function Prepend(x: Item, p: Pattern): Pattern {
    Pattern([x] + p.items, p.tied)
  }

  // ------------------------------------------------------------------- lemmas

  lemma StartsEmpty(p: Pattern, text: seq<char>)
    requires p.items == []
    ensures Starts(p, text) <==> !p.tied || text == []
  {
    assert text[..0] == [] && Language(p.items, text[..0]);
  }

  lemma StartsOne(c: char, p: Pattern, text: seq<char>)
    ensures Starts(Prepend(One(c), p), text) <==> text != [] && Fits(c, text[0]) && Starts(p, text[1..])
  {
    var q := Prepend(One(c), p);
    assert q.items[1..] == p.items;
    if Starts(q, text) {
      var k :| 0 <= k <= |text| && (q.tied ==> k == |text|) && Language(q.items, text[..k]);
      assert text[..k][1..] == text[1..][..k - 1];
      assert Language(p.items, text[1..][..k - 1]);
    }
    if text != [] && Fits(c, text[0]) && Starts(p, text[1..]) {
      var k :| 0 <= k <= |text[1..]| && (p.tied ==> k == |text[1..]|) && Language(p.items, text[1..][..k]);
      assert text[..k + 1][1..] == text[1..][..k];
      assert Language(q.items, text[..k + 1]);
    }
  }

  ghost predicate AfterSome(c: char, p: Pattern, text: seq<char>, i: nat) {
    i <= |text| && AllFit(c, text[..i]) && Starts(p, text[i..])
  }

  /** A starred item is any number of fitting characters, then the rest. */
  lemma StartsStar(c: char, p: Pattern, text: seq<char>)
    ensures Starts(Prepend(Star(c), p), text) <==> exists i: nat :: AfterSome(c, p, text, i)
  {
    var q := Prepend(Star(c), p);
    assert q.items[1..] == p.items;
    if Starts(q, text) {
      var k :| 0 <= k <= |text| && (q.tied ==> k == |text|) && Language(q.items, text[..k]);
      var i: nat :| i <= k && AllFit(c, text[..k][..i]) && Language(p.items, text[..k][i..]);
      assert text[..k][..i] == text[..i] && text[..k][i..] == text[i..][..k - i];
      assert AfterSome(c, p, text, i);
    }
    if i: nat :| AfterSome(c, p, text, i) {
      var k :| 0 <= k <= |text[i..]| && (p.tied ==> k == |text[i..]|) && Language(p.items, text[i..][..k]);
      assert text[..i + k][..i] == text[..i] && text[..i + k][i..] == text[i..][..k];
      assert Language(q.items, text[..i + k]);
    }
  }

  lemma OccursFrom(p: Pattern, text: seq<char>)
    ensures Occurs(p, true, text) <==> Starts(p, text)
    ensures Occurs(p, false, text) <==> exists i :: 0 <= i <= |text| && Starts(p, text[i..])
  {
    forall i, j | 0 <= i <= j <= |text| ensures text[i..j] == text[i..][..j - i] {
    }
    assert text[0..] == text;
    if Starts(p, text) {
      var k :| 0 <= k <= |text| && (p.tied ==> k == |text|) && Language(p.items, text[..k]);
      assert text[0..k] == text[..k];
    }
    if i :| 0 <= i <= |text| && Starts(p, text[i..]) {
      var k :| 0 <= k <= |text[i..]| && (p.tied ==> k == |text[i..]|) && Language(p.items, text[i..][..k]);
      assert text[i..i + k] == text[i..][..k];
    }
  }

  // -------------------------------------------------------------- the matcher

  /** matchhere: soundly and completely, whether the pattern matches at the start of the text. */
  method MatchHere(re: seq<char>, text: seq<char>) returns (r: bool)
    ensures r <==> Starts(Read(re), text)
    decreases |re|, 0
  {
    if re == [] {
      StartsEmpty(Read(re), text);
      return true;
    }
    if |re| > 1 && re[1] == '*' {
      r := MatchStar(re[0], re[2..], text);
      return;
    }
    if re[0] == '$' && |re| == 1 {
      StartsEmpty(Read(re), text);
      return text == [];
    }
    StartsOne(re[0], Read(re[1..]), text);
    assert re != ['$'];
    if text != [] && (re[0] == '.' || re[0] == text[0]) {
      r := MatchHere(re[1..], text[1..]);
      return;
    }
    r := false;
  }

  /** matchstar: it tries after each fitting character, and so finds a match whenever there is one. */
  method MatchStar(c: char, re: seq<char>, text: seq<char>) returns (r: bool)
    ensures r <==> Starts(Prepend(Star(c), Read(re)), text)
    decreases |re|, 1
  {
    StartsStar(c, Read(re), text);
    var t := 0;
    while true
      invariant 0 <= t <= |text| && AllFit(c, text[..t])
      invariant forall i: nat :: i < t ==> !AfterSome(c, Read(re), text, i)
      decreases |text| - t
    {
      r := MatchHere(re, text[t..]);
      if r {
        assert AfterSome(c, Read(re), text, t);
        return;
      }
      if t == |text| || !(text[t] == c || c == '.') {
        forall i: nat ensures !AfterSome(c, Read(re), text, i) {
          if t < i <= |text| {
            assert text[..i][t] == text[t];
          }
        }
        return;
      }
      assert text[..t + 1] == text[..t] + [text[t]];
      t := t + 1;
    }
  }

  /** match: 1 exactly when some substring, tied to the ends as the pattern says, is in the pattern's language. */
  method Match(re: seq<char>, text: seq<char>) returns (r: bool)
    ensures r <==> if re != [] && re[0] == '^' then Occurs(Read(re[1..]), true, text) else Occurs(Read(re), false, text)
  {
    if re != [] && re[0] == '^' {
      OccursFrom(Read(re[1..]), text);
      r := MatchHere(re[1..], text);
      return;
    }
    OccursFrom(Read(re), text);
    var t := 0;
    while true
      invariant 0 <= t <= |text|
      invariant forall i :: 0 <= i < t ==> !Starts(Read(re), text[i..])
      decreases |text| - t
    {
      r := MatchHere(re, text[t..]);
      if r || t == |text| {
        return;
      }
      t := t + 1;
    }
  }
}
