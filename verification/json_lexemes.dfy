/** What the scanner cuts out of any text, well-formed or not: quoted strings are skipped, and every
    other character stands for itself. */
module JsonLexemes {
  import opened Options
  import opened JsonScanner

  /** A character outside strings, or a whole string with its quotes. */
  datatype Lexeme = Outside(c: char) | Quoted(chars: seq<StringChar>)

  predicate LexemeOk(l: Lexeme) {
    match l
    case Outside(c) => c != '"'
    case Quoted(chars) => StringOk(chars)
  }

  predicate AllOk(ls: seq<Lexeme>) { forall l :: l in ls ==> LexemeOk(l) }

  function PrintLexeme(l: Lexeme): string {
    match l
    case Outside(c) => [c]
    case Quoted(chars) => PrintString(chars)
  }

  function PrintAll(ls: seq<Lexeme>): string {
    if ls == [] then "" else PrintAll(ls[..|ls| - 1]) + PrintLexeme(ls[|ls| - 1])
  }

  /** Opening minus closing brackets of one kind, outside strings. */
  function Depth(ls: seq<Lexeme>, open: char, close: char): int {
    if ls == [] then 0
    else
      var l := ls[|ls| - 1];
      Depth(ls[..|ls| - 1], open, close)
      + (if l == Outside(open) then 1 else if l == Outside(close) then -1 else 0)
  }

  /** The lexemes begin with a bracket, and its partner is the last of them. */
  ghost predicate Enclosed(ls: seq<Lexeme>, open: char, close: char) {
    && AllOk(ls) && ls != [] && ls[0] == Outside(open)
    && ((open == '{' && close == '}') || (open == '[' && close == ']'))
    && Depth(ls, open, close) == 0
    && forall k :: 0 < k < |ls| ==> Depth(ls[..k], open, close) > 0
  }

  // ----- the automaton on lexemes -----

  lemma {:induction false} OneLexeme(l: Lexeme, open: char, close: char, depth: int)
    requires Brackets(open, close) && LexemeOk(l)
    ensures var st := Scan(depth, false, false);
            var change := if l == Outside(open) then 1 else if l == Outside(close) then -1 else 0;
            && After(st, PrintLexeme(l), open, close) == Scan(depth + change, false, false)
            && (Quiet(st, PrintLexeme(l), open, close) <==> !(l == Outside(close) && depth == 1))
  {
    if l.Quoted? {
      StringBalanced(l.chars, open, close, depth);
    } else {
      assert [l.c][1..] == "";
    }
  }

  /** Text whose depth stays positive does not close. */
  lemma {:induction false} StaysOpen(ls: seq<Lexeme>, open: char, close: char)
    requires Brackets(open, close) && AllOk(ls)
    requires ls != [] ==> ls[0] == Outside(open)
    requires forall k :: 0 < k <= |ls| ==> Depth(ls[..k], open, close) > 0
    ensures var st := Scan(0, false, false);
            && Quiet(st, PrintAll(ls), open, close)
            && After(st, PrintAll(ls), open, close) == Scan(Depth(ls, open, close), false, false)
  {
    if ls == [] {
    } else {
      var n := |ls| - 1;
      var front := ls[..n];
      assert ls[..|ls|] == ls;
      assert forall k :: 0 < k <= n ==> front[..k] == ls[..k];
      StaysOpen(front, open, close);
      OneLexeme(ls[n], open, close, Depth(front, open, close));
      Concat(Scan(0, false, false), PrintAll(front), PrintLexeme(ls[n]), open, close);
      if ls[n] == Outside(close) {
        assert n > 0 && Depth(ls, open, close) > 0;
      }
    }
  }

  lemma {:induction false} SingleDepth(ls: seq<Lexeme>, open: char, close: char)
    ensures |ls| == 1 ==>
              Depth(ls, open, close) == if ls[0] == Outside(open) then 1 else if ls[0] == Outside(close) then -1 else 0
  {
    if |ls| == 1 {
      assert ls[..0] == [];
    }
  }

  lemma {:induction false} EnclosedEnds(ls: seq<Lexeme>, open: char, close: char)
    requires Enclosed(ls, open, close)
    ensures |ls| > 1 && ls[|ls| - 1] == Outside(close) && Depth(ls[..|ls| - 1], open, close) == 1
    ensures PrintAll(ls) == PrintAll(ls[..|ls| - 1]) + [close]
    ensures PrintAll(ls) != "" && PrintAll(ls)[0] == open
  {
    SingleDepth(ls, open, close);
    var n := |ls| - 1;
    assert Depth(ls[..n], open, close) > 0;
    FirstPrinted(ls);
  }

  lemma {:induction false} FirstPrinted(ls: seq<Lexeme>)
    requires ls != [] && ls[0].Outside?
    ensures PrintAll(ls) != "" && PrintAll(ls)[0] == ls[0].c
  {
    if |ls| == 1 {
      assert ls[..0] == [];
    } else {
      FirstPrinted(ls[..|ls| - 1]);
    }
  }

  lemma {:induction false} EnclosedCloses(ls: seq<Lexeme>, open: char, close: char)
    requires Enclosed(ls, open, close)
    ensures var c := PrintAll(ls);
            && Bracketed(c) && close == CloserOf(c[0])
            && Quiet(Scan(0, false, false), c[..|c| - 1], c[0], close)
            && Closes(After(Scan(0, false, false), c[..|c| - 1], c[0], close), c[|c| - 1], c[0], close)
  {
    var n := |ls| - 1;
    var front := ls[..n];
    EnclosedEnds(ls, open, close);
    assert forall k :: 0 < k <= n ==> front[..k] == ls[..k];
    StaysOpen(front, open, close);
    assert PrintAll(ls)[..|PrintAll(ls)| - 1] == PrintAll(front);
  }

  /** Behind any text without opening brackets, fenced or not, and before any text at all, the lexemes
      from a bracket to its partner are what is cut out, whatever else stands between them. */
  lemma {:induction false} EnclosedIsCandidate(pre: string, ls: seq<Lexeme>, post: string, open: char, close: char)
    requires Enclosed(ls, open, close) && NoOpener(pre)
    ensures IsCandidate(Cleaned(pre + (PrintAll(ls) + post)), Some(PrintAll(ls)))
    ensures IsCandidate(pre + (PrintAll(ls) + post), Some(PrintAll(ls)))
  {
    var raw, text := pre + (PrintAll(ls) + post), PrintAll(ls);
    EnclosedCloses(ls, open, close);
    assert StandsBetween(raw, pre, text, post);
    StripLeftKeeps(raw, text);
    StripRightKeeps(StripLeft(raw), text);
    UnfenceKeeps(StripRight(StripLeft(raw)), text);
  }

  // ----- and nothing else is -----

  /** The text so far: lexemes, and the beginning of a string if one is open, perhaps with a backslash
      that waits for its character. */
  datatype Lexed =
    | Between(ls: seq<Lexeme>)
    | Inside(ls: seq<Lexeme>, chars: seq<StringChar>)
    | Escaping(ls: seq<Lexeme>, chars: seq<StringChar>)

  predicate LexedOk(x: Lexed) { AllOk(x.ls) && (!x.Between? ==> StringOk(x.chars)) }

  function Opened(ls: seq<Lexeme>, chars: seq<StringChar>): string { PrintAll(ls) + ("\"" + PrintChars(chars)) }

  function PrintLexed(x: Lexed): string {
    match x
    case Between(ls) => PrintAll(ls)
    case Inside(ls, chars) => Opened(ls, chars)
    case Escaping(ls, chars) => Opened(ls, chars) + "\\"
  }

  function ScanOf(x: Lexed, open: char, close: char): Scan {
    Scan(Depth(x.ls, open, close), !x.Between?, x.Escaping?)
  }

  function Pushed(x: Lexed, ch: char): Lexed {
    match x
    case Between(ls) => if ch == '"' then Inside(ls, []) else Between(ls + [Outside(ch)])
    case Inside(ls, chars) =>
      if ch == '\\' then Escaping(ls, chars)
      else if ch == '"' then Between(ls + [Quoted(chars)])
      else Inside(ls, chars + [Plain(ch)])
    case Escaping(ls, chars) => Inside(ls, chars + [Escape(ch)])
  }

  function PrintChar(c: StringChar): string {
    match c case Plain(x) => [x] case Escape(x) => ['\\', x]
  }

  lemma {:induction false} PrintCharsNext(s: seq<StringChar>, c: StringChar)
    ensures PrintChars(s + [c]) == PrintChars(s) + PrintChar(c)
  {
    if s == [] {
      assert [] + [c] == [c];
      assert [c][1..] == [];
      assert PrintChar(c) + "" == PrintChar(c);
    } else {
      PrintCharsNext(s[1..], c);
      assert (s + [c])[1..] == s[1..] + [c];
      Regroup(PrintChar(s[0]), PrintChars(s[1..]), PrintChar(c));
    }
  }

  lemma {:induction false} Regroup(a: string, b: string, c: string)
    ensures a + (b + c) == (a + b) + c
  {
  }

  lemma {:induction false} OpenedNext(ls: seq<Lexeme>, chars: seq<StringChar>, c: StringChar)
    ensures Opened(ls, chars + [c]) == Opened(ls, chars) + PrintChar(c)
  {
    PrintCharsNext(chars, c);
    Regroup("\"", PrintChars(chars), PrintChar(c));
    Regroup(PrintAll(ls), "\"" + PrintChars(chars), PrintChar(c));
  }

  lemma {:induction false} PrintAllNext(ls: seq<Lexeme>, l: Lexeme, open: char, close: char)
    ensures PrintAll(ls + [l]) == PrintAll(ls) + PrintLexeme(l)
    ensures Depth(ls + [l], open, close) ==
            Depth(ls, open, close) + (if l == Outside(open) then 1 else if l == Outside(close) then -1 else 0)
  {
    assert (ls + [l])[..|ls|] == ls;
  }

  lemma {:induction false} StringClosed(ls: seq<Lexeme>, chars: seq<StringChar>)
    ensures PrintAll(ls + [Quoted(chars)]) == Opened(ls, chars) + "\""
  {
    PrintAllNext(ls, Quoted(chars), '{', '}');
    Regroup(PrintAll(ls), "\"" + PrintChars(chars), "\"");
  }

  lemma {:induction false} PushedPrints(x: Lexed, ch: char)
    requires LexedOk(x)
    ensures LexedOk(Pushed(x, ch)) && PrintLexed(Pushed(x, ch)) == PrintLexed(x) + [ch]
  {
    match x
    case Between(ls) => PrintAllNext(ls, Outside(ch), '{', '}');
    case Inside(ls, chars) =>
      StringClosed(ls, chars);
      OpenedNext(ls, chars, Plain(ch));
    case Escaping(ls, chars) =>
      OpenedNext(ls, chars, Escape(ch));
      assert PrintChar(Escape(ch)) == "\\" + [ch];
      Regroup(Opened(ls, chars), "\\", [ch]);
  }

  lemma {:induction false} PushedScans(x: Lexed, ch: char, open: char, close: char)
    requires Brackets(open, close)
    ensures ScanOf(Pushed(x, ch), open, close) == Next(ScanOf(x, open, close), ch, open, close)
  {
    match x
    case Between(ls) => PrintAllNext(ls, Outside(ch), open, close);
    case Inside(ls, chars) => PrintAllNext(ls, Quoted(chars), open, close);
    case Escaping(ls, chars) =>
  }

  function LexedOf(t: string): Lexed {
    if t == "" then Between([]) else Pushed(LexedOf(t[..|t| - 1]), t[|t| - 1])
  }

  lemma {:induction false} AfterNext(t: string, open: char, close: char)
    requires t != ""
    ensures var n, st := |t| - 1, Scan(0, false, false);
            && After(st, t, open, close) == Next(After(st, t[..n], open, close), t[n], open, close)
            && (Quiet(st, t, open, close) <==>
                Quiet(st, t[..n], open, close) && !Closes(After(st, t[..n], open, close), t[n], open, close))
  {
    var n := |t| - 1;
    assert t == t[..n] + [t[n]] && [t[n]][1..] == "";
    Concat(Scan(0, false, false), t[..n], [t[n]], open, close);
  }

  /** Every text can be lexed. */
  lemma {:induction false} LexedPrints(t: string)
    ensures LexedOk(LexedOf(t)) && PrintLexed(LexedOf(t)) == t
  {
    if t == "" {
    } else {
      LexedPrints(t[..|t| - 1]);
      PushedPrints(LexedOf(t[..|t| - 1]), t[|t| - 1]);
    }
  }

  /** And the automaton knows how far the text is. */
  lemma {:induction false} LexedScans(t: string, open: char, close: char)
    requires Brackets(open, close)
    ensures ScanOf(LexedOf(t), open, close) == After(Scan(0, false, false), t, open, close)
  {
    if t == "" {
    } else {
      LexedScans(t[..|t| - 1], open, close);
      PushedScans(LexedOf(t[..|t| - 1]), t[|t| - 1], open, close);
      AfterNext(t, open, close);
    }
  }

  ghost predicate Deep(ls: seq<Lexeme>, open: char, close: char) {
    ls != [] && ls[0] == Outside(open) && forall k :: 0 < k <= |ls| ==> Depth(ls[..k], open, close) > 0
  }

  lemma {:induction false} DeepNext(ls: seq<Lexeme>, l: Lexeme, open: char, close: char)
    requires Deep(ls, open, close) && Depth(ls + [l], open, close) > 0
    ensures Deep(ls + [l], open, close)
  {
    var more := ls + [l];
    forall k | 0 < k <= |more| ensures Depth(more[..k], open, close) > 0 {
      if k <= |ls| {
        assert more[..k] == ls[..k];
      } else {
        assert more[..k] == more;
      }
    }
  }

  lemma {:induction false} PushedDeep(x: Lexed, ch: char, open: char, close: char)
    requires Brackets(open, close) && Deep(x.ls, open, close) && !Closes(ScanOf(x, open, close), ch, open, close)
    ensures Deep(Pushed(x, ch).ls, open, close)
  {
    assert x.ls[..|x.ls|] == x.ls;
    match x
    case Between(ls) =>
      PrintAllNext(ls, Outside(ch), open, close);
      if ch != '"' {
        DeepNext(ls, Outside(ch), open, close);
      }
    case Inside(ls, chars) =>
      PrintAllNext(ls, Quoted(chars), open, close);
      DeepNext(ls, Quoted(chars), open, close);
    case Escaping(ls, chars) =>
  }

  lemma {:induction false} FirstDeep(open: char, close: char)
    requires Brackets(open, close)
    ensures Deep([Outside(open)], open, close)
  {
    var ls := [Outside(open)];
    SingleDepth(ls, open, close);
    forall k | 0 < k <= 1 ensures Depth(ls[..k], open, close) > 0 {
      assert ls[..k] == ls;
    }
  }

  /** As long as nothing closes, the depth stays positive. */
  lemma {:induction false} QuietStaysDeep(t: string, open: char, close: char)
    requires Brackets(open, close) && t != "" && t[0] == open && Quiet(Scan(0, false, false), t, open, close)
    ensures Deep(LexedOf(t).ls, open, close)
  {
    var n := |t| - 1;
    if n == 0 {
      assert t[..0] == "" && [] + [Outside(open)] == [Outside(open)];
      FirstDeep(open, close);
    } else {
      AfterNext(t, open, close);
      QuietStaysDeep(t[..n], open, close);
      LexedScans(t[..n], open, close);
      PushedDeep(LexedOf(t[..n]), t[n], open, close);
    }
  }

  lemma {:induction false} DeepThenClosed(ls: seq<Lexeme>, open: char, close: char)
    requires Brackets(open, close) && AllOk(ls) && Deep(ls, open, close) && Depth(ls, open, close) == 1
    ensures Enclosed(ls + [Outside(close)], open, close) && PrintAll(ls + [Outside(close)]) == PrintAll(ls) + [close]
  {
    var more := ls + [Outside(close)];
    PrintAllNext(ls, Outside(close), open, close);
    assert forall k :: 0 < k < |more| ==> more[..k] == ls[..k];
  }

  lemma {:induction false} ClosesBetween(x: Lexed, ch: char, open: char, close: char)
    requires Closes(ScanOf(x, open, close), ch, open, close)
    ensures x.Between? && Depth(x.ls, open, close) == 1 && ch == close
  {
  }

  lemma {:induction false} ClosedIsEnclosed(t: string, ch: char, open: char, close: char) returns (ls: seq<Lexeme>)
    requires Brackets(open, close) && t != "" && t[0] == open && Quiet(Scan(0, false, false), t, open, close)
    requires Closes(After(Scan(0, false, false), t, open, close), ch, open, close)
    ensures t + [ch] == PrintAll(ls) && Enclosed(ls, open, close)
  {
    var x := LexedOf(t);
    assert x.Between? && Depth(x.ls, open, close) == 1 && ch == close by {
      LexedScans(t, open, close);
      ClosesBetween(x, ch, open, close);
    }
    assert AllOk(x.ls) && PrintAll(x.ls) == t by {
      LexedPrints(t);
    }
    QuietStaysDeep(t, open, close);
    DeepThenClosed(x.ls, open, close);
    ls := x.ls + [Outside(close)];
  }

  lemma {:induction false} CandidateIsEnclosed(s: string, c: string) returns (ls: seq<Lexeme>)
    requires IsCandidate(s, Some(c))
    ensures c == PrintAll(ls) && Enclosed(ls, c[0], CloserOf(c[0]))
  {
    var n := |c| - 1;
    assert n > 0 by {
      assert c[..0] == "";
    }
    ls := ClosedIsEnclosed(c[..n], c[n], c[0], CloserOf(c[0]));
    assert c[..n] + [c[n]] == c;
  }

  /** What the scanner finds in a cleaned text: a piece is found iff it is the lexemes from the first
      opening bracket to its partner. */
  lemma {:induction false} CandidateMeans(s: string, found: Option<string>, c: string)
    requires IsCandidate(s, found)
    ensures found == Some(c) <==>
            exists pre, ls, post, open, close ::
              Enclosed(ls, open, close) && NoOpener(pre) && s == pre + (PrintAll(ls) + post) && c == PrintAll(ls)
  {
    if found == Some(c) {
      var ls := CandidateIsEnclosed(s, c);
      var pre, post :| StandsBetween(s, pre, c, post);
      assert s == pre + (PrintAll(ls) + post);
    }
    if pre, ls, post, open, close :|
      Enclosed(ls, open, close) && NoOpener(pre) && s == pre + (PrintAll(ls) + post) && c == PrintAll(ls)
    {
      EnclosedIsCandidate(pre, ls, post, open, close);
      CandidateUnique(s, Some(c), found);
    }
  }
}
