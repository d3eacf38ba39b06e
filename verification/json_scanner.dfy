/** Finding the JSON value in an LLM answer: a depth / in-string / escape automaton. */
module JsonScanner {
  import opened Options

  // ----- JSON text (RFC 8259, sections 2, 4, 5 and 7) -----

  /** An element of a string literal: a plain character, or a backslash with the character after it
      (of a \u escape the four hex digits follow as plain characters). */
  datatype StringChar = Plain(c: char) | Escape(c: char)

  /** A JSON value as written down, white space included. */
  datatype Json =
    | Literal(text: string)                       // number, true, false or null
    | Str(chars: seq<StringChar>)
    | Arr(items: Items)
    | Obj(members: Members)
    | Spaced(before: string, value: Json, after: string)
  datatype Items = NoItems(ws: string) | LastItem(item: Json) | MoreItems(item: Json, rest: Items)
  datatype Members =
    | NoMembers(ws: string)
    | LastMember(key: Key, value: Json)
    | MoreMembers(key: Key, value: Json, rest: Members)
  datatype Key = Key(before: string, chars: seq<StringChar>, after: string)

  predicate Neutral(c: char) { c !in "{}[]\"\\" }

  /** White space, digits, letters: nothing the scanner reacts to. */
  predicate AllNeutral(s: string) { forall c :: c in s ==> Neutral(c) }

  /** A quote or a backslash can stand in a string only behind a backslash. */
  predicate StringOk(s: seq<StringChar>) {
    forall e :: e in s && e.Plain? ==> e.c != '"' && e.c != '\\'
  }

  predicate KeyOk(k: Key) { AllNeutral(k.before) && StringOk(k.chars) && AllNeutral(k.after) }

  predicate Ok(v: Json) {
    match v
    case Literal(t) => AllNeutral(t)
    case Str(s) => StringOk(s)
    case Arr(items) => ItemsOk(items)
    case Obj(members) => MembersOk(members)
    case Spaced(b, w, a) => AllNeutral(b) && Ok(w) && AllNeutral(a)
  }

  predicate ItemsOk(items: Items) {
    match items
    case NoItems(ws) => AllNeutral(ws)
    case LastItem(v) => Ok(v)
    case MoreItems(v, rest) => Ok(v) && ItemsOk(rest)
  }

  predicate MembersOk(members: Members) {
    match members
    case NoMembers(ws) => AllNeutral(ws)
    case LastMember(k, v) => KeyOk(k) && Ok(v)
    case MoreMembers(k, v, rest) => KeyOk(k) && Ok(v) && MembersOk(rest)
  }

  function PrintChars(s: seq<StringChar>): string {
    if s == [] then ""
    else (match s[0] case Plain(c) => [c] case Escape(c) => ['\\', c]) + PrintChars(s[1..])
  }

  function PrintString(s: seq<StringChar>): string { "\"" + PrintChars(s) + "\"" }

  function PrintKey(k: Key): string { k.before + (PrintString(k.chars) + (k.after + ":")) }

  function Print(v: Json): string {
    match v
    case Literal(t) => t
    case Str(s) => PrintString(s)
    case Arr(items) => "[" + (PrintItems(items) + "]")
    case Obj(members) => "{" + (PrintMembers(members) + "}")
    case Spaced(b, w, a) => b + (Print(w) + a)
  }

  function PrintItems(items: Items): string {
    match items
    case NoItems(ws) => ws
    case LastItem(v) => Print(v)
    case MoreItems(v, rest) => Print(v) + ("," + PrintItems(rest))
  }

  function PrintMembers(members: Members): string {
    match members
    case NoMembers(ws) => ws
    case LastMember(k, v) => PrintKey(k) + Print(v)
    case MoreMembers(k, v, rest) => PrintKey(k) + (Print(v) + ("," + PrintMembers(rest)))
  }

  // ----- the automaton -----

  datatype Scan = Scan(depth: int, inString: bool, escapeNext: bool)

  /** One character; only one kind of bracket is counted. */
  function Next(st: Scan, ch: char, open: char, close: char): Scan {
    if st.escapeNext then st.(escapeNext := false)
    else if ch == '\\' && st.inString then st.(escapeNext := true)
    else if ch == '"' then st.(inString := !st.inString)
    else if st.inString then st
    else if ch == open then st.(depth := st.depth + 1)
    else if ch == close then st.(depth := st.depth - 1)
    else st
  }

  /** The character closes the value: a closing bracket outside strings takes the depth to zero. */
  predicate Closes(st: Scan, ch: char, open: char, close: char) {
    !st.escapeNext && !st.inString && ch == close && ch != open && st.depth == 1
  }

  function After(st: Scan, s: string, open: char, close: char): Scan
    decreases s
  {
    if s == "" then st else After(Next(st, s[0], open, close), s[1..], open, close)
  }

  /** No character of s closes the value. */
  predicate Quiet(st: Scan, s: string, open: char, close: char)
    decreases s
  {
    s != "" ==> !Closes(st, s[0], open, close) && Quiet(Next(st, s[0], open, close), s[1..], open, close)
  }

  predicate Brackets(open: char, close: char) {
    (open == '{' && close == '}') || (open == '[' && close == ']')
  }

  lemma {:induction false} Concat(st: Scan, s: string, t: string, open: char, close: char)
    ensures After(st, s + t, open, close) == After(After(st, s, open, close), t, open, close)
    ensures Quiet(st, s + t, open, close) <==>
            Quiet(st, s, open, close) && Quiet(After(st, s, open, close), t, open, close)
    decreases s
  {
    if s == "" {
      assert s + t == t;
    } else {
      assert (s + t)[1..] == s[1..] + t;
      Concat(Next(st, s[0], open, close), s[1..], t, open, close);
    }
  }

  /** Scanned from outside any string at positive depth, the text neither closes the value nor
      leaves a trace in the automaton. */
  predicate Balanced(s: string, open: char, close: char, depth: int) {
    var st := Scan(depth, false, false);
    Quiet(st, s, open, close) && After(st, s, open, close) == st
  }

  lemma BalancedConcat(s: string, t: string, open: char, close: char, depth: int)
    requires Balanced(s, open, close, depth) && Balanced(t, open, close, depth)
    ensures Balanced(s + t, open, close, depth)
  {
    Concat(Scan(depth, false, false), s, t, open, close);
  }

  lemma {:induction false} NeutralBalanced(s: string, open: char, close: char, depth: int)
    requires Brackets(open, close) && AllNeutral(s)
    ensures Balanced(s, open, close, depth)
  {
    if s == "" {
    } else {
      assert Neutral(s[0]);
      NeutralBalanced(s[1..], open, close, depth);
    }
  }

  lemma {:induction false} CharsInside(s: seq<StringChar>, open: char, close: char, depth: int)
    requires Brackets(open, close) && StringOk(s)
    ensures var st := Scan(depth, true, false);
            Quiet(st, PrintChars(s), open, close) && After(st, PrintChars(s), open, close) == st
  {
    if s == [] {
    } else {
      var st := Scan(depth, true, false);
      CharsInside(s[1..], open, close, depth);
      var head := match s[0] case Plain(c) => [c] case Escape(c) => ['\\', c];
      assert s[0] in s;
      if s[0].Escape? {
        assert head == ['\\'] + [s[0].c];
        Concat(st, ['\\'], [s[0].c], open, close);
      }
      Concat(st, head, PrintChars(s[1..]), open, close);
    }
  }

  lemma StringBalanced(s: seq<StringChar>, open: char, close: char, depth: int)
    requires Brackets(open, close) && StringOk(s)
    ensures Balanced(PrintString(s), open, close, depth)
  {
    var st := Scan(depth, false, false);
    CharsInside(s, open, close, depth);
    Concat(Scan(depth, true, false), PrintChars(s), "\"", open, close);
    assert "\""[1..] == "";
    assert PrintString(s) == "\"" + (PrintChars(s) + "\"");
    Concat(st, "\"", PrintChars(s) + "\"", open, close);
  }

  lemma KeyBalanced(k: Key, open: char, close: char, depth: int)
    requires Brackets(open, close) && KeyOk(k)
    ensures Balanced(PrintKey(k), open, close, depth)
  {
    NeutralBalanced(k.before, open, close, depth);
    StringBalanced(k.chars, open, close, depth);
    NeutralBalanced(k.after, open, close, depth);
    NeutralBalanced(":", open, close, depth);
    BalancedConcat(k.after, ":", open, close, depth);
    BalancedConcat(PrintString(k.chars), k.after + ":", open, close, depth);
    BalancedConcat(k.before, PrintString(k.chars) + (k.after + ":"), open, close, depth);
  }

  /** A bracket pair around a balanced text, whether or not the scanner counts this kind. */
  lemma WrapBalanced(l: char, s: string, r: char, open: char, close: char, depth: int)
    requires Brackets(open, close) && Brackets(l, r) && depth >= 1
    requires Balanced(s, open, close, depth) && Balanced(s, open, close, depth + 1)
    ensures Balanced([l] + (s + [r]), open, close, depth)
  {
    var inner := if l == open then depth + 1 else depth;
    var st := Scan(inner, false, false);
    assert [r][1..] == "" && [l][1..] == "";
    Concat(st, s, [r], open, close);
    Concat(Scan(depth, false, false), [l], s + [r], open, close);
  }

  lemma {:induction false} ValueBalanced(v: Json, open: char, close: char, depth: int)
    requires Brackets(open, close) && Ok(v) && depth >= 1
    ensures Balanced(Print(v), open, close, depth)
    decreases v
  {
    match v
    case Literal(t) => NeutralBalanced(t, open, close, depth);
    case Str(s) => StringBalanced(s, open, close, depth);
    case Arr(items) =>
      ItemsBalanced(items, open, close, depth);
      ItemsBalanced(items, open, close, depth + 1);
      WrapBalanced('[', PrintItems(items), ']', open, close, depth);
    case Obj(members) =>
      MembersBalanced(members, open, close, depth);
      MembersBalanced(members, open, close, depth + 1);
      WrapBalanced('{', PrintMembers(members), '}', open, close, depth);
    case Spaced(b, w, a) =>
      NeutralBalanced(b, open, close, depth);
      ValueBalanced(w, open, close, depth);
      NeutralBalanced(a, open, close, depth);
      BalancedConcat(Print(w), a, open, close, depth);
      BalancedConcat(b, Print(w) + a, open, close, depth);
  }

  lemma {:induction false} ItemsBalanced(items: Items, open: char, close: char, depth: int)
    requires Brackets(open, close) && ItemsOk(items) && depth >= 1
    ensures Balanced(PrintItems(items), open, close, depth)
    decreases items
  {
    match items
    case NoItems(ws) => NeutralBalanced(ws, open, close, depth);
    case LastItem(v) => ValueBalanced(v, open, close, depth);
    case MoreItems(v, rest) =>
      ValueBalanced(v, open, close, depth);
      ItemsBalanced(rest, open, close, depth);
      NeutralBalanced(",", open, close, depth);
      BalancedConcat(",", PrintItems(rest), open, close, depth);
      BalancedConcat(Print(v), "," + PrintItems(rest), open, close, depth);
  }

  lemma {:induction false} MembersBalanced(members: Members, open: char, close: char, depth: int)
    requires Brackets(open, close) && MembersOk(members) && depth >= 1
    ensures Balanced(PrintMembers(members), open, close, depth)
    decreases members
  {
    match members
    case NoMembers(ws) => NeutralBalanced(ws, open, close, depth);
    case LastMember(k, v) =>
      KeyBalanced(k, open, close, depth);
      ValueBalanced(v, open, close, depth);
      BalancedConcat(PrintKey(k), Print(v), open, close, depth);
    case MoreMembers(k, v, rest) =>
      KeyBalanced(k, open, close, depth);
      ValueBalanced(v, open, close, depth);
      MembersBalanced(rest, open, close, depth);
      NeutralBalanced(",", open, close, depth);
      BalancedConcat(",", PrintMembers(rest), open, close, depth);
      BalancedConcat(Print(v), "," + PrintMembers(rest), open, close, depth);
      BalancedConcat(PrintKey(k), Print(v) + ("," + PrintMembers(rest)), open, close, depth);
  }

  // ----- cleaning the answer up -----

  /** What str.strip and the regular expression class \s treat as white space. */
  predicate IsSpace(c: char) {
    var n := c as int;
    || 0x09 <= n <= 0x0d || 0x1c <= n <= 0x20 || n == 0x85 || n == 0xa0 || n == 0x1680
    || 0x2000 <= n <= 0x200a || n == 0x2028 || n == 0x2029 || n == 0x202f || n == 0x205f || n == 0x3000
  }

  function StripLeft(s: string): string {
    if s != "" && IsSpace(s[0]) then StripLeft(s[1..]) else s
  }

  function StripRight(s: string): string {
    if s != "" && IsSpace(s[|s| - 1]) then StripRight(s[..|s| - 1]) else s
  }

  const FENCE: string := "```"

  predicate EndsWith(s: string, t: string) { |t| <= |s| && s[|s| - |t|..] == t }

  function SkipTag(s: string): string {
    if "json" <= s || "JSON" <= s then s[4..] else s
  }

  /** The two substitutions that take a code fence off: the opening fence with its language tag and
      the white space after it, and a closing fence at the end with the white space around it. */
  function Unfence(s: string): string {
    if FENCE <= s then
      var t := StripLeft(SkipTag(s[3..]));
      var u := StripRight(t);
      if EndsWith(u, FENCE) then StripRight(u[..|u| - 3]) else t
    else s
  }

  function Cleaned(raw: string): string { Unfence(StripRight(StripLeft(raw))) }

  predicate Opener(c: char) { c == '{' || c == '[' }

  predicate NoOpener(s: string) { forall c :: c in s ==> !Opener(c) }

  /** The value `json` stands in s behind text without an opening bracket. */
  ghost predicate Embeds(s: string, json: string) {
    exists pre, post :: StandsBetween(s, pre, json, post)
  }

  predicate StandsBetween(s: string, pre: string, json: string, post: string) {
    s == pre + (json + post) && NoOpener(pre)
  }

  predicate Bracketed(json: string) {
    json != "" && Opener(json[0]) && (json[|json| - 1] == '}' || json[|json| - 1] == ']')
  }

  lemma DropFirst(s: string, json: string)
    requires Bracketed(json) && Embeds(s, json) && s != "" && !Opener(s[0])
    ensures Embeds(s[1..], json)
  {
    var pre, post :| StandsBetween(s, pre, json, post);
    assert s[|pre|] == json[0];
    assert StandsBetween(s[1..], pre[1..], json, post);
  }

  lemma DropLast(s: string, json: string)
    requires Bracketed(json) && Embeds(s, json) && s != ""
    requires s[|s| - 1] != '}' && s[|s| - 1] != ']'
    ensures Embeds(s[..|s| - 1], json)
  {
    var pre, post :| StandsBetween(s, pre, json, post);
    assert s[|pre| + |json| - 1] == json[|json| - 1];
    assert StandsBetween(s[..|s| - 1], pre, json, post[..|post| - 1]);
  }

  lemma {:induction false} StripLeftKeeps(s: string, json: string)
    requires Bracketed(json) && Embeds(s, json)
    ensures Embeds(StripLeft(s), json)
  {
    if s != "" && IsSpace(s[0]) {
      DropFirst(s, json);
      StripLeftKeeps(s[1..], json);
    }
  }

  lemma {:induction false} StripRightKeeps(s: string, json: string)
    requires Bracketed(json) && Embeds(s, json)
    ensures Embeds(StripRight(s), json)
  {
    if s != "" && IsSpace(s[|s| - 1]) {
      DropLast(s, json);
      StripRightKeeps(s[..|s| - 1], json);
    }
  }

  lemma {:induction false} PrefixKeeps(s: string, n: nat, json: string)
    requires Bracketed(json) && Embeds(s, json) && n <= |s| && NoOpener(s[..n])
    ensures Embeds(s[n..], json)
  {
    if n == 0 {
      assert s[0..] == s;
    } else {
      assert s[0] == s[..n][0];
      DropFirst(s, json);
      assert s[1..][..n - 1] == s[..n][1..];
      PrefixKeeps(s[1..], n - 1, json);
      assert s[1..][n - 1..] == s[n..];
    }
  }

  lemma OpeningFenceKeeps(s: string, json: string)
    requires Bracketed(json) && Embeds(s, json) && FENCE <= s
    ensures Embeds(StripLeft(SkipTag(s[3..])), json)
  {
    assert s[..3] == FENCE;
    PrefixKeeps(s, 3, json);
    var r := s[3..];
    if "json" <= r || "JSON" <= r {
      assert r[..4] == "json" || r[..4] == "JSON";
      PrefixKeeps(r, 4, json);
    }
    StripLeftKeeps(SkipTag(r), json);
  }

  lemma ClosingFenceKeeps(u: string, json: string)
    requires Bracketed(json) && Embeds(u, json) && EndsWith(u, FENCE)
    ensures Embeds(u[..|u| - 3], json)
  {
    var n := |u|;
    var v, w := u[..n - 1], u[..n - 2];
    assert u[n - 3..][0] == u[n - 3..][1] == u[n - 3..][2] == '`';
    DropLast(u, json);
    DropLast(v, json);
    assert v[..n - 2] == w;
    DropLast(w, json);
    assert w[..n - 3] == u[..n - 3];
  }

  lemma UnfenceKeeps(s: string, json: string)
    requires Bracketed(json) && Embeds(s, json)
    ensures Embeds(Unfence(s), json)
  {
    if FENCE <= s {
      OpeningFenceKeeps(s, json);
      var t := StripLeft(SkipTag(s[3..]));
      StripRightKeeps(t, json);
      var u := StripRight(t);
      if EndsWith(u, FENCE) {
        ClosingFenceKeeps(u, json);
        StripRightKeeps(u[..|u| - 3], json);
      }
    }
  }

  // ----- the scanner -----

  function CloserOf(open: char): char { if open == '{' then '}' else ']' }

  /** `found` is the shortest piece of s from its first opening bracket on that brings the depth
      back to zero; None if there is none. */
  ghost predicate IsCandidate(s: string, found: Option<string>) {
    match found
    case Some(c) =>
      && c != "" && Opener(c[0])
      && Embeds(s, c)
      && var close := CloserOf(c[0]);
      && Quiet(Scan(0, false, false), c[..|c| - 1], c[0], close)
      && Closes(After(Scan(0, false, false), c[..|c| - 1], c[0], close), c[|c| - 1], c[0], close)
    case None =>
      NoOpener(s) ||
      exists pre, rest ::
        && s == pre + rest && NoOpener(pre) && rest != "" && Opener(rest[0])
        && Quiet(Scan(0, false, false), rest, rest[0], CloserOf(rest[0]))
  }

  lemma SplitUnique(s: string, pre: string, rest: string, pre': string, rest': string)
    requires s == pre + rest && s == pre' + rest' && NoOpener(pre) && NoOpener(pre')
    requires rest != "" && rest' != "" && Opener(rest[0]) && Opener(rest'[0])
    ensures pre == pre' && rest == rest'
  {
    assert s[|pre|] == rest[0] && s[|pre'|] == rest'[0];
    assert forall i :: 0 <= i < |pre| ==> s[i] == pre[i] && pre[i] in pre;
    assert forall i :: 0 <= i < |pre'| ==> s[i] == pre'[i] && pre'[i] in pre';
    assert pre == s[..|pre|] && pre' == s[..|pre'|];
    assert rest == s[|pre|..] && rest' == s[|pre'|..];
  }

  /** Where a text first closes is unique. */
  lemma ClosedOnce(c: string, post: string, open: char, close: char)
    requires c != "" && Quiet(Scan(0, false, false), c[..|c| - 1], open, close)
    requires Closes(After(Scan(0, false, false), c[..|c| - 1], open, close), c[|c| - 1], open, close)
    ensures !Quiet(Scan(0, false, false), c + post, open, close)
    ensures forall n :: |c| <= n <= |c + post| ==> !Quiet(Scan(0, false, false), (c + post)[..n], open, close)
  {
    var st := Scan(0, false, false);
    var n0 := |c| - 1;
    forall n | |c| <= n <= |c + post| ensures !Quiet(st, (c + post)[..n], open, close) {
      var tail := [c[n0]] + (c + post)[|c|..n];
      assert (c + post)[..n] == c[..n0] + tail;
      Concat(st, c[..n0], tail, open, close);
    }
    assert (c + post)[..|c + post|] == c + post;
  }

  lemma CandidateUnique(s: string, a: Option<string>, b: Option<string>)
    requires IsCandidate(s, a) && IsCandidate(s, b) && a.Some?
    ensures a == b
  {
    var pre, post :| StandsBetween(s, pre, a.value, post);
    var open := a.value[0];
    ClosedOnce(a.value, post, open, CloserOf(open));
    assert !NoOpener(s) by {
      assert s[|pre|] == open && s[|pre|] in s;
    }
    if b.None? {
      var pre', rest :| s == pre' + rest && NoOpener(pre') && rest != "" && Opener(rest[0])
        && Quiet(Scan(0, false, false), rest, rest[0], CloserOf(rest[0]));
      SplitUnique(s, pre, a.value + post, pre', rest);
      assert false;
    } else {
      var pre', post' :| StandsBetween(s, pre', b.value, post');
      SplitUnique(s, pre, a.value + post, pre', b.value + post');
      var whole := a.value + post;
      assert whole == b.value + post';
      assert (a.value + post)[0] == open && (b.value + post')[0] == b.value[0];
      ClosedOnce(b.value, post', open, CloserOf(open));
      assert whole[..|b.value| - 1] == b.value[..|b.value| - 1];
      assert whole[..|a.value| - 1] == a.value[..|a.value| - 1];
      assert |a.value| == |b.value|;
      assert a.value == whole[..|a.value|] && b.value == whole[..|b.value|];
    }
  }

  lemma PrintedCloses(v: Json)
    requires Ok(v) && (v.Arr? || v.Obj?)
    ensures var c := Print(v);
            && Bracketed(c)
            && Quiet(Scan(0, false, false), c[..|c| - 1], c[0], CloserOf(c[0]))
            && Closes(After(Scan(0, false, false), c[..|c| - 1], c[0], CloserOf(c[0])), c[|c| - 1],
                      c[0], CloserOf(c[0]))
  {
    var c := Print(v);
    var open, close := c[0], CloserOf(c[0]);
    var inner := if v.Arr? then PrintItems(v.items) else PrintMembers(v.members);
    if v.Arr? {
      ItemsBalanced(v.items, open, close, 1);
    } else {
      MembersBalanced(v.members, open, close, 1);
    }
    assert c[..|c| - 1] == [open] + inner;
    assert [open][1..] == "";
    Concat(Scan(0, false, false), [open], inner, open, close);
  }

  /** The round trip: whatever brackets, quotes or backslashes its strings contain, an object or
      array printed behind any text without opening brackets and before any text at all, fenced as
      code or not, is exactly what the scanner cuts out. */
  lemma PrintedIsCandidate(pre: string, v: Json, post: string)
    requires Ok(v) && (v.Arr? || v.Obj?) && NoOpener(pre)
    ensures IsCandidate(Cleaned(pre + (Print(v) + post)), Some(Print(v)))
  {
    var raw, json := pre + (Print(v) + post), Print(v);
    PrintedCloses(v);
    assert StandsBetween(raw, pre, json, post);
    StripLeftKeeps(raw, json);
    StripRightKeeps(StripLeft(raw), json);
    UnfenceKeeps(StripRight(StripLeft(raw)), json);
  }

  lemma OneMore(s: string, start: nat, i: nat, open: char, close: char)
    requires start <= i < |s|
    ensures var st := Scan(0, false, false);
            var now := After(st, s[start..i], open, close);
            && After(st, s[start..i + 1], open, close) == Next(now, s[i], open, close)
            && (Quiet(st, s[start..i + 1], open, close) <==>
                Quiet(st, s[start..i], open, close) && !Closes(now, s[i], open, close))
  {
    var st := Scan(0, false, false);
    assert s[start..i + 1] == s[start..i] + [s[i]] && [s[i]][1..] == "";
    Concat(st, s[start..i], [s[i]], open, close);
  }

  lemma Found(s: string, start: nat, i: nat, open: char)
    requires start <= i < |s| && NoOpener(s[..start]) && s[start] == open && Opener(open)
    requires var st := Scan(0, false, false);
             && Quiet(st, s[start..i], open, CloserOf(open))
             && Closes(After(st, s[start..i], open, CloserOf(open)), s[i], open, CloserOf(open))
    ensures IsCandidate(s, Some(s[start..i + 1]))
  {
    var c := s[start..i + 1];
    assert StandsBetween(s, s[..start], c, s[i + 1..]);
    assert c[..|c| - 1] == s[start..i];
  }

  lemma NotFound(s: string, start: nat, open: char)
    requires start < |s| && NoOpener(s[..start]) && s[start] == open && Opener(open)
    requires Quiet(Scan(0, false, false), s[start..|s|], open, CloserOf(open))
    ensures IsCandidate(s, None)
  {
    assert s == s[..start] + s[start..] && s[start..|s|] == s[start..];
  }

  method ScanFrom(s: string, start: nat) returns (found: Option<string>)
    requires start < |s| && NoOpener(s[..start]) && Opener(s[start])
    ensures IsCandidate(s, found)
  {
    var open := s[start];
    var close := CloserOf(open);
    var depth, inString, escapeNext := 0, false, false;
    ghost var st := Scan(0, false, false);
    for i := start to |s|
      invariant Quiet(st, s[start..i], open, close)
      invariant Scan(depth, inString, escapeNext) == After(st, s[start..i], open, close)
    {
      var ch := s[i];
      OneMore(s, start, i, open, close);
      if escapeNext {
        escapeNext := false;
      } else if ch == '\\' && inString {
        escapeNext := true;
      } else if ch == '"' {
        inString := !inString;
      } else if inString {
      } else if ch == open {
        depth := depth + 1;
      } else if ch == close {
        depth := depth - 1;
        if depth == 0 {
          Found(s, start, i, open);
          return Some(s[start..i + 1]);
        }
      }
    }
    NotFound(s, start, open);
    found := None;
  }

  method Find(s: string, c: char) returns (i: int)
    ensures i == -1 ==> c !in s
    ensures i != -1 ==> 0 <= i < |s| && s[i] == c && c !in s[..i]
  {
    i := 0;
    while i < |s|
      invariant 0 <= i <= |s| && c !in s[..i]
    {
      if s[i] == c {
        return;
      }
      i := i + 1;
    }
    i := -1;
  }

  method ScanCleaned(s: string) returns (found: Option<string>)
    ensures IsCandidate(s, found)
  {
    var brace := Find(s, '{');
    var bracket := Find(s, '[');
    if brace == -1 && bracket == -1 {
      return None;
    }
    var start := if brace == -1 then bracket else if bracket == -1 || brace < bracket then brace else bracket;
    assert NoOpener(s[..start]) by {
      assert forall c :: c in s[..start] ==> c in s;
      assert bracket != -1 ==> forall c :: c in s[..start] ==> c in s[..bracket];
      assert brace != -1 ==> forall c :: c in s[..start] ==> c in s[..brace];
    }
    found := ScanFrom(s, start);
  }

  /** The text handed to the JSON parser. */
  method ExtractCandidate(raw: string) returns (found: Option<string>)
    ensures IsCandidate(Cleaned(raw), found)
    ensures forall pre, v, post ::
      raw == pre + (Print(v) + post) && Ok(v) && (v.Arr? || v.Obj?) && NoOpener(pre) ==> found == Some(Print(v))
  {
    found := ScanCleaned(Cleaned(raw));
    forall pre, v, post | raw == pre + (Print(v) + post) && Ok(v) && (v.Arr? || v.Obj?) && NoOpener(pre)
      ensures found == Some(Print(v))
    {
      PrintedIsCandidate(pre, v, post);
      CandidateUnique(Cleaned(raw), Some(Print(v)), found);
    }
  }
}
