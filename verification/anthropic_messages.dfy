/** Conversion of a chat history to the Anthropic message format. */
module AnthropicMessages {
  import opened Options

  datatype Message = Message(role: string, content: string, toolCallId: Option<string>)

  datatype Block = Block(toolUseId: string, content: string)

  /** Tool results travel in a user message. */
  datatype Converted = Text(role: string, content: string) | ToolResults(blocks: seq<Block>)

  /** One converted message or tool result, seen on its own. */
  datatype Item = Item(role: string, toolUseId: Option<string>, content: string)

  predicate IsSystem(m: Message) { m.role == "system" }

  predicate IsTool(m: Message) { m.role == "tool" }

  // ----- the role mapping -----

  function RoleSent(role: string): string {
    if role == "assistant" then role else "user"
  }

  /** A missing or empty call id becomes "unknown". */
  function BlockOf(m: Message): Block {
    Block(if m.toolCallId == None || m.toolCallId.value == "" then "unknown" else m.toolCallId.value, m.content)
  }

  function ItemOf(m: Message): Item {
    if IsTool(m) then Item("user", Some(BlockOf(m).toolUseId), m.content) else Item(RoleSent(m.role), None, m.content)
  }

  /** What has to arrive: every message but the system ones. */
  function ItemsOf(messages: seq<Message>): seq<Item> {
    if messages == [] then []
    else
      var n := |messages| - 1;
      ItemsOf(messages[..n]) + (if IsSystem(messages[n]) then [] else [ItemOf(messages[n])])
  }

  function SystemParts(messages: seq<Message>): seq<string> {
    if messages == [] then []
    else
      var n := |messages| - 1;
      SystemParts(messages[..n]) + (if IsSystem(messages[n]) then [messages[n].content] else [])
  }

  // ----- undoing the conversion -----

  function ItemsOfBlocks(blocks: seq<Block>): seq<Item> {
    if blocks == [] then []
    else
      var n := |blocks| - 1;
      ItemsOfBlocks(blocks[..n]) + [Item("user", Some(blocks[n].toolUseId), blocks[n].content)]
  }

  function Expand(converted: seq<Converted>): seq<Item> {
    if converted == [] then []
    else
      var n := |converted| - 1;
      Expand(converted[..n]) +
      match converted[n]
      case Text(role, content) => [Item(role, None, content)]
      case ToolResults(blocks) => ItemsOfBlocks(blocks)
  }

  // ----- grouping -----

  /** A converted message begins at every message that is neither a system message nor inside a run
      of tool messages. */
  predicate Begins(messages: seq<Message>, i: nat)
    requires i < |messages|
  {
    !IsSystem(messages[i]) && !(IsTool(messages[i]) && i > 0 && IsTool(messages[i - 1]))
  }

  function Beginnings(messages: seq<Message>, n: nat): (starts: seq<nat>)
    requires n <= |messages|
    ensures forall i :: 0 <= i < n ==> (i in starts <==> Begins(messages, i))
    ensures forall j :: 0 <= j < |starts| ==> starts[j] < n
    ensures forall a, b :: 0 <= a < b < |starts| ==> starts[a] < starts[b]
  {
    if n == 0 then []
    else
      var earlier := Beginnings(messages, n - 1);
      if Begins(messages, n - 1) then earlier + [n - 1] else earlier
  }

  /** The blocks of the tool messages from lo to hi. */
  predicate IsRun(blocks: seq<Block>, messages: seq<Message>, lo: nat, hi: nat) {
    && lo <= hi <= |messages| && |blocks| == hi - lo
    && forall p :: lo <= p < hi ==> IsTool(messages[p]) && blocks[p - lo] == BlockOf(messages[p])
  }

  /** The conversion of the message at i, or of the whole run of tool messages that begins there. */
  predicate Renders(c: Converted, messages: seq<Message>, i: nat)
    requires i < |messages|
  {
    match c
    case Text(role, content) =>
      !IsTool(messages[i]) && role == RoleSent(messages[i].role) && content == messages[i].content
    case ToolResults(blocks) =>
      && 0 < |blocks| && IsRun(blocks, messages, i, i + |blocks|)
      && (i + |blocks| < |messages| ==> !IsTool(messages[i + |blocks|]))
  }

  predicate GroupedUpTo(converted: seq<Converted>, messages: seq<Message>, n: nat)
    requires n <= |messages|
  {
    var starts := Beginnings(messages, n);
    |converted| == |starts| && forall j :: 0 <= j < |starts| ==> Renders(converted[j], messages, starts[j])
  }

  /** One non-empty group for each maximal run of tool messages, one message for each other. */
  predicate Grouped(converted: seq<Converted>, messages: seq<Message>) {
    GroupedUpTo(converted, messages, |messages|)
  }

  lemma {:induction false} RunBeginsOnce(messages: seq<Message>, lo: nat, hi: nat)
    requires lo < hi <= |messages| && Begins(messages, lo) && forall p :: lo <= p < hi ==> IsTool(messages[p])
    ensures Beginnings(messages, hi) == Beginnings(messages, lo) + [lo]
  {
    if lo + 1 == hi {
    } else {
      RunBeginsOnce(messages, lo, hi - 1);
    }
  }

  /** There is only one way to group. */
  lemma GroupedUnique(a: seq<Converted>, b: seq<Converted>, messages: seq<Message>)
    requires Grouped(a, messages) && Grouped(b, messages)
    ensures a == b
  {
    var starts := Beginnings(messages, |messages|);
    forall j | 0 <= j < |starts| ensures a[j] == b[j] {
      RendersUnique(a[j], b[j], messages, starts[j]);
    }
  }

  lemma RendersUnique(a: Converted, b: Converted, messages: seq<Message>, i: nat)
    requires i < |messages| && Renders(a, messages, i) && Renders(b, messages, i)
    ensures a == b
  {
    if a.ToolResults? {
      var m, n := |a.blocks|, |b.blocks|;
      assert m == n;
      assert forall k :: 0 <= k < m ==> a.blocks[k] == BlockOf(messages[i + k]) == b.blocks[k];
    }
  }

  // ----- where each message went -----

  datatype Place = Nowhere | InText(at: nat) | InGroup(at: nat, nth: nat)

  /** The message stands at that place, with the role or the call id it has to have there. */
  ghost predicate Stands(m: Message, converted: seq<Converted>, place: Place) {
    match place
    case Nowhere => m.role == "system"
    case InText(at) =>
      && m.role != "system" && m.role != "tool" && at < |converted|
      && converted[at] == Text(if m.role == "user" || m.role == "assistant" then m.role else "user", m.content)
    case InGroup(at, nth) =>
      && m.role == "tool" && at < |converted| && converted[at].ToolResults? && nth < |converted[at].blocks|
      && converted[at].blocks[nth] ==
         Block(if m.toolCallId.Some? && m.toolCallId.value != "" then m.toolCallId.value else "unknown", m.content)
  }

  ghost predicate AllStand(messages: seq<Message>, converted: seq<Converted>, places: seq<Place>) {
    |places| == |messages| && forall i :: 0 <= i < |messages| ==> Stands(messages[i], converted, places[i])
  }

  /** In the order of the messages. */
  ghost predicate InOrder(places: seq<Place>) {
    forall i, j :: 0 <= i < j < |places| && !places[i].Nowhere? && !places[j].Nowhere? ==>
      || places[i].at < places[j].at
      || (places[i].InGroup? && places[j].InGroup? && places[i].at == places[j].at && places[i].nth < places[j].nth)
  }

  /** Two tool messages share a group iff nothing but tool messages lies between them. */
  ghost predicate RunsTogether(messages: seq<Message>, places: seq<Place>)
    requires |places| == |messages|
  {
    forall i, j :: 0 <= i < j < |places| && places[i].InGroup? && places[j].InGroup? ==>
      (places[i].at == places[j].at <==> forall k :: i <= k <= j ==> messages[k].role == "tool")
  }

  /** Nothing else was put in. */
  ghost predicate NothingElse(converted: seq<Converted>, places: seq<Place>) {
    forall c: nat :: c < |converted| ==>
      match converted[c]
      case Text(_, _) => InText(c) in places
      case ToolResults(blocks) => blocks != [] && forall k: nat :: k < |blocks| ==> InGroup(c, k) in places
  }

  ghost predicate Corresponds(messages: seq<Message>, converted: seq<Converted>, places: seq<Place>) {
    && AllStand(messages, converted, places) && InOrder(places)
    && RunsTogether(messages, places) && NothingElse(converted, places)
    && forall i :: 0 <= i < |places| && !places[i].Nowhere? ==> places[i].at < |converted|
  }

  lemma {:induction false} RolesKept(messages: seq<Message>, converted: seq<Converted>, places: seq<Place>)
    requires Corresponds(messages, converted, places)
    ensures forall m :: m in messages && m.role != "system" && m.role != "tool" ==>
              Text(if m.role == "user" || m.role == "assistant" then m.role else "user", m.content) in converted
  {
    forall m | m in messages && m.role != "system" && m.role != "tool"
      ensures Text(if m.role == "user" || m.role == "assistant" then m.role else "user", m.content) in converted
    {
      var i :| 0 <= i < |messages| && messages[i] == m;
      assert Stands(messages[i], converted, places[i]);
    }
  }

  lemma {:induction false} StandLater(
    messages: seq<Message>, converted: seq<Converted>, places: seq<Place>, c: Converted)
    requires AllStand(messages, converted, places)
    ensures AllStand(messages, converted + [c], places)
  {
    forall i | 0 <= i < |messages| ensures Stands(messages[i], converted + [c], places[i]) {
      assert Stands(messages[i], converted, places[i]);
    }
  }

  lemma {:induction false} OneMoreStands(
    messages: seq<Message>, converted: seq<Converted>, places: seq<Place>, m: Message, place: Place)
    requires AllStand(messages, converted, places) && Stands(m, converted, place)
    ensures AllStand(messages + [m], converted, places + [place])
  {
  }

  lemma {:induction false} OneMoreInOrder(places: seq<Place>, place: Place, n: nat)
    requires InOrder(places) && (place.Nowhere? || place == InText(n))
    requires forall i :: 0 <= i < |places| && !places[i].Nowhere? ==> places[i].at < n
    ensures InOrder(places + [place])
  {
  }

  lemma {:induction false} OneMoreApart(messages: seq<Message>, places: seq<Place>, m: Message, place: Place)
    requires |places| == |messages| && RunsTogether(messages, places) && !place.InGroup?
    ensures RunsTogether(messages + [m], places + [place])
  {
    var more, now := messages + [m], places + [place];
    forall i, j | 0 <= i < j < |now| && now[i].InGroup? && now[j].InGroup?
      ensures now[i].at == now[j].at <==> forall k :: i <= k <= j ==> more[k].role == "tool"
    {
      assert now[i] == places[i] && now[j] == places[j];
      assert forall k :: i <= k <= j ==> more[k] == messages[k];
    }
  }

  lemma {:induction false} StillNothingElse(converted: seq<Converted>, places: seq<Place>, place: Place)
    requires NothingElse(converted, places)
    ensures NothingElse(converted, places + [place])
  {
    assert forall x :: x in places ==> x in places + [place];
  }

  lemma {:induction false} OneTextMore(converted: seq<Converted>, places: seq<Place>, c: Converted)
    requires NothingElse(converted, places) && c.Text?
    ensures NothingElse(converted + [c], places + [InText(|converted|)])
  {
    var now := places + [InText(|converted|)];
    assert forall x :: x in places ==> x in now;
    assert now[|places|] in now;
  }

  lemma {:induction false} SystemStands(
    messages: seq<Message>, converted: seq<Converted>, places: seq<Place>, m: Message)
    requires Corresponds(messages, converted, places) && IsSystem(m)
    ensures Corresponds(messages + [m], converted, places + [Nowhere])
  {
    OneMoreStands(messages, converted, places, m, Nowhere);
    OneMoreInOrder(places, Nowhere, |converted|);
    OneMoreApart(messages, places, m, Nowhere);
    StillNothingElse(converted, places, Nowhere);
  }

  lemma {:induction false} TextStands(
    messages: seq<Message>, converted: seq<Converted>, places: seq<Place>, m: Message, c: Converted)
    requires Corresponds(messages, converted, places) && !IsSystem(m) && !IsTool(m)
    requires c == Text(if m.role == "user" || m.role == "assistant" then m.role else "user", m.content)
    ensures Corresponds(messages + [m], converted + [c], places + [InText(|converted|)])
  {
    var place := InText(|converted|);
    StandLater(messages, converted, places, c);
    OneMoreStands(messages, converted + [c], places, m, place);
    OneMoreInOrder(places, place, |converted|);
    OneMoreApart(messages, places, m, place);
    OneTextMore(converted, places, c);
  }

  function GroupPlaces(c: nat, n: nat): (places: seq<Place>)
    ensures |places| == n && forall k :: 0 <= k < n ==> places[k] == InGroup(c, k)
  {
    seq(n, k requires 0 <= k < n => InGroup(c, k))
  }

  /** The run of tool messages at the end, behind something else. */
  lemma {:induction false} GroupStands(
    messages: seq<Message>, lo: nat, converted: seq<Converted>, places: seq<Place>, blocks: seq<Block>)
    requires lo < |messages| && Corresponds(messages[..lo], converted, places)
    requires IsRun(blocks, messages, lo, |messages|) && (lo > 0 ==> !IsTool(messages[lo - 1]))
    ensures Corresponds(messages, converted + [ToolResults(blocks)], places + GroupPlaces(|converted|, |blocks|))
  {
    BlocksStand(messages, lo, converted, places, blocks);
    GroupInOrder(places, |converted|, |blocks|);
    GroupApart(messages, lo, converted, places, |blocks|);
    GroupCovered(converted, places, blocks);
  }

  lemma {:induction false} BlocksStand(
    messages: seq<Message>, lo: nat, converted: seq<Converted>, places: seq<Place>, blocks: seq<Block>)
    requires lo < |messages| && AllStand(messages[..lo], converted, places)
    requires IsRun(blocks, messages, lo, |messages|)
    ensures AllStand(messages, converted + [ToolResults(blocks)], places + GroupPlaces(|converted|, |blocks|))
  {
    var now := places + GroupPlaces(|converted|, |blocks|);
    StandLater(messages[..lo], converted, places, ToolResults(blocks));
    forall i | 0 <= i < |messages| ensures Stands(messages[i], converted + [ToolResults(blocks)], now[i]) {
      if i < lo {
        assert messages[..lo][i] == messages[i] && now[i] == places[i];
      } else {
        assert now[i] == InGroup(|converted|, i - lo) && blocks[i - lo] == BlockOf(messages[i]);
      }
    }
  }

  lemma {:induction false} GroupInOrder(places: seq<Place>, c: nat, n: nat)
    requires InOrder(places) && forall i :: 0 <= i < |places| && !places[i].Nowhere? ==> places[i].at < c
    ensures InOrder(places + GroupPlaces(c, n))
  {
  }

  lemma {:induction false} GroupApart(
    messages: seq<Message>, lo: nat, converted: seq<Converted>, places: seq<Place>, n: nat)
    requires lo + n == |messages| && Corresponds(messages[..lo], converted, places)
    requires (forall p :: lo <= p < |messages| ==> IsTool(messages[p])) && (lo > 0 ==> !IsTool(messages[lo - 1]))
    ensures RunsTogether(messages, places + GroupPlaces(|converted|, n))
  {
    var now := places + GroupPlaces(|converted|, n);
    forall i, j | 0 <= i < j < |now| && now[i].InGroup? && now[j].InGroup?
      ensures now[i].at == now[j].at <==> forall k :: i <= k <= j ==> messages[k].role == "tool"
    {
      if j < lo {
        assert forall k :: i <= k <= j ==> messages[..lo][k] == messages[k];
        assert now[i] == places[i] && now[j] == places[j];
      } else if i < lo {
        assert now[i] == places[i] && messages[lo - 1].role != "tool";
      } else {
        assert forall k :: i <= k <= j ==> IsTool(messages[k]);
      }
    }
  }

  lemma {:induction false} GroupCovered(converted: seq<Converted>, places: seq<Place>, blocks: seq<Block>)
    requires NothingElse(converted, places) && blocks != []
    ensures NothingElse(converted + [ToolResults(blocks)], places + GroupPlaces(|converted|, |blocks|))
  {
    var group := GroupPlaces(|converted|, |blocks|);
    var now := places + group;
    assert forall x :: x in now <==> x in places || x in group;
    assert forall k :: 0 <= k < |blocks| ==> group[k] in group;
  }

  // ----- the system text -----

  function Join(parts: seq<string>): string {
    if parts == [] then "" else if |parts| == 1 then parts[0]
    else Join(parts[..|parts| - 1]) + "\n\n" + parts[|parts| - 1]
  }

  /** `from` lists the system messages in order, and the parts are their contents. */
  ghost predicate PartsFrom(messages: seq<Message>, parts: seq<string>, from: seq<nat>) {
    && |from| == |parts|
    && (forall j, k :: 0 <= j < k < |from| ==> from[j] < from[k])
    && (forall k :: 0 <= k < |from| ==>
          from[k] < |messages| && messages[from[k]].role == "system" && parts[k] == messages[from[k]].content)
    && forall i :: 0 <= i < |messages| && messages[i].role == "system" ==> i in from
  }

  lemma {:induction false} NextPart(messages: seq<Message>, parts: seq<string>, from: seq<nat>, m: Message)
    requires PartsFrom(messages, parts, from)
    ensures m.role == "system" ==> PartsFrom(messages + [m], parts + [m.content], from + [|messages|])
    ensures m.role != "system" ==> PartsFrom(messages + [m], parts, from)
  {
    assert forall i :: i in from ==> i in from + [|messages|];
    assert |messages| in from + [|messages|] by {
      assert (from + [|messages|])[|from|] == |messages|;
    }
  }

  /** The parts are the contents of the system messages, in order. */
  lemma {:induction false} PartsInOrder(messages: seq<Message>) returns (from: seq<nat>)
    ensures PartsFrom(messages, SystemParts(messages), from)
  {
    if messages == [] {
      from := [];
    } else {
      var n := |messages| - 1;
      from := PartsInOrder(messages[..n]);
      NextPart(messages[..n], SystemParts(messages[..n]), from, messages[n]);
      assert messages == messages[..n] + [messages[n]];
      from := if messages[n].role == "system" then from + [n] else from;
    }
  }

  lemma OnePart(part: string)
    ensures Join([part]) == part
  {
  }

  /** The text is the parts in order: it can be cut before any part. */
  lemma {:induction false} JoinCut(before: seq<string>, after: seq<string>)
    requires before != [] && after != []
    ensures Join(before + after) == Join(before) + "\n\n" + Join(after)
  {
    var n := |after| - 1;
    var last := after[n];
    assert (before + after)[..|before| + n] == before + after[..n];
    if n == 0 {
      assert before + after[..0] == before;
    } else {
      JoinCut(before, after[..n]);
      assert Join(before) + "\n\n" + Join(after) == Join(before) + "\n\n" + Join(after[..n]) + "\n\n" + last;
    }
  }

  // ----- the conversion -----

  /** The first n messages are converted, and none of them leaves a group open. */
  predicate Done(messages: seq<Message>, n: nat, parts: seq<string>, converted: seq<Converted>) {
    && n <= |messages|
    && (0 < n < |messages| && IsTool(messages[n - 1]) ==> !IsTool(messages[n]))
    && parts == SystemParts(messages[..n])
    && Expand(converted) == ItemsOf(messages[..n])
    && GroupedUpTo(converted, messages, n)
  }

  lemma PrefixNext(messages: seq<Message>, n: nat)
    requires n < |messages|
    ensures messages[..n + 1] == messages[..n] + [messages[n]]
    ensures ItemsOf(messages[..n + 1]) ==
            ItemsOf(messages[..n]) + (if IsSystem(messages[n]) then [] else [ItemOf(messages[n])])
    ensures SystemParts(messages[..n + 1]) ==
            SystemParts(messages[..n]) + (if IsSystem(messages[n]) then [messages[n].content] else [])
  {
    assert messages[..n + 1][..n] == messages[..n];
  }

  lemma AppendConverted(converted: seq<Converted>, c: Converted)
    ensures Expand(converted + [c]) == Expand(converted) + Expand([c])
    ensures Expand([c]) == match c
                           case Text(role, content) => [Item(role, None, content)]
                           case ToolResults(blocks) => ItemsOfBlocks(blocks)
  {
    assert (converted + [c])[..|converted|] == converted;
    assert [c][..0] == [];
  }

  lemma DoneSystem(messages: seq<Message>, n: nat, parts: seq<string>, converted: seq<Converted>)
    requires Done(messages, n, parts, converted) && n < |messages| && IsSystem(messages[n])
    ensures Done(messages, n + 1, parts + [messages[n].content], converted)
  {
    PrefixNext(messages, n);
  }

  lemma {:induction false} TextCloses(messages: seq<Message>, n: nat, converted: seq<Converted>, c: Converted)
    requires n < |messages| && GroupedUpTo(converted, messages, n) && Begins(messages, n) && Renders(c, messages, n)
    ensures GroupedUpTo(converted + [c], messages, n + 1)
  {
  }

  lemma DoneText(messages: seq<Message>, n: nat, parts: seq<string>, converted: seq<Converted>)
    requires Done(messages, n, parts, converted) && n < |messages| && !IsSystem(messages[n]) && !IsTool(messages[n])
    ensures Done(messages, n + 1, parts, converted + [Text(RoleSent(messages[n].role), messages[n].content)])
  {
    var c := Text(RoleSent(messages[n].role), messages[n].content);
    PrefixNext(messages, n);
    AppendConverted(converted, c);
    TextCloses(messages, n, converted, c);
  }

  lemma DoneGroup(
    messages: seq<Message>, lo: nat, hi: nat, parts: seq<string>, converted: seq<Converted>, blocks: seq<Block>)
    requires Done(messages, lo, parts, converted) && lo < hi && IsRun(blocks, messages, lo, hi)
    requires hi < |messages| ==> !IsTool(messages[hi])
    ensures Done(messages, hi, parts, converted + [ToolResults(blocks)])
  {
    GroupCloses(messages, lo, hi, converted, blocks);
    ItemsOfRun(messages, lo, hi, blocks);
    NoPartsOfRun(messages, lo, hi);
    AppendConverted(converted, ToolResults(blocks));
    assert IsTool(messages[hi - 1]);
  }

  lemma GroupCloses(messages: seq<Message>, lo: nat, hi: nat, converted: seq<Converted>, blocks: seq<Block>)
    requires lo < hi && IsRun(blocks, messages, lo, hi) && GroupedUpTo(converted, messages, lo)
    requires Begins(messages, lo) && (hi < |messages| ==> !IsTool(messages[hi]))
    ensures GroupedUpTo(converted + [ToolResults(blocks)], messages, hi)
  {
    RunBeginsOnce(messages, lo, hi);
    assert Renders(ToolResults(blocks), messages, lo);
  }

  lemma LastItem(blocks: seq<Block>, m: Message)
    requires blocks != [] && IsTool(m) && blocks[|blocks| - 1] == BlockOf(m)
    ensures ItemsOfBlocks(blocks) == ItemsOfBlocks(blocks[..|blocks| - 1]) + [ItemOf(m)]
  {
  }

  lemma ShorterRun(messages: seq<Message>, lo: nat, hi: nat, blocks: seq<Block>)
    requires IsRun(blocks, messages, lo, hi) && lo < hi
    ensures IsRun(blocks[..|blocks| - 1], messages, lo, hi - 1)
    ensures IsTool(messages[hi - 1]) && blocks[|blocks| - 1] == BlockOf(messages[hi - 1])
  {
    assert blocks[hi - 1 - lo] == BlockOf(messages[hi - 1]);
  }

  lemma {:induction false} NoPartsOfRun(messages: seq<Message>, lo: nat, hi: nat)
    requires lo <= hi <= |messages| && forall p :: lo <= p < hi ==> IsTool(messages[p])
    ensures SystemParts(messages[..hi]) == SystemParts(messages[..lo])
  {
    if lo == hi {
    } else {
      NoPartsOfRun(messages, lo, hi - 1);
      PrefixNext(messages, hi - 1);
    }
  }

  /** One more tool message at the end of a run. */
  lemma {:induction false} ItemsNext(before: seq<Item>, blocks: seq<Block>, messages: seq<Message>, n: nat)
    requires n < |messages| && IsTool(messages[n]) && blocks != [] && blocks[|blocks| - 1] == BlockOf(messages[n])
    requires ItemsOf(messages[..n]) == before + ItemsOfBlocks(blocks[..|blocks| - 1])
    ensures ItemsOf(messages[..n + 1]) == before + ItemsOfBlocks(blocks)
  {
    PrefixNext(messages, n);
    LastItem(blocks, messages[n]);
  }

  lemma {:induction false} ItemsOfRun(messages: seq<Message>, lo: nat, hi: nat, blocks: seq<Block>)
    requires IsRun(blocks, messages, lo, hi)
    ensures ItemsOf(messages[..hi]) == ItemsOf(messages[..lo]) + ItemsOfBlocks(blocks)
  {
    if lo == hi {
    } else {
      ShorterRun(messages, lo, hi, blocks);
      ItemsOfRun(messages, lo, hi - 1, blocks[..|blocks| - 1]);
      ItemsNext(ItemsOf(messages[..lo]), blocks, messages, hi - 1);
    }
  }

  lemma {:induction false} NoParts(messages: seq<Message>)
    ensures SystemParts(messages) == [] <==> forall m :: m in messages ==> !IsSystem(m)
  {
    if messages == [] {
    } else {
      var n := |messages| - 1;
      NoParts(messages[..n]);
      assert messages == messages[..n] + [messages[n]];
    }
  }

  ghost predicate SoFar(
    messages: seq<Message>, n: nat, parts: seq<string>, converted: seq<Converted>, places: seq<Place>)
  {
    Done(messages, n, parts, converted) && Corresponds(messages[..n], converted, places)
  }

  lemma {:induction false} SystemNext(
    messages: seq<Message>, n: nat, parts: seq<string>, converted: seq<Converted>, places: seq<Place>)
    requires SoFar(messages, n, parts, converted, places) && n < |messages| && IsSystem(messages[n])
    ensures SoFar(messages, n + 1, parts + [messages[n].content], converted, places + [Nowhere])
  {
    DoneSystem(messages, n, parts, converted);
    SystemStands(messages[..n], converted, places, messages[n]);
    PrefixNext(messages, n);
  }

  lemma {:induction false} TextNext(
    messages: seq<Message>, n: nat, parts: seq<string>, converted: seq<Converted>, places: seq<Place>, c: Converted)
    requires SoFar(messages, n, parts, converted, places) && n < |messages|
    requires !IsSystem(messages[n]) && !IsTool(messages[n])
    requires var m := messages[n];
             c == if m.role == "user" || m.role == "assistant" then Text(m.role, m.content) else Text("user", m.content)
    ensures SoFar(messages, n + 1, parts, converted + [c], places + [InText(|converted|)])
  {
    DoneText(messages, n, parts, converted);
    TextStands(messages[..n], converted, places, messages[n], c);
    PrefixNext(messages, n);
  }

  lemma {:induction false} GroupNext(
    messages: seq<Message>, lo: nat, hi: nat, parts: seq<string>, converted: seq<Converted>, places: seq<Place>,
    blocks: seq<Block>)
    requires SoFar(messages, lo, parts, converted, places) && lo < hi && IsRun(blocks, messages, lo, hi)
    requires hi < |messages| ==> !IsTool(messages[hi])
    ensures SoFar(messages, hi, parts, converted + [ToolResults(blocks)],
                      places + GroupPlaces(|converted|, |blocks|))
  {
    DoneGroup(messages, lo, hi, parts, converted, blocks);
    assert messages[..hi][..lo] == messages[..lo];
    assert lo > 0 ==> !IsTool(messages[lo - 1]);
    GroupStands(messages[..hi], lo, converted, places, blocks);
  }

  /** The inner loop: the blocks of the run of tool messages that begins here, and where it ends. */
  method TakeRun(messages: seq<Message>, start: nat) returns (blocks: seq<Block>, idx: nat)
    requires start < |messages| && IsTool(messages[start])
    ensures start < idx && IsRun(blocks, messages, start, idx)
    ensures idx < |messages| ==> messages[idx].role != "tool"
  {
    blocks, idx := [], start;
    while idx < |messages| && IsTool(messages[idx])
      invariant IsRun(blocks, messages, start, idx)
      invariant idx == start ==> IsTool(messages[idx])
    {
      blocks := blocks + [BlockOf(messages[idx])];
      idx := idx + 1;
    }
  }

  /** Every message arrives in order, at a place of its own, under the role and the call id it has to
      have, and expanding the result gives them back. */
  method Convert(messages: seq<Message>) returns (system: Option<string>, converted: seq<Converted>)
    ensures exists places :: Corresponds(messages, converted, places)
    ensures forall m :: m in messages && m.role != "system" && m.role != "tool" ==>
              Text(if m.role == "user" || m.role == "assistant" then m.role else "user", m.content) in converted
    ensures Expand(converted) == ItemsOf(messages)
    ensures Grouped(converted, messages)
    ensures system == None <==> forall m :: m in messages ==> m.role != "system"
    ensures system != None ==> system == Some(Join(SystemParts(messages)))
  {
    var parts: seq<string> := [];
    ghost var places: seq<Place> := [];
    converted := [];
    var idx := 0;
    while idx < |messages|
      invariant idx <= |messages| && SoFar(messages, idx, parts, converted, places)
    {
      var m := messages[idx];
      if IsSystem(m) {
        SystemNext(messages, idx, parts, converted, places);
        parts := parts + [m.content];
        places := places + [Nowhere];
        idx := idx + 1;
      } else if IsTool(m) {
        var blocks, next := TakeRun(messages, idx);
        GroupNext(messages, idx, next, parts, converted, places, blocks);
        places := places + GroupPlaces(|converted|, |blocks|);
        converted := converted + [ToolResults(blocks)];
        idx := next;
      } else {
        var c := if m.role == "user" || m.role == "assistant" then Text(m.role, m.content) else Text("user", m.content);
        TextNext(messages, idx, parts, converted, places, c);
        places := places + [InText(|converted|)];
        converted := converted + [c];
        idx := idx + 1;
      }
    }
    assert messages[..idx] == messages;
    NoParts(messages);
    RolesKept(messages, converted, places);
    system := if parts == [] then None else Some(Join(parts));
  }
}
