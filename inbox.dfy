/**
 * The conversation inbox of `getAllMessages`: the messages that involve the
 * current user are folded, in the order the store returns them, into a map
 * keyed by chat partner whose entries hold the partner, the latest message and
 * an unread counter; the inbox is the map's values in first-insertion order.
 */
module Inbox {

  /** A user identifier; the handler only compares identifiers for equality. */
  type UserId(==, !new)

  datatype Message = Message(id: nat, sender: UserId, receiver: UserId, createdAt: int, read: bool)

  /** One inbox entry: the partner, the message shown as latest, and the unread counter. */
  datatype Chat = Chat(user: UserId, lastMessage: Message, unreadCount: nat)

  /** The JavaScript `Map` of the handler: its entries and its keys in first-insertion order. */
  datatype ChatMap = ChatMap(entries: map<UserId, Chat>, order: seq<UserId>)

  /** The other party of `m` as seen from `me`; a message to oneself has partner `me`. */
  function Partner(me: UserId, m: Message): (p: UserId)
    ensures m.sender == me || m.receiver == me ==> {m.sender, m.receiver} == {me, p}
  {
    if m.sender == me then m.receiver else m.sender
  }

  /** A message that counts as unread: addressed to `me` and not read. */
  predicate UnreadByMe(me: UserId, m: Message) {
    m.receiver == me && !m.read
  }

  /** What one message adds to the counter: 1 when unread by `me`, else 0. */
  function UnreadWeight(me: UserId, m: Message): nat {
    if UnreadByMe(me, m) then 1 else 0
  }

  /** The keys are exactly the elements of the order, without repetition, and each entry names its key. */
  ghost predicate WellFormed(s: ChatMap) {
    && (forall q :: q in s.entries <==> q in s.order)
    && (forall i, j :: 0 <= i < j < |s.order| ==> s.order[i] != s.order[j])
    && (forall q :: q in s.entries ==> s.entries[q].user == q)
  }

  /** One iteration of the loop: insert or replace on a first or strictly newer message, otherwise count. */
  function Step(me: UserId, s: ChatMap, m: Message): ChatMap {
    var p := Partner(me, m);
    if p !in s.entries || m.createdAt > s.entries[p].lastMessage.createdAt then
      ChatMap(s.entries[p := Chat(p, m, UnreadWeight(me, m))],
              if p in s.entries then s.order else s.order + [p])
    else
      var existing := s.entries[p];
      ChatMap(s.entries[p := existing.(unreadCount := existing.unreadCount + UnreadWeight(me, m))], s.order)
  }

  /** The partners of the messages in `msgs`. */
  ghost function Partners(me: UserId, msgs: seq<Message>): set<UserId> {
    set i | 0 <= i < |msgs| :: Partner(me, msgs[i])
  }

  lemma PartnersSnoc(me: UserId, msgs: seq<Message>)
    requires msgs != []
    ensures Partners(me, msgs) == Partners(me, msgs[..|msgs| - 1]) + {Partner(me, msgs[|msgs| - 1])}
  {
    var n := |msgs| - 1;
    forall q | q in Partners(me, msgs)
      ensures q in Partners(me, msgs[..n]) + {Partner(me, msgs[n])}
    {
      var i :| 0 <= i < |msgs| && Partner(me, msgs[i]) == q;
      if i < n {
        assert msgs[..n][i] == msgs[i];
      }
    }
    forall q | q in Partners(me, msgs[..n])
      ensures q in Partners(me, msgs)
    {
      var i :| 0 <= i < n && Partner(me, msgs[..n][i]) == q;
      assert msgs[i] == msgs[..n][i];
    }
  }

  /** The map after processing `msgs` in order, starting from an empty map. */
  function Aggregate(me: UserId, msgs: seq<Message>): (s: ChatMap)
    ensures WellFormed(s)
    ensures s.entries.Keys == Partners(me, msgs)
  {
    if msgs == [] then ChatMap(map[], [])
    else
      PartnersSnoc(me, msgs);
      Step(me, Aggregate(me, msgs[..|msgs| - 1]), msgs[|msgs| - 1])
  }

  /** `Array.from(chatMap.values())`: the entries in key order. */
  function Values(s: ChatMap): seq<Chat>
    requires WellFormed(s)
  {
    seq(|s.order|, i requires 0 <= i < |s.order| => s.entries[s.order[i]])
  }

  /** The inbox that the handler sends back for the messages `msgs`. */
  function ChatList(me: UserId, msgs: seq<Message>): seq<Chat> {
    Values(Aggregate(me, msgs))
  }

  /** The loop of `getAllMessages`, over the messages in the order the store returned them. */
  method GetAllMessages(me: UserId, messages: seq<Message>) returns (chatList: seq<Chat>)
    ensures chatList == ChatList(me, messages)
  {
    var chatMap: map<UserId, Chat> := map[];
    var order: seq<UserId> := [];
    for i := 0 to |messages|
      invariant ChatMap(chatMap, order) == Aggregate(me, messages[..i])
    {
      var msg := messages[i];
      ghost var before := ChatMap(chatMap, order);
      var partnerId := Partner(me, msg);
      if partnerId !in chatMap || msg.createdAt > chatMap[partnerId].lastMessage.createdAt {
        if partnerId !in chatMap {
          order := order + [partnerId];
        }
        chatMap := chatMap[partnerId := Chat(partnerId, msg, UnreadWeight(me, msg))];
        assert ChatMap(chatMap, order) == Step(me, before, msg);
      } else {
        var existingChat := chatMap[partnerId];
        if UnreadByMe(me, msg) {
          chatMap := chatMap[partnerId := existingChat.(unreadCount := existingChat.unreadCount + 1)];
        }
        assert ChatMap(chatMap, order) == Step(me, before, msg);
      }
      assert messages[..i + 1][..i] == messages[..i];
    }
    assert messages[..|messages|] == messages;
    chatList := Values(ChatMap(chatMap, order));
  }

  // ---------------------------------------------------------------------------
  // Reference definitions, stated on the input alone

  /** The index of the first message whose partner is `p`. */
  ghost function FirstOccurrence(me: UserId, msgs: seq<Message>, p: UserId): (k: nat)
    requires p in Partners(me, msgs)
    ensures k < |msgs| && Partner(me, msgs[k]) == p
    ensures forall j :: 0 <= j < k ==> Partner(me, msgs[j]) != p
    decreases |msgs|
  {
    var n := |msgs| - 1;
    PartnersSnoc(me, msgs);
    if p in Partners(me, msgs[..n]) then
      var k := FirstOccurrence(me, msgs[..n], p);
      assert forall j :: 0 <= j < k ==> msgs[..n][j] == msgs[j];
      k
    else
      assert forall j :: 0 <= j < n ==> msgs[j] == msgs[..n][j];
      n
  }

  /**
   * `k` is the first position holding the greatest `createdAt` among the
   * messages with partner `p`: every earlier one is strictly older, no later
   * one is newer.
   */
  ghost predicate IsFirstLatest(me: UserId, msgs: seq<Message>, p: UserId, k: nat) {
    && k < |msgs| && Partner(me, msgs[k]) == p
    && (forall j :: 0 <= j < k && Partner(me, msgs[j]) == p ==> msgs[j].createdAt < msgs[k].createdAt)
    && (forall j :: k < j < |msgs| && Partner(me, msgs[j]) == p ==> msgs[j].createdAt <= msgs[k].createdAt)
  }

  /** The first position of the latest message with partner `p`. */
  ghost function LatestIndex(me: UserId, msgs: seq<Message>, p: UserId): (k: nat)
    requires p in Partners(me, msgs)
    ensures IsFirstLatest(me, msgs, p, k)
    decreases |msgs|
  {
    var n := |msgs| - 1;
    PartnersSnoc(me, msgs);
    if p !in Partners(me, msgs[..n]) then
      assert forall j :: 0 <= j < n ==> msgs[j] == msgs[..n][j];
      n
    else
      var k := LatestIndex(me, msgs[..n], p);
      assert forall j :: 0 <= j < n ==> msgs[j] == msgs[..n][j];
      if Partner(me, msgs[n]) == p && msgs[n].createdAt > msgs[k].createdAt then n else k
  }

  /** The number of messages in `msgs` with partner `p` that are unread by `me`. */
  ghost function UnreadCount(me: UserId, p: UserId, msgs: seq<Message>): nat {
    if msgs == [] then 0
    else
      var m := msgs[|msgs| - 1];
      UnreadCount(me, p, msgs[..|msgs| - 1]) + (if Partner(me, m) == p && UnreadByMe(me, m) then 1 else 0)
  }

  /** Input sorted by `createdAt`, newest first, as the store query returns it. */
  ghost predicate SortedNewestFirst(msgs: seq<Message>) {
    forall i, j :: 0 <= i < j < |msgs| ==> msgs[i].createdAt >= msgs[j].createdAt
  }

  // ---------------------------------------------------------------------------
  // Counting lemmas

  lemma {:induction false} UnreadCountSplit(me: UserId, p: UserId, msgs: seq<Message>, k: nat)
    requires k <= |msgs|
    ensures UnreadCount(me, p, msgs) == UnreadCount(me, p, msgs[..k]) + UnreadCount(me, p, msgs[k..])
    decreases |msgs|
  {
    if k < |msgs| {
      var n := |msgs| - 1;
      UnreadCountSplit(me, p, msgs[..n], k);
      assert msgs[..n][..k] == msgs[..k];
      assert msgs[k..][..|msgs[k..]| - 1] == msgs[..n][k..];
    } else {
      assert msgs[..k] == msgs;
      assert msgs[k..] == [];
    }
  }

  lemma {:induction false} UnreadCountNoPartner(me: UserId, p: UserId, msgs: seq<Message>)
    requires forall j :: 0 <= j < |msgs| ==> Partner(me, msgs[j]) != p
    ensures UnreadCount(me, p, msgs) == 0
    decreases |msgs|
  {
    if msgs != [] {
      var n := |msgs| - 1;
      assert forall j :: 0 <= j < n ==> msgs[..n][j] == msgs[j];
      UnreadCountNoPartner(me, p, msgs[..n]);
    }
  }

  /** The last element of `msgs[k..]` is the last element of `msgs`, and the rest is `msgs[..n][k..]`. */
  lemma UnreadCountSuffixSnoc(me: UserId, p: UserId, msgs: seq<Message>, k: nat)
    requires k < |msgs|
    ensures var n := |msgs| - 1;
      UnreadCount(me, p, msgs[k..]) == UnreadCount(me, p, msgs[..n][k..])
        + (if Partner(me, msgs[n]) == p && UnreadByMe(me, msgs[n]) then 1 else 0)
  {
    var n := |msgs| - 1;
    assert msgs[k..][..|msgs[k..]| - 1] == msgs[..n][k..];
  }

  // ---------------------------------------------------------------------------
  // What the fold computes

  /**
   * For every partner, the entry holds the first latest message of that
   * conversation, and the counter holds the unread messages from that message
   * onward: a strictly newer message replaces the entry and restarts the count.
   */
  lemma {:induction false} AggregateEntry(me: UserId, msgs: seq<Message>, p: UserId)
    requires p in Partners(me, msgs)
    ensures var e := Aggregate(me, msgs).entries[p];
      var k := LatestIndex(me, msgs, p);
      e.lastMessage == msgs[k] && e.unreadCount == UnreadCount(me, p, msgs[k..])
    decreases |msgs|
  {
    var n := |msgs| - 1;
    var prefix := msgs[..n];
    var m := msgs[n];
    PartnersSnoc(me, msgs);
    var prev := Aggregate(me, prefix);
    assert Aggregate(me, msgs) == Step(me, prev, m);
    var k := LatestIndex(me, msgs, p);
    UnreadCountSuffixSnoc(me, p, msgs, k);
    if p !in Partners(me, prefix) {
      assert k == n;
      assert msgs[n..][..0] == [];
    } else {
      AggregateEntry(me, prefix, p);
      var k' := LatestIndex(me, prefix, p);
      assert prefix[k'] == msgs[k'];
      if Partner(me, m) == p && m.createdAt > msgs[k'].createdAt {
        assert k == n;
        assert msgs[n..][..0] == [];
      } else {
        assert k == k';
      }
    }
  }

  /** The first occurrence in `msgs` is the one in its prefix, unless the partner is new in the last message. */
  lemma FirstOccurrenceSnoc(me: UserId, msgs: seq<Message>, q: UserId)
    requires msgs != [] && q in Partners(me, msgs)
    ensures var n := |msgs| - 1;
      FirstOccurrence(me, msgs, q) == if q in Partners(me, msgs[..n]) then FirstOccurrence(me, msgs[..n], q) else n
  {
  }

  /** Keys are appended in the order of their first occurrence in the input. */
  lemma {:induction false} AggregateOrder(me: UserId, msgs: seq<Message>, i: nat, j: nat)
    requires i < j < |Aggregate(me, msgs).order|
    ensures var order := Aggregate(me, msgs).order;
      FirstOccurrence(me, msgs, order[i]) < FirstOccurrence(me, msgs, order[j])
    decreases |msgs|
  {
    var n := |msgs| - 1;
    var prefix := msgs[..n];
    var m := msgs[n];
    var prev := Aggregate(me, prefix);
    var order := Aggregate(me, msgs).order;
    assert order == prev.order || order == prev.order + [Partner(me, m)];
    assert order[i] == prev.order[i] && order[i] in prev.entries;
    FirstOccurrenceSnoc(me, msgs, order[i]);
    FirstOccurrenceSnoc(me, msgs, order[j]);
    if j < |prev.order| {
      AggregateOrder(me, prefix, i, j);
    } else {
      assert order[j] !in prev.entries;
    }
  }

  // ---------------------------------------------------------------------------
  // What the inbox holds

  /** One entry per distinct partner occurring in the input, and no other entry. */
  lemma InboxOnePerPartner(me: UserId, msgs: seq<Message>)
    ensures var chats := ChatList(me, msgs);
      && (set i | 0 <= i < |chats| :: chats[i].user) == Partners(me, msgs)
      && (forall i, j :: 0 <= i < j < |chats| ==> chats[i].user != chats[j].user)
      && |chats| == |Partners(me, msgs)|
  {
    var s := Aggregate(me, msgs);
    var chats := ChatList(me, msgs);
    assert forall i :: 0 <= i < |chats| ==> chats[i].user == s.order[i];
    forall q | q in s.order ensures q in (set i | 0 <= i < |chats| :: chats[i].user) {
      var i :| 0 <= i < |s.order| && s.order[i] == q;
      assert chats[i].user == q;
    }
    assert (set i | 0 <= i < |chats| :: chats[i].user) == set q | q in s.order;
    DistinctCard(s.order);
  }

  lemma {:induction false} DistinctCard(xs: seq<UserId>)
    requires forall i, j :: 0 <= i < j < |xs| ==> xs[i] != xs[j]
    ensures |set q | q in xs| == |xs|
    decreases |xs|
  {
    if xs != [] {
      var n := |xs| - 1;
      DistinctCard(xs[..n]);
      assert (set q | q in xs) == (set q | q in xs[..n]) + {xs[n]};
      assert xs[n] !in (set q | q in xs[..n]);
    }
  }

  /**
   * Each entry shows a message of its own conversation that no message of the
   * conversation outdates, the first such one on ties, and counts the unread
   * messages from it onward.
   */
  lemma InboxLatest(me: UserId, msgs: seq<Message>)
    ensures var chats := ChatList(me, msgs);
      forall i :: 0 <= i < |chats| ==>
        && chats[i].user in Partners(me, msgs)
        && chats[i].lastMessage == msgs[LatestIndex(me, msgs, chats[i].user)]
        && chats[i].unreadCount == UnreadCount(me, chats[i].user, msgs[LatestIndex(me, msgs, chats[i].user)..])
  {
    var chats := ChatList(me, msgs);
    forall i | 0 <= i < |chats|
      ensures chats[i].user in Partners(me, msgs)
      ensures chats[i].lastMessage == msgs[LatestIndex(me, msgs, chats[i].user)]
      ensures chats[i].unreadCount == UnreadCount(me, chats[i].user, msgs[LatestIndex(me, msgs, chats[i].user)..])
    {
      AggregateEntry(me, msgs, chats[i].user);
    }
  }

  /** The counter never exceeds the conversation's unread messages addressed to `me`. */
  lemma InboxUnreadBound(me: UserId, msgs: seq<Message>)
    ensures var chats := ChatList(me, msgs);
      forall i :: 0 <= i < |chats| ==> chats[i].unreadCount <= UnreadCount(me, chats[i].user, msgs)
  {
    var chats := ChatList(me, msgs);
    InboxLatest(me, msgs);
    forall i | 0 <= i < |chats|
      ensures chats[i].unreadCount <= UnreadCount(me, chats[i].user, msgs)
    {
      UnreadCountSplit(me, chats[i].user, msgs, LatestIndex(me, msgs, chats[i].user));
    }
  }

  /** Entries come in the order in which their partners first occur in the input. */
  lemma InboxOrder(me: UserId, msgs: seq<Message>)
    ensures var chats := ChatList(me, msgs);
      forall i, j :: 0 <= i < j < |chats| ==>
        && chats[i].user in Partners(me, msgs) && chats[j].user in Partners(me, msgs)
        && FirstOccurrence(me, msgs, chats[i].user) < FirstOccurrence(me, msgs, chats[j].user)
  {
    var s := Aggregate(me, msgs);
    var chats := ChatList(me, msgs);
    forall i, j | 0 <= i < j < |chats|
      ensures chats[i].user in Partners(me, msgs) && chats[j].user in Partners(me, msgs)
      ensures FirstOccurrence(me, msgs, chats[i].user) < FirstOccurrence(me, msgs, chats[j].user)
    {
      assert chats[i].user == s.order[i] && chats[j].user == s.order[j];
      AggregateOrder(me, msgs, i, j);
    }
  }

  /** The entry of `p` counts all its unread messages when its first message is its first latest one. */
  lemma EntryCountIsTotal(me: UserId, msgs: seq<Message>, p: UserId)
    requires p in Partners(me, msgs)
    requires LatestIndex(me, msgs, p) == FirstOccurrence(me, msgs, p)
    ensures Aggregate(me, msgs).entries[p].unreadCount == UnreadCount(me, p, msgs)
  {
    var f := FirstOccurrence(me, msgs, p);
    AggregateEntry(me, msgs, p);
    UnreadCountSplit(me, p, msgs, f);
    assert forall j :: 0 <= j < f ==> msgs[..f][j] == msgs[j];
    UnreadCountNoPartner(me, p, msgs[..f]);
  }

  /**
   * The counter is the conversation's total of unread messages addressed to
   * `me` whenever the partner's first message is also its first latest one.
   */
  lemma InboxCountIsTotal(me: UserId, msgs: seq<Message>)
    ensures var chats := ChatList(me, msgs);
      forall i :: (0 <= i < |chats| && chats[i].user in Partners(me, msgs)
                   && LatestIndex(me, msgs, chats[i].user) == FirstOccurrence(me, msgs, chats[i].user)) ==>
        chats[i].unreadCount == UnreadCount(me, chats[i].user, msgs)
  {
    var s := Aggregate(me, msgs);
    var chats := ChatList(me, msgs);
    forall i | 0 <= i < |chats| && chats[i].user in Partners(me, msgs)
        && LatestIndex(me, msgs, chats[i].user) == FirstOccurrence(me, msgs, chats[i].user)
      ensures chats[i].unreadCount == UnreadCount(me, chats[i].user, msgs)
    {
      assert chats[i] == s.entries[s.order[i]] && chats[i].user == s.order[i];
      EntryCountIsTotal(me, msgs, chats[i].user);
    }
  }

  /**
   * On input sorted newest first, as the store returns it, each entry shows
   * its conversation's first message, counts all of the conversation's unread
   * messages, and the inbox is sorted newest first.
   */
  lemma InboxOnSortedInput(me: UserId, msgs: seq<Message>)
    requires SortedNewestFirst(msgs)
    ensures var chats := ChatList(me, msgs);
      && (forall i :: 0 <= i < |chats| ==>
            && chats[i].user in Partners(me, msgs)
            && chats[i].lastMessage == msgs[FirstOccurrence(me, msgs, chats[i].user)]
            && chats[i].unreadCount == UnreadCount(me, chats[i].user, msgs))
      && (forall i, j :: 0 <= i < j < |chats| ==>
            chats[i].lastMessage.createdAt >= chats[j].lastMessage.createdAt)
  {
    var chats := ChatList(me, msgs);
    InboxLatest(me, msgs);
    InboxOrder(me, msgs);
    forall i | 0 <= i < |chats|
      ensures chats[i].lastMessage == msgs[FirstOccurrence(me, msgs, chats[i].user)]
      ensures chats[i].unreadCount == UnreadCount(me, chats[i].user, msgs)
    {
      var p := chats[i].user;
      var f := FirstOccurrence(me, msgs, p);
      var k := LatestIndex(me, msgs, p);
      assert f == k;
      assert chats[i] == Aggregate(me, msgs).entries[Aggregate(me, msgs).order[i]];
      EntryCountIsTotal(me, msgs, p);
    }
  }

  // ---------------------------------------------------------------------------
  // Single steps

  /** A strictly newer message replaces the entry and restarts the counter at its own 0 or 1. */
  lemma NewerMessageResets(me: UserId, msgs: seq<Message>, m: Message)
    requires Partner(me, m) in Aggregate(me, msgs).entries
    requires m.createdAt > Aggregate(me, msgs).entries[Partner(me, m)].lastMessage.createdAt
    ensures Aggregate(me, msgs + [m]).entries[Partner(me, m)]
      == Chat(Partner(me, m), m, UnreadWeight(me, m))
    ensures Aggregate(me, msgs + [m]).order == Aggregate(me, msgs).order
  {
    assert (msgs + [m])[..|msgs|] == msgs;
  }

  /** A message no newer than the shown one keeps it (ties included) and only adds to the counter. */
  lemma OlderOrTiedMessageKeeps(me: UserId, msgs: seq<Message>, m: Message)
    requires Partner(me, m) in Aggregate(me, msgs).entries
    requires m.createdAt <= Aggregate(me, msgs).entries[Partner(me, m)].lastMessage.createdAt
    ensures var before := Aggregate(me, msgs).entries[Partner(me, m)];
      Aggregate(me, msgs + [m]).entries[Partner(me, m)]
        == before.(unreadCount := before.unreadCount + UnreadWeight(me, m))
    ensures Aggregate(me, msgs + [m]).order == Aggregate(me, msgs).order
  {
    assert (msgs + [m])[..|msgs|] == msgs;
  }

  /**
   * Out of order, the reset loses counts: an unread message followed by a newer
   * unread one from the same partner leaves a counter of 1 where 2 are unread.
   */
  lemma UnsortedInputUndercounts(me: UserId, other: UserId)
    requires me != other
    ensures var older := Message(1, other, me, 10, false);
      var newer := Message(2, other, me, 20, false);
      && ChatList(me, [older, newer]) == [Chat(other, newer, 1)]
      && UnreadCount(me, other, [older, newer]) == 2
  {
    var older := Message(1, other, me, 10, false);
    var newer := Message(2, other, me, 20, false);
    assert [older, newer][..1] == [older];
    assert [older][..0] == [];
    assert UnreadCount(me, other, [older]) == 1;
    assert Partner(me, older) == other && Partner(me, newer) == other;
    assert Aggregate(me, [older][..0]) == ChatMap(map[], []);
    var first := Aggregate(me, [older]);
    assert first == Step(me, ChatMap(map[], []), older);
    assert first == ChatMap(map[other := Chat(other, older, 1)], [other]);
    assert Aggregate(me, [older, newer]) == ChatMap(map[other := Chat(other, newer, 1)], [other]);
  }
}
