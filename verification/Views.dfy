/**
 When two message tables look the same to ListChats, ListByChat and OldestByChat.
 The run theorem and the repair theorem both compare a table with one whose rows
 were filed differently. SearchChats, which also looks at the addresses as they
 are stored, is defined here and compared in `Searches`.
 */
module Views {
  import opened Text
  import opened Sorting
  import opened Addresses
  import opened Messages
  import opened Conversations
  import Like

  /** A message without the addresses it is filed under. */
  function Unaddressed(m: Message): Message { m.(chat := "", sender := "") }

  /** A message without its addresses and direction. */
  function Undirected(m: Message): Message { m.(chat := "", sender := "", direction := In) }

  function UndirectedChat(c: Summary): Summary { c.(direction := In) }

  function UndirectedEntry(e: Entry): Entry { e.(direction := In) }

  /** Row by row, the same message in the same conversation, up to what `f` erases. */
  ghost predicate SameConversations(f: Message -> Message, rows: seq<Message>, rows': seq<Message>, index: seq<LidPair>) {
    && |rows| == |rows'|
    && forall i :: 0 <= i < |rows| ==>
         && f(rows[i]) == f(rows'[i])
         && rows[i].tenant == rows'[i].tenant
         && Projected(index, rows[i].chat) == Projected(index, rows'[i].chat)
  }

  lemma MapLimit<S, T>(f: S -> T, s: seq<S>, n: nat)
    ensures Map(f, Limit(s, n)) == Limit(Map(f, s), n)
  {
  }

  /** ListByChat returns the same messages in the same order, whatever form the query takes. */
  lemma SamePages(f: Message -> Message, rows: seq<Message>, rows': seq<Message>,
                  tenant: string, index: seq<LidPair>, query: string, limit: int)
    requires ValidIndex(index) && SameConversations(f, rows, rows', index)
    requires forall m :: f(m).id == m.id && f(m).timestamp == m.timestamp
    ensures Map(f, ListByChat(rows, tenant, index, query, limit)) ==
            Map(f, ListByChat(rows', tenant, index, query, limit))
  {
    var key := ReadForm(index, query);
    var own, own' := ConversationRows(rows, tenant, index, key), ConversationRows(rows', tenant, index, key);
    QueryReadsTheConversation(rows, tenant, index, query);
    QueryReadsTheConversation(rows', tenant, index, query);
    FilterMap(InConversation(tenant, index, key), f, rows, InConversation(tenant, index, key), f, rows');
    MapSort(f, own, Newer, Newer);
    MapSort(f, own', Newer, Newer);
    MapLimit(f, Page(own), NormalizeLimit(limit));
    MapLimit(f, Page(own'), NormalizeLimit(limit));
  }

  function Seen(f: Message -> Message, m: Option<Message>): Option<Message> {
    match m case Some(found) => Some(f(found)) case None => None
  }

  lemma {:induction false} OldestSeen(f: Message -> Message, rows: seq<Message>, rows': seq<Message>)
    requires |rows| == |rows'| && forall k :: 0 <= k < |rows| ==> f(rows[k]) == f(rows'[k])
    requires forall m :: f(m).id == m.id && f(m).timestamp == m.timestamp
    ensures Seen(f, Oldest(rows)) == Seen(f, Oldest(rows'))
  {
    if rows != [] {
      var n := |rows| - 1;
      OldestSeen(f, rows[..n], rows'[..n]);
      SameRank(f, rows[n], rows'[n]);
      if Oldest(rows[..n]).Some? {
        SameRank(f, Oldest(rows[..n]).value, Oldest(rows'[..n]).value);
      }
    }
  }

  lemma SameRank(f: Message -> Message, m: Message, m': Message)
    requires f(m) == f(m') && forall x :: f(x).id == x.id && f(x).timestamp == x.timestamp
    ensures m.id == m'.id && m.timestamp == m'.timestamp
  {
    assert f(m).id == m.id && f(m').id == m'.id && f(m).timestamp == m.timestamp && f(m').timestamp == m'.timestamp;
  }

  /** And OldestByChat returns the same message. */
  lemma SameOldest(f: Message -> Message, rows: seq<Message>, rows': seq<Message>, tenant: string, index: seq<LidPair>, query: string)
    requires ValidIndex(index) && SameConversations(f, rows, rows', index)
    requires forall m :: f(m).id == m.id && f(m).timestamp == m.timestamp
    ensures Seen(f, OldestByChat(rows, tenant, index, query)) == Seen(f, OldestByChat(rows', tenant, index, query))
  {
    var key := ReadForm(index, query);
    var own, own' := ConversationRows(rows, tenant, index, key), ConversationRows(rows', tenant, index, key);
    QueryReadsTheConversation(rows, tenant, index, query);
    QueryReadsTheConversation(rows', tenant, index, query);
    FilterMap(InConversation(tenant, index, key), f, rows, InConversation(tenant, index, key), f, rows');
    forall k | 0 <= k < |own| ensures |own| == |own'| && f(own[k]) == f(own'[k]) {
      assert |Map(f, own)| == |Map(f, own')| && Map(f, own)[k] == Map(f, own')[k];
    }
    assert |Map(f, own)| == |own| && |Map(f, own')| == |own'|;
    OldestSeen(f, own, own');
  }

  /** With nothing but the addresses erased, ListChats answers the very same list. */
  lemma SameLists(rows: seq<Message>, rows': seq<Message>, tenant: string, index: seq<LidPair>, names: seq<ChatName>, limit: int)
    requires ValidIndex(index) && ValidNames(names) && SameConversations(Unaddressed, rows, rows', index)
    ensures ListChats(rows, tenant, index, names, limit) == ListChats(rows', tenant, index, names, limit)
  {
    EntriesAreTheRows(rows, tenant, index, names);
    EntriesAreTheRows(rows', tenant, index, names);
    forall i | 0 <= i < |rows| ensures EntryOf(rows[i], index, names) == EntryOf(rows'[i], index, names) {
      assert Unaddressed(rows[i]).id == rows[i].id && Unaddressed(rows'[i]).id == rows'[i].id;
      assert Unaddressed(rows[i]).body == rows[i].body && Unaddressed(rows'[i]).body == rows'[i].body;
    }
    FilterMap(OfTenant(tenant), ToEntry(index, names), rows, OfTenant(tenant), ToEntry(index, names), rows');
  }

  lemma {:induction false} FindErases(groups: seq<Summary>, key: string)
    ensures Find(Map(UndirectedChat, groups), key) == Find(groups, key)
  {
    if groups != [] {
      FindErases(groups[..|groups| - 1], key);
      assert Map(UndirectedChat, groups)[..|groups| - 1] == Map(UndirectedChat, groups[..|groups| - 1]);
    }
  }

  lemma AddErases(groups: seq<Summary>, e: Entry)
    ensures Map(UndirectedChat, AddEntry(groups, e)) == AddEntry(Map(UndirectedChat, groups), UndirectedEntry(e))
  {
    FindErases(groups, e.key);
  }

  lemma {:induction false} GroupErases(entries: seq<Entry>)
    ensures Map(UndirectedChat, Group(entries)) == Group(Map(UndirectedEntry, entries))
  {
    if entries != [] {
      var init, e := entries[..|entries| - 1], entries[|entries| - 1];
      GroupErases(init);
      AddErases(Group(init), e);
      assert Map(UndirectedEntry, entries)[..|entries| - 1] == Map(UndirectedEntry, init);
    } else {
      assert Map(UndirectedEntry, entries) == [];
    }
  }

  /** With direction erased as well, ListChats groups, counts and orders the same. */
  lemma SameUndirectedLists(rows: seq<Message>, rows': seq<Message>, tenant: string, index: seq<LidPair>,
                            names: seq<ChatName>, limit: int)
    requires ValidIndex(index) && ValidNames(names) && SameConversations(Undirected, rows, rows', index)
    ensures Map(UndirectedChat, ListChats(rows, tenant, index, names, limit)) ==
            Map(UndirectedChat, ListChats(rows', tenant, index, names, limit))
  {
    SameUndirectedEntries(rows, rows', tenant, index, names);
    ListErases(rows, tenant, index, names, limit);
    ListErases(rows', tenant, index, names, limit);
  }

  lemma ListErases(rows: seq<Message>, tenant: string, index: seq<LidPair>, names: seq<ChatName>, limit: int)
    ensures Map(UndirectedChat, ListChats(rows, tenant, index, names, limit)) ==
            Limit(Sort(Group(Map(UndirectedEntry, Entries(rows, tenant, index, names))), ChatBefore), NormalizeLimit(limit))
  {
    var entries := Entries(rows, tenant, index, names);
    GroupErases(entries);
    MapSort(UndirectedChat, Group(entries), ChatBefore, ChatBefore);
    MapLimit(UndirectedChat, Chats(rows, tenant, index, names), NormalizeLimit(limit));
  }

  lemma SameUndirectedEntries(rows: seq<Message>, rows': seq<Message>, tenant: string, index: seq<LidPair>, names: seq<ChatName>)
    requires ValidIndex(index) && ValidNames(names) && SameConversations(Undirected, rows, rows', index)
    ensures Map(UndirectedEntry, Entries(rows, tenant, index, names)) ==
            Map(UndirectedEntry, Entries(rows', tenant, index, names))
  {
    var f := (m: Message) => UndirectedEntry(EntryOf(m, index, names));
    EntriesAreTheRows(rows, tenant, index, names);
    EntriesAreTheRows(rows', tenant, index, names);
    forall i | 0 <= i < |rows| ensures f(rows[i]) == f(rows'[i]) {
      assert Undirected(rows[i]).id == rows[i].id && Undirected(rows'[i]).id == rows'[i].id;
      assert Undirected(rows[i]).body == rows[i].body && Undirected(rows'[i]).body == rows'[i].body;
    }
    FilterMap(OfTenant(tenant), f, rows, OfTenant(tenant), f, rows');
    assert Map(UndirectedEntry, Map(ToEntry(index, names), TenantRows(rows, tenant))) == Map(f, TenantRows(rows, tenant));
    assert Map(UndirectedEntry, Map(ToEntry(index, names), TenantRows(rows', tenant))) == Map(f, TenantRows(rows', tenant));
  }

  // ---------------------------------------------------------------- SearchChats

  /** The WHERE clause of SearchChats: either address of the chat or of the sender. */
  predicate SearchHit(m: Message, index: seq<LidPair>, pattern: string) {
    || Like.Like(pattern, Projected(index, m.chat)) || Like.Like(pattern, m.chat)
    || Like.Like(pattern, Projected(index, m.sender)) || Like.Like(pattern, m.sender)
  }

  function Hits(index: seq<LidPair>, query: string): Message -> bool {
    (m: Message) => SearchHit(m, index, Like.SubstringPattern(query))
  }

  function SearchedChats(rows: seq<Message>, tenant: string, index: seq<LidPair>, query: string): seq<Summary> {
    Sort(Group(Entries(Filter(Hits(index, query), rows), tenant, index, [])), ChatBefore)
  }

  function ChatAddress(c: Summary): string { c.chat }

  function SearchChats(rows: seq<Message>, tenant: string, index: seq<LidPair>, query: string, limit: int): seq<string> {
    var trimmed := TrimSpace(query);
    if trimmed == "" then []
    else Limit(Map(ChatAddress, SearchedChats(rows, tenant, index, trimmed)), NormalizeLimit(limit))
  }

  /** The query occurs, up to ASCII case, in one of the four addresses of the row. */
  ghost predicate Mentions(m: Message, index: seq<LidPair>, query: string) {
    || ContainsFold(Projected(index, m.chat), query) || ContainsFold(m.chat, query)
    || ContainsFold(Projected(index, m.sender), query) || ContainsFold(m.sender, query)
  }

  /** Before the limit, a conversation is found exactly when one of its messages mentions the
      query literally, and it is found once, under its canonical address. */
  lemma SearchFindsConversations(rows: seq<Message>, tenant: string, index: seq<LidPair>, query: string, chat: string)
    requires ValidIndex(index)
    ensures chat in Map(ChatAddress, SearchedChats(rows, tenant, index, query)) <==>
            exists m :: m in ConversationRows(rows, tenant, index, chat) && Mentions(m, index, query)
    ensures var found := Map(ChatAddress, SearchedChats(rows, tenant, index, query));
            forall i, j :: 0 <= i < j < |found| ==> found[i] != found[j]
  {
    var found := SearchedChats(rows, tenant, index, query);
    ListChatsPartitions(Filter(Hits(index, query), rows), tenant, index, []);
    if chat in Map(ChatAddress, found) {
      var i :| 0 <= i < |found| && found[i].chat == chat;
      FoundIsMentioned(rows, tenant, index, query, found[i]);
    }
    if m :| m in ConversationRows(rows, tenant, index, chat) && Mentions(m, index, query) {
      MentionedIsFound(rows, tenant, index, query, chat, m);
    }
  }

  lemma FoundIsMentioned(rows: seq<Message>, tenant: string, index: seq<LidPair>, query: string, c: Summary)
    requires ValidIndex(index)
    requires c in SearchedChats(rows, tenant, index, query)
    ensures exists m :: m in ConversationRows(rows, tenant, index, c.chat) && Mentions(m, index, query)
  {
    var hits := Filter(Hits(index, query), rows);
    ListChatsPartitions(hits, tenant, index, []);
    assert c in Chats(hits, tenant, index, []);
    var own := ConversationRows(hits, tenant, index, c.chat);
    FilterMember(InConversation(tenant, index, c.chat), hits, own[0]);
    HitMentions(rows, tenant, index, query, c.chat, own[0]);
  }

  lemma MentionedIsFound(rows: seq<Message>, tenant: string, index: seq<LidPair>, query: string, chat: string, m: Message)
    requires ValidIndex(index)
    requires m in ConversationRows(rows, tenant, index, chat) && Mentions(m, index, query)
    ensures chat in Map(ChatAddress, SearchedChats(rows, tenant, index, query))
  {
    var hits := Filter(Hits(index, query), rows);
    var found := SearchedChats(rows, tenant, index, query);
    HitMentions(rows, tenant, index, query, chat, m);
    EveryRowIsListed(hits, tenant, index, [], m);
    assert found == Chats(hits, tenant, index, []);
    var c :| c in found && c.chat == chat;
    var i :| 0 <= i < |found| && found[i] == c;
    assert Map(ChatAddress, found)[i] == chat;
  }

  lemma HitMentions(rows: seq<Message>, tenant: string, index: seq<LidPair>, query: string, chat: string, m: Message)
    ensures m in Filter(Hits(index, query), rows) && InConversation(tenant, index, chat)(m) <==>
            m in ConversationRows(rows, tenant, index, chat) && Mentions(m, index, query)
  {
    FilterMember(Hits(index, query), rows, m);
    FilterMember(InConversation(tenant, index, chat), rows, m);
    Like.SubstringIsLiteral(query, Projected(index, m.chat));
    Like.SubstringIsLiteral(query, m.chat);
    Like.SubstringIsLiteral(query, Projected(index, m.sender));
    Like.SubstringIsLiteral(query, m.sender);
  }
}
