/**
 The queries over the messages table, as functions of its rows, and what they
 promise: every reader sees one conversation per person, and the same ones.
 */
module Conversations {
  import opened Text
  import opened Sorting
  import opened Addresses
  import opened Messages

  // ---------------------------------------------------------------- table order

  predicate Recent(time: int, id: string, time': int, id': string) {
    time > time' || (time == time' && Less(id', id))
  }

  /** ORDER BY timestamp DESC, id DESC */
  predicate Newer(a: Message, b: Message) {
    Recent(a.timestamp, a.id, b.timestamp, b.id)
  }

  /** ORDER BY timestamp ASC, id ASC */
  predicate Older(a: Message, b: Message) { Newer(b, a) }

  /** Rows with one id are one row: what is left of the primary key once rows are picked out. */
  ghost predicate DistinctIds(rows: seq<Message>) {
    forall a, b :: a in rows && b in rows && a.id == b.id ==> a == b
  }

  lemma RecentIsAnOrder(t1: int, i1: string, t2: int, i2: string, t3: int, i3: string)
    ensures (t1 == t2 && i1 == i2) || Recent(t1, i1, t2, i2) || Recent(t2, i2, t1, i1)
    ensures !(Recent(t1, i1, t2, i2) && Recent(t2, i2, t1, i1))
    ensures Recent(t1, i1, t2, i2) && Recent(t2, i2, t3, i3) ==> Recent(t1, i1, t3, i3)
  {
    LessIsTotal(i1, i2);
    if Less(i3, i2) && Less(i2, i1) {
      LessIsTransitive(i3, i2, i1);
    }
  }

  lemma NewerOrders(rows: seq<Message>)
    requires DistinctIds(rows)
    ensures Orders(Newer, rows) && Orders(Older, rows)
  {
    forall a, b, c | a in rows && b in rows && c in rows
      ensures a == b || Newer(a, b) || Newer(b, a)
      ensures Newer(a, b) ==> !Newer(b, a)
      ensures Newer(a, b) && Newer(b, c) ==> Newer(a, c) {
      RecentIsAnOrder(a.timestamp, a.id, b.timestamp, b.id, c.timestamp, c.id);
    }
  }

  // -------------------------------------------------------- one conversation

  function OfTenant(tenant: string): Message -> bool {
    (m: Message) => m.tenant == tenant
  }

  function AskedFor(tenant: string, aliases: seq<string>): Message -> bool {
    (m: Message) => m.tenant == tenant && m.chat in aliases
  }

  function InConversation(tenant: string, index: seq<LidPair>, chat: string): Message -> bool {
    (m: Message) => m.tenant == tenant && Projected(index, m.chat) == chat
  }

  /** WHERE tenant_id = ? AND chat_jid IN (aliases) */
  function Selected(rows: seq<Message>, tenant: string, aliases: seq<string>): seq<Message> {
    Filter(AskedFor(tenant, aliases), rows)
  }

  /** The rows whose stored address reads as `chat`. */
  function ConversationRows(rows: seq<Message>, tenant: string, index: seq<LidPair>, chat: string): seq<Message> {
    Filter(InConversation(tenant, index, chat), rows)
  }

  function NormalizeLimit(limit: int): nat {
    if limit <= 0 then 50 else if limit > 500 then 500 else limit
  }

  function Page(rows: seq<Message>): seq<Message> { Sort(rows, Newer) }

  function ListByChat(rows: seq<Message>, tenant: string, index: seq<LidPair>, query: string, limit: int): seq<Message> {
    Limit(Page(Selected(rows, tenant, Aliases(index, query))), NormalizeLimit(limit))
  }

  /** ORDER BY timestamp ASC, id ASC LIMIT 1, kept while scanning. */
  function Oldest(rows: seq<Message>): Option<Message> {
    if rows == [] then None
    else
      var last := rows[|rows| - 1];
      match Oldest(rows[..|rows| - 1])
      case None => Some(last)
      case Some(sofar) => Some(if Older(last, sofar) then last else sofar)
  }

  function OldestByChat(rows: seq<Message>, tenant: string, index: seq<LidPair>, query: string): Option<Message> {
    Oldest(Selected(rows, tenant, Aliases(index, query)))
  }

  lemma {:induction false} OldestIsLeast(rows: seq<Message>)
    requires DistinctIds(rows)
    ensures Oldest(rows).None? <==> rows == []
    ensures Oldest(rows).Some? ==>
              Oldest(rows).value in rows && Leads(Oldest(rows).value, rows, Older)
  {
    if rows != [] {
      var init, last := rows[..|rows| - 1], rows[|rows| - 1];
      assert rows == init + [last];
      assert forall e :: e in init ==> e in rows;
      OldestIsLeast(init);
      if Oldest(init).Some? {
        OlderOfTwo(init, Oldest(init).value, last);
      } else {
        OlderOfTwo([], last, last);
      }
    }
  }

  lemma OlderOfTwo(init: seq<Message>, sofar: Message, last: Message)
    requires Leads(sofar, init, Older)
    ensures Leads(if Older(last, sofar) then last else sofar, init + [last], Older)
  {
    forall e | e in init + [last] ensures !Older(e, if Older(last, sofar) then last else sofar) {
      assert e in init || e == last;
      RecentIsAnOrder(sofar.timestamp, sofar.id, last.timestamp, last.id, e.timestamp, e.id);
      RecentIsAnOrder(last.timestamp, last.id, e.timestamp, e.id, last.timestamp, last.id);
    }
  }

  /** The oldest message is the last of the full page. */
  lemma OldestEndsThePage(rows: seq<Message>)
    requires DistinctIds(rows) && rows != []
    ensures Page(rows) != [] && Oldest(rows) == Some(Page(rows)[|Page(rows)| - 1])
  {
    var page := Page(rows);
    NewerOrders(rows);
    SortIsSorted(rows, Newer);
    SortKeeps(rows, Newer);
    var last := page[|page| - 1];
    SortMember(rows, Newer, last);
    SortedLast(page, Newer);
    OldestIsLeast(rows);
    SortMember(rows, Newer, Oldest(rows).value);
    assert !Newer(last, Oldest(rows).value) && !Older(last, Oldest(rows).value);
  }

  lemma SelectedMember(rows: seq<Message>, tenant: string, aliases: seq<string>, m: Message)
    ensures m in Selected(rows, tenant, aliases) <==> m in rows && m.tenant == tenant && m.chat in aliases
  {
    FilterMember(AskedFor(tenant, aliases), rows, m);
  }

  lemma DistinctSelected(rows: seq<Message>, tenant: string, aliases: seq<string>)
    requires DistinctIds(rows)
    ensures DistinctIds(Selected(rows, tenant, aliases))
  {
    forall a, b | a in Selected(rows, tenant, aliases) && b in Selected(rows, tenant, aliases) && a.id == b.id
      ensures a == b {
      SelectedMember(rows, tenant, aliases, a);
      SelectedMember(rows, tenant, aliases, b);
    }
  }

  /** A query by any form of an address selects the whole conversation and nothing else. */
  lemma {:induction false} QueryReadsTheConversation(rows: seq<Message>, tenant: string, index: seq<LidPair>, query: string)
    requires ValidIndex(index)
    ensures Selected(rows, tenant, Aliases(index, query)) ==
            ConversationRows(rows, tenant, index, ReadForm(index, query))
  {
    if rows != [] {
      QueryReadsTheConversation(rows[..|rows| - 1], tenant, index, query);
      AliasesAreTheConversation(index, query, rows[|rows| - 1].chat);
    }
  }

  // ------------------------------------------------------ the list of conversations

  /** A row of the chats table: the cached name of one conversation of one tenant. */
  datatype ChatName = ChatName(tenant: string, chat: string, name: string)

  ghost predicate ValidNames(names: seq<ChatName>) {
    forall i, j :: 0 <= i < j < |names| ==> names[i].tenant != names[j].tenant || names[i].chat != names[j].chat
  }

  /** ON chats.tenant_id = ? AND chats.chat_jid = ? */
  function NameMatches(names: seq<ChatName>, tenant: string, chat: string): seq<Option<string>> {
    if names == [] then []
    else (if names[0].tenant == tenant && names[0].chat == chat then [Some(names[0].name)] else [])
         + NameMatches(names[1..], tenant, chat)
  }

  function NameJoin(names: seq<ChatName>, tenant: string, chat: string): (r: seq<Option<string>>)
    ensures r != []
  {
    var matched := NameMatches(names, tenant, chat);
    if matched == [] then [None] else matched
  }

  /** The name this tenant wrote for the conversation. */
  function NameOf(names: seq<ChatName>, tenant: string, chat: string): (r: Option<string>)
    ensures r.Some? ==> ChatName(tenant, chat, r.value) in names
  {
    if names == [] then None
    else if names[0].tenant == tenant && names[0].chat == chat then Some(names[0].name)
    else NameOf(names[1..], tenant, chat)
  }

  lemma {:induction false} NameJoinIsOneRow(names: seq<ChatName>, tenant: string, chat: string)
    requires ValidNames(names)
    ensures NameJoin(names, tenant, chat) == [NameOf(names, tenant, chat)]
    ensures |NameMatches(names, tenant, chat)| == if NameOf(names, tenant, chat).Some? then 1 else 0
  {
    if names != [] {
      var rest := names[1..];
      NameJoinIsOneRow(rest, tenant, chat);
      FirstNameIsAlone(names, NameOf(rest, tenant, chat));
    }
  }

  lemma FirstNameIsAlone(names: seq<ChatName>, other: Option<string>)
    requires ValidNames(names) && names != []
    ensures other.Some? ==> ChatName(names[0].tenant, names[0].chat, other.value) !in names[1..]
  {
    forall n | n in names[1..] ensures n.tenant != names[0].tenant || n.chat != names[0].chat {
      var j :| 0 <= j < |names[1..]| && names[1..][j] == n;
      assert names[j + 1] == n;
    }
  }

  /** What the inner query projects of one joined row. */
  datatype Entry = Entry(key: string, name: Option<string>, time: int, id: string, body: string, direction: Direction)

  function NamedEntries(m: Message, key: string, joined: seq<Option<string>>): seq<Entry> {
    seq(|joined|, i requires 0 <= i < |joined| => Entry(key, joined[i], m.timestamp, m.id, m.body, m.direction))
  }

  /** Both LEFT JOINs over one row: an entry per match of either. */
  function JoinedRow(m: Message, pns: seq<Option<string>>, names: seq<ChatName>): seq<Entry> {
    if pns == [] then []
    else
      var key := Coalesce(pns[0], m.chat);
      NamedEntries(m, key, NameJoin(names, m.tenant, key)) + JoinedRow(m, pns[1..], names)
  }

  function Entries(rows: seq<Message>, tenant: string, index: seq<LidPair>, names: seq<ChatName>): seq<Entry> {
    if rows == [] then []
    else
      var m := rows[|rows| - 1];
      Entries(rows[..|rows| - 1], tenant, index, names)
      + if m.tenant == tenant then JoinedRow(m, LeftJoin(index, m.chat), names) else []
  }

  /** The one entry a row contributes on a well-formed database. */
  function EntryOf(m: Message, index: seq<LidPair>, names: seq<ChatName>): Entry {
    var key := Projected(index, m.chat);
    Entry(key, NameOf(names, m.tenant, key), m.timestamp, m.id, m.body, m.direction)
  }

  function ToEntry(index: seq<LidPair>, names: seq<ChatName>): Message -> Entry {
    (m: Message) => EntryOf(m, index, names)
  }

  lemma JoinsKeepRows(m: Message, index: seq<LidPair>, names: seq<ChatName>)
    requires ValidIndex(index) && ValidNames(names)
    ensures JoinedRow(m, LeftJoin(index, m.chat), names) == [EntryOf(m, index, names)]
  {
    LeftJoinIsOneRow(index, m.chat);
    NameJoinIsOneRow(names, m.tenant, Projected(index, m.chat));
  }

  function TenantRows(rows: seq<Message>, tenant: string): seq<Message> {
    Filter(OfTenant(tenant), rows)
  }

  /** Neither join drops or repeats a row: the entries are the tenant's rows, one for one. */
  lemma {:induction false} EntriesAreTheRows(rows: seq<Message>, tenant: string, index: seq<LidPair>, names: seq<ChatName>)
    requires ValidIndex(index) && ValidNames(names)
    ensures Entries(rows, tenant, index, names) ==
            Map(ToEntry(index, names), TenantRows(rows, tenant))
  {
    if rows != [] {
      var init, m := rows[..|rows| - 1], rows[|rows| - 1];
      EntriesAreTheRows(init, tenant, index, names);
      JoinsKeepRows(m, index, names);
      if m.tenant == tenant {
        MapInit(ToEntry(index, names), TenantRows(init, tenant), m);
      }
    }
  }

  // ------------------------------------------------------------------- grouping

  datatype Summary = Summary(
    chat: string, name: Option<string>, time: int, id: string, body: string, direction: Direction, count: nat)

  predicate NewerEntry(a: Entry, b: Entry) { Recent(a.time, a.id, b.time, b.id) }

  function SummaryOf(e: Entry, count: nat): Summary {
    Summary(e.key, e.name, e.time, e.id, e.body, e.direction, count)
  }

  function Find(groups: seq<Summary>, key: string): (i: int)
    ensures -1 <= i < |groups|
    ensures i >= 0 ==> groups[i].chat == key
    ensures i < 0 ==> forall g :: g in groups ==> g.chat != key
  {
    if groups == [] then -1
    else if groups[|groups| - 1].chat == key then |groups| - 1
    else Find(groups[..|groups| - 1], key)
  }

  /** One more row of a partition: the count grows, the newest row stands for it. */
  function Merge(g: Summary, e: Entry): Summary {
    if Recent(e.time, e.id, g.time, g.id) then SummaryOf(e, g.count + 1) else g.(count := g.count + 1)
  }

  function AddEntry(groups: seq<Summary>, e: Entry): seq<Summary> {
    var i := Find(groups, e.key);
    if i < 0 then groups + [SummaryOf(e, 1)] else groups[i := Merge(groups[i], e)]
  }

  function Group(entries: seq<Entry>): seq<Summary> {
    if entries == [] then [] else AddEntry(Group(entries[..|entries| - 1]), entries[|entries| - 1])
  }

  function Total(groups: seq<Summary>): nat {
    if groups == [] then 0 else groups[0].count + Total(groups[1..])
  }

  function WithKey(key: string): Entry -> bool {
    (e: Entry) => e.key == key
  }

  function Under(entries: seq<Entry>, key: string): seq<Entry> {
    Filter(WithKey(key), entries)
  }

  /** A summary counts its entries and shows the newest of them. */
  ghost predicate Summarises(g: Summary, entries: seq<Entry>) {
    exists e :: e in entries && g == SummaryOf(e, |entries|) && Leads(e, entries, NewerEntry)
  }

  /** The groups are a partition of the entries. */
  ghost predicate Partitions(groups: seq<Summary>, entries: seq<Entry>) {
    && (forall i, j :: 0 <= i < j < |groups| ==> groups[i].chat != groups[j].chat)
    && (forall g :: g in groups ==> Summarises(g, Under(entries, g.chat)))
    && (forall e :: e in entries ==> exists g :: g in groups && g.chat == e.key)
    && Total(groups) == |entries|
  }

  lemma {:induction false} GroupPartitions(entries: seq<Entry>)
    ensures Partitions(Group(entries), entries)
  {
    if entries != [] {
      GroupPartitions(entries[..|entries| - 1]);
      assert entries == entries[..|entries| - 1] + [entries[|entries| - 1]];
      AddEntryPartitions(Group(entries[..|entries| - 1]), entries[..|entries| - 1], entries[|entries| - 1]);
    }
  }

  lemma AddEntryPartitions(groups: seq<Summary>, entries: seq<Entry>, e: Entry)
    requires Partitions(groups, entries)
    ensures Partitions(AddEntry(groups, e), entries + [e])
  {
    var after := AddEntry(groups, e);
    forall g | g in after ensures Summarises(g, Under(entries + [e], g.chat)) {
      AddedSummarises(groups, entries, e, g);
    }
    AddedCovers(groups, entries, e);
    AddedTotal(groups, e);
    AddedDistinct(groups, e);
  }

  lemma AddedSummarises(groups: seq<Summary>, entries: seq<Entry>, e: Entry, g: Summary)
    requires Partitions(groups, entries) && g in AddEntry(groups, e)
    ensures Summarises(g, Under(entries + [e], g.chat))
  {
    var i := Find(groups, e.key);
    UnderStep(entries, e, g.chat);
    if g.chat != e.key {
      assert g in groups;
      assert Under(entries + [e], g.chat) == Under(entries, g.chat);
    } else if i < 0 {
      assert g == SummaryOf(e, 1) by { AddedIsNew(groups, e, g); }
      NoneUnder(groups, entries, e.key);
      FirstSummarises(e);
    } else {
      assert g == Merge(groups[i], e) && groups[i] in groups by { AddedIsMerged(groups, e, g); }
      MergeSummarises(groups[i], Under(entries, e.key), e);
    }
  }

  lemma AddedIsNew(groups: seq<Summary>, e: Entry, g: Summary)
    requires Find(groups, e.key) < 0 && g in AddEntry(groups, e) && g.chat == e.key
    ensures g == SummaryOf(e, 1)
  {
  }

  lemma AddedIsMerged(groups: seq<Summary>, e: Entry, g: Summary)
    requires forall i, j :: 0 <= i < j < |groups| ==> groups[i].chat != groups[j].chat
    requires Find(groups, e.key) >= 0 && g in AddEntry(groups, e) && g.chat == e.key
    ensures g == Merge(groups[Find(groups, e.key)], e)
  {
    var i := Find(groups, e.key);
    forall k | 0 <= k < |groups| && k != i ensures groups[k].chat != e.key {
      assert k < i || i < k;
    }
  }

  lemma FirstSummarises(e: Entry)
    ensures Summarises(SummaryOf(e, 1), [] + [e])
  {
    RecentIsAnOrder(e.time, e.id, e.time, e.id, e.time, e.id);
    assert e in [] + [e];
  }

  lemma AddedTotal(groups: seq<Summary>, e: Entry)
    ensures Total(AddEntry(groups, e)) == Total(groups) + 1
  {
    var i := Find(groups, e.key);
    if i < 0 {
      TotalAppend(groups, SummaryOf(e, 1));
    } else {
      TotalUpdate(groups, i, Merge(groups[i], e));
    }
  }

  lemma AddedDistinct(groups: seq<Summary>, e: Entry)
    requires forall i, j :: 0 <= i < j < |groups| ==> groups[i].chat != groups[j].chat
    ensures var after := AddEntry(groups, e); forall i, j :: 0 <= i < j < |after| ==> after[i].chat != after[j].chat
  {
    var after := AddEntry(groups, e);
    forall i, j | 0 <= i < j < |after| ensures after[i].chat != after[j].chat {
      if j < |groups| {
        assert after[i].chat == groups[i].chat && after[j].chat == groups[j].chat;
      } else {
        assert groups[i] in groups;
      }
    }
  }

  lemma AddedCovers(groups: seq<Summary>, entries: seq<Entry>, e: Entry)
    requires forall x :: x in entries ==> exists g :: g in groups && g.chat == x.key
    ensures forall x :: x in entries + [e] ==> exists g :: g in AddEntry(groups, e) && g.chat == x.key
  {
    var i, after := Find(groups, e.key), AddEntry(groups, e);
    forall x | x in entries + [e] ensures exists g :: g in after && g.chat == x.key {
      if x.key == e.key {
        assert after[if i < 0 then |groups| else i] in after;
      } else {
        var g :| g in groups && g.chat == x.key;
        var k :| 0 <= k < |groups| && groups[k] == g;
        assert after[k] == g;
      }
    }
  }

  lemma NoneUnder(groups: seq<Summary>, entries: seq<Entry>, key: string)
    requires Partitions(groups, entries)
    requires forall g :: g in groups ==> g.chat != key
    ensures Under(entries, key) == []
  {
    var own := Under(entries, key);
    if own != [] {
      FilterMember(WithKey(key), entries, own[0]);
    }
  }

  lemma MergeSummarises(g: Summary, own: seq<Entry>, e: Entry)
    requires Summarises(g, own) && g.chat == e.key
    ensures Summarises(Merge(g, e), own + [e])
  {
    var newest :| newest in own && g == SummaryOf(newest, |own|) && Leads(newest, own, NewerEntry);
    var top := if NewerEntry(e, newest) then e else newest;
    assert top in own + [e] && Merge(g, e) == SummaryOf(top, |own| + 1);
    forall x | x in own + [e] ensures !NewerEntry(x, top) {
      assert x in own || x == e;
      RecentIsAnOrder(x.time, x.id, e.time, e.id, newest.time, newest.id);
      RecentIsAnOrder(e.time, e.id, e.time, e.id, e.time, e.id);
    }
  }

  lemma {:induction false} TotalUpdate(groups: seq<Summary>, i: nat, g: Summary)
    requires i < |groups|
    ensures Total(groups[i := g]) == Total(groups) - groups[i].count + g.count
  {
    if i == 0 {
      assert groups[i := g][1..] == groups[1..];
    } else {
      TotalUpdate(groups[1..], i - 1, g);
      assert groups[i := g][1..] == groups[1..][i - 1 := g];
    }
  }

  lemma {:induction false} TotalAppend(groups: seq<Summary>, g: Summary)
    ensures Total(groups + [g]) == Total(groups) + g.count
  {
    if groups != [] {
      TotalAppend(groups[1..], g);
      assert (groups + [g])[1..] == groups[1..] + [g];
    }
  }

  // ------------------------------------------------------------------ ListChats

  /** ORDER BY timestamp DESC, chat_jid ASC */
  predicate ChatBefore(a: Summary, b: Summary) {
    a.time > b.time || (a.time == b.time && Less(a.chat, b.chat))
  }

  function Chats(rows: seq<Message>, tenant: string, index: seq<LidPair>, names: seq<ChatName>): seq<Summary> {
    Sort(Group(Entries(rows, tenant, index, names)), ChatBefore)
  }

  function ListChats(rows: seq<Message>, tenant: string, index: seq<LidPair>, names: seq<ChatName>, limit: int): seq<Summary> {
    Limit(Chats(rows, tenant, index, names), NormalizeLimit(limit))
  }

  lemma GroupsAreOrdered(groups: seq<Summary>)
    requires forall i, j :: 0 <= i < j < |groups| ==> groups[i].chat != groups[j].chat
    ensures Orders(ChatBefore, groups)
  {
    forall a, b, c | a in groups && b in groups && c in groups
      ensures a == b || ChatBefore(a, b) || ChatBefore(b, a)
      ensures ChatBefore(a, b) ==> !ChatBefore(b, a)
      ensures ChatBefore(a, b) && ChatBefore(b, c) ==> ChatBefore(a, c) {
      LessIsTotal(a.chat, b.chat);
      if Less(a.chat, b.chat) && Less(b.chat, c.chat) {
        LessIsTransitive(a.chat, b.chat, c.chat);
      }
    }
  }

  lemma {:induction false} TotalInsert(g: Summary, s: seq<Summary>)
    ensures Total(Insert(g, s, ChatBefore)) == Total(s) + g.count
  {
    if s == [] || ChatBefore(g, s[0]) {
      assert ([g] + s)[1..] == s;
    } else {
      TotalInsert(g, s[1..]);
    }
  }

  lemma {:induction false} TotalSort(s: seq<Summary>)
    ensures Total(Sort(s, ChatBefore)) == Total(s)
  {
    if s != [] {
      var init, last := s[..|s| - 1], s[|s| - 1];
      assert s == init + [last];
      TotalSort(init);
      TotalInsert(last, Sort(init, ChatBefore));
      TotalAppend(init, last);
    }
  }

  /** Before the limit, ListChats is a partition of the tenant's rows, newest conversation first. */
  lemma ListChatsPartitions(rows: seq<Message>, tenant: string, index: seq<LidPair>, names: seq<ChatName>)
    requires ValidIndex(index) && ValidNames(names)
    ensures var chats := Chats(rows, tenant, index, names);
            && Total(chats) == |TenantRows(rows, tenant)|
            && Sorted(chats, ChatBefore)
            && (forall i, j :: 0 <= i < j < |chats| ==> chats[i].chat != chats[j].chat)
            && (forall c :: c in chats ==> c.count == |ConversationRows(rows, tenant, index, c.chat)| > 0)
            && (forall c :: c in chats ==> c.name == NameOf(names, tenant, c.chat))
            && (forall m :: m in rows && m.tenant == tenant ==> exists c :: c in chats && c.chat == Projected(index, m.chat))
  {
    var entries := Entries(rows, tenant, index, names);
    var groups, chats := Group(entries), Chats(rows, tenant, index, names);
    GroupPartitions(entries);
    GroupsAreOrdered(groups);
    SortIsSorted(groups, ChatBefore);
    SortKeeps(groups, ChatBefore);
    TotalSort(groups);
    EntriesAreTheRows(rows, tenant, index, names);
    DistinctChats(groups, chats);
    forall c | c in chats
      ensures c.count == |ConversationRows(rows, tenant, index, c.chat)| > 0
      ensures c.name == NameOf(names, tenant, c.chat) {
      SortMember(groups, ChatBefore, c);
      GroupHoldsTheConversation(rows, tenant, index, names, c);
    }
    forall m | m in rows && m.tenant == tenant ensures exists c :: c in chats && c.chat == Projected(index, m.chat) {
      EveryRowIsListed(rows, tenant, index, names, m);
    }
  }

  lemma EveryRowIsListed(rows: seq<Message>, tenant: string, index: seq<LidPair>, names: seq<ChatName>, m: Message)
    requires ValidIndex(index) && ValidNames(names)
    requires m in rows && m.tenant == tenant
    ensures exists c :: c in Chats(rows, tenant, index, names) && c.chat == Projected(index, m.chat)
  {
    var entries := Entries(rows, tenant, index, names);
    var own := TenantRows(rows, tenant);
    EntriesAreTheRows(rows, tenant, index, names);
    GroupPartitions(entries);
    FilterMember(OfTenant(tenant), rows, m);
    var i :| 0 <= i < |own| && own[i] == m;
    assert entries[i] in entries;
    var g :| g in Group(entries) && g.chat == entries[i].key;
    SortMember(Group(entries), ChatBefore, g);
  }

  lemma DistinctChats(s: seq<Summary>, t: seq<Summary>)
    requires Permutation(s, t)
    requires forall i, j :: 0 <= i < j < |s| ==> s[i].chat != s[j].chat
    ensures forall i, j :: 0 <= i < j < |t| ==> t[i].chat != t[j].chat
  {
    PermutationMembers(s, t);
    forall i, j | 0 <= i < j < |t| ensures t[i].chat != t[j].chat {
      assert t[i] in s && t[j] in s;
      OneOfEach(s, t[i]);
      CountedTwice(t, i, j);
    }
  }

  lemma {:induction false} OneOfEach(s: seq<Summary>, g: Summary)
    requires forall i, j :: 0 <= i < j < |s| ==> s[i].chat != s[j].chat
    ensures multiset(s)[g] <= 1
  {
    if s != [] {
      var init, last := s[..|s| - 1], s[|s| - 1];
      assert s == init + [last];
      OneOfEach(init, g);
      assert last !in multiset(init);
    }
  }

  lemma CountedTwice(t: seq<Summary>, i: nat, j: nat)
    requires i < j < |t|
    ensures t[i] == t[j] ==> multiset(t)[t[i]] >= 2
  {
    assert t == t[..j] + [t[j]] + t[j + 1..];
    assert t[..j][i] in multiset(t[..j]);
  }

  lemma EntriesUnder(rows: seq<Message>, tenant: string, index: seq<LidPair>, names: seq<ChatName>, key: string)
    requires ValidIndex(index) && ValidNames(names)
    ensures Under(Entries(rows, tenant, index, names), key) ==
            Map(ToEntry(index, names), ConversationRows(rows, tenant, index, key))
  {
    UnderMapped(rows, tenant, index, names, key);
    EntriesAreTheRows(rows, tenant, index, names);
  }

  lemma {:induction false} UnderMapped(rows: seq<Message>, tenant: string, index: seq<LidPair>, names: seq<ChatName>, key: string)
    ensures Under(Map(ToEntry(index, names), TenantRows(rows, tenant)), key) ==
            Map(ToEntry(index, names), ConversationRows(rows, tenant, index, key))
  {
    if rows != [] {
      var init, m := rows[..|rows| - 1], rows[|rows| - 1];
      UnderMapped(init, tenant, index, names, key);
      assert rows == init + [m];
      var f := ToEntry(index, names);
      FilterStep(InConversation(tenant, index, key), init, m);
      FilterStep(OfTenant(tenant), init, m);
      if m.tenant == tenant {
        MapInit(f, TenantRows(init, tenant), m);
        UnderStep(Map(f, TenantRows(init, tenant)), f(m), key);
        if f(m).key == key {
          MapInit(f, ConversationRows(init, tenant, index, key), m);
        }
      } else {
        assert TenantRows(rows, tenant) == TenantRows(init, tenant);
        assert ConversationRows(rows, tenant, index, key) == ConversationRows(init, tenant, index, key);
      }
    }
  }

  lemma UnderStep(entries: seq<Entry>, e: Entry, key: string)
    ensures Under(entries + [e], key) == Under(entries, key) + (if e.key == key then [e] else [])
  {
    FilterStep(WithKey(key), entries, e);
  }

  /** A chat of the list is exactly the conversation of its address. */
  lemma GroupHoldsTheConversation(
      rows: seq<Message>, tenant: string, index: seq<LidPair>, names: seq<ChatName>, c: Summary)
    requires ValidIndex(index) && ValidNames(names)
    requires c in Group(Entries(rows, tenant, index, names))
    ensures var own := ConversationRows(rows, tenant, index, c.chat);
            && c.count == |own| > 0
            && c.name == NameOf(names, tenant, c.chat)
            && exists m :: m in own && Leads(m, own, Newer) && Shows(c, m)
  {
    var entries := Entries(rows, tenant, index, names);
    var own := ConversationRows(rows, tenant, index, c.chat);
    GroupPartitions(entries);
    EntriesUnder(rows, tenant, index, names, c.chat);
    var under := Under(entries, c.chat);
    var e :| e in under && c == SummaryOf(e, |under|) && Leads(e, under, NewerEntry);
    var i :| 0 <= i < |under| && under[i] == e;
    var m := own[i];
    FilterMember(InConversation(tenant, index, c.chat), rows, m);
    forall x | x in own ensures !Newer(x, m) {
      var j :| 0 <= j < |own| && own[j] == x;
      assert under[j] in under;
    }
  }

  /** What a summary tells of its last message. */
  predicate Shows(c: Summary, m: Message) {
    c.time == m.timestamp && c.id == m.id && c.body == m.body && c.direction == m.direction
  }

  /** Listing, paging and anchoring tell one story, whichever address is asked. */
  lemma ReadersAgree(
      rows: seq<Message>, tenant: string, index: seq<LidPair>, names: seq<ChatName>, query: string)
    requires ValidIndex(index) && ValidNames(names) && DistinctIds(rows)
    ensures var own := Selected(rows, tenant, Aliases(index, query));
            var chats := Chats(rows, tenant, index, names);
            && own == ConversationRows(rows, tenant, index, ReadForm(index, query))
            && |Page(own)| == |own|
            && (own == [] <==> forall c :: c in chats ==> c.chat != ReadForm(index, query))
            && (forall c :: c in chats && c.chat == ReadForm(index, query) ==> own != [] && c.count == |own| && Shows(c, Page(own)[0]))
            && (own != [] ==> OldestByChat(rows, tenant, index, query) == Some(Page(own)[|own| - 1]))
  {
    var own := Selected(rows, tenant, Aliases(index, query));
    var chats := Chats(rows, tenant, index, names);
    var key := ReadForm(index, query);
    QueryReadsTheConversation(rows, tenant, index, query);
    DistinctSelected(rows, tenant, Aliases(index, query));
    SortKeeps(own, Newer);
    forall c | c in chats && c.chat == key ensures own != [] && c.count == |own| && Shows(c, Page(own)[0]) {
      SortMember(Group(Entries(rows, tenant, index, names)), ChatBefore, c);
      GroupHoldsTheConversation(rows, tenant, index, names, c);
      var m :| m in own && Leads(m, own, Newer) && Shows(c, m);
      PageStartsWith(own, m);
    }
    if own != [] {
      OldestEndsThePage(own);
      SelectedMember(rows, tenant, Aliases(index, query), own[0]);
      AliasesAreTheConversation(index, query, own[0].chat);
      ListChatsPartitions(rows, tenant, index, names);
    }
  }

  lemma PageStartsWith(rows: seq<Message>, m: Message)
    requires DistinctIds(rows) && m in rows && Leads(m, rows, Newer)
    ensures Page(rows) != [] && Page(rows)[0] == m
  {
    NewerOrders(rows);
    SortIsSorted(rows, Newer);
    SortKeeps(rows, Newer);
    var first := Page(rows)[0];
    SortMember(rows, Newer, first);
    SortMember(rows, Newer, m);
    assert Page(rows) == [first] + Page(rows)[1..];
  }

  /** Asking for a conversation by the very address the list reports reads it exactly
      when that address carries no device suffix. */
  lemma ListedAddressReadsBack(
      rows: seq<Message>, tenant: string, index: seq<LidPair>, names: seq<ChatName>, c: Summary)
    requires ValidIndex(index) && ValidNames(names)
    requires c in Chats(rows, tenant, index, names)
    ensures Selected(rows, tenant, Aliases(index, c.chat)) == ConversationRows(rows, tenant, index, c.chat)
            <==> NonAD(c.chat) == c.chat
  {
    QueryReadsTheConversation(rows, tenant, index, c.chat);
    SortMember(Group(Entries(rows, tenant, index, names)), ChatBefore, c);
    GroupHoldsTheConversation(rows, tenant, index, names, c);
    StoredReadsAsAsked(index, c.chat);
    var own := ConversationRows(rows, tenant, index, c.chat);
    var m := own[0];
    FilterMember(InConversation(tenant, index, c.chat), rows, m);
    FilterMember(InConversation(tenant, index, ReadForm(index, c.chat)), rows, m);
    ProjectedIsStable(index, m.chat);
  }
}
