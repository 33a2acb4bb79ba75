/**
 Why a listed conversation reads back: no write path files a device, the repair
 leaves none, so on every run that starts from a repaired table there is none.
 And what happens where that invariant is missing.
 */
module Devices {
  import opened Text
  import opened Sorting
  import opened Addresses
  import opened Messages
  import opened Conversations
  import opened Repair
  import opened Intake
  import opened Arrivals
  import opened Backfill

  /** No stored chat address carries a device. */
  ghost predicate NoDevices(rows: seq<Message>) {
    forall m :: m in rows ==> NonAD(m.chat) == m.chat
  }

  /** The user parts the event brings were split off by a parser, which keeps devices apart. */
  ghost predicate SplitCleanly(e: Event) {
    !e.Learn? ==> WellFormed(Addressee(e)) && ':' !in Addressee(e).user && ':' !in Alternative(e).user
  }

  /** The repair frees any table of devices. */
  lemma RepairFreesTheTable(rows: seq<Message>, index: seq<LidPair>, sessions: seq<Session>)
    requires ValidIndex(index)
    ensures NoDevices(RepairedRows(rows, index, sessions))
  {
    var after := RepairedRows(rows, index, sessions);
    forall m | m in after ensures NonAD(m.chat) == m.chat {
      var i :| 0 <= i < |after| && after[i] == m;
      RepairTouchesOnlyAddressing(rows, index, sessions, i);
      RepairLeavesNoDevice(index, rows[i].chat);
    }
  }

  lemma RecordCarriesNoDevice(e: Event, scope: Scope, index: seq<LidPair>, final: seq<LidPair>, m: Message)
    requires !e.Learn? && SplitCleanly(e) && ValidIndex(final) && forall p :: p in index ==> p in final
    requires m in RowsOf(e, scope, index)
    ensures NonAD(m.chat) == m.chat
  {
    FiledCarriesNoDevice(LookupOf(e, index), final, Addressee(e), Alternative(e));
    if e.History? {
      HistoryRowSays(e.tenant, e.own, FiledUnder(e, index), scope, e.messages, e.now, LookupOf(e, index), m);
    }
  }

  lemma {:induction false} PreparedChats(batch: seq<Message>, newIds: seq<string>, now: int, i: nat)
    requires |newIds| == |batch| && i < |batch| && PrepareAll(batch, newIds, now).Ok?
    ensures PrepareAll(batch, newIds, now).value[i].chat == batch[i].chat
    decreases |batch|
  {
    var n := |batch| - 1;
    if i < n {
      PreparedChats(batch[..n], newIds[..n], now, i);
    }
  }

  lemma StoreKeepsChats(rows: seq<Message>, tenants: set<string>, batch: seq<Message>, now: int)
    requires NoDevices(rows) && NoDevices(batch)
    ensures NoDevices(Store(rows, tenants, batch, now))
  {
    forall m | m in Store(rows, tenants, batch, now) && m !in rows ensures NonAD(m.chat) == m.chat {
      var prepared := PrepareAll(batch, IdsOf(batch), now).value;
      NewRowsComeFromTheBatch(rows, tenants, prepared, m);
      var b :| b in prepared && m == Stored(b);
      var i :| 0 <= i < |prepared| && prepared[i] == b;
      PreparedChats(batch, IdsOf(batch), now, i);
      assert batch[i] in batch;
    }
  }

  /** Over every run of live, history and send writes with a growing index, no stored chat ever
      carries a device, as long as none did at the start. */
  lemma {:induction false} RunKeepsDevicesOut(w: World, tenants: set<string>, scope: Scope, events: seq<Event>, final: seq<LidPair>)
    requires NoDevices(w.rows) && ValidIndex(final) && Run(w, tenants, scope, events).index <= final
    requires forall e :: e in events ==> SplitCleanly(e)
    ensures NoDevices(Run(w, tenants, scope, events).rows)
  {
    if events != [] {
      var init, e := events[..|events| - 1], events[|events| - 1];
      assert events == init + [e];
      var sofar := Run(w, tenants, scope, init);
      RunKeepsDevicesOut(w, tenants, scope, init, final);
      if !e.Learn? {
        var batch := RowsOf(e, scope, sofar.index);
        forall m | m in batch ensures NonAD(m.chat) == m.chat {
          RecordCarriesNoDevice(e, scope, sofar.index, final, m);
        }
        StoreKeepsChats(sofar.rows, tenants, batch, e.now);
      }
    }
  }

  /** So every conversation ListChats reports after such a run reads back in full under the very
      address it is reported with. */
  lemma EveryListedChatReadsBack(
      w: World, tenants: set<string>, scope: Scope, events: seq<Event>, tenant: string, names: seq<ChatName>, c: Summary)
    requires NoDevices(w.rows) && ValidNames(names)
    requires ValidIndex(Run(w, tenants, scope, events).index)
    requires forall e :: e in events ==> SplitCleanly(e)
    requires c in Chats(Run(w, tenants, scope, events).rows, tenant, Run(w, tenants, scope, events).index, names)
    ensures var end := Run(w, tenants, scope, events);
            var own := Selected(end.rows, tenant, Aliases(end.index, c.chat));
            own == ConversationRows(end.rows, tenant, end.index, c.chat) && |own| == c.count > 0
  {
    var end := Run(w, tenants, scope, events);
    RunKeepsDevicesOut(w, tenants, scope, events, end.index);
    SortMember(Group(Entries(end.rows, tenant, end.index, names)), ChatBefore, c);
    GroupHoldsTheConversation(end.rows, tenant, end.index, names, c);
    var m := ConversationRows(end.rows, tenant, end.index, c.chat)[0];
    FilterMember(InConversation(tenant, end.index, c.chat), end.rows, m);
    ProjectedIsStable(end.index, m.chat);
    ListedAddressReadsBack(end.rows, tenant, end.index, names, c);
  }

  // ------------------------------------------------------------- without the invariant

  /** A table of one row filed under the fifth device of a number: its conversation is listed under
      that address, and neither that address nor the number finds it. */
  lemma DeviceRowIsListedButNotFound(m: Message)
    requires m.chat == Render("57:5", PHONE)
    ensures exists c :: c in Chats([m], m.tenant, [], []) && c.chat == m.chat
    ensures ConversationRows([m], m.tenant, [], m.chat) == [m]
    ensures Selected([m], m.tenant, Aliases([], m.chat)) == []
    ensures Selected([m], m.tenant, Aliases([], Render("57", PHONE))) == []
  {
    assert "57" + ":" + "5" == "57:5";
    DeviceIsDropped("57", "5");
    RowOfOne(m, m.chat);
    EveryRowIsListed([m], m.tenant, [], [], m);
    NotFoundUnder(m, m.chat);
    NotFoundUnder(m, Render("57", PHONE));
  }

  lemma NotFoundUnder(m: Message, query: string)
    requires NonAD(query) != m.chat
    ensures Selected([m], m.tenant, Aliases([], query)) == []
  {
    RowOfOne(m, NonAD(query));
    RowOfOne(m, query);
    QueryReadsTheConversation([m], m.tenant, [], query);
  }

  lemma RowOfOne(m: Message, chat: string)
    ensures Projected([], m.chat) == m.chat && ReadForm([], chat) == NonAD(chat)
    ensures ConversationRows([m], m.tenant, [], chat) == if m.chat == chat then [m] else []
  {
    var here := InConversation(m.tenant, [], chat);
    FilterStep(here, [], m);
    assert [] + [m] == [m] && Filter(here, []) == [];
  }

  lemma DeviceIsDropped(user: string, device: string)
    requires Bare(user) && '@' !in device
    ensures NonAD(Render(user + ":" + device, PHONE)) == Render(user, PHONE) == NonAD(Render(user, PHONE))
    ensures Render(user + ":" + device, PHONE) != Render(user, PHONE)
  {
    SplitWithDevice(user, device, PHONE);
    SplitRender(user, PHONE);
    assert |Render(user + ":" + device, PHONE)| > |Render(user, PHONE)|;
  }

  lemma SplitWithDevice(user: string, device: string, server: string)
    requires Bare(user) && '@' !in device && server != ""
    ensures SplitAddress(Render(user + ":" + device, server)) == Some(Named(user, server))
  {
    var full := user + ":" + device;
    CutAt(full, '@', server);
    CutAt(user, ':', device);
    assert Render(full, server) == full + ['@'] + server && full == user + [':'] + device;
  }

  lemma CutAt(before: string, c: char, after: string)
    requires c !in before
    ensures var s := before + [c] + after;
            IndexOf(s, c) == |before| && s[..|before|] == before && s[|before| + 1..] == after
  {
    IndexOfFirst(before, c, after);
  }

  lemma KnownBatchCommits(
      rows: seq<Message>, tenants: set<string>, batch: seq<Message>, tenant: string, chat: string, now: int)
    requires OfConversation(batch, tenant, chat) && tenant != "" && chat != ""
    requires forall b :: b in batch ==> HasKey(rows, KeyOf(b))
    ensures Commits(rows, tenants, batch, now)
  {
    PreparedKeeps(batch, IdsOf(batch), tenant, chat, now);
    var prepared := PrepareAll(batch, IdsOf(batch), now).value;
    forall b | b in prepared ensures HasKey(rows, KeyOf(b)) {
      var i :| 0 <= i < |prepared| && prepared[i] == b;
      assert batch[i] in batch;
    }
    KnownBatchIsIgnored(rows, tenants, prepared);
  }

  lemma HistoryIsKnown(rows: seq<Message>, tenant: string, own: JID, chat: JID, messages: seq<HistoryMessage>, now: int)
    requires forall h :: h in messages ==> HasKey(rows, Key(tenant, h.waId))
    ensures forall b :: b in HistoryBatch(tenant, own, chat, Index([]), Everything, messages, now) ==> HasKey(rows, KeyOf(b))
  {
    forall b | b in HistoryBatch(tenant, own, chat, Index([]), Everything, messages, now) ensures HasKey(rows, KeyOf(b)) {
      HistoryRowSays(tenant, own, chat, Everything, messages, now, Index([]), b);
    }
  }

  /** A sync whose every message the tenant holds under other conversations is stored and leaves no
      anchor behind. */
  lemma KnownSyncLeavesNoAnchor(
      rows: seq<Message>, tenants: set<string>, tenant: string, own: JID, raw: JID, messages: seq<HistoryMessage>, now: int)
    requires ValidRows(rows, tenants) && tenant != "" && Bare(raw.user) && WellFormed(raw) && raw.server == PHONE
    requires forall h :: h in messages ==> HasKey(rows, Key(tenant, h.waId))
    requires ConversationRows(rows, tenant, [], Render(raw.user, PHONE)) == []
    ensures var batch := ConversationBatch(tenant, own, raw, Everything, messages, now, Index([]));
            && Commits(rows, tenants, batch, now)
            && ((exists h :: h in messages && Usable(h)) ==> batch != [])
            && Conversations.OldestByChat(Store(rows, tenants, batch, now), tenant, [], Render(raw.user, PHONE)).None?
  {
    var jid := ToNonAD(raw);
    var batch := ConversationBatch(tenant, own, raw, Everything, messages, now, Index([]));
    HistoryIsOfConversation(tenant, own, jid, HistoryDecisionFor(Everything, jid), messages, now, Index([]));
    HistoryIsKnown(rows, tenant, own, jid, messages, now);
    KnownBatchCommits(rows, tenants, batch, tenant, Render(raw.user, PHONE), now);
    NothingNewNoAnchor(rows, tenants, tenant, own, raw, messages, now);
  }

  lemma NothingNewNoAnchor(
      rows: seq<Message>, tenants: set<string>, tenant: string, own: JID, raw: JID, messages: seq<HistoryMessage>, now: int)
    requires ValidRows(rows, tenants) && tenant != "" && Bare(raw.user) && WellFormed(raw) && raw.server == PHONE
    requires ConversationRows(rows, tenant, [], Render(raw.user, PHONE)) == []
    requires Commits(rows, tenants, ConversationBatch(tenant, own, raw, Everything, messages, now, Index([])), now)
    requires forall b :: b in ConversationBatch(tenant, own, raw, Everything, messages, now, Index([])) ==> HasKey(rows, KeyOf(b))
    ensures var batch := ConversationBatch(tenant, own, raw, Everything, messages, now, Index([]));
            Conversations.OldestByChat(Store(rows, tenants, batch, now), tenant, [], Render(raw.user, PHONE)).None?
  {
    StoredConversationHasAnchor(rows, tenants, [], tenant, own, raw, Everything, messages, now, Index([]), Index([]));
  }

  lemma OtherNumber(number: string, number': string)
    requires Bare(number) && Bare(number') && number != number'
    ensures Render(number, PHONE) != Render(number', PHONE)
  {
    if Render(number, PHONE) == Render(number', PHONE) {
      RenderIsInjective(number, PHONE, number', PHONE);
    }
  }

  /** Such a table: WhatsApp id "A" in the conversation with 1, and a sync of the one with 2 whose
      only message is "A" again. */
  lemma StoredConversationWithoutAnchor(held: Message, own: JID, again: HistoryMessage, now: int)
    requires held.tenant == "t" && held.waId == "A" && held.chat == Render("1", PHONE) && again.waId == "A"
    ensures var batch := ConversationBatch("t", own, JID("2", 0, PHONE), Everything, [again], now, Index([]));
            && batch != [] && Commits([held], {"t"}, batch, now)
            && Conversations.OldestByChat(Store([held], {"t"}, batch, now), "t", [], Render("2", PHONE)).None?
  {
    OtherNumber("1", "2");
    OneHeldOneAgain(held, own, JID("2", 0, PHONE), again, now);
  }

  lemma OneHeldOneAgain(held: Message, own: JID, raw: JID, again: HistoryMessage, now: int)
    requires held.tenant != "" && held.waId == again.waId != "" && held.chat != Render(raw.user, PHONE)
    requires Bare(raw.user) && WellFormed(raw) && raw.server == PHONE
    ensures var batch := ConversationBatch(held.tenant, own, raw, Everything, [again], now, Index([]));
            && batch != [] && Commits([held], {held.tenant}, batch, now)
            && Conversations.OldestByChat(Store([held], {held.tenant}, batch, now), held.tenant, [], Render(raw.user, PHONE)).None?
  {
    RowOfOne(held, Render(raw.user, PHONE));
    assert held in [held] && KeyOf(held) == Key(held.tenant, again.waId);
    assert again in [again] && Usable(again);
    KnownSyncLeavesNoAnchor([held], {held.tenant}, held.tenant, own, raw, [again], now);
  }
}
