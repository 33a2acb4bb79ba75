/**
 The reader to whom filing does show. SearchChats reads through the same
 projection as the others, but it also matches the addresses as they are stored:
 what the repair and the order of arrival change of its answers, exactly.
 */
module Searches {
  import opened Text
  import opened Sorting
  import opened Addresses
  import opened Messages
  import opened Conversations
  import opened Views
  import opened Repair
  import opened Intake
  import opened Runs

  /** The conversation is among the answers, before the limit. */
  ghost predicate Found(rows: seq<Message>, tenant: string, index: seq<LidPair>, query: string, chat: string) {
    chat in Map(ChatAddress, SearchedChats(rows, tenant, index, query))
  }

  lemma FoundExactly(rows: seq<Message>, tenant: string, index: seq<LidPair>, query: string, chat: string)
    requires ValidIndex(index)
    ensures Found(rows, tenant, index, query, chat) <==>
            exists m :: m in rows && m.tenant == tenant && Projected(index, m.chat) == chat && Mentions(m, index, query)
  {
    SearchFindsConversations(rows, tenant, index, query, chat);
    forall m ensures m in ConversationRows(rows, tenant, index, chat) <==>
                     m in rows && m.tenant == tenant && Projected(index, m.chat) == chat {
      FilterMember(InConversation(tenant, index, chat), rows, m);
    }
  }

  // ------------------------------------------------------------------ after the repair

  lemma NoColonNotHollow(user: string, server: string)
    requires '@' !in user && ':' !in user
    ensures !HollowDevice(Render(user, server))
  {
    HollowOf(user, server);
  }

  lemma RepairedIsNotHollow(index: seq<LidPair>, address: string)
    requires ValidIndex(index)
    ensures !HollowDevice(Repaired(index, address))
  {
    var bare, server := RepairedForm(index, address);
    if server != "" {
      if server == LID && NumberOf(index, bare).Some? {
        NoColonNotHollow(NumberOf(index, bare).value, PHONE);
      }
      NoColonNotHollow(bare, server);
    }
  }

  /** A repaired address is in its final form. */
  lemma RepairedReadsAsItself(index: seq<LidPair>, address: string)
    requires ValidIndex(index)
    ensures Projected(index, Repaired(index, address)) == Repaired(index, address)
  {
    RepairIsIdempotent(index, address);
    RepairLeavesNoDevice(index, address);
    RepairedIsNotHollow(index, address);
    RepairIsReadForm(index, Repaired(index, address));
  }

  /** What a search finds of a row once it is repaired: its canonical chat and its repaired sender. */
  predicate MentionsRepaired(m: Message, index: seq<LidPair>, query: string) {
    ContainsFold(Projected(index, m.chat), query) || ContainsFold(Repaired(index, m.sender), query)
  }

  lemma RepairedRowMentions(rows: seq<Message>, index: seq<LidPair>, sessions: seq<Session>, query: string, i: nat)
    requires ValidIndex(index) && i < |rows| && DeviceFree(rows[i].chat)
    ensures var m, after := rows[i], RepairedRows(rows, index, sessions)[i];
            && after.tenant == m.tenant && Projected(index, after.chat) == Projected(index, m.chat)
            && (Mentions(after, index, query) <==> MentionsRepaired(m, index, query))
  {
    RepairTouchesOnlyAddressing(rows, index, sessions, i);
    RepairIsProjection(index, rows[i].chat);
    RepairedReadsAsItself(index, rows[i].sender);
  }

  lemma FoundRow(rows: seq<Message>, tenant: string, index: seq<LidPair>, query: string, chat: string) returns (i: nat)
    requires ValidIndex(index) && Found(rows, tenant, index, query, chat)
    ensures i < |rows| && rows[i].tenant == tenant && Projected(index, rows[i].chat) == chat && Mentions(rows[i], index, query)
  {
    FoundExactly(rows, tenant, index, query, chat);
    var r :| r in rows && r.tenant == tenant && Projected(index, r.chat) == chat && Mentions(r, index, query);
    i :| 0 <= i < |rows| && rows[i] == r;
  }

  lemma RowIsFound(rows: seq<Message>, tenant: string, index: seq<LidPair>, query: string, chat: string, i: nat)
    requires ValidIndex(index) && i < |rows|
    requires rows[i].tenant == tenant && Projected(index, rows[i].chat) == chat && Mentions(rows[i], index, query)
    ensures Found(rows, tenant, index, query, chat)
  {
    assert rows[i] in rows;
    FoundExactly(rows, tenant, index, query, chat);
  }

  lemma FoundAfterRepair(
      rows: seq<Message>, index: seq<LidPair>, sessions: seq<Session>, tenant: string, query: string, chat: string)
    returns (m: Message)
    requires ValidIndex(index) && forall m :: m in rows ==> DeviceFree(m.chat)
    requires Found(RepairedRows(rows, index, sessions), tenant, index, query, chat)
    ensures m in ConversationRows(rows, tenant, index, chat) && MentionsRepaired(m, index, query)
  {
    var i := FoundRow(RepairedRows(rows, index, sessions), tenant, index, query, chat);
    m := rows[i];
    assert m in rows;
    RepairedRowMentions(rows, index, sessions, query, i);
    FilterMember(InConversation(tenant, index, chat), rows, m);
  }

  lemma MentionedIsFoundRepaired(
      rows: seq<Message>, index: seq<LidPair>, sessions: seq<Session>, tenant: string, query: string, chat: string, m: Message)
    requires ValidIndex(index) && forall m :: m in rows ==> DeviceFree(m.chat)
    requires m in ConversationRows(rows, tenant, index, chat) && MentionsRepaired(m, index, query)
    ensures Found(RepairedRows(rows, index, sessions), tenant, index, query, chat)
  {
    var after := RepairedRows(rows, index, sessions);
    FilterMember(InConversation(tenant, index, chat), rows, m);
    var i :| 0 <= i < |rows| && rows[i] == m;
    RepairedRowMentions(rows, index, sessions, query, i);
    RowIsFound(after, tenant, index, query, chat, i);
  }

  /** After the repair of a device-free table, a conversation is found exactly when one of its rows
      held the query in its canonical chat or in its repaired sender. What it was found by before --
      a LID the index knows, a device of the sender -- no longer counts. */
  lemma SearchAfterRepair(
      rows: seq<Message>, index: seq<LidPair>, sessions: seq<Session>, tenant: string, query: string, chat: string)
    requires ValidIndex(index)
    requires forall m :: m in rows ==> DeviceFree(m.chat)
    ensures Found(RepairedRows(rows, index, sessions), tenant, index, query, chat) <==>
            exists m :: m in ConversationRows(rows, tenant, index, chat) && MentionsRepaired(m, index, query)
  {
    if Found(RepairedRows(rows, index, sessions), tenant, index, query, chat) {
      var m := FoundAfterRepair(rows, index, sessions, tenant, query, chat);
    }
    if m :| m in ConversationRows(rows, tenant, index, chat) && MentionsRepaired(m, index, query) {
      MentionedIsFoundRepaired(rows, index, sessions, tenant, query, chat, m);
    }
  }

  // -------------------------------------------------------------------- after a run

  /** The query is in an address of the row as it is stored. */
  predicate MentionsRaw(m: Message, query: string) {
    ContainsFold(m.chat, query) || ContainsFold(m.sender, query)
  }

  lemma RefiledMentions(final: seq<LidPair>, m: Message, m': Message, query: string)
    requires ValidIndex(final) && Refiled(final, true, m, m')
    ensures m.tenant == m'.tenant && Projected(final, m.chat) == Projected(final, m'.chat)
    ensures Mentions(m, final, query) <==> Mentions(m', final, query) || MentionsRaw(m, query)
  {
    RefiledReadsAlike(final, true, m, m');
  }

  lemma SearchOfRefiled(
      final: seq<LidPair>, actual: seq<Message>, ideal: seq<Message>, tenant: string, query: string, chat: string)
    requires ValidIndex(final) && AllRefiled(final, true, actual, ideal)
    ensures Found(actual, tenant, final, query, chat) <==>
            Found(ideal, tenant, final, query, chat)
            || exists m :: m in ConversationRows(actual, tenant, final, chat) && MentionsRaw(m, query)
  {
    if Found(actual, tenant, final, query, chat) {
      var i := FoundRow(actual, tenant, final, query, chat);
      RefiledMentions(final, actual[i], ideal[i], query);
      if MentionsRaw(actual[i], query) {
        FilterMember(InConversation(tenant, final, chat), actual, actual[i]);
      } else {
        RowIsFound(ideal, tenant, final, query, chat, i);
      }
    }
    if Found(ideal, tenant, final, query, chat) {
      var i := FoundRow(ideal, tenant, final, query, chat);
      RefiledMentions(final, actual[i], ideal[i], query);
      RowIsFound(actual, tenant, final, query, chat, i);
    }
    if m :| m in ConversationRows(actual, tenant, final, chat) && MentionsRaw(m, query) {
      FilterMember(InConversation(tenant, final, chat), actual, m);
      FoundExactly(actual, tenant, final, query, chat);
    }
  }

  /** After any run, SearchChats finds a conversation exactly when it would have, had every message
      been filed under its final address, or when some row of it still holds the query in the address
      it happened to be filed under or sent from. */
  lemma SearchAfterARun(
      w: World, tenants: set<string>, scope: Scope, events: seq<Event>, tenant: string, query: string, chat: string)
    requires ValidIndex(Run(w, tenants, scope, events).index)
    requires forall e :: e in events ==> Honest(e, Run(w, tenants, scope, events).index)
    requires forall e :: e in events ==> HonestSender(e, Run(w, tenants, scope, events).index)
    ensures var final := Run(w, tenants, scope, events).index;
            var actual := Run(w, tenants, scope, events).rows;
            var ideal := FinalRun(Map(Refile(final), w.rows), final, tenants, scope, events);
            Found(actual, tenant, final, query, chat) <==>
              Found(ideal, tenant, final, query, chat)
              || exists m :: m in ConversationRows(actual, tenant, final, chat) && MentionsRaw(m, query)
  {
    var final := Run(w, tenants, scope, events).index;
    EveryRunIsRefiled(w, tenants, scope, events, true);
    SearchOfRefiled(final, Run(w, tenants, scope, events).rows,
      FinalRun(Map(Refile(final), w.rows), final, tenants, scope, events), tenant, query, chat);
  }

  // ------------------------------------------------------------------ where it shows

  lemma PrefixStarts(text: string, i: nat, part: string)
    requires i <= |text| && part != "" && HasPrefix(text[i..], part)
    ensures i < |text| && text[i] == part[0]
  {
    assert text[i..][..|part|][0] == part[0];
  }

  /** A text that lacks the first character of the query, in either case, does not contain it. */
  lemma FirstCharMissing(text: string, query: string)
    requires query != "" && forall i :: 0 <= i < |text| ==> LowerChar(text[i]) != LowerChar(query[0])
    ensures !ContainsFold(text, query)
  {
    if ContainsFold(text, query) {
      var i :| 0 <= i <= |Lower(text)| && HasPrefix(Lower(text)[i..], Lower(query));
      PrefixStarts(Lower(text), i, Lower(query));
    }
  }

  lemma ContainsItself(text: string)
    ensures ContainsFold(text, text)
  {
    assert Lower(text)[0..] == Lower(text);
    assert HasPrefix(Lower(text)[0..], Lower(text));
  }

  lemma OneIsNotInTwo()
    ensures !ContainsFold(Render("2", PHONE), Render("1", LID))
  {
    FirstCharMissing(Render("2", PHONE), Render("1", LID));
  }

  /** One row filed under the LID 1 of number 2: found by that LID before the repair, by nothing of it
      afterwards. */
  lemma RepairHidesTheLid(m: Message, sessions: seq<Session>)
    requires m.chat == Render("1", LID) && m.sender == Render("2", PHONE)
    ensures var index := [LidPair("1", "2")];
            && ValidIndex(index) && DeviceFree(m.chat)
            && Found([m], m.tenant, index, Render("1", LID), Render("2", PHONE))
            && forall chat :: !Found(RepairedRows([m], index, sessions), m.tenant, index, Render("1", LID), chat)
  {
    var index := [LidPair("1", "2")];
    LidRow(m, index, "1", "2");
    OneIsNotInTwo();
    RepairForgetsTheLid(m, index, sessions, "1", "2");
  }

  lemma LidRow(m: Message, index: seq<LidPair>, lid: string, number: string)
    requires ValidIndex(index) && LidPair(lid, number) in index && m.chat == Render(lid, LID)
    ensures DeviceFree(m.chat) && Projected(index, m.chat) == Render(number, PHONE)
    ensures Found([m], m.tenant, index, Render(lid, LID), Render(number, PHONE))
  {
    KnownOfLid(index, lid, number);
    ProjectedIs(index, m.chat);
    NoColonNoDevice(lid, LID);
    HollowOf(lid, LID);
    ContainsItself(m.chat);
    FoundExactly([m], m.tenant, index, Render(lid, LID), Render(number, PHONE));
    assert m in [m];
  }

  lemma RepairForgetsTheLid(m: Message, index: seq<LidPair>, sessions: seq<Session>, lid: string, number: string)
    requires ValidIndex(index) && LidPair(lid, number) in index
    requires m.chat == Render(lid, LID) && m.sender == Render(number, PHONE)
    requires !ContainsFold(Render(number, PHONE), Render(lid, LID))
    ensures forall chat :: !Found(RepairedRows([m], index, sessions), m.tenant, index, Render(lid, LID), chat)
  {
    LidRow(m, index, lid, number);
    RepairedRender(index, number, PHONE);
    forall chat ensures !Found(RepairedRows([m], index, sessions), m.tenant, index, Render(lid, LID), chat) {
      NotMentionedNotFound(m, index, sessions, Render(lid, LID), chat);
    }
  }

  lemma NotMentionedNotFound(m: Message, index: seq<LidPair>, sessions: seq<Session>, query: string, chat: string)
    requires ValidIndex(index) && DeviceFree(m.chat) && !MentionsRepaired(m, index, query)
    ensures !Found(RepairedRows([m], index, sessions), m.tenant, index, query, chat)
  {
    SearchAfterRepair([m], index, sessions, m.tenant, query, chat);
    forall r | r in ConversationRows([m], m.tenant, index, chat) ensures r == m {
      FilterMember(InConversation(m.tenant, index, chat), [m], r);
    }
  }

  /** A message from the LID 1 of number 2, and the pair of the two. */
  function FromLid(waId: string, rowId: string, now: int): Event {
    var one := JID("1", 0, LID);
    Live("t", LiveEvent(one, one, false, false, EMPTY_JID, EMPTY_JID, waId, "hello", now, NO_MEDIA), true, rowId, now)
  }

  function Pair(): Event { Learn(LidPair("1", "2")) }

  lemma FirstInsert(tenants: set<string>, m: Message)
    requires m.tenant in tenants
    ensures Committed([], tenants, [m]) == [Stored(m)]
  {
    assert [m][..0] == [] && [] + [Stored(m)] == [Stored(m)];
    assert InsertAll([], tenants, []) == Some([]);
    assert InsertOutcome([], tenants, m) == Inserted;
  }

  lemma OneLiveMessage(index: seq<LidPair>, scope: Scope, e: Event) returns (m: Message)
    requires e.Live? && e.tenant != "" && e.live.waId != ""
    requires JidString(ToNonAD(FiledUnder(e, index))) != ""
    ensures Step(World([], index), {e.tenant}, scope, e) == World([m], index)
    ensures m.tenant == e.tenant && m.chat == JidString(ToNonAD(FiledUnder(e, index)))
    ensures m.sender == JidString(ToNonAD(CanonicalJid(LookupOf(e, index), e.live.sender, e.live.senderAlt).jid))
  {
    var record := Records(e, scope, FiledUnder(e, index), LookupOf(e, index))[0];
    StoreOne([], {e.tenant}, record, e.now);
    var ready := PrepareMessage(record, record.id, e.now).value;
    FirstInsert({e.tenant}, ready);
    assert Records(e, scope, FiledUnder(e, index), LookupOf(e, index)) == [record];
    m := Stored(ready);
  }

  lemma TwoSteps(w: World, tenants: set<string>, scope: Scope, a: Event, b: Event)
    ensures Run(w, tenants, scope, [a, b]) == Step(Step(w, tenants, scope, a), tenants, scope, b)
  {
    assert [a, b][..1] == [a] && [a][..0] == [];
    assert Run(w, tenants, scope, []) == w;
    assert Run(w, tenants, scope, [a]) == Step(w, tenants, scope, a);
  }

  lemma MessageThenPair(scope: Scope, e: Event)
    requires e.Live? && e == FromLid(e.live.waId, e.rowId, e.now) && e.live.waId != ""
    ensures var end := Run(World([], []), {"t"}, scope, [e, Pair()]);
            end.index == [LidPair("1", "2")] && Found(end.rows, "t", end.index, Render("1", LID), Render("2", PHONE))
  {
    TwoSteps(World([], []), {"t"}, scope, e, Pair());
    var m := OneLiveMessage([], scope, e);
    assert [] + [LidPair("1", "2")] == [LidPair("1", "2")];
    LidRow(m, [LidPair("1", "2")], "1", "2");
  }

  lemma KnownLidIsFiledAsNumber(e: Event, index: seq<LidPair>, lid: string, number: string)
    requires ValidIndex(index) && LidPair(lid, number) in index
    requires e.Live? && e.reachable && !e.live.isGroup && !e.live.isFromMe && e.live.senderAlt == EMPTY_JID
    requires e.live.chat == e.live.sender == JID(lid, 0, LID)
    ensures JidString(ToNonAD(FiledUnder(e, index))) == Render(number, PHONE)
    ensures JidString(ToNonAD(CanonicalJid(LookupOf(e, index), e.live.sender, e.live.senderAlt).jid)) == Render(number, PHONE)
  {
    NumberOfPair(index, LidPair(lid, number));
  }

  lemma AfterThePair(scope: Scope, e: Event, index: seq<LidPair>, lid: string, number: string) returns (m: Message)
    requires ValidIndex(index) && LidPair(lid, number) in index
    requires e.Live? && e.reachable && !e.live.isGroup && !e.live.isFromMe && e.live.senderAlt == EMPTY_JID
    requires e.live.chat == e.live.sender == JID(lid, 0, LID) && e.tenant != "" && e.live.waId != ""
    ensures Step(World([], index), {e.tenant}, scope, e) == World([m], index)
    ensures m.tenant == e.tenant && m.chat == m.sender == Render(number, PHONE)
  {
    KnownLidIsFiledAsNumber(e, index, lid, number);
    assert |Render(number, PHONE)| > 0;
    m := OneLiveMessage(index, scope, e);
  }

  lemma LearnFirst(tenants: set<string>, scope: Scope, p: LidPair, e: Event)
    ensures Run(World([], []), tenants, scope, [Learn(p), e]) == Step(World([], [p]), tenants, scope, e)
  {
    TwoSteps(World([], []), tenants, scope, Learn(p), e);
    assert [] + [p] == [p];
  }

  lemma PairThenMessage(scope: Scope, e: Event, p: LidPair) returns (m: Message)
    requires Bare(p.lid) && Bare(p.pn)
    requires e.Live? && e.reachable && !e.live.isGroup && !e.live.isFromMe && e.live.senderAlt == EMPTY_JID
    requires e.live.chat == e.live.sender == JID(p.lid, 0, LID) && e.tenant != "" && e.live.waId != ""
    ensures Run(World([], []), {e.tenant}, scope, [Learn(p), e]) == World([m], [p])
    ensures m.tenant == e.tenant && m.chat == m.sender == Render(p.pn, PHONE)
  {
    LearnFirst({e.tenant}, scope, p, e);
    m := AfterThePair(scope, e, [p], p.lid, p.pn);
  }

  /** The order of arrival decides whether the LID finds the conversation: it does when the message
      came before the pair, and does not when it came after. */
  lemma ArrivalOrderShowsInSearch(scope: Scope, waId: string, rowId: string, now: int)
    requires waId != ""
    ensures var early := Run(World([], []), {"t"}, scope, [FromLid(waId, rowId, now), Pair()]);
            var late := Run(World([], []), {"t"}, scope, [Pair(), FromLid(waId, rowId, now)]);
            && early.index == late.index
            && Found(early.rows, "t", early.index, Render("1", LID), Render("2", PHONE))
            && !Found(late.rows, "t", late.index, Render("1", LID), Render("2", PHONE))
  {
    MessageThenPair(scope, FromLid(waId, rowId, now));
    var m := PairThenMessage(scope, FromLid(waId, rowId, now), LidPair("1", "2"));
    NumberIsNotFoundByLid(m, [LidPair("1", "2")]);
  }

  lemma NumberIsNotFoundByLid(m: Message, index: seq<LidPair>)
    requires ValidIndex(index) && m.chat == Render("2", PHONE) == m.sender
    ensures !Found([m], m.tenant, index, Render("1", LID), Render("2", PHONE))
  {
    OneIsNotInTwo();
    KnownOfNumber(index, "2", m.chat);
    ProjectedIs(index, m.chat);
    FoundExactly([m], m.tenant, index, Render("1", LID), Render("2", PHONE));
  }
}
