/**
 One message, three ways in: what a live event, a history sync and a send write
 about the same message says the same, so whichever comes second finds it stored.
 */
module Arrivals {
  import opened Addresses
  import opened Messages
  import opened Intake
  import opened Runs
  import opened Backfill

  /** What happened, without how it was addressed or when it was noticed. */
  datatype Fact = Fact(tenant: string, waId: string, fromMe: bool, body: string, timestamp: int)

  /** The event reports the fact. */
  ghost predicate Reports(e: Event, f: Fact) {
    match e
    case Learn(_) => false
    case Live(tenant, live, _, _, _) => f == Fact(tenant, live.waId, live.isFromMe, live.body, live.timestamp)
    case History(tenant, _, _, messages, _, _) =>
      exists h :: h in messages && Usable(h) && f == Fact(tenant, h.waId, h.fromMe, h.body, h.timestamp)
    case Send(tenant, _, _, waId, body, acked, _, _, now) =>
      f == Fact(tenant, waId, true, body, if acked == ZERO_TIME then now else acked)
  }

  predicate Says(m: Message, f: Fact) {
    && KeyOf(m) == Key(f.tenant, f.waId)
    && m.direction == (if f.fromMe then Out else In)
    && m.body == f.body && m.timestamp == f.timestamp
  }

  /** The rows an event asks for with what is known at the time. */
  function RowsOf(e: Event, scope: Scope, index: seq<LidPair>): seq<Message>
    requires !e.Learn?
  {
    Records(e, scope, FiledUnder(e, index), LookupOf(e, index))
  }

  lemma HistoryRowSays(
      tenant: string, own: JID, chat: JID, scope: Scope, messages: seq<HistoryMessage>, now: int, lids: Resolver, m: Message)
    requires m in HistoryBatch(tenant, own, chat, lids, scope, messages, now)
    ensures m.chat == JidString(chat)
    ensures exists h :: h in messages && Usable(h) && Says(m, Fact(tenant, h.waId, h.fromMe, h.body, h.timestamp))
  {
    var decision := HistoryDecisionFor(scope, chat);
    var records := HistoryRecords(tenant, own, chat, decision, messages, now);
    var i :| 0 <= i < |CanonicalSenders(lids, records)| && CanonicalSenders(lids, records)[i] == m;
    assert records[i] in UsableRecords(tenant, own, chat, messages, now);
    UsableMember(tenant, own, chat, messages, now, records[i]);
    var h :| h in messages && Usable(h) && records[i] == HistoryRecord(tenant, own, chat, h, now);
    assert Says(m, Fact(tenant, h.waId, h.fromMe, h.body, h.timestamp));
  }

  /** Every row an event stores says one of the facts the event reports, and reads, in the end,
      as the canonical address of the conversation the event belongs to. */
  lemma RowsSayWhatHappened(e: Event, scope: Scope, index: seq<LidPair>, final: seq<LidPair>, m: Message)
    requires !e.Learn? && ValidIndex(final) && Honest(e, final) && Addressee(e).server != ""
    requires forall p :: p in index ==> p in final
    requires m in RowsOf(e, scope, index)
    ensures exists f :: Reports(e, f) && Says(m, f)
    ensures Projected(final, m.chat) == CanonicalString(Index(final), Addressee(e), EMPTY_JID)
  {
    var lids, chat := LookupOf(e, index), FiledUnder(e, index);
    FiledThenReadIsFinal(lids, final, Addressee(e), Alternative(e));
    NonADFiled(lids, Addressee(e), Alternative(e));
    if e.History? {
      HistoryRowSays(e.tenant, e.own, chat, scope, e.messages, e.now, lids, m);
      var h :| h in e.messages && Usable(h) && Says(m, Fact(e.tenant, h.waId, h.fromMe, h.body, h.timestamp));
      assert Reports(e, Fact(e.tenant, h.waId, h.fromMe, h.body, h.timestamp));
    } else {
      var f := if e.Live? then Fact(e.tenant, e.live.waId, e.live.isFromMe, e.live.body, e.live.timestamp)
               else Fact(e.tenant, e.waId, true, e.body, if e.acked == ZERO_TIME then e.now else e.acked);
      assert Reports(e, f) && Says(m, f);
    }
  }

  /** Nothing an event reports is lost, unless the scope keeps less than the whole conversation. */
  lemma NothingReportedIsLost(e: Event, scope: Scope, index: seq<LidPair>, f: Fact)
    requires !e.Learn? && Reports(e, f)
    requires e.History? ==> HistoryDecisionFor(scope, FiledUnder(e, index)) == PersistAll
    ensures exists m :: m in RowsOf(e, scope, index) && Says(m, f)
  {
    var rows := RowsOf(e, scope, index);
    if e.History? {
      var chat := FiledUnder(e, index);
      var h :| h in e.messages && Usable(h) && f == Fact(e.tenant, h.waId, h.fromMe, h.body, h.timestamp);
      var records := UsableRecords(e.tenant, e.own, chat, e.messages, e.now);
      UsableMember(e.tenant, e.own, chat, e.messages, e.now, HistoryRecord(e.tenant, e.own, chat, h, e.now));
      var i :| 0 <= i < |records| && records[i] == HistoryRecord(e.tenant, e.own, chat, h, e.now);
      assert rows[i] in rows && Says(rows[i], f);
    } else {
      assert rows[0] in rows && Says(rows[0], f);
    }
  }

  /** The sender of a live message is filed for good too, group participants included. */
  lemma LiveSenderIsFinal(e: Event, scope: Scope, index: seq<LidPair>, final: seq<LidPair>, m: Message)
    requires e.Live? && ValidIndex(final) && e.live.sender.server != ""
    requires WellFormed(e.live.sender) && Agrees(final, e.live.sender, e.live.senderAlt)
    requires forall p :: p in index ==> p in final
    requires m in RowsOf(e, scope, index)
    ensures Projected(final, m.sender) == CanonicalString(Index(final), e.live.sender, EMPTY_JID)
  {
    FiledThenReadIsFinal(LookupOf(e, index), final, e.live.sender, e.live.senderAlt);
    NonADFiled(LookupOf(e, index), e.live.sender, e.live.senderAlt);
  }

  /** The echo of a sent message, its history copy and its live delivery are one row: whichever
      path comes second finds the key taken, says the same and reads as the same conversation. */
  lemma SecondArrivalIsTheSameRow(
      first: Event, second: Event, scope: Scope, index: seq<LidPair>, later: seq<LidPair>, final: seq<LidPair>,
      f: Fact, m: Message, m': Message, rows: seq<Message>, tenants: set<string>)
    requires !first.Learn? && !second.Learn? && ValidIndex(final) && Honest(first, final) && Honest(second, final)
    requires Addressee(first).server != "" && Addressee(second).server != ""
    requires (forall p :: p in index ==> p in final) && (forall p :: p in later ==> p in final)
    requires CanonicalString(Index(final), Addressee(first), EMPTY_JID) == CanonicalString(Index(final), Addressee(second), EMPTY_JID)
    requires m in RowsOf(first, scope, index) && Says(m, f)
    requires m' in RowsOf(second, scope, later) && Says(m', f)
    requires m in rows
    ensures InsertRow(rows, tenants, m') == rows
    ensures m.direction == m'.direction && m.body == m'.body && m.timestamp == m'.timestamp
    ensures Projected(final, m.chat) == Projected(final, m'.chat)
  {
    RowsSayWhatHappened(first, scope, index, final, m);
    RowsSayWhatHappened(second, scope, later, final, m');
    assert HasKey(rows, KeyOf(m'));
  }

  // ------------------------------------------------------------- alternatives and scopes

  /** In a direct conversation the chat is the other end: the sender of what we receive, the
      recipient of what we send. */
  predicate OtherEnd(e: LiveEvent, recipient: JID) {
    !e.isGroup ==> ToNonAD(e.chat) == ToNonAD(if e.isFromMe then recipient else e.sender)
  }

  /** When each end's alternative names that end's person, the one picked for the conversation
      names the conversation's person, in both directions. */
  lemma ChatAltNamesTheChat(e: LiveEvent, recipient: JID, final: seq<LidPair>)
    requires OtherEnd(e, recipient)
    requires Agrees(final, e.sender, e.senderAlt) && Agrees(final, recipient, e.recipientAlt)
    ensures Agrees(final, e.chat, ChatAlt(e))
  {
    assert e.isGroup || ToNonAD(e.chat).user == e.chat.user;
  }

  function Reach(scope: Scope): nat {
    match scope case DirectOnly => 0 case DirectAndGroups => 1 case Everything => 2
  }

  function Kept(decision: Decision): nat {
    match decision case SkipChat => 0 case AnchorOnly => 1 case PersistAll => 2
  }

  /** A wider scope never keeps less; people are kept in full under every scope; only status
      updates and, short of the widest scope, channels are left without an anchor. */
  lemma WiderScopeKeepsMore(scope: Scope, wider: Scope, chat: JID)
    requires Reach(scope) <= Reach(wider)
    ensures Kept(HistoryDecisionFor(scope, chat)) <= Kept(HistoryDecisionFor(wider, chat))
    ensures chat.server in [PHONE, LID] ==> HistoryDecisionFor(scope, chat) == PersistAll
    ensures HistoryDecisionFor(scope, chat) == SkipChat <==>
              (chat.server == BROADCAST && chat.user == STATUS) || (chat.server == NEWSLETTER && scope != Everything)
  {
  }
}
