/**
 The theorem that the order in which messages and LID pairs arrive does not show
 in what ListChats, ListByChat and OldestByChat return: every run is compared,
 row by row, with the run that knew the final index from the start.
 */
module Runs {
  import opened Text
  import opened Sorting
  import opened Addresses
  import opened Messages
  import opened Conversations
  import opened Intake
  import Folds
  import Views

  /** A sender and what it is filed as with the final index: both read alike, and the second is
      either the very same text or in its final form. */
  ghost predicate SameSender(final: seq<LidPair>, sender: string, sender': string) {
    && Projected(final, sender) == Projected(final, sender')
    && (sender' == sender || sender' == Projected(final, sender'))
  }

  /** The same message, filed under what its address reads as in the end; with `senders`, its
      sender is the same one too. */
  ghost predicate Refiled(final: seq<LidPair>, senders: bool, m: Message, m': Message) {
    && Views.Unaddressed(m) == Views.Unaddressed(m') && m'.chat == Projected(final, m.chat)
    && (senders ==> SameSender(final, m.sender, m'.sender))
  }

  ghost predicate AllRefiled(final: seq<LidPair>, senders: bool, rows: seq<Message>, rows': seq<Message>) {
    |rows| == |rows'| && forall i :: 0 <= i < |rows| ==> Refiled(final, senders, rows[i], rows'[i])
  }

  lemma RefiledKeeps(final: seq<LidPair>, senders: bool, m: Message, m': Message)
    requires ValidIndex(final) && Refiled(final, senders, m, m')
    ensures KeyOf(m) == KeyOf(m') && m.id == m'.id && m.timestamp == m'.timestamp && m.createdAt == m'.createdAt
    ensures m.direction == m'.direction
    ensures m.chat == "" <==> m'.chat == ""
  {
    assert Views.Unaddressed(m).tenant == m.tenant && Views.Unaddressed(m').tenant == m'.tenant;
    assert Views.Unaddressed(m).waId == m.waId && Views.Unaddressed(m').waId == m'.waId;
    ProjectedIs(final, m.chat);
  }

  lemma PrepareOneRefiled(final: seq<LidPair>, senders: bool, m: Message, m': Message, now: int)
    requires ValidIndex(final) && Refiled(final, senders, m, m')
    ensures var p, p' := PrepareMessage(m, m.id, now), PrepareMessage(m', m'.id, now);
            (p.Ok? <==> p'.Ok?) && (p.Ok? ==> Refiled(final, senders, p.value, p'.value))
  {
    RefiledKeeps(final, senders, m, m');
  }

  lemma IdsOfInit(batch: seq<Message>)
    requires batch != []
    ensures IdsOf(batch)[..|batch| - 1] == IdsOf(batch[..|batch| - 1])
  {
  }

  lemma {:induction false} PrepareRefiled(final: seq<LidPair>, senders: bool, batch: seq<Message>, batch': seq<Message>, now: int)
    requires ValidIndex(final) && AllRefiled(final, senders, batch, batch')
    ensures var p, p' := PrepareAll(batch, IdsOf(batch), now), PrepareAll(batch', IdsOf(batch'), now);
            (p.Ok? <==> p'.Ok?) && (p.Ok? ==> AllRefiled(final, senders, p.value, p'.value))
  {
    if batch != [] {
      var n := |batch| - 1;
      var init, init' := batch[..n], batch'[..n];
      PrepareRefiled(final, senders, init, init', now);
      IdsOfInit(batch);
      IdsOfInit(batch');
      PrepareOneRefiled(final, senders, batch[n], batch'[n], now);
      var sofar, sofar' := PrepareAll(init, IdsOf(init), now), PrepareAll(init', IdsOf(init'), now);
      var last, last' := PrepareMessage(batch[n], batch[n].id, now), PrepareMessage(batch'[n], batch'[n].id, now);
      if sofar.Ok? && last.Ok? {
        RefiledAppend(final, senders, sofar.value, sofar'.value, last.value, last'.value);
      }
    }
  }

  lemma RefiledAppend(final: seq<LidPair>, senders: bool, rows: seq<Message>, rows': seq<Message>, m: Message, m': Message)
    requires AllRefiled(final, senders, rows, rows') && Refiled(final, senders, m, m')
    ensures AllRefiled(final, senders, rows + [m], rows' + [m'])
  {
  }

  lemma InsertRefiled(
      final: seq<LidPair>, senders: bool, tenants: set<string>, rows: seq<Message>, rows': seq<Message>, m: Message, m': Message)
    requires ValidIndex(final) && AllRefiled(final, senders, rows, rows') && Refiled(final, senders, m, m')
    ensures InsertOutcome(rows, tenants, m) == InsertOutcome(rows', tenants, m')
    ensures AllRefiled(final, senders, InsertRow(rows, tenants, m), InsertRow(rows', tenants, m'))
  {
    RefiledKeeps(final, senders, m, m');
    forall i | 0 <= i < |rows| ensures KeyOf(rows[i]) == KeyOf(rows'[i]) && rows[i].id == rows'[i].id {
      RefiledKeeps(final, senders, rows[i], rows'[i]);
    }
    SameKeys(rows, rows', KeyOf(m), m.id);
    assert Refiled(final, senders, Stored(m), Stored(m'));
  }

  lemma SameKeys(rows: seq<Message>, rows': seq<Message>, k: Key, id: string)
    requires |rows| == |rows'|
    requires forall i :: 0 <= i < |rows| ==> KeyOf(rows[i]) == KeyOf(rows'[i]) && rows[i].id == rows'[i].id
    ensures HasKey(rows, k) <==> HasKey(rows', k)
    ensures HasId(rows, id) <==> HasId(rows', id)
  {
    if HasKey(rows, k) { var i :| 0 <= i < |rows| && KeyOf(rows[i]) == k; assert rows'[i] in rows'; }
    if HasKey(rows', k) { var i :| 0 <= i < |rows| && KeyOf(rows'[i]) == k; assert rows[i] in rows; }
    if HasId(rows, id) { var i :| 0 <= i < |rows| && rows[i].id == id; assert rows'[i] in rows'; }
    if HasId(rows', id) { var i :| 0 <= i < |rows| && rows'[i].id == id; assert rows[i] in rows; }
  }

  lemma {:induction false} InsertAllRefiled(
      final: seq<LidPair>, senders: bool, tenants: set<string>, rows: seq<Message>, rows': seq<Message>,
      batch: seq<Message>, batch': seq<Message>)
    requires ValidIndex(final) && AllRefiled(final, senders, rows, rows') && AllRefiled(final, senders, batch, batch')
    ensures var a, a' := InsertAll(rows, tenants, batch), InsertAll(rows', tenants, batch');
            (a.Some? <==> a'.Some?) && (a.Some? ==> AllRefiled(final, senders, a.value, a'.value))
  {
    if batch != [] {
      var n := |batch| - 1;
      InsertAllRefiled(final, senders, tenants, rows, rows', batch[..n], batch'[..n]);
      var a, a' := InsertAll(rows, tenants, batch[..n]), InsertAll(rows', tenants, batch'[..n]);
      if a.Some? {
        InsertRefiled(final, senders, tenants, a.value, a'.value, batch[n], batch'[n]);
      }
    }
  }

  lemma StoreRefiled(
      final: seq<LidPair>, senders: bool, tenants: set<string>, rows: seq<Message>, rows': seq<Message>,
      batch: seq<Message>, batch': seq<Message>, now: int)
    requires ValidIndex(final) && AllRefiled(final, senders, rows, rows') && AllRefiled(final, senders, batch, batch')
    ensures AllRefiled(final, senders, Store(rows, tenants, batch, now), Store(rows', tenants, batch', now))
  {
    PrepareRefiled(final, senders, batch, batch', now);
    if PrepareAll(batch, IdsOf(batch), now).Ok? {
      InsertAllRefiled(final, senders, tenants, rows, rows',
        PrepareAll(batch, IdsOf(batch), now).value, PrepareAll(batch', IdsOf(batch'), now).value);
    }
  }

  lemma {:induction false} UsableRefiled(
      final: seq<LidPair>, tenant: string, own: JID, chat: JID, chat': JID, messages: seq<HistoryMessage>, now: int)
    requires JidString(chat') == Projected(final, JidString(chat))
    ensures AllRefiled(final, false, UsableRecords(tenant, own, chat, messages, now), UsableRecords(tenant, own, chat', messages, now))
    ensures SendersOf(chat, chat', UsableRecords(tenant, own, chat, messages, now), UsableRecords(tenant, own, chat', messages, now))
  {
    if messages != [] {
      var n := |messages| - 1;
      UsableRefiled(final, tenant, own, chat, chat', messages[..n], now);
      var h := messages[n];
      var m, m' := HistoryRecord(tenant, own, chat, h, now), HistoryRecord(tenant, own, chat', h, now);
      assert Refiled(final, false, m, m') && SenderOf(chat, chat', m, m');
    }
  }

  /** Both records name the same sender, or each the chat it was filed under. */
  predicate SenderOf(chat: JID, chat': JID, m: Message, m': Message) {
    m.sender == m'.sender || (m.sender == JidString(chat) && m'.sender == JidString(chat'))
  }

  ghost predicate SendersOf(chat: JID, chat': JID, rows: seq<Message>, rows': seq<Message>) {
    |rows| == |rows'| && forall i :: 0 <= i < |rows| ==> SenderOf(chat, chat', rows[i], rows'[i])
  }

  lemma HistoryRefiled(
      final: seq<LidPair>, tenant: string, own: JID, chat: JID, chat': JID, decision: Decision,
      messages: seq<HistoryMessage>, now: int)
    requires ValidIndex(final) && JidString(chat') == Projected(final, JidString(chat))
    ensures AllRefiled(final, false, HistoryRecords(tenant, own, chat, decision, messages, now),
                       HistoryRecords(tenant, own, chat', decision, messages, now))
    ensures SendersOf(chat, chat', HistoryRecords(tenant, own, chat, decision, messages, now),
                      HistoryRecords(tenant, own, chat', decision, messages, now))
  {
    UsableRefiled(final, tenant, own, chat, chat', messages, now);
    var a, a' := UsableRecords(tenant, own, chat, messages, now), UsableRecords(tenant, own, chat', messages, now);
    forall i | 0 <= i < |a| ensures TimeOf(a[i]) == TimeOf(a'[i]) {
      RefiledKeeps(final, false, a[i], a'[i]);
    }
    assert Map(TimeOf, a) == Map(TimeOf, a');
  }

  lemma SendersRefiled(final: seq<LidPair>, lids: Resolver, lids': Resolver, batch: seq<Message>, batch': seq<Message>)
    requires AllRefiled(final, false, batch, batch')
    ensures AllRefiled(final, false, CanonicalSenders(lids, batch), CanonicalSenders(lids', batch'))
  {
    forall i | 0 <= i < |batch|
      ensures Refiled(final, false, CanonicalSender(lids, batch[i]), CanonicalSender(lids', batch'[i])) {
      assert Views.Unaddressed(CanonicalSender(lids, batch[i])) == Views.Unaddressed(batch[i]);
      assert Views.Unaddressed(CanonicalSender(lids', batch'[i])) == Views.Unaddressed(batch'[i]);
    }
  }

  /** A person is stored in full whichever address names them, so the decision cannot depend on it. */
  lemma SameDecision(scope: Scope, lids: Resolver, final: seq<LidPair>, raw: JID, alt: JID)
    requires ValidIndex(final) && Within(lids, final) && Agrees(final, raw, alt)
    ensures HistoryDecisionFor(scope, CanonicalJid(lids, raw, alt).jid) ==
            HistoryDecisionFor(scope, CanonicalJid(Index(final), raw, EMPTY_JID).jid)
  {
  }

  /** The addresses of an event are well formed and its alternative names the right person. */
  ghost predicate Honest(e: Event, final: seq<LidPair>) {
    !e.Learn? ==> WellFormed(Addressee(e)) && Agrees(final, Addressee(e), Alternative(e))
  }

  /** The sender's address is well formed, and its alternative names the right person too. What a
      history message came under was split by the parser. */
  ghost predicate HonestSender(e: Event, final: seq<LidPair>) {
    && (e.Live? ==> WellFormed(e.live.sender) && Agrees(final, e.live.sender, e.live.senderAlt))
    && (e.History? ==> ':' !in e.raw.user)
  }

  lemma NonADFiled(lids: Resolver, jid: JID, alt: JID)
    ensures jid.server != "" ==> ToNonAD(CanonicalJid(lids, jid, alt).jid) == CanonicalJid(lids, jid, alt).jid
    ensures jid.server == "" ==> CanonicalJid(lids, jid, alt).jid == jid
  {
  }

  /** The live and send paths drop the device once more; an address without a server is the
      one case in which that still matters. */
  lemma NonADRefiled(e: Event, index: seq<LidPair>, final: seq<LidPair>)
    requires !e.Learn? && !e.History? && ValidIndex(final) && Honest(e, final)
    requires forall p :: p in index ==> p in final
    ensures JidString(ToNonAD(CanonicalJid(Index(final), Addressee(e), EMPTY_JID).jid)) ==
            Projected(final, JidString(ToNonAD(FiledUnder(e, index))))
  {
    var jid := Addressee(e);
    FiledThenReadIsFinal(LookupOf(e, index), final, jid, Alternative(e));
    NonADFiled(LookupOf(e, index), jid, Alternative(e));
    NonADFiled(Index(final), jid, EMPTY_JID);
    if jid.server == "" {
      FiledThenReadIsFinal(LookupOf(e, index), final, ToNonAD(jid), Alternative(e));
    }
  }

  // ------------------------------------------------------------ the sender of a history record

  /** A sender given as text reads the same in the end, whatever was known when it was resolved. */
  lemma SameSenderText(final: seq<LidPair>, lids: Resolver, m: Message, m': Message)
    requires ValidIndex(final) && Within(lids, final) && m.sender == m'.sender
    ensures SameSender(final, CanonicalSender(lids, m).sender, CanonicalSender(Index(final), m').sender)
  {
    var parsed := ParseJid(m.sender);
    if parsed.Some? {
      FiledThenReadIsFinal(lids, final, parsed.value, EMPTY_JID);
      FiledThenReadIsFinal(Index(final), final, parsed.value, EMPTY_JID);
    }
  }

  lemma SpelledPlainly(jid: JID)
    requires WellFormed(jid) && ':' !in jid.user && jid.device == 0 && jid.server != ""
    ensures Folds.WrittenPlainly(JidString(jid))
  {
    if jid.user != "" {
      Folds.PlainOf(jid.user, jid.server);
    } else {
      assert IndexOf(jid.server, '@') < 0;
    }
  }

  /** What a write path files is written plainly and carries no device. */
  lemma FiledIsPlain(lids: Resolver, final: seq<LidPair>, raw: JID)
    requires ValidIndex(final) && Within(lids, final) && WellFormed(raw) && ':' !in raw.user && raw.server != ""
    ensures var s := CanonicalString(lids, raw, EMPTY_JID); Folds.WrittenPlainly(s) && NonAD(s) == s
  {
    FiledCarriesNoDevice(lids, final, raw, EMPTY_JID);
    FiledWell(lids, final, raw);
    SpelledPlainly(CanonicalJid(lids, raw, EMPTY_JID).jid);
  }

  lemma FiledWell(lids: Resolver, final: seq<LidPair>, raw: JID)
    requires ValidIndex(final) && Within(lids, final) && WellFormed(raw) && ':' !in raw.user && raw.server != ""
    ensures var c := CanonicalJid(lids, raw, EMPTY_JID).jid;
            WellFormed(c) && ':' !in c.user && c.device == 0 && c.server != ""
  {
    if GetNumber(lids, raw).Some? {
      assert Bare(LidPair(raw.user, GetNumber(lids, raw).value).pn);
    }
  }

  /** An address without a server parses to one without a server. */
  lemma NoServerStays(raw: JID)
    requires WellFormed(raw) && ':' !in raw.user && raw.server == ""
    ensures ParseJid(JidString(raw)).Some? ==> ParseJid(JidString(raw)).value.server == ""
  {
    if raw.device > 0 {
      assert !IsDigit('@');
      SplitHalves(raw.user + ":" + Decimal(raw.device), "");
      FirstServerIs("");
    } else if raw.user != "" {
      SplitHalves(raw.user, "");
      FirstServerIs("");
    }
  }

  /** A chat filed as its own sender reads as the chat, resolved once more or not. */
  lemma ChatAsSender(final: seq<LidPair>, lids: Resolver, raw: JID, m: Message)
    requires ValidIndex(final) && Within(lids, final) && WellFormed(raw) && ':' !in raw.user
    requires m.sender == CanonicalString(lids, raw, EMPTY_JID)
    ensures Projected(final, CanonicalSender(lids, m).sender) == CanonicalString(Index(final), raw, EMPTY_JID)
    ensures lids == Index(final) ==> Projected(final, CanonicalSender(lids, m).sender) == CanonicalSender(lids, m).sender
  {
    FiledThenReadIsFinal(lids, final, raw, EMPTY_JID);
    var parsed := ParseJid(m.sender);
    if raw.server == "" {
      NoServerStays(raw);
    } else if parsed.Some? && parsed.value.server != "" {
      FiledIsPlain(lids, final, raw);
      Folds.ReadFoldIsWriteFold(final, m.sender);
      FiledThenReadIsFinal(lids, final, parsed.value, EMPTY_JID);
    }
  }

  lemma HistorySendersRead(
      final: seq<LidPair>, lids: Resolver, raw: JID, batch: seq<Message>, batch': seq<Message>)
    requires ValidIndex(final) && Within(lids, final) && WellFormed(raw) && ':' !in raw.user
    requires SendersOf(CanonicalJid(lids, raw, EMPTY_JID).jid, CanonicalJid(Index(final), raw, EMPTY_JID).jid, batch, batch')
    ensures forall i :: 0 <= i < |batch| ==>
              SameSender(final, CanonicalSenders(lids, batch)[i].sender, CanonicalSenders(Index(final), batch')[i].sender)
  {
    forall i | 0 <= i < |batch|
      ensures SameSender(final, CanonicalSenders(lids, batch)[i].sender, CanonicalSenders(Index(final), batch')[i].sender) {
      assert SenderOf(CanonicalJid(lids, raw, EMPTY_JID).jid, CanonicalJid(Index(final), raw, EMPTY_JID).jid, batch[i], batch'[i]);
      if batch[i].sender == batch'[i].sender {
        SameSenderText(final, lids, batch[i], batch'[i]);
      } else {
        ChatAsSender(final, lids, raw, batch[i]);
        ChatAsSender(final, Index(final), raw, batch'[i]);
      }
    }
  }

  // ------------------------------------------------------------------------ one event

  lemma HistoryEventRefiled(e: Event, scope: Scope, index: seq<LidPair>, final: seq<LidPair>, senders: bool)
    requires e.History? && ValidIndex(final) && Honest(e, final) && (senders ==> HonestSender(e, final))
    requires forall p :: p in index ==> p in final
    ensures AllRefiled(final, senders, Records(e, scope, FiledUnder(e, index), LookupOf(e, index)),
                       Records(e, scope, CanonicalJid(Index(final), Addressee(e), EMPTY_JID).jid, Index(final)))
  {
    var lids := LookupOf(e, index);
    var chat, chat' := FiledUnder(e, index), CanonicalJid(Index(final), e.raw, EMPTY_JID).jid;
    FiledThenReadIsFinal(lids, final, e.raw, EMPTY_JID);
    SameDecision(scope, lids, final, e.raw, EMPTY_JID);
    var decision := HistoryDecisionFor(scope, chat);
    HistoryRefiled(final, e.tenant, e.own, chat, chat', decision, e.messages, e.now);
    var records := HistoryRecords(e.tenant, e.own, chat, decision, e.messages, e.now);
    var records' := HistoryRecords(e.tenant, e.own, chat', decision, e.messages, e.now);
    SendersRefiled(final, lids, Index(final), records, records');
    if senders {
      HistorySendersRead(final, lids, e.raw, records, records');
    }
  }

  lemma OneRecordRefiled(e: Event, scope: Scope, index: seq<LidPair>, final: seq<LidPair>, senders: bool)
    requires (e.Live? || e.Send?) && ValidIndex(final) && Honest(e, final) && (senders ==> HonestSender(e, final))
    requires forall p :: p in index ==> p in final
    ensures AllRefiled(final, senders, Records(e, scope, FiledUnder(e, index), LookupOf(e, index)),
                       Records(e, scope, CanonicalJid(Index(final), Addressee(e), EMPTY_JID).jid, Index(final)))
  {
    NonADRefiled(e, index, final);
    if senders && e.Live? {
      SenderRefiled(LookupOf(e, index), final, e.live.sender, e.live.senderAlt);
    }
  }

  /** A live sender, filed early or late, is the same one. */
  lemma SenderRefiled(lids: Resolver, final: seq<LidPair>, sender: JID, alt: JID)
    requires ValidIndex(final) && Within(lids, final) && WellFormed(sender) && Agrees(final, sender, alt)
    ensures SameSender(final, JidString(ToNonAD(CanonicalJid(lids, sender, alt).jid)),
                       JidString(ToNonAD(CanonicalJid(Index(final), sender, alt).jid)))
  {
    FiledThenReadIsFinal(lids, final, sender, alt);
    FiledThenReadIsFinal(Index(final), final, sender, alt);
    NonADFiled(lids, sender, alt);
    NonADFiled(Index(final), sender, alt);
    if sender.server == LID && alt.server == PHONE && alt.user != "" {
      NumberOfPair(final, LidPair(sender.user, alt.user));
    }
  }

  lemma RecordsRefiled(e: Event, scope: Scope, index: seq<LidPair>, final: seq<LidPair>, senders: bool)
    requires !e.Learn? && ValidIndex(final) && Honest(e, final) && (senders ==> HonestSender(e, final))
    requires forall p :: p in index ==> p in final
    ensures AllRefiled(final, senders, Records(e, scope, FiledUnder(e, index), LookupOf(e, index)),
                       Records(e, scope, CanonicalJid(Index(final), Addressee(e), EMPTY_JID).jid, Index(final)))
  {
    if e.History? {
      HistoryEventRefiled(e, scope, index, final, senders);
    } else {
      OneRecordRefiled(e, scope, index, final, senders);
    }
  }

  lemma {:induction false} RunRefiled(
      w: World, rows': seq<Message>, tenants: set<string>, scope: Scope, events: seq<Event>, final: seq<LidPair>, senders: bool)
    requires ValidIndex(final) && Run(w, tenants, scope, events).index <= final
    requires AllRefiled(final, senders, w.rows, rows')
    requires forall e :: e in events ==> Honest(e, final) && (senders ==> HonestSender(e, final))
    ensures AllRefiled(final, senders, Run(w, tenants, scope, events).rows, FinalRun(rows', final, tenants, scope, events))
  {
    if events != [] {
      var init, e := events[..|events| - 1], events[|events| - 1];
      assert events == init + [e];
      RunRefiled(w, rows', tenants, scope, init, final, senders);
      if !e.Learn? {
        var sofar := Run(w, tenants, scope, init);
        RecordsRefiled(e, scope, sofar.index, final, senders);
        StoreRefiled(final, senders, tenants, sofar.rows, FinalRun(rows', final, tenants, scope, init),
          Records(e, scope, FiledUnder(e, sofar.index), LookupOf(e, sofar.index)),
          Records(e, scope, CanonicalJid(Index(final), Addressee(e), EMPTY_JID).jid, Index(final)), e.now);
      }
    }
  }

  function Refile(final: seq<LidPair>): Message -> Message {
    (m: Message) => m.(chat := Projected(final, m.chat))
  }

  /** A message as it reads in the end: under its canonical chat and, with `senders`, from its
      canonical sender. */
  function Readable(final: seq<LidPair>, senders: bool): Message -> Message {
    (m: Message) => m.(chat := Projected(final, m.chat), sender := if senders then Projected(final, m.sender) else "")
  }

  lemma RefiledReadsAlike(final: seq<LidPair>, senders: bool, m: Message, m': Message)
    requires ValidIndex(final) && Refiled(final, senders, m, m')
    ensures Projected(final, m.chat) == Projected(final, m'.chat) && m.tenant == m'.tenant
    ensures Readable(final, senders)(m) == Readable(final, senders)(m')
  {
    ProjectedIsStable(final, m.chat);
    RefiledKeeps(final, senders, m, m');
    assert Views.Unaddressed(m) == m.(chat := "", sender := "") && Views.Unaddressed(m') == m'.(chat := "", sender := "");
    assert m' == m.(chat := m'.chat, sender := m'.sender);
  }

  /** Row by row, a run stores what the run that knew the final index would have. */
  lemma EveryRunIsRefiled(w: World, tenants: set<string>, scope: Scope, events: seq<Event>, senders: bool)
    requires ValidIndex(Run(w, tenants, scope, events).index)
    requires forall e :: e in events ==> Honest(e, Run(w, tenants, scope, events).index)
    requires senders ==> forall e :: e in events ==> HonestSender(e, Run(w, tenants, scope, events).index)
    ensures var final := Run(w, tenants, scope, events).index;
            AllRefiled(final, senders, Run(w, tenants, scope, events).rows,
                       FinalRun(Map(Refile(final), w.rows), final, tenants, scope, events))
  {
    var final := Run(w, tenants, scope, events).index;
    var start := Map(Refile(final), w.rows);
    forall i | 0 <= i < |w.rows| ensures Refiled(final, senders, w.rows[i], start[i]) {
      assert start[i] == Refile(final)(w.rows[i]);
    }
    RunRefiled(w, start, tenants, scope, events, final, senders);
  }

  /** In whatever order messages and LID pairs arrive, through whichever paths, and over
      whatever was stored before: read with the final index, ListChats, ListByChat and OldestByChat
      report what they would have had every message, in the same order, been filed under its final
      canonical address -- the same list, and the same messages in the same chats. Where the
      alternatives of senders are right as well, the messages have the same senders. */
  lemma EveryRunReadsAsFinal(
      w: World, tenants: set<string>, scope: Scope, events: seq<Event>, names: seq<ChatName>,
      tenant: string, query: string, limit: int, senders: bool)
    requires ValidIndex(Run(w, tenants, scope, events).index) && ValidNames(names)
    requires forall e :: e in events ==> Honest(e, Run(w, tenants, scope, events).index)
    requires senders ==> forall e :: e in events ==> HonestSender(e, Run(w, tenants, scope, events).index)
    ensures var final := Run(w, tenants, scope, events).index;
            var actual := Run(w, tenants, scope, events).rows;
            var ideal := FinalRun(Map(Refile(final), w.rows), final, tenants, scope, events);
            var shown := Readable(final, senders);
            && Conversations.ListChats(actual, tenant, final, names, limit) ==
               Conversations.ListChats(ideal, tenant, final, names, limit)
            && Map(shown, Conversations.ListByChat(actual, tenant, final, query, limit)) ==
               Map(shown, Conversations.ListByChat(ideal, tenant, final, query, limit))
            && Views.Seen(shown, Conversations.OldestByChat(actual, tenant, final, query)) ==
               Views.Seen(shown, Conversations.OldestByChat(ideal, tenant, final, query))
  {
    var final := Run(w, tenants, scope, events).index;
    var actual := Run(w, tenants, scope, events).rows;
    var start := Map(Refile(final), w.rows);
    var ideal := FinalRun(start, final, tenants, scope, events);
    var shown := Readable(final, senders);
    EveryRunIsRefiled(w, tenants, scope, events, senders);
    forall i | 0 <= i < |actual|
      ensures actual[i].tenant == ideal[i].tenant && shown(actual[i]) == shown(ideal[i])
      ensures Views.Unaddressed(actual[i]) == Views.Unaddressed(ideal[i])
      ensures Projected(final, actual[i].chat) == Projected(final, ideal[i].chat) {
      assert Refiled(final, senders, actual[i], ideal[i]);
      RefiledReadsAlike(final, senders, actual[i], ideal[i]);
    }
    assert Views.SameConversations(Views.Unaddressed, actual, ideal, final);
    assert Views.SameConversations(shown, actual, ideal, final);
    Views.SameLists(actual, ideal, tenant, final, names, limit);
    Views.SamePages(shown, actual, ideal, tenant, final, query, limit);
    Views.SameOldest(shown, actual, ideal, tenant, final, query);
  }
}
