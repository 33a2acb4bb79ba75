/**
 On-demand backfill: the request and its reply meet on one key however the
 conversation is named, and every stored conversation has an anchor to ask from.
 */
module Backfill {
  import opened Text
  import opened Sorting
  import opened Addresses
  import opened Messages
  import opened Conversations
  import opened Repository
  import opened Intake
  import Pending

  // ------------------------------------------------------------------------ keys

  const SEPARATOR := '\0'

  function HistoryKey(tenant: string, chat: string): string {
    tenant + [SEPARATOR] + chat
  }

  /** The key a SyncHistory call waits under; `None` when the caller's text is no address. */
  function RequestKey(tenant: string, raw: string, lids: Resolver): Option<string> {
    match ParseRecipient(raw)
    case None => None
    case Some(chat) => Some(HistoryKey(tenant, CanonicalString(lids, chat, EMPTY_JID)))
  }

  /** The key the reply for one conversation is delivered under. */
  function ReplyKey(tenant: string, conversation: string, lids: Resolver): Option<string> {
    match ParseJid(conversation)
    case None => None
    case Some(raw) =>
      if raw.user == "" then None else Some(HistoryKey(tenant, CanonicalString(lids, raw, EMPTY_JID)))
  }

  /** Keys tell (tenant, conversation) pairs apart as long as tenant ids hold no NUL. */
  lemma KeysAreDistinct(tenant: string, chat: string, tenant': string, chat': string)
    requires SEPARATOR !in tenant && SEPARATOR !in tenant'
    ensures HistoryKey(tenant, chat) == HistoryKey(tenant', chat') <==> tenant == tenant' && chat == chat'
  {
    var k, k' := HistoryKey(tenant, chat), HistoryKey(tenant', chat');
    IndexOfFirst(tenant, SEPARATOR, chat);
    IndexOfFirst(tenant', SEPARATOR, chat');
    if k == k' {
      assert k[..|tenant|] == tenant && k'[..|tenant'|] == tenant';
      assert k[|tenant| + 1..] == chat && k'[|tenant'| + 1..] == chat';
    }
  }

  /** Two tenants could share a key if and only if one's id goes on with a NUL where the other's ends. */
  lemma TenantsCollideExactly(tenant: string, tenant': string)
    requires tenant != tenant'
    ensures (exists chat, chat' :: HistoryKey(tenant, chat) == HistoryKey(tenant', chat')) <==>
            tenant + [SEPARATOR] <= tenant' || tenant' + [SEPARATOR] <= tenant
  {
    if chat, chat' :| HistoryKey(tenant, chat) == HistoryKey(tenant', chat') {
      SharedKeyIsPrefix(tenant, chat, tenant', chat');
    }
    if tenant + [SEPARATOR] <= tenant' {
      PrefixSharesAKey(tenant, tenant');
    }
    if tenant' + [SEPARATOR] <= tenant {
      PrefixSharesAKey(tenant', tenant);
    }
  }

  lemma SharedKeyIsPrefix(tenant: string, chat: string, tenant': string, chat': string)
    requires tenant != tenant' && HistoryKey(tenant, chat) == HistoryKey(tenant', chat')
    ensures tenant + [SEPARATOR] <= tenant' || tenant' + [SEPARATOR] <= tenant
  {
    var key := HistoryKey(tenant, chat);
    var n, n' := |tenant|, |tenant'|;
    assert key[..n] == tenant && key[..n'] == tenant' && key[n] == SEPARATOR == key[n'];
    if n < n' {
      assert tenant'[..n + 1] == key[..n + 1] == tenant + [SEPARATOR];
    } else if n' < n {
      assert tenant[..n' + 1] == key[..n' + 1] == tenant' + [SEPARATOR];
    }
  }

  lemma PrefixSharesAKey(tenant: string, tenant': string)
    requires tenant + [SEPARATOR] <= tenant'
    ensures exists chat :: HistoryKey(tenant, chat) == HistoryKey(tenant', "")
  {
    var rest := tenant'[|tenant| + 1..];
    assert tenant' == tenant + [SEPARATOR] + rest;
    assert HistoryKey(tenant, rest + [SEPARATOR]) == HistoryKey(tenant', "");
  }

  /** The address names the person with that phone number: by number or by known LID, on any device. */
  predicate Names(index: seq<LidPair>, jid: JID, number: string) {
    || (jid.server == PHONE && jid.user == number)
    || (jid.server == LID && LidPair(jid.user, number) in index)
  }

  lemma NamesOneAddress(index: seq<LidPair>, jid: JID, number: string)
    requires ValidIndex(index) && Bare(number) && Names(index, jid, number)
    ensures CanonicalString(Index(index), jid, EMPTY_JID) == Render(number, PHONE)
  {
    if jid.server == LID {
      NumberOfPair(index, LidPair(jid.user, number));
    }
  }

  /** With an unchanged index, two requests and a reply that name one person -- by phone, by LID or
      with a device -- all use the same key. */
  lemma EveryFormMeetsOnOneKey(tenant: string, index: seq<LidPair>, number: string, raw: string, raw': string, conversation: string)
    requires ValidIndex(index) && Bare(number)
    requires ParseRecipient(raw).Some? && Names(index, ParseRecipient(raw).value, number)
    requires ParseRecipient(raw').Some? && Names(index, ParseRecipient(raw').value, number)
    requires ParseJid(conversation).Some? && Names(index, ParseJid(conversation).value, number)
    ensures RequestKey(tenant, raw, Index(index)) == RequestKey(tenant, raw', Index(index))
    ensures RequestKey(tenant, raw, Index(index)) == ReplyKey(tenant, conversation, Index(index))
            == Some(HistoryKey(tenant, Render(number, PHONE)))
  {
    NamesOneAddress(index, ParseRecipient(raw).value, number);
    NamesOneAddress(index, ParseRecipient(raw').value, number);
    NamesOneAddress(index, ParseJid(conversation).value, number);
    if ParseJid(conversation).value.server == LID {
      assert Bare(ParseJid(conversation).value.user);
    }
  }

  predicate Digits(s: string) {
    s != "" && forall c :: c in s ==> IsDigit(c)
  }

  lemma {:induction false} KeepDigitsOnly(s: string)
    requires forall c :: c in s ==> IsDigit(c)
    ensures KeepDigits(s) == s
  {
    if s != "" {
      assert s[0] in s;
      KeepDigitsOnly(s[1..]);
    }
  }

  /** Any of these is understood as the address it spells. */
  lemma FormParses(user: string, device: nat, server: string)
    requires Digits(user) && device < 0x1_0000 && server in [PHONE, LID]
    ensures ParseRecipient(JidString(JID(user, device, server))) == Some(JID(user, device, server))
  {
    var raw := JidString(JID(user, device, server));
    AddressIsTrimmed(user, device, server);
    if device > 0 {
      ParseWithDevice(user, device, server);
    } else {
      ParsePlain(user, server);
    }
    ParseAddress(raw, JID(user, device, server));
  }

  lemma AddressIsTrimmed(user: string, device: nat, server: string)
    requires Digits(user) && server in [PHONE, LID]
    ensures var raw := JidString(JID(user, device, server)); Trimmed(raw) && '@' in raw
  {
    var raw := JidString(JID(user, device, server));
    var name := if device > 0 then user + ":" + Decimal(device) else user;
    assert raw == name + "@" + server;
    assert raw[0] == user[0] && user[0] in user;
    assert raw[|raw| - 1] == server[|server| - 1];
    assert raw[|name|] == '@';
  }

  lemma NumberParses(number: string)
    requires Digits(number)
    ensures ParseRecipient(number) == Some(JID(number, 0, PHONE))
  {
    assert number[0] in number && number[|number| - 1] in number;
    assert Trimmed(number) && '@' !in number;
    KeepDigitsOnly(number);
    ParsePlain(number, PHONE);
  }

  /** The forms a caller may hold -- the bare number, the phone address, the LID, and either
      with a device -- all name the same person. */
  lemma FormsOfOnePerson(index: seq<LidPair>, lid: string, number: string, device: nat, raw: string)
    requires Digits(lid) && Digits(number) && LidPair(lid, number) in index && 0 < device < 0x1_0000
    requires || raw == number || raw == Render(number, PHONE) || raw == Render(lid, LID)
             || raw == JidString(JID(number, device, PHONE)) || raw == JidString(JID(lid, device, LID))
    ensures ParseRecipient(raw).Some? && Names(index, ParseRecipient(raw).value, number)
  {
    NumberParses(number);
    FormParses(number, 0, PHONE);
    FormParses(lid, 0, LID);
    FormParses(number, device, PHONE);
    FormParses(lid, device, LID);
  }

  lemma KeysMeetOnAddresses(tenant: string, raw: string, lids: Resolver, tenant': string, conversation: string, lids': Resolver)
    requires SEPARATOR !in tenant && SEPARATOR !in tenant'
    requires RequestKey(tenant, raw, lids).Some? && ReplyKey(tenant', conversation, lids').Some?
    ensures RequestKey(tenant, raw, lids) == ReplyKey(tenant', conversation, lids') <==>
            tenant == tenant'
            && CanonicalString(lids, ParseRecipient(raw).value, EMPTY_JID) ==
               CanonicalString(lids', ParseJid(conversation).value, EMPTY_JID)
  {
    KeysAreDistinct(tenant, CanonicalString(lids, ParseRecipient(raw).value, EMPTY_JID),
      tenant', CanonicalString(lids', ParseJid(conversation).value, EMPTY_JID));
  }

  /** The address can be turned into a number with what is known: it is one, or its LID is known. */
  predicate Resolves(lids: Resolver, jid: JID) {
    jid.server == LID ==> GetNumber(lids, jid).Some?
  }

  /** Whoever names a person is filed under the number if that resolves, and under the LID if not. */
  lemma NamedForm(lids: Resolver, final: seq<LidPair>, jid: JID, number: string)
    requires ValidIndex(final) && Within(lids, final) && Bare(number) && Names(final, jid, number)
    ensures CanonicalString(lids, jid, EMPTY_JID) == if Resolves(lids, jid) then Render(number, PHONE) else Render(jid.user, LID)
  {
    if jid.server == LID {
      var pair := LidPair(jid.user, number);
      assert Bare(pair.lid);
      if Resolves(lids, jid) {
        PairsAreUnique(final, pair, LidPair(jid.user, GetNumber(lids, jid).value));
      }
    }
  }

  /** A request and a reply for one person, each made with whatever it knew of the index, meet if
      and only if both could turn their address into the number or neither could. */
  lemma KeysMeetExactly(
      tenant: string, final: seq<LidPair>, number: string,
      raw: string, lids: Resolver, conversation: string, lids': Resolver)
    requires SEPARATOR !in tenant && ValidIndex(final) && Bare(number)
    requires Within(lids, final) && Within(lids', final)
    requires ParseRecipient(raw).Some? && Names(final, ParseRecipient(raw).value, number)
    requires ParseJid(conversation).Some? && Names(final, ParseJid(conversation).value, number)
    ensures RequestKey(tenant, raw, lids) == ReplyKey(tenant, conversation, lids') <==>
            (Resolves(lids, ParseRecipient(raw).value) <==> Resolves(lids', ParseJid(conversation).value))
  {
    var asked, told := ParseRecipient(raw).value, ParseJid(conversation).value;
    NamedForm(lids, final, asked, number);
    NamedForm(lids', final, told, number);
    NamedHasUser(final, told, number);
    KeysMeetOnAddresses(tenant, raw, lids, tenant, conversation, lids');
    OneLidPerNumber(final, asked, told, number);
    LidIsNoNumber(asked.user, number);
    LidIsNoNumber(told.user, number);
  }

  lemma NamedHasUser(index: seq<LidPair>, jid: JID, number: string)
    requires ValidIndex(index) && Bare(number) && Names(index, jid, number)
    ensures jid.user != ""
  {
    if jid.server == LID {
      assert Bare(LidPair(jid.user, number).lid);
    }
  }

  lemma OneLidPerNumber(index: seq<LidPair>, jid: JID, jid': JID, number: string)
    requires ValidIndex(index) && Names(index, jid, number) && Names(index, jid', number)
    ensures jid.server == LID == jid'.server ==> jid.user == jid'.user
  {
    if jid.server == LID == jid'.server {
      PairsAreUnique(index, LidPair(jid.user, number), LidPair(jid'.user, number));
    }
  }

  lemma LidIsNoNumber(lid: string, number: string)
    requires '@' !in lid && '@' !in number
    ensures Render(lid, LID) != Render(number, PHONE)
  {
    if Render(lid, LID) == Render(number, PHONE) {
      RenderIsInjective(lid, LID, number, PHONE);
    }
  }

  /** With an index that only grew between a request and its reply, the two meet if and only if
      the request named a number or a LID that was known by then, however either is spelled. */
  lemma LearntPairSplitsTheKeys(
      tenant: string, before: seq<LidPair>, after: seq<LidPair>, number: string, raw: string, conversation: string)
    requires SEPARATOR !in tenant && ValidIndex(after) && Bare(number)
    requires forall p :: p in before ==> p in after
    requires ParseRecipient(raw).Some? && Names(after, ParseRecipient(raw).value, number)
    requires ParseJid(conversation).Some? && Names(after, ParseJid(conversation).value, number)
    ensures RequestKey(tenant, raw, Index(before)) == ReplyKey(tenant, conversation, Index(after)) <==>
            (ParseRecipient(raw).value.server == LID ==> NumberOf(before, ParseRecipient(raw).value.user).Some?)
  {
    var told := ParseJid(conversation).value;
    if told.server == LID {
      NumberOfPair(after, LidPair(told.user, number));
    }
    KeysMeetExactly(tenant, after, number, raw, Index(before), conversation, Index(after));
  }

  // ---------------------------------------------------------------- one in flight

  /** While a request for a conversation is registered, another one for it, under any name,
      is refused and changes nothing, and the reply finds the one that waits. */
  lemma OneBackfillPerConversation(
      s: Pending.State, channel: nat, tenant: string, index: seq<LidPair>, number: string,
      raw: string, raw': string, conversation: string, worker: nat, d: Pending.Delivery)
    requires ValidIndex(index) && Bare(number)
    requires ParseRecipient(raw).Some? && Names(index, ParseRecipient(raw).value, number)
    requires ParseRecipient(raw').Some? && Names(index, ParseRecipient(raw').value, number)
    requires ParseJid(conversation).Some? && Names(index, ParseJid(conversation).value, number)
    requires Pending.Invariant(s) && Pending.Waiting(s, channel)
    requires s.keyOf[channel] == RequestKey(tenant, raw, Index(index)).value
    requires worker !in s.inFlight
    ensures RequestKey(tenant, raw', Index(index)).Some? && ReplyKey(tenant, conversation, Index(index)).Some?
    ensures Pending.Step(s, Pending.Register(RequestKey(tenant, raw', Index(index)).value)) == s
    ensures var t := Pending.Step(s, Pending.Take(worker, ReplyKey(tenant, conversation, Index(index)).value, d));
            t.inFlight == s.inFlight[worker := Pending.Taken(channel, d)] && !Pending.Waiting(t, channel)
  {
    EveryFormMeetsOnOneKey(tenant, index, number, raw, raw', conversation);
  }

  /** Requests for different conversations never get in each other's way. */
  lemma OtherConversationsAreFree(s: Pending.State, tenant: string, chat: string, tenant': string, chat': string)
    requires SEPARATOR !in tenant && SEPARATOR !in tenant'
    requires tenant != tenant' || chat != chat'
    requires HistoryKey(tenant', chat') !in s.waiters
    ensures Pending.Step(s, Pending.Register(HistoryKey(tenant, chat))).waiters.Keys >= s.waiters.Keys
    ensures HistoryKey(tenant', chat') !in Pending.Step(s, Pending.Register(HistoryKey(tenant, chat))).waiters
  {
    KeysAreDistinct(tenant, chat, tenant', chat');
  }

  // ------------------------------------------------------------------ the calls

  datatype SyncStart =
    | NotPaired
    | InvalidAddress
    | NoAnchor
    | InProgress
    | Started(channel: nat, anchor: Message, chat: string)

  /** SyncHistory up to the point where it waits: an unpaired tenant is refused before anything is looked at. */
  method BeginSync(
      db: Database, pending: Pending.PendingHistory, paired: bool, tenant: string, raw: string, lids: Resolver, answers: Answers)
    returns (start: SyncStart)
    requires db.Valid() && Pending.Invariant(pending.View())
    modifies db`lidMap, pending
    ensures db.Valid() && Pending.Invariant(pending.View())
    ensures start.NotPaired? <==> !paired
    ensures start.InvalidAddress? <==> paired && ParseRecipient(raw).None?
    ensures paired && ParseRecipient(raw).Some? ==>
              var chat := CanonicalString(lids, ParseRecipient(raw).value, EMPTY_JID);
              var anchor := Conversations.OldestByChat(db.rows, tenant, old(db.Asked(answers)), chat);
              var key := HistoryKey(tenant, chat);
              && (start.NoAnchor? <==> anchor.None?)
              && (start.InProgress? <==> anchor.Some? && key in old(pending.View()).waiters)
              && (start.Started? ==>
                    && start == Started(old(pending.made), anchor.value, chat)
                    && pending.View() == Pending.Step(old(pending.View()), Pending.Register(key))
                    && Pending.Waiting(pending.View(), start.channel))
    ensures !start.Started? ==> pending.View() == old(pending.View())
  {
    if !paired { return NotPaired; }
    var parsed := ParseRecipient(raw);
    if parsed.None? { return InvalidAddress; }
    var chat := CanonicalString(lids, parsed.value, EMPTY_JID);
    var anchor := db.OldestByChat(tenant, chat, answers);
    if anchor.None? { return NoAnchor; }
    var channel := pending.Register(HistoryKey(tenant, chat));
    if channel.None? { return InProgress; }
    start := Started(channel.value, anchor.value, chat);
  }

  /** What a waiter is told: the counts, and the time of the oldest message the chat holds. */
  function Report(rows: seq<Message>, tenant: string, known: seq<LidPair>, chat: string, inserted: int, delivered: int): Pending.Delivery {
    var oldest := Conversations.OldestByChat(rows, tenant, known, chat);
    Pending.Delivery(inserted, delivered, if oldest.Some? then Some(oldest.value.timestamp) else None)
  }

  /** Sends the counts and the new oldest time to the waiter of the chat, if the registry has one. */
  method DeliverOnDemand(
      db: Database, pending: Pending.PendingHistory, worker: nat, tenant: string, chat: string, inserted: int, delivered: int,
      answers: Answers)
    returns (woken: bool)
    requires db.Valid() && Pending.Invariant(pending.View()) && worker !in pending.inFlight
    modifies db`lidMap, pending
    ensures db.Valid() && Pending.Invariant(pending.View())
    ensures woken <==> HistoryKey(tenant, chat) in old(pending.waiters)
    ensures pending.inFlight == old(pending.inFlight)
    ensures pending.waiters == Pending.Without(old(pending.waiters), HistoryKey(tenant, chat))
    ensures woken ==>
              pending.buffers == old(pending.buffers)[old(pending.waiters)[HistoryKey(tenant, chat)] :=
                [Report(db.rows, tenant, old(db.Asked(answers)), chat, inserted, delivered)]]
    ensures !woken ==> pending.View() == old(pending.View())
  {
    var oldest := db.OldestByChat(tenant, chat, answers);
    var d := Pending.Delivery(inserted, delivered, if oldest.Some? then Some(oldest.value.timestamp) else None);
    woken := pending.Deliver(worker, HistoryKey(tenant, chat), d);
  }

  // ---------------------------------------------------------------------- anchors

  lemma {:induction false} UsableMember(tenant: string, own: JID, chat: JID, messages: seq<HistoryMessage>, now: int, m: Message)
    ensures m in UsableRecords(tenant, own, chat, messages, now) <==>
            exists h :: h in messages && Usable(h) && m == HistoryRecord(tenant, own, chat, h, now)
  {
    if messages != [] {
      var init, last := messages[..|messages| - 1], messages[|messages| - 1];
      assert messages == init + [last];
      UsableMember(tenant, own, chat, init, now, m);
      if h :| h in messages && Usable(h) && m == HistoryRecord(tenant, own, chat, h, now) {
        assert h in init || h == last;
      }
    }
  }

  /** Anchor-only keeps exactly one usable message, of the greatest timestamp. */
  lemma AnchorIsTheNewestUsable(tenant: string, own: JID, chat: JID, messages: seq<HistoryMessage>, now: int)
    requires exists h :: h in messages && Usable(h)
    ensures exists h :: h in messages && Usable(h)
              && HistoryRecords(tenant, own, chat, AnchorOnly, messages, now) == [HistoryRecord(tenant, own, chat, h, now)]
              && forall o :: o in messages && Usable(o) ==> o.timestamp <= h.timestamp
  {
    var records := UsableRecords(tenant, own, chat, messages, now);
    var some :| some in messages && Usable(some);
    UsableMember(tenant, own, chat, messages, now, HistoryRecord(tenant, own, chat, some, now));
    var i := NewestIndex(Map(TimeOf, records));
    UsableMember(tenant, own, chat, messages, now, records[i]);
    var h :| h in messages && Usable(h) && records[i] == HistoryRecord(tenant, own, chat, h, now);
    forall o | o in messages && Usable(o) ensures o.timestamp <= h.timestamp {
      UsableMember(tenant, own, chat, messages, now, HistoryRecord(tenant, own, chat, o, now));
      var k :| 0 <= k < |records| && records[k] == HistoryRecord(tenant, own, chat, o, now);
      assert Map(TimeOf, records)[k] <= Map(TimeOf, records)[i];
    }
  }

  /** What every record of a conversation has in common. */
  ghost predicate OfConversation(batch: seq<Message>, tenant: string, chat: string) {
    forall m :: m in batch ==> m.tenant == tenant && m.chat == chat && m.waId != "" && !m.direction.Other?
  }

  lemma HistoryIsOfConversation(
      tenant: string, own: JID, chat: JID, decision: Decision, messages: seq<HistoryMessage>, now: int, lids: Resolver)
    ensures OfConversation(CanonicalSenders(lids, HistoryRecords(tenant, own, chat, decision, messages, now)), tenant, JidString(chat))
    ensures decision != SkipChat && (exists h :: h in messages && Usable(h)) ==>
              HistoryRecords(tenant, own, chat, decision, messages, now) != []
  {
    var records := HistoryRecords(tenant, own, chat, decision, messages, now);
    var batch := CanonicalSenders(lids, records);
    forall m | m in batch ensures m.tenant == tenant && m.chat == JidString(chat) && m.waId != "" && !m.direction.Other? {
      var i :| 0 <= i < |batch| && batch[i] == m;
      assert records[i] in UsableRecords(tenant, own, chat, messages, now);
      UsableMember(tenant, own, chat, messages, now, records[i]);
    }
    if h :| h in messages && Usable(h) {
      UsableMember(tenant, own, chat, messages, now, HistoryRecord(tenant, own, chat, h, now));
    }
  }

  lemma {:induction false} PreparedKeeps(batch: seq<Message>, newIds: seq<string>, tenant: string, chat: string, now: int)
    requires |newIds| == |batch| && OfConversation(batch, tenant, chat) && tenant != "" && chat != ""
    ensures var p := PrepareAll(batch, newIds, now);
            && p.Ok?
            && forall i :: 0 <= i < |batch| ==> KeyOf(p.value[i]) == KeyOf(batch[i]) && p.value[i].chat == chat
  {
    if batch != [] {
      var n := |batch| - 1;
      assert batch[n] in batch;
      assert OfConversation(batch[..n], tenant, chat);
      PreparedKeeps(batch[..n], newIds[..n], tenant, chat, now);
    }
  }

  lemma {:induction false} NewRowsComeFromTheBatch(rows: seq<Message>, tenants: set<string>, batch: seq<Message>, r: Message)
    requires InsertAll(rows, tenants, batch).Some? && r in InsertAll(rows, tenants, batch).value
    ensures r in rows || exists b :: b in batch && r == Stored(b)
  {
    if batch != [] {
      var init, last := batch[..|batch| - 1], batch[|batch| - 1];
      assert batch == init + [last];
      var sofar := InsertAll(rows, tenants, init).value;
      if r in sofar {
        NewRowsComeFromTheBatch(rows, tenants, init, r);
      } else {
        assert r == Stored(last);
      }
    }
  }

  /** After a committed batch of one conversation, the conversation has a row exactly when it
      had one before or the batch carried a message that was not stored yet. */
  lemma BatchAnchors(rows: seq<Message>, tenants: set<string>, batch: seq<Message>, tenant: string,
      index: seq<LidPair>, filed: string, chat: string)
    requires ValidRows(rows, tenants) && InsertAll(rows, tenants, batch).Some?
    requires forall b :: b in batch ==> b.tenant == tenant && b.chat == filed
    requires ValidIndex(index) && Projected(index, filed) == chat
    ensures ConversationRows(InsertAll(rows, tenants, batch).value, tenant, index, chat) != [] <==>
            ConversationRows(rows, tenant, index, chat) != [] || exists b :: b in batch && !HasKey(rows, KeyOf(b))
  {
    var after := InsertAll(rows, tenants, batch).value;
    var own := ConversationRows(after, tenant, index, chat);
    BatchKeepsTheTable(rows, tenants, batch);
    if own != [] {
      var r := own[0];
      FilterMember(InConversation(tenant, index, chat), after, r);
      NewRowsComeFromTheBatch(rows, tenants, batch, r);
      FilterMember(InConversation(tenant, index, chat), rows, r);
      if r !in rows {
        NewRowHasNewKey(rows, after, tenants, r);
        var b :| b in batch && r == Stored(b);
        assert !HasKey(rows, KeyOf(b));
      }
    }
    if ConversationRows(rows, tenant, index, chat) != [] {
      var r := ConversationRows(rows, tenant, index, chat)[0];
      FilterMember(InConversation(tenant, index, chat), rows, r);
      FilterMember(InConversation(tenant, index, chat), after, r);
    }
    if b :| b in batch && !HasKey(rows, KeyOf(b)) {
      assert HasKey(batch, KeyOf(b)) && HasKey(after, KeyOf(b));
      var r :| r in after && KeyOf(r) == KeyOf(b);
      NewRowsComeFromTheBatch(rows, tenants, batch, r);
      FilterMember(InConversation(tenant, index, chat), after, r);
    }
  }

  lemma NewRowHasNewKey(rows: seq<Message>, after: seq<Message>, tenants: set<string>, r: Message)
    requires ValidRows(after, tenants) && rows <= after && r in after && r !in rows
    ensures !HasKey(rows, KeyOf(r))
  {
    var i :| 0 <= i < |after| && after[i] == r;
    forall o | o in rows ensures KeyOf(o) != KeyOf(r) {
      var j :| 0 <= j < |rows| && rows[j] == o;
      assert after[j] == o && j < i;
    }
  }

  /** What a history sync writes for one conversation, from the address it came under. */
  function ConversationBatch(
      tenant: string, own: JID, raw: JID, scope: Scope, messages: seq<HistoryMessage>, now: int, lids: Resolver): seq<Message> {
    var chat := CanonicalJid(lids, raw, EMPTY_JID).jid;
    HistoryBatch(tenant, own, chat, lids, scope, messages, now)
  }

  /** Under every scope, once a history sync has stored a conversation it does not skip, a backfill
      finds its anchor exactly when the conversation held a message before or the sync kept one whose
      WhatsApp id was new to the tenant -- whatever of the index was known when it was filed, and
      whatever is known when it is asked for. */
  lemma StoredConversationHasAnchor(
      rows: seq<Message>, tenants: set<string>, index: seq<LidPair>, tenant: string, own: JID, raw: JID,
      scope: Scope, messages: seq<HistoryMessage>, now: int, lids: Resolver, asking: Resolver)
    requires ValidIndex(index) && ValidRows(rows, tenants) && Within(lids, index) && Within(asking, index)
    requires WellFormed(raw) && ':' !in raw.user && raw.user != "" && tenant != ""
    requires Commits(rows, tenants, ConversationBatch(tenant, own, raw, scope, messages, now, lids), now)
    ensures var batch := ConversationBatch(tenant, own, raw, scope, messages, now, lids);
            var after := Store(rows, tenants, batch, now);
            Conversations.OldestByChat(after, tenant, index, CanonicalString(asking, raw, EMPTY_JID)).Some? <==>
              ConversationRows(rows, tenant, index, CanonicalString(Index(index), raw, EMPTY_JID)) != []
              || exists b :: b in batch && !HasKey(rows, KeyOf(b))
  {
    var jid := CanonicalJid(lids, raw, EMPTY_JID).jid;
    var filed, chat := JidString(jid), CanonicalString(Index(index), raw, EMPTY_JID);
    var batch := ConversationBatch(tenant, own, raw, scope, messages, now, lids);
    FiledStringIsFinal(lids, index, raw);
    FiledStringIsFinal(asking, index, raw);
    HistoryIsOfConversation(tenant, own, jid, HistoryDecisionFor(scope, jid), messages, now, lids);
    PreparedKeeps(batch, IdsOf(batch), tenant, filed, now);
    var prepared := PrepareAll(batch, IdsOf(batch), now).value;
    forall b | b in prepared ensures b.tenant == tenant && b.chat == filed {
      var i :| 0 <= i < |prepared| && prepared[i] == b;
      assert batch[i] in batch && KeyOf(prepared[i]) == KeyOf(batch[i]);
    }
    BatchAnchors(rows, tenants, prepared, tenant, index, filed, chat);
    SameNewKeys(rows, batch, prepared);
    var after := InsertAll(rows, tenants, prepared).value;
    BatchKeepsTheTable(rows, tenants, prepared);
    AnchorIsARow(after, tenants, tenant, index, CanonicalString(asking, raw, EMPTY_JID));
  }

  lemma SameNewKeys(rows: seq<Message>, batch: seq<Message>, prepared: seq<Message>)
    requires |batch| == |prepared| && forall i :: 0 <= i < |batch| ==> KeyOf(prepared[i]) == KeyOf(batch[i])
    ensures (exists b :: b in batch && !HasKey(rows, KeyOf(b))) <==> (exists b :: b in prepared && !HasKey(rows, KeyOf(b)))
  {
    if b :| b in batch && !HasKey(rows, KeyOf(b)) {
      var i :| 0 <= i < |batch| && batch[i] == b;
      assert prepared[i] in prepared;
    }
    if b :| b in prepared && !HasKey(rows, KeyOf(b)) {
      var i :| 0 <= i < |prepared| && prepared[i] == b;
      assert batch[i] in batch;
    }
  }

  lemma AnchorIsARow(rows: seq<Message>, tenants: set<string>, tenant: string, index: seq<LidPair>, query: string)
    requires ValidRows(rows, tenants) && ValidIndex(index)
    ensures Conversations.OldestByChat(rows, tenant, index, query).Some? <==>
            ConversationRows(rows, tenant, index, ReadForm(index, query)) != []
  {
    ValidRowsAreDistinct(rows, tenants);
    DistinctSelected(rows, tenant, Aliases(index, query));
    QueryReadsTheConversation(rows, tenant, index, query);
    OldestIsLeast(Selected(rows, tenant, Aliases(index, query)));
  }

  /** As long as every WhatsApp id names one conversation, a stored conversation with a usable
      message can be backfilled, whatever the scope left out of it and whatever was known of the
      index when it was filed and when it is asked for. */
  lemma UsableConversationCanBeBackfilled(
      rows: seq<Message>, tenants: set<string>, index: seq<LidPair>, tenant: string, own: JID, raw: JID,
      scope: Scope, messages: seq<HistoryMessage>, now: int, lids: Resolver, asking: Resolver)
    requires ValidIndex(index) && ValidRows(rows, tenants) && Within(lids, index) && Within(asking, index)
    requires WellFormed(raw) && ':' !in raw.user && raw.user != "" && tenant != ""
    requires Commits(rows, tenants, ConversationBatch(tenant, own, raw, scope, messages, now, lids), now)
    requires HistoryDecisionFor(scope, CanonicalJid(lids, raw, EMPTY_JID).jid) != SkipChat
    requires exists h :: h in messages && Usable(h)
    requires forall r, h :: r in rows && h in messages && KeyOf(r) == Key(tenant, h.waId) ==>
               Projected(index, r.chat) == CanonicalString(Index(index), raw, EMPTY_JID)
    ensures var batch := ConversationBatch(tenant, own, raw, scope, messages, now, lids);
            Conversations.OldestByChat(Store(rows, tenants, batch, now), tenant, index, CanonicalString(asking, raw, EMPTY_JID)).Some?
  {
    var jid := CanonicalJid(lids, raw, EMPTY_JID).jid;
    var decision := HistoryDecisionFor(scope, jid);
    var records := HistoryRecords(tenant, own, jid, decision, messages, now);
    var batch := CanonicalSenders(lids, records);
    StoredConversationHasAnchor(rows, tenants, index, tenant, own, raw, scope, messages, now, lids, asking);
    HistoryIsOfConversation(tenant, own, jid, decision, messages, now, lids);
    assert batch[0] in batch && KeyOf(batch[0]) == KeyOf(records[0]);
    if HasKey(rows, KeyOf(batch[0])) {
      KnownMessageAnchors(rows, tenant, index, CanonicalString(Index(index), raw, EMPTY_JID), own, jid, decision, messages, now);
    }
  }

  /** A kept message that was stored before was stored in the conversation. */
  lemma KnownMessageAnchors(
      rows: seq<Message>, tenant: string, index: seq<LidPair>, chat: string,
      own: JID, jid: JID, decision: Decision, messages: seq<HistoryMessage>, now: int)
    requires var records := HistoryRecords(tenant, own, jid, decision, messages, now);
             records != [] && HasKey(rows, KeyOf(records[0]))
    requires forall r, h :: r in rows && h in messages && KeyOf(r) == Key(tenant, h.waId) ==> Projected(index, r.chat) == chat
    ensures ConversationRows(rows, tenant, index, chat) != []
  {
    var first := HistoryRecords(tenant, own, jid, decision, messages, now)[0];
    var r :| r in rows && KeyOf(r) == KeyOf(first);
    assert first in UsableRecords(tenant, own, jid, messages, now);
    UsableMember(tenant, own, jid, messages, now, first);
    FilterMember(InConversation(tenant, index, chat), rows, r);
  }
}
