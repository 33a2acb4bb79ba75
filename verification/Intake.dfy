/**
 The three write paths -- live events, pushed history and sends -- from what
 WhatsApp hands over to the rows that are stored, one event and whole runs.
 */
module Intake {
  import opened Sorting
  import opened Addresses
  import opened Messages
  import opened Repository

  const GROUP := "g.us"
  const NEWSLETTER := "newsletter"
  const BROADCAST := "broadcast"
  const STATUS := "status"

  // ------------------------------------------------------------- what is kept

  /** HISTORY_SYNC_SCOPE */
  datatype Scope = DirectOnly | DirectAndGroups | Everything

  datatype Decision = SkipChat | AnchorOnly | PersistAll

  function HistoryDecisionFor(scope: Scope, chat: JID): Decision {
    if chat.server == BROADCAST && chat.user == STATUS then SkipChat
    else if chat.server == NEWSLETTER then (if scope == Everything then PersistAll else SkipChat)
    else if chat.server == GROUP then (if scope != DirectOnly then PersistAll else AnchorOnly)
    else if chat.server == PHONE || chat.server == LID then PersistAll
    else if scope == Everything then PersistAll
    else AnchorOnly
  }

  // ------------------------------------------------------------------ live path

  datatype LiveEvent = LiveEvent(
    chat: JID, sender: JID, isFromMe: bool, isGroup: bool, senderAlt: JID, recipientAlt: JID,
    waId: string, body: string, timestamp: int, reference: MediaReference)

  /** Received messages carry it on the sender, sent ones on the recipient, groups not at all. */
  function ChatAlt(e: LiveEvent): JID {
    if e.isGroup then EMPTY_JID else if e.isFromMe then e.recipientAlt else e.senderAlt
  }

  function LiveRecord(tenant: string, rowId: string, now: int, e: LiveEvent, chat: JID, sender: JID): Message {
    Message(rowId, tenant, JidString(ToNonAD(chat)), JidString(ToNonAD(sender)), e.waId,
            if e.isFromMe then Out else In, e.body, e.timestamp, now, e.reference, NEVER_FETCHED)
  }

  // ------------------------------------------------------------------ send path

  function SentRecord(tenant: string, rowId: string, now: int, chat: JID, own: JID, waId: string, body: string, acked: int): Message {
    Message(rowId, tenant, JidString(ToNonAD(chat)), JidString(ToNonAD(own)), waId, Out, body,
            if acked == ZERO_TIME then now else acked, now, NO_MEDIA, NEVER_FETCHED)
  }

  // --------------------------------------------------------------- history path

  /** One message of a history sync; `waId` is empty when it has no usable key. */
  datatype HistoryMessage = HistoryMessage(
    rowId: string, waId: string, fromMe: bool, participant: string, body: string, timestamp: int, reference: MediaReference)

  predicate Usable(h: HistoryMessage) { h.waId != "" }

  function HistorySender(own: JID, chat: JID, fromMe: bool, participant: string): string {
    if fromMe then JidString(own)
    else if participant != "" then participant
    else JidString(chat)
  }

  function HistoryRecord(tenant: string, own: JID, chat: JID, h: HistoryMessage, now: int): Message {
    Message(h.rowId, tenant, JidString(chat), HistorySender(own, chat, h.fromMe, h.participant), h.waId,
            if h.fromMe then Out else In, h.body, h.timestamp, now, h.reference, NEVER_FETCHED)
  }

  function UsableRecords(tenant: string, own: JID, chat: JID, messages: seq<HistoryMessage>, now: int): seq<Message> {
    if messages == [] then []
    else
      var h := messages[|messages| - 1];
      UsableRecords(tenant, own, chat, messages[..|messages| - 1], now)
      + if Usable(h) then [HistoryRecord(tenant, own, chat, h, now)] else []
  }

  /** Position of the first of the latest times. */
  function NewestIndex(times: seq<int>): (i: nat)
    requires times != []
    ensures i < |times|
    ensures forall k :: 0 <= k < |times| ==> times[k] <= times[i]
    ensures forall k :: 0 <= k < i ==> times[k] < times[i]
  {
    if |times| == 1 then 0
    else
      var n := |times| - 1;
      var i := NewestIndex(times[..n]);
      if times[n] > times[i] then n else i
  }

  function TimeOf(m: Message): int { m.timestamp }

  function NewestRecord(records: seq<Message>): seq<Message> {
    if records == [] then [] else [records[NewestIndex(Map(TimeOf, records))]]
  }

  function HistoryRecords(
      tenant: string, own: JID, chat: JID, decision: Decision, messages: seq<HistoryMessage>, now: int): seq<Message> {
    match decision
    case SkipChat => []
    case AnchorOnly => NewestRecord(UsableRecords(tenant, own, chat, messages, now))
    case PersistAll => UsableRecords(tenant, own, chat, messages, now)
  }

  /** A participant address is resolved through the index alone; an unparseable one stays. */
  function CanonicalSender(lids: Resolver, m: Message): Message {
    match ParseJid(m.sender)
    case None => m
    case Some(sender) =>
      if sender.server == "" then m else m.(sender := CanonicalString(lids, sender, EMPTY_JID))
  }

  function ToCanonicalSender(lids: Resolver): Message -> Message {
    (m: Message) => CanonicalSender(lids, m)
  }

  function CanonicalSenders(lids: Resolver, records: seq<Message>): seq<Message> {
    Map(ToCanonicalSender(lids), records)
  }

  /** Skips what cannot be addressed, maps the rest; an anchor is the newest of them. */
  method CollectHistory(tenant: string, own: JID, chat: JID, decision: Decision, messages: seq<HistoryMessage>, now: int)
    returns (records: seq<Message>)
    ensures records == HistoryRecords(tenant, own, chat, decision, messages, now)
  {
    if decision == SkipChat { return []; }
    records := [];
    for i := 0 to |messages|
      invariant records == UsableRecords(tenant, own, chat, messages[..i], now)
    {
      assert messages[..i + 1][..i] == messages[..i];
      if Usable(messages[i]) { records := records + [HistoryRecord(tenant, own, chat, messages[i], now)]; }
    }
    assert messages[..|messages|] == messages;
    if decision == AnchorOnly { records := PickNewest(records); }
  }

  method PickNewest(records: seq<Message>) returns (newest: seq<Message>)
    ensures newest == NewestRecord(records)
  {
    if records == [] { return []; }
    var k := 0;
    for i := 0 to |records|
      invariant k < |records|
      invariant forall j :: 0 <= j < i ==> records[j].timestamp <= records[k].timestamp
      invariant forall j :: 0 <= j < k ==> records[j].timestamp < records[k].timestamp
      invariant k < i || i == 0 == k
    {
      if records[i].timestamp > records[k].timestamp { k := i; }
    }
    ghost var first := NewestIndex(Map(TimeOf, records));
    assert TimeOf(records[first]) == records[first].timestamp && TimeOf(records[k]) == records[k].timestamp;
    assert k == first;
    newest := [records[k]];
  }

  /** Rewrites the senders of a batch in place. */
  method CanonicaliseSenders(lids: Resolver, records: array<Message>)
    modifies records
    ensures records[..] == CanonicalSenders(lids, old(records[..]))
  {
    MapInPlace(ToCanonicalSender(lids), records);
  }

  // -------------------------------------------------------------- the write paths

  /** What happens to one tenant: the index learns a pair, or a message is stored. A lookup
      that cannot be made (`reachable` false) files the address as it arrived. */
  datatype Event =
    | Learn(pair: LidPair)
    | Live(tenant: string, live: LiveEvent, reachable: bool, rowId: string, now: int)
    | History(tenant: string, own: JID, raw: JID, messages: seq<HistoryMessage>, reachable: bool, now: int)
    | Send(tenant: string, own: JID, to: JID, waId: string, body: string, acked: int, reachable: bool, rowId: string, now: int)

  /** The conversation an event belongs to, as WhatsApp addressed it. */
  function Addressee(e: Event): JID
    requires !e.Learn?
  {
    match e
    case Live(_, live, _, _, _) => live.chat
    case History(_, _, raw, _, _, _) => raw
    case Send(_, _, to, _, _, _, _, _, _) => to
  }

  function Alternative(e: Event): JID {
    match e
    case Live(_, live, _, _, _) => ChatAlt(live)
    case _ => EMPTY_JID
  }

  function LookupOf(e: Event, index: seq<LidPair>): Resolver
    requires !e.Learn?
  {
    if e.reachable then Index(index) else Unreachable
  }

  /** The address the event is filed under. */
  function FiledUnder(e: Event, index: seq<LidPair>): JID
    requires !e.Learn?
  {
    CanonicalJid(LookupOf(e, index), Addressee(e), Alternative(e)).jid
  }

  /** The rows the event asks the store to write, its conversation being `chat`. */
  function Records(e: Event, scope: Scope, chat: JID, lids: Resolver): seq<Message>
    requires !e.Learn?
  {
    match e
    case Live(tenant, live, _, rowId, now) =>
      [LiveRecord(tenant, rowId, now, live, chat, CanonicalJid(lids, live.sender, live.senderAlt).jid)]
    case History(tenant, own, _, messages, _, now) =>
      HistoryBatch(tenant, own, chat, lids, scope, messages, now)
    case Send(tenant, own, _, waId, body, acked, _, rowId, now) =>
      [SentRecord(tenant, rowId, now, chat, own, waId, body, acked)]
  }

  function IdsOf(batch: seq<Message>): (ids: seq<string>)
    ensures |ids| == |batch|
  {
    seq(|batch|, i requires 0 <= i < |batch| => batch[i].id)
  }

  /** One transaction over the records, or nothing when one of them is malformed. */
  function Store(rows: seq<Message>, tenants: set<string>, batch: seq<Message>, now: int): seq<Message> {
    match PrepareAll(batch, IdsOf(batch), now)
    case Ok(prepared) => Committed(rows, tenants, prepared)
    case Err(_) => rows
  }

  datatype World = World(rows: seq<Message>, index: seq<LidPair>)

  function Step(w: World, tenants: set<string>, scope: Scope, e: Event): (w': World)
    ensures w.index <= w'.index
  {
    if e.Learn? then World(w.rows, w.index + [e.pair])
    else
      var batch := Records(e, scope, FiledUnder(e, w.index), LookupOf(e, w.index));
      World(Store(w.rows, tenants, batch, e.now), w.index)
  }

  function Run(w: World, tenants: set<string>, scope: Scope, events: seq<Event>): World {
    if events == [] then w
    else Step(Run(w, tenants, scope, events[..|events| - 1]), tenants, scope, events[|events| - 1])
  }

  /** The same run, had every message been filed under its final canonical address. */
  function FinalRun(rows: seq<Message>, final: seq<LidPair>, tenants: set<string>, scope: Scope, events: seq<Event>): seq<Message> {
    if events == [] then rows
    else
      var sofar := FinalRun(rows, final, tenants, scope, events[..|events| - 1]);
      var e := events[|events| - 1];
      if e.Learn? then sofar
      else
        var chat := CanonicalJid(Index(final), Addressee(e), EMPTY_JID).jid;
        Store(sofar, tenants, Records(e, scope, chat, Index(final)), e.now)
  }

  method PersistMessage(db: Database, tenant: string, live: LiveEvent, lids: Resolver, rowId: string, now: int)
    requires db.Valid()
    modifies db`rows
    ensures db.Valid()
    ensures var e := Live(tenant, live, lids.Index?, rowId, now);
            var chat := CanonicalJid(lids, live.chat, ChatAlt(live)).jid;
            db.rows == Store(old(db.rows), db.tenants, Records(e, DirectOnly, chat, lids), now)
  {
    var chat := CanonicalJid(lids, live.chat, ChatAlt(live)).jid;
    var sender := CanonicalJid(lids, live.sender, live.senderAlt).jid;
    var record := LiveRecord(tenant, rowId, now, live, chat, sender);
    StoreOne(db.rows, db.tenants, record, now);
    var err := db.Append(record, rowId, now);
  }

  /** The transaction over a batch goes through. */
  predicate Commits(rows: seq<Message>, tenants: set<string>, batch: seq<Message>, now: int) {
    var prepared := PrepareAll(batch, IdsOf(batch), now);
    prepared.Ok? && InsertAll(rows, tenants, prepared.value).Some?
  }

  /** The rows one conversation of a history sync asks for. */
  function HistoryBatch(
      tenant: string, own: JID, chat: JID, lids: Resolver, scope: Scope, messages: seq<HistoryMessage>, now: int): seq<Message> {
    CanonicalSenders(lids, HistoryRecords(tenant, own, chat, HistoryDecisionFor(scope, chat), messages, now))
  }

  /** One conversation of a history sync; `delivered` is how many records it carried. */
  method PersistConversation(
      db: Database, tenant: string, own: JID, chat: JID, lids: Resolver, scope: Scope,
      messages: seq<HistoryMessage>, now: int, commits: bool)
    returns (stored: bool, added: int, delivered: nat)
    requires db.Valid()
    modifies db`rows
    ensures db.Valid()
    ensures added == |db.rows| - |old(db.rows)|
    ensures var batch := HistoryBatch(tenant, own, chat, lids, scope, messages, now);
            && delivered == |batch|
            && db.rows == (if commits then Store(old(db.rows), db.tenants, batch, now) else old(db.rows))
            && (stored <==> batch != [] && commits && Commits(old(db.rows), db.tenants, batch, now))
  {
    ghost var before := db.rows;
    var records := CollectHistory(tenant, own, chat, HistoryDecisionFor(scope, chat), messages, now);
    delivered := |records|;
    if records == [] {
      StoreEmpty(before, db.tenants, now);
      return false, 0, 0;
    }
    var batch := new Message[|records|](i requires 0 <= i < |records| => records[i]);
    assert batch[..] == records;
    CanonicaliseSenders(lids, batch);
    var err;
    added, err := db.AppendBatch(batch[..], IdsOf(batch[..]), now, commits);
    stored := err.None?;
  }

  lemma StoreOne(rows: seq<Message>, tenants: set<string>, m: Message, now: int)
    ensures Store(rows, tenants, [m], now) ==
            match PrepareMessage(m, m.id, now) { case Ok(ready) => Committed(rows, tenants, [ready]) case Err(_) => rows }
  {
    assert [m][..0] == [] && IdsOf([m])[..0] == [];
    assert PrepareAll([m][..0], IdsOf([m])[..0], now) == Ok([]);
  }

  lemma StoreEmpty(rows: seq<Message>, tenants: set<string>, now: int)
    ensures Store(rows, tenants, [], now) == rows
  {
    assert PrepareAll([], IdsOf([]), now) == Ok([]);
  }
}
