/**
 A whole pushed history sync: every conversation is stored on its own, and one
 that answers an on-demand request also wakes the call that waits for it.
 */
module HistorySync {
  import opened Text
  import opened Addresses
  import opened Messages
  import opened Repository
  import opened Intake
  import opened Backfill
  import Pending

  /** One conversation of the sync, what its addresses are resolved with when its turn comes, and
      whether its transaction manages to commit. */
  datatype Conversation = Conversation(id: string, messages: seq<HistoryMessage>, lids: Resolver, commits: bool)

  /** What the whole sync shares; `known` is what the readers can ask of the LID index. */
  datatype Context = Context(tenant: string, own: JID, known: seq<LidPair>, scope: Scope, now: int)

  /** Canonical address of the conversation; `None` when its id does not parse to a user. */
  function ChatOf(conversation: Conversation): Option<JID> {
    match ParseJid(conversation.id)
    case None => None
    case Some(raw) => if raw.user == "" then None else Some(CanonicalJid(conversation.lids, raw, EMPTY_JID).jid)
  }

  function BatchOf(c: Context, chat: JID, conversation: Conversation): seq<Message> {
    HistoryBatch(c.tenant, c.own, chat, conversation.lids, c.scope, conversation.messages, c.now)
  }

  function StoreChat(c: Context, tenants: set<string>, rows: seq<Message>, chat: JID, conversation: Conversation): seq<Message> {
    if conversation.commits then Store(rows, tenants, BatchOf(c, chat, conversation), c.now) else rows
  }

  function SyncOne(c: Context, tenants: set<string>, rows: seq<Message>, conversation: Conversation): seq<Message> {
    match ChatOf(conversation)
    case None => rows
    case Some(chat) => StoreChat(c, tenants, rows, chat, conversation)
  }

  function SyncAll(c: Context, tenants: set<string>, rows: seq<Message>, conversations: seq<Conversation>): seq<Message> {
    if conversations == [] then rows
    else
      var n := |conversations| - 1;
      SyncOne(c, tenants, SyncAll(c, tenants, rows, conversations[..n]), conversations[n])
  }

  /** The conversation had something to store and it was stored. */
  predicate ChatIsStored(c: Context, tenants: set<string>, rows: seq<Message>, chat: JID, conversation: Conversation) {
    var batch := BatchOf(c, chat, conversation);
    batch != [] && conversation.commits && Commits(rows, tenants, batch, c.now)
  }

  predicate IsStored(c: Context, tenants: set<string>, rows: seq<Message>, conversation: Conversation) {
    ChatOf(conversation).Some? && ChatIsStored(c, tenants, rows, ChatOf(conversation).value, conversation)
  }

  /** What a stored conversation is reported with: how many rows it added, how many records it
      carried, and the time of the oldest message the chat holds by then. */
  function DeliveryOf(c: Context, tenants: set<string>, rows: seq<Message>, chat: JID, conversation: Conversation): Pending.Delivery {
    var after := StoreChat(c, tenants, rows, chat, conversation);
    Report(after, c.tenant, c.known, JidString(chat), |after| - |rows|, |BatchOf(c, chat, conversation)|)
  }

  function Told(tenant: string, chat: JID, d: Pending.Delivery): map<string, Pending.Delivery> {
    map[HistoryKey(tenant, JidString(chat)) := d]
  }

  /** The key a conversation answers once it is stored, and with what. */
  function AnswerOf(c: Context, tenants: set<string>, rows: seq<Message>, conversation: Conversation): map<string, Pending.Delivery> {
    if IsStored(c, tenants, rows, conversation)
    then
      var chat := ChatOf(conversation).value;
      Told(c.tenant, chat, DeliveryOf(c, tenants, rows, chat, conversation))
    else map[]
  }

  /** The keys a sync answers; the first stored conversation of a key is the one that answers it. */
  function Answered(c: Context, tenants: set<string>, rows: seq<Message>, conversations: seq<Conversation>): map<string, Pending.Delivery> {
    if conversations == [] then map[]
    else
      var n := |conversations| - 1;
      AnswerOf(c, tenants, SyncAll(c, tenants, rows, conversations[..n]), conversations[n])
      + Answered(c, tenants, rows, conversations[..n])
  }

  /** Wakes whoever asked for the chat, and nobody else. */
  method Answer(db: Database, pending: Pending.PendingHistory, worker: nat, tenant: string, chat: JID, added: int, delivered: nat)
    requires db.Valid() && Pending.Invariant(pending.View()) && worker !in pending.inFlight
    modifies db`lidMap, pending
    ensures db.Valid() && Pending.Invariant(pending.View()) && worker !in pending.inFlight
    ensures AnsweredBy(old(pending.waiters), old(pending.buffers),
                       Told(tenant, chat, Report(db.rows, tenant, db.Known(), JidString(chat), added, delivered)),
                       pending.waiters, pending.buffers)
  {
    ghost var s, key := pending.View(), HistoryKey(tenant, JidString(chat));
    var woken := DeliverOnDemand(db, pending, worker, tenant, JidString(chat), added, delivered, Answers(true, true));
    OneAnswered(s, key, Report(db.rows, tenant, db.Known(), JidString(chat), added, delivered), pending.waiters, pending.buffers);
  }

  /** Stores one conversation, and wakes whoever asked for it. */
  method PersistChat(
      db: Database, pending: Pending.PendingHistory, worker: nat, c: Context, onDemand: bool, chat: JID,
      conversation: Conversation)
    returns (added: int, stored: bool)
    requires db.Valid() && Pending.Invariant(pending.View()) && worker !in pending.inFlight && c.known == db.Known()
    modifies db`rows, db`lidMap, pending
    ensures db.Valid() && Pending.Invariant(pending.View()) && worker !in pending.inFlight
    ensures db.rows == StoreChat(c, db.tenants, old(db.rows), chat, conversation)
    ensures stored <==> ChatIsStored(c, db.tenants, old(db.rows), chat, conversation)
    ensures added == |db.rows| - |old(db.rows)|
    ensures !(stored && onDemand) ==> pending.View() == old(pending.View())
    ensures stored && onDemand ==>
              AnsweredBy(old(pending.waiters), old(pending.buffers),
                         Told(c.tenant, chat, DeliveryOf(c, db.tenants, old(db.rows), chat, conversation)),
                         pending.waiters, pending.buffers)
  {
    var delivered;
    ghost var before := db.rows;
    stored, added, delivered :=
      PersistConversation(db, c.tenant, c.own, chat, conversation.lids, c.scope, conversation.messages, c.now, conversation.commits);
    if stored && onDemand {
      ReportIsDelivery(c, db.tenants, before, chat, conversation, db.rows, added, delivered);
      Answer(db, pending, worker, c.tenant, chat, added, delivered);
    }
  }

  lemma ReportIsDelivery(
      c: Context, tenants: set<string>, rows: seq<Message>, chat: JID, conversation: Conversation,
      after: seq<Message>, added: int, delivered: nat)
    requires after == StoreChat(c, tenants, rows, chat, conversation)
    requires added == |after| - |rows| && delivered == |BatchOf(c, chat, conversation)|
    ensures Report(after, c.tenant, c.known, JidString(chat), added, delivered) == DeliveryOf(c, tenants, rows, chat, conversation)
  {
  }

  lemma AnswerCases(c: Context, tenants: set<string>, rows: seq<Message>, conversation: Conversation)
    ensures var raw := ParseJid(conversation.id);
            if raw.None? || raw.value.user == ""
            then AnswerOf(c, tenants, rows, conversation) == map[] && SyncOne(c, tenants, rows, conversation) == rows
            else
              var chat := CanonicalJid(conversation.lids, raw.value, EMPTY_JID).jid;
              && SyncOne(c, tenants, rows, conversation) == StoreChat(c, tenants, rows, chat, conversation)
              && AnswerOf(c, tenants, rows, conversation) ==
                 if ChatIsStored(c, tenants, rows, chat, conversation)
                 then Told(c.tenant, chat, DeliveryOf(c, tenants, rows, chat, conversation)) else map[]
  {
  }

  /** One turn of the loop: an id that is no address is passed over. */
  method PersistOne(
      db: Database, pending: Pending.PendingHistory, worker: nat, c: Context, onDemand: bool, conversation: Conversation)
    returns (added: int, ghost answered: map<string, Pending.Delivery>)
    requires db.Valid() && Pending.Invariant(pending.View()) && worker !in pending.inFlight && c.known == db.Known()
    modifies db`rows, db`lidMap, pending
    ensures db.Valid() && Pending.Invariant(pending.View()) && worker !in pending.inFlight
    ensures db.rows == SyncOne(c, db.tenants, old(db.rows), conversation)
    ensures added == |db.rows| - |old(db.rows)|
    ensures !onDemand ==> pending.View() == old(pending.View())
    ensures answered == AnswerOf(c, db.tenants, old(db.rows), conversation)
    ensures onDemand ==>
              AnsweredBy(old(pending.waiters), old(pending.buffers), answered, pending.waiters, pending.buffers)
  {
    NothingAnswered(pending.View());
    AnswerCases(c, db.tenants, db.rows, conversation);
    var raw := ParseJid(conversation.id);
    if raw.None? || raw.value.user == "" { return 0, map[]; }
    var chat := CanonicalJid(conversation.lids, raw.value, EMPTY_JID).jid;
    var stored;
    ghost var delivery := DeliveryOf(c, db.tenants, db.rows, chat, conversation);
    added, stored := PersistChat(db, pending, worker, c, onDemand, chat, conversation);
    answered := if stored then Told(c.tenant, chat, delivery) else map[];
  }

  /** Stores a pushed sync; `onDemand` is the type of one that answers requests. */
  method PersistHistorySync(
      db: Database, pending: Pending.PendingHistory, worker: nat, c: Context, onDemand: bool,
      conversations: seq<Conversation>)
    returns (inserted: int)
    requires db.Valid() && Pending.Invariant(pending.View()) && worker !in pending.inFlight && c.known == db.Known()
    modifies db`rows, db`lidMap, pending
    ensures db.Valid() && Pending.Invariant(pending.View())
    ensures db.rows == SyncAll(c, db.tenants, old(db.rows), conversations)
    ensures inserted == |db.rows| - |old(db.rows)|
    ensures !onDemand ==> pending.View() == old(pending.View())
    ensures onDemand ==>
              AnsweredBy(old(pending.waiters), old(pending.buffers), Answered(c, db.tenants, old(db.rows), conversations),
                         pending.waiters, pending.buffers)
  {
    ghost var before, start := db.rows, pending.View();
    inserted := 0;
    for i := 0 to |conversations|
      invariant db.Valid() && Pending.Invariant(pending.View()) && worker !in pending.inFlight
      invariant db.rows == SyncAll(c, db.tenants, before, conversations[..i])
      invariant inserted == |db.rows| - |before|
      invariant !onDemand ==> pending.View() == start
      invariant onDemand ==>
                  AnsweredBy(start.waiters, start.buffers, Answered(c, db.tenants, before, conversations[..i]),
                             pending.waiters, pending.buffers)
    {
      LastConversation(c, db.tenants, before, conversations, i);
      ghost var waiters, buffers := pending.waiters, pending.buffers;
      var added, answered := PersistOne(db, pending, worker, c, onDemand, conversations[i]);
      inserted := inserted + added;
      if onDemand {
        MoreAnswered(start, Answered(c, db.tenants, before, conversations[..i]), waiters, buffers,
                     answered, pending.waiters, pending.buffers);
      }
    }
    assert conversations[..|conversations|] == conversations;
  }

  lemma LastConversation(
      c: Context, tenants: set<string>, rows: seq<Message>, conversations: seq<Conversation>, i: nat)
    requires i < |conversations|
    ensures var sofar := SyncAll(c, tenants, rows, conversations[..i]);
            && SyncAll(c, tenants, rows, conversations[..i + 1]) == SyncOne(c, tenants, sofar, conversations[i])
            && Answered(c, tenants, rows, conversations[..i + 1]) ==
               AnswerOf(c, tenants, sofar, conversations[i]) + Answered(c, tenants, rows, conversations[..i])
  {
    assert conversations[..i + 1][..i] == conversations[..i];
  }

  /** Exactly the answered keys left the registry, each with its own delivery in its channel. */
  ghost predicate AnsweredBy(
      waiters: map<string, nat>, buffers: map<nat, seq<Pending.Delivery>>, answered: map<string, Pending.Delivery>,
      waiters': map<string, nat>, buffers': map<nat, seq<Pending.Delivery>>) {
    && waiters' == Remaining(waiters, answered)
    && (forall c :: c in buffers' <==> c in buffers)
    && (forall c :: c in buffers && !AnswersOn(waiters, answered, c) ==> buffers'[c] == buffers[c])
    && (forall k :: k in waiters && k in answered ==> waiters[k] in buffers' && buffers'[waiters[k]] == [answered[k]])
  }

  function Remaining(waiters: map<string, nat>, answered: map<string, Pending.Delivery>): map<string, nat> {
    map k | k in waiters && k !in answered :: waiters[k]
  }

  /** The channel belongs to one of the answered keys. */
  ghost predicate AnswersOn(waiters: map<string, nat>, answered: map<string, Pending.Delivery>, channel: nat) {
    exists k :: k in waiters && k in answered && waiters[k] == channel
  }

  lemma MoreAnswered(
      start: Pending.State, answered: map<string, Pending.Delivery>,
      waiters: map<string, nat>, buffers: map<nat, seq<Pending.Delivery>>, more: map<string, Pending.Delivery>,
      waiters': map<string, nat>, buffers': map<nat, seq<Pending.Delivery>>)
    requires Pending.Invariant(start)
    requires AnsweredBy(start.waiters, start.buffers, answered, waiters, buffers)
    requires AnsweredBy(waiters, buffers, more, waiters', buffers')
    ensures AnsweredBy(start.waiters, start.buffers, more + answered, waiters', buffers')
  {
    assert waiters' == Remaining(start.waiters, more + answered);
    forall c | c in start.buffers && !AnswersOn(start.waiters, more + answered, c) ensures buffers'[c] == start.buffers[c] {
      NotOnEither(start.waiters, answered, more, c);
    }
    forall k | k in start.waiters && k in more + answered
      ensures start.waiters[k] in buffers' && buffers'[start.waiters[k]] == [(more + answered)[k]] {
      AnsweredStays(start, answered, waiters, buffers, more, waiters', buffers', k);
    }
  }

  lemma AnsweredStays(
      start: Pending.State, answered: map<string, Pending.Delivery>,
      waiters: map<string, nat>, buffers: map<nat, seq<Pending.Delivery>>, more: map<string, Pending.Delivery>,
      waiters': map<string, nat>, buffers': map<nat, seq<Pending.Delivery>>, k: string)
    requires Pending.Invariant(start)
    requires AnsweredBy(start.waiters, start.buffers, answered, waiters, buffers)
    requires AnsweredBy(waiters, buffers, more, waiters', buffers')
    requires k in start.waiters && k in more + answered
    ensures start.waiters[k] in buffers' && buffers'[start.waiters[k]] == [(more + answered)[k]]
  {
    if k in answered {
      AnsweredIsSpent(start, answered, more, k);
    } else {
      assert waiters[k] == start.waiters[k];
    }
  }

  lemma NotOnEither(waiters: map<string, nat>, answered: map<string, Pending.Delivery>, more: map<string, Pending.Delivery>, channel: nat)
    requires !AnswersOn(waiters, more + answered, channel)
    ensures !AnswersOn(waiters, answered, channel) && !AnswersOn(Remaining(waiters, answered), more, channel)
  {
    assert forall k :: k in waiters && k in more + answered ==> waiters[k] != channel;
  }

  /** A channel belongs to one key, so an answered one is not answered again. */
  lemma AnsweredIsSpent(s: Pending.State, answered: map<string, Pending.Delivery>, more: map<string, Pending.Delivery>, k: string)
    requires Pending.Invariant(s) && k in s.waiters && k in answered
    ensures !AnswersOn(Remaining(s.waiters, answered), more, s.waiters[k])
  {
    assert s.keyOf[s.waiters[k]] == k;
  }

  lemma NothingAnswered(s: Pending.State)
    ensures AnsweredBy(s.waiters, s.buffers, map[], s.waiters, s.buffers)
  {
    assert Remaining(s.waiters, map[]) == s.waiters;
  }

  lemma OneAnswered(
      s: Pending.State, key: string, d: Pending.Delivery, waiters': map<string, nat>, buffers': map<nat, seq<Pending.Delivery>>)
    requires Pending.Invariant(s) && waiters' == Pending.Without(s.waiters, key)
    requires key in s.waiters ==> buffers' == s.buffers[s.waiters[key] := [d]]
    requires key !in s.waiters ==> buffers' == s.buffers
    ensures AnsweredBy(s.waiters, s.buffers, map[key := d], waiters', buffers')
  {
    assert waiters' == Remaining(s.waiters, map[key := d]);
    if key in s.waiters {
      assert AnswersOn(s.waiters, map[key := d], s.waiters[key]);
    }
  }

  // ------------------------------------------------------------ what the sync amounts to

  /** The history event a conversation amounts to, if any. */
  function EventOf(c: Context, conversation: Conversation): seq<Event> {
    if ChatOf(conversation).None? || !conversation.commits then []
    else [History(c.tenant, c.own, ParseJid(conversation.id).value, conversation.messages, conversation.lids.Index?, c.now)]
  }

  function Learns(pairs: seq<LidPair>): seq<Event> {
    if pairs == [] then [] else Learns(pairs[..|pairs| - 1]) + [Learn(pairs[|pairs| - 1])]
  }

  /** The index after what was learnt before each of some turns of the loop. */
  function Grown(index: seq<LidPair>, learnt: seq<seq<LidPair>>): seq<LidPair> {
    if learnt == [] then index else Grown(index, learnt[..|learnt| - 1]) + learnt[|learnt| - 1]
  }

  /** The events of a sync, with the pairs learnt before each conversation's turn. */
  function SyncEvents(c: Context, conversations: seq<Conversation>, learnt: seq<seq<LidPair>>): seq<Event>
    requires |learnt| == |conversations|
  {
    if conversations == [] then []
    else
      var n := |conversations| - 1;
      SyncEvents(c, conversations[..n], learnt[..n]) + (Learns(learnt[n]) + EventOf(c, conversations[n]))
  }

  /** Each conversation is resolved with the index of its turn, or its look-ups fail. */
  ghost predicate ResolvedInTurn(index: seq<LidPair>, conversations: seq<Conversation>, learnt: seq<seq<LidPair>>)
    requires |learnt| == |conversations|
  {
    forall i :: 0 <= i < |conversations| && conversations[i].lids.Index? ==>
      conversations[i].lids.pairs == Grown(index, learnt[..i + 1])
  }

  lemma OneConversation(c: Context, tenants: set<string>, w: World, conversation: Conversation)
    requires conversation.lids.Index? ==> conversation.lids.pairs == w.index
    ensures Run(w, tenants, c.scope, EventOf(c, conversation)) == World(SyncOne(c, tenants, w.rows, conversation), w.index)
  {
    if EventOf(c, conversation) != [] {
      assert EventOf(c, conversation)[..0] == [];
    }
  }

  lemma {:induction false} RunAppend(w: World, tenants: set<string>, scope: Scope, first: seq<Event>, rest: seq<Event>)
    ensures Run(w, tenants, scope, first + rest) == Run(Run(w, tenants, scope, first), tenants, scope, rest)
  {
    if rest == [] {
      assert first + rest == first;
    } else {
      var n := |rest| - 1;
      assert (first + rest)[..|first + rest| - 1] == first + rest[..n];
      RunAppend(w, tenants, scope, first, rest[..n]);
    }
  }

  lemma {:induction false} RunLearns(w: World, tenants: set<string>, scope: Scope, pairs: seq<LidPair>)
    ensures Run(w, tenants, scope, Learns(pairs)) == World(w.rows, w.index + pairs)
  {
    if pairs != [] {
      var init, last := pairs[..|pairs| - 1], pairs[|pairs| - 1];
      assert pairs == init + [last] && w.index + pairs == w.index + init + [last];
      RunLearns(w, tenants, scope, init);
      assert Learns(pairs)[..|Learns(pairs)| - 1] == Learns(init);
    }
  }

  /** Storing a sync is running its conversations, one history event each, over an index that may
      grow between one conversation and the next. */
  lemma {:induction false} SyncIsARun(
      c: Context, tenants: set<string>, w: World, conversations: seq<Conversation>, learnt: seq<seq<LidPair>>)
    requires |learnt| == |conversations| && ResolvedInTurn(w.index, conversations, learnt)
    ensures Run(w, tenants, c.scope, SyncEvents(c, conversations, learnt)) ==
            World(SyncAll(c, tenants, w.rows, conversations), Grown(w.index, learnt))
  {
    if conversations != [] {
      var n := |conversations| - 1;
      InTurnBefore(w.index, conversations, learnt, n);
      SyncIsARun(c, tenants, w, conversations[..n], learnt[..n]);
      TurnIsARun(c, tenants, World(SyncAll(c, tenants, w.rows, conversations[..n]), Grown(w.index, learnt[..n])),
                 conversations[n], learnt[n]);
      RunAppend(w, tenants, c.scope, SyncEvents(c, conversations[..n], learnt[..n]), Learns(learnt[n]) + EventOf(c, conversations[n]));
    }
  }

  lemma InTurnBefore(index: seq<LidPair>, conversations: seq<Conversation>, learnt: seq<seq<LidPair>>, n: nat)
    requires |learnt| == |conversations| == n + 1 && ResolvedInTurn(index, conversations, learnt)
    ensures ResolvedInTurn(index, conversations[..n], learnt[..n])
    ensures conversations[n].lids.Index? ==> conversations[n].lids.pairs == Grown(index, learnt[..n]) + learnt[n]
  {
    assert learnt[..n + 1] == learnt;
    forall i | 0 <= i < n && conversations[i].lids.Index?
      ensures conversations[..n][i].lids.pairs == Grown(index, learnt[..n][..i + 1]) {
      assert learnt[..n][..i + 1] == learnt[..i + 1];
    }
  }

  lemma TurnIsARun(c: Context, tenants: set<string>, w: World, conversation: Conversation, learnt: seq<LidPair>)
    requires conversation.lids.Index? ==> conversation.lids.pairs == w.index + learnt
    ensures Run(w, tenants, c.scope, Learns(learnt) + EventOf(c, conversation)) ==
            World(SyncOne(c, tenants, w.rows, conversation), w.index + learnt)
  {
    RunAppend(w, tenants, c.scope, Learns(learnt), EventOf(c, conversation));
    RunLearns(w, tenants, c.scope, learnt);
    OneConversation(c, tenants, World(w.rows, w.index + learnt), conversation);
  }

  /** A request for a person is answered by a sync that stores that person's conversation,
      whichever of the person's addresses either side used. */
  lemma AnsweredUnderAnyForm(
      c: Context, tenants: set<string>, rows: seq<Message>, conversations: seq<Conversation>, i: nat,
      index: seq<LidPair>, number: string, raw: string)
    requires ValidIndex(index) && Bare(number)
    requires i < |conversations| && conversations[i].lids == Index(index)
    requires IsStored(c, tenants, SyncAll(c, tenants, rows, conversations[..i]), conversations[i])
    requires Names(index, ParseJid(conversations[i].id).value, number)
    requires ParseRecipient(raw).Some? && Names(index, ParseRecipient(raw).value, number)
    ensures RequestKey(c.tenant, raw, Index(index)).Some?
    ensures RequestKey(c.tenant, raw, Index(index)).value in Answered(c, tenants, rows, conversations)
  {
    EveryFormMeetsOnOneKey(c.tenant, index, number, raw, raw, conversations[i].id);
    LastConversation(c, tenants, rows, conversations, i);
    AnsweredLater(c, tenants, rows, conversations, i + 1, RequestKey(c.tenant, raw, Index(index)).value);
  }

  lemma {:induction false} AnsweredLater(
      c: Context, tenants: set<string>, rows: seq<Message>, conversations: seq<Conversation>, i: nat, key: string)
    requires i <= |conversations| && key in Answered(c, tenants, rows, conversations[..i])
    ensures key in Answered(c, tenants, rows, conversations)
    decreases |conversations| - i
  {
    if i < |conversations| {
      LastConversation(c, tenants, rows, conversations, i);
      AnsweredLater(c, tenants, rows, conversations, i + 1, key);
    } else {
      assert conversations[..i] == conversations;
    }
  }
}
