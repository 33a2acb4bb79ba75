/**
 Migration 0003: the one-off repair of rows filed before addresses were made
 canonical. It runs in one transaction, behind a guard that refuses a table in
 which a WhatsApp message exists twice.
 */
module Repair {
  import opened Text
  import opened Sorting
  import opened Addresses
  import opened Messages
  import opened Conversations
  import opened Repository
  import Folds
  import Views

  /** A row of the sessions table. */
  datatype Session = Session(tenant: string, waJid: Option<string>)

  /** A row of the temp table of the tenants' own numbers. */
  datatype OwnNumber = OwnNumber(tenant: string, user: string)

  /** substr(text, 1, instr(text, c) - 1), or `otherwise` when `c` does not occur. */
  function Before(text: string, c: char, otherwise: string): string {
    var i := IndexOf(text, c);
    if i >= 0 then text[..i] else otherwise
  }

  function OwnNumberOf(s: Session): Option<OwnNumber> {
    if s.waJid.None? || s.waJid.value == "" then None
    else
      var user := Before(s.waJid.value, '@', "");
      if user == "" then None else Some(OwnNumber(s.tenant, Before(user, ':', user)))
  }

  /** Some session of the tenant has the sender as its number. */
  predicate SentByOwner(m: Message, sessions: seq<Session>) {
    exists s :: s in sessions && OwnNumberOf(s).Some?
                && OwnNumberOf(s).value.tenant == m.tenant
                && m.sender == Render(OwnNumberOf(s).value.user, PHONE)
  }

  function Readdressed(m: Message, index: seq<LidPair>): Message {
    m.(chat := Repaired(index, m.chat), sender := Repaired(index, m.sender))
  }

  function Redirected(m: Message, sessions: seq<Session>): Message {
    if m.direction == In && SentByOwner(m, sessions) then m.(direction := Out) else m
  }

  /** What the migration makes of one row. */
  function RepairedRow(m: Message, index: seq<LidPair>, sessions: seq<Session>): Message {
    Redirected(Readdressed(m, index), sessions)
  }

  function RepairedRows(rows: seq<Message>, index: seq<LidPair>, sessions: seq<Session>): (after: seq<Message>)
    ensures |after| == |rows|
    ensures forall i :: 0 <= i < |rows| ==> after[i] == RepairedRow(rows[i], index, sessions)
  {
    seq(|rows|, i requires 0 <= i < |rows| => RepairedRow(rows[i], index, sessions))
  }

  // ------------------------------------------------------------------ the migration

  method CheckOncePerTenant(rows: seq<Message>) returns (passes: bool)
    ensures passes <==> OncePerTenant(rows)
  {
    for j := 0 to |rows|
      invariant forall a, b :: 0 <= a < b < j ==> KeyOf(rows[a]) != KeyOf(rows[b])
    {
      for i := 0 to j
        invariant forall a :: 0 <= a < i ==> KeyOf(rows[a]) != KeyOf(rows[j])
      {
        if KeyOf(rows[i]) == KeyOf(rows[j]) { return false; }
      }
    }
    return true;
  }

  /** A row of the temp table of canonical addresses, keyed by message id. */
  datatype Addressing = Addressing(chat: string, sender: string)

  function CanonicalOf(m: Message, index: seq<LidPair>): Addressing {
    Addressing(Repaired(index, m.chat), Repaired(index, m.sender))
  }

  ghost predicate Materialised(canonical: map<string, Addressing>, m: Message, index: seq<LidPair>) {
    m.id in canonical && canonical[m.id] == CanonicalOf(m, index)
  }

  /** The temp table: computed in full from the old rows, so no update can see another. */
  method CanonicalAddresses(rows: seq<Message>, index: seq<LidPair>) returns (canonical: map<string, Addressing>)
    requires KeyedById(rows)
    ensures forall k :: 0 <= k < |rows| ==> Materialised(canonical, rows[k], index)
  {
    canonical := map[];
    for i := 0 to |rows|
      invariant forall k :: 0 <= k < i ==> Materialised(canonical, rows[k], index)
    {
      canonical := canonical[rows[i].id := CanonicalOf(rows[i], index)];
    }
  }

  /** Runs 0003 over the database; `false` is the loud abort of the guard. */
  method RunRepair(db: Database, sessions: seq<Session>) returns (ran: bool)
    requires KeyedById(db.rows)
    modifies db`rows
    ensures ran <==> OncePerTenant(old(db.rows))
    ensures db.rows == if ran then RepairedRows(old(db.rows), db.Known(), sessions) else old(db.rows)
  {
    ran := CheckOncePerTenant(db.rows);
    if !ran { return; }
    ghost var before := db.rows;
    var canonical := CanonicalAddresses(db.rows, db.Known());
    UpdateAddresses(db, canonical);
    forall k | 0 <= k < |before| ensures db.rows[k] == Readdressed(before[k], db.Known()) {
      assert Materialised(canonical, before[k], db.Known());
    }
    UpdateDirections(db, sessions);
    assert db.rows == RepairedRows(old(db.rows), db.Known(), sessions);
  }

  function Moved(m: Message, canonical: map<string, Addressing>): Message {
    if m.id in canonical then m.(chat := canonical[m.id].chat, sender := canonical[m.id].sender) else m
  }

  /** Looks every row up and writes it when either address differs. */
  method UpdateAddresses(db: Database, canonical: map<string, Addressing>)
    modifies db`rows
    ensures |db.rows| == |old(db.rows)|
    ensures forall k :: 0 <= k < |db.rows| ==> db.rows[k] == Moved(old(db.rows)[k], canonical)
  {
    ghost var before := db.rows;
    for i := 0 to |db.rows|
      invariant |db.rows| == |before|
      invariant forall k :: 0 <= k < i ==> db.rows[k] == Moved(before[k], canonical)
      invariant forall k :: i <= k < |before| ==> db.rows[k] == before[k]
    {
      var m := db.rows[i];
      if m.id in canonical {
        var moved := canonical[m.id];
        if moved.chat != m.chat || moved.sender != m.sender {
          db.rows := db.rows[i := m.(chat := moved.chat, sender := moved.sender)];
        }
      }
    }
  }

  method UpdateDirections(db: Database, sessions: seq<Session>)
    modifies db`rows
    ensures |db.rows| == |old(db.rows)|
    ensures forall k :: 0 <= k < |db.rows| ==> db.rows[k] == Redirected(old(db.rows)[k], sessions)
  {
    ghost var before := db.rows;
    for i := 0 to |db.rows|
      invariant |db.rows| == |before|
      invariant forall k :: 0 <= k < i ==> db.rows[k] == Redirected(before[k], sessions)
      invariant forall k :: i <= k < |before| ==> db.rows[k] == before[k]
    {
      db.rows := db.rows[i := Redirected(db.rows[i], sessions)];
    }
  }

  // ------------------------------------------------------------------ what it keeps

  /** Identity, content and time never move; direction moves only from in to out, exactly on
      the rows whose repaired sender is the tenant's own number. */
  lemma RepairTouchesOnlyAddressing(rows: seq<Message>, index: seq<LidPair>, sessions: seq<Session>, i: nat)
    requires i < |rows|
    ensures var m, after := rows[i], RepairedRows(rows, index, sessions)[i];
            && after == m.(chat := after.chat, sender := after.sender, direction := after.direction)
            && after.chat == Repaired(index, m.chat) && after.sender == Repaired(index, m.sender)
            && (after.direction != m.direction <==> m.direction == In && SentByOwner(after, sessions))
            && (after.direction != m.direction ==> after.direction == Out)
  {
    var m := Readdressed(rows[i], index);
    assert SentByOwner(m.(direction := Out), sessions) <==> SentByOwner(m, sessions);
  }

  lemma RowTwiceIsOnce(m: Message, index: seq<LidPair>, sessions: seq<Session>)
    requires ValidIndex(index)
    ensures var once := RepairedRow(m, index, sessions);
            RepairedRow(once, index, sessions) == once && KeyOf(once) == KeyOf(m) && once.id == m.id
  {
    RepairIsIdempotent(index, m.chat);
    RepairIsIdempotent(index, m.sender);
    ReaddressedTwice(m, index);
    RedirectedTwice(Readdressed(m, index), sessions);
    var once := RepairedRow(m, index, sessions);
    assert once == Readdressed(m, index).(direction := once.direction);
    assert Readdressed(once, index) == once;
  }

  lemma ReaddressedTwice(m: Message, index: seq<LidPair>)
    requires ValidIndex(index)
    ensures forall d :: Readdressed(Readdressed(m, index).(direction := d), index) == Readdressed(m, index).(direction := d)
  {
    RepairIsIdempotent(index, m.chat);
    RepairIsIdempotent(index, m.sender);
  }

  lemma RedirectedTwice(m: Message, sessions: seq<Session>)
    ensures Redirected(Redirected(m, sessions), sessions) == Redirected(m, sessions)
  {
    assert SentByOwner(m.(direction := Out), sessions) <==> SentByOwner(m, sessions);
  }

  /** The repaired table still passes the guard, and a second run changes nothing. */
  lemma RepairTwiceIsOnce(rows: seq<Message>, index: seq<LidPair>, sessions: seq<Session>)
    requires ValidIndex(index)
    ensures var once := RepairedRows(rows, index, sessions);
            && RepairedRows(once, index, sessions) == once
            && (OncePerTenant(once) <==> OncePerTenant(rows))
            && (KeyedById(once) <==> KeyedById(rows))
  {
    var once := RepairedRows(rows, index, sessions);
    forall i | 0 <= i < |rows|
      ensures RepairedRow(once[i], index, sessions) == once[i] && KeyOf(once[i]) == KeyOf(rows[i]) && once[i].id == rows[i].id {
      RowTwiceIsOnce(rows[i], index, sessions);
    }
  }

  /** On a table whose chats carry no device suffix the repair shows in none of ListChats, ListByChat
      and OldestByChat: the first groups, counts and orders the same, the second pages the same
      messages, the third returns the same one. It does show in SearchChats, which matches raw
      addresses too; `Searches` says how. */
  lemma RepairKeepsConversations(
      rows: seq<Message>, index: seq<LidPair>, sessions: seq<Session>, names: seq<ChatName>,
      tenant: string, query: string, limit: int)
    requires ValidIndex(index) && ValidNames(names)
    requires forall m :: m in rows ==> DeviceFree(m.chat)
    ensures var after := RepairedRows(rows, index, sessions);
            && Map(Views.UndirectedChat, Conversations.ListChats(after, tenant, index, names, limit)) ==
               Map(Views.UndirectedChat, Conversations.ListChats(rows, tenant, index, names, limit))
            && Map(Views.Undirected, Conversations.ListByChat(after, tenant, index, query, limit)) ==
               Map(Views.Undirected, Conversations.ListByChat(rows, tenant, index, query, limit))
            && Views.Seen(Views.Undirected, Conversations.OldestByChat(after, tenant, index, query)) ==
               Views.Seen(Views.Undirected, Conversations.OldestByChat(rows, tenant, index, query))
  {
    var after := RepairedRows(rows, index, sessions);
    forall i | 0 <= i < |rows|
      ensures Views.Undirected(after[i]) == Views.Undirected(rows[i])
      ensures after[i].tenant == rows[i].tenant
      ensures Projected(index, after[i].chat) == Projected(index, rows[i].chat) {
      RepairTouchesOnlyAddressing(rows, index, sessions, i);
      assert rows[i] in rows;
      RepairIsProjection(index, rows[i].chat);
    }
    Views.SameUndirectedLists(after, rows, tenant, index, names, limit);
    Views.SamePages(Views.Undirected, after, rows, tenant, index, query, limit);
    Views.SameOldest(Views.Undirected, after, rows, tenant, index, query);
  }

  /** After the repair a query reaches every row of the conversation, those once stored
      with a device suffix included. */
  lemma RepairReachesEveryDevice(
      rows: seq<Message>, index: seq<LidPair>, sessions: seq<Session>, tenant: string, query: string, i: nat)
    requires ValidIndex(index) && i < |rows| && rows[i].tenant == tenant
    requires !HollowDevice(rows[i].chat)
    ensures RepairedRows(rows, index, sessions)[i].chat in Aliases(index, query)
            <==> ReadForm(index, rows[i].chat) == ReadForm(index, query)
    ensures RepairedRows(rows, index, sessions)[i].chat == ReadForm(index, rows[i].chat)
  {
    var chat := rows[i].chat;
    RepairIsReadForm(index, chat);
    ProjectedIsStable(index, NonAD(chat));
    AliasesAreTheConversation(index, query, ReadForm(index, chat));
  }

  /** A device without a user is where all three part: the repair keeps the "@", the readers
      keep everything, and the write paths file the server alone. */
  lemma HollowAddressIsRewritten(index: seq<LidPair>)
    requires ValidIndex(index)
    ensures Repaired(index, ":5@x") == "@x"
    ensures ReadForm(index, ":5@x") == ":5@x"
    ensures Folds.FiledForm(index, ":5@x") == Some("x")
  {
    Folds.HollowAddressHasThreeForms(index, 5, "x");
    Folds.FiveIsSpelled();
  }
}
