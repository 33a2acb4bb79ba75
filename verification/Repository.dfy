/**
 The gateway's database file and the two repositories over it: the messages and
 chats tables, and whatsmeow's LID index, which is only ever read. Each method
 is proved against the query it runs, stated as a function of the tables.
 */
module Repository {
  import opened Text
  import opened Sorting
  import opened Addresses
  import opened Messages
  import opened Conversations
  import ChatNames
  import Views
  import Like

  // -------------------------------------------------------------- single-row access

  function Addressed(tenant: string, id: string): Message -> bool {
    (m: Message) => m.tenant == tenant && (m.id == id || m.waId == id)
  }

  /** The newest of some rows, kept while scanning. */
  function Newest(rows: seq<Message>): Option<Message> {
    if rows == [] then None
    else
      var last := rows[|rows| - 1];
      match Newest(rows[..|rows| - 1])
      case None => Some(last)
      case Some(sofar) => Some(if Newer(last, sofar) then last else sofar)
  }

  /** A message of the tenant by either of its identifiers. */
  function Lookup(rows: seq<Message>, tenant: string, id: string): Option<Message> {
    if tenant == "" || id == "" then None else Newest(Filter(Addressed(tenant, id), rows))
  }

  lemma {:induction false} NewestMember(rows: seq<Message>)
    ensures Newest(rows).None? <==> rows == []
    ensures Newest(rows).Some? ==> Newest(rows).value in rows
  {
    if rows != [] {
      var n := |rows| - 1;
      NewestMember(rows[..n]);
      if Newest(rows[..n]).Some? { InitMember(rows, n, Newest(rows[..n]).value); }
    }
  }

  lemma InitMember(rows: seq<Message>, n: nat, m: Message)
    requires n < |rows| && m in rows[..n]
    ensures m in rows
  {
    var i :| 0 <= i < n && rows[..n][i] == m;
    assert rows[i] == m;
  }

  lemma LookupMember(rows: seq<Message>, tenant: string, id: string)
    ensures Lookup(rows, tenant, id).Some? ==>
              var m := Lookup(rows, tenant, id).value; m in rows && m.tenant == tenant && (m.id == id || m.waId == id)
  {
    var hits := Filter(Addressed(tenant, id), rows);
    NewestMember(hits);
    if hits != [] {
      FilterMember(Addressed(tenant, id), rows, Newest(hits).value);
    }
  }

  /** The lookup finds the newest of the tenant's rows under that id, and misses only when
      there is none. */
  lemma LookupIsNewest(rows: seq<Message>, tenant: string, id: string)
    requires DistinctIds(rows) && tenant != "" && id != ""
    ensures var matching := Filter(Addressed(tenant, id), rows);
            && (Lookup(rows, tenant, id).None? <==> forall m :: m in rows ==> m.tenant != tenant || (m.id != id && m.waId != id))
            && (Lookup(rows, tenant, id).Some? ==>
                  Lookup(rows, tenant, id).value in matching && Leads(Lookup(rows, tenant, id).value, matching, Newer))
  {
    var matching := Filter(Addressed(tenant, id), rows);
    forall m ensures m in matching <==> m in rows && Addressed(tenant, id)(m) {
      FilterMember(Addressed(tenant, id), rows, m);
    }
    NewestMember(matching);
    if matching == [] {
      forall m | m in rows ensures m.tenant != tenant || (m.id != id && m.waId != id) {
        assert m !in matching;
      }
    } else {
      assert matching[0] in matching;
      NewestLeads(matching);
    }
  }

  lemma {:induction false} NewestLeads(rows: seq<Message>)
    requires rows != [] && DistinctIds(rows)
    ensures Newest(rows).Some? && Leads(Newest(rows).value, rows, Newer)
  {
    var n := |rows| - 1;
    var init, last := rows[..n], rows[n];
    assert rows == init + [last];
    if init != [] {
      NewestLeads(init);
      forall e | e in rows ensures !Newer(e, Newest(rows).value) {
        var sofar := Newest(init).value;
        RecentIsAnOrder(e.timestamp, e.id, last.timestamp, last.id, sofar.timestamp, sofar.id);
        RecentIsAnOrder(e.timestamp, e.id, sofar.timestamp, sofar.id, last.timestamp, last.id);
        assert e in init || e == last;
      }
    } else {
      RecentIsAnOrder(last.timestamp, last.id, last.timestamp, last.id, last.timestamp, last.id);
    }
  }

  /** New values for what a row remembers of its last fetch. */
  datatype MediaUpdate = MediaUpdate(path: Option<string>, status: MediaStatus, error: string, fetchedAt: int)

  /** A missing path leaves the old one; the rest is replaced. */
  function Recorded(was: FetchRecord, upd: MediaUpdate, now: int): FetchRecord {
    FetchRecord(
      if upd.path.Some? then upd.path else was.path,
      Some(upd.status),
      if upd.error != "" then Some(upd.error) else None,
      Some(if upd.fetchedAt == ZERO_TIME then now else upd.fetchedAt))
  }

  function UpdateRow(m: Message, tenant: string, id: string, upd: MediaUpdate, now: int): Message {
    if m.tenant == tenant && m.id == id then m.(fetch := Recorded(m.fetch, upd, now)) else m
  }

  function UpdateRows(rows: seq<Message>, tenant: string, id: string, upd: MediaUpdate, now: int): (r: seq<Message>)
    ensures |r| == |rows|
    ensures forall i :: 0 <= i < |rows| ==> r[i] == UpdateRow(rows[i], tenant, id, upd, now)
  {
    seq(|rows|, i requires 0 <= i < |rows| => UpdateRow(rows[i], tenant, id, upd, now))
  }

  // -------------------------------------------------------------------- chat names

  function FindName(names: seq<ChatName>, tenant: string, chat: string): (i: int)
    ensures -1 <= i < |names|
    ensures i >= 0 ==> names[i].tenant == tenant && names[i].chat == chat
    ensures i < 0 ==> forall n :: n in names ==> n.tenant != tenant || n.chat != chat
  {
    if names == [] then -1
    else
      var last := names[|names| - 1];
      if last.tenant == tenant && last.chat == chat then |names| - 1
      else FindName(names[..|names| - 1], tenant, chat)
  }

  /** ON CONFLICT (tenant_id, chat_jid) DO UPDATE; a blank name is not written. */
  function UpsertName(names: seq<ChatName>, tenant: string, chat: string, name: string): seq<ChatName> {
    var trimmed := TrimSpace(name);
    var i := FindName(names, tenant, chat);
    if trimmed == "" then names
    else if i >= 0 then names[i := ChatName(tenant, chat, trimmed)]
    else names + [ChatName(tenant, chat, trimmed)]
  }

  /** A chat that has a name to store. */
  predicate IsNamed(chat: (string, string)) { TrimSpace(chat.1) != "" }

  ghost predicate AnyNamed(chats: seq<(string, string)>) {
    exists c :: c in chats && IsNamed(c)
  }

  function UpsertNames(names: seq<ChatName>, tenant: string, chats: seq<(string, string)>): seq<ChatName> {
    if chats == [] then names
    else
      var last := chats[|chats| - 1];
      UpsertName(UpsertNames(names, tenant, chats[..|chats| - 1]), tenant, last.0, last.1)
  }

  lemma NameOfMember(names: seq<ChatName>, n: ChatName)
    requires ValidNames(names) && n in names
    ensures NameOf(names, n.tenant, n.chat) == Some(n.name)
  {
    var i :| 0 <= i < |names| && names[i] == n;
    NameAt(names, i);
  }

  lemma {:induction false} NameAt(names: seq<ChatName>, i: nat)
    requires ValidNames(names) && i < |names|
    ensures NameOf(names, names[i].tenant, names[i].chat) == Some(names[i].name)
  {
    if i > 0 {
      assert names[0].tenant != names[i].tenant || names[0].chat != names[i].chat;
      NameAt(names[1..], i - 1);
    }
  }

  lemma {:induction false} NameMissing(names: seq<ChatName>, tenant: string, chat: string)
    requires forall n :: n in names ==> n.tenant != tenant || n.chat != chat
    ensures NameOf(names, tenant, chat).None?
  {
    if names != [] {
      assert names[0] in names;
      NameMissing(names[1..], tenant, chat);
    }
  }

  /** One name per tenant and chat: the newest reading wins, a blank one changes nothing,
      and no other name of any tenant moves. */
  lemma UpsertReplacesOneName(names: seq<ChatName>, tenant: string, chat: string, name: string, tenant': string, chat': string)
    requires ValidNames(names)
    ensures var after := UpsertName(names, tenant, chat, name);
            && ValidNames(after)
            && NameOf(after, tenant', chat') ==
               if tenant' == tenant && chat' == chat && TrimSpace(name) != "" then Some(TrimSpace(name))
               else NameOf(names, tenant', chat')
  {
    var trimmed := TrimSpace(name);
    var after := UpsertName(names, tenant, chat, name);
    var i := FindName(names, tenant, chat);
    if trimmed != "" {
      if i < 0 {
        assert forall k :: 0 <= k < |names| ==> names[k] in names;
      }
      assert ValidNames(after);
      assert after[if i < 0 then |names| else i] in after;
      if tenant' == tenant && chat' == chat {
        NameOfMember(after, ChatName(tenant, chat, trimmed));
      } else {
        OtherNamesStay(names, after, if i < 0 then |names| else i, tenant', chat');
      }
    }
  }

  lemma OtherNamesStay(names: seq<ChatName>, after: seq<ChatName>, i: nat, tenant: string, chat: string)
    requires ValidNames(names) && ValidNames(after)
    requires i < |after| && |names| <= |after| <= |names| + 1
    requires forall k :: 0 <= k < |after| && k != i ==> k < |names| && after[k] == names[k]
    requires after[i].tenant != tenant || after[i].chat != chat
    requires i < |names| ==> names[i].tenant != tenant || names[i].chat != chat
    ensures NameOf(after, tenant, chat) == NameOf(names, tenant, chat)
  {
    var j := FindName(names, tenant, chat);
    if j >= 0 {
      NameAt(names, j);
      assert after[j] == names[j];
      NameAt(after, j);
    } else {
      forall n | n in after ensures n.tenant != tenant || n.chat != chat {
        var k :| 0 <= k < |after| && after[k] == n;
        assert k != i ==> names[k] in names;
      }
      NameMissing(names, tenant, chat);
      NameMissing(after, tenant, chat);
    }
  }

  lemma {:induction false} UpsertsKeepNames(names: seq<ChatName>, tenant: string, chats: seq<(string, string)>)
    requires ValidNames(names)
    ensures ValidNames(UpsertNames(names, tenant, chats))
  {
    if chats != [] {
      var last := chats[|chats| - 1];
      UpsertsKeepNames(names, tenant, chats[..|chats| - 1]);
      UpsertReplacesOneName(UpsertNames(names, tenant, chats[..|chats| - 1]), tenant, last.0, last.1, tenant, last.0);
    }
  }

  // -------------------------------------------------------------------- the database

  /** Which of a reader's look-ups the database answers: the one for the table, the one for the pair. */
  datatype Answers = Answers(table: bool, pair: bool)

  class Database {
    var tenants: set<string>
    var rows: seq<Message>
    var names: seq<ChatName>
    /** whatsmeow's own table: absent until its first upgrade, never dropped afterwards. */
    var lidTable: bool
    var index: seq<LidPair>
    /** The repository's memory of having seen the table. */
    var lidMap: bool

    ghost predicate Valid() reads this {
      && ValidRows(rows, tenants)
      && ValidNames(names)
      && ValidIndex(index)
      && (lidMap ==> lidTable)
    }

    /** What the queries can know of the LID index when the look-ups are answered. */
    function Known(): seq<LidPair>
      reads `lidTable, `index
    {
      if lidTable then index else []
    }

    /** What a query knows of it: nothing before the table was seen, by this query or an earlier one. */
    function Seen(table: bool): seq<LidPair>
      reads `lidTable, `index, `lidMap
    {
      if lidMap || table then Known() else []
    }

    /** What the aliases of one address are taken from. */
    function Asked(answers: Answers): seq<LidPair>
      reads `lidTable, `index, `lidMap
    {
      if answers.pair then Seen(answers.table) else []
    }

    /** The table is looked for until it is found; `tableAnswers` says whether that look-up succeeds. */
    method LidMapReady(tableAnswers: bool) returns (ready: bool)
      requires Valid()
      modifies this`lidMap
      ensures Valid()
      ensures ready <==> lidTable && (old(lidMap) || tableAnswers)
      ensures lidMap <==> ready
    {
      if lidMap { return true; }
      if !tableAnswers || !lidTable { return false; }
      lidMap := true;
      return true;
    }

    /** The live path's insert. */
    method Append(message: Message, newId: string, now: int) returns (err: Option<StoreError>)
      requires Valid()
      modifies this`rows
      ensures Valid() && old(rows) <= rows
      ensures match PrepareMessage(message, newId, now)
              case Err(e) => err == Some(e) && rows == old(rows)
              case Ok(m) =>
                && (err.None? <==> InsertAll(old(rows), tenants, [m]).Some?)
                && rows == Committed(old(rows), tenants, [m])
                && (err.None? ==> HasKey(rows, KeyOf(message)))
    {
      var prepared := PrepareMessage(message, newId, now);
      if prepared.Err? { return Some(prepared.error); }
      var m := prepared.value;
      assert [m][..0] == [];
      if InsertOutcome(rows, tenants, m).Rejected? { return Some(Constraint); }
      InsertAddsKey(rows, tenants, m);
      rows := InsertRow(rows, tenants, m);
      return None;
    }

    /** The history path's insert: the whole batch, and how many of its rows were new. */
    method AppendBatch(messages: seq<Message>, newIds: seq<string>, now: int, commits: bool)
      returns (inserted: int, err: Option<StoreError>)
      requires Valid() && |newIds| == |messages|
      modifies this`rows
      ensures Valid() && old(rows) <= rows
      ensures inserted == |rows| - |old(rows)|
      ensures err.Some? || messages == [] ==> rows == old(rows)
      ensures err.None? <==>
                (messages == []
                 || (PrepareAll(messages, newIds, now).Ok? && commits
                     && InsertAll(old(rows), tenants, PrepareAll(messages, newIds, now).value).Some?))
      ensures err.None? && messages != [] ==>
                InsertAll(old(rows), tenants, PrepareAll(messages, newIds, now).value) == Some(rows)
    {
      if messages == [] { return 0, None; }
      var prepared := PrepareRows(messages, newIds, now);
      if prepared.Err? { return 0, Some(prepared.error); }
      inserted, err := InsertRows(prepared.value, commits);
    }

    /** The transaction of AppendBatch: every statement runs and it commits, or nothing happens. */
    method InsertRows(prepared: seq<Message>, commits: bool) returns (inserted: int, err: Option<StoreError>)
      requires Valid()
      modifies this`rows
      ensures Valid() && old(rows) <= rows
      ensures inserted == |rows| - |old(rows)|
      ensures err.None? <==> commits && InsertAll(old(rows), tenants, prepared).Some?
      ensures if err.None? then InsertAll(old(rows), tenants, prepared) == Some(rows) else rows == old(rows)
    {
      var before := rows;
      inserted := 0;
      for i := 0 to |prepared|
        invariant InsertAll(before, tenants, prepared[..i]) == Some(rows)
        invariant inserted == |rows| - |before|
        invariant Valid() && before <= rows
      {
        var m := prepared[i];
        var outcome := InsertOutcome(rows, tenants, m);
        if outcome.Rejected? {
          RejectedStatement(before, rows, tenants, prepared, i);
          rows := before;
          return 0, Some(Constraint);
        }
        InsertStep(before, rows, tenants, prepared, i);
        rows := InsertRow(rows, tenants, m);
        inserted := inserted + if outcome.Inserted? then 1 else 0;
      }
      assert prepared[..|prepared|] == prepared;
      if !commits {
        rows := before;
        return 0, Some(CommitFailed);
      }
      err := None;
    }

    /** Every address the conversation of `chatJid` may be stored under. */
    method ChatAliases(chatJid: string, answers: Answers) returns (aliases: seq<string>)
      requires Valid()
      modifies this`lidMap
      ensures Valid()
      ensures aliases == Aliases(old(Asked(answers)), chatJid)
    {
      var address := NonAD(chatJid);
      NonADIsStable(chatJid);
      aliases := [address];
      var n := SplitAddress(address);
      if n.None? { return; }
      var ready := LidMapReady(answers.table);
      if !ready || !answers.pair { return; }
      if n.value.server == LID {
        var mapped := NumberOf(index, n.value.user);
        if mapped.Some? && mapped.value != "" { aliases := aliases + [Render(mapped.value, PHONE)]; }
      } else if n.value.server == PHONE {
        var mapped := LidOf(index, n.value.user);
        if mapped.Some? && mapped.value != "" { aliases := aliases + [Render(mapped.value, LID)]; }
      }
    }

    /** The WHERE clause both readers of one conversation share. */
    method SelectRows(tenant: string, aliases: seq<string>) returns (own: seq<Message>)
      ensures own == Selected(rows, tenant, aliases)
    {
      own := [];
      for i := 0 to |rows|
        invariant own == Selected(rows[..i], tenant, aliases)
      {
        SelectedStep(rows, i, tenant, aliases);
        if rows[i].tenant == tenant && rows[i].chat in aliases { own := own + [rows[i]]; }
      }
      assert rows[..|rows|] == rows;
    }

    /** A page of the conversation, from its latest message backwards. */
    method ListByChat(tenant: string, chatJid: string, limit: int, answers: Answers) returns (page: seq<Message>)
      requires Valid()
      modifies this`lidMap
      ensures Valid()
      ensures page == Conversations.ListByChat(rows, tenant, old(Asked(answers)), chatJid, limit)
    {
      var aliases := ChatAliases(chatJid, answers);
      var own := SelectRows(tenant, aliases);
      page := SortPage(own);
      page := Limit(page, NormalizeLimit(limit));
    }

    /** The conversation's first message, from which a backfill asks further back. */
    method OldestByChat(tenant: string, chatJid: string, answers: Answers) returns (oldest: Option<Message>)
      requires Valid()
      modifies this`lidMap
      ensures Valid()
      ensures oldest == Conversations.OldestByChat(rows, tenant, old(Asked(answers)), chatJid)
    {
      var aliases := ChatAliases(chatJid, answers);
      var own := SelectRows(tenant, aliases);
      oldest := ScanOldest(own);
    }

    /** The joined rows of the tenant: the inner query of ListChats. */
    method JoinRows(tenant: string, known: seq<LidPair>) returns (entries: seq<Entry>)
      ensures entries == Entries(rows, tenant, known, names)
    {
      entries := [];
      for i := 0 to |rows|
        invariant entries == Entries(rows[..i], tenant, known, names)
      {
        EntriesStep(rows, i, tenant, known, names);
        if rows[i].tenant == tenant {
          entries := entries + JoinedRow(rows[i], LeftJoin(known, rows[i].chat), names);
        }
      }
      assert rows[..|rows|] == rows;
    }

    /** The conversations of the tenant with their sizes and last messages. */
    method ListChats(tenant: string, limit: int, tableAnswers: bool) returns (chats: seq<Summary>)
      requires Valid()
      modifies this`lidMap
      ensures Valid()
      ensures chats == Conversations.ListChats(rows, tenant, old(Seen(tableAnswers)), names, limit)
    {
      var ready := LidMapReady(tableAnswers);
      var entries := JoinRows(tenant, if ready then index else []);
      var groups := GroupEntries(entries);
      chats := SortChats(groups);
      chats := Limit(chats, NormalizeLimit(limit));
    }

    /** The rows a search pattern hits. */
    method SearchRows(known: seq<LidPair>, query: string) returns (hits: seq<Message>)
      ensures hits == Filter(Views.Hits(known, query), rows)
    {
      var pattern := Like.SubstringPattern(query);
      hits := [];
      for i := 0 to |rows|
        invariant hits == Filter(Views.Hits(known, query), rows[..i])
      {
        assert rows[..i + 1][..i] == rows[..i];
        if Views.SearchHit(rows[i], known, pattern) { hits := hits + [rows[i]]; }
      }
      assert rows[..|rows|] == rows;
    }

    /** Conversations in which some address holds the query. */
    method SearchChats(tenant: string, query: string, limit: int, tableAnswers: bool) returns (found: seq<string>)
      requires Valid()
      modifies this`lidMap
      ensures Valid()
      ensures found == Views.SearchChats(rows, tenant, old(Seen(tableAnswers)), query, limit)
    {
      var trimmed := TrimSpace(query);
      if trimmed == "" { return []; }
      var ready := LidMapReady(tableAnswers);
      var known := if ready then index else [];
      var hits := SearchRows(known, trimmed);
      var groups := GroupEntries(Entries(hits, tenant, known, []));
      var chats := SortChats(groups);
      found := Limit(Map(Views.ChatAddress, chats), NormalizeLimit(limit));
    }

    /** The conversations whose cached name contains the query. */
    method SearchNames(tenant: string, query: string, limit: int) returns (found: seq<ChatName>)
      ensures found == ChatNames.SearchNames(names, tenant, query, limit)
    {
      var trimmed := TrimSpace(query);
      if trimmed == "" { return []; }
      var pattern := Lower(Like.SubstringPattern(trimmed));
      found := [];
      for i := 0 to |names|
        invariant found == ChatNames.NamesFound(names[..i], tenant, trimmed)
      {
        var n := names[i];
        NamesStep(names, i, tenant, trimmed);
        if n.tenant == tenant && Like.Like(pattern, Lower(n.name)) {
          found := Insert(n, found, ChatNames.NameBefore);
        }
      }
      assert names[..|names|] == names;
      found := Limit(found, NormalizeLimit(limit));
    }

    /** Scans for either identifier, keeping the newest hit. */
    method GetByID(tenant: string, id: string) returns (found: Option<Message>)
      requires Valid()
      ensures found == Lookup(rows, tenant, id)
    {
      if tenant == "" || id == "" { return None; }
      found := None;
      for i := 0 to |rows|
        invariant found == Newest(Filter(Addressed(tenant, id), rows[..i]))
      {
        var m := rows[i];
        LookupStep(rows, i, tenant, id);
        if m.tenant == tenant && (m.id == id || m.waId == id) {
          if found.None? || Newer(m, found.value) { found := Some(m); }
        }
      }
      assert rows[..|rows|] == rows;
    }

    /** Rewrites what the row remembers of its last fetch, and says whether there was such a row. */
    method UpdateMedia(tenant: string, id: string, upd: MediaUpdate, now: int) returns (err: Option<StoreError>)
      requires Valid()
      modifies this`rows
      ensures Valid()
      ensures tenant == "" || id == "" ==> err == Some(NotFound) && rows == old(rows)
      ensures tenant != "" && id != "" ==>
                && rows == UpdateRows(old(rows), tenant, id, upd, now)
                && (err.None? <==> exists m :: m in old(rows) && m.tenant == tenant && m.id == id)
    {
      if tenant == "" || id == "" { return Some(NotFound); }
      var affected := 0;
      ghost var before := rows;
      for i := 0 to |rows|
        invariant |rows| == |before|
        invariant forall k :: 0 <= k < i ==> rows[k] == UpdateRow(before[k], tenant, id, upd, now)
        invariant forall k :: i <= k < |rows| ==> rows[k] == before[k]
        invariant affected > 0 <==> exists k :: 0 <= k < i && before[k].tenant == tenant && before[k].id == id
        invariant affected >= 0
      {
        if rows[i].tenant == tenant && rows[i].id == id {
          affected := affected + 1;
        }
        rows := rows[i := UpdateRow(rows[i], tenant, id, upd, now)];
      }
      assert rows == UpdateRows(before, tenant, id, upd, now);
      UpdateKeepsTheTable(before, tenants, tenant, id, upd, now);
      if affected == 0 { return Some(NotFound); }
      err := None;
    }

    /** Stores the current names of many conversations; the newest reading of each wins. */
    method UpsertBatch(tenant: string, chats: seq<(string, string)>, commits: bool) returns (err: Option<StoreError>)
      requires Valid()
      modifies this`names
      ensures Valid()
      ensures err.None? ==> names == UpsertNames(old(names), tenant, chats)
      ensures err.Some? ==> names == old(names)
      ensures err.Some? <==> chats != [] && (!commits || (tenant !in tenants && AnyNamed(chats)))
    {
      if chats == [] { return None; }
      var before := names;
      var failed := UpsertAll(tenant, chats);
      if failed || !commits {
        names := before;
        return Some(if failed then Constraint else CommitFailed);
      }
      err := None;
    }

    /** The statements of the transaction, up to the first that fails. */
    method UpsertAll(tenant: string, chats: seq<(string, string)>) returns (failed: bool)
      requires Valid()
      modifies this`names
      ensures Valid()
      ensures !failed ==> names == UpsertNames(old(names), tenant, chats)
      ensures failed <==> tenant !in tenants && AnyNamed(chats)
    {
      ghost var before := names;
      for i := 0 to |chats|
        invariant Valid()
        invariant names == UpsertNames(before, tenant, chats[..i])
        invariant tenant !in tenants ==> !AnyNamed(chats[..i])
      {
        var chat := chats[i];
        NamedStep(chats, i);
        if tenant !in tenants && IsNamed(chat) { return true; }
        UpsertStep(before, tenant, chats, i);
        names := UpsertName(names, tenant, chat.0, chat.1);
      }
      assert chats[..|chats|] == chats;
      failed := false;
    }
  }

  method PrepareRows(messages: seq<Message>, newIds: seq<string>, now: int) returns (r: Result<seq<Message>>)
    requires |newIds| == |messages|
    ensures r.Ok? ==> r == PrepareAll(messages, newIds, now)
    ensures r.Err? <==> PrepareAll(messages, newIds, now).Err?
  {
    var prepared := [];
    for i := 0 to |messages|
      invariant PrepareAll(messages[..i], newIds[..i], now) == Ok(prepared)
    {
      assert messages[..i + 1][..i] == messages[..i] && newIds[..i + 1][..i] == newIds[..i];
      var ready := PrepareMessage(messages[i], newIds[i], now);
      if ready.Err? {
        FirstBadRow(messages, newIds, now, i);
        return Err(ready.error);
      }
      prepared := prepared + [ready.value];
    }
    assert messages[..|messages|] == messages && newIds[..|messages|] == newIds;
    r := Ok(prepared);
  }

  /** PARTITION BY the canonical address. */
  method GroupEntries(entries: seq<Entry>) returns (groups: seq<Summary>)
    ensures groups == Group(entries)
  {
    groups := [];
    for i := 0 to |entries|
      invariant groups == Group(entries[..i])
    {
      GroupLast(entries[..i], entries[i], entries[..i + 1]);
      groups := AddEntry(groups, entries[i]);
    }
    assert entries[..|entries|] == entries;
  }

  lemma GroupLast(init: seq<Entry>, last: Entry, entries: seq<Entry>)
    requires entries == init + [last]
    ensures Group(entries) == AddEntry(Group(init), last)
  {
    assert entries[..|entries| - 1] == init;
  }

  method SortPage(rows: seq<Message>) returns (page: seq<Message>)
    ensures page == Page(rows)
  {
    page := [];
    for i := 0 to |rows|
      invariant page == Page(rows[..i])
    {
      SortLast(rows[..i], rows[i], rows[..i + 1], Newer);
      page := Insert(rows[i], page, Newer);
    }
    assert rows[..|rows|] == rows;
  }

  method ScanOldest(rows: seq<Message>) returns (oldest: Option<Message>)
    ensures oldest == Oldest(rows)
  {
    oldest := None;
    for i := 0 to |rows|
      invariant oldest == Oldest(rows[..i])
    {
      assert rows[..i + 1][..i] == rows[..i];
      if oldest.None? || Older(rows[i], oldest.value) { oldest := Some(rows[i]); }
    }
    assert rows[..|rows|] == rows;
  }

  method SortChats(groups: seq<Summary>) returns (chats: seq<Summary>)
    ensures chats == Sort(groups, ChatBefore)
  {
    chats := [];
    for i := 0 to |groups|
      invariant chats == Sort(groups[..i], ChatBefore)
    {
      assert groups[..i + 1] == groups[..i] + [groups[i]];
      SortLast(groups[..i], groups[i], groups[..i + 1], ChatBefore);
      chats := Insert(groups[i], chats, ChatBefore);
    }
    assert groups[..|groups|] == groups;
  }

  // --------------------------------------------------------------- loop lemmas

  lemma SelectedStep(rows: seq<Message>, i: nat, tenant: string, aliases: seq<string>)
    requires i < |rows|
    ensures Selected(rows[..i + 1], tenant, aliases) ==
            if rows[i].tenant == tenant && rows[i].chat in aliases
            then Selected(rows[..i], tenant, aliases) + [rows[i]] else Selected(rows[..i], tenant, aliases)
  {
    assert rows[..i + 1] == rows[..i] + [rows[i]];
    FilterStep(AskedFor(tenant, aliases), rows[..i], rows[i]);
  }

  lemma UpsertStep(names: seq<ChatName>, tenant: string, chats: seq<(string, string)>, i: nat)
    requires i < |chats| && ValidNames(names)
    ensures var sofar := UpsertNames(names, tenant, chats[..i]);
            && UpsertNames(names, tenant, chats[..i + 1]) == UpsertName(sofar, tenant, chats[i].0, chats[i].1)
            && ValidNames(UpsertName(sofar, tenant, chats[i].0, chats[i].1))
  {
    assert chats[..i + 1][..i] == chats[..i];
    UpsertsKeepNames(names, tenant, chats[..i]);
    UpsertReplacesOneName(UpsertNames(names, tenant, chats[..i]), tenant, chats[i].0, chats[i].1, tenant, chats[i].0);
  }

  lemma NamedStep(chats: seq<(string, string)>, i: nat)
    requires i < |chats|
    ensures AnyNamed(chats[..i + 1]) <==> AnyNamed(chats[..i]) || IsNamed(chats[i])
    ensures IsNamed(chats[i]) ==> AnyNamed(chats)
  {
    assert chats[..i + 1] == chats[..i] + [chats[i]];
    assert chats[i] in chats;
  }

  lemma LookupStep(rows: seq<Message>, i: nat, tenant: string, id: string)
    requires i < |rows|
    ensures var m, sofar := rows[i], Newest(Filter(Addressed(tenant, id), rows[..i]));
            Newest(Filter(Addressed(tenant, id), rows[..i + 1])) ==
            if m.tenant != tenant || (m.id != id && m.waId != id) then sofar
            else if sofar.None? || Newer(m, sofar.value) then Some(m) else sofar
  {
    var hits := Filter(Addressed(tenant, id), rows[..i]);
    assert rows[..i + 1] == rows[..i] + [rows[i]];
    FilterStep(Addressed(tenant, id), rows[..i], rows[i]);
    assert hits + [] == hits && (hits + [rows[i]])[..|hits|] == hits;
  }

  lemma NamesStep(names: seq<ChatName>, i: nat, tenant: string, query: string)
    requires i < |names|
    ensures ChatNames.NamesFound(names[..i + 1], tenant, query) ==
            if ChatNames.NameHit(tenant, query)(names[i])
            then Insert(names[i], ChatNames.NamesFound(names[..i], tenant, query), ChatNames.NameBefore)
            else ChatNames.NamesFound(names[..i], tenant, query)
  {
    var hits := Filter(ChatNames.NameHit(tenant, query), names[..i]);
    assert names[..i + 1] == names[..i] + [names[i]];
    FilterStep(ChatNames.NameHit(tenant, query), names[..i], names[i]);
    SortLast(hits, names[i], hits + [names[i]], ChatNames.NameBefore);
    assert hits + [] == hits;
  }

  lemma EntriesStep(rows: seq<Message>, i: nat, tenant: string, index: seq<LidPair>, names: seq<ChatName>)
    requires i < |rows|
    ensures Entries(rows[..i + 1], tenant, index, names) ==
            if rows[i].tenant == tenant
            then Entries(rows[..i], tenant, index, names) + JoinedRow(rows[i], LeftJoin(index, rows[i].chat), names)
            else Entries(rows[..i], tenant, index, names)
  {
    assert rows[..i + 1][..i] == rows[..i];
  }

  lemma {:induction false} FirstBadRow(messages: seq<Message>, newIds: seq<string>, now: int, i: nat)
    requires |newIds| == |messages| && i < |messages|
    requires PrepareMessage(messages[i], newIds[i], now).Err?
    ensures PrepareAll(messages, newIds, now).Err?
    decreases |messages|
  {
    var n := |messages| - 1;
    if i < n {
      FirstBadRow(messages[..n], newIds[..n], now, i);
    }
  }

  lemma InsertStep(before: seq<Message>, sofar: seq<Message>, tenants: set<string>, batch: seq<Message>, i: nat)
    requires i < |batch| && InsertAll(before, tenants, batch[..i]) == Some(sofar) && before <= sofar
    requires ValidRows(sofar, tenants) && !InsertOutcome(sofar, tenants, batch[i]).Rejected?
    ensures var after := InsertRow(sofar, tenants, batch[i]);
            && InsertAll(before, tenants, batch[..i + 1]) == Some(after)
            && ValidRows(after, tenants) && before <= after
            && |after| == |sofar| + if InsertOutcome(sofar, tenants, batch[i]).Inserted? then 1 else 0
  {
    assert batch[..i + 1][..i] == batch[..i];
    InsertAddsKey(sofar, tenants, batch[i]);
  }

  lemma RejectedStatement(before: seq<Message>, sofar: seq<Message>, tenants: set<string>, batch: seq<Message>, i: nat)
    requires i < |batch| && InsertAll(before, tenants, batch[..i]) == Some(sofar)
    requires InsertOutcome(sofar, tenants, batch[i]).Rejected?
    ensures InsertAll(before, tenants, batch).None?
  {
    assert batch[..i + 1][..i] == batch[..i];
    LaterStatementsDoNotHelp(before, tenants, batch, i + 1);
  }

  lemma {:induction false} LaterStatementsDoNotHelp(rows: seq<Message>, tenants: set<string>, batch: seq<Message>, i: nat)
    requires i <= |batch|
    requires InsertAll(rows, tenants, batch[..i]).None?
    ensures InsertAll(rows, tenants, batch).None?
    decreases |batch|
  {
    if i < |batch| {
      assert batch[..|batch| - 1][..i] == batch[..i];
      LaterStatementsDoNotHelp(rows, tenants, batch[..|batch| - 1], i);
    } else {
      assert batch[..i] == batch;
    }
  }

  lemma UpdateKeepsTheTable(rows: seq<Message>, tenants: set<string>, tenant: string, id: string, upd: MediaUpdate, now: int)
    requires ValidRows(rows, tenants)
    ensures ValidRows(UpdateRows(rows, tenant, id, upd, now), tenants)
  {
    var after := UpdateRows(rows, tenant, id, upd, now);
    forall r | r in after ensures r.tenant in tenants {
      var i :| 0 <= i < |after| && after[i] == r;
      assert rows[i] in rows;
    }
  }

  lemma ValidRowsAreDistinct(rows: seq<Message>, tenants: set<string>)
    requires ValidRows(rows, tenants)
    ensures DistinctIds(rows)
  {
    forall a, b | a in rows && b in rows && a.id == b.id ensures a == b {
      var i :| 0 <= i < |rows| && rows[i] == a;
      var j :| 0 <= j < |rows| && rows[j] == b;
      assert i < j || j < i || i == j;
    }
  }
}
