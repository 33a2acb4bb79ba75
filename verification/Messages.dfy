/**
 The messages table as a value: its rows, the uniqueness it keeps, and the
 single INSERT both write paths run, one row or one transaction at a time.
 */
module Messages {
  import opened Text

  datatype Direction = In | Out | Other(text: string)

  datatype MediaStatus = Available | Unavailable | Failed

  /** What a later download needs; captured on receipt and never rewritten. */
  datatype MediaReference = MediaReference(
    mediaType: Option<string>, directPath: Option<string>, secrets: seq<seq<bv8>>,
    fileLength: Option<int>, mimeType: Option<string>, mmsType: Option<string>)

  /** What the row remembers of its last fetch. */
  datatype FetchRecord = FetchRecord(
    path: Option<string>, status: Option<MediaStatus>, error: Option<string>, fetchedAt: Option<int>)

  const NEVER_FETCHED := FetchRecord(None, None, None, None)
  const NO_MEDIA := MediaReference(None, None, [], None, None, None)

  datatype Message = Message(
    id: string, tenant: string, chat: string, sender: string, waId: string,
    direction: Direction, body: string, timestamp: int, createdAt: int,
    reference: MediaReference, fetch: FetchRecord)

  /** Seconds since the epoch of Go's zero `time.Time`. */
  const ZERO_TIME := -62135596800

  datatype StoreError =
    TenantRequired | ChatRequired | MessageIdRequired | BadDirection | Constraint | CommitFailed | NotFound

  datatype Result<+T> = Ok(value: T) | Err(error: StoreError)

  /** A message is known to WhatsApp by its tenant and its WhatsApp id. */
  datatype Key = Key(tenant: string, waId: string)

  function KeyOf(m: Message): Key { Key(m.tenant, m.waId) }

  // ------------------------------------------------------------- preparing a row

  function PrepareMessage(m: Message, newId: string, now: int): Result<Message> {
    if m.tenant == "" then Err(TenantRequired)
    else if m.chat == "" then Err(ChatRequired)
    else if m.waId == "" then Err(MessageIdRequired)
    else if m.direction.Other? then Err(BadDirection)
    else Ok(m.(
      id := if m.id == "" then newId else m.id,
      timestamp := if m.timestamp == ZERO_TIME then now else m.timestamp,
      createdAt := if m.createdAt == ZERO_TIME then now else m.createdAt))
  }

  /** A prepared row is complete, keeps all the caller gave, and preparing it again changes nothing. */
  lemma PreparedIsComplete(m: Message, newId: string, now: int, laterId: string, later: int)
    requires newId != "" && now != ZERO_TIME
    ensures PrepareMessage(m, newId, now).Ok? <==> m.tenant != "" && m.chat != "" && m.waId != "" && !m.direction.Other?
    ensures PrepareMessage(m, newId, now).Ok? ==>
              var p := PrepareMessage(m, newId, now).value;
              && p.id != "" && p.timestamp != ZERO_TIME && p.createdAt != ZERO_TIME
              && (m.id != "" ==> p.id == m.id) && (m.timestamp != ZERO_TIME ==> p.timestamp == m.timestamp)
              && p == m.(id := p.id, timestamp := p.timestamp, createdAt := p.createdAt)
              && PrepareMessage(p, laterId, later) == Ok(p)
  {
  }

  /** The batch prepared row by row, or the error of its first unacceptable one. */
  function PrepareAll(batch: seq<Message>, newIds: seq<string>, now: int): (r: Result<seq<Message>>)
    requires |newIds| == |batch|
    ensures r.Ok? ==> |r.value| == |batch|
  {
    if batch == [] then Ok([])
    else
      var n := |batch| - 1;
      match PrepareAll(batch[..n], newIds[..n], now)
      case Err(e) => Err(e)
      case Ok(sofar) =>
        match PrepareMessage(batch[n], newIds[n], now)
        case Err(e) => Err(e)
        case Ok(m) => Ok(sofar + [m])
  }

  // ---------------------------------------------------------------- inserting it

  /** The row an INSERT leaves: three of the bookkeeping columns start out NULL. */
  function Stored(m: Message): Message {
    m.(fetch := FetchRecord(m.fetch.path, None, None, None))
  }

  predicate HasKey(rows: seq<Message>, k: Key) {
    exists r :: r in rows && KeyOf(r) == k
  }

  predicate HasId(rows: seq<Message>, id: string) {
    exists r :: r in rows && r.id == id
  }

  datatype Insertion = Inserted | Ignored | Rejected

  /** A known key is skipped; a taken row id or a missing tenant fails the statement. */
  function InsertOutcome(rows: seq<Message>, tenants: set<string>, m: Message): Insertion {
    if HasKey(rows, KeyOf(m)) then Ignored
    else if HasId(rows, m.id) || m.tenant !in tenants then Rejected
    else Inserted
  }

  function InsertRow(rows: seq<Message>, tenants: set<string>, m: Message): seq<Message> {
    if InsertOutcome(rows, tenants, m).Inserted? then rows + [Stored(m)] else rows
  }

  /** The rows a transaction over `batch` commits, or `None` when one of its statements fails. */
  function InsertAll(rows: seq<Message>, tenants: set<string>, batch: seq<Message>): Option<seq<Message>> {
    if batch == [] then Some(rows)
    else match InsertAll(rows, tenants, batch[..|batch| - 1])
      case None => None
      case Some(sofar) =>
        var m := batch[|batch| - 1];
        if InsertOutcome(sofar, tenants, m).Rejected? then None else Some(InsertRow(sofar, tenants, m))
  }

  function Committed(rows: seq<Message>, tenants: set<string>, batch: seq<Message>): seq<Message> {
    match InsertAll(rows, tenants, batch)
    case Some(after) => after
    case None => rows
  }

  // ----------------------------------------------------- what the table maintains

  /** The primary key: no two rows share a row id. */
  ghost predicate KeyedById(rows: seq<Message>) {
    forall i, j :: 0 <= i < j < |rows| ==> rows[i].id != rows[j].id
  }

  /** The unique index: no two rows share tenant and WhatsApp id. */
  ghost predicate OncePerTenant(rows: seq<Message>) {
    forall i, j :: 0 <= i < j < |rows| ==> KeyOf(rows[i]) != KeyOf(rows[j])
  }

  /** Primary key, unique index and foreign key of the messages table. */
  ghost predicate ValidRows(rows: seq<Message>, tenants: set<string>) {
    KeyedById(rows) && OncePerTenant(rows) && forall r :: r in rows ==> r.tenant in tenants
  }

  lemma {:induction false} BatchKeepsTheTable(rows: seq<Message>, tenants: set<string>, batch: seq<Message>)
    requires ValidRows(rows, tenants)
    requires InsertAll(rows, tenants, batch).Some?
    ensures ValidRows(InsertAll(rows, tenants, batch).value, tenants)
    ensures rows <= InsertAll(rows, tenants, batch).value
    ensures forall k :: HasKey(InsertAll(rows, tenants, batch).value, k) <==>
                        HasKey(rows, k) || HasKey(batch, k)
  {
    var after := InsertAll(rows, tenants, batch).value;
    if batch != [] {
      var init, m := batch[..|batch| - 1], batch[|batch| - 1];
      BatchKeepsTheTable(rows, tenants, init);
      var sofar := InsertAll(rows, tenants, init).value;
      assert batch == init + [m];
      InsertAddsKey(sofar, tenants, m);
      forall k ensures HasKey(batch, k) <==> HasKey(init, k) || KeyOf(m) == k {
        assert m in batch && forall e :: e in batch <==> e in init || e == m;
      }
    }
  }

  lemma InsertAddsKey(rows: seq<Message>, tenants: set<string>, m: Message)
    requires ValidRows(rows, tenants)
    requires !InsertOutcome(rows, tenants, m).Rejected?
    ensures ValidRows(InsertRow(rows, tenants, m), tenants)
    ensures rows <= InsertRow(rows, tenants, m)
    ensures forall k :: HasKey(InsertRow(rows, tenants, m), k) <==> HasKey(rows, k) || KeyOf(m) == k
  {
    var after := InsertRow(rows, tenants, m);
    if InsertOutcome(rows, tenants, m).Inserted? {
      assert after[|rows|] == Stored(m);
      forall i | 0 <= i < |rows|
        ensures KeyOf(rows[i]) != KeyOf(m) && rows[i].id != m.id && after[i] == rows[i] {
        assert rows[i] in rows;
      }
      forall k ensures HasKey(after, k) <==> HasKey(rows, k) || KeyOf(m) == k {
        assert after[|rows|] in after;
        assert forall r :: r in after <==> r in rows || r == Stored(m);
      }
    }
  }

  /** Rows whose keys are all stored already leave the table exactly as it was. */
  lemma {:induction false} KnownBatchIsIgnored(rows: seq<Message>, tenants: set<string>, batch: seq<Message>)
    requires forall m :: m in batch ==> HasKey(rows, KeyOf(m))
    ensures InsertAll(rows, tenants, batch) == Some(rows)
  {
    if batch != [] {
      assert batch[|batch| - 1] in batch;
      KnownBatchIsIgnored(rows, tenants, batch[..|batch| - 1]);
    }
  }

  /** Replaying a committed batch, under any row ids, inserts nothing. */
  lemma ReplayInsertsNothing(rows: seq<Message>, tenants: set<string>, batch: seq<Message>, replay: seq<Message>)
    requires ValidRows(rows, tenants)
    requires InsertAll(rows, tenants, batch).Some?
    requires forall m :: m in replay ==> HasKey(batch, KeyOf(m))
    ensures var after := InsertAll(rows, tenants, batch).value;
            InsertAll(after, tenants, replay) == Some(after)
  {
    BatchKeepsTheTable(rows, tenants, batch);
    KnownBatchIsIgnored(InsertAll(rows, tenants, batch).value, tenants, replay);
  }

  // -------------------------------------------------------- the order of writes

  /** A run of writes: a live message is a batch of one, a history chunk a batch of many. */
  function RunWrites(rows: seq<Message>, tenants: set<string>, writes: seq<seq<Message>>): seq<Message> {
    if writes == [] then rows
    else Committed(RunWrites(rows, tenants, writes[..|writes| - 1]), tenants, writes[|writes| - 1])
  }

  /** A row id never names two different messages. */
  ghost predicate IdsNameMessages(messages: set<Message>) {
    forall m, m' :: m in messages && m' in messages && m.id == m'.id ==> KeyOf(m) == KeyOf(m')
  }

  ghost function AllMessages(rows: seq<Message>, writes: seq<seq<Message>>): set<Message> {
    (set r | r in rows) + (set w, m | w in writes && m in w :: m)
  }

  /** The foreign key holds for every row of the write. */
  ghost predicate Owned(write: seq<Message>, tenants: set<string>) {
    forall m :: m in write ==> m.tenant in tenants
  }

  ghost predicate Writes(writes: seq<seq<Message>>, tenants: set<string>, k: Key) {
    exists w :: w in writes && Owned(w, tenants) && HasKey(w, k)
  }

  /** Every stored row has the id and key of one of the given messages. */
  ghost predicate DrawnFrom(rows: seq<Message>, messages: set<Message>) {
    forall r :: r in rows ==> exists m :: m in messages && m.id == r.id && KeyOf(m) == KeyOf(r)
  }

  lemma {:induction false} OwnedWriteCommits(
      rows: seq<Message>, tenants: set<string>, write: seq<Message>, all: set<Message>)
    requires ValidRows(rows, tenants) && DrawnFrom(rows, all) && IdsNameMessages(all)
    requires forall m :: m in write ==> m in all
    ensures InsertAll(rows, tenants, write).Some? <==> Owned(write, tenants)
    ensures InsertAll(rows, tenants, write).Some? ==> DrawnFrom(InsertAll(rows, tenants, write).value, all)
  {
    if write != [] {
      var init, m := write[..|write| - 1], write[|write| - 1];
      assert write == init + [m];
      assert m in write && forall e :: e in init ==> e in write;
      OwnedWriteCommits(rows, tenants, init, all);
      if InsertAll(rows, tenants, init).Some? {
        BatchKeepsTheTable(rows, tenants, init);
        OwnedRowInserts(InsertAll(rows, tenants, init).value, tenants, m, all);
      }
    }
  }

  lemma OwnedRowInserts(rows: seq<Message>, tenants: set<string>, m: Message, all: set<Message>)
    requires ValidRows(rows, tenants) && DrawnFrom(rows, all) && IdsNameMessages(all)
    requires m in all
    ensures InsertOutcome(rows, tenants, m).Rejected? <==> m.tenant !in tenants
    ensures DrawnFrom(InsertRow(rows, tenants, m), all)
  {
    if HasKey(rows, KeyOf(m)) {
      var r :| r in rows && KeyOf(r) == KeyOf(m);
      assert r.tenant in tenants;
    }
    forall r | r in rows && r.id == m.id ensures KeyOf(r) == KeyOf(m) {
      var source :| source in all && source.id == r.id && KeyOf(source) == KeyOf(r);
    }
    forall r | r in InsertRow(rows, tenants, m)
      ensures exists s :: s in all && s.id == r.id && KeyOf(s) == KeyOf(r) {
      assert r in rows || (m in all && m.id == r.id && KeyOf(m) == KeyOf(r));
    }
  }

  lemma {:induction false} KeysOfARun(
      rows: seq<Message>, tenants: set<string>, writes: seq<seq<Message>>, all: set<Message>)
    requires ValidRows(rows, tenants) && DrawnFrom(rows, all) && IdsNameMessages(all)
    requires forall w, m :: w in writes && m in w ==> m in all
    ensures ValidRows(RunWrites(rows, tenants, writes), tenants)
    ensures DrawnFrom(RunWrites(rows, tenants, writes), all)
    ensures forall k :: HasKey(RunWrites(rows, tenants, writes), k) <==> HasKey(rows, k) || Writes(writes, tenants, k)
  {
    if writes != [] {
      var init, last := writes[..|writes| - 1], writes[|writes| - 1];
      assert writes == init + [last] && last in writes;
      KeysOfARun(rows, tenants, init, all);
      var sofar := RunWrites(rows, tenants, init);
      OwnedWriteCommits(sofar, tenants, last, all);
      if Owned(last, tenants) {
        BatchKeepsTheTable(sofar, tenants, last);
      }
      forall k ensures Writes(writes, tenants, k) <==>
                       Writes(init, tenants, k) || (Owned(last, tenants) && HasKey(last, k)) {
        LastWrite(init, last, writes, tenants, k);
      }
    }
  }

  lemma LastWrite(init: seq<seq<Message>>, last: seq<Message>, writes: seq<seq<Message>>, tenants: set<string>, k: Key)
    requires writes == init + [last]
    ensures Writes(writes, tenants, k) <==>
            Writes(init, tenants, k) || (Owned(last, tenants) && HasKey(last, k))
  {
    assert last in writes;
    if Writes(writes, tenants, k) {
      var w :| w in writes && Owned(w, tenants) && HasKey(w, k);
      assert w in init || w == last;
    }
    if Writes(init, tenants, k) {
      var w :| w in init && Owned(w, tenants) && HasKey(w, k);
      assert w in writes;
    }
  }

  /** Live and history writes may arrive in any order: the same messages end up stored. */
  lemma AnyOrderStoresTheSameMessages(
      rows: seq<Message>, tenants: set<string>, writes: seq<seq<Message>>, reordered: seq<seq<Message>>)
    requires ValidRows(rows, tenants)
    requires multiset(writes) == multiset(reordered)
    requires IdsNameMessages(AllMessages(rows, writes))
    ensures forall k :: HasKey(RunWrites(rows, tenants, writes), k) <==> HasKey(RunWrites(rows, tenants, reordered), k)
  {
    var all := AllMessages(rows, writes);
    forall w ensures w in writes <==> w in reordered {
      assert w in writes <==> w in multiset(writes);
      assert w in reordered <==> w in multiset(reordered);
    }
    KeysOfARun(rows, tenants, writes, all);
    KeysOfARun(rows, tenants, reordered, all);
    forall k ensures Writes(writes, tenants, k) <==> Writes(reordered, tenants, k) {
      if Writes(writes, tenants, k) {
        var w :| w in writes && Owned(w, tenants) && HasKey(w, k);
        assert w in reordered;
      }
      if Writes(reordered, tenants, k) {
        var w :| w in reordered && Owned(w, tenants) && HasKey(w, k);
        assert w in writes;
      }
    }
  }
}
