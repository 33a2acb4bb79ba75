/**
 What holds over every sequential run of fetches, whatever the network, the disk
 and the database answer, while messages arrive and files are deleted.
 */
module MediaRuns {
  import opened Text
  import opened Sorting
  import opened Messages
  import opened Repository
  import opened MediaPath
  import opened Media

  datatype Event =
    | Fetching(tenant: string, id: string, attempt: Attempt)
    | Deleting(path: string)
    | Arriving(message: Message, tenants: set<string>)

  function Step(c: Config, w: World, e: Event): World {
    match e
    case Fetching(tenant, id, a) => Fetch(c, w, tenant, id, a).world
    case Deleting(path) => w.(disk := w.disk - {path})
    case Arriving(m, tenants) => w.(rows := InsertRow(w.rows, tenants, m))
  }

  function RunMedia(c: Config, w: World, events: seq<Event>): World
    decreases |events|
  {
    if events == [] then w else RunMedia(c, Step(c, w, events[0]), events[1..])
  }

  // ------------------------------------------------------------- one step at a time

  /** Nothing but the bookkeeping of the last fetch differs. */
  predicate SameMessage(m: Message, m': Message) { m' == m.(fetch := m'.fetch) }

  /** The table only grows, and a stored row only ever moves its bookkeeping columns. */
  ghost predicate Grows(rows: seq<Message>, rows': seq<Message>) {
    && |rows| <= |rows'|
    && forall i :: 0 <= i < |rows| ==> SameMessage(rows[i], rows'[i])
  }

  /** The row a fetch would work on. */
  predicate Targets(w: World, tenant: string, id: string, i: nat) {
    i < |w.rows| && Lookup(w.rows, tenant, id) == Some(w.rows[i])
  }

  predicate Reaches(c: Config, w: World, e: Event, i: nat) {
    e.Fetching? && Targets(w, e.tenant, e.id, i) && Downloads(c, w, e.tenant, e.id, e.attempt)
  }

  /** A successful download: the bytes are on disk and the row says so. */
  predicate Succeeds(c: Config, w: World, e: Event, i: nat) {
    e.Fetching? && Targets(w, e.tenant, e.id, i) && Fetch(c, w, e.tenant, e.id, e.attempt).outcome.Stored?
  }

  /** A place always has a name. */
  ghost predicate NamesFiles(c: Config) {
    forall tenant, id, mime :: c.place(tenant, id, mime) != Some("")
  }

  function Target(c: Config, m: Message): Option<string> { TargetPath(c, m.tenant, m) }

  lemma LookupIndex(rows: seq<Message>, tenant: string, id: string) returns (i: nat)
    requires Lookup(rows, tenant, id).Some?
    ensures i < |rows| && Lookup(rows, tenant, id) == Some(rows[i]) && rows[i].tenant == tenant
  {
    LookupMember(rows, tenant, id);
    i :| 0 <= i < |rows| && rows[i] == Lookup(rows, tenant, id).value;
  }

  lemma RecordMovesOneRow(rows: seq<Message>, tenant: string, k: nat, upd: MediaUpdate, a: Attempt, i: nat)
    requires KeyedById(rows) && k < |rows| && i < |rows|
    ensures var after := Record(rows, tenant, rows[k], upd, a);
            |after| == |rows| && SameMessage(rows[i], after[i]) && (i != k ==> after[i] == rows[i])
  {
    assert i < k || k < i || i == k;
  }

  lemma DownloadMovesOneRow(c: Config, w: World, tenant: string, k: nat, path: string, a: Attempt, i: nat)
    requires KeyedById(w.rows) && k < |w.rows| && i < |w.rows|
    ensures var rows' := Downloaded(c, w, tenant, w.rows[k], path, a).world.rows;
            |rows'| == |w.rows| && SameMessage(w.rows[i], rows'[i]) && (i != k ==> rows'[i] == w.rows[i])
  {
    forall upd {:trigger Record(w.rows, tenant, w.rows[k], upd, a)}
      ensures var after := Record(w.rows, tenant, w.rows[k], upd, a);
              |after| == |w.rows| && SameMessage(w.rows[i], after[i]) && (i != k ==> after[i] == w.rows[i]) {
      RecordMovesOneRow(w.rows, tenant, k, upd, a, i);
    }
  }

  /** Exactly one row can move, and only when the fetch reached the network. */
  lemma FetchMovesOneRow(c: Config, w: World, tenant: string, id: string, a: Attempt, i: nat)
    requires KeyedById(w.rows) && i < |w.rows|
    ensures var w' := Fetch(c, w, tenant, id, a).world;
            && |w'.rows| == |w.rows|
            && SameMessage(w.rows[i], w'.rows[i])
            && (w'.rows[i] != w.rows[i] ==> Reaches(c, w, Fetching(tenant, id, a), i))
  {
    if Downloads(c, w, tenant, id, a) {
      var k := LookupIndex(w.rows, tenant, id);
      DownloadMovesOneRow(c, w, tenant, k, TargetPath(c, tenant, w.rows[k]).value, a, i);
    }
  }

  lemma StepGrows(c: Config, w: World, e: Event)
    requires KeyedById(w.rows)
    ensures Grows(w.rows, Step(c, w, e).rows) && KeyedById(Step(c, w, e).rows)
  {
    match e
    case Fetching(tenant, id, a) =>
      forall i | 0 <= i < |w.rows| ensures SameMessage(w.rows[i], Step(c, w, e).rows[i]) {
        FetchMovesOneRow(c, w, tenant, id, a, i);
      }
      if |w.rows| > 0 { FetchMovesOneRow(c, w, tenant, id, a, 0); }
    case Deleting(_) =>
    case Arriving(m, tenants) =>
      forall i | 0 <= i < |w.rows| && InsertOutcome(w.rows, tenants, m).Inserted? ensures w.rows[i].id != m.id {
        assert w.rows[i] in w.rows;
      }
  }

  /** Only the bookkeeping columns of stored messages ever move. */
  lemma {:induction false} OnlyBookkeepingMoves(c: Config, w: World, events: seq<Event>)
    requires KeyedById(w.rows)
    ensures Grows(w.rows, RunMedia(c, w, events).rows) && KeyedById(RunMedia(c, w, events).rows)
    decreases |events|
  {
    if events != [] {
      var w' := Step(c, w, events[0]);
      StepGrows(c, w, events[0]);
      OnlyBookkeepingMoves(c, w', events[1..]);
      var after := RunMedia(c, w', events[1..]);
      forall i | 0 <= i < |w.rows| ensures SameMessage(w.rows[i], after.rows[i]) {
        assert SameMessage(w.rows[i], w'.rows[i]) && SameMessage(w'.rows[i], after.rows[i]);
      }
    }
  }

  // ----------------------------------------------------------- "unavailable" is final

  /** Once recorded, "unavailable" stays, with the rest of the row, and no fetch of that
      message reaches the network again. */
  lemma {:induction false} UnavailableIsPermanent(
      c: Config, w: World, i: nat, events: seq<Event>, tenant: string, id: string, a: Attempt)
    requires KeyedById(w.rows) && i < |w.rows| && w.rows[i].fetch.status == Some(Unavailable)
    ensures var after := RunMedia(c, w, events);
            && i < |after.rows| && after.rows[i] == w.rows[i]
            && (Targets(after, tenant, id, i) ==>
                  !Downloads(c, after, tenant, id, a)
                  && Fetch(c, after, tenant, id, a) ==
                     Fetched(after, if HasReference(w.rows[i]) then MediaUnavailable else NoMedia))
    decreases |events|
  {
    if events != [] {
      var e := events[0];
      var w' := Step(c, w, e);
      StepGrows(c, w, e);
      if e.Fetching? {
        FetchMovesOneRow(c, w, e.tenant, e.id, e.attempt, i);
      }
      assert w'.rows[i] == w.rows[i];
      UnavailableIsPermanent(c, w', i, events[1..], tenant, id, a);
    }
  }

  // ------------------------------------------------- what the disk and the rows agree on

  /** "available" names the message's own place under the media directory. */
  ghost predicate PathsRecorded(c: Config, rows: seq<Message>) {
    forall i :: 0 <= i < |rows| ==> PathRecorded(c, rows[i])
  }

  predicate PathRecorded(c: Config, m: Message) {
    m.fetch.status == Some(Available) ==> m.fetch.path.Some? && m.fetch.path == Target(c, m)
  }

  /** Every file belongs to a stored message and is within the limit. */
  ghost predicate FilesAccounted(c: Config, w: World) {
    forall p :: p in w.disk ==> w.disk[p] <= c.maxBytes && Claimed(c, w.rows, p)
  }

  ghost predicate Claimed(c: Config, rows: seq<Message>, p: string) {
    exists i :: 0 <= i < |rows| && Target(c, rows[i]) == Some(p)
  }

  ghost predicate AllPlausible(events: seq<Event>) {
    forall e :: e in events && e.Fetching? ==> Plausible(e.attempt)
  }

  lemma StepRecordsPaths(c: Config, w: World, e: Event)
    requires KeyedById(w.rows) && PathsRecorded(c, w.rows)
    ensures PathsRecorded(c, Step(c, w, e).rows)
  {
    var w' := Step(c, w, e);
    forall i | 0 <= i < |w'.rows| ensures PathRecorded(c, w'.rows[i]) {
      if e.Fetching? {
        FetchMovesOneRow(c, w, e.tenant, e.id, e.attempt, if i < |w.rows| then i else 0);
        assert PathRecorded(c, w.rows[i]);
        if w'.rows[i] != w.rows[i] {
          LookupMember(w.rows, e.tenant, e.id);
          MovedRowRecordsPath(c, w, e.tenant, e.attempt, w.rows[i]);
        }
      } else if i < |w.rows| {
        assert PathRecorded(c, w.rows[i]);
      }
    }
  }

  lemma MovedRowRecordsPath(c: Config, w: World, tenant: string, a: Attempt, m: Message)
    requires m in w.rows && m.tenant == tenant && Target(c, m).Some?
    ensures forall i :: 0 <= i < |w.rows| && w.rows[i] == m ==>
              var after := Downloaded(c, w, tenant, m, Target(c, m).value, a).world.rows;
              |after| == |w.rows| && (after[i] != m ==> PathRecorded(c, after[i]))
  {
  }

  lemma ClaimedLater(c: Config, rows: seq<Message>, rows': seq<Message>, p: string)
    requires Grows(rows, rows') && Claimed(c, rows, p)
    ensures Claimed(c, rows', p)
  {
    var i :| 0 <= i < |rows| && Target(c, rows[i]) == Some(p);
    assert SameMessage(rows[i], rows'[i]);
    assert Target(c, rows'[i]) == Some(p);
  }

  lemma StepAccountsForFiles(c: Config, w: World, e: Event)
    requires KeyedById(w.rows) && FilesAccounted(c, w) && AllPlausible([e])
    ensures FilesAccounted(c, Step(c, w, e))
  {
    var w' := Step(c, w, e);
    StepGrows(c, w, e);
    forall p | p in w'.disk ensures w'.disk[p] <= c.maxBytes && Claimed(c, w'.rows, p) {
      if p in w.disk && w.disk[p] == w'.disk[p] {
        ClaimedLater(c, w.rows, w'.rows, p);
      } else {
        assert e in [e] && e.Fetching?;
        NewFileIsOwn(c, w, e.tenant, e.id, e.attempt, p);
        ClaimedLater(c, w.rows, w'.rows, p);
      }
    }
  }

  lemma NewFileIsOwn(c: Config, w: World, tenant: string, id: string, a: Attempt, p: string)
    requires Plausible(a)
    requires var w' := Fetch(c, w, tenant, id, a).world; p in w'.disk && (p in w.disk ==> w.disk[p] != w'.disk[p])
    ensures Fetch(c, w, tenant, id, a).world.disk[p] <= c.maxBytes && Claimed(c, w.rows, p)
  {
    assert Downloads(c, w, tenant, id, a);
    var i := LookupIndex(w.rows, tenant, id);
    assert Target(c, w.rows[i]) == Some(p);
  }

  /** Both hold of a table never fetched from and an empty disk, and every run keeps them:
      "available" names the message's own path, and every file on disk is a stored message's,
      no longer than the limit. */
  lemma {:induction false} DiskAndRowsAgree(c: Config, w: World, events: seq<Event>)
    requires KeyedById(w.rows) && AllPlausible(events)
    requires PathsRecorded(c, w.rows) && FilesAccounted(c, w)
    ensures PathsRecorded(c, RunMedia(c, w, events).rows) && FilesAccounted(c, RunMedia(c, w, events))
    decreases |events|
  {
    if events != [] {
      var e := events[0];
      assert e in events;
      StepGrows(c, w, e);
      StepRecordsPaths(c, w, e);
      StepAccountsForFiles(c, w, e);
      DiskAndRowsAgree(c, Step(c, w, e), events[1..]);
    }
  }

  // ------------------------------------------------------ how often a message downloads

  /** Successful downloads of row `i` over a run. */
  function Successes(c: Config, w: World, events: seq<Event>, i: nat): nat
    decreases |events|
  {
    if events == [] then 0
    else (if Succeeds(c, w, events[0], i) then 1 else 0) + Successes(c, Step(c, w, events[0]), events[1..], i)
  }

  function Deletions(events: seq<Event>, path: Option<string>): nat {
    if events == [] then 0
    else (if events[0].Deleting? && Some(events[0].path) == path then 1 else 0) + Deletions(events[1..], path)
  }

  /** The row records its own path, and the file is there. */
  predicate Settled(c: Config, w: World, i: nat) {
    i < |w.rows| && w.rows[i].fetch.path == Target(c, w.rows[i]) && OnDisk(w.rows[i], w.disk)
  }

  /** A settled row stays as it is until somebody deletes its file. */
  lemma SettledStep(c: Config, w: World, e: Event, i: nat)
    requires NamesFiles(c) && KeyedById(w.rows) && i < |w.rows|
    ensures var w' := Step(c, w, e);
            && i < |w'.rows| && Target(c, w'.rows[i]) == Target(c, w.rows[i])
            && (Settled(c, w, i) && !(e.Deleting? && Some(e.path) == Target(c, w.rows[i])) ==> Settled(c, w', i))
            && (Succeeds(c, w, e, i) ==> Settled(c, w', i) && !Settled(c, w, i))
  {
    var w' := Step(c, w, e);
    StepGrows(c, w, e);
    assert SameMessage(w.rows[i], w'.rows[i]);
    if e.Fetching? {
      FetchMovesOneRow(c, w, e.tenant, e.id, e.attempt, i);
      if Succeeds(c, w, e, i) {
        LookupMember(w.rows, e.tenant, e.id);
      }
    }
  }

  /** A message is downloaded successfully at most once, plus once for every time its file was
      deleted; once it is settled only a deletion can bring another download. */
  lemma {:induction false} DownloadedOncePerDeletion(c: Config, w: World, events: seq<Event>, i: nat)
    requires NamesFiles(c) && KeyedById(w.rows) && i < |w.rows|
    ensures Successes(c, w, events, i) <=
            Deletions(events, Target(c, w.rows[i])) + if Settled(c, w, i) then 0 else 1
    decreases |events|
  {
    if events != [] {
      var w' := Step(c, w, events[0]);
      SettledStep(c, w, events[0], i);
      StepGrows(c, w, events[0]);
      DownloadedOncePerDeletion(c, w', events[1..], i);
    }
  }

  /** No two stored messages share a place. */
  ghost predicate Apart(c: Config, rows: seq<Message>) {
    forall i, j :: 0 <= i < j < |rows| && Target(c, rows[i]).Some? ==> Target(c, rows[i]) != Target(c, rows[j])
  }

  /** A settled row and its file stay as they are while other messages are fetched. */
  lemma {:induction false} SettledIsServed(
      c: Config, w: World, i: nat, events: seq<Event>, tenant: string, id: string, a: Attempt)
    requires NamesFiles(c) && KeyedById(w.rows) && i < |w.rows| && Settled(c, w, i)
    requires w.rows[i].fetch.status != Some(Unavailable) && HasReference(w.rows[i])
    requires Deletions(events, Target(c, w.rows[i])) == 0
    requires Apart(c, RunMedia(c, w, events).rows)
    ensures var after, path := RunMedia(c, w, events), Target(c, w.rows[i]).value;
            && Settled(c, after, i) && after.rows[i] == w.rows[i]
            && (Targets(after, tenant, id, i) ==>
                  Fetch(c, after, tenant, id, a) == Fetched(after, Served(path, w.disk[path])))
    decreases |events|
  {
    if events != [] {
      var e := events[0];
      var w' := Step(c, w, e);
      SettledStep(c, w, e, i);
      StepGrows(c, w, e);
      OnlyBookkeepingMoves(c, w', events[1..]);
      EarlierApart(c, w'.rows, RunMedia(c, w', events[1..]).rows);
      SettledFileStays(c, w, e, i);
      SettledIsServed(c, w', i, events[1..], tenant, id, a);
    }
  }

  /** What was downloaded is what every later fetch is served, same path and same size, as long
      as nobody deletes the file and whatever other messages are fetched meanwhile. */
  lemma StoredIsServed(
      c: Config, w: World, e: Event, i: nat, events: seq<Event>, tenant: string, id: string, a: Attempt)
    requires NamesFiles(c) && KeyedById(w.rows) && Succeeds(c, w, e, i)
    requires Deletions(events, Target(c, w.rows[i])) == 0
    requires Apart(c, RunMedia(c, Step(c, w, e), events).rows)
    requires Targets(RunMedia(c, Step(c, w, e), events), tenant, id, i)
    ensures var stored := Fetch(c, w, e.tenant, e.id, e.attempt).outcome;
            Fetch(c, RunMedia(c, Step(c, w, e), events), tenant, id, a).outcome == Served(stored.path, stored.size)
  {
    LookupMember(w.rows, e.tenant, e.id);
    SettledStep(c, w, e, i);
    StepGrows(c, w, e);
    FetchMovesOneRow(c, w, e.tenant, e.id, e.attempt, i);
    SettledIsServed(c, Step(c, w, e), i, events, tenant, id, a);
  }

  lemma EarlierApart(c: Config, rows: seq<Message>, rows': seq<Message>)
    requires Grows(rows, rows') && Apart(c, rows')
    ensures Apart(c, rows)
  {
    forall i, j | 0 <= i < j < |rows| && Target(c, rows[i]).Some? ensures Target(c, rows[i]) != Target(c, rows[j]) {
      assert SameMessage(rows[i], rows'[i]) && SameMessage(rows[j], rows'[j]);
    }
  }

  lemma SettledFileStays(c: Config, w: World, e: Event, i: nat)
    requires NamesFiles(c) && KeyedById(w.rows) && i < |w.rows| && Settled(c, w, i)
    requires !(e.Deleting? && Some(e.path) == Target(c, w.rows[i]))
    requires Apart(c, Step(c, w, e).rows)
    ensures var w', path := Step(c, w, e), Target(c, w.rows[i]).value;
            && i < |w'.rows| && w'.rows[i] == w.rows[i]
            && path in w'.disk && w'.disk[path] == w.disk[path]
  {
    var w' := Step(c, w, e);
    if e.Fetching? {
      FetchMovesOneRow(c, w, e.tenant, e.id, e.attempt, i);
      if Downloads(c, w, e.tenant, e.id, e.attempt) {
        var k := LookupIndex(w.rows, e.tenant, e.id);
        StepGrows(c, w, e);
        EarlierApart(c, w.rows, w'.rows);
        assert k < i || i < k;
      }
    }
  }

  // ---------------------------------------------------------- when it downloads again

  /** The download left something at the path the row records. */
  predicate LeavesItsFile(c: Config, m: Message, path: string, a: Attempt) {
    && a.download.Bytes? && a.download.size <= c.maxBytes
    && ((a.writes && (Records(m, a) || m.fetch.path == Some(path)))
        || (!a.writes && a.left.Some? && m.fetch.path == Some(path)))
  }

  /** Exactly when a message that was just downloaded is downloaded again: unless WhatsApp's
      refusal was recorded, or a file now lies where the row points. A result over the limit is
      neither recorded nor kept, so it is downloaded again every time. */
  lemma DownloadsAgain(c: Config, w: World, tenant: string, id: string, a: Attempt, again: Attempt, i: nat)
    requires NamesFiles(c) && KeyedById(w.rows) && Targets(w, tenant, id, i)
    requires Downloads(c, w, tenant, id, a) && again.paired
    ensures var m, after := w.rows[i], Fetch(c, w, tenant, id, a).world;
            Downloads(c, after, tenant, id, again) <==>
              !(a.download.Expired? && Records(m, a)) && !LeavesItsFile(c, m, TargetPath(c, tenant, m).value, a)
  {
    var after := Fetch(c, w, tenant, id, a).world;
    LookupMember(w.rows, tenant, id);
    FetchMovesOneRow(c, w, tenant, id, a, i);
    StepGrows(c, w, Fetching(tenant, id, a));
    LookupFollows(w.rows, after.rows, tenant, id, i);
  }

  /** What the write left at the path, when the row points there or is made to. */
  predicate KeepsItWhole(c: Config, m: Message, path: string, a: Attempt)
    requires a.download.Bytes?
  {
    && a.download.size <= c.maxBytes
    && if a.writes then Records(m, a) || m.fetch.path == Some(path)
       else a.left == Some(a.download.size) && m.fetch.path == Some(path)
  }

  /** The next fetch serves the downloaded bytes whole if and only if they were within the limit,
      the write put all of them on disk, and the row points there: because it was just recorded, or
      because it did before. */
  lemma ServedWholeExactly(c: Config, w: World, tenant: string, id: string, a: Attempt, again: Attempt, i: nat)
    requires NamesFiles(c) && KeyedById(w.rows) && Targets(w, tenant, id, i)
    requires Downloads(c, w, tenant, id, a) && a.download.Bytes?
    ensures var m, first := w.rows[i], Fetch(c, w, tenant, id, a);
            var path := TargetPath(c, tenant, m).value;
            Fetch(c, first.world, tenant, id, again).outcome == Served(path, a.download.size) <==> KeepsItWhole(c, m, path, a)
  {
    var after := Fetch(c, w, tenant, id, a).world;
    LookupMember(w.rows, tenant, id);
    FetchMovesOneRow(c, w, tenant, id, a, i);
    StepGrows(c, w, Fetching(tenant, id, a));
    LookupFollows(w.rows, after.rows, tenant, id, i);
  }

  /** A deleted file whose rewrite fails half way is served, cut short, from then on. */
  lemma CutShortFileIsServed(c: Config, w: World, tenant: string, id: string, a: Attempt, again: Attempt, i: nat)
    requires NamesFiles(c) && KeyedById(w.rows) && Targets(w, tenant, id, i)
    requires Downloads(c, w, tenant, id, a) && w.rows[i].fetch.path == TargetPath(c, tenant, w.rows[i])
    requires a.download.Bytes? && a.download.size <= c.maxBytes && !a.writes && a.left.Some?
    ensures var first := Fetch(c, w, tenant, id, a);
            && first.outcome == DownloadFailed
            && Fetch(c, first.world, tenant, id, again) ==
               Fetched(first.world, Served(w.rows[i].fetch.path.value, a.left.value))
  {
    var after := Fetch(c, w, tenant, id, a).world;
    LookupMember(w.rows, tenant, id);
    FetchMovesOneRow(c, w, tenant, id, a, i);
    StepGrows(c, w, Fetching(tenant, id, a));
    LookupFollows(w.rows, after.rows, tenant, id, i);
  }

  // ------------------------------------------------------------ the lookup is stable

  function Unfetched(m: Message): Message { m.(fetch := NEVER_FETCHED) }

  ghost predicate SameUnfetched(rows: seq<Message>, rows': seq<Message>) {
    |rows| == |rows'| && forall k :: 0 <= k < |rows| ==> Unfetched(rows[k]) == Unfetched(rows'[k])
  }

  lemma {:induction false} NewestSame(rows: seq<Message>, rows': seq<Message>)
    requires SameUnfetched(rows, rows')
    ensures Newest(rows).Some? <==> Newest(rows').Some?
    ensures Newest(rows).Some? ==> Unfetched(Newest(rows).value) == Unfetched(Newest(rows').value)
  {
    if rows != [] {
      var n := |rows| - 1;
      NewestSame(rows[..n], rows'[..n]);
    }
  }

  /** The same message is found after its bookkeeping moved. */
  lemma LookupFollows(rows: seq<Message>, rows': seq<Message>, tenant: string, id: string, i: nat)
    requires |rows| == |rows'| && Grows(rows, rows') && KeyedById(rows) && i < |rows|
    requires Lookup(rows, tenant, id) == Some(rows[i])
    ensures Lookup(rows', tenant, id) == Some(rows'[i])
  {
    var wanted := Addressed(tenant, id);
    forall k | 0 <= k < |rows| ensures wanted(rows[k]) == wanted(rows'[k]) && Unfetched(rows[k]) == Unfetched(rows'[k]) {
      assert SameMessage(rows[k], rows'[k]);
    }
    FilterMap(wanted, Unfetched, rows, wanted, Unfetched, rows');
    var hits, hits' := Filter(wanted, rows), Filter(wanted, rows');
    forall k | 0 <= k < |hits| ensures |hits| == |hits'| && Unfetched(hits[k]) == Unfetched(hits'[k]) {
      assert |Map(Unfetched, hits)| == |Map(Unfetched, hits')| && Map(Unfetched, hits)[k] == Map(Unfetched, hits')[k];
    }
    assert |Map(Unfetched, hits)| == |hits| && |Map(Unfetched, hits')| == |hits'|;
    NewestSame(hits, hits');
    var k := LookupIndex(rows', tenant, id);
    assert SameMessage(rows[k], rows'[k]) && rows[k].id == rows[i].id;
    assert i < k || k < i || i == k;
  }

  // -------------------------------------------------------------- the gateway's places

  ghost predicate CollisionFree(hash: string -> string, rows: seq<Message>) {
    forall i, j :: 0 <= i < j < |rows| ==> hash(rows[i].id) != hash(rows[j].id)
  }

  /** Named by a digest that does not collide on their ids, stored messages never share a file,
      and no file is nameless. */
  lemma GatewayPlacesAreApart(
      root: string, maxBytes: int, allowed: set<string>, hash: string -> string, rows: seq<Message>)
    requires forall id :: HexDigest(hash(id))
    ensures NamesFiles(GatewayConfig(root, maxBytes, allowed, hash))
    ensures CollisionFree(hash, rows) ==> Apart(GatewayConfig(root, maxBytes, allowed, hash), rows)
  {
    var c := GatewayConfig(root, maxBytes, allowed, hash);
    forall tenant, id, mime ensures c.place(tenant, id, mime) != Some("") {
      assert HexDigest(hash(id));
      CheckedPathIsInside(root, tenant, id, hash(id), mime);
    }
    if CollisionFree(hash, rows) {
      forall i, j | 0 <= i < j < |rows| && Target(c, rows[i]).Some? ensures Target(c, rows[i]) != Target(c, rows[j]) {
        OtherPlace(root, hash, rows[i], rows[j]);
      }
    }
  }

  lemma OtherPlace(root: string, hash: string -> string, m: Message, m': Message)
    requires HexDigest(hash(m.id)) && HexDigest(hash(m'.id)) && hash(m.id) != hash(m'.id)
    ensures var mime, mime' := OrEmpty(m.reference.mimeType), OrEmpty(m'.reference.mimeType);
            MediaPathFor(root, m.tenant, m.id, hash(m.id), mime).Some? ==>
            MediaPathFor(root, m.tenant, m.id, hash(m.id), mime) !=
            MediaPathFor(root, m'.tenant, m'.id, hash(m'.id), mime')
  {
    var mime, mime' := OrEmpty(m.reference.mimeType), OrEmpty(m'.reference.mimeType);
    if MediaPathFor(root, m.tenant, m.id, hash(m.id), mime).Some?
       && MediaPathFor(root, m'.tenant, m'.id, hash(m'.id), mime').Some? {
      PathsStayDistinct(root, m.tenant, m.id, hash(m.id), mime, m'.tenant, m'.id, hash(m'.id), mime');
    }
  }
}
