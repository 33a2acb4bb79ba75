/**
 One fetch of an attachment, from the row that refers to it to a file on disk.
 The downloader, the disk and the database may each fail; their answers are
 inputs. A fetch here runs from start to end; `Overlaps` takes it apart.
 */
module Media {
  import opened Text
  import opened Messages
  import opened Repository
  import opened MediaPath

  /** MEDIA_MAX_BYTES, MEDIA_FETCH_TYPES, and where an attachment goes, by tenant, id and mime type. */
  datatype Config = Config(
    maxBytes: int, allowed: set<string>, place: (string, string, string) -> Option<string>)

  /** The gateway's own rule: under MEDIA_DIR and the tenant, named by the hash of the id. */
  function GatewayConfig(root: string, maxBytes: int, allowed: set<string>, hash: string -> string): Config {
    Config(maxBytes, allowed, (tenant, id, mime) => MediaPathFor(root, tenant, id, hash(id), mime))
  }

  datatype Download = Bytes(size: nat) | Expired(cause: string) | Broken(cause: string)

  /** What one attempt runs into. A write that fails may leave a file of `left` bytes behind. */
  datatype Attempt = Attempt(
    paired: bool, download: Download, writes: bool, left: Option<nat>, cause: string, records: bool, now: int)

  predicate Plausible(a: Attempt) {
    a.download.Bytes? && a.left.Some? ==> a.left.value <= a.download.size
  }

  datatype Outcome =
    | UnknownMessage | NoMedia | MediaUnavailable | TypeNotAllowed | TooLarge | UnsafePath | NotPaired
    | DownloadFailed | RecordFailed
    | Served(path: string, size: nat)
    | Stored(path: string, size: nat)

  /** The messages table and the sizes of the files on disk. */
  datatype World = World(rows: seq<Message>, disk: map<string, nat>)

  function OrEmpty(s: Option<string>): string { if s.Some? then s.value else "" }

  predicate HasReference(m: Message) { OrEmpty(m.reference.directPath) != "" }

  predicate OnDisk(m: Message, disk: map<string, nat>) {
    OrEmpty(m.fetch.path) != "" && OrEmpty(m.fetch.path) in disk
  }

  function TargetPath(c: Config, tenant: string, m: Message): Option<string> {
    c.place(tenant, m.id, OrEmpty(m.reference.mimeType))
  }

  /** The refusals that come before the network; `None` lets the fetch go on to download. */
  function Refusal(c: Config, disk: map<string, nat>, tenant: string, m: Message, paired: bool): Option<Outcome> {
    if !HasReference(m) then Some(NoMedia)
    else if m.fetch.status == Some(Unavailable) then Some(MediaUnavailable)
    else if OnDisk(m, disk) then Some(Served(OrEmpty(m.fetch.path), disk[OrEmpty(m.fetch.path)]))
    else if Lower(OrEmpty(m.reference.mediaType)) !in c.allowed then Some(TypeNotAllowed)
    else if m.reference.fileLength.Some? && m.reference.fileLength.value > c.maxBytes then Some(TooLarge)
    else if TargetPath(c, tenant, m).None? then Some(UnsafePath)
    else if !paired then Some(NotPaired)
    else None
  }

  /** UpdateMedia takes effect: the database answers, and the row has an id to address it by. */
  predicate Records(m: Message, a: Attempt) { a.records && m.id != "" }

  function Record(rows: seq<Message>, tenant: string, m: Message, upd: MediaUpdate, a: Attempt): seq<Message> {
    if Records(m, a) then UpdateRows(rows, tenant, m.id, upd, a.now) else rows
  }

  function FailureUpdate(status: MediaStatus, cause: string, now: int): MediaUpdate {
    MediaUpdate(None, status, cause, now)
  }

  datatype Fetched = Fetched(world: World, outcome: Outcome)

  /** What a fetch does once nothing refused it. */
  function Downloaded(c: Config, w: World, tenant: string, m: Message, path: string, a: Attempt): Fetched {
    match a.download
    case Expired(cause) =>
      Fetched(w.(rows := Record(w.rows, tenant, m, FailureUpdate(Unavailable, cause, a.now), a)), MediaUnavailable)
    case Broken(cause) =>
      Fetched(w.(rows := Record(w.rows, tenant, m, FailureUpdate(Failed, cause, a.now), a)), DownloadFailed)
    case Bytes(size) =>
      if size > c.maxBytes then Fetched(w, TooLarge)
      else if !a.writes then
        Fetched(World(Record(w.rows, tenant, m, FailureUpdate(Failed, a.cause, a.now), a),
                      if a.left.Some? then w.disk[path := a.left.value] else w.disk), DownloadFailed)
      else if !Records(m, a) then Fetched(w.(disk := w.disk[path := size]), RecordFailed)
      else Fetched(World(Record(w.rows, tenant, m, MediaUpdate(Some(path), Available, "", a.now), a),
                         w.disk[path := size]), Stored(path, size))
  }

  function Fetch(c: Config, w: World, tenant: string, id: string, a: Attempt): Fetched {
    match Lookup(w.rows, tenant, id)
    case None => Fetched(w, UnknownMessage)
    case Some(m) =>
      match Refusal(c, w.disk, tenant, m, a.paired)
      case Some(outcome) => Fetched(w, outcome)
      case None => Downloaded(c, w, tenant, m, TargetPath(c, tenant, m).value, a)
  }

  /** The fetch reaches the network. */
  predicate Downloads(c: Config, w: World, tenant: string, id: string, a: Attempt) {
    Lookup(w.rows, tenant, id).Some? && Refusal(c, w.disk, tenant, Lookup(w.rows, tenant, id).value, a.paired).None?
  }

  // ----------------------------------------------------------------- the fetcher

  class MediaFetcher {
    const config: Config
    const db: Database
    var disk: map<string, nat>

    constructor (config: Config, db: Database)
      ensures this.config == config && this.db == db && disk == map[]
    {
      this.config, this.db, disk := config, db, map[];
    }

    function View(): World reads this, db`rows { World(db.rows, disk) }

    /** One request for a message's attachment, from the lookup to the outcome. */
    method FetchMedia(tenant: string, id: string, a: Attempt) returns (outcome: Outcome)
      requires db.Valid()
      modifies this`disk, db`rows
      ensures db.Valid()
      ensures Fetched(View(), outcome) == Fetch(config, old(View()), tenant, id, a)
    {
      var found := db.GetByID(tenant, id);
      if found.None? { return UnknownMessage; }
      LookupMember(db.rows, tenant, id);
      var m := found.value;
      var refusal := Refusal(config, disk, tenant, m, a.paired);
      if refusal.Some? { return refusal.value; }
      outcome := DownloadAndRecord(tenant, m, TargetPath(config, tenant, m).value, a);
    }

    /** The network, then the disk, then the row: in that order, and each may fail. */
    method DownloadAndRecord(tenant: string, m: Message, path: string, a: Attempt) returns (outcome: Outcome)
      requires db.Valid() && tenant != "" && m in db.rows && m.tenant == tenant
      modifies this`disk, db`rows
      ensures db.Valid()
      ensures Fetched(View(), outcome) == Downloaded(config, old(View()), tenant, m, path, a)
    {
      match a.download {
        case Expired(cause) =>
          var _ := RecordOutcome(tenant, m, FailureUpdate(Unavailable, cause, a.now), a);
          return MediaUnavailable;
        case Broken(cause) =>
          var _ := RecordOutcome(tenant, m, FailureUpdate(Failed, cause, a.now), a);
          return DownloadFailed;
        case Bytes(size) =>
          if size > config.maxBytes { return TooLarge; }
          if !a.writes {
            if a.left.Some? { disk := disk[path := a.left.value]; }
            var _ := RecordOutcome(tenant, m, FailureUpdate(Failed, a.cause, a.now), a);
            return DownloadFailed;
          }
          disk := disk[path := size];
          var err := RecordOutcome(tenant, m, MediaUpdate(Some(path), Available, "", a.now), a);
          if err.Some? { return RecordFailed; }
          return Outcome.Stored(path, size);
      }
    }

    /** UpdateMedia on the looked-up row; a database that fails leaves the row alone. */
    method RecordOutcome(tenant: string, m: Message, upd: MediaUpdate, a: Attempt) returns (err: Option<StoreError>)
      requires db.Valid() && tenant != "" && m in db.rows && m.tenant == tenant
      modifies db`rows
      ensures db.Valid() && db.rows == Record(old(db.rows), tenant, m, upd, a)
      ensures err.None? <==> Records(m, a)
    {
      err := Some(Constraint);
      if a.records {
        err := db.UpdateMedia(tenant, m.id, upd, a.now);
      }
    }
  }
}
