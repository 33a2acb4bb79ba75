/**
 Fetches that overlap. The source takes no lock between looking a message up and
 recording what became of its download, so a fetch is three steps here -- look
 up, deal with the file, record -- and those of different callers interleave
 with each other, with deletions and with arriving messages.
 */
module Overlaps {
  import opened Text
  import opened Messages
  import opened Repository
  import opened Media
  import opened MediaRuns

  /** A fetch that nothing refused: the row as it was looked up, the place of its file, and the
      download once its file is dealt with. */
  datatype Begun = Begun(message: Message, path: string, landed: Option<Attempt>)

  datatype State = State(world: World, begun: map<nat, Begun>)

  datatype Action =
    | LookUp(worker: nat, tenant: string, id: string, paired: bool)
    | Land(worker: nat, attempt: Attempt)
    | Note(worker: nat)
    | Delete(path: string)
    | Arrive(message: Message, tenants: set<string>)

  /** Where a fetch leaves the rows and the disk if it goes to its end at once. */
  function Finished(c: Config, w: World, b: Begun, a: Attempt): World {
    Downloaded(c, w, b.message.tenant, b.message, b.path, a).world
  }

  function Act(c: Config, s: State, a: Action): State {
    match a
    case LookUp(worker, tenant, id, paired) =>
      if worker in s.begun || Lookup(s.world.rows, tenant, id).None? then s
      else
        var m := Lookup(s.world.rows, tenant, id).value;
        if Refusal(c, s.world.disk, tenant, m, paired).Some? then s
        else s.(begun := s.begun[worker := Begun(m, TargetPath(c, tenant, m).value, None)])
    case Land(worker, attempt) =>
      if worker !in s.begun || s.begun[worker].landed.Some? then s
      else
        var b := s.begun[worker];
        State(s.world.(disk := Finished(c, s.world, b, attempt).disk), s.begun[worker := b.(landed := Some(attempt))])
    case Note(worker) =>
      if worker !in s.begun || s.begun[worker].landed.None? then s
      else
        var b := s.begun[worker];
        State(s.world.(rows := Finished(c, s.world, b, b.landed.value).rows), s.begun - {worker})
    case Delete(path) => s.(world := Step(c, s.world, Deleting(path)))
    case Arrive(m, tenants) => s.(world := Step(c, s.world, Arriving(m, tenants)))
  }

  function Play(c: Config, s: State, actions: seq<Action>): State
    decreases |actions|
  {
    if actions == [] then s else Play(c, Act(c, s, actions[0]), actions[1..])
  }

  /** Uninterrupted, the three steps are the fetch of `Media`. */
  lemma AloneIsFetch(c: Config, s: State, worker: nat, tenant: string, id: string, a: Attempt)
    requires worker !in s.begun
    ensures Play(c, s, [LookUp(worker, tenant, id, a.paired), Land(worker, a), Note(worker)]) ==
            State(Fetch(c, s.world, tenant, id, a).world, s.begun)
  {
    var first := Act(c, s, LookUp(worker, tenant, id, a.paired));
    var second := Act(c, first, Land(worker, a));
    NextStep(c, s, LookUp(worker, tenant, id, a.paired), [Land(worker, a), Note(worker)]);
    TwoSteps(c, first, Land(worker, a), Note(worker));
    if worker in first.begun {
      LookupMember(s.world.rows, tenant, id);
      assert second.begun - {worker} == s.begun;
    }
  }

  lemma NextStep(c: Config, s: State, a: Action, rest: seq<Action>)
    ensures Play(c, s, [a] + rest) == Play(c, Act(c, s, a), rest)
  {
    assert ([a] + rest)[1..] == rest;
  }

  lemma TwoSteps(c: Config, s: State, a: Action, b: Action)
    ensures Play(c, s, [a, b]) == Act(c, Act(c, s, a), b)
  {
    NextStep(c, s, a, [b]);
    NextStep(c, Act(c, s, a), b, []);
  }

  // ------------------------------------------------------- what a step does to one row

  /** The fetch works on that row. */
  predicate Of(b: Begun, m: Message) { b.message.tenant == m.tenant && b.message.id == m.id }

  /** The status a fetch records when it ends that way; none when nothing is written down. */
  function Verdict(c: Config, b: Begun, a: Attempt): Option<MediaStatus> {
    if !Records(b.message, a) then None
    else
      match a.download
      case Expired(_) => Some(Unavailable)
      case Broken(_) => Some(Failed)
      case Bytes(size) => if size > c.maxBytes then None else Some(if a.writes then Available else Failed)
  }

  lemma FinishedRow(c: Config, w: World, b: Begun, a: Attempt, i: nat)
    requires i < |w.rows|
    ensures var rows' := Finished(c, w, b, a).rows;
            && |rows'| == |w.rows| && SameMessage(w.rows[i], rows'[i])
            && (if Of(b, w.rows[i]) && Verdict(c, b, a).Some? then rows'[i].fetch.status == Verdict(c, b, a)
                else rows'[i] == w.rows[i])
  {
  }

  lemma ActGrows(c: Config, s: State, a: Action)
    requires KeyedById(s.world.rows)
    ensures Grows(s.world.rows, Act(c, s, a).world.rows) && KeyedById(Act(c, s, a).world.rows)
  {
    match a
    case LookUp(_, _, _, _) =>
    case Land(_, _) =>
    case Note(worker) =>
      if worker in s.begun && s.begun[worker].landed.Some? {
        forall i | 0 <= i < |s.world.rows| ensures SameMessage(s.world.rows[i], Act(c, s, a).world.rows[i]) {
          FinishedRow(c, s.world, s.begun[worker], s.begun[worker].landed.value, i);
        }
        if |s.world.rows| > 0 { FinishedRow(c, s.world, s.begun[worker], s.begun[worker].landed.value, 0); }
      }
    case Delete(path) => StepGrows(c, s.world, Deleting(path));
    case Arrive(m, tenants) => StepGrows(c, s.world, Arriving(m, tenants));
  }

  // -------------------------------------------------- when "unavailable" is not the last word

  predicate SaysUnavailable(w: World, i: nat) {
    i < |w.rows| && w.rows[i].fetch.status == Some(Unavailable)
  }

  /** The fetch can still record something else: its download has yet to end, or has ended so. */
  predicate MayDiffer(c: Config, b: Begun) {
    match b.landed
    case None => b.message.id != ""
    case Some(a) => Verdict(c, b, a).Some? && Verdict(c, b, a) != Some(Unavailable)
  }

  /** A fetch of the row that is already under way can overwrite its status. */
  ghost predicate AtRisk(c: Config, s: State, i: nat)
    requires i < |s.world.rows|
  {
    exists worker :: worker in s.begun && Of(s.begun[worker], s.world.rows[i]) && MayDiffer(c, s.begun[worker])
  }

  /** No fetch of the row is under way that could still record something else, and none begins. */
  lemma SafeStep(c: Config, s: State, a: Action, i: nat)
    requires KeyedById(s.world.rows) && SaysUnavailable(s.world, i) && !AtRisk(c, s, i)
    ensures SaysUnavailable(Act(c, s, a).world, i) && !AtRisk(c, Act(c, s, a), i)
  {
    var s' := Act(c, s, a);
    ActGrows(c, s, a);
    assert SameMessage(s.world.rows[i], s'.world.rows[i]);
    if a.Note? && a.worker in s.begun && s.begun[a.worker].landed.Some? {
      FinishedRow(c, s.world, s.begun[a.worker], s.begun[a.worker].landed.value, i);
    }
    forall worker | worker in s'.begun && Of(s'.begun[worker], s'.world.rows[i]) ensures !MayDiffer(c, s'.begun[worker]) {
      if a.LookUp? && worker !in s.begun {
        FreshIsOther(s.world, a.tenant, a.id, i);
      }
    }
  }

  /** What a look-up finds under another status is another row. */
  lemma FreshIsOther(w: World, tenant: string, id: string, i: nat)
    requires KeyedById(w.rows) && i < |w.rows| && Lookup(w.rows, tenant, id).Some?
    requires Lookup(w.rows, tenant, id).value.fetch.status != w.rows[i].fetch.status
    ensures Lookup(w.rows, tenant, id).value.id != w.rows[i].id
  {
    var k := LookupIndex(w.rows, tenant, id);
    assert k < i || i < k;
  }

  lemma {:induction false} SafeRun(c: Config, s: State, actions: seq<Action>, i: nat)
    requires KeyedById(s.world.rows) && SaysUnavailable(s.world, i) && !AtRisk(c, s, i)
    ensures SaysUnavailable(Play(c, s, actions).world, i)
    decreases |actions|
  {
    if actions != [] {
      SafeStep(c, s, actions[0], i);
      ActGrows(c, s, actions[0]);
      SafeRun(c, Act(c, s, actions[0]), actions[1..], i);
    }
  }

  const BROKEN := Attempt(true, Broken("refused"), true, None, "", true, 0)

  /** What the fetch at risk does to lose the status. */
  function Overwriting(worker: nat, b: Begun): seq<Action> {
    if b.landed.None? then [Land(worker, BROKEN), Note(worker)] else [Note(worker)]
  }

  lemma OverwritingLosesIt(c: Config, s: State, worker: nat, i: nat)
    requires i < |s.world.rows| && worker in s.begun && Of(s.begun[worker], s.world.rows[i]) && MayDiffer(c, s.begun[worker])
    ensures !SaysUnavailable(Play(c, s, Overwriting(worker, s.begun[worker])).world, i)
  {
    var b := s.begun[worker];
    if b.landed.None? {
      var landed := Act(c, s, Land(worker, BROKEN));
      assert [Land(worker, BROKEN), Note(worker)][1..] == [Note(worker)];
      NoteLosesIt(c, landed, worker, i);
    } else {
      NoteLosesIt(c, s, worker, i);
    }
  }

  lemma NoteLosesIt(c: Config, s: State, worker: nat, i: nat)
    requires i < |s.world.rows| && worker in s.begun && Of(s.begun[worker], s.world.rows[i])
    requires s.begun[worker].landed.Some? && MayDiffer(c, s.begun[worker])
    ensures !SaysUnavailable(Play(c, s, [Note(worker)]).world, i)
  {
    assert [Note(worker)][1..] == [];
    FinishedRow(c, s.world, s.begun[worker], s.begun[worker].landed.value, i);
  }

  /** A recorded "unavailable" is permanent, in every interleaving, if and only if no fetch of that
      row was under way when it was recorded that can still end in another way. */
  lemma UnavailableIsPermanentExactly(c: Config, s: State, i: nat)
    requires KeyedById(s.world.rows) && SaysUnavailable(s.world, i)
    ensures (forall actions :: SaysUnavailable(Play(c, s, actions).world, i)) <==> !AtRisk(c, s, i)
  {
    if AtRisk(c, s, i) {
      var worker :| worker in s.begun && Of(s.begun[worker], s.world.rows[i]) && MayDiffer(c, s.begun[worker]);
      OverwritingLosesIt(c, s, worker, i);
    } else {
      forall actions ensures SaysUnavailable(Play(c, s, actions).world, i) {
        SafeRun(c, s, actions, i);
      }
    }
  }

  /** A fetch that begins with a row no refusal applies to. */
  lemma Begins(c: Config, s: State, tenant: string, id: string, i: nat, worker: nat)
    requires Targets(s.world, tenant, id, i) && worker !in s.begun
    requires Refusal(c, s.world.disk, tenant, s.world.rows[i], true).None?
    ensures Target(c, s.world.rows[i]).Some?
    ensures var b := Begun(s.world.rows[i], Target(c, s.world.rows[i]).value, None);
            Act(c, s, LookUp(worker, tenant, id, true)) == s.(begun := s.begun[worker := b])
  {
    LookupMember(s.world.rows, tenant, id);
  }

  /** A failed download that is recorded changes the row's status, and neither its path nor the disk. */
  lemma FailureIsNoted(c: Config, s: State, worker: nat, a: Attempt, i: nat)
    requires KeyedById(s.world.rows) && i < |s.world.rows| && a.records && s.world.rows[i].id != ""
    requires worker in s.begun && Of(s.begun[worker], s.world.rows[i]) && s.begun[worker].landed.None?
    requires a.download.Expired? || a.download.Broken?
    ensures var after := Play(c, s, [Land(worker, a), Note(worker)]);
            && after.begun == s.begun - {worker} && after.world.disk == s.world.disk
            && |after.world.rows| == |s.world.rows| && Grows(s.world.rows, after.world.rows)
            && after.world.rows[i].fetch.status == Some(if a.download.Expired? then Unavailable else Failed)
            && after.world.rows[i].fetch.path == s.world.rows[i].fetch.path
  {
    var landed := Act(c, s, Land(worker, a));
    TwoSteps(c, s, Land(worker, a), Note(worker));
    ActGrows(c, landed, Note(worker));
    FinishedRow(c, s.world, landed.begun[worker], a, i);
    assert landed.begun - {worker} == s.begun - {worker};
  }

  /** Two fetches of one message overlap: the first is told that WhatsApp has dropped the file and
      records it, the second fails for another reason and records that -- and the message is
      downloaded again. */
  lemma OverlapForgetsUnavailable(
      c: Config, s: State, tenant: string, id: string, i: nat, gone: Attempt, broken: Attempt, worker: nat, worker': nat, next: nat)
    requires KeyedById(s.world.rows) && Targets(s.world, tenant, id, i) && s.begun == map[]
    requires worker != worker' && s.world.rows[i].id != ""
    requires Refusal(c, s.world.disk, tenant, s.world.rows[i], true).None?
    requires gone.download.Expired? && gone.records && broken.download.Broken? && broken.records
    ensures var both := [LookUp(worker, tenant, id, true), LookUp(worker', tenant, id, true)];
            var told := Play(c, s, both + [Land(worker, gone), Note(worker)]);
            var later := Play(c, told, [Land(worker', broken), Note(worker')]);
            && SaysUnavailable(told.world, i)
            && !SaysUnavailable(later.world, i)
            && next in Act(c, later, LookUp(next, tenant, id, true)).begun
  {
    var look, look' := LookUp(worker, tenant, id, true), LookUp(worker', tenant, id, true);
    Begins(c, s, tenant, id, i, worker);
    var s1 := Act(c, s, look);
    Begins(c, s1, tenant, id, i, worker');
    var s2 := Act(c, s1, look');
    NextStep(c, s, look, [look', Land(worker, gone), Note(worker)]);
    NextStep(c, s1, look', [Land(worker, gone), Note(worker)]);
    assert [look, look'] + [Land(worker, gone), Note(worker)] == [look] + [look', Land(worker, gone), Note(worker)];
    FailureIsNoted(c, s2, worker, gone, i);
    var told := Play(c, s2, [Land(worker, gone), Note(worker)]);
    assert SameMessage(s.world.rows[i], told.world.rows[i]) && worker' in told.begun;
    FailureIsNoted(c, told, worker', broken, i);
    var later := Play(c, told, [Land(worker', broken), Note(worker')]);
    NotRefusedAgain(c, s.world, told.world, later.world, tenant, id, i);
    Begins(c, later, tenant, id, i, next);
  }

  /** After those two records nothing refuses the message. */
  lemma NotRefusedAgain(c: Config, w: World, told: World, later: World, tenant: string, id: string, i: nat)
    requires KeyedById(w.rows) && Targets(w, tenant, id, i) && Refusal(c, w.disk, tenant, w.rows[i], true).None?
    requires |w.rows| == |told.rows| == |later.rows| && Grows(w.rows, told.rows) && Grows(told.rows, later.rows)
    requires KeyedById(told.rows) && later.disk == told.disk == w.disk
    requires later.rows[i].fetch.status == Some(Failed)
    requires later.rows[i].fetch.path == told.rows[i].fetch.path == w.rows[i].fetch.path
    ensures Targets(later, tenant, id, i) && Refusal(c, later.disk, tenant, later.rows[i], true).None?
  {
    LookupFollows(w.rows, told.rows, tenant, id, i);
    LookupFollows(told.rows, later.rows, tenant, id, i);
    assert SameMessage(w.rows[i], told.rows[i]) && SameMessage(told.rows[i], later.rows[i]);
  }

  // ------------------------------------------------- what the disk and the rows agree on

  /** What a fetch under way looked up is a stored message, and its file goes to that message's place. */
  ghost predicate Backed(c: Config, rows: seq<Message>, b: Begun) {
    && Target(c, b.message) == Some(b.path)
    && (exists i :: 0 <= i < |rows| && SameMessage(rows[i], b.message))
    && (b.landed.Some? ==> Plausible(b.landed.value))
  }

  ghost predicate Sound(c: Config, s: State) {
    && KeyedById(s.world.rows)
    && PathsRecorded(c, s.world.rows)
    && FilesAccounted(c, s.world)
    && forall worker :: worker in s.begun ==> Backed(c, s.world.rows, s.begun[worker])
  }

  lemma BackedLater(c: Config, rows: seq<Message>, rows': seq<Message>, b: Begun)
    requires Backed(c, rows, b) && Grows(rows, rows')
    ensures Backed(c, rows', b) && Claimed(c, rows', b.path)
  {
    var i :| 0 <= i < |rows| && SameMessage(rows[i], b.message);
    assert SameMessage(rows[i], rows'[i]);
    assert SameMessage(rows'[i], b.message);
    assert Target(c, rows'[i]) == Some(b.path);
  }

  /** What a fetch looks up is stored, and what it lands is kept with it. */
  lemma BegunIsBacked(c: Config, s: State, a: Action, worker: nat)
    requires Sound(c, s) && (a.Land? ==> Plausible(a.attempt)) && worker in Act(c, s, a).begun
    ensures Backed(c, Act(c, s, a).world.rows, Act(c, s, a).begun[worker])
  {
    var s' := Act(c, s, a);
    ActGrows(c, s, a);
    if worker in s.begun {
      BackedLater(c, s.world.rows, s'.world.rows, s.begun[worker]);
    } else {
      LookedUpIsBacked(c, s.world.rows, a.tenant, a.id);
    }
  }

  lemma LookedUpIsBacked(c: Config, rows: seq<Message>, tenant: string, id: string)
    requires Lookup(rows, tenant, id).Some?
    ensures var m := Lookup(rows, tenant, id).value;
            TargetPath(c, tenant, m).Some? ==> Backed(c, rows, Begun(m, TargetPath(c, tenant, m).value, None))
  {
    var i := LookupIndex(rows, tenant, id);
    assert SameMessage(rows[i], Lookup(rows, tenant, id).value);
  }

  lemma NoteRecordsPaths(c: Config, w: World, b: Begun, a: Attempt)
    requires KeyedById(w.rows) && PathsRecorded(c, w.rows) && Backed(c, w.rows, b)
    ensures PathsRecorded(c, Finished(c, w, b, a).rows)
  {
    var rows' := Finished(c, w, b, a).rows;
    var k :| 0 <= k < |w.rows| && SameMessage(w.rows[k], b.message);
    forall i | 0 <= i < |rows'| ensures PathRecorded(c, rows'[i]) {
      FinishedRow(c, w, b, a, if i < |w.rows| then i else 0);
      assert PathRecorded(c, w.rows[i]);
      if Of(b, w.rows[i]) {
        assert i < k || k < i || i == k;
        MovedIsRecorded(c, w, b, a, i);
      }
    }
  }

  lemma MovedIsRecorded(c: Config, w: World, b: Begun, a: Attempt, i: nat)
    requires i < |w.rows| && Of(b, w.rows[i]) && Target(c, w.rows[i]) == Some(b.path)
    ensures var rows' := Finished(c, w, b, a).rows;
            |rows'| == |w.rows| && (rows'[i] != w.rows[i] ==> PathRecorded(c, rows'[i]))
  {
  }

  lemma LandKeepsFiles(c: Config, w: World, b: Begun, a: Attempt)
    requires FilesAccounted(c, w) && Backed(c, w.rows, b) && Plausible(a)
    ensures FilesAccounted(c, w.(disk := Finished(c, w, b, a).disk))
  {
    BackedLater(c, w.rows, w.rows, b);
  }

  lemma ActIsSound(c: Config, s: State, a: Action)
    requires Sound(c, s) && (a.Land? ==> Plausible(a.attempt))
    ensures Sound(c, Act(c, s, a))
  {
    var s' := Act(c, s, a);
    ActGrows(c, s, a);
    forall worker | worker in s'.begun ensures Backed(c, s'.world.rows, s'.begun[worker]) {
      BegunIsBacked(c, s, a, worker);
    }
    ActRecordsPaths(c, s, a);
    ActAccountsForFiles(c, s, a);
  }

  lemma ActRecordsPaths(c: Config, s: State, a: Action)
    requires Sound(c, s)
    ensures PathsRecorded(c, Act(c, s, a).world.rows)
  {
    if a.Note? && a.worker in s.begun && s.begun[a.worker].landed.Some? {
      NoteRecordsPaths(c, s.world, s.begun[a.worker], s.begun[a.worker].landed.value);
    } else if a.Arrive? {
      StepRecordsPaths(c, s.world, Arriving(a.message, a.tenants));
    }
  }

  lemma ActAccountsForFiles(c: Config, s: State, a: Action)
    requires Sound(c, s) && (a.Land? ==> Plausible(a.attempt))
    ensures FilesAccounted(c, Act(c, s, a).world)
  {
    if a.Land? {
      if a.worker in s.begun { LandKeepsFiles(c, s.world, s.begun[a.worker], a.attempt); }
    } else if a.Note? || a.Arrive? {
      ActGrows(c, s, a);
      FilesStayClaimed(c, s.world, Act(c, s, a).world);
    }
  }

  lemma FilesStayClaimed(c: Config, w: World, w': World)
    requires FilesAccounted(c, w) && w'.disk == w.disk && Grows(w.rows, w'.rows)
    ensures FilesAccounted(c, w')
  {
    forall p | p in w'.disk ensures w'.disk[p] <= c.maxBytes && Claimed(c, w'.rows, p) {
      ClaimedLater(c, w.rows, w'.rows, p);
    }
  }

  /** Whatever overlaps: a row that says "available" names its own message's place, and every file on
      disk is a stored message's and within the limit. */
  lemma {:induction false} DiskAndRowsAgreeOverlapping(c: Config, s: State, actions: seq<Action>)
    requires Sound(c, s) && forall a :: a in actions && a.Land? ==> Plausible(a.attempt)
    ensures PathsRecorded(c, Play(c, s, actions).world.rows) && FilesAccounted(c, Play(c, s, actions).world)
    decreases |actions|
  {
    if actions != [] {
      assert actions[0] in actions;
      ActIsSound(c, s, actions[0]);
      DiskAndRowsAgreeOverlapping(c, Act(c, s, actions[0]), actions[1..]);
    }
  }
}
