/**
 Schema migrations: a ledger of applied names, one transaction per migration,
 and the stand-in for whatsmeow's LID index that exists only while they run.
 Every statement of a call may fail; the failures are inputs.
 */
module Ledger {
  import opened Text
  import opened Sorting

  /** An entry of the embedded migrations directory. */
  datatype DirEntry = DirEntry(name: string, isDir: bool)

  const SUFFIX := ".sql"

  predicate HasSuffix(name: string) {
    |name| >= |SUFFIX| && name[|name| - |SUFFIX|..] == SUFFIX
  }

  function IsMigration(): DirEntry -> bool {
    (e: DirEntry) => !e.isDir && HasSuffix(e.name)
  }

  function NameOf(e: DirEntry): string { e.name }

  /** The migrations of this build, in the order they are applied. */
  function Names(entries: seq<DirEntry>): seq<string> {
    Sort(Map(NameOf, Filter(IsMigration(), entries)), Less)
  }

  /** `ledger` is wc_schema_migrations in commit order, `effects` the schema changes in effect,
      `standIn` the temp view and `lidTable` whatsmeow's own table. */
  datatype Schema = Schema(ledger: seq<string>, effects: seq<string>, lidTable: bool, standIn: bool)

  const FRESH := Schema([], [], false, false)

  /** Which statements of one call fail. */
  datatype Faults = Faults(
    lookup: bool, createView: bool, createLedger: bool, unreadable: set<string>, failing: set<string>, dropView: bool)

  /** One call, or whatsmeow's upgrade creating its table. */
  datatype Event = Migrate(faults: Faults) | WhatsmeowUpgrade

  datatype Outcome = Outcome(schema: Schema, failed: bool)

  /** A migration and its ledger row commit together; after a failure nothing more is tried. */
  function ApplyOne(sofar: Outcome, name: string, f: Faults): Outcome {
    if sofar.failed then sofar
    else if name in f.unreadable then Outcome(sofar.schema, true)
    else if name in sofar.schema.ledger then sofar
    else if name in f.failing then Outcome(sofar.schema, true)
    else Outcome(sofar.schema.(ledger := sofar.schema.ledger + [name], effects := sofar.schema.effects + [name]), false)
  }

  /** Applies the names in order up to the first failure. */
  function ApplyAll(s: Schema, names: seq<string>, f: Faults): Outcome {
    if names == [] then Outcome(s, false)
    else ApplyOne(ApplyAll(s, names[..|names| - 1], f), names[|names| - 1], f)
  }

  function MigrateOnce(s: Schema, names: seq<string>, f: Faults): Outcome {
    if f.lookup then Outcome(s, true)
    else if !s.lidTable && (f.createView || s.standIn) then Outcome(s, true)
    else
      var created := !s.lidTable;
      var ready := if created then s.(standIn := true) else s;
      var applied := if f.createLedger then Outcome(ready, true) else ApplyAll(ready, names, f);
      if !created then applied
      else if f.dropView then Outcome(applied.schema, true)
      else Outcome(applied.schema.(standIn := false), applied.failed)
  }

  function After(s: Schema, names: seq<string>, e: Event): Schema {
    match e
    case Migrate(f) => MigrateOnce(s, names, f).schema
    case WhatsmeowUpgrade => s.(lidTable := true)
  }

  function AfterAll(s: Schema, names: seq<string>, events: seq<Event>): Schema {
    if events == [] then s else After(AfterAll(s, names, events[..|events| - 1]), names, events[|events| - 1])
  }

  // ----------------------------------------------------------------- the real calls

  class SchemaFile {
    var ledger: seq<string>
    var effects: seq<string>
    var lidTable: bool
    var standIn: bool

    function View(): Schema reads this { Schema(ledger, effects, lidTable, standIn) }

    /** Applies one migration in a transaction of its own. */
    method ApplyMigration(name: string, f: Faults) returns (failed: bool)
      modifies this
      ensures lidTable == old(lidTable) && standIn == old(standIn)
      ensures failed <==> name in f.unreadable || (name !in old(ledger) && name in f.failing)
      ensures if failed || name in old(ledger) then View() == old(View())
              else ledger == old(ledger) + [name] && effects == old(effects) + [name]
    {
      if name in f.unreadable { return true; }
      if name in ledger { return false; }
      var rollback := effects;
      effects := effects + [name];
      if name in f.failing {
        effects := rollback;
        return true;
      }
      ledger := ledger + [name];
      return false;
    }

    /** One call: the stand-in if it is needed, the ledger, the names in order, and the clean-up. */
    method MigrateSchema(entries: seq<DirEntry>, f: Faults) returns (failed: bool)
      modifies this
      ensures Outcome(View(), failed) == MigrateOnce(old(View()), Names(entries), f)
    {
      if f.lookup { return true; }
      var created := false;
      if !lidTable {
        if f.createView || standIn { return true; }
        standIn, created := true, true;
      }
      ghost var ready := View();
      failed := f.createLedger;
      if !failed {
        var names := Names(entries);
        var i := 0;
        while i < |names| && !failed
          invariant 0 <= i <= |names|
          invariant Outcome(View(), failed) == ApplyAll(ready, names[..i], f)
        {
          assert names[..i + 1][..i] == names[..i];
          failed := ApplyMigration(names[i], f);
          i := i + 1;
        }
        if failed {
          FailureIsFinal(ready, names, f, i);
        } else {
          assert names[..i] == names;
        }
      }
      if created {
        if f.dropView { return true; }
        standIn := false;
      }
    }
  }

  lemma {:induction false} FailureIsFinal(s: Schema, names: seq<string>, f: Faults, i: nat)
    requires i <= |names| && ApplyAll(s, names[..i], f).failed
    ensures ApplyAll(s, names, f) == ApplyAll(s, names[..i], f)
    decreases |names|
  {
    if i < |names| {
      assert names[..|names| - 1][..i] == names[..i];
      FailureIsFinal(s, names[..|names| - 1], f, i);
    } else {
      assert names[..i] == names;
    }
  }

  // ------------------------------------------------------------------- the ledger

  ghost predicate Distinct(names: seq<string>) {
    forall i, j :: 0 <= i < j < |names| ==> names[i] != names[j]
  }

  /** The ledger lists exactly what is in effect, and is a prefix of the sorted names. */
  ghost predicate Consistent(s: Schema, names: seq<string>) {
    s.effects == s.ledger && s.ledger <= names
  }

  /** What `n` migrations make of a schema: a longer prefix, at most up to the last of them. */
  ghost predicate Extends(s: Schema, o: Outcome, all: seq<string>, n: nat) {
    && Consistent(o.schema, all) && s.ledger <= o.schema.ledger
    && o.schema.lidTable == s.lidTable && o.schema.standIn == s.standIn
    && (!o.failed ==> |o.schema.ledger| >= n)
    && (|o.schema.ledger| > |s.ledger| ==> |o.schema.ledger| <= n)
  }

  lemma ApplyOneExtends(s: Schema, sofar: Outcome, all: seq<string>, n: nat, f: Faults)
    requires Distinct(all) && n < |all| && Extends(s, sofar, all, n)
    ensures Extends(s, ApplyOne(sofar, all[n], f), all, n + 1)
  {
    var ledger := sofar.schema.ledger;
    if n < |ledger| {
      assert ledger[n] == all[n];
    } else if !sofar.failed {
      assert ledger == all[..n];
      assert all[n] !in ledger;
      assert ledger + [all[n]] == all[..n + 1];
    }
  }

  lemma {:induction false} ApplyExtendsThePrefix(s: Schema, names: seq<string>, all: seq<string>, f: Faults)
    requires Distinct(all) && names <= all && Consistent(s, all)
    ensures Extends(s, ApplyAll(s, names, f), all, |names|)
  {
    if names != [] {
      var n := |names| - 1;
      ApplyExtendsThePrefix(s, names[..n], all, f);
      ApplyOneExtends(s, ApplyAll(s, names[..n], f), all, n, f);
      assert all[n] == names[n];
    }
  }

  /** One call: the ledger only grows, stays consistent, and a successful call leaves it complete. */
  lemma MigrateKeepsTheLedger(s: Schema, names: seq<string>, f: Faults)
    requires Distinct(names) && Consistent(s, names)
    ensures var o := MigrateOnce(s, names, f);
            && Consistent(o.schema, names) && s.ledger <= o.schema.ledger
            && o.schema.lidTable == s.lidTable
            && (!o.failed ==> o.schema.ledger == names)
  {
    ApplyExtendsThePrefix(s, names, names, f);
    ApplyExtendsThePrefix(s.(standIn := true), names, names, f);
  }

  /** Over any sequence of calls with any failures: what is in effect is what the ledger lists, each
      migration at most once, and always a prefix of the sorted names. */
  lemma {:induction false} LedgerIsAlwaysAPrefix(names: seq<string>, events: seq<Event>)
    requires Distinct(names)
    ensures Consistent(AfterAll(FRESH, names, events), names)
    ensures Distinct(AfterAll(FRESH, names, events).effects)
  {
    if events != [] {
      LedgerIsAlwaysAPrefix(names, events[..|events| - 1]);
      if events[|events| - 1].Migrate? {
        MigrateKeepsTheLedger(AfterAll(FRESH, names, events[..|events| - 1]), names, events[|events| - 1].faults);
      }
    }
  }

  /** Nothing once committed is ever undone or run again. */
  lemma {:induction false} CommittedStaysCommitted(names: seq<string>, events: seq<Event>, k: nat)
    requires Distinct(names) && k <= |events|
    ensures AfterAll(FRESH, names, events[..k]).effects <= AfterAll(FRESH, names, events).effects
    decreases |events|
  {
    if k < |events| {
      var init := events[..|events| - 1];
      assert init[..k] == events[..k];
      CommittedStaysCommitted(names, init, k);
      LedgerIsAlwaysAPrefix(names, init);
      if events[|events| - 1].Migrate? {
        MigrateKeepsTheLedger(AfterAll(FRESH, names, init), names, events[|events| - 1].faults);
      }
    } else {
      assert events[..k] == events;
    }
  }

  /** The embedded names are sorted and told apart, whatever order the directory lists them in. */
  lemma NamesAreSorted(entries: seq<DirEntry>)
    requires Distinct(Map(NameOf, Filter(IsMigration(), entries)))
    ensures Sorted(Names(entries), Less) && Permutation(Names(entries), Map(NameOf, Filter(IsMigration(), entries)))
  {
    var names := Map(NameOf, Filter(IsMigration(), entries));
    forall a, b, c | a in names && b in names && c in names
      ensures a == b || Less(a, b) || Less(b, a)
      ensures Less(a, b) ==> !Less(b, a)
      ensures Less(a, b) && Less(b, c) ==> Less(a, c) {
      LessIsTotal(a, b);
      if Less(a, b) && Less(b, c) { LessIsTransitive(a, b, c); }
    }
    SortIsSorted(names, Less);
  }

  // ----------------------------------------------------------------- the stand-in

  /** This call creates the stand-in and cannot drop it again. */
  predicate Strands(s: Schema, f: Faults) {
    !s.lidTable && !f.lookup && !f.createView && f.dropView
  }

  /** The stand-in outlives a call exactly when it was there already, or was created and its drop failed. */
  lemma StandInOutlivesExactly(s: Schema, names: seq<string>, f: Faults)
    requires Distinct(names) && Consistent(s, names)
    ensures MigrateOnce(s, names, f).schema.standIn <==> s.standIn || Strands(s, f)
  {
    ApplyExtendsThePrefix(s, names, names, f);
    ApplyExtendsThePrefix(s.(standIn := true), names, names, f);
  }

  /** As long as no drop fails, no call leaves the stand-in behind. */
  lemma {:induction false} NoStandInIsLeftBehind(names: seq<string>, events: seq<Event>)
    requires Distinct(names)
    requires forall e :: e in events && e.Migrate? ==> !e.faults.dropView
    ensures !AfterAll(FRESH, names, events).standIn
  {
    if events != [] {
      var init, last := events[..|events| - 1], events[|events| - 1];
      assert last in events && forall e :: e in init ==> e in events;
      NoStandInIsLeftBehind(names, init);
      LedgerIsAlwaysAPrefix(names, init);
      if last.Migrate? {
        StandInOutlivesExactly(AfterAll(FRESH, names, init), names, last.faults);
      }
    }
  }

  ghost predicate StrandedAt(names: seq<string>, events: seq<Event>, k: nat) {
    k < |events| && events[k].Migrate? && Strands(AfterAll(FRESH, names, events[..k]), events[k].faults)
  }

  /** Over any sequence of calls the stand-in is there exactly when some call stranded it. */
  lemma {:induction false} StandInAfterARun(names: seq<string>, events: seq<Event>)
    requires Distinct(names)
    ensures AfterAll(FRESH, names, events).standIn <==> exists k: nat :: StrandedAt(names, events, k)
  {
    if events != [] {
      var n := |events| - 1;
      var init, last := events[..n], events[n];
      StandInAfterARun(names, init);
      LedgerIsAlwaysAPrefix(names, init);
      forall k: nat | k < n ensures StrandedAt(names, events, k) <==> StrandedAt(names, init, k) {
        assert events[..k] == init[..k];
      }
      if last.Migrate? {
        StandInOutlivesExactly(AfterAll(FRESH, names, init), names, last.faults);
      }
      assert StrandedAt(names, events, n) <==> last.Migrate? && Strands(AfterAll(FRESH, names, init), last.faults);
      if k: nat :| StrandedAt(names, init, k) {
        assert StrandedAt(names, events, k);
      }
    }
  }

  /** What a query for the LID index sees on this connection: temporary names are resolved first. */
  function Visible<T>(s: Schema, pairs: seq<T>): Option<seq<T>> {
    if s.standIn then Some([]) else if s.lidTable then Some(pairs) else None
  }

  /** A stranded stand-in stays for as long as the connection does and hides whatsmeow's table from
      every migration and reader after it, whatever is called or upgraded next. */
  lemma {:induction false} StandInShadows<T>(s: Schema, names: seq<string>, events: seq<Event>, pairs: seq<T>)
    requires Distinct(names) && Consistent(s, names) && s.standIn
    ensures Consistent(AfterAll(s, names, events), names)
    ensures Visible(AfterAll(s, names, events), pairs) == Some([])
  {
    if events != [] {
      var init, last := events[..|events| - 1], events[|events| - 1];
      StandInShadows(s, names, init, pairs);
      if last.Migrate? {
        MigrateKeepsTheLedger(AfterAll(s, names, init), names, last.faults);
        StandInOutlivesExactly(AfterAll(s, names, init), names, last.faults);
      }
    }
  }

  /** A stranded stand-in blocks every later call until whatsmeow creates its table. */
  lemma StrandedStandInBlocks(s: Schema, names: seq<string>, f: Faults)
    requires s.standIn && !s.lidTable
    ensures MigrateOnce(s, names, f) == Outcome(s, true)
  {
  }

  /** Such a run exists: one call whose drop fails, then nothing but failure. */
  lemma StandInCanBeStranded(names: seq<string>, f: Faults)
    requires Distinct(names) && Strands(FRESH, f)
    ensures AfterAll(FRESH, names, [Migrate(f)]).standIn
    ensures forall g :: MigrateOnce(AfterAll(FRESH, names, [Migrate(f)]), names, g).failed
  {
    StandInOutlivesExactly(FRESH, names, f);
    MigrateKeepsTheLedger(FRESH, names, f);
    assert [Migrate(f)][..0] == [];
    assert AfterAll(FRESH, names, []) == FRESH;
    assert AfterAll(FRESH, names, [Migrate(f)]) == MigrateOnce(FRESH, names, f).schema;
  }
}
