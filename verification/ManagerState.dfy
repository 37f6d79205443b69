/** The state of the dictionary manager, its environment, and what every run keeps of it
    (src/dict/dictionarymanager.cpp). */
module ManagerState {
  import opened Basics
  import opened StoreFiles

  /** An open store: the generation of the database it reads and of the key filter it consults. */
  datatype Store = Store(id: Id, db: Gen, keys: Option<Gen>)

  datatype Entry = Entry(id: Id, name: string, builtIn: bool, enabled: bool, needsReimport: bool, imported: bool,
                         storeUnavailable: bool, store: Option<Store>, priority: int)

  /** One published dictionary. */
  datatype Handle = Handle(id: Id, priority: int, store: Store)

  /** An import job: on its thread, finished there with or without a new store, reported to the manager
      as a success that waits to be applied, or over. */
  datatype JobPhase = Importing | ImportedOk(gen: Gen) | ImportFailed | Reported(gen: Gen) | Closed

  datatype Job = Job(id: Id, phase: JobPhase)

  datatype OpenResult = OpenOk | OpenFailed | SchemaMismatch

  /** The answers of the file system and of the store files' contents. */
  datatype Env = Env(denied: (Id, FileOp) -> bool, schema: Gen -> OpenResult, keysReadable: Gen -> bool)

  function DeniedFor(env: Env, id: Id): Denials {
    op => env.denied(id, op)
  }

  // ---------------------------------------------------------------- live stores

  function AliveStores(entries: seq<Entry>, snapshot: seq<Handle>, lookups: set<Store>): set<Store> {
    (set e | e in entries && e.store.Some? :: e.store.value) + (set h | h in snapshot :: h.store) + lookups
  }

  /** The files of id that live stores hold open, on a platform that locks open files. */
  function HeldFor(locks: bool, alive: set<Store>, id: Id): Held {
    if !locks then NOT_HELD
    else Held(exists s :: s in alive && s.id == id, exists s :: s in alive && s.id == id && s.keys.Some?)
  }

  /** A store whose key filter indexes another generation would reject keys its database holds. */
  predicate StoreOk(s: Store) {
    s.keys.Some? ==> s.keys.value == s.db
  }

  // ---------------------------------------------------------------- what every run keeps

  predicate EntryOk(e: Entry) {
    e.store.Some? ==> e.store.value.id == e.id && e.imported && StoreOk(e.store.value)
  }

  ghost predicate DistinctIds(entries: seq<Entry>) {
    forall i, j :: 0 <= i < j < |entries| ==> entries[i].id != entries[j].id
  }

  ghost predicate EntriesOk(entries: seq<Entry>) {
    && DistinctIds(entries)
    && (forall e :: e in entries ==> EntryOk(e))
  }

  ghost predicate ReadersOk(snapshot: seq<Handle>, lookups: set<Store>) {
    && (forall h :: h in snapshot ==> h.store.id == h.id && StoreOk(h.store))
    && (forall s :: s in lookups ==> StoreOk(s))
  }

  /** Generations on disk are past ones, and a staged database is newer than the one it replaces. */
  predicate Dated(f: Files, nextGen: Gen) {
    && (f.db.Some? ==> f.db.value < nextGen)
    && (f.stagedDb.Some? ==> f.stagedDb.value < nextGen)
    && (f.db.Some? && f.stagedDb.Some? ==> f.db.value < f.stagedDb.value)
  }

  ghost predicate FilesOk(files: map<Id, Files>, nextGen: Gen) {
    forall id :: id in files ==> SidecarAgrees(files[id]) && Dated(files[id], nextGen)
  }

  lemma DatedOnDisk(files: map<Id, Files>, nextGen: Gen, id: Id)
    requires FilesOk(files, nextGen)
    ensures SidecarAgrees(FilesOf(files, id)) && Dated(FilesOf(files, id), nextGen)
  {
  }

  predicate NewestAtLeast(f: Files, g: Gen) {
    Newest(f).Some? && Newest(f).value >= g
  }

  /** For an id with an applied import of generation floor[id]: no removal waits and the disk holds that
      generation or a newer one; an open entry reads no older one, unless it is stale, that is, was opened
      while a newer database was staged whose promotion was denied. An entry whose removal waits is not marked
      as imported, unless it is hollow: marked so without an import of its own on disk. */
  ghost predicate FloorOk(files: map<Id, Files>, entries: seq<Entry>, removals: set<Id>, floor: map<Id, Gen>,
                          stale: set<Id>, hollow: set<Id>) {
    && (forall id :: id in floor ==> id !in removals && NewestAtLeast(FilesOf(files, id), floor[id]))
    && (forall e :: e in entries ==>
          (e.id in removals && e.imported ==> e.id in hollow)
          && (e.id in floor && e.store.Some? && e.id !in stale ==> e.store.value.db >= floor[e.id])
          && (e.store.None? ==> e.id !in stale))
  }

  predicate Unreported(phase: JobPhase) {
    phase.Importing? || phase.ImportedOk? || phase.ImportFailed?
  }

  ghost function UnreportedJobs(jobs: map<nat, Job>, id: Id): set<nat> {
    set j | j in jobs && jobs[j].id == id && Unreported(jobs[j].phase)
  }

  /** runningImports counts the jobs the manager has not heard of yet. */
  ghost predicate CountsOk(jobs: map<nat, Job>, running: map<Id, nat>) {
    forall id :: (id in running <==> UnreportedJobs(jobs, id) != {})
              && (id in running ==> running[id] == |UnreportedJobs(jobs, id)|)
  }

  lemma NothingRuns(jobs: map<nat, Job>, running: map<Id, nat>)
    requires CountsOk(jobs, running) && forall j :: j in jobs ==> !Unreported(jobs[j].phase)
    ensures forall id :: id !in running
  {
    forall id
      ensures UnreportedJobs(jobs, id) == {}
    {
    }
  }

  /** The store of an import that succeeded and is not applied yet is the newest on disk or superseded
      by a newer one, and once it is reported no removal waits for its id; except for the lost jobs, whose
      finished store a removal has deleted or is waiting to delete. */
  ghost predicate JobsOk(jobs: map<nat, Job>, files: map<Id, Files>, removals: set<Id>, lost: set<nat>) {
    && (forall j :: j in lost ==> j in jobs && !jobs[j].phase.Importing?)
    && (forall j :: j in jobs && j !in lost ==>
          (jobs[j].phase.ImportedOk? || jobs[j].phase.Reported? ==>
             NewestAtLeast(FilesOf(files, jobs[j].id), jobs[j].phase.gen))
          && (jobs[j].phase.Reported? ==> jobs[j].id !in removals))
  }

  /** The jobs of id a removal that leaves files f loses: reported ones, which stop no retry of the removal,
      and finished ones whose generation is gone. */
  ghost function LostJobs(jobs: map<nat, Job>, id: Id, f: Files): set<nat> {
    set j | j in jobs && jobs[j].id == id
            && (jobs[j].phase.Reported? || (jobs[j].phase.ImportedOk? && !NewestAtLeast(f, jobs[j].phase.gen)))
  }

  const RETRY_MS: nat := 250
  const RETRY_MAX_MS: nat := 4000

  // ---------------------------------------------------------------- the published list

  function HandleOf(e: Entry): Option<Handle> {
    if e.enabled && !e.needsReimport && e.store.Some? then Some(Handle(e.id, e.priority, e.store.value)) else None
  }

  /** The handles of the enabled, current, open entries, in list order. */
  function Handles(entries: seq<Entry>): seq<Handle> {
    if entries == [] then []
    else Handles(Front(entries)) + (if HandleOf(Last(entries)).Some? then [HandleOf(Last(entries)).value] else [])
  }

  /** Priorities are 1 to n in list order. */
  ghost predicate Numbered(entries: seq<Entry>) {
    forall i :: 0 <= i < |entries| ==> entries[i].priority == i + 1
  }

  lemma {:induction false} NoHandles(entries: seq<Entry>)
    requires forall e :: e in entries ==> e.store.None?
    ensures Handles(entries) == []
  {
    if entries != [] {
      NoHandles(Front(entries));
      assert Last(entries) in entries;
    }
  }

  /** Every published handle is an enabled, current, open entry. */
  lemma {:induction false} HandlesComeFromEntries(entries: seq<Entry>)
    ensures forall h :: h in Handles(entries) ==> exists e :: e in entries && HandleOf(e) == Some(h)
  {
    if entries != [] {
      HandlesComeFromEntries(Front(entries));
      forall h | h in Handles(entries)
        ensures exists e :: e in entries && HandleOf(e) == Some(h)
      {
        if h in Handles(Front(entries)) {
          var e :| e in Front(entries) && HandleOf(e) == Some(h);
          assert e in entries;
        } else {
          assert Last(entries) in entries;
        }
      }
    }
  }

  lemma {:induction false} HandlePublished(entries: seq<Entry>, i: nat)
    requires i < |entries|
    ensures HandleOf(entries[i]).Some? ==> HandleOf(entries[i]).value in Handles(entries)
  {
    if i < |entries| - 1 {
      assert Front(entries)[i] == entries[i];
      HandlePublished(Front(entries), i);
    }
  }

  /** What is published are exactly the stores of the enabled entries that do not wait for a reimport, each
      under its own id and priority. */
  lemma HandlesExact(entries: seq<Entry>, h: Handle)
    ensures h in Handles(entries) <==>
      exists e :: e in entries && e.enabled && !e.needsReimport
                  && e.store == Some(h.store) && e.id == h.id && e.priority == h.priority
  {
    HandlesComeFromEntries(entries);
    if e :| e in entries && e.enabled && !e.needsReimport
            && e.store == Some(h.store) && e.id == h.id && e.priority == h.priority {
      var i :| 0 <= i < |entries| && entries[i] == e;
      HandlePublished(entries, i);
    }
  }

  /** The published handles are in strictly increasing priority order. */
  lemma {:induction false} HandlesInPriorityOrder(entries: seq<Entry>)
    requires Numbered(entries)
    ensures forall i, j :: 0 <= i < j < |Handles(entries)| ==>
      Handles(entries)[i].priority < Handles(entries)[j].priority
    ensures forall i :: 0 <= i < |Handles(entries)| ==> 1 <= Handles(entries)[i].priority <= |entries|
  {
    if entries != [] {
      HandlesInPriorityOrder(Front(entries));
    }
  }

  // ---------------------------------------------------------------- updates

  lemma FloorAfterFiles(files: map<Id, Files>, id: Id, f: Files, entries: seq<Entry>, removals: set<Id>,
                        floor: map<Id, Gen>, stale: set<Id>, hollow: set<Id>)
    requires FloorOk(files, entries, removals, floor, stale, hollow)
    requires id in floor ==> NewestAtLeast(f, floor[id])
    ensures FloorOk(files[id := f], entries, removals, floor, stale, hollow)
  {
  }

  lemma JobsAfterFiles(jobs: map<nat, Job>, files: map<Id, Files>, id: Id, f: Files, removals: set<Id>, lost: set<nat>)
    requires JobsOk(jobs, files, removals, lost)
    requires forall j :: j in jobs && jobs[j].id == id && j !in lost ==>
      (jobs[j].phase.ImportedOk? || jobs[j].phase.Reported? ==> NewestAtLeast(f, jobs[j].phase.gen))
    ensures JobsOk(jobs, files[id := f], removals, lost)
  {
  }

  /** Changing files without changing the newest generation keeps every promise. */
  lemma SameNewest(files: map<Id, Files>, id: Id, f: Files, entries: seq<Entry>, jobs: map<nat, Job>,
                   removals: set<Id>, floor: map<Id, Gen>, stale: set<Id>, hollow: set<Id>, lost: set<nat>)
    requires FloorOk(files, entries, removals, floor, stale, hollow) && JobsOk(jobs, files, removals, lost)
    requires Newest(f) == Newest(FilesOf(files, id))
    ensures FloorOk(files[id := f], entries, removals, floor, stale, hollow)
    ensures JobsOk(jobs, files[id := f], removals, lost)
  {
    FloorAfterFiles(files, id, f, entries, removals, floor, stale, hollow);
    JobsAfterFiles(jobs, files, id, f, removals, lost);
  }

  lemma ReplaceEntry(entries: seq<Entry>, i: nat, e: Entry)
    requires EntriesOk(entries) && i < |entries| && e.id == entries[i].id && EntryOk(e)
    ensures EntriesOk(entries[i := e])
  {
  }

  function CountedOut(running: map<Id, nat>, id: Id): map<Id, nat>
    requires id in running && running[id] >= 1
  {
    if running[id] == 1 then running - {id} else running[id := running[id] - 1]
  }

  /** Reporting a job takes it out of the count. */
  lemma CountAfterReport(jobs: map<nat, Job>, running: map<Id, nat>, j: nat, phase: JobPhase)
    requires CountsOk(jobs, running) && j in jobs && Unreported(jobs[j].phase) && !Unreported(phase)
    ensures jobs[j].id in running && running[jobs[j].id] >= 1
    ensures CountsOk(jobs[j := Job(jobs[j].id, phase)], CountedOut(running, jobs[j].id))
  {
    var id := jobs[j].id;
    var after := jobs[j := Job(id, phase)];
    assert j in UnreportedJobs(jobs, id);
    assert UnreportedJobs(after, id) == UnreportedJobs(jobs, id) - {j};
    assert |UnreportedJobs(after, id)| == running[id] - 1;
    forall other | other != id
      ensures UnreportedJobs(after, other) == UnreportedJobs(jobs, other)
    {
    }
  }

  lemma CountAfterPhase(jobs: map<nat, Job>, running: map<Id, nat>, j: nat, phase: JobPhase)
    requires CountsOk(jobs, running) && j in jobs && Unreported(jobs[j].phase) == Unreported(phase)
    ensures CountsOk(jobs[j := Job(jobs[j].id, phase)], running)
  {
    forall id
      ensures UnreportedJobs(jobs[j := Job(jobs[j].id, phase)], id) == UnreportedJobs(jobs, id)
    {
    }
  }

  lemma CountAfterStart(jobs: map<nat, Job>, running: map<Id, nat>, j: nat, id: Id)
    requires CountsOk(jobs, running) && j !in jobs
    ensures CountsOk(jobs[j := Job(id, Importing)], running[id := if id in running then running[id] + 1 else 1])
  {
    var after := jobs[j := Job(id, Importing)];
    assert UnreportedJobs(after, id) == UnreportedJobs(jobs, id) + {j};
    forall other | other != id
      ensures UnreportedJobs(after, other) == UnreportedJobs(jobs, other)
    {
    }
  }
}
