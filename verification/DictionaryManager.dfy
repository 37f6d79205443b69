/** The dictionary list: which stores are open and published, which files wait to be promoted or
    deleted, and which imports run (src/dict/dictionarymanager.cpp). Methods are the steps of the
    manager's own thread, except the ones marked as steps of another thread. */
module DictionaryManager {
  import opened Basics
  import opened StoreFiles
  import opened ManagerState
  import opened DictionaryOrder
  import opened StableSorting
  import opened StoreOpening
  import opened ManagerSteps

  function Min(a: nat, b: nat): nat {
    if a < b then a else b
  }

  /** The database a store can be opened on. */
  predicate Readable(f: Files, env: Env) {
    f.db.Some? && env.schema(f.db.value) == OpenOk
  }

  /** The position nearest to an index. */
  function Clamped(index: int, count: int): (target: nat)
    requires count > 0
    ensures target < count
    ensures index < target ==> target == 0
    ensures index > target ==> target == count - 1
  {
    if index < 0 then 0 else if index > count - 1 then count - 1 else index
  }

  class DictionaryManager {
    const locks: bool
    const disk: StoreDirectory

    var entries: seq<Entry>
    var snapshot: seq<Handle>
    var pendingPromotions: set<Id>
    var pendingRemovals: set<Id>
    var savedRemovals: set<Id>
    var runningImports: map<Id, nat>
    var retryActive: bool
    var retryDelayMs: nat

    // The environment: the stores lookup threads and retained responses hold, the import jobs, and the
    // generation the next finished import writes.
    var lookups: set<Store>
    var jobs: map<nat, Job>
    var nextGen: Gen

    // The generation of the last applied import of an id. The ids whose open store was opened while a
    // newer database was staged whose promotion was denied. The jobs whose finished store a removal has
    // deleted or is waiting to delete. The ids marked as imported without an import of their own on
    // disk: by applying such a job, or as they were added.
    ghost var floor: map<Id, Gen>
    ghost var stale: set<Id>
    ghost var lost: set<nat>
    ghost var hollow: set<Id>

    // ------------------------------------------------------------ invariants

    ghost predicate Core()
      reads this, disk
    {
      && EntriesOk(entries)
      && ReadersOk(snapshot, lookups)
      && FilesOk(disk.files, nextGen)
      && FloorOk(disk.files, entries, pendingRemovals, floor, stale, hollow)
      && JobsOk(jobs, disk.files, pendingRemovals, lost)
      && CountsOk(jobs, runningImports)
      && RETRY_MS <= retryDelayMs <= RETRY_MAX_MS
    }

    /** Pending work has an active retry timer. */
    ghost predicate Scheduled()
      reads this
    {
      pendingRemovals != {} || pendingPromotions != {} ==> retryActive
    }

    /** The snapshot is the list's open and current entries, and the list is numbered in order. */
    ghost predicate Published()
      reads this
    {
      snapshot == Handles(entries) && Numbered(entries)
    }

    ghost predicate Valid()
      reads this, disk
    {
      Core() && Scheduled() && Published()
    }

    function HeldOf(id: Id): Held
      reads this
    {
      HeldFor(locks, AliveStores(entries, snapshot, lookups), id)
    }

    /** The files of id held open by others than its entry. */
    function HeldByOthers(id: Id): Held
      reads this
    {
      HeldFor(locks, AliveStores([], snapshot, lookups), id)
    }

    /** A round of openings as things stand. */
    function RoundOf(env: Env, asked: Option<nat>): Round
      reads this
    {
      Round(locks, AliveStores(entries, snapshot, lookups), runningImports, env, asked)
    }

    /** A manager over a dictionary folder, with the list load() has read and renumbered. */
    constructor (locks: bool, disk: StoreDirectory, nextGen: Gen, listed: seq<Entry>)
      requires FilesOk(disk.files, nextGen) && DistinctIds(listed)
      requires forall e :: e in listed ==> e.store.None?
      ensures Valid() && this.disk == disk && this.locks == locks && entries == Renumbered(listed)
      ensures pendingRemovals == {} && lookups == {} && jobs == map[] && runningImports == map[]
      ensures this.nextGen == nextGen && floor == map[] && lost == {}
    {
      hide EntriesOk, FilesOk, FloorOk, JobsOk, CountsOk, Handles, Renumbered, HeldFor, AliveStores;
      this.locks, this.disk, this.nextGen := locks, disk, nextGen;
      entries, snapshot := Renumbered(listed), [];
      pendingPromotions, pendingRemovals, savedRemovals := {}, {}, {};
      runningImports, retryActive, retryDelayMs := map[], false, RETRY_MS;
      lookups, jobs := {}, map[];
      floor, stale, lost, hollow := map[], {}, {}, {};
      new;
      LoadedList(listed, disk.files);
    }

    // ------------------------------------------------------------ opening

    method SchedulePendingRetry()
      modifies this`retryActive
      ensures retryActive
    {
      if !retryActive {
        retryActive := true;
      }
    }

    /** Promotes the staged files of id. */
    method Promote(id: Id, env: Env) returns (result: StagedStore)
      requires Core()
      modifies disk
      ensures Core()
      ensures result == PromotionResult(old(disk.Of(id)), HeldOf(id), DeniedFor(env, id))
      ensures disk.files == old(disk.files)[id := AfterPromotion(old(disk.Of(id)), HeldOf(id), DeniedFor(env, id))]
      ensures Newest(disk.Of(id)) == Newest(old(disk.Of(id)))
      ensures result == Pending ==> disk.Of(id).stagedDb.Some? || disk.Of(id).stagedKeys.Some?
    {
      hide EntriesOk, ReadersOk, CountsOk, RunPlan, PlanResult, PromotionPlan, HeldFor, FloorOk, JobsOk, AliveStores;
      ghost var before := disk.Of(id);
      var held := HeldOf(id);
      HeldIsTogether(locks, AliveStores(entries, snapshot, lookups), id);
      PromotionKeepsAgreement(before, held, DeniedFor(env, id), 3);
      PromotionOutcome(before, held, DeniedFor(env, id));
      PromotionKeepsDates(before, held, DeniedFor(env, id), nextGen);
      SameNewest(disk.files, id, AfterPromotion(before, held, DeniedFor(env, id)), entries, jobs, pendingRemovals,
                 floor, stale, hollow, lost);
      result := disk.PromoteStagedStore(id, held, DeniedFor(env, id));
    }

    /** Store::open() on the database path of an entry, and what the entry makes of its answer. */
    static method ReadFiles(closed: Entry, f: Files, env: Env) returns (entry: Entry)
      requires closed.store.None?
      ensures SameButStore(closed, entry)
      ensures entry.store.Some? == Readable(f, env)
      ensures entry.store.Some? ==>
        entry.store.value == StoreAt(closed.id, f, env) && !entry.needsReimport
      ensures entry.store.None? ==>
        entry.storeUnavailable
        && entry.needsReimport == (closed.needsReimport || (f.db.Some? && env.schema(f.db.value) == SchemaMismatch))
      ensures entry.store.Some? ==> entry.storeUnavailable == closed.storeUnavailable
    {
      if f.db.None? || env.schema(f.db.value) == OpenFailed {
        entry := closed.(storeUnavailable := true);
      } else if env.schema(f.db.value) == SchemaMismatch {
        entry := closed.(needsReimport := true, storeUnavailable := true);
      } else {
        var keys := if f.keys.Some? && env.keysReadable(f.keys.value) then f.keys else None;
        entry := closed.(needsReimport := false, store := Some(Store(closed.id, f.db.value, keys)));
      }
    }

    /** Reads the store files of entry i. */
    method ReadStore(i: nat, env: Env) returns (isOpen: bool)
      requires Core() && i < |entries| && entries[i].store.None? && entries[i].imported
      modifies this`entries, this`stale
      ensures Core()
      ensures |entries| == |old(entries)| && entries == old(entries)[i := entries[i]]
        && SameButStore(old(entries)[i], entries[i])
      ensures isOpen == entries[i].store.Some? == Readable(disk.Of(entries[i].id), env)
      ensures isOpen ==>
        entries[i].store.value == StoreAt(entries[i].id, disk.Of(entries[i].id), env) && !entries[i].needsReimport
      ensures entries[i].storeUnavailable == (old(entries)[i].storeUnavailable || !isOpen)
      ensures !isOpen ==>
        entries[i].needsReimport == (old(entries)[i].needsReimport || Outdated(disk.Of(entries[i].id), env))
      ensures stale ==
        if isOpen && disk.Of(entries[i].id).stagedDb.Some? then old(stale) + {entries[i].id} else old(stale)
    {
      hide EntriesOk, ReadersOk, FilesOk, FloorOk, JobsOk, CountsOk, HeldFor, AliveStores;
      var f := disk.Of(entries[i].id);
      var entry := ReadFiles(entries[i], f, env);
      ReadKeeps(disk.files, nextGen, entries, pendingRemovals, floor, stale, hollow, i, entry);
      stale := if entry.store.Some? && f.stagedDb.Some? then stale + {entry.id} else stale;
      entries := entries[i := entry];
      isOpen := entry.store.Some?;
    }

    /** openStore() for a closed entry that may be opened: promotes what is staged before it reads. */
    method PromoteAndRead(i: nat, env: Env) returns (isOpen: bool)
      requires Core() && i < |entries|
      requires entries[i].store.None? && entries[i].imported && !entries[i].storeUnavailable
      modifies this`entries, this`pendingPromotions, this`retryActive, this`stale, disk
      ensures Core()
      ensures |entries| == |old(entries)| && entries == old(entries)[i := entries[i]]
      ensures isOpen <==> entries[i].store.Some?
      ensures EntryOpened(old(entries)[i], entries[i], FilesOf(old(disk.files), entries[i].id), disk.Of(entries[i].id),
                          old(HeldOf(entries[i].id)), env, entries[i].id in runningImports)
      ensures forall id :: id != entries[i].id ==> FilesOf(disk.files, id) == FilesOf(old(disk.files), id)
      ensures stale == if OpenedStale(old(entries)[i], entries[i], FilesOf(old(disk.files), entries[i].id), env)
                       then old(stale) + {entries[i].id} else old(stale)
      ensures pendingPromotions <= old(pendingPromotions) || retryActive
      ensures entries[i].id in pendingPromotions <==>
        if entries[i].id in runningImports then entries[i].id in old(pendingPromotions)
        else PromotionResult(FilesOf(old(disk.files), entries[i].id), old(HeldOf(entries[i].id)),
                             DeniedFor(env, entries[i].id)) == Pending
      ensures forall id :: id != entries[i].id ==> (id in pendingPromotions <==> id in old(pendingPromotions))
      ensures old(retryActive) ==> retryActive
      ensures Settled(entries[i], pendingPromotions, runningImports)
    {
      hide EntriesOk, ReadersOk, FilesOk, FloorOk, JobsOk, CountsOk, HeldFor, AliveStores, RunPlan, PlanResult,
           PromotionPlan;
      var id := entries[i].id;
      HeldIsTogether(locks, AliveStores(entries, snapshot, lookups), id);
      PromotionOpens(disk.Of(id), HeldOf(id), DeniedFor(env, id));
      if id in runningImports {
        if disk.Of(id).stagedDb.Some? || disk.Of(id).stagedKeys.Some? {
          return false;
        }
      } else {
        var promoted := Promote(id, env);
        if promoted == Pending {
          pendingPromotions := pendingPromotions + {id};
          SchedulePendingRetry();
          return false;
        }
        pendingPromotions := pendingPromotions - {id};
      }
      isOpen := ReadStore(i, env);
    }

    /** openStore(): promotes what is staged before it reads, and opens nothing while staged files have
        to wait for an open file or for a running import. A closed entry opens exactly when CanOpen says
        so; and on a database older than a generation that is on disk exactly when OpensStale says so of
        the files, their readers and the environment before the call. */
    method OpenStore(i: nat, env: Env) returns (isOpen: bool)
      requires Core() && i < |entries|
      modifies this`entries, this`pendingPromotions, this`retryActive, this`stale, disk
      ensures Core()
      ensures |entries| == |old(entries)| && entries == old(entries)[i := entries[i]]
        && SameButStore(old(entries)[i], entries[i])
      ensures isOpen <==> entries[i].store.Some?
      ensures old(entries)[i].store.Some? ==> entries == old(entries)
      ensures EntryOpened(old(entries)[i], entries[i], FilesOf(old(disk.files), entries[i].id), disk.Of(entries[i].id),
                          old(HeldOf(entries[i].id)), env, entries[i].id in runningImports)
      ensures forall g :: old(entries)[i].store.None? && NewestAtLeast(FilesOf(old(disk.files), entries[i].id), g) ==>
        (entries[i].store.Some? && entries[i].store.value.db < g <==>
           old(entries)[i].imported && !old(entries)[i].storeUnavailable
           && OpensStale(entries[i].id, FilesOf(old(disk.files), entries[i].id), old(HeldOf(entries[i].id)), env,
                         entries[i].id in runningImports, g))
      ensures forall id :: id != entries[i].id ==> FilesOf(disk.files, id) == FilesOf(old(disk.files), id)
      ensures stale == if OpenedStale(old(entries)[i], entries[i], FilesOf(old(disk.files), entries[i].id), env)
                       then old(stale) + {entries[i].id} else old(stale)
      ensures pendingPromotions <= old(pendingPromotions) || retryActive
      ensures entries[i].id in pendingPromotions <==>
        if old(entries)[i].store.Some? || !old(entries)[i].imported || old(entries)[i].storeUnavailable
           || entries[i].id in runningImports then entries[i].id in old(pendingPromotions)
        else PromotionResult(FilesOf(old(disk.files), entries[i].id), old(HeldOf(entries[i].id)),
                             DeniedFor(env, entries[i].id)) == Pending
      ensures forall id :: id != entries[i].id ==> (id in pendingPromotions <==> id in old(pendingPromotions))
      ensures old(retryActive) ==> retryActive
      ensures Settled(entries[i], pendingPromotions, runningImports)
    {
      hide EntriesOk, ReadersOk, FilesOk, FloorOk, JobsOk, CountsOk, HeldFor, AliveStores, AfterPromotion,
           PromotionResult, OpensStale, NewestAtLeast, Waits, Openable;
      if entries[i].store.Some? {
        return true;
      }
      ghost var before, f, held := entries[i], disk.Of(entries[i].id), HeldOf(entries[i].id);
      HeldIsTogether(locks, AliveStores(entries, snapshot, lookups), before.id);
      DatedOnDisk(disk.files, nextGen, before.id);
      if entries[i].imported && !entries[i].storeUnavailable {
        isOpen := PromoteAndRead(i, env);
      } else {
        isOpen := false;
      }
      OpenedOnOlderAll(before, entries[i], f, disk.Of(before.id), held, env, before.id in runningImports, nextGen);
    }

    /** publishSnapshot(): opens what is enabled and current, and publishes the open entries in list
        order. */
    method PublishSnapshot(env: Env)
      requires Core()
      modifies this`entries, this`pendingPromotions, this`retryActive, this`stale, this`snapshot, disk
      ensures Core() && snapshot == Handles(entries)
      ensures OpenedUpTo(old(entries), entries, old(disk.files), disk.files, old(stale), stale, old(RoundOf(env, None)),
                         |entries|)
      ensures SettledUpTo(entries, pendingPromotions, runningImports, |entries|)
      ensures pendingPromotions <= old(pendingPromotions) || retryActive
      ensures old(retryActive) ==> retryActive
    {
      hide EntriesOk, ReadersOk, FilesOk, FloorOk, JobsOk, CountsOk, OpenedUpTo, RoundAt, Settled, SettledUpTo,
           HeldAsIn, DistinctIds, HeldFor, AliveStores;
      var handles: seq<Handle> := [];
      ghost var round := RoundOf(env, None);
      OpenedNone(entries, disk.files, stale, round);
      HeldAtStart(entries, round.alive, round);
      SettledNone(entries, pendingPromotions, runningImports);
      ListedOnce(entries);
      for n := 0 to |entries|
        invariant Core()
        invariant |entries| == |old(entries)| && snapshot == old(snapshot) && DistinctIds(old(entries))
        invariant handles == Handles(entries[..n])
        invariant OpenedUpTo(old(entries), entries, old(disk.files), disk.files, old(stale), stale, round, n)
        invariant HeldAsIn(entries, AliveStores(entries, snapshot, lookups), round, n)
        invariant SettledUpTo(entries, pendingPromotions, runningImports, n)
        invariant pendingPromotions <= old(pendingPromotions) || retryActive
        invariant old(retryActive) ==> retryActive
      {
        OpenNext(n, env, old(entries), old(disk.files), old(stale), round);
        assert entries[..n + 1] == entries[..n] + [entries[n]];
        if HandleOf(entries[n]).Some? {
          handles := handles + [Handle(entries[n].id, entries[n].priority, entries[n].store.value)];
        }
      }
      assert entries[..|entries|] == entries;
      ReadersAfterPublish(entries, snapshot, lookups);
      snapshot := handles;
    }

    /** One turn of publishSnapshot(): opens entry n when it is enabled and current. */
    method OpenNext(n: nat, env: Env, ghost before: seq<Entry>, ghost files: map<Id, Files>, ghost wasStale: set<Id>,
                    ghost round: Round)
      requires Core() && n < |entries| == |before| && DistinctIds(before)
      requires OpenedUpTo(before, entries, files, disk.files, wasStale, stale, round, n)
      requires HeldAsIn(entries, AliveStores(entries, snapshot, lookups), round, n)
      requires round.locks == locks && round.running == runningImports && round.env == env && round.asked == None
      requires SettledUpTo(entries, pendingPromotions, runningImports, n)
      modifies this`entries, this`pendingPromotions, this`retryActive, this`stale, disk
      ensures Core() && |entries| == |old(entries)| && entries[..n] == old(entries)[..n]
      ensures OpenedUpTo(before, entries, files, disk.files, wasStale, stale, round, n + 1)
      ensures HeldAsIn(entries, AliveStores(entries, snapshot, lookups), round, n + 1)
      ensures SettledUpTo(entries, pendingPromotions, runningImports, n + 1)
      ensures pendingPromotions <= old(pendingPromotions) || retryActive
      ensures old(retryActive) ==> retryActive
    {
      hide EntriesOk, ReadersOk, FilesOk, FloorOk, JobsOk, CountsOk, OpenedUpTo, EntryOpened, Settled, SettledUpTo,
           HeldFor, DistinctIds, RoundAt, AliveStores;
      ghost var mid, filesMid, staleMid, promotionsMid := entries, disk.files, stale, pendingPromotions;
      ListedOnce(entries);
      if entries[n].enabled && !entries[n].needsReimport {
        var isOpen := OpenStore(n, env);
        OpenedAsAsked(mid[n], entries[n], FilesOf(filesMid, mid[n].id), FilesOf(disk.files, mid[n].id),
                      mid[n].id in staleMid, mid[n].id in stale,
                      HeldFor(locks, AliveStores(mid, snapshot, lookups), mid[n].id), round);
      } else {
        PassedOver(mid[n], FilesOf(disk.files, mid[n].id), mid[n].id in stale, round);
      }
      HeldAsInStep(mid, entries, snapshot, lookups, round, n);
      ListedOnce(entries);
      OpenedStep(before, mid, entries, files, filesMid, disk.files, wasStale, staleMid, stale, round, n);
      SettledStep(mid, entries, promotionsMid, pendingPromotions, runningImports, n);
    }

    // ------------------------------------------------------------ retrying

    /** One turn of the removal half of retryPending(). */
    method RetryRemoval(id: Id) returns (removed: bool)
      requires Core() && id in pendingRemovals && id !in runningImports
      modifies this`pendingRemovals, disk
      ensures Core() && pendingRemovals == if removed then old(pendingRemovals) - {id} else old(pendingRemovals)
      ensures disk.Of(id) == AfterRemoval(old(disk.Of(id)), HeldOf(id)) && (removed <==> disk.Of(id) == NO_FILES)
      ensures forall other :: other != id ==> FilesOf(disk.files, other) == FilesOf(old(disk.files), other)
    {
      hide EntriesOk, ReadersOk, FilesOk, FloorOk, JobsOk, CountsOk, HeldFor, AfterRemoval, AliveStores;
      RemovalIsSafe(disk.files, nextGen, id, HeldOf(id), entries, jobs, runningImports, pendingRemovals, floor, stale,
                    hollow, lost);
      NothingDenied(disk.Of(id), HeldOf(id));
      var result := disk.RemoveStoreFiles(id, HeldOf(id), NEVER);
      removed := result == Removed;
      if removed {
        FewerRemovals(disk.files, entries, jobs, pendingRemovals, pendingRemovals - {id}, floor, stale, hollow, lost);
        pendingRemovals := pendingRemovals - {id};
      }
    }

    /** The removal half of retryPending(): files of an id with a running import belong to the import. */
    method RetryRemovals() returns (progressed: bool)
      requires Core()
      modifies this`pendingRemovals, disk
      ensures Core() && pendingRemovals <= old(pendingRemovals)
      ensures progressed <==> pendingRemovals != old(pendingRemovals)
      ensures forall id :: id !in old(pendingRemovals) || id in runningImports ==>
        FilesOf(disk.files, id) == FilesOf(old(disk.files), id)
      ensures forall id :: id in old(pendingRemovals) - pendingRemovals ==> FilesOf(disk.files, id) == NO_FILES
      ensures forall id :: id in pendingRemovals ==> id in runningImports || FilesOf(disk.files, id) != NO_FILES
      ensures forall id :: id in old(pendingRemovals) && id in runningImports ==> id in pendingRemovals
      ensures forall id :: id in old(pendingRemovals) && id !in runningImports ==>
        FilesOf(disk.files, id) == AfterRemoval(FilesOf(old(disk.files), id), HeldOf(id))
    {
      hide EntriesOk, ReadersOk, FilesOk, FloorOk, JobsOk, CountsOk, HeldFor, AfterRemoval, AliveStores;
      progressed := false;
      var todo := pendingRemovals;
      while todo != {}
        invariant todo <= pendingRemovals <= old(pendingRemovals)
        invariant progressed <==> pendingRemovals != old(pendingRemovals)
        invariant Core()
        invariant forall id :: id !in old(pendingRemovals) || id in runningImports ==>
          FilesOf(disk.files, id) == FilesOf(old(disk.files), id)
        invariant forall id :: id in old(pendingRemovals) - pendingRemovals ==> FilesOf(disk.files, id) == NO_FILES
        invariant forall id :: id in pendingRemovals - todo ==>
          id in runningImports || FilesOf(disk.files, id) != NO_FILES
        invariant forall id :: id in todo ==> FilesOf(disk.files, id) == FilesOf(old(disk.files), id)
        invariant forall id :: id in old(pendingRemovals) && id in runningImports ==> id in pendingRemovals
        invariant forall id :: id in old(pendingRemovals) - todo && id !in runningImports ==>
          FilesOf(disk.files, id) == AfterRemoval(FilesOf(old(disk.files), id), HeldOf(id))
        decreases |todo|
      {
        var id :| id in todo;
        todo := todo - {id};
        if id !in runningImports {
          var removed := RetryRemoval(id);
          progressed := progressed || removed;
        }
      }
    }

    /** The promotion half of retryPending(). */
    method RetryPromotions(env: Env) returns (settled: nat)
      requires Core()
      modifies this`pendingPromotions, disk
      ensures Core() && pendingPromotions <= old(pendingPromotions)
      ensures settled == 0 <==> pendingPromotions == old(pendingPromotions)
      ensures forall id :: id in old(pendingPromotions) ==>
        (id in pendingPromotions <==>
           (|| id in runningImports
            || PromotionResult(FilesOf(old(disk.files), id), HeldOf(id), DeniedFor(env, id)) == Pending))
      ensures forall id ::
        (FilesOf(disk.files, id) ==
           if id in old(pendingPromotions) && id !in runningImports
           then AfterPromotion(FilesOf(old(disk.files), id), HeldOf(id), DeniedFor(env, id))
           else FilesOf(old(disk.files), id))
      ensures forall id :: Newest(FilesOf(disk.files, id)) == Newest(FilesOf(old(disk.files), id))
    {
      hide EntriesOk, ReadersOk, FilesOk, FloorOk, JobsOk, CountsOk, AfterPromotion, PromotionResult, HeldFor,
           AliveStores;
      settled := 0;
      var todo := pendingPromotions;
      while todo != {}
        invariant todo <= pendingPromotions <= old(pendingPromotions)
        invariant settled == 0 <==> pendingPromotions == old(pendingPromotions)
        invariant Core()
        invariant forall id :: id in old(pendingPromotions) - todo ==>
          (id in pendingPromotions <==>
             (|| id in runningImports
              || PromotionResult(FilesOf(old(disk.files), id), HeldOf(id), DeniedFor(env, id)) == Pending))
        invariant forall id ::
          (FilesOf(disk.files, id) ==
             if id in old(pendingPromotions) - todo && id !in runningImports
             then AfterPromotion(FilesOf(old(disk.files), id), HeldOf(id), DeniedFor(env, id))
             else FilesOf(old(disk.files), id))
        invariant forall id :: Newest(FilesOf(disk.files, id)) == Newest(FilesOf(old(disk.files), id))
        decreases |todo|
      {
        var id :| id in todo;
        todo := todo - {id};
        if id !in runningImports {
          ghost var filesBefore := disk.files;
          var result := Promote(id, env);
          assert forall other :: other != id ==> FilesOf(disk.files, other) == FilesOf(filesBefore, other);
          if result != Pending {
            pendingPromotions := pendingPromotions - {id};
            settled := settled + 1;
          }
        }
      }
    }

    /** The file work of one retry. */
    method RetryFiles(env: Env) returns (removed: bool, settled: nat)
      requires Core()
      modifies this`pendingPromotions, this`pendingRemovals, this`savedRemovals, disk
      ensures Core() && pendingRemovals <= old(pendingRemovals)
      ensures removed <==> pendingRemovals != old(pendingRemovals)
      ensures savedRemovals == if removed then pendingRemovals else old(savedRemovals)
      ensures forall id :: id in old(pendingRemovals) ==>
        (id in pendingRemovals <==> id in runningImports || FilesOf(disk.files, id) != NO_FILES)
      ensures forall id :: FilesOf(disk.files, id) == AfterRetry(FilesOf(old(disk.files), id), id, old(pendingRemovals),
                                                                 old(pendingPromotions), old(RoundOf(env, None)))
      ensures settled > 0 <==>
        SettlesSome(old(disk.files), old(pendingRemovals), old(pendingPromotions), old(RoundOf(env, None)))
    {
      hide EntriesOk, ReadersOk, FilesOk, FloorOk, JobsOk, CountsOk, HeldFor, AliveStores, AfterRemoval, AfterPromotion,
           PromotionResult;
      removed := RetryRemovals();
      if removed {
        savedRemovals := pendingRemovals;
      }
      ghost var files, round, waiting := disk.files, RoundOf(env, None), pendingPromotions;
      settled := RetryPromotions(env);
      forall id | id in old(pendingRemovals) && id !in runningImports
        ensures FilesOf(disk.files, id) == FilesOf(files, id)
      {
        NothingStagedAfterRemoval(FilesOf(old(disk.files), id), HeldOf(id), DeniedFor(env, id));
      }
      forall id
        ensures FilesOf(files, id) == AfterRetriedRemoval(FilesOf(old(disk.files), id), id, old(pendingRemovals), round)
        ensures SettlesNow(FilesOf(old(disk.files), id), id, old(pendingRemovals), waiting, round) <==>
                id in waiting && id !in pendingPromotions
      {
      }
      if settled > 0 {
        ghost var id :| id in waiting && id !in pendingPromotions;
        assert SettlesNow(FilesOf(old(disk.files), id), id, old(pendingRemovals), waiting, round);
      }
    }

    /** The work of one retry: removals, promotions, and publishing when a promotion was settled. */
    method RetryWork(env: Env) returns (progressed: bool)
      requires Core() && Published()
      modifies this`entries, this`snapshot, this`pendingPromotions, this`pendingRemovals, this`savedRemovals,
        this`retryActive, this`stale, disk
      ensures Core() && Published() && pendingRemovals <= old(pendingRemovals)
      ensures progressed <==>
        (|| pendingRemovals != old(pendingRemovals)
         || SettlesSome(old(disk.files), old(pendingRemovals), old(pendingPromotions), old(RoundOf(env, None))))
      ensures savedRemovals == if pendingRemovals != old(pendingRemovals) then pendingRemovals else old(savedRemovals)
      ensures forall id :: id in old(pendingRemovals) ==>
        (id in pendingRemovals <==> id in runningImports || FilesOf(disk.files, id) != NO_FILES)
      ensures forall id :: RetriedAs(FilesOf(old(disk.files), id), FilesOf(disk.files, id), id, old(pendingRemovals),
                                     old(pendingPromotions), old(RoundOf(env, None)))
    {
      hide EntriesOk, ReadersOk, FilesOk, FloorOk, JobsOk, CountsOk, Handles, Numbered, OpenedUpTo, HeldFor,
           AliveStores, AfterRetry, SettlesSome, AfterPromotion;
      ghost var removals, promotions, round := pendingRemovals, pendingPromotions, RoundOf(env, None);
      forall id
        ensures SidecarAgrees(FilesOf(disk.files, id))
      {
        DatedOnDisk(disk.files, nextGen, id);
      }
      var removed, settled := RetryFiles(env);
      progressed := removed || settled > 0;
      ghost var before, files, wasStale := entries, disk.files, stale;
      if settled > 0 {
        Republish(env);
        OpenedShape(before, entries, files, disk.files, wasStale, stale, round);
      }
      forall id
        ensures RetriedAs(FilesOf(old(disk.files), id), FilesOf(disk.files, id), id, removals, promotions, round)
        ensures id in removals ==> FilesOf(disk.files, id) == FilesOf(files, id)
      {
        if settled > 0 {
          OpenedFiles(before, entries, files, disk.files, wasStale, stale, round, id);
        }
        PublishedAfterRetry(FilesOf(old(disk.files), id), FilesOf(files, id), FilesOf(disk.files, id), id, removals,
                            promotions, round);
      }
    }

    /** retryPending(), when the single-shot timer fires or load() asks for it: the files of every recorded
        removal without a running import are deleted as far as they are not open, the staged files that
        waited are promoted as far as they can be, and a retry without progress doubles the delay up to
        four seconds. */
    method RetryPending(env: Env)
      requires Core() && Published()
      modifies this`entries, this`snapshot, this`pendingPromotions, this`pendingRemovals, this`savedRemovals,
        this`retryActive, this`retryDelayMs, this`stale, disk
      ensures Valid() && pendingRemovals <= old(pendingRemovals)
      ensures forall id :: id in old(pendingRemovals) && id !in runningImports ==>
        && FilesOf(disk.files, id) == AfterRemoval(FilesOf(old(disk.files), id), old(HeldOf(id)))
        && (id in pendingRemovals <==> FilesOf(disk.files, id) != NO_FILES)
      ensures forall id :: id in old(pendingPromotions) - old(pendingRemovals) && id !in runningImports ==>
        FilesOf(disk.files, id) == AfterPromotion(FilesOf(old(disk.files), id), old(HeldOf(id)), DeniedFor(env, id))
      ensures forall id :: id in runningImports ==> FilesOf(disk.files, id) == FilesOf(old(disk.files), id)
      ensures forall id :: id in old(pendingRemovals) && id in runningImports ==> id in pendingRemovals
      ensures forall id :: id !in old(pendingRemovals) ==>
        Newest(FilesOf(disk.files, id)) == Newest(FilesOf(old(disk.files), id))
      ensures savedRemovals == if pendingRemovals != old(pendingRemovals) then pendingRemovals else old(savedRemovals)
      ensures var progressed :=
          (|| pendingRemovals != old(pendingRemovals)
           || SettlesSome(old(disk.files), old(pendingRemovals), old(pendingPromotions), old(RoundOf(env, None))));
        retryDelayMs == if progressed || (pendingRemovals == {} && pendingPromotions == {}) then 250
                        else Min(2 * old(retryDelayMs), 4000)
    {
      hide EntriesOk, ReadersOk, FilesOk, FloorOk, JobsOk, CountsOk, Handles, Numbered, HeldFor, AliveStores,
           SettlesSome, AfterRemoval, AfterPromotion;
      retryActive := false;
      var progressed := RetryWork(env);
      if pendingRemovals == {} && pendingPromotions == {} {
        retryDelayMs := RETRY_MS;
        return;
      }
      retryDelayMs := if progressed then RETRY_MS else Min(retryDelayMs * 2, RETRY_MAX_MS);
      SchedulePendingRetry();
    }

    // ------------------------------------------------------------ imports

    /** createImportJob() for a listed entry. */
    method CreateImportJob(id: Id, hasSource: bool, j: nat) returns (created: bool)
      requires Valid() && j !in jobs
      modifies this`runningImports, this`jobs
      ensures Valid()
      ensures created <==> hasSource && exists e :: e in entries && e.id == id
      ensures created ==> id in runningImports && jobs == old(jobs)[j := Job(id, Importing)]
      ensures !created ==> jobs == old(jobs) && runningImports == old(runningImports)
    {
      hide EntriesOk, ReadersOk, FilesOk, FloorOk, JobsOk, CountsOk, Handles, Numbered, HeldFor, AliveStores;
      if !hasSource || !(exists e :: e in entries && e.id == id) {
        return false;
      }
      CountAfterStart(jobs, runningImports, j, id);
      JobsAfterStart(jobs, disk.files, pendingRemovals, lost, j, id);
      runningImports := runningImports[id := if id in runningImports then runningImports[id] + 1 else 1];
      jobs := jobs[j := Job(id, Importing)];
      created := true;
    }

    /** Import thread: the import of job j ends, with StoreWriter::finish() when it got that far. */
    method EndImport(j: nat, succeeded: bool, dbDenied: bool, stageDenied: bool, keysDenied: bool)
      requires Valid() && j in jobs && jobs[j].phase == Importing
      modifies this`jobs, this`nextGen, disk
      ensures Valid()
      ensures j in jobs && jobs == old(jobs)[j := jobs[j]] && jobs[j].id == old(jobs)[j].id
      ensures jobs[j].phase == ImportFailed || (succeeded && jobs[j].phase == ImportedOk(old(nextGen)))
      ensures jobs[j].phase.ImportedOk? <==>
        succeeded && !dbDenied && !(stageDenied && HeldOf(jobs[j].id).db && old(disk.Of(jobs[j].id)).db.Some?)
      ensures jobs[j].phase == ImportFailed ==> disk.Of(jobs[j].id) == old(disk.Of(jobs[j].id))
      ensures jobs[j].phase.ImportedOk? ==>
        Finished(old(disk.Of(jobs[j].id)), HeldOf(jobs[j].id), old(nextGen), dbDenied, stageDenied, keysDenied)
        == Some(disk.Of(jobs[j].id))
      ensures jobs[j].phase.ImportedOk? ==> Newest(disk.Of(jobs[j].id)) == Some(old(nextGen))
      ensures forall id :: id != jobs[j].id ==> FilesOf(disk.files, id) == FilesOf(old(disk.files), id)
    {
      hide EntriesOk, ReadersOk, CountsOk, Handles, HeldFor, Finished, AliveStores;
      FinishFails(disk.Of(jobs[j].id), HeldOf(jobs[j].id), nextGen, dbDenied, stageDenied, keysDenied);
      var id := jobs[j].id;
      if succeeded {
        FinishIsSafe(disk.files, nextGen, id, HeldOf(id), dbDenied, stageDenied, keysDenied, entries, jobs, j,
                     pendingRemovals, floor, stale, hollow, lost);
        CountAfterPhase(jobs, runningImports, j, ImportedOk(nextGen));
        CountAfterPhase(jobs, runningImports, j, ImportFailed);
        var ok := disk.FinishStore(id, HeldOf(id), nextGen, dbDenied, stageDenied, keysDenied);
        jobs := jobs[j := Job(id, if ok then ImportedOk(nextGen) else ImportFailed)];
        if ok {
          nextGen := nextGen + 1;
        }
      } else {
        CountAfterPhase(jobs, runningImports, j, ImportFailed);
        jobs := jobs[j := Job(id, ImportFailed)];
      }
    }

    method CountOut(id: Id)
      requires id in runningImports && runningImports[id] >= 1
      modifies this`runningImports
      ensures runningImports == CountedOut(old(runningImports), id)
    {
      if runningImports[id] == 1 {
        runningImports := runningImports - {id};
      } else {
        runningImports := runningImports[id := runningImports[id] - 1];
      }
    }

    /** The finish handler of createImportJob(): counts the job out, and drops a pending removal the
        new store would fall to. A killed job reports an error even when its thread had finished. */
    method JobFinished(j: nat, killed: bool)
      requires Valid() && j in jobs && Unreported(jobs[j].phase)
      modifies this`runningImports, this`jobs, this`pendingRemovals, this`savedRemovals, this`retryActive
      ensures Valid()
      ensures j in jobs && jobs == old(jobs)[j := jobs[j]] && jobs[j].id == old(jobs)[j].id
      ensures !killed && old(jobs)[j].phase.ImportedOk? ==>
        jobs[j].phase == Reported(old(jobs)[j].phase.gen) && pendingRemovals == old(pendingRemovals) - {jobs[j].id}
      ensures killed || !old(jobs)[j].phase.ImportedOk? ==>
        jobs[j].phase == Closed && pendingRemovals == old(pendingRemovals)
    {
      hide EntriesOk, ReadersOk, FilesOk, Handles, Numbered, FloorOk, JobsOk, CountsOk, UnreportedJobs, HeldFor,
            AliveStores;
      var id := jobs[j].id;
      var succeeded := !killed && jobs[j].phase.ImportedOk?;
      var phase := if succeeded then Reported(jobs[j].phase.gen) else Closed;
      ReportKeeps(disk.files, entries, jobs, runningImports, pendingRemovals, floor, stale, hollow, lost, j, phase);
      if succeeded && id in pendingRemovals {
        pendingRemovals := pendingRemovals - {id};
        savedRemovals := pendingRemovals;
      }
      assert pendingRemovals == if phase.Reported? then old(pendingRemovals) - {id} else old(pendingRemovals);
      CountOut(id);
      jobs := jobs[j := Job(id, phase)];
      if pendingRemovals != {} || id in pendingPromotions {
        SchedulePendingRetry();
      }
    }

    /** adoptPendingRemovals(): takes over the removals a previous process recorded, except of an id
        whose listed entry holds an import, and retries them. */
    method AdoptPendingRemovals(recorded: set<Id>, env: Env)
      requires Valid() && jobs == map[] && floor == map[]
      modifies this`entries, this`snapshot, this`pendingPromotions, this`pendingRemovals, this`savedRemovals,
        this`retryActive, this`retryDelayMs, this`stale, disk
      ensures Valid() && savedRemovals == pendingRemovals
      ensures forall id :: id in recorded && !(exists e :: e in old(entries) && e.id == id && e.imported) ==>
        && FilesOf(disk.files, id) == AfterRemoval(FilesOf(old(disk.files), id), old(HeldOf(id)))
        && (id in pendingRemovals <==> FilesOf(disk.files, id) != NO_FILES)
      ensures forall e :: e in old(entries) && e.imported && e.id !in old(pendingRemovals) ==>
        Newest(FilesOf(disk.files, e.id)) == Newest(FilesOf(old(disk.files), e.id))
    {
      hide EntriesOk, ReadersOk, FilesOk, FloorOk, JobsOk, CountsOk, Handles, Numbered, HeldFor, AliveStores,
           AfterRemoval, AfterPromotion, SettlesSome;
      NothingRuns(jobs, runningImports);
      AdoptKeeps(disk.files, entries, pendingRemovals, recorded, stale, hollow, lost);
      pendingRemovals := pendingRemovals +
        set id | id in recorded && !(exists e :: e in entries && e.id == id && e.imported);
      RetryPending(env);
      savedRemovals := pendingRemovals;
    }

    /** Opens and publishes after a change to the list, which keeps its numbering. */
    method Republish(env: Env)
      requires Core() && Numbered(entries)
      modifies this`entries, this`pendingPromotions, this`retryActive, this`stale, this`snapshot, disk
      ensures Core() && Published()
      ensures OpenedUpTo(old(entries), entries, old(disk.files), disk.files, old(stale), stale, old(RoundOf(env, None)),
                         |entries|)
      ensures old(Scheduled()) ==> Scheduled()
    {
      hide EntriesOk, ReadersOk, FilesOk, FloorOk, JobsOk, CountsOk, Handles, OpenedUpTo, HeldFor, AliveStores;
      ghost var before, files, wasStale, round := entries, disk.files, stale, RoundOf(env, None);
      PublishSnapshot(env);
      OpenedShape(before, entries, files, disk.files, wasStale, stale, round);
      SamePriorities(before, entries);
    }

    /** store(): opens one entry, a disabled one too, and publishes. */
    method RequestStore(i: nat, env: Env) returns (isOpen: bool)
      requires Core() && Numbered(entries) && i < |entries|
      modifies this`entries, this`pendingPromotions, this`retryActive, this`stale, this`snapshot, disk
      ensures Core() && Published() && |entries| == |old(entries)|
      ensures OpenedUpTo(old(entries), entries, old(disk.files), disk.files, old(stale), stale,
                         old(RoundOf(env, Some(i))), |entries|)
      ensures isOpen <==> entries[i].store.Some?
      ensures old(Scheduled()) ==> Scheduled()
    {
      hide EntriesOk, ReadersOk, FilesOk, FloorOk, JobsOk, CountsOk, Handles, OpenedUpTo, EntryOpened, Numbered,
           HeldFor, DistinctIds, RoundAt, AliveStores, SameHeld;
      ghost var before, filesBefore, wasStale, first := entries, disk.files, stale, RoundOf(env, Some(i));
      ListedOnce(entries);
      HeldIsTogether(locks, first.alive, entries[i].id);
      isOpen := OpenStore(i, env);
      ghost var mid, filesMid, midStale, second := entries, disk.files, stale, RoundOf(env, None);
      ListedOnce(entries);
      OpenedAsAsked(before[i], mid[i], FilesOf(filesBefore, before[i].id), FilesOf(filesMid, before[i].id),
                    before[i].id in wasStale, before[i].id in midStale,
                    HeldFor(locks, first.alive, before[i].id), first);
      HeldByRest(before, mid, i, snapshot, lookups, first, second);
      NumberedUpdate(before, i, mid[i]);
      Republish(env);
      OpenedAgain(before, mid, entries, filesBefore, filesMid, disk.files, wasStale, midStale, stale, first, second, i);
      OpenStays(mid, entries, filesMid, disk.files, midStale, stale, second, i);
      if mid[i].store.None? {
        StillClosed(mid, entries, filesBefore, filesMid, disk.files, wasStale, midStale, stale, before[i], first,
                    second, i);
      }
    }

    /** The first half of applyImportResult(): the entry's old store is dropped and it is marked as
        imported. */
    method AdoptImport(i: nat, j: nat)
      requires Core() && Numbered(entries) && j in jobs && jobs[j].phase.Reported?
      requires i < |entries| && entries[i].id == jobs[j].id
      modifies this`entries, this`jobs, this`floor, this`stale, this`hollow
      ensures Core() && Numbered(entries) && entries == old(entries)[i := MarkedImported(old(entries)[i])]
      ensures var id, g := old(jobs)[j].id, old(jobs)[j].phase.gen;
        && floor == Raised(old(floor), id, g, j in lost) && jobs == old(jobs)[j := Job(id, Closed)]
        && HeldOf(id) == old(HeldByOthers(id))
        && (j !in lost ==> NewestAtLeast(disk.Of(id), g) && Dated(disk.Of(id), nextGen))
    {
      hide ReadersOk, FilesOk, CountsOk, Handles, EntriesOk, FloorOk, JobsOk, Numbered, HeldFor, AliveStores,
           DistinctIds, Raised;
      var id, g := jobs[j].id, jobs[j].phase.gen;
      if j !in lost {
        ReportedIsNewest(jobs, disk.files, pendingRemovals, lost, j);
        DatedOnDisk(disk.files, nextGen, id);
      }
      ApplyKeeps(disk.files, entries, jobs, runningImports, pendingRemovals, floor, stale, hollow, lost, i, j);
      NumberedUpdate(entries, i, MarkedImported(entries[i]));
      hollow := if j in lost && id !in floor then hollow + {id} else hollow - {id};
      floor, stale := Raised(floor, id, g, j in lost), stale - {id};
      entries := entries[i := entries[i].(imported := true, needsReimport := false, storeUnavailable := false,
                                          store := None)];
      jobs := jobs[j := Job(id, Closed)];
      OthersHold(i);
    }

    /** applyImportResult(): the entry's old store is dropped and what the import left is opened. The
        dictionary is published exactly when it is enabled and its store can be opened, given the files and
        their readers before the call; and what is published is older than the import exactly when it is
        superseded and its replacement is denied. While the import waits to be promoted nothing is
        published. */
    method ApplyImportResult(j: nat, env: Env) returns (applied: bool)
      requires Valid() && j in jobs
      modifies this`entries, this`snapshot, this`pendingPromotions, this`retryActive, this`jobs, this`floor, this`stale,
        this`hollow, disk
      ensures Valid()
      ensures applied <==> old(jobs)[j].phase.Reported? && exists e :: e in old(entries) && e.id == old(jobs)[j].id
      ensures applied ==>
        floor == Raised(old(floor), old(jobs)[j].id, old(jobs)[j].phase.gen, j in lost)
      ensures applied ==> forall e :: e in entries && e.id == old(jobs)[j].id ==> IsCurrent(e, disk.Of(e.id), env)
      ensures applied ==> var id := old(jobs)[j].id;
        (exists h :: h in snapshot && h.id == id) <==>
          IsEnabled(old(entries), id)
          && Openable(id, old(disk.Of(id)), old(HeldByOthers(id)), env, id in runningImports)
      ensures applied && j !in lost ==>
        var id, g, f := old(jobs)[j].id, old(jobs)[j].phase.gen, old(disk.Of(jobs[j].id));
        && NewestAtLeast(disk.Of(id), g)
        && ((exists h :: h in snapshot && h.id == id && h.store.db < g) <==>
              IsEnabled(old(entries), id) && OpensStale(id, f, old(HeldByOthers(id)), env, id in runningImports, g))
    {
      hide ReadersOk, FilesOk, CountsOk, Handles, OpenedUpTo, EntriesOk, FloorOk, JobsOk, Numbered, HeldFor, Raised,
           Openable, AliveStores, OpensStale, DistinctIds, IsEnabled;
      var id := jobs[j].id;
      if !jobs[j].phase.Reported? || !(exists e :: e in entries && e.id == id) {
        return false;
      }
      var i := FindEntry(id);
      EnabledAt(entries, i);
      ghost var g, f, held := jobs[j].phase.gen, disk.Of(id), HeldByOthers(id);
      HeldIsTogether(locks, AliveStores([], snapshot, lookups), id);
      AdoptImport(i, j);
      ghost var closed, files, wasStale, round := entries, disk.files, stale, RoundOf(env, Some(i));
      var _ := RequestStore(i, env);
      applied := true;
      OpenedNewest(closed, entries, files, disk.files, wasStale, stale, round, id);
      AppliedIsPublished(closed, entries, files, disk.files, wasStale, stale, round, i);
      OnlyEntry(entries, i);
      if j !in lost {
        OlderIsPublished(snapshot, closed[i].enabled, id, f, held, env, id in runningImports, nextGen, g);
      }
    }

    /** Once entry i is closed, only others hold the files of its id. */
    lemma OthersHold(i: nat)
      requires EntriesOk(entries) && i < |entries| && entries[i].store.None?
      ensures HeldOf(entries[i].id) == HeldByOthers(entries[i].id)
    {
      hide AliveStores, HeldFor;
      forall e | e in entries && e.store.Some?
        ensures e.store.value.id != entries[i].id
      {
        var k :| 0 <= k < |entries| && entries[k] == e;
      }
      HeldByReaders(locks, entries, snapshot, lookups, entries[i].id);
    }

    method FindEntry(id: Id) returns (i: nat)
      requires exists e :: e in entries && e.id == id
      ensures i < |entries| && entries[i].id == id
    {
      i := 0;
      while entries[i].id != id
        invariant i < |entries|
        invariant exists k :: i <= k < |entries| && entries[k].id == id
        decreases |entries| - i
      {
        i := i + 1;
      }
    }

    // ------------------------------------------------------------ the list

    /** renumber(): a stable sort by priority, then the loop that numbers the list. */
    method Renumber()
      requires Core()
      modifies this`entries
      ensures Core() && entries == Renumbered(old(entries)) && Numbered(entries)
    {
      hide ReadersOk, FilesOk, FloorOk, JobsOk, CountsOk, DistinctIds, HeldFor, AliveStores;
      ghost var before := entries;
      RenumberedList(entries);
      var numbered := Sort(ByPriority, entries);
      var sorted := numbered;
      for n := 0 to |numbered|
        invariant |numbered| == |sorted|
        invariant forall i :: 0 <= i < n ==> numbered[i] == sorted[i].(priority := i + 1)
        invariant forall i :: n <= i < |numbered| ==> numbered[i] == sorted[i]
      {
        numbered := numbered[n := numbered[n].(priority := n + 1)];
      }
      assert numbered == Number(sorted);
      RelistKeeps(disk.files, before, numbered, pendingRemovals, floor, stale, hollow);
      entries := numbered;
    }

    /** add(): an entry that claims an import has none of its own on disk while a removal of its id waits. */
    method Add(entry: Entry, env: Env)
      requires Valid() && entry.store.None? && forall e :: e in entries ==> e.id != entry.id
      modifies this`entries, this`snapshot, this`pendingPromotions, this`retryActive, this`stale, this`hollow, disk
      ensures Valid()
      ensures var added := if entry.priority == 0 then entry.(priority := |old(entries)| + 1) else entry;
        SameShape(Renumbered(old(entries) + [added]), entries)
    {
      hide ReadersOk, FilesOk, JobsOk, CountsOk, Handles, OpenedUpTo, HeldFor, AliveStores;
      var added := if entry.priority == 0 then entry.(priority := |entries| + 1) else entry;
      hide EntriesOk, FloorOk, Renumbered, Numbered;
      AddKeeps(disk.files, entries, added, pendingRemovals, floor, stale, hollow);
      entries := entries + [added];
      stale := stale - {added.id};
      hollow := if added.imported then hollow + {added.id} else hollow;
      Renumber();
      ghost var before, files, wasStale, round := entries, disk.files, stale, RoundOf(env, None);
      Republish(env);
      OpenedShape(before, entries, files, disk.files, wasStale, stale, round);
    }

    /** move(): takes the entry out, puts it back at the clamped index and numbers the list. */
    method Move(id: Id, index: int, env: Env) returns (moved: bool)
      requires Valid()
      modifies this`entries, this`snapshot, this`pendingPromotions, this`retryActive, this`stale, disk
      ensures Valid()
      ensures moved <==> exists e :: e in old(entries) && e.id == id
      ensures moved ==> exists from ::
        0 <= from < |old(entries)| && old(entries)[from].id == id
        && SameShape(MovedList(old(entries), from, Clamped(index, |old(entries)|)), entries)
      ensures !moved ==> entries == old(entries)
    {
      hide ReadersOk, FilesOk, FloorOk, JobsOk, CountsOk, Handles, OpenedUpTo, DistinctIds, HeldFor, AliveStores,
           Renumbered;
      if !(exists e :: e in entries && e.id == id) {
        return false;
      }
      var from := FindEntry(id);
      var target := if index < 0 then 0 else if index > |entries| - 1 then |entries| - 1 else index;
      var taken := entries[from];
      var list := entries[..from] + entries[from + 1..];
      list := list[..target] + [taken] + list[target..];
      MovedListValid(entries, from, target);
      RelistKeeps(disk.files, entries, Number(list), pendingRemovals, floor, stale, hollow);
      entries := Number(list);
      ghost var before, files, wasStale, round := entries, disk.files, stale, RoundOf(env, None);
      Republish(env);
      OpenedShape(before, entries, files, disk.files, wasStale, stale, round);
      moved := true;
    }

    /** The list half of sortDictionaries(): ranks every entry by its first matching rule, enables the
        recognized ones and renumbers. */
    method RankList(rules: SortRules)
      requires Core()
      modifies this`entries
      ensures Core() && Numbered(entries) && entries == RuleSorted(rules, old(entries))
    {
      hide ReadersOk, FilesOk, FloorOk, JobsOk, CountsOk, DistinctIds, Renumbered, HeldFor, AliveStores;
      ghost var before := entries;
      RankedList(rules, before);
      for n := 0 to |entries|
        invariant |entries| == |before|
        invariant forall i :: 0 <= i < n ==> entries[i] == Rank(rules, before[i])
        invariant forall i :: n <= i < |before| ==> entries[i] == before[i]
      {
        var rule := rules.first(entries[n].name);
        var enabled := entries[n].enabled || rule < rules.count;
        entries := entries[n := entries[n].(priority := rule, enabled := enabled)];
      }
      assert entries == Ranked(rules, before);
      RelistKeeps(disk.files, before, entries, pendingRemovals, floor, stale, hollow);
      Renumber();
    }

    /** sortDictionaries(): reports whether the order or an enabled state changed, and publishes only
        then. */
    method SortDictionaries(rules: SortRules, env: Env) returns (changed: bool)
      requires Valid()
      modifies this`entries, this`snapshot, this`pendingPromotions, this`retryActive, this`stale, disk
      ensures Valid()
      ensures |RuleSorted(rules, old(entries))| == |old(entries)|
      ensures changed <==> ListChanged(old(entries), RuleSorted(rules, old(entries)))
      ensures changed ==> SameShape(RuleSorted(rules, old(entries)), entries)
      ensures !changed ==> entries == RuleSorted(rules, old(entries)) == old(entries) && snapshot == old(snapshot)
    {
      hide ReadersOk, FilesOk, FloorOk, JobsOk, CountsOk, Handles, OpenedUpTo, DistinctIds, RuleSorted, ListChanged,
           HeldFor, AliveStores;
      var before := entries;
      RuleSortedList(rules, before);
      RankList(rules);
      changed := ListChanged(before, entries);
      if !changed {
        UnchangedSort(rules, before);
        return;
      }
      ghost var sorted, files, wasStale, round := entries, disk.files, stale, RoundOf(env, None);
      Republish(env);
      OpenedShape(sorted, entries, files, disk.files, wasStale, stale, round);
    }

    /** The file half of remove(): deletes the files of entry i, remembers the deletion that has to wait
        for an open file, and drops the entry, or its import when the entry is built in. */
    method DropEntry(i: nat)
      requires Core() && Scheduled() && i < |entries|
      modifies this`entries, this`pendingPromotions, this`pendingRemovals, this`savedRemovals, this`retryActive,
        this`floor, this`stale, this`lost, this`hollow, disk
      ensures Core() && Scheduled() && entries == Dropped(old(entries), i)
      ensures var id := old(entries)[i].id;
        && disk.files == old(disk.files)[id := AfterRemoval(old(disk.Of(id)), old(HeldByOthers(id)))]
        && (disk.Of(id) != NO_FILES ==> id in pendingRemovals && savedRemovals == pendingRemovals)
        && floor == old(floor) - {id} && stale == old(stale) - {id} && hollow == old(hollow) - {id}
        && lost == old(lost) + LosesJobs(jobs, id, old(disk.Of(id)), old(HeldByOthers(id)))
    {
      hide ReadersOk, FilesOk, EntriesOk, FloorOk, JobsOk, CountsOk, HeldFor, AfterRemoval, Dropped, AliveStores,
           LosesJobs, DistinctIds, LosesJob, IsSeed, SidecarAgrees;
      var id := entries[i].id;
      DroppedAfterReset(entries, i);
      ResetKeepsEntries(entries, i);
      entries := entries[i := entries[i].(store := None, storeUnavailable := false)];
      OthersHold(i);
      ghost var held := HeldOf(id);
      assert held == old(HeldByOthers(id));
      DropKeeps(disk.files, nextGen, held, old(entries), i, jobs, pendingRemovals, floor, stale, hollow, lost);
      lost := lost + LosesJobs(jobs, id, disk.Of(id), held);
      DeleteFiles(id);
      pendingPromotions := pendingPromotions - {id};
      entries := Dropped(entries, i);
      floor, stale, hollow := floor - {id}, stale - {id}, hollow - {id};
    }

    /** Deletes the files of id, and remembers and schedules the deletion when it has to wait. */
    method DeleteFiles(id: Id)
      requires Scheduled()
      modifies this`pendingRemovals, this`savedRemovals, this`retryActive, disk
      ensures disk.files == old(disk.files)[id := AfterRemoval(old(disk.Of(id)), HeldOf(id))]
      ensures pendingRemovals == old(pendingRemovals) || pendingRemovals == old(pendingRemovals) + {id}
      ensures disk.Of(id) != NO_FILES ==> id in pendingRemovals && savedRemovals == pendingRemovals
      ensures Scheduled()
    {
      hide HeldFor, AfterRemoval;
      NothingDenied(disk.Of(id), HeldOf(id));
      var result := disk.RemoveStoreFiles(id, HeldOf(id), NEVER);
      if result == RemovalPending {
        pendingRemovals := pendingRemovals + {id};
        savedRemovals := pendingRemovals;
        SchedulePendingRetry();
      }
    }

    /** remove(). Besides the entry's own import it costs exactly the finished imports that wait to be
        applied, unless a job is not reported yet and the open database is as new as its import; an import
        that still runs loses nothing. */
    method Remove(id: Id, env: Env) returns (removed: bool)
      requires Valid()
      modifies this`entries, this`snapshot, this`pendingPromotions, this`pendingRemovals, this`savedRemovals,
        this`retryActive, this`floor, this`stale, this`lost, this`hollow, disk
      ensures Valid()
      ensures removed <==> exists e :: e in old(entries) && e.id == id
      ensures removed ==> exists i ::
        0 <= i < |old(entries)| && old(entries)[i].id == id && SameShape(Renumbered(Dropped(old(entries), i)), entries)
      ensures forall e :: e in entries && e.id == id ==> removed && e.builtIn && IsSeed(e)
      ensures IsBuiltIn(old(entries), id) ==> Listed(entries, id)
      ensures forall other :: other != id ==> (Listed(entries, other) <==> Listed(old(entries), other))
      ensures removed && Newest(disk.Of(id)).Some? ==> id in pendingRemovals && id in savedRemovals
      ensures removed ==> floor == old(floor) - {id}
      ensures removed ==> lost == old(lost) + LosesJobs(jobs, id, old(disk.Of(id)), old(HeldByOthers(id)))
      ensures !removed ==> entries == old(entries) && lost == old(lost) && floor == old(floor)
    {
      hide ReadersOk, FilesOk, EntriesOk, FloorOk, JobsOk, CountsOk, Handles, Renumbered, Dropped, OpenedUpTo,
           HeldFor, LosesJobs, AliveStores;
      if !(exists e :: e in entries && e.id == id) {
        return false;
      }
      var i := FindEntry(id);
      DropEntry(i);
      ListedOnce(entries);
      Renumber();
      ghost var before, files, wasStale, round := entries, disk.files, stale, RoundOf(env, None);
      Republish(env);
      OpenedShape(before, entries, files, disk.files, wasStale, stale, round);
      RemovedIds(old(entries), i, entries, files, disk.files, wasStale, stale, round);
      BuiltInAt(old(entries), i);
      removed := true;
    }

    /** Replaces entry i by itself with other settings, perhaps without its store, and publishes. */
    method Restate(i: nat, entry: Entry, env: Env)
      requires Valid() && i < |entries| && entry.id == entries[i].id && entry.imported == entries[i].imported
      requires entry.priority == entries[i].priority && (entry.store == entries[i].store || entry.store.None?)
      modifies this`entries, this`snapshot, this`pendingPromotions, this`retryActive, this`stale, disk
      ensures Valid() && SameShape(old(entries)[i := entry], entries)
      ensures OpenedUpTo(old(entries)[i := entry], entries, old(disk.files), disk.files,
                         if entry.store.None? then old(stale) - {entry.id} else old(stale), stale,
                         Round(locks, AliveStores(old(entries)[i := entry], old(snapshot), lookups), runningImports,
                               env, None), |entries|)
    {
      hide EntriesOk, ReadersOk, FilesOk, FloorOk, JobsOk, CountsOk, Numbered, OpenedUpTo, Handles, HeldFor,
           AliveStores;
      RestateKeeps(disk.files, entries, pendingRemovals, floor, stale, hollow, i, entry);
      NumberedUpdate(entries, i, entry);
      stale := if entry.store.None? then stale - {entry.id} else stale;
      entries := entries[i := entry];
      ghost var before, files, wasStale, round := entries, disk.files, stale, RoundOf(env, None);
      Republish(env);
      OpenedShape(before, entries, files, disk.files, wasStale, stale, round);
    }

    /** setEnabled(): a disabled entry lets go of its store. */
    method SetEnabled(id: Id, on: bool, env: Env) returns (found: bool)
      requires Valid()
      modifies this`entries, this`snapshot, this`pendingPromotions, this`retryActive, this`stale, disk
      ensures Valid()
      ensures found <==> exists e :: e in old(entries) && e.id == id
      ensures found ==> exists i ::
        0 <= i < |old(entries)| && old(entries)[i].id == id
        && SameShape(old(entries)[i := old(entries)[i].(enabled := on)], entries)
      ensures !found ==> entries == old(entries) && snapshot == old(snapshot)
      ensures found && !on ==> forall h :: h in snapshot ==> h.id != id
      ensures |entries| == |old(entries)|
      ensures on ==> forall i :: 0 <= i < |entries| && entries[i].id == id && !old(entries)[i].enabled ==>
        if old(entries)[i].store.Some? then entries[i] == old(entries)[i].(enabled := true)
        else ReopenedAt(old(entries)[i].(enabled := true), entries[i], old(disk.Of(id)), disk.Of(id), id in stale,
                        old(HeldOf(id)), env, id in runningImports)
    {
      hide EntriesOk, ReadersOk, FilesOk, FloorOk, JobsOk, CountsOk, Numbered, OpenedUpTo, Handles, HeldFor,
           AliveStores, ReopenedAt;
      if !(exists e :: e in entries && e.id == id) {
        return false;
      }
      found := true;
      var i := FindEntry(id);
      ListedOnce(entries);
      if entries[i].enabled != on {
        ghost var before, files :=
          entries[i := entries[i].(enabled := on, store := if on then entries[i].store else None)], disk.files;
        ghost var wasStale := if before[i].store.None? then stale - {id} else stale;
        ghost var round := Round(locks, AliveStores(before, snapshot, lookups), runningImports, env, None);
        Restate(i, entries[i].(enabled := on, store := if on then entries[i].store else None), env);
        if on {
          RelabelHeld(locks, old(entries), i, before[i], old(snapshot), lookups);
          if before[i].store.None? {
            Reopened(before, entries, files, disk.files, wasStale, stale, round, i);
          } else {
            OpenStays(before, entries, files, disk.files, wasStale, stale, round, i);
          }
        }
      }
      ListedOnce(entries);
      DisabledIsUnpublished(entries, i);
    }

    /** closeStore(): lets go of the store, and publishing opens it again when it can; it is stale again
        exactly when its replacement is still denied. */
    method CloseStore(id: Id, env: Env)
      requires Valid()
      modifies this`entries, this`snapshot, this`pendingPromotions, this`retryActive, this`stale, disk
      ensures Valid() && SameShape(old(entries), entries)
      ensures forall i :: 0 <= i < |entries| && entries[i].id == id ==>
        ReopenedAt(Reset(old(entries)[i]), entries[i], old(disk.Of(id)), disk.Of(id), id in stale,
                   old(HeldByOthers(id)), env, id in runningImports)
        && (entries[i].store.Some? <==>
              old(entries)[i].enabled && !old(entries)[i].needsReimport && old(entries)[i].imported
              && Openable(id, old(disk.Of(id)), old(HeldByOthers(id)), env, id in runningImports))
    {
      hide EntriesOk, ReadersOk, FilesOk, FloorOk, JobsOk, CountsOk, Numbered, OpenedUpTo, Handles, HeldFor,
           AliveStores, ReopenedAt, Openable;
      if exists e :: e in entries && e.id == id {
        var i := FindEntry(id);
        ghost var closed := entries[i := Reset(entries[i])];
        ghost var files, wasStale, round :=
          disk.files, stale - {id}, Round(locks, AliveStores(closed, snapshot, lookups), runningImports, env, None);
        ClosedIsHeldByReaders(locks, entries, i, snapshot, lookups);
        Restate(i, entries[i].(store := None, storeUnavailable := false), env);
        Reopened(closed, entries, files, disk.files, wasStale, stale, round, i);
        OpensWhenItCan(closed[i], entries[i], FilesOf(files, id), disk.Of(id), id in stale,
                       HeldFor(locks, round.alive, id), env, id in runningImports);
        ListedOnce(entries);
      } else {
        ghost var files, wasStale, round := disk.files, stale, RoundOf(env, None);
        Republish(env);
        OpenedShape(old(entries), entries, files, disk.files, wasStale, stale, round);
      }
    }

    /** setOptions(): options that change what an import writes make the entry wait for one. Its open
        store stays, unpublished. */
    method SetOptions(id: Id, reimport: bool, env: Env) returns (found: bool)
      requires Valid()
      modifies this`entries, this`snapshot, this`pendingPromotions, this`retryActive, this`stale, disk
      ensures Valid()
      ensures found <==> exists e :: e in old(entries) && e.id == id
      ensures |entries| == |old(entries)| && (found ==> SameShape(old(entries), entries))
      ensures forall i :: 0 <= i < |entries| && entries[i].id == id ==>
        if reimport then entries[i] == old(entries)[i].(needsReimport := true)
        else if old(entries)[i].store.Some? then entries[i] == old(entries)[i]
        else ReopenedAt(old(entries)[i], entries[i], old(disk.Of(id)), disk.Of(id), id in stale, old(HeldOf(id)), env,
                        id in runningImports)
      ensures found && reimport ==> forall h :: h in snapshot ==> h.id != id
      ensures !found ==> entries == old(entries) && snapshot == old(snapshot)
    {
      hide EntriesOk, ReadersOk, FilesOk, FloorOk, JobsOk, CountsOk, Numbered, OpenedUpTo, Handles, HeldFor,
           AliveStores, ReopenedAt;
      if !(exists e :: e in entries && e.id == id) {
        return false;
      }
      found := true;
      var i := FindEntry(id);
      RestateOptions(i, reimport, env);
      ListedOnce(entries);
    }

    /** Lets the options of entry i ask for a new import, or not, and publishes. */
    method RestateOptions(i: nat, reimport: bool, env: Env)
      requires Valid() && i < |entries|
      modifies this`entries, this`snapshot, this`pendingPromotions, this`retryActive, this`stale, disk
      ensures Valid() && SameShape(old(entries), entries)
      ensures var id := old(entries)[i].id;
        if reimport then
          entries[i] == old(entries)[i].(needsReimport := true) && forall h :: h in snapshot ==> h.id != id
        else if old(entries)[i].store.Some? then entries[i] == old(entries)[i]
        else ReopenedAt(old(entries)[i], entries[i], old(disk.Of(id)), disk.Of(id), id in stale, old(HeldOf(id)), env,
                        id in runningImports)
    {
      hide EntriesOk, ReadersOk, FilesOk, FloorOk, JobsOk, CountsOk, Numbered, OpenedUpTo, Handles, HeldFor,
           AliveStores, ReopenedAt;
      ghost var entry := entries[i].(needsReimport := entries[i].needsReimport || reimport);
      ghost var before, files := entries[i := entry], disk.files;
      ghost var wasStale := if entry.store.None? then stale - {entry.id} else stale;
      ghost var round := Round(locks, AliveStores(before, snapshot, lookups), runningImports, env, None);
      RelabelHeld(locks, entries, i, entry, snapshot, lookups);
      Restate(i, entries[i].(needsReimport := entries[i].needsReimport || reimport), env);
      if reimport {
        OutdatedIsUnpublished(before, entries, files, disk.files, wasStale, stale, round, i);
      } else if entry.store.Some? {
        OpenStays(before, entries, files, disk.files, wasStale, stale, round, i);
      } else {
        Reopened(before, entries, files, disk.files, wasStale, stale, round, i);
      }
    }

    /** setSourcePath(): a new source gives a store that could not be opened another chance. */
    method SetSourcePath(id: Id, env: Env) returns (found: bool)
      requires Valid()
      modifies this`entries, this`snapshot, this`pendingPromotions, this`retryActive, this`stale, disk
      ensures Valid()
      ensures found <==> exists e :: e in old(entries) && e.id == id
      ensures SameShape(old(entries), entries)
      ensures forall i :: 0 <= i < |entries| && entries[i].id == id && old(entries)[i].store.None? ==>
        ReopenedAt(old(entries)[i].(storeUnavailable := false), entries[i], old(disk.Of(id)), disk.Of(id), id in stale,
                   old(HeldOf(id)), env, id in runningImports)
      ensures !found ==> entries == old(entries) && snapshot == old(snapshot)
    {
      hide EntriesOk, ReadersOk, FilesOk, FloorOk, JobsOk, CountsOk, Numbered, OpenedUpTo, Handles, HeldFor,
           AliveStores, ReopenedAt;
      if !(exists e :: e in entries && e.id == id) {
        return false;
      }
      found := true;
      var i := FindEntry(id);
      ghost var before, files := entries[i := entries[i].(storeUnavailable := false)], disk.files;
      ghost var wasStale := if entries[i].store.None? then stale - {id} else stale;
      ghost var round := Round(locks, AliveStores(before, snapshot, lookups), runningImports, env, None);
      RelabelHeld(locks, entries, i, before[i], snapshot, lookups);
      Restate(i, entries[i].(storeUnavailable := false), env);
      ListedOnce(entries);
      if before[i].store.None? {
        Reopened(before, entries, files, disk.files, wasStale, stale, round, i);
      }
    }

    /** rename(): refuses an empty name. */
    method Rename(id: Id, name: string, env: Env) returns (renamed: bool)
      requires Valid()
      modifies this`entries, this`snapshot, this`pendingPromotions, this`retryActive, this`stale, disk
      ensures Valid()
      ensures renamed <==> name != "" && exists e :: e in old(entries) && e.id == id
      ensures renamed ==> exists i ::
        0 <= i < |old(entries)| && old(entries)[i].id == id
        && SameShape(old(entries)[i := old(entries)[i].(name := name)], entries)
      ensures !renamed ==> entries == old(entries) && snapshot == old(snapshot)
    {
      hide EntriesOk, ReadersOk, FilesOk, FloorOk, JobsOk, CountsOk, Numbered, OpenedUpTo, Handles, HeldFor,
           AliveStores;
      if name == "" || !(exists e :: e in entries && e.id == id) {
        return false;
      }
      renamed := true;
      var i := FindEntry(id);
      Restate(i, entries[i].(name := name), env);
    }

    // ------------------------------------------------------------ lookup threads

    /** Lookup thread: takes the published stores, which it may hold as long as it likes. */
    method TakeSnapshot()
      requires Valid()
      modifies this`lookups
      ensures Valid()
      ensures lookups == old(lookups) + set h | h in snapshot :: h.store
    {
      lookups := lookups + set h | h in snapshot :: h.store;
    }

    /** Lookup thread: drops a store, which closes it when nothing else holds it. */
    method ReleaseStore(store: Store)
      requires Valid()
      modifies this`lookups
      ensures Valid() && lookups == old(lookups) - {store}
    {
      lookups := lookups - {store};
    }

    // ------------------------------------------------------------ what the invariant says

    /** Whatever has happened: the published list is in priority order; the last applied import of an id,
        or a newer one, is on disk and waits for no removal; no published store is older than it, except one
        that was opened while its replacement was staged and denied; every store in use consults a key filter
        of its own database, and the same holds for what is on disk. */
    lemma PublishedAreFresh()
      requires Valid()
      ensures forall i, j :: 0 <= i < j < |snapshot| ==> snapshot[i].priority < snapshot[j].priority
      ensures forall h :: h in snapshot && h.id in floor && h.id !in stale ==> h.store.db >= floor[h.id]
      ensures forall id :: id in floor ==> id !in pendingRemovals && NewestAtLeast(disk.Of(id), floor[id])
      ensures forall s :: s in AliveStores(entries, snapshot, lookups) ==> StoreOk(s)
      ensures forall id :: SidecarAgrees(disk.Of(id))
    {
      HandlesInPriorityOrder(entries);
      HandlesComeFromEntries(entries);
    }

    // ------------------------------------------------------------ runs

    /** One step of a run, when it is enabled. */
    method Perform(step: Step, env: Env)
      requires Valid()
      modifies this, disk
      ensures Valid()
    {
      hide Core, Published;
      match step {
        case RetryStep =>
          if retryActive {
            RetryAgain(env);
          }
        case CreateJobStep(id, hasSource, j) =>
          if j !in jobs {
            var _ := CreateImportJob(id, hasSource, j);
          }
        case EndImportStep(j, succeeded, dbDenied, stageDenied, keysDenied) =>
          if j in jobs && jobs[j].phase == Importing {
            EndImport(j, succeeded, dbDenied, stageDenied, keysDenied);
          }
        case JobFinishedStep(j, killed) =>
          if j in jobs && Unreported(jobs[j].phase) {
            JobFinished(j, killed);
          }
        case ApplyStep(j) =>
          if j in jobs {
            var _ := ApplyImportResult(j, env);
          }
        case AddStep(entry) =>
          if entry.store.None? && !(exists e :: e in entries && e.id == entry.id) {
            Add(entry, env);
          }
        case RemoveStep(id) => var _ := Remove(id, env);
        case MoveStep(id, index) => var _ := Move(id, index, env);
        case SortStep(rules) => var _ := SortDictionaries(rules, env);
        case SetEnabledStep(id, on) => var _ := SetEnabled(id, on, env);
        case CloseStep(id) => CloseStore(id, env);
        case SetOptionsStep(id, reimport) => var _ := SetOptions(id, reimport, env);
        case SetSourcePathStep(id) => var _ := SetSourcePath(id, env);
        case RenameStep(id, name) => var _ := Rename(id, name, env);
        case StoreStep(id) =>
          if exists e :: e in entries && e.id == id {
            RequestOf(id, env);
          }
        case TakeStep => TakeSnapshot();
        case ReleaseStep(store) => ReleaseStore(store);
      }
    }

    method RetryAgain(env: Env)
      requires Valid()
      modifies this, disk
      ensures Valid()
    {
      RetryPending(env);
    }

    method RequestOf(id: Id, env: Env)
      requires Valid() && exists e :: e in entries && e.id == id
      modifies this, disk
      ensures Valid()
    {
      hide EntriesOk, ReadersOk, FilesOk, FloorOk, JobsOk, CountsOk, Handles, Numbered, HeldFor, AliveStores;
      var i := FindEntry(id);
      var _ := RequestStore(i, env);
    }

    /** Every run of the manager, the import threads and the lookup threads keeps the invariant. */
    method Run(script: seq<(Step, Env)>)
      requires Valid()
      modifies this, disk
      ensures Valid()
    {
      hide Core, Published, Scheduled;
      for n := 0 to |script|
        invariant Valid()
      {
        Perform(script[n].0, script[n].1);
      }
    }
  }

  /** The steps of a run: those of the manager's thread, then those of import and lookup threads. */
  datatype Step =
    | RetryStep
    | CreateJobStep(id: Id, hasSource: bool, j: nat)
    | JobFinishedStep(j: nat, killed: bool)
    | ApplyStep(j: nat)
    | AddStep(entry: Entry)
    | RemoveStep(id: Id)
    | MoveStep(id: Id, index: int)
    | SortStep(rules: SortRules)
    | SetEnabledStep(id: Id, on: bool)
    | CloseStep(id: Id)
    | SetOptionsStep(id: Id, reimport: bool)
    | SetSourcePathStep(id: Id)
    | RenameStep(id: Id, name: string)
    | StoreStep(id: Id)
    | EndImportStep(j: nat, succeeded: bool, dbDenied: bool, stageDenied: bool, keysDenied: bool)
    | TakeStep
    | ReleaseStep(store: Store)


  const ONE_STORE := Files(Some(0), None, None, None)

  const ONE_DICTIONARY := Entry(0, "JMdict", false, true, false, true, false, None, 1)

  lemma OneListed()
    ensures Renumbered([ONE_DICTIONARY]) == [ONE_DICTIONARY]
    ensures DistinctIds([ONE_DICTIONARY]) && FilesOk(map[0 := ONE_STORE], 1)
  {
    var e := ONE_DICTIONARY;
    assert Sort(ByPriority, []) == [];
    assert [e][..0] == [];
    assert Sort(ByPriority, [e]) == Insert(ByPriority, [], e) == [e];
  }

  /** A manager whose one dictionary is open on generation 0. */
  method OneOpen(env: Env) returns (m: DictionaryManager)
    requires env.schema(0) == OpenOk
    ensures m.Valid() && fresh(m) && fresh(m.disk) && m.locks && m.disk.Of(0) == ONE_STORE
    ensures m.entries == [ONE_DICTIONARY.(store := Some(Store(0, 0, None)))]
    ensures m.jobs == map[] && m.lost == {} && m.runningImports == map[] && m.nextGen == 1
  {
    hide EntriesOk, ReadersOk, FilesOk, FloorOk, JobsOk, CountsOk, Handles, Numbered, OpenedUpTo, HeldFor, AliveStores,
         Renumbered, DistinctIds;
    OneListed();
    var disk := new StoreDirectory(map[0 := ONE_STORE]);
    m := new DictionaryManager(true, disk, 1, [ONE_DICTIONARY]);
    ghost var round := m.RoundOf(env, Some(0));
    HeldIsTogether(round.locks, round.alive, 0);
    PromotionOutcome(ONE_STORE, HeldFor(round.locks, round.alive, 0), DeniedFor(env, 0));
    ghost var before, files, wasStale := m.entries, disk.files, m.stale;
    var _ := m.RequestStore(0, env);
    OpenedAt(before, m.entries, files, disk.files, wasStale, m.stale, round, 0);
  }

  /** A manager whose one dictionary is open while a finished import is staged beside it. */
  method OneStaged(env: Env) returns (m: DictionaryManager)
    requires env.schema(0) == OpenOk
    ensures m.Valid() && fresh(m) && fresh(m.disk)
    ensures m.entries == [ONE_DICTIONARY.(store := Some(Store(0, 0, None)))]
    ensures m.disk.Of(0) == ONE_STORE.(stagedDb := Some(1), stagedKeys := Some(1))
    ensures m.jobs == map[0 := Job(0, Reported(1))] && m.lost == {} && 0 !in m.runningImports
  {
    hide EntriesOk, ReadersOk, FilesOk, FloorOk, JobsOk, CountsOk, Handles, Numbered, AliveStores, HeldFor;
    m := OneOpen(env);
    StoreIsHeld(m.entries, m.snapshot, m.lookups);
    assert m.entries[0] in m.entries;
    var _ := m.CreateImportJob(0, true, 0);
    m.EndImport(0, true, false, false, false);
    m.JobFinished(0, false);
    NothingRuns(m.jobs, m.runningImports);
  }

  /** The promise fails where it is said to: an import staged beside an open store, whose move into place
      is denied when it is applied, is marked as applied while the superseded store is published. */
  method PublishSuperseded() returns (m: DictionaryManager)
    ensures m.Valid() && 0 in m.floor && exists h :: h in m.snapshot && h.id == 0 && h.store.db < m.floor[0]
  {
    hide EntriesOk, ReadersOk, FilesOk, FloorOk, JobsOk, CountsOk, Handles, Numbered, AliveStores, HeldFor, Openable;
    m := OneStaged(Env((id, op) => false, g => OpenOk, g => true));
    assert m.entries[0] in m.entries;
    assert IsEnabled(m.entries, 0);
    var _ := m.ApplyImportResult(0, Env((id, op) => op == Move(StagedDb, Db), g => OpenOk, g => true));
  }

  lemma StoreIsHeld(entries: seq<Entry>, snapshot: seq<Handle>, lookups: set<Store>)
    requires entries == [ONE_DICTIONARY.(store := Some(Store(0, 0, None)))]
    ensures HeldFor(true, AliveStores(entries, snapshot, lookups), 0).db
  {
    assert entries[0] in entries;
    assert Store(0, 0, None) in AliveStores(entries, snapshot, lookups);
  }
}
