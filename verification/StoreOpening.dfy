/** What opening a dictionary's store does, exactly: whether it opens, on which generation, and what it
    leaves on disk (src/dict/dictionarymanager.cpp, src/dict/store.cpp). */
module StoreOpening {
  import opened Basics
  import opened StoreFiles
  import opened ManagerState

  // ---------------------------------------------------------------- one store

  /** The generation a store opened on these files reads, unless it has to wait. */
  function OpensOn(f: Files, denied: Denials): Option<Gen> {
    if Superseded(f, denied) then f.db else Newest(f)
  }

  /** Nothing is opened while staged files wait for a running import or for an open file. */
  predicate Waits(f: Files, held: Held, denied: Denials, isRunning: bool) {
    if isRunning then f.stagedDb.Some? || f.stagedKeys.Some? else PromotionResult(f, held, denied) == Pending
  }

  predicate Openable(id: Id, f: Files, held: Held, env: Env, isRunning: bool) {
    var opensOn := OpensOn(f, DeniedFor(env, id));
    !Waits(f, held, DeniedFor(env, id), isRunning) && opensOn.Some? && env.schema(opensOn.value) == OpenOk
  }

  predicate CanOpen(e: Entry, f: Files, held: Held, env: Env, isRunning: bool) {
    e.imported && !e.storeUnavailable && Openable(e.id, f, held, env, isRunning)
  }

  /** A promotion that does not have to wait leaves in place what a store then opens on, and leaves a
      staged database exactly when that is superseded. One that has to wait changes nothing by being
      tried again. */
  lemma PromotionOpens(f: Files, held: Held, denied: Denials)
    requires HeldTogether(held)
    ensures var g := AfterPromotion(f, held, denied);
      if PromotionResult(f, held, denied) == Pending then
        && g.db == f.db && g.stagedDb == f.stagedDb
        && PromotionResult(g, held, denied) == Pending && AfterPromotion(g, held, denied) == g
      else
        g.db == OpensOn(f, denied) && (g.stagedDb.Some? <==> Superseded(f, denied))
  {
    hide RunPlan, PlanResult;
    UnfoldPromotion(f, held, denied, 3);
    UnfoldPromotion(AfterPromotion(f, held, denied), held, denied, 3);
  }

  /** What the files, their readers and the environment must be like for an older database than
      generation g to be opened: a newer one is staged whose promotion is denied, and neither a running
      import nor an open key filter makes the open wait. */
  predicate OpensStale(id: Id, f: Files, held: Held, env: Env, isRunning: bool, g: Gen) {
    && Superseded(f, DeniedFor(env, id)) && f.db.Some? && f.db.value < g && env.schema(f.db.value) == OpenOk
    && !isRunning && (held.keys && f.keys.Some? ==> env.denied(id, Delete(Keys)))
  }

  /** A store is opened on a database older than generation g, which is on disk, exactly then. */
  lemma OpensStaleExactly(id: Id, f: Files, held: Held, env: Env, isRunning: bool, nextGen: Gen, g: Gen)
    requires HeldTogether(held) && Dated(f, nextGen) && NewestAtLeast(f, g)
    ensures (Openable(id, f, held, env, isRunning) && OpensOn(f, DeniedFor(env, id)).value < g)
       <==> OpensStale(id, f, held, env, isRunning, g)
  {
    hide RunPlan, PlanResult;
    UnfoldPromotion(f, held, DeniedFor(env, id), 3);
  }

  /** The store Store::open() makes of the files in place: one whose key filter cannot be read goes
      without. */
  function StoreAt(id: Id, f: Files, env: Env): Store
    requires f.db.Some?
  {
    Store(id, f.db.value, if f.keys.Some? && env.keysReadable(f.keys.value) then f.keys else None)
  }

  /** Opening changes the store of an entry and what opening it reported. */
  predicate SameButStore(a: Entry, b: Entry) {
    b == a.(needsReimport := b.needsReimport, storeUnavailable := b.storeUnavailable, store := b.store)
  }

  /** What openStore() makes of an entry and its files: an entry that is open, has no import or was
      reported unavailable is left alone; any other has its staged files promoted, unless an import runs,
      and then waits, is opened, or is reported unavailable. */
  ghost predicate EntryOpened(before: Entry, after: Entry, f: Files, g: Files, held: Held, env: Env, isRunning: bool) {
    var denied := DeniedFor(env, before.id);
    && SameButStore(before, after) && Newest(g) == Newest(f)
    && if before.store.Some? || !before.imported || before.storeUnavailable then after == before && g == f
       else
         && g == (if isRunning then f else AfterPromotion(f, held, denied))
         && if Waits(f, held, denied, isRunning) then after == before
            else if CanOpen(before, f, held, env, isRunning) then
              && g.db == OpensOn(f, denied) && after.store == Some(StoreAt(before.id, g, env))
              && !after.needsReimport && !after.storeUnavailable && (g.stagedDb.Some? <==> Superseded(f, denied))
            else
              && after.store.None? && after.storeUnavailable
              && after.needsReimport == (before.needsReimport || Outdated(g, env))
  }

  /** A store opens with nothing staged beside it, unless the promotion was denied. */
  lemma OpensBesideNothingStaged(before: Entry, after: Entry, f: Files, g: Files, held: Held, env: Env, isRunning: bool)
    requires EntryOpened(before, after, f, g, held, env, isRunning) && HeldTogether(held)
    requires before.store.None? && after.store.Some?
    ensures || (g.stagedDb.None? && g.stagedKeys.None?)
            || (!isRunning && PromotionResult(f, held, DeniedFor(env, before.id)) == Failed)
  {
    hide AfterPromotion, PromotionResult;
    PromotionOutcome(f, held, DeniedFor(env, before.id));
  }

  /** An opened store consults the key filter of its own database exactly when one is in place and can be
      read, and otherwise none. */
  lemma OpensWithFilter(before: Entry, after: Entry, f: Files, g: Files, held: Held, env: Env, isRunning: bool)
    requires EntryOpened(before, after, f, g, held, env, isRunning) && SidecarAgrees(g)
    requires before.store.None? && after.store.Some?
    ensures after.store.value.id == before.id && Some(after.store.value.db) == g.db
    ensures if g.keys.Some? && env.keysReadable(g.keys.value) then after.store.value.keys == Some(after.store.value.db)
            else after.store.value.keys.None?
  {
    hide AfterPromotion, PromotionResult;
  }

  /** Where open files are locked, a promotion waits for every live store whose files it would replace. */
  lemma ReadersAreWaitedFor(alive: set<Store>, s: Store, f: Files, denied: Denials)
    requires s in alive && !denied(Delete(Keys)) && !denied(Move(StagedDb, Db)) && !denied(Move(StagedKeys, Keys))
    ensures f.stagedDb.Some? && f.db.Some? ==> PromotionResult(f, HeldFor(true, alive, s.id), denied) == Pending
    ensures s.keys.Some? && f.keys.Some? && (f.stagedDb.Some? || f.stagedKeys.Some?) ==>
      && PromotionResult(f, HeldFor(true, alive, s.id), denied) == Pending
      && AfterPromotion(f, HeldFor(true, alive, s.id), denied) == f
  {
    hide RunPlan, PlanResult;
    UnfoldPromotion(f, HeldFor(true, alive, s.id), denied, 3);
  }

  /** It waits for nothing else. */
  lemma OnlyReadersAreWaitedFor(locks: bool, alive: set<Store>, id: Id, f: Files, denied: Denials)
    requires PromotionResult(f, HeldFor(locks, alive, id), denied) == Pending
    ensures locks && exists s :: s in alive && s.id == id
  {
    hide RunPlan, PlanResult;
    UnfoldPromotion(f, HeldFor(locks, alive, id), denied, 3);
  }

  /** The database in place was written by another schema. */
  predicate Outdated(f: Files, env: Env) {
    f.db.Some? && env.schema(f.db.value) == SchemaMismatch
  }

  /** Opening what is open, or what could not be opened, changes nothing. */
  lemma OpenedTwice(before: Entry, mid: Entry, after: Entry, f: Files, fMid: Files, g: Files, held: Held, env: Env,
                    isRunning: bool)
    requires HeldTogether(held)
    requires EntryOpened(before, mid, f, fMid, held, env, isRunning)
    requires mid.store.Some? ==> after == mid && g == fMid
    requires mid.store.None? ==> EntryOpened(mid, after, fMid, g, held, env, isRunning) || (after == mid && g == fMid)
    ensures EntryOpened(before, after, f, g, held, env, isRunning)
    ensures mid.store.None? ==> after.store.None?
  {
    PromotionOpens(f, held, DeniedFor(env, before.id));
  }

  /** An entry is opened on a database older than generation g, which is on disk, exactly when OpensStale
      says so of the files, their readers and the environment before the call. */
  lemma OpenedOnOlder(before: Entry, after: Entry, f: Files, filesAfter: Files, held: Held, env: Env, isRunning: bool,
                      nextGen: Gen, g: Gen)
    requires EntryOpened(before, after, f, filesAfter, held, env, isRunning) && before.store.None?
    requires HeldTogether(held) && Dated(f, nextGen) && NewestAtLeast(f, g)
    ensures after.store.Some? && after.store.value.db < g
       <==> before.imported && !before.storeUnavailable && OpensStale(before.id, f, held, env, isRunning, g)
  {
    OpensStaleExactly(before.id, f, held, env, isRunning, nextGen, g);
  }

  lemma OpenedOnOlderAll(before: Entry, after: Entry, f: Files, filesAfter: Files, held: Held, env: Env,
                         isRunning: bool, nextGen: Gen)
    requires EntryOpened(before, after, f, filesAfter, held, env, isRunning) && before.store.None?
    requires HeldTogether(held) && Dated(f, nextGen)
    ensures forall g :: NewestAtLeast(f, g) ==>
      (after.store.Some? && after.store.value.db < g <==>
         before.imported && !before.storeUnavailable && OpensStale(before.id, f, held, env, isRunning, g))
  {
    hide EntryOpened, OpensStale;
    forall g | NewestAtLeast(f, g)
      ensures after.store.Some? && after.store.value.db < g <==>
              before.imported && !before.storeUnavailable && OpensStale(before.id, f, held, env, isRunning, g)
    {
      OpenedOnOlder(before, after, f, filesAfter, held, env, isRunning, nextGen, g);
    }
  }

  /** Whether this opening put the store on a superseded database. */
  predicate OpenedStale(before: Entry, after: Entry, f: Files, env: Env) {
    before.store.None? && after.store.Some? && Superseded(f, DeniedFor(env, before.id))
  }

  // ---------------------------------------------------------------- the whole list

  /** What openings go by: the stores alive at the start, the running imports, the answers of the
      environment, and the entry asked for besides the enabled and current ones. */
  datatype Round = Round(locks: bool, alive: set<Store>, running: map<Id, nat>, env: Env, asked: Option<nat>)

  predicate Visited(e: Entry, i: nat, round: Round) {
    (e.enabled && !e.needsReimport) || round.asked == Some(i)
  }

  ghost predicate EntryAt(before: Entry, after: Entry, f: Files, g: Files, round: Round) {
    EntryOpened(before, after, f, g, HeldFor(round.locks, round.alive, before.id), round.env,
                before.id in round.running)
  }

  /** What a round has made of one entry: it was opened, or it was passed over; and it is stale exactly
      when it was before or was opened on a superseded database. */
  ghost predicate RoundAt(before: Entry, after: Entry, f: Files, g: Files, wasStale: bool, isStale: bool, round: Round,
                          opens: bool)
  {
    && (if opens then EntryAt(before, after, f, g, round) else after == before && g == f)
    && (isStale <==> wasStale || OpenedStale(before, after, f, round.env))
  }

  lemma OpenedAsAsked(before: Entry, after: Entry, f: Files, g: Files, wasStale: bool, isStale: bool, held: Held,
                      round: Round)
    requires EntryOpened(before, after, f, g, held, round.env, before.id in round.running)
    requires held == HeldFor(round.locks, round.alive, before.id)
    requires isStale <==> wasStale || OpenedStale(before, after, f, round.env)
    ensures RoundAt(before, after, f, g, wasStale, isStale, round, true)
  {
  }

  lemma PassedOver(e: Entry, f: Files, isStale: bool, round: Round)
    ensures RoundAt(e, e, f, f, isStale, isStale, round, false)
  {
  }

  /** What the first n openings have done. */
  ghost predicate OpenedUpTo(before: seq<Entry>, after: seq<Entry>, files: map<Id, Files>, filesAfter: map<Id, Files>,
                             stale: set<Id>, staleAfter: set<Id>, round: Round, n: nat)
  {
    && |before| == |after| && n <= |before|
    && (forall i :: 0 <= i < |before| ==>
          RoundAt(before[i], after[i], FilesOf(files, before[i].id), FilesOf(filesAfter, before[i].id),
                  before[i].id in stale, before[i].id in staleAfter, round, i < n && Visited(before[i], i, round)))
    && stale <= staleAfter
    && (forall id :: Newest(FilesOf(filesAfter, id)) == Newest(FilesOf(files, id)))
    && (forall id :: id in round.running ==> FilesOf(filesAfter, id) == FilesOf(files, id))
    && (forall id :: !Listed(before, id) ==> FilesOf(filesAfter, id) == FilesOf(files, id))
  }

  ghost predicate Listed(entries: seq<Entry>, id: Id) {
    exists e :: e in entries && e.id == id
  }

  ghost predicate SameShape(a: seq<Entry>, b: seq<Entry>) {
    |a| == |b| && forall i :: 0 <= i < |a| ==> SameButStore(a[i], b[i])
  }

  lemma OpenedNone(entries: seq<Entry>, files: map<Id, Files>, stale: set<Id>, round: Round)
    ensures OpenedUpTo(entries, entries, files, files, stale, stale, round, 0)
  {
  }

  /** What one entry's round keeps. */
  lemma RoundKeeps(before: Entry, after: Entry, f: Files, g: Files, wasStale: bool, isStale: bool, round: Round,
                   opens: bool)
    requires RoundAt(before, after, f, g, wasStale, isStale, round, opens)
    ensures SameButStore(before, after) && Newest(g) == Newest(f) && (before.id in round.running ==> g == f)
    ensures !opens ==> after == before && g == f
    ensures wasStale ==> isStale
  {
  }

  /** One more entry: entry n was opened, or passed over. */
  lemma OpenedStep(before: seq<Entry>, mid: seq<Entry>, after: seq<Entry>, files: map<Id, Files>,
                   filesMid: map<Id, Files>, filesAfter: map<Id, Files>, stale: set<Id>, staleMid: set<Id>,
                   staleAfter: set<Id>, round: Round, n: nat)
    requires OpenedUpTo(before, mid, files, filesMid, stale, staleMid, round, n) && n < |before| && DistinctIds(before)
    requires |after| == |mid| && after == mid[n := after[n]]
    requires forall id :: id != mid[n].id ==> FilesOf(filesAfter, id) == FilesOf(filesMid, id)
    requires forall id :: id != mid[n].id ==> (id in staleAfter <==> id in staleMid)
    requires RoundAt(mid[n], after[n], FilesOf(filesMid, mid[n].id), FilesOf(filesAfter, mid[n].id),
                     mid[n].id in staleMid, mid[n].id in staleAfter, round, Visited(mid[n], n, round))
    ensures OpenedUpTo(before, after, files, filesAfter, stale, staleAfter, round, n + 1)
  {
    OpenedStepAt(before[n], mid[n], after[n], FilesOf(files, before[n].id), FilesOf(filesMid, before[n].id),
                 before[n].id in stale, before[n].id in staleMid, round);
    hide RoundAt;
    RoundKeeps(mid[n], after[n], FilesOf(filesMid, mid[n].id), FilesOf(filesAfter, mid[n].id),
               mid[n].id in staleMid, mid[n].id in staleAfter, round, Visited(mid[n], n, round));
    forall i | 0 <= i < |before| && i != n
      ensures before[i].id != before[n].id && after[i] == mid[i]
      ensures mid[n].id == before[n].id
    {
    }
  }

  lemma OpenedStepAt(before: Entry, mid: Entry, after: Entry, f: Files, fMid: Files, wasStale: bool, midStale: bool,
                     round: Round)
    requires RoundAt(before, mid, f, fMid, wasStale, midStale, round, false)
    ensures mid == before && fMid == f && (midStale <==> wasStale)
  {
  }

  lemma OpenedShape(before: seq<Entry>, after: seq<Entry>, files: map<Id, Files>, filesAfter: map<Id, Files>,
                    stale: set<Id>, staleAfter: set<Id>, round: Round)
    requires OpenedUpTo(before, after, files, filesAfter, stale, staleAfter, round, |after|)
    ensures SameShape(before, after) && stale <= staleAfter
    ensures forall id :: Newest(FilesOf(filesAfter, id)) == Newest(FilesOf(files, id))
    ensures forall id :: id in round.running ==> FilesOf(filesAfter, id) == FilesOf(files, id)
  {
    hide RoundAt;
    forall i | 0 <= i < |before|
      ensures SameButStore(before[i], after[i])
    {
      RoundKeeps(before[i], after[i], FilesOf(files, before[i].id), FilesOf(filesAfter, before[i].id),
                 before[i].id in stale, before[i].id in staleAfter, round, Visited(before[i], i, round));
    }
  }

  /** What a whole round has made of entry i. */
  lemma OpenedAt(before: seq<Entry>, after: seq<Entry>, files: map<Id, Files>, filesAfter: map<Id, Files>,
                 stale: set<Id>, staleAfter: set<Id>, round: Round, i: nat)
    requires OpenedUpTo(before, after, files, filesAfter, stale, staleAfter, round, |after|) && i < |before|
    ensures |after| == |before| && after[i].id == before[i].id
    ensures RoundAt(before[i], after[i], FilesOf(files, before[i].id), FilesOf(filesAfter, before[i].id),
                    before[i].id in stale, before[i].id in staleAfter, round, Visited(before[i], i, round))
  {
  }

  /** What a whole round has made of the files of an id: they are as they were, or promoted. */
  lemma OpenedFiles(before: seq<Entry>, after: seq<Entry>, files: map<Id, Files>, filesAfter: map<Id, Files>,
                    stale: set<Id>, staleAfter: set<Id>, round: Round, id: Id)
    requires OpenedUpTo(before, after, files, filesAfter, stale, staleAfter, round, |after|)
    ensures || FilesOf(filesAfter, id) == FilesOf(files, id)
            || (id !in round.running && FilesOf(filesAfter, id) == AfterPromotion(FilesOf(files, id),
                                          HeldFor(round.locks, round.alive, id), DeniedFor(round.env, id)))
  {
    if Listed(before, id) {
      var e :| e in before && e.id == id;
      var i :| 0 <= i < |before| && before[i] == e;
      hide OpenedUpTo, HeldFor;
      OpenedAt(before, after, files, filesAfter, stale, staleAfter, round, i);
    }
  }

  lemma OpenedNewest(before: seq<Entry>, after: seq<Entry>, files: map<Id, Files>, filesAfter: map<Id, Files>,
                     stale: set<Id>, staleAfter: set<Id>, round: Round, id: Id)
    requires OpenedUpTo(before, after, files, filesAfter, stale, staleAfter, round, |after|)
    ensures Newest(FilesOf(filesAfter, id)) == Newest(FilesOf(files, id))
  {
  }

  /** An open entry stays as it is. */
  lemma OpenStays(before: seq<Entry>, after: seq<Entry>, files: map<Id, Files>, filesAfter: map<Id, Files>,
                  stale: set<Id>, staleAfter: set<Id>, round: Round, i: nat)
    requires OpenedUpTo(before, after, files, filesAfter, stale, staleAfter, round, |after|) && i < |before|
    ensures |after| == |before| && (before[i].store.Some? ==> after[i] == before[i])
  {
    hide OpenedUpTo;
    OpenedAt(before, after, files, filesAfter, stale, staleAfter, round, i);
  }

  /** An entry that could not be opened is not opened by publishing behind it. */
  lemma StillClosed(mid: seq<Entry>, after: seq<Entry>, files: map<Id, Files>, filesMid: map<Id, Files>,
                    filesAfter: map<Id, Files>, stale: set<Id>, staleMid: set<Id>, staleAfter: set<Id>, before: Entry,
                    first: Round, second: Round, i: nat)
    requires i < |mid| && mid[i].store.None? && mid[i].id == before.id
    requires second == first.(alive := second.alive, asked := None) && SameHeld(first, second, before.id)
    requires HeldTogether(HeldFor(first.locks, first.alive, before.id))
    requires RoundAt(before, mid[i], FilesOf(files, before.id), FilesOf(filesMid, before.id), before.id in stale,
                     before.id in staleMid, first, true)
    requires OpenedUpTo(mid, after, filesMid, filesAfter, staleMid, staleAfter, second, |after|)
    ensures |after| == |mid| && after[i].store.None?
  {
    hide OpenedUpTo, HeldFor, EntryOpened;
    OpenedAt(mid, after, filesMid, filesAfter, staleMid, staleAfter, second, i);
    if Visited(mid[i], i, second) {
      OpenedTwice(before, mid[i], after[i], FilesOf(files, before.id), FilesOf(filesMid, before.id),
                  FilesOf(filesAfter, before.id), HeldFor(first.locks, first.alive, before.id), first.env,
                  before.id in first.running);
    }
  }

  /** What publishing makes of an entry that was closed, with the files of its id held by held: it is
      opened when it is enabled and current, and stays closed otherwise. */
  ghost predicate ReopenedAt(closed: Entry, after: Entry, f: Files, g: Files, isStale: bool, held: Held, env: Env,
                             isRunning: bool)
  {
    if closed.enabled && !closed.needsReimport then
      EntryOpened(closed, after, f, g, held, env, isRunning) && (isStale <==> OpenedStale(closed, after, f, env))
    else
      after == closed && g == f && !isStale
  }

  /** It is open again exactly when it is enabled, current and imported and its files can be opened. */
  lemma OpensWhenItCan(closed: Entry, after: Entry, f: Files, g: Files, isStale: bool, held: Held, env: Env,
                       isRunning: bool)
    requires ReopenedAt(closed, after, f, g, isStale, held, env, isRunning)
    requires closed.store.None? && !closed.storeUnavailable
    ensures after.store.Some?
       <==> closed.enabled && !closed.needsReimport && closed.imported && Openable(closed.id, f, held, env, isRunning)
  {
    hide AfterPromotion, PromotionResult;
  }

  lemma Reopened(closed: seq<Entry>, after: seq<Entry>, files: map<Id, Files>, filesAfter: map<Id, Files>,
                 stale: set<Id>, staleAfter: set<Id>, round: Round, i: nat)
    requires OpenedUpTo(closed, after, files, filesAfter, stale, staleAfter, round, |after|) && i < |closed|
    requires closed[i].store.None? && closed[i].id !in stale && round.asked == None
    ensures |after| == |closed|
    ensures ReopenedAt(closed[i], after[i], FilesOf(files, closed[i].id), FilesOf(filesAfter, closed[i].id),
                       closed[i].id in staleAfter, HeldFor(round.locks, round.alive, closed[i].id), round.env,
                       closed[i].id in round.running)
  {
    hide OpenedUpTo, HeldFor, EntryOpened;
    OpenedAt(closed, after, files, filesAfter, stale, staleAfter, round, i);
  }

  /** The files of the entries from n on are held as they were at the start of the round. */
  ghost predicate HeldAsIn(entries: seq<Entry>, alive: set<Store>, round: Round, n: nat) {
    forall k :: n <= k < |entries| ==>
      HeldFor(round.locks, alive, entries[k].id) == HeldFor(round.locks, round.alive, entries[k].id)
  }

  lemma HeldAtStart(entries: seq<Entry>, alive: set<Store>, round: Round)
    requires round.alive == alive
    ensures HeldAsIn(entries, alive, round, 0)
  {
  }

  lemma ListedAlike(before: seq<Entry>, mid: seq<Entry>, i: nat)
    requires i < |before| == |mid| && mid == before[i := mid[i]] && mid[i].id == before[i].id
    ensures forall id :: Listed(before, id) <==> Listed(mid, id)
    ensures Listed(before, before[i].id)
  {
    assert before[i] in before && mid[i] in mid;
    forall id
      ensures Listed(before, id) <==> Listed(mid, id)
    {
      if e :| e in before && e.id == id {
        var k :| 0 <= k < |before| && before[k] == e;
        assert mid[k] in mid;
      }
      if e :| e in mid && e.id == id {
        var k :| 0 <= k < |mid| && mid[k] == e;
        assert before[k] in before;
      }
    }
  }

  /** Opening one entry and then publishing is one round that was asked for that entry. */
  lemma OpenedAgain(before: seq<Entry>, mid: seq<Entry>, after: seq<Entry>, files: map<Id, Files>,
                    filesMid: map<Id, Files>, filesAfter: map<Id, Files>, stale: set<Id>, staleMid: set<Id>,
                    staleAfter: set<Id>,
                    first: Round, second: Round, i: nat)
    requires i < |before| && first.asked == Some(i) && second == first.(alive := second.alive, asked := None)
    requires DistinctIds(before) && |mid| == |before| && mid == before[i := mid[i]]
    requires forall k :: 0 <= k < |before| && (k != i || mid[i].store.None?) ==> SameHeld(first, second, before[k].id)
    requires HeldTogether(HeldFor(first.locks, first.alive, before[i].id))
    requires forall id :: id != before[i].id ==> FilesOf(filesMid, id) == FilesOf(files, id)
    requires forall id :: id != before[i].id ==> (id in staleMid <==> id in stale)
    requires RoundAt(before[i], mid[i], FilesOf(files, before[i].id), FilesOf(filesMid, before[i].id),
                     before[i].id in stale, before[i].id in staleMid, first, true)
    requires OpenedUpTo(mid, after, filesMid, filesAfter, staleMid, staleAfter, second, |after|)
    ensures OpenedUpTo(before, after, files, filesAfter, stale, staleAfter, first, |after|)
  {
    hide RoundAt, SameHeld, Listed, HeldFor, Visited;
    RoundKeeps(before[i], mid[i], FilesOf(files, before[i].id), FilesOf(filesMid, before[i].id),
               before[i].id in stale, before[i].id in staleMid, first, true);
    ListedAlike(before, mid, i);
    forall k | 0 <= k < |before|
      ensures RoundAt(before[k], after[k], FilesOf(files, before[k].id), FilesOf(filesAfter, before[k].id),
                      before[k].id in stale, before[k].id in staleAfter, first, Visited(before[k], k, first))
    {
      AskedFor(before, mid, i, k, first, second);
      if k == i {
        AskedTwice(before[i], mid[i], after[i], FilesOf(files, before[i].id), FilesOf(filesMid, before[i].id),
                   FilesOf(filesAfter, before[i].id), before[i].id in stale, before[i].id in staleMid,
                   before[i].id in staleAfter, first, second, Visited(mid[i], i, second));
      } else {
        assert before[k].id != before[i].id && mid[k] == before[k];
        OtherRound(before[k], after[k], FilesOf(files, before[k].id), FilesOf(filesAfter, before[k].id),
                   before[k].id in stale, before[k].id in staleAfter, first, second, Visited(before[k], k, second));
      }
    }
  }

  lemma AskedFor(before: seq<Entry>, mid: seq<Entry>, i: nat, k: nat, first: Round, second: Round)
    requires i < |before| == |mid| && k < |before| && mid == before[i := mid[i]]
    requires first.asked == Some(i) && second.asked == None
    ensures k == i ==> Visited(before[k], k, first)
    ensures k != i ==> (Visited(before[k], k, first) <==> Visited(mid[k], k, second))
  {
  }

  /** The same files of id are held open in both rounds. */
  predicate SameHeld(first: Round, second: Round, id: Id) {
    HeldFor(first.locks, first.alive, id) == HeldFor(second.locks, second.alive, id)
  }

  lemma OtherRound(before: Entry, after: Entry, f: Files, g: Files, wasStale: bool, isStale: bool, first: Round,
                   second: Round, opens: bool)
    requires second == first.(alive := second.alive, asked := None) && SameHeld(first, second, before.id)
    requires RoundAt(before, after, f, g, wasStale, isStale, second, opens)
    ensures RoundAt(before, after, f, g, wasStale, isStale, first, opens)
  {
    hide HeldFor;
  }

  lemma AskedTwice(before: Entry, mid: Entry, after: Entry, f: Files, fMid: Files, g: Files, wasStale: bool,
                   midStale: bool, isStale: bool, first: Round, second: Round, opens: bool)
    requires second == first.(alive := second.alive, asked := None)
    requires mid.store.None? ==> SameHeld(first, second, before.id)
    requires HeldTogether(HeldFor(first.locks, first.alive, before.id))
    requires RoundAt(before, mid, f, fMid, wasStale, midStale, first, true)
    requires RoundAt(mid, after, fMid, g, midStale, isStale, second, opens)
    ensures RoundAt(before, after, f, g, wasStale, isStale, first, true)
  {
    hide HeldFor;
    OpenedTwice(before, mid, after, f, fMid, g, HeldFor(first.locks, first.alive, before.id), first.env,
                before.id in first.running);
  }

  // ---------------------------------------------------------------- retries

  /** What the removal half of a retry makes of the files of an id: those of a recorded removal are deleted,
      except the open ones, unless an import of the id runs. */
  function AfterRetriedRemoval(f: Files, id: Id, removals: set<Id>, round: Round): Files {
    if id in removals && id !in round.running then AfterRemoval(f, HeldFor(round.locks, round.alive, id)) else f
  }

  /** What both halves make of them: staged files that waited are promoted as far as they can be. */
  function AfterRetry(f: Files, id: Id, removals: set<Id>, promotions: set<Id>, round: Round): Files {
    var g := AfterRetriedRemoval(f, id, removals, round);
    if id in promotions && id !in round.running then
      AfterPromotion(g, HeldFor(round.locks, round.alive, id), DeniedFor(round.env, id))
    else g
  }

  /** Whether the staged files of an id need not wait any longer. */
  predicate SettlesNow(f: Files, id: Id, removals: set<Id>, promotions: set<Id>, round: Round) {
    id in promotions && id !in round.running
    && PromotionResult(AfterRetriedRemoval(f, id, removals, round), HeldFor(round.locks, round.alive, id),
                       DeniedFor(round.env, id)) != Pending
  }

  ghost predicate SettlesSome(files: map<Id, Files>, removals: set<Id>, promotions: set<Id>, round: Round) {
    exists id :: SettlesNow(FilesOf(files, id), id, removals, promotions, round)
  }

  /** What a retry and the publishing behind it may make of the files of an id: a running import's stay, those
      of a recorded removal are deleted, those that waited for their promotion are promoted, and the newest
      generation of any other id stays. */
  ghost predicate RetriedAs(f: Files, g: Files, id: Id, removals: set<Id>, promotions: set<Id>, round: Round) {
    var held := HeldFor(round.locks, round.alive, id);
    && (id in round.running ==> g == f)
    && (id in removals && id !in round.running ==> g == AfterRemoval(f, held))
    && (id in promotions - removals && id !in round.running ==> g == AfterPromotion(f, held, DeniedFor(round.env, id)))
    && (id !in removals ==> Newest(g) == Newest(f))
  }

  lemma PublishedAfterRetry(f: Files, retried: Files, g: Files, id: Id, removals: set<Id>, promotions: set<Id>,
                            round: Round)
    requires SidecarAgrees(f) && retried == AfterRetry(f, id, removals, promotions, round)
    requires g == retried || (id !in round.running && g == AfterPromotion(retried,
                                HeldFor(round.locks, round.alive, id), DeniedFor(round.env, id)))
    ensures RetriedAs(f, g, id, removals, promotions, round)
    ensures id in removals ==> g == retried
  {
    hide AfterPromotion, AfterRemoval, HeldFor, PromotionResult;
    var held, denied := HeldFor(round.locks, round.alive, id), DeniedFor(round.env, id);
    PromotedTwice(f, held, denied);
    NothingStagedAfterRemoval(f, held, denied);
    PromotionKeepsNewest(f, held, denied);
    PromotionKeepsNewest(AfterPromotion(f, held, denied), held, denied);
  }

  lemma PromotionKeepsNewest(f: Files, held: Held, denied: Denials)
    requires SidecarAgrees(f)
    ensures SidecarAgrees(AfterPromotion(f, held, denied)) && Newest(AfterPromotion(f, held, denied)) == Newest(f)
  {
    PromotionKeepsAgreement(f, held, denied, 3);
  }
}
