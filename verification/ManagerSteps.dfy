/** What the steps of the dictionary manager keep, as facts about its state
    (src/dict/dictionarymanager.cpp). */
module ManagerSteps {
  import opened Basics
  import opened StoreFiles
  import opened ManagerState
  import opened DictionaryOrder
  import opened StoreOpening

  // ---------------------------------------------------------------- opening

  lemma HeldIsTogether(locks: bool, alive: set<Store>, id: Id)
    ensures HeldTogether(HeldFor(locks, alive, id))
  {
  }

  /** Which files of id are held open does not depend on the entries of other ids. */
  lemma HeldElsewhere(locks: bool, entries: seq<Entry>, n: nat, e: Entry, snapshot: seq<Handle>, lookups: set<Store>,
                      id: Id)
    requires n < |entries| && EntryOk(entries[n]) && EntryOk(e) && e.id == entries[n].id
    requires e.id != id || e.store == entries[n].store
    ensures HeldFor(locks, AliveStores(entries[n := e], snapshot, lookups), id)
         == HeldFor(locks, AliveStores(entries, snapshot, lookups), id)
  {
    var before, after := AliveStores(entries, snapshot, lookups), AliveStores(entries[n := e], snapshot, lookups);
    forall s: Store | s.id == id
      ensures s in before <==> s in after
    {
      AliveElsewhere(entries, n, e, snapshot, lookups, s);
      assert entries[n := e][n := entries[n]] == entries;
      AliveElsewhere(entries[n := e], n, entries[n], snapshot, lookups, s);
    }
  }

  lemma AliveElsewhere(entries: seq<Entry>, n: nat, e: Entry, snapshot: seq<Handle>, lookups: set<Store>, s: Store)
    requires n < |entries| && EntryOk(entries[n]) && e.id == entries[n].id
    requires e.id != s.id || e.store == entries[n].store
    ensures s in AliveStores(entries, snapshot, lookups) ==> s in AliveStores(entries[n := e], snapshot, lookups)
  {
    if x :| x in entries && x.store == Some(s) {
      var k :| 0 <= k < |entries| && entries[k] == x;
      assert entries[n := e][k].store == Some(s);
      assert entries[n := e][k] in entries[n := e];
    }
  }

  /** Opening entry n changes nothing about which files of the other ids are held open. */
  lemma HeldAsInStep(before: seq<Entry>, after: seq<Entry>, snapshot: seq<Handle>, lookups: set<Store>, round: Round,
                     n: nat)
    requires EntriesOk(before) && EntriesOk(after) && |after| == |before| && n < |before|
    requires after == before[n := after[n]] && after[n].id == before[n].id
    requires HeldAsIn(before, AliveStores(before, snapshot, lookups), round, n)
    ensures HeldAsIn(after, AliveStores(after, snapshot, lookups), round, n + 1)
  {
    hide AliveStores, HeldFor;
    forall k | n + 1 <= k < |after|
      ensures HeldFor(round.locks, AliveStores(after, snapshot, lookups), after[k].id)
           == HeldFor(round.locks, round.alive, after[k].id)
    {
      HeldElsewhere(round.locks, before, n, after[n], snapshot, lookups, after[k].id);
    }
  }

  /** Opening entry i changes nothing about which files are held open, except its own once it is open. */
  lemma HeldByRest(before: seq<Entry>, mid: seq<Entry>, i: nat, snapshot: seq<Handle>, lookups: set<Store>,
                   first: Round, second: Round)
    requires EntriesOk(before) && EntriesOk(mid) && |mid| == |before| && i < |before|
    requires mid == before[i := mid[i]] && mid[i].id == before[i].id && (mid[i].store.None? ==> before[i].store.None?)
    requires first.alive == AliveStores(before, snapshot, lookups)
    requires second.alive == AliveStores(mid, snapshot, lookups)
    requires first.locks == second.locks
    ensures forall k :: 0 <= k < |before| && (k != i || mid[i].store.None?) ==> SameHeld(first, second, before[k].id)
  {
    hide AliveStores, HeldFor;
    forall k | 0 <= k < |before| && (k != i || mid[i].store.None?)
      ensures SameHeld(first, second, before[k].id)
    {
      HeldElsewhere(first.locks, before, i, mid[i], snapshot, lookups, before[k].id);
    }
  }

  /** Without an open entry of its own, the files of id are held by published handles and lookups. */
  lemma HeldByReaders(locks: bool, entries: seq<Entry>, snapshot: seq<Handle>, lookups: set<Store>, id: Id)
    requires forall e :: e in entries && e.store.Some? ==> e.store.value.id != id
    ensures HeldFor(locks, AliveStores(entries, snapshot, lookups), id)
         == HeldFor(locks, AliveStores([], snapshot, lookups), id)
  {
    var all, readers := AliveStores(entries, snapshot, lookups), AliveStores([], snapshot, lookups);
    assert forall s: Store :: s.id == id ==> (s in all <==> s in readers);
  }

  /** Relabelling an entry changes nothing about which of its files are held open. */
  lemma RelabelHeld(locks: bool, entries: seq<Entry>, i: nat, e: Entry, snapshot: seq<Handle>, lookups: set<Store>)
    requires EntriesOk(entries) && i < |entries|
    requires e.id == entries[i].id && e.imported == entries[i].imported && e.store == entries[i].store
    ensures HeldFor(locks, AliveStores(entries[i := e], snapshot, lookups), e.id)
         == HeldFor(locks, AliveStores(entries, snapshot, lookups), e.id)
  {
    hide AliveStores, HeldFor;
    HeldElsewhere(locks, entries, i, e, snapshot, lookups, e.id);
  }

  lemma ClosedIsHeldByReaders(locks: bool, entries: seq<Entry>, i: nat, snapshot: seq<Handle>, lookups: set<Store>)
    requires EntriesOk(entries) && i < |entries|
    ensures HeldFor(locks, AliveStores(entries[i := Reset(entries[i])], snapshot, lookups), entries[i].id)
         == HeldFor(locks, AliveStores([], snapshot, lookups), entries[i].id)
  {
    hide AliveStores, HeldFor;
    var closed := entries[i := Reset(entries[i])];
    ResetKeepsEntries(entries, i);
    forall e | e in closed && e.store.Some?
      ensures e.store.value.id != entries[i].id
    {
      var k :| 0 <= k < |closed| && closed[k] == e;
    }
    HeldByReaders(locks, closed, snapshot, lookups, entries[i].id);
  }

  /** An entry left closed, or opened on the database in place, breaks no promise; it is stale when it was
      opened over a staged database. */
  lemma ReadKeeps(files: map<Id, Files>, nextGen: Gen, entries: seq<Entry>, removals: set<Id>, floor: map<Id, Gen>,
                  stale: set<Id>, hollow: set<Id>, i: nat, e: Entry)
    requires EntriesOk(entries) && FilesOk(files, nextGen) && FloorOk(files, entries, removals, floor, stale, hollow)
    requires i < |entries| && e.id == entries[i].id && e.imported == entries[i].imported && entries[i].store.None?
    requires e.store.Some? ==>
      var s, f := e.store.value, FilesOf(files, e.id);
      e.imported && s.id == e.id && f.db == Some(s.db) && (s.keys.None? || s.keys == f.keys)
    ensures var after := if e.store.Some? && FilesOf(files, e.id).stagedDb.Some? then stale + {e.id} else stale;
      EntriesOk(entries[i := e]) && FloorOk(files, entries[i := e], removals, floor, after, hollow)
  {
    assert entries[i] in entries;
    ReplaceEntry(entries, i, e);
    forall k | 0 <= k < |entries| && k != i
      ensures entries[k].id != e.id
    {
    }
  }

  lemma PromotionKeepsDates(f: Files, held: Held, denied: Denials, nextGen: Gen)
    requires Dated(f, nextGen)
    ensures Dated(AfterPromotion(f, held, denied), nextGen)
  {
    hide RunPlan, PlanResult;
    UnfoldPromotion(f, held, denied, 3);
  }

  lemma ReadersAfterPublish(entries: seq<Entry>, snapshot: seq<Handle>, lookups: set<Store>)
    requires EntriesOk(entries) && ReadersOk(snapshot, lookups)
    ensures ReadersOk(Handles(entries), lookups)
  {
    HandlesComeFromEntries(entries);
  }

  lemma SamePriorities(a: seq<Entry>, b: seq<Entry>)
    requires SameShape(a, b) && Numbered(a)
    ensures Numbered(b)
  {
  }

  lemma NumberedUpdate(entries: seq<Entry>, i: nat, e: Entry)
    requires Numbered(entries) && i < |entries| && e.priority == entries[i].priority
    ensures Numbered(entries[i := e])
  {
  }

  lemma ListedOnce(entries: seq<Entry>)
    requires EntriesOk(entries)
    ensures DistinctIds(entries) && forall e :: e in entries ==> EntryOk(e)
  {
  }

  lemma OnlyEntry(entries: seq<Entry>, i: nat)
    requires EntriesOk(entries) && i < |entries|
    ensures forall e :: e in entries && e.id == entries[i].id ==> e == entries[i]
  {
    forall e | e in entries && e.id == entries[i].id
      ensures e == entries[i]
    {
      var k :| 0 <= k < |entries| && entries[k] == e;
    }
  }

  /** An entry publishing has dealt with: open, without an import, reported unavailable, or waiting for
      an open file or a running import. */
  predicate Settled(e: Entry, promotions: set<Id>, running: map<Id, nat>) {
    e.store.Some? || !e.imported || e.storeUnavailable || e.id in promotions || e.id in running
  }

  ghost predicate SettledUpTo(entries: seq<Entry>, promotions: set<Id>, running: map<Id, nat>, n: nat) {
    n <= |entries|
    && forall i :: 0 <= i < n && entries[i].enabled && !entries[i].needsReimport ==>
      Settled(entries[i], promotions, running)
  }

  lemma SettledNone(entries: seq<Entry>, promotions: set<Id>, running: map<Id, nat>)
    ensures SettledUpTo(entries, promotions, running, 0)
  {
  }

  lemma SettledStep(mid: seq<Entry>, after: seq<Entry>, promotionsMid: set<Id>, promotions: set<Id>,
                    running: map<Id, nat>, n: nat)
    requires SettledUpTo(mid, promotionsMid, running, n) && DistinctIds(mid) && n < |mid|
    requires |after| == |mid| && after == mid[n := after[n]] && after[n].id == mid[n].id
    requires forall id :: id != after[n].id ==> (id in promotions <==> id in promotionsMid)
    requires after[n].enabled && !after[n].needsReimport ==> Settled(after[n], promotions, running)
    ensures SettledUpTo(after, promotions, running, n + 1)
  {
    forall i | 0 <= i < n && after[i].enabled && !after[i].needsReimport
      ensures Settled(after[i], promotions, running)
    {
      assert after[i] == mid[i] && mid[i].id != mid[n].id;
    }
  }

  // ---------------------------------------------------------------- the list

  lemma LoadedList(listed: seq<Entry>, files: map<Id, Files>)
    requires DistinctIds(listed) && forall e :: e in listed ==> e.store.None?
    ensures var entries := Renumbered(listed);
      EntriesOk(entries) && Numbered(entries) && Handles(entries) == [] && FloorOk(files, entries, {}, map[], {}, {})
    ensures JobsOk(map[], files, {}, {}) && CountsOk(map[], map[])
  {
    hide Renumbered;
    RenumberedList(listed);
    RelabelledStores(listed, Renumbered(listed));
    NoHandles(Renumbered(listed));
    forall id
      ensures UnreportedJobs(map[], id) == {}
    {
    }
  }

  lemma RelabelledStores(before: seq<Entry>, after: seq<Entry>)
    requires Relabels(before, after) && forall e :: e in before ==> e.store.None?
    ensures forall e :: e in after ==> e.store.None?
  {
  }

  /** Reordering and relabelling the list breaks no promise. */
  lemma RelistKeeps(files: map<Id, Files>, before: seq<Entry>, after: seq<Entry>, removals: set<Id>,
                    floor: map<Id, Gen>, stale: set<Id>, hollow: set<Id>)
    requires EntriesOk(before) && DistinctIds(after) && Relabels(before, after)
    requires FloorOk(files, before, removals, floor, stale, hollow)
    ensures EntriesOk(after) && FloorOk(files, after, removals, floor, stale, hollow)
  {
    hide DistinctIds;
    forall e | e in after
      ensures EntryOk(e)
      ensures e.id in removals && e.imported ==> e.id in hollow
      ensures e.id in floor && e.store.Some? && e.id !in stale ==> e.store.value.db >= floor[e.id]
      ensures e.store.None? ==> e.id !in stale
    {
      var b :| b in before && b.(priority := e.priority, name := e.name, enabled := e.enabled) == e;
    }
  }

  /** A new entry: one that claims an import while a removal of its id waits is hollow. */
  lemma AddKeeps(files: map<Id, Files>, entries: seq<Entry>, added: Entry, removals: set<Id>, floor: map<Id, Gen>,
                 stale: set<Id>, hollow: set<Id>)
    requires EntriesOk(entries) && FloorOk(files, entries, removals, floor, stale, hollow)
    requires added.store.None? && forall e :: e in entries ==> e.id != added.id
    ensures EntriesOk(entries + [added])
    ensures FloorOk(files, entries + [added], removals, floor, stale - {added.id},
                    if added.imported then hollow + {added.id} else hollow)
  {
  }

  /** An entry that keeps its store, or lets it go and is no longer stale. */
  lemma RestateKeeps(files: map<Id, Files>, entries: seq<Entry>, removals: set<Id>, floor: map<Id, Gen>, stale: set<Id>,
                     hollow: set<Id>, i: nat, e: Entry)
    requires EntriesOk(entries) && FloorOk(files, entries, removals, floor, stale, hollow) && i < |entries|
    requires e.id == entries[i].id && e.imported == entries[i].imported
      && (e.store == entries[i].store || e.store.None?)
    ensures EntriesOk(entries[i := e])
    ensures FloorOk(files, entries[i := e], removals, floor, if e.store.None? then stale - {e.id} else stale, hollow)
  {
    assert entries[i] in entries;
    ReplaceEntry(entries, i, e);
    forall k | 0 <= k < |entries| && k != i
      ensures entries[k].id != e.id
    {
    }
  }

  lemma DisabledIsUnpublished(entries: seq<Entry>, i: nat)
    requires DistinctIds(entries) && i < |entries|
    ensures !entries[i].enabled ==> forall h :: h in Handles(entries) ==> h.id != entries[i].id
  {
    HandlesComeFromEntries(entries);
    if !entries[i].enabled {
      forall h | h in Handles(entries)
        ensures h.id != entries[i].id
      {
        var e :| e in entries && HandleOf(e) == Some(h);
        var k :| 0 <= k < |entries| && entries[k] == e;
      }
    }
  }

  /** An entry whose options ask for a new import is not opened anew, and not published. */
  lemma OutdatedIsUnpublished(before: seq<Entry>, after: seq<Entry>, files: map<Id, Files>, filesAfter: map<Id, Files>,
                              stale: set<Id>, staleAfter: set<Id>, round: Round, i: nat)
    requires OpenedUpTo(before, after, files, filesAfter, stale, staleAfter, round, |after|) && i < |before|
    requires EntriesOk(after) && before[i].needsReimport && round.asked == None
    ensures forall h :: h in Handles(after) ==> h.id != before[i].id
    ensures |after| == |before| && after[i] == before[i]
  {
    hide OpenedUpTo, Handles;
    OpenedAt(before, after, files, filesAfter, stale, staleAfter, round, i);
    PublishedStore(after, i);
  }

  /** What is published of an id is its entry's store. */
  lemma {:induction false} PublishedStore(entries: seq<Entry>, i: nat)
    requires i < |entries| && EntriesOk(entries)
    ensures forall h :: h in Handles(entries) && h.id == entries[i].id ==> HandleOf(entries[i]) == Some(h)
    ensures HandleOf(entries[i]).Some? ==> HandleOf(entries[i]).value in Handles(entries)
  {
    HandlesComeFromEntries(entries);
    forall h | h in Handles(entries) && h.id == entries[i].id
      ensures HandleOf(entries[i]) == Some(h)
    {
      var e :| e in entries && HandleOf(e) == Some(h);
      var k :| 0 <= k < |entries| && entries[k] == e;
    }
    HandlePublished(entries, i);
  }

  // ---------------------------------------------------------------- removing

  function Reset(e: Entry): Entry {
    e.(store := None, storeUnavailable := false)
  }

  /** The list without entry i, or with its import dropped. */
  function Dropped(entries: seq<Entry>, i: nat): seq<Entry>
    requires i < |entries|
  {
    if entries[i].builtIn then
      entries[i := entries[i].(imported := false, needsReimport := false, storeUnavailable := false, store := None)]
    else entries[..i] + entries[i + 1..]
  }

  lemma DroppedAfterReset(entries: seq<Entry>, i: nat)
    requires i < |entries|
    ensures Dropped(entries[i := Reset(entries[i])], i) == Dropped(entries, i)
  {
    var reset := entries[i := Reset(entries[i])];
    if !entries[i].builtIn {
      assert reset[..i] == entries[..i] && reset[i + 1..] == entries[i + 1..];
    }
  }

  lemma DroppedKeeps(entries: seq<Entry>, i: nat)
    requires EntriesOk(entries) && i < |entries|
    ensures EntriesOk(Dropped(entries, i))
    ensures var id := entries[i].id;
      forall e :: e in Dropped(entries, i) ==>
        (e.id == id && !e.imported && e.store.None?) || (e.id != id && e in entries)
  {
    var id, after := entries[i].id, Dropped(entries, i);
    forall k | 0 <= k < |after|
      ensures (after[k].id == id && !after[k].imported && after[k].store.None?)
        || (after[k].id != id && after[k] in entries)
      ensures EntryOk(after[k])
    {
      if entries[i].builtIn {
        assert k != i ==> after[k] == entries[k];
      } else {
        assert after[k] == entries[if k < i then k else k + 1];
      }
    }
  }

  /** A built-in entry that was not downloaded: no import, no store, and nothing asked of the user. */
  predicate IsSeed(e: Entry) {
    !e.imported && e.store.None? && !e.needsReimport && !e.storeUnavailable
  }

  /** Which ids are listed after entry i was dropped: all others, and its own when it is built in, as one that was
      not downloaded. */
  lemma DroppedIds(entries: seq<Entry>, i: nat)
    requires EntriesOk(entries) && i < |entries|
    ensures var id, after := entries[i].id, Dropped(entries, i);
      && (forall e :: e in after && e.id == id ==> entries[i].builtIn && e.builtIn && IsSeed(e))
      && (entries[i].builtIn ==> Listed(after, id))
      && (forall other :: other != id ==> (Listed(after, other) <==> Listed(entries, other)))
  {
    var id, after := entries[i].id, Dropped(entries, i);
    if entries[i].builtIn {
      assert after[i] in after;
    }
    forall e | e in after
      ensures e.id == id ==> entries[i].builtIn && e.builtIn && IsSeed(e)
      ensures e.id != id ==> e in entries
    {
      var k :| 0 <= k < |after| && after[k] == e;
      assert !entries[i].builtIn ==> e == entries[if k < i then k else k + 1];
    }
    forall e | e in entries && e.id != id
      ensures e in after
    {
      var k :| 0 <= k < |entries| && entries[k] == e;
      assert e == after[if entries[i].builtIn || k < i then k else k - 1];
    }
  }

  lemma SameIds(a: seq<Entry>, b: seq<Entry>, id: Id)
    requires SameShape(a, b)
    ensures Listed(a, id) <==> Listed(b, id)
  {
    if e :| e in a && e.id == id {
      var k :| 0 <= k < |a| && a[k] == e;
      assert b[k] in b;
    }
    if e :| e in b && e.id == id {
      var k :| 0 <= k < |b| && b[k] == e;
      assert a[k] in a;
    }
  }

  lemma RenumberedIds(list: seq<Entry>, id: Id)
    requires DistinctIds(list)
    ensures Listed(Renumbered(list), id) <==> Listed(list, id)
  {
    hide Renumbered, DistinctIds;
    RenumberedOnly(list);
  }

  /** What a removal leaves of the list, once it is numbered and published again. */
  lemma RemovedIds(entries: seq<Entry>, i: nat, after: seq<Entry>, files: map<Id, Files>, filesAfter: map<Id, Files>,
                   stale: set<Id>, staleAfter: set<Id>, round: Round)
    requires EntriesOk(entries) && i < |entries| && DistinctIds(Dropped(entries, i))
    requires OpenedUpTo(Renumbered(Dropped(entries, i)), after, files, filesAfter, stale, staleAfter, round, |after|)
    ensures var id := entries[i].id;
      && (forall e :: e in after && e.id == id ==> entries[i].builtIn && e.builtIn && IsSeed(e))
      && (entries[i].builtIn ==> Listed(after, id))
      && (forall other :: other != id ==> (Listed(after, other) <==> Listed(entries, other)))
  {
    hide EntriesOk, OpenedUpTo, Dropped, Renumbered, RoundAt, Listed, SameShape, DistinctIds;
    var id, dropped := entries[i].id, Dropped(entries, i);
    var listed := Renumbered(dropped);
    DroppedIds(entries, i);
    OpenedShape(listed, after, files, filesAfter, stale, staleAfter, round);
    forall other
      ensures Listed(after, other) <==> Listed(dropped, other)
    {
      RenumberedIds(dropped, other);
      SameIds(listed, after, other);
    }
    forall e | e in after && e.id == id
      ensures entries[i].builtIn && e.builtIn && IsSeed(e)
    {
      StaysClosed(listed, after, files, filesAfter, stale, staleAfter, round, e);
      var l :| l in listed && l.id == e.id && (!l.imported ==> l == e);
      RenumberedOnly(dropped);
    }
  }

  /** An entry without an import comes out of publishing as it went in. */
  lemma StaysClosed(listed: seq<Entry>, after: seq<Entry>, files: map<Id, Files>, filesAfter: map<Id, Files>,
                    stale: set<Id>, staleAfter: set<Id>, round: Round, e: Entry)
    requires OpenedUpTo(listed, after, files, filesAfter, stale, staleAfter, round, |after|) && e in after
    ensures exists l :: l in listed && l.id == e.id && (!l.imported ==> l == e)
  {
    hide OpenedUpTo, RoundAt, Visited;
    var k :| 0 <= k < |after| && after[k] == e;
    OpenedShape(listed, after, files, filesAfter, stale, staleAfter, round);
    OpenedAt(listed, after, files, filesAfter, stale, staleAfter, round, k);
    assert listed[k] in listed;
    if !listed[k].imported {
      NothingToOpen(listed[k], e, FilesOf(files, e.id), FilesOf(filesAfter, e.id), e.id in stale, e.id in staleAfter,
                    round, Visited(listed[k], k, round));
    }
  }

  lemma NothingToOpen(before: Entry, after: Entry, f: Files, g: Files, wasStale: bool, isStale: bool, round: Round,
                      opens: bool)
    requires RoundAt(before, after, f, g, wasStale, isStale, round, opens) && !before.imported
    ensures after == before
  {
  }

  /** Deleting the files of a listed id, with its promise taken back. */
  lemma RemoveKeepsFloor(files: map<Id, Files>, id: Id, f: Files, entries: seq<Entry>, after: seq<Entry>,
                         removals: set<Id>, floor: map<Id, Gen>, stale: set<Id>, hollow: set<Id>)
    requires FloorOk(files, entries, removals, floor, stale, hollow)
    requires forall e :: e in after ==> (e.id == id && !e.imported && e.store.None?) || (e.id != id && e in entries)
    ensures FloorOk(files[id := f], after, removals + {id}, floor - {id}, stale - {id}, hollow - {id})
    ensures FloorOk(files[id := f], after, removals, floor - {id}, stale - {id}, hollow - {id})
  {
  }

  /** The list with entry i reset. */
  lemma ResetKeepsEntries(entries: seq<Entry>, i: nat)
    requires EntriesOk(entries) && i < |entries|
    ensures EntriesOk(entries[i := Reset(entries[i])])
  {
    ReplaceEntry(entries, i, Reset(entries[i]));
  }

  /** Whether a removal that finds the files f, held open like held, costs the import of a job in this
      phase: once reported it does, because nothing stops a retry of the removal then; before, unless the
      open database, which stays, is as new. An import that is still running loses nothing. */
  predicate LosesJob(phase: JobPhase, f: Files, held: Held) {
    phase.Reported? || (phase.ImportedOk? && !(held.db && f.db.Some? && f.db.value >= phase.gen))
  }

  ghost function LosesJobs(jobs: map<nat, Job>, id: Id, f: Files, held: Held): set<nat> {
    set j | j in jobs && jobs[j].id == id && LosesJob(jobs[j].phase, f, held)
  }

  /** The jobs a removal loses, told before it. */
  lemma LostExactly(jobs: map<nat, Job>, files: map<Id, Files>, removals: set<Id>, lost: set<nat>, id: Id, held: Held)
    requires JobsOk(jobs, files, removals, lost)
    ensures lost + LostJobs(jobs, id, AfterRemoval(FilesOf(files, id), held))
         == lost + LosesJobs(jobs, id, FilesOf(files, id), held)
  {
    hide AfterRemoval;
    var f := FilesOf(files, id);
    forall j | j in jobs && j !in lost && jobs[j].id == id && jobs[j].phase.ImportedOk?
      ensures NewestAtLeast(AfterRemoval(f, held), jobs[j].phase.gen)
         <==> held.db && f.db.Some? && f.db.value >= jobs[j].phase.gen
    {
      RemovalLosesImport(f, held, jobs[j].phase.gen);
    }
  }

  /** A removal costs exactly the jobs it loses. */
  lemma RemoveKeepsJobs(files: map<Id, Files>, id: Id, f: Files, jobs: map<nat, Job>, removals: set<Id>, lost: set<nat>)
    requires JobsOk(jobs, files, removals, lost)
    ensures JobsOk(jobs, files[id := f], removals + {id}, lost + LostJobs(jobs, id, f))
    ensures JobsOk(jobs, files[id := f], removals, lost + LostJobs(jobs, id, f))
  {
  }

  lemma RemovedFilesOk(files: map<Id, Files>, nextGen: Gen, id: Id, held: Held)
    requires FilesOk(files, nextGen)
    ensures FilesOk(files[id := AfterRemoval(FilesOf(files, id), held)], nextGen)
  {
    UnrollRemoval(FilesOf(files, id), held);
    RemovalKeepsAgreement(FilesOf(files, id), held);
  }

  lemma DropKeepsFloor(files: map<Id, Files>, f: Files, entries: seq<Entry>, i: nat, removals: set<Id>,
                       floor: map<Id, Gen>, stale: set<Id>, hollow: set<Id>)
    requires i < |entries| && EntriesOk(entries) && FloorOk(files, entries, removals, floor, stale, hollow)
    ensures var id := entries[i].id;
      && EntriesOk(Dropped(entries, i))
      && FloorOk(files[id := f], Dropped(entries, i), removals + {id}, floor - {id}, stale - {id}, hollow - {id})
      && FloorOk(files[id := f], Dropped(entries, i), removals, floor - {id}, stale - {id}, hollow - {id})
  {
    hide EntriesOk, FloorOk, Dropped;
    DroppedKeeps(entries, i);
    RemoveKeepsFloor(files, entries[i].id, f, entries, Dropped(entries, i), removals, floor, stale, hollow);
  }

  /** Deleting the files of an entry and dropping it breaks no other promise, whether the deletion is done
      or pending, and loses exactly the finished imports whose generation is gone. */
  lemma DropKeeps(files: map<Id, Files>, nextGen: Gen, held: Held, entries: seq<Entry>, i: nat, jobs: map<nat, Job>,
                  removals: set<Id>, floor: map<Id, Gen>, stale: set<Id>, hollow: set<Id>, lost: set<nat>)
    requires i < |entries| && EntriesOk(entries) && FilesOk(files, nextGen)
    requires FloorOk(files, entries, removals, floor, stale, hollow) && JobsOk(jobs, files, removals, lost)
    ensures var id := entries[i].id;
      var f := AfterRemoval(FilesOf(files, id), held);
      var after, more := files[id := f], lost + LosesJobs(jobs, id, FilesOf(files, id), held);
      && EntriesOk(Dropped(entries, i)) && FilesOk(after, nextGen)
      && FloorOk(after, Dropped(entries, i), removals + {id}, floor - {id}, stale - {id}, hollow - {id})
      && FloorOk(after, Dropped(entries, i), removals, floor - {id}, stale - {id}, hollow - {id})
      && JobsOk(jobs, after, removals + {id}, more) && JobsOk(jobs, after, removals, more)
  {
    hide EntriesOk, FilesOk, FloorOk, JobsOk, Dropped, AfterRemoval, LostJobs, LosesJobs;
    var id := entries[i].id;
    var f := AfterRemoval(FilesOf(files, id), held);
    RemovedFilesOk(files, nextGen, id, held);
    DropKeepsFloor(files, f, entries, i, removals, floor, stale, hollow);
    RemoveKeepsJobs(files, id, f, jobs, removals, lost);
    LostExactly(jobs, files, removals, lost, id, held);
  }

  /** Deleting the files of a pending removal breaks no promise: its id has no applied import, and no
      running one. */
  lemma RemovalIsSafe(files: map<Id, Files>, nextGen: Gen, id: Id, held: Held, entries: seq<Entry>, jobs: map<nat, Job>,
                      running: map<Id, nat>, removals: set<Id>, floor: map<Id, Gen>, stale: set<Id>, hollow: set<Id>,
                      lost: set<nat>)
    requires FilesOk(files, nextGen) && FloorOk(files, entries, removals, floor, stale, hollow)
    requires JobsOk(jobs, files, removals, lost) && CountsOk(jobs, running)
    requires id in removals && id !in running
    ensures var after := files[id := AfterRemoval(FilesOf(files, id), held)];
      && FilesOk(after, nextGen) && FloorOk(after, entries, removals, floor, stale, hollow)
      && JobsOk(jobs, after, removals, lost)
  {
    var f := FilesOf(files, id);
    RemovedFilesOk(files, nextGen, id, held);
    FloorAfterFiles(files, id, AfterRemoval(f, held), entries, removals, floor, stale, hollow);
    forall j | j in jobs && jobs[j].id == id
      ensures !jobs[j].phase.ImportedOk?
    {
      assert j !in UnreportedJobs(jobs, id);
    }
    JobsAfterFiles(jobs, files, id, AfterRemoval(f, held), removals, lost);
  }

  lemma FewerRemovals(files: map<Id, Files>, entries: seq<Entry>, jobs: map<nat, Job>, removals: set<Id>,
                      fewer: set<Id>, floor: map<Id, Gen>, stale: set<Id>, hollow: set<Id>, lost: set<nat>)
    requires FloorOk(files, entries, removals, floor, stale, hollow) && JobsOk(jobs, files, removals, lost)
    requires fewer <= removals
    ensures FloorOk(files, entries, fewer, floor, stale, hollow) && JobsOk(jobs, files, fewer, lost)
  {
  }

  /** Taking over recorded removals of ids without an import, while nothing is imported or applied. */
  lemma AdoptKeeps(files: map<Id, Files>, entries: seq<Entry>, removals: set<Id>, recorded: set<Id>, stale: set<Id>,
                   hollow: set<Id>, lost: set<nat>)
    requires FloorOk(files, entries, removals, map[], stale, hollow) && JobsOk(map[], files, removals, lost)
    ensures var more := removals + set id | id in recorded && !(exists e :: e in entries && e.id == id && e.imported);
      FloorOk(files, entries, more, map[], stale, hollow) && JobsOk(map[], files, more, lost)
  {
  }

  // ---------------------------------------------------------------- imports

  lemma JobsAfterStart(jobs: map<nat, Job>, files: map<Id, Files>, removals: set<Id>, lost: set<nat>, j: nat, id: Id)
    requires JobsOk(jobs, files, removals, lost) && j !in jobs
    ensures JobsOk(jobs[j := Job(id, Importing)], files, removals, lost)
  {
  }

  lemma JobsAfterReport(jobs: map<nat, Job>, files: map<Id, Files>, removals: set<Id>, lost: set<nat>, j: nat,
                        phase: JobPhase)
    requires JobsOk(jobs, files, removals, lost) && j in jobs
    requires phase == Closed
      || (jobs[j].phase.ImportedOk? && phase == Reported(jobs[j].phase.gen) && jobs[j].id !in removals)
    ensures JobsOk(jobs[j := Job(jobs[j].id, phase)], files, removals, lost)
  {
  }

  /** A reported success ends a pending removal of its id, any other end leaves the removals alone. */
  lemma ReportKeeps(files: map<Id, Files>, entries: seq<Entry>, jobs: map<nat, Job>, running: map<Id, nat>,
                    removals: set<Id>, floor: map<Id, Gen>, stale: set<Id>, hollow: set<Id>, lost: set<nat>,
                    j: nat, phase: JobPhase)
    requires FloorOk(files, entries, removals, floor, stale, hollow) && JobsOk(jobs, files, removals, lost)
    requires CountsOk(jobs, running) && j in jobs && Unreported(jobs[j].phase)
    requires phase == Closed || (jobs[j].phase.ImportedOk? && phase == Reported(jobs[j].phase.gen))
    ensures var id := jobs[j].id;
      var after, fewer := jobs[j := Job(id, phase)], if phase.Reported? then removals - {id} else removals;
      && id in running && running[id] >= 1 && CountsOk(after, CountedOut(running, id))
      && FloorOk(files, entries, fewer, floor, stale, hollow) && JobsOk(after, files, fewer, lost)
  {
    hide FloorOk, JobsOk, CountsOk;
    var id := jobs[j].id;
    var fewer := if phase.Reported? then removals - {id} else removals;
    CountAfterReport(jobs, running, j, phase);
    FewerRemovals(files, entries, jobs, removals, fewer, floor, stale, hollow, lost);
    JobsAfterReport(jobs, files, fewer, lost, j, phase);
  }

  lemma FinishIsSafe(files: map<Id, Files>, nextGen: Gen, id: Id, held: Held, dbDenied: bool, stageDenied: bool,
                     keysDenied: bool, entries: seq<Entry>, jobs: map<nat, Job>, j: nat, removals: set<Id>,
                     floor: map<Id, Gen>, stale: set<Id>, hollow: set<Id>, lost: set<nat>)
    requires FilesOk(files, nextGen) && FloorOk(files, entries, removals, floor, stale, hollow)
    requires JobsOk(jobs, files, removals, lost) && j in jobs && jobs[j] == Job(id, Importing)
    ensures var done := Finished(FilesOf(files, id), held, nextGen, dbDenied, stageDenied, keysDenied);
      var after := files[id := if done.Some? then done.value else FilesOf(files, id)];
      var phase := if done.Some? then ImportedOk(nextGen) else ImportFailed;
      && FilesOk(after, if done.Some? then nextGen + 1 else nextGen)
      && FloorOk(after, entries, removals, floor, stale, hollow)
      && JobsOk(jobs[j := Job(id, phase)], after, removals, lost)
      && (done.Some? ==> Newest(done.value) == Some(nextGen))
      && (!dbDenied && !stageDenied ==> done.Some?)
  {
    var f := FilesOf(files, id);
    var done := Finished(f, held, nextGen, dbDenied, stageDenied, keysDenied);
    var g := if done.Some? then done.value else f;
    if done.Some? {
      FinishKeepsAgreement(f, held, nextGen, dbDenied, stageDenied, keysDenied);
    }
    NewestDated(f, nextGen);
    FloorAfterFiles(files, id, g, entries, removals, floor, stale, hollow);
    JobsAfterFiles(jobs, files, id, g, removals, lost);
  }

  lemma NewestDated(f: Files, nextGen: Gen)
    requires Dated(f, nextGen)
    ensures forall g: nat :: NewestAtLeast(f, g) ==> g < nextGen
  {
  }

  /** The entry of an applied import, before its store is opened. */
  function MarkedImported(e: Entry): Entry {
    e.(imported := true, needsReimport := false, storeUnavailable := false, store := None)
  }

  /** The floor after an import of generation g is applied: raised, unless a removal lost the import. */
  function Raised(floor: map<Id, Gen>, id: Id, g: Gen, isLost: bool): map<Id, Gen> {
    if isLost || (id in floor && floor[id] > g) then floor else floor[id := g]
  }

  /** An applied import: its entry is closed and marked imported, and its generation is the new floor;
      when a removal lost it, the entry is marked imported without one. */
  lemma ApplyKeeps(files: map<Id, Files>, entries: seq<Entry>, jobs: map<nat, Job>, running: map<Id, nat>,
                   removals: set<Id>, floor: map<Id, Gen>, stale: set<Id>, hollow: set<Id>, lost: set<nat>,
                   i: nat, j: nat)
    requires EntriesOk(entries) && FloorOk(files, entries, removals, floor, stale, hollow) && CountsOk(jobs, running)
    requires JobsOk(jobs, files, removals, lost) && i < |entries| && j in jobs
    requires entries[i].id == jobs[j].id && jobs[j].phase.Reported?
    ensures var id, after := jobs[j].id, entries[i := MarkedImported(entries[i])];
      && EntriesOk(after)
      && FloorOk(files, after, removals, Raised(floor, id, jobs[j].phase.gen, j in lost), stale - {id},
                 if j in lost && id !in floor then hollow + {id} else hollow - {id})
      && JobsOk(jobs[j := Job(id, Closed)], files, removals, lost) && CountsOk(jobs[j := Job(id, Closed)], running)
  {
    CountAfterPhase(jobs, running, j, Closed);
    assert entries[i] in entries;
    ReplaceEntry(entries, i, MarkedImported(entries[i]));
    forall k | 0 <= k < |entries| && k != i
      ensures entries[k].id != entries[i].id
    {
    }
  }

  lemma ReportedIsNewest(jobs: map<nat, Job>, files: map<Id, Files>, removals: set<Id>, lost: set<nat>, j: nat)
    requires JobsOk(jobs, files, removals, lost) && j in jobs && j !in lost && jobs[j].phase.Reported?
    ensures NewestAtLeast(FilesOf(files, jobs[j].id), jobs[j].phase.gen)
  {
  }

  /** An imported entry that asks for another import only when its store was found to be of another schema. */
  predicate IsCurrent(e: Entry, f: Files, env: Env) {
    e.imported && (e.needsReimport ==> e.store.None? && e.storeUnavailable && Outdated(f, env))
  }

  /** What is published of an entry that was asked for: its store exactly when it is enabled and can be
      opened, on the generation OpensOn names. */
  lemma AppliedIsPublished(closed: seq<Entry>, entries: seq<Entry>, files: map<Id, Files>, filesAfter: map<Id, Files>,
                           stale: set<Id>, staleAfter: set<Id>, round: Round, i: nat)
    requires OpenedUpTo(closed, entries, files, filesAfter, stale, staleAfter, round, |entries|) && EntriesOk(entries)
    requires i < |closed| && round.asked == Some(i) && closed[i] == MarkedImported(closed[i])
    ensures var id := closed[i].id;
      var f, held := FilesOf(files, id), HeldFor(round.locks, round.alive, id);
      && ((exists h :: h in Handles(entries) && h.id == id) <==>
            closed[i].enabled && Openable(id, f, held, round.env, id in round.running))
      && (forall h :: h in Handles(entries) && h.id == id ==> Some(h.store.db) == OpensOn(f, DeniedFor(round.env, id)))
    ensures |entries| == |closed| && entries[i].id == closed[i].id
    ensures IsCurrent(entries[i], FilesOf(filesAfter, closed[i].id), round.env)
  {
    hide OpenedUpTo, Handles, HeldFor, PromotionResult, AfterPromotion;
    OpenedAt(closed, entries, files, filesAfter, stale, staleAfter, round, i);
    PublishedStore(entries, i);
  }

  /** When what is published is older than generation g, which is on disk. */
  lemma OlderIsPublished(snapshot: seq<Handle>, enabled: bool, id: Id, f: Files, held: Held, env: Env, isRunning: bool,
                         nextGen: Gen, g: Gen)
    requires HeldTogether(held) && Dated(f, nextGen) && NewestAtLeast(f, g)
    requires (exists h :: h in snapshot && h.id == id) <==> enabled && Openable(id, f, held, env, isRunning)
    requires forall h :: h in snapshot && h.id == id ==> Some(h.store.db) == OpensOn(f, DeniedFor(env, id))
    ensures (exists h :: h in snapshot && h.id == id && h.store.db < g)
       <==> enabled && OpensStale(id, f, held, env, isRunning, g)
  {
    hide Openable, OpensStale;
    OpensStaleExactly(id, f, held, env, isRunning, nextGen, g);
  }

  ghost predicate IsEnabled(entries: seq<Entry>, id: Id) {
    exists e :: e in entries && e.id == id && e.enabled
  }

  lemma EnabledAt(entries: seq<Entry>, i: nat)
    requires EntriesOk(entries) && i < |entries|
    ensures IsEnabled(entries, entries[i].id) <==> entries[i].enabled
  {
    if e :| e in entries && e.id == entries[i].id && e.enabled {
      var k :| 0 <= k < |entries| && entries[k] == e;
    }
  }

  ghost predicate IsBuiltIn(entries: seq<Entry>, id: Id) {
    exists e :: e in entries && e.id == id && e.builtIn
  }

  lemma BuiltInAt(entries: seq<Entry>, i: nat)
    requires EntriesOk(entries) && i < |entries|
    ensures IsBuiltIn(entries, entries[i].id) <==> entries[i].builtIn
  {
    if e :| e in entries && e.id == entries[i].id && e.builtIn {
      var k :| 0 <= k < |entries| && entries[k] == e;
    }
  }
}
