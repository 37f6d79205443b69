/** The files of one dictionary store and the protocols that replace and delete them
    (src/dict/store.cpp). File contents are import generations: a key filter of generation g indexes
    the database of generation g. */
module StoreFiles {
  import opened Basics

  type Gen = nat

  /** The four places a store keeps files at. */
  datatype Slot = Db | Keys | StagedDb | StagedKeys

  datatype Files = Files(db: Option<Gen>, keys: Option<Gen>, stagedDb: Option<Gen>, stagedKeys: Option<Gen>)

  const NO_FILES := Files(None, None, None, None)

  /** Which files a live Store holds open against replacement and deletion. */
  datatype Held = Held(db: bool, keys: bool)

  const NOT_HELD := Held(false, false)

  function At(f: Files, slot: Slot): Option<Gen> {
    match slot
    case Db => f.db
    case Keys => f.keys
    case StagedDb => f.stagedDb
    case StagedKeys => f.stagedKeys
  }

  function With(f: Files, slot: Slot, content: Option<Gen>): Files {
    match slot
    case Db => f.(db := content)
    case Keys => f.(keys := content)
    case StagedDb => f.(stagedDb := content)
    case StagedKeys => f.(stagedKeys := content)
  }

  predicate IsOpen(held: Held, slot: Slot) {
    (slot == Db && held.db) || (slot == Keys && held.keys)
  }

  // ---------------------------------------------------------------- single file operations

  datatype FileOp = Delete(slot: Slot) | Move(source: Slot, target: Slot)

  datatype FileResult = Done | InUse | Denied

  /** removeFile(): a delete of a file that is there fails for an open file, or for any other reason when
      denied. renameOver(): a move fails for an open target, or for any other reason when denied. */
  function Outcome(op: FileOp, f: Files, held: Held, denied: bool): FileResult {
    match op
    case Delete(slot) =>
      if At(f, slot).None? then Done else if denied then Denied else if IsOpen(held, slot) then InUse else Done
    case Move(_, target) =>
      if denied then Denied else if At(f, target).Some? && IsOpen(held, target) then InUse else Done
  }

  function Effect(op: FileOp, f: Files): Files {
    match op
    case Delete(slot) => With(f, slot, None)
    case Move(source, target) => With(With(f, target, At(f, source)), source, None)
  }

  // ---------------------------------------------------------------- agreement

  /** A key filter beside a database indexes that database, and a staged key filter indexes the staged
      database or, when that is gone, the database it will land beside. */
  predicate SidecarAgrees(f: Files) {
    && (f.keys.Some? && f.db.Some? ==> f.keys == f.db)
    && (f.stagedKeys.Some? && f.stagedDb.Some? ==> f.stagedKeys == f.stagedDb)
    && (f.stagedKeys.Some? && f.stagedDb.None? && f.db.Some? ==> f.stagedKeys == f.db)
  }

  /** Stores open their key filter together with their database. */
  predicate HeldTogether(held: Held) {
    held.keys ==> held.db
  }

  /** The newest generation on disk. */
  function Newest(f: Files): Option<Gen> {
    if f.stagedDb.Some? then f.stagedDb else f.db
  }

  // ---------------------------------------------------------------- promotion

  datatype StagedStore = NoneStaged | Promoted | Pending | Failed

  /** The file operations of a promotion, in order. */
  function PromotionPlan(f: Files): seq<FileOp> {
    (if f.stagedDb.Some? then [Delete(Keys), Move(StagedDb, Db)] else [])
    + (if f.stagedKeys.Some? then [Move(StagedKeys, Keys)] else [])
  }

  /** Which operations of a plan are denied for a reason other than an open file. */
  type Denials = FileOp -> bool

  /** What stopping a plan after its first n operations leaves: an operation that fails ends it. */
  function RunPlan(plan: seq<FileOp>, f: Files, held: Held, denied: Denials, n: nat): Files
    decreases |plan|
  {
    if plan == [] || n == 0 || Outcome(plan[0], f, held, denied(plan[0])) != Done then f
    else RunPlan(plan[1..], Effect(plan[0], f), held, denied, n - 1)
  }

  /** How a plan ends. */
  function PlanResult(plan: seq<FileOp>, f: Files, held: Held, denied: Denials): FileResult
    decreases |plan|
  {
    if plan == [] then Done
    else
      var outcome := Outcome(plan[0], f, held, denied(plan[0]));
      if outcome != Done then outcome else PlanResult(plan[1..], Effect(plan[0], f), held, denied)
  }

  function PromotionResult(f: Files, held: Held, denied: Denials): StagedStore {
    if PromotionPlan(f) == [] then NoneStaged
    else
      match PlanResult(PromotionPlan(f), f, held, denied)
      case Done => Promoted
      case InUse => Pending
      case Denied => Failed
  }

  function AfterPromotion(f: Files, held: Held, denied: Denials): Files {
    RunPlan(PromotionPlan(f), f, held, denied, 3)
  }

  lemma UnfoldPlan(plan: seq<FileOp>, f: Files, held: Held, denied: Denials, n: nat)
    ensures RunPlan(plan, f, held, denied, n) ==
      if plan == [] || n == 0 || Outcome(plan[0], f, held, denied(plan[0])) != Done then f
      else RunPlan(plan[1..], Effect(plan[0], f), held, denied, n - 1)
    ensures PlanResult(plan, f, held, denied) ==
      if plan == [] then Done
      else if Outcome(plan[0], f, held, denied(plan[0])) != Done then Outcome(plan[0], f, held, denied(plan[0]))
      else PlanResult(plan[1..], Effect(plan[0], f), held, denied)
  {
  }

  /** Unfolds the at most three operations of a promotion. */
  lemma UnfoldPromotion(f: Files, held: Held, denied: Denials, n: nat)
    ensures var last := Move(StagedKeys, Keys);
      var tail := if f.stagedKeys.Some? then [last] else [];
      var noKeys, moved := f.(keys := None), Files(f.stagedDb, None, None, f.stagedKeys);
      if f.stagedDb.None? then
        && PromotionPlan(f) == tail
        && (RunPlan(tail, f, held, denied, n) ==
              if tail == [] || n == 0 || Outcome(last, f, held, denied(last)) != Done then f else Effect(last, f))
        && PlanResult(tail, f, held, denied) == if tail == [] then Done else Outcome(last, f, held, denied(last))
      else
        && PromotionPlan(f) == [Delete(Keys), Move(StagedDb, Db)] + tail
        && Effect(Delete(Keys), f) == noKeys && Effect(Move(StagedDb, Db), noKeys) == moved
        && (RunPlan(PromotionPlan(f), f, held, denied, n) ==
              if n == 0 || Outcome(Delete(Keys), f, held, denied(Delete(Keys))) != Done then f
              else if n == 1 || Outcome(Move(StagedDb, Db), noKeys, held, denied(Move(StagedDb, Db))) != Done then
                noKeys
              else if tail == [] || n == 2 || Outcome(last, moved, held, denied(last)) != Done then moved
              else Effect(last, moved))
        && (PlanResult(PromotionPlan(f), f, held, denied) ==
              if Outcome(Delete(Keys), f, held, denied(Delete(Keys))) != Done then
                Outcome(Delete(Keys), f, held, denied(Delete(Keys)))
              else if Outcome(Move(StagedDb, Db), noKeys, held, denied(Move(StagedDb, Db))) != Done then
                Outcome(Move(StagedDb, Db), noKeys, held, denied(Move(StagedDb, Db)))
              else if tail == [] then Done
              else Outcome(last, moved, held, denied(last)))
  {
    hide Outcome;
    var last := Move(StagedKeys, Keys);
    var tail := if f.stagedKeys.Some? then [last] else [];
    var plan := PromotionPlan(f);
    var noKeys, moved := f.(keys := None), Files(f.stagedDb, None, None, f.stagedKeys);
    if f.stagedDb.Some? {
      assert plan[1..] == [Move(StagedDb, Db)] + tail && plan[1..][1..] == tail;
      UnfoldPlan(plan, f, held, denied, n);
      UnfoldPlan(plan[1..], noKeys, held, denied, if n > 0 then n - 1 else 0);
      UnfoldPlan(tail, moved, held, denied, if n > 1 then n - 2 else 0);
      UnfoldPlan([], Effect(last, moved), held, denied, if n > 2 then n - 3 else 0);
    } else {
      assert plan == tail;
      UnfoldPlan(tail, f, held, denied, n);
      UnfoldPlan([], Effect(last, f), held, denied, if n > 0 then n - 1 else 0);
    }
    if f.stagedKeys.Some? {
      assert tail[1..] == [];
    }
  }

  /** A promotion keeps the agreement, and the newest generation, wherever it stops. */
  lemma PromotionKeepsAgreement(f: Files, held: Held, denied: Denials, n: nat)
    requires SidecarAgrees(f)
    ensures SidecarAgrees(RunPlan(PromotionPlan(f), f, held, denied, n))
    ensures Newest(RunPlan(PromotionPlan(f), f, held, denied, n)) == Newest(f)
  {
    hide RunPlan;
    hide PlanResult;
    hide PromotionPlan;
    UnfoldPromotion(f, held, denied, n);
  }

  /** How a promotion ends, and what it leaves behind. Pending means that a live store holds the
      database, and that the staged files still wait. */
  lemma PromotionOutcome(f: Files, held: Held, denied: Denials)
    requires HeldTogether(held)
    ensures var r := AfterPromotion(f, held, denied);
      match PromotionResult(f, held, denied)
      case NoneStaged => f.stagedDb.None? && f.stagedKeys.None? && r == f
      case Promoted => r.stagedDb.None? && r.stagedKeys.None? && r.db == Newest(f)
      case Pending => held.db && r.stagedDb == f.stagedDb && r.stagedKeys == f.stagedKeys
                      && (r.stagedDb.Some? || r.stagedKeys.Some?) && r.db == f.db
      case Failed => r.stagedDb.Some? || r.stagedKeys.Some?
  {
    hide RunPlan;
    hide PlanResult;
    UnfoldPromotion(f, held, denied, 3);
  }

  /** The staged database cannot take the place of the one it replaces: the move is denied, or the delete
      of the key filter that has to go first. */
  predicate Superseded(f: Files, denied: Denials) {
    f.stagedDb.Some? && ((f.keys.Some? && denied(Delete(Keys))) || denied(Move(StagedDb, Db)))
  }

  /** A promotion that does not report Pending leaves the staged database waiting, and with it the
      superseded one in place, exactly when it is denied. */
  lemma StagedDatabaseLeft(f: Files, held: Held, denied: Denials)
    requires f.stagedDb.Some? && PromotionResult(f, held, denied) != Pending
    ensures AfterPromotion(f, held, denied).stagedDb.Some? <==> Superseded(f, denied)
    ensures AfterPromotion(f, held, denied).stagedDb.Some? ==>
      AfterPromotion(f, held, denied).db == f.db && PromotionResult(f, held, denied) == Failed
  {
    hide RunPlan;
    hide PlanResult;
    UnfoldPromotion(f, held, denied, 3);
  }

  /** Promoting again what one promotion left changes nothing. */
  lemma PromotedTwice(f: Files, held: Held, denied: Denials)
    ensures var g := AfterPromotion(f, held, denied);
      && AfterPromotion(g, held, denied) == g
      && (PromotionResult(g, held, denied) == Pending ==> PromotionResult(f, held, denied) == Pending)
  {
    hide RunPlan;
    hide PlanResult;
    UnfoldPromotion(f, held, denied, 3);
    UnfoldPromotion(AfterPromotion(f, held, denied), held, denied, 3);
  }

  // ---------------------------------------------------------------- removal

  datatype StoreRemoval = Removed | RemovalPending | RemovalFailed

  const REMOVAL_ORDER: seq<Slot> := [Db, Keys, StagedDb, StagedKeys]

  /** What stopping a removal after its first n deletions leaves: an open file is skipped. */
  function RunRemoval(f: Files, held: Held, n: nat): Files
    requires n <= 4
  {
    if n == 0 then f
    else
      var before := RunRemoval(f, held, n - 1);
      var op := Delete(REMOVAL_ORDER[n - 1]);
      if Outcome(op, before, held, false) == Done then Effect(op, before) else before
  }

  /** What a removal leaves when no deletion is denied. */
  function AfterRemoval(f: Files, held: Held): Files {
    RunRemoval(f, held, 4)
  }

  /** How many deletions a removal gets through before one is denied. */
  function DeletionsDone(f: Files, denied: Denials): (n: nat)
    ensures n <= 4
  {
    if f.db.Some? && denied(Delete(Db)) then 0
    else if f.keys.Some? && denied(Delete(Keys)) then 1
    else if f.stagedDb.Some? && denied(Delete(StagedDb)) then 2
    else if f.stagedKeys.Some? && denied(Delete(StagedKeys)) then 3
    else 4
  }

  lemma UnrollRemoval(f: Files, held: Held)
    ensures var db := if held.db then f.db else None;
      var keys := if held.keys then f.keys else None;
      && RunRemoval(f, held, 1) == f.(db := db)
      && RunRemoval(f, held, 2) == f.(db := db, keys := keys)
      && RunRemoval(f, held, 3) == Files(db, keys, None, f.stagedKeys)
      && RunRemoval(f, held, 4) == Files(db, keys, None, None)
  {
    assert RunRemoval(f, held, 0) == f;
    assert RunRemoval(f, held, 1) == f.(db := if held.db then f.db else None);
    assert RunRemoval(f, held, 2) == RunRemoval(f, held, 1).(keys := if held.keys then f.keys else None);
    assert RunRemoval(f, held, 3) == RunRemoval(f, held, 2).(stagedDb := None);
    assert RunRemoval(f, held, 4) == RunRemoval(f, held, 3).(stagedKeys := None);
  }

  /** What a removal leaves has nothing to promote. */
  lemma NothingStagedAfterRemoval(f: Files, held: Held, denied: Denials)
    ensures AfterPromotion(AfterRemoval(f, held), held, denied) == AfterRemoval(f, held)
    ensures PromotionResult(AfterRemoval(f, held), held, denied) == NoneStaged
  {
    UnrollRemoval(f, held);
  }

  /** A completed removal keeps the agreement. */
  lemma RemovalKeepsAgreement(f: Files, held: Held)
    requires SidecarAgrees(f)
    ensures SidecarAgrees(AfterRemoval(f, held))
  {
    UnrollRemoval(f, held);
  }

  /** A removal that stops between two deletions keeps the agreement, except in one place: after the
      staged database of an open store is deleted and before its staged key filter is, when that key
      filter indexes another generation than the open database. */
  lemma InterruptedRemoval(f: Files, held: Held, n: nat)
    requires SidecarAgrees(f) && HeldTogether(held) && n <= 4
    ensures SidecarAgrees(RunRemoval(f, held, n)) <==>
      !(n == 3 && held.db && f.db.Some? && f.stagedKeys.Some? && f.stagedKeys != f.db)
  {
    UnrollRemoval(f, held);
    if n == 0 {
    } else if n == 1 {
    } else if n == 2 {
    } else if n == 3 {
    } else {
    }
  }

  const NEVER: Denials := op => false

  /** Without a denial every deletion is done or finds an open file. */
  lemma NothingDenied(f: Files, held: Held)
    ensures DeletionsDone(f, NEVER) == 4 && RunRemoval(f, held, DeletionsDone(f, NEVER)) == AfterRemoval(f, held)
  {
  }

  /** A removal that fails stops like one that is interrupted: it keeps the agreement except when the
      delete of the staged key filter is denied in that place. */
  lemma FailedRemoval(f: Files, held: Held, denied: Denials)
    requires SidecarAgrees(f) && HeldTogether(held)
    ensures SidecarAgrees(RunRemoval(f, held, DeletionsDone(f, denied))) <==>
      !(DeletionsDone(f, denied) == 3 && held.db && f.db.Some? && f.stagedKeys != f.db)
  {
    InterruptedRemoval(f, held, DeletionsDone(f, denied));
  }

  /** What the interrupted removal costs: the next promotion, with nothing open any more, puts a key
      filter of generation 2 beside the database of generation 1. */
  lemma InterruptedRemovalMisindexes()
    ensures var f := Files(Some(1), Some(1), Some(2), Some(2));
      var stopped := RunRemoval(f, Held(true, true), 3);
      var promoted := AfterPromotion(stopped, NOT_HELD, op => false);
      SidecarAgrees(f) && promoted.db == Some(1) && promoted.keys == Some(2)
  {
    var f := Files(Some(1), Some(1), Some(2), Some(2));
    UnrollRemoval(f, Held(true, true));
    var stopped := RunRemoval(f, Held(true, true), 3);
    assert stopped == Files(Some(1), Some(1), None, Some(2));
    assert PromotionPlan(stopped) == [Move(StagedKeys, Keys)];
    assert PromotionPlan(stopped)[1..] == [];
  }

  /** Deleting the files of an id whose finished import g is not applied yet loses that import, except
      when the open database is of generation g or newer already. */
  lemma RemovalLosesImport(f: Files, held: Held, g: Gen)
    requires Newest(f).Some? && Newest(f).value >= g
    ensures var after := AfterRemoval(f, held);
      (Newest(after).Some? && Newest(after).value >= g) <==> (held.db && f.db.Some? && f.db.value >= g)
  {
    UnrollRemoval(f, held);
  }

  // ---------------------------------------------------------------- a finished import

  /** What StoreWriter::finish() leaves of an import of generation g, in one step. dbDenied and
      stageDenied are failures of the database moves for another reason than an open file, keysDenied
      one of the key filter move. None when the import fails and the files stay as they were. */
  function Finished(f: Files, held: Held, g: Gen, dbDenied: bool, stageDenied: bool, keysDenied: bool): Option<Files> {
    var keys := if keysDenied then None else Some(g);
    if dbDenied then None
    else if f.db.Some? && held.db then
      if stageDenied then None else Some(f.(stagedDb := Some(g), stagedKeys := keys))
    else Some(Files(Some(g), keys, None, None))
  }

  /** An import fails at its end exactly when its database can neither be put in place nor staged; without its key
      filter it does not. */
  lemma FinishFails(f: Files, held: Held, g: Gen, dbDenied: bool, stageDenied: bool, keysDenied: bool)
    ensures Finished(f, held, g, dbDenied, stageDenied, keysDenied).None?
       <==> dbDenied || (stageDenied && held.db && f.db.Some?)
  {
  }

  /** A finished import keeps the agreement and is the newest generation on disk. */
  lemma FinishKeepsAgreement(f: Files, held: Held, g: Gen, dbDenied: bool, stageDenied: bool, keysDenied: bool)
    requires SidecarAgrees(f) && Finished(f, held, g, dbDenied, stageDenied, keysDenied).Some?
    ensures var r := Finished(f, held, g, dbDenied, stageDenied, keysDenied).value;
      SidecarAgrees(r) && Newest(r) == Some(g)
      && (if held.db && f.db.Some? then r.db == f.db && r.keys == f.keys && r.stagedDb == Some(g)
          else r.db == Some(g) && r.stagedDb.None? && r.stagedKeys.None?)
      && (!keysDenied <==> (if held.db && f.db.Some? then r.stagedKeys else r.keys) == Some(g))
  {
  }

  // ---------------------------------------------------------------- the directory

  type Id = nat

  function FilesOf(files: map<Id, Files>, id: Id): Files {
    if id in files then files[id] else NO_FILES
  }

  /** The store files of every dictionary id, changed one file operation at a time. */
  class StoreDirectory {
    var files: map<Id, Files>

    constructor (files: map<Id, Files>)
      ensures this.files == files
    {
      this.files := files;
    }

    function Of(id: Id): Files
      reads this
    {
      FilesOf(files, id)
    }

    /** removeFile(): true when the file is absent afterwards. */
    method RemoveFile(id: Id, slot: Slot, held: Held, denied: bool) returns (absent: bool, inUse: bool)
      modifies this
      ensures var outcome := Outcome(Delete(slot), old(Of(id)), held, denied);
        absent == (outcome == Done) && inUse == (outcome == InUse)
        && files == old(files)[id := if outcome == Done then Effect(Delete(slot), old(Of(id))) else old(Of(id))]
    {
      var f := Of(id);
      inUse := At(f, slot).Some? && !denied && IsOpen(held, slot);
      absent := At(f, slot).None? || (!denied && !inUse);
      files := files[id := if absent then With(f, slot, None) else f];
    }

    /** renameOver(): moves one file onto another in one step. */
    method RenameOver(id: Id, source: Slot, target: Slot, held: Held, denied: bool) returns (moved: bool, inUse: bool)
      modifies this
      ensures var outcome := Outcome(Move(source, target), old(Of(id)), held, denied);
        moved == (outcome == Done) && inUse == (outcome == InUse)
        && files == old(files)[id := if outcome == Done then Effect(Move(source, target), old(Of(id))) else old(Of(id))]
    {
      var f := Of(id);
      inUse := !denied && At(f, target).Some? && IsOpen(held, target);
      moved := !denied && !inUse;
      files := files[id := if moved then With(With(f, target, At(f, source)), source, None) else f];
    }

    /** promoteStagedStore(): the stale key filter goes first, then the database moves, then the new
        key filter. */
    method PromoteStagedStore(id: Id, held: Held, denied: Denials) returns (result: StagedStore)
      modifies this
      ensures result == PromotionResult(old(Of(id)), held, denied)
      ensures files == old(files)[id := AfterPromotion(old(Of(id)), held, denied)]
    {
      hide RunPlan;
      hide PlanResult;
      hide PromotionPlan;
      var f := Of(id);
      UnfoldPromotion(f, held, denied, 3);
      var haveDb := f.stagedDb.Some?;
      var haveKeys := f.stagedKeys.Some?;
      if !haveDb && !haveKeys {
        files := files[id := f];
        return NoneStaged;
      }
      if haveDb {
        var absent, inUse := RemoveFile(id, Keys, held, denied(Delete(Keys)));
        if !absent {
          return if inUse then Pending else Failed;
        }
        var moved: bool;
        moved, inUse := RenameOver(id, StagedDb, Db, held, denied(Move(StagedDb, Db)));
        if !moved {
          return if inUse then Pending else Failed;
        }
      }
      if haveKeys {
        var moved, inUse := RenameOver(id, StagedKeys, Keys, held, denied(Move(StagedKeys, Keys)));
        if !moved {
          return if inUse then Pending else Failed;
        }
      }
      result := Promoted;
    }

    /** removeStoreFiles(): deletes all four files, skipping an open one, and gives up at the first delete
        that fails for another reason. */
    method RemoveStoreFiles(id: Id, held: Held, denied: Denials) returns (result: StoreRemoval)
      modifies this
      ensures files == old(files)[id := RunRemoval(old(Of(id)), held, DeletionsDone(old(Of(id)), denied))]
      ensures result == RemovalFailed <==> DeletionsDone(old(Of(id)), denied) < 4
      ensures result == Removed ==> Of(id) == NO_FILES
      ensures result == RemovalPending ==> Of(id) != NO_FILES
    {
      hide RunRemoval;
      var f := Of(id);
      UnrollRemoval(f, held);
      RemovalStep(f, held, 0);
      result := Removed;
      files := files[id := f];
      for n := 0 to 4
        invariant n <= DeletionsDone(f, denied)
        invariant files == old(files)[id := RunRemoval(f, held, n)]
        invariant result == Removed || result == RemovalPending
        invariant result == Removed <==>
          ((n >= 1 ==> RunRemoval(f, held, n).db.None?) && (n >= 2 ==> RunRemoval(f, held, n).keys.None?))
      {
        RemovalStep(f, held, n);
        var absent, inUse := RemoveFile(id, REMOVAL_ORDER[n], held, denied(Delete(REMOVAL_ORDER[n])));
        if !absent {
          if !inUse {
            return RemovalFailed;
          }
          result := RemovalPending;
        }
      }
    }

    /** The file part of StoreWriter::finish(), as one step. */
    method FinishStore(id: Id, held: Held, g: Gen, dbDenied: bool, stageDenied: bool, keysDenied: bool)
      returns (ok: bool)
      modifies this
      ensures var after := Finished(old(Of(id)), held, g, dbDenied, stageDenied, keysDenied);
        ok == after.Some? && files == old(files)[id := if after.Some? then after.value else old(Of(id))]
    {
      var f := Of(id);
      files := files[id := f];
      if dbDenied {
        return false;
      }
      if f.db.Some? && held.db {
        if stageDenied {
          return false;
        }
        f := f.(stagedDb := Some(g));
        f := f.(stagedKeys := if keysDenied then None else Some(g));
      } else {
        f := f.(db := Some(g));
        f := f.(stagedDb := None);
        f := f.(stagedKeys := None);
        f := f.(keys := if keysDenied then None else Some(g));
      }
      files := files[id := f];
      ok := true;
    }
  }

  lemma RemovalStep(f: Files, held: Held, n: nat)
    requires n < 4
    ensures var op := Delete(REMOVAL_ORDER[n]);
      var before := RunRemoval(f, held, n);
      RunRemoval(f, held, n + 1) == if Outcome(op, before, held, false) == Done then Effect(op, before) else before
    ensures RunRemoval(f, held, 0) == f
  {
  }
}
