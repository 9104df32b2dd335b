/**
  The store and the worker body in the form the service has them: tables that methods reassign, and a
  transaction object that buffers its writes. Each method is proved to make one step of EventPipeline.
 */
module EventStore {
  import opened Options
  import opened EventPipeline

  /** The locking query: oldest first, skipping rows another transaction holds. */
  method OldestCandidate(queue: map<nat, Row>, open: map<nat, Claimed>, w: Worker, now: int, delay: int) returns (oldest: Option<nat>)
    ensures oldest.None? ==> forall id :: !Candidate(queue, open, w, id, now, delay)
    ensures oldest.Some? ==>
              && Candidate(queue, open, w, oldest.value, now, delay)
              && forall id :: Candidate(queue, open, w, id, now, delay) ==> queue[oldest.value].createdAt <= queue[id].createdAt
  {
    oldest := None;
    var todo := queue.Keys;
    while todo != {}
      invariant todo <= queue.Keys
      invariant oldest.Some? ==> Candidate(queue, open, w, oldest.value, now, delay)
      invariant forall id :: id !in todo && Candidate(queue, open, w, id, now, delay) ==>
                  oldest.Some? && queue[oldest.value].createdAt <= queue[id].createdAt
      decreases todo
    {
      var id :| id in todo;
      todo := todo - {id};
      if !Locked(open, id) && Selects(w, queue[id], now, delay) {
        if oldest.None? || queue[id].createdAt < queue[oldest.value].createdAt {
          oldest := Some(id);
        }
      }
    }
  }

  class PostgresEventStore {
    var queue: map<nat, Row>
    var archive: map<nat, Archived>
    var open: map<nat, Claimed>
    var nextID: nat
    ghost var ledger: seq<Entry>

    ghost function Abs(): State
      reads this
    {
      State(queue, archive, open, ledger)
    }

    ghost predicate Valid()
      reads this
    {
      nextID == |ledger| && Inv(Abs())
    }

    constructor ()
      ensures Valid() && Abs() == INITIAL
    {
      queue, archive, open, nextID, ledger := map[], map[], map[], 0, [];
    }

    method CreateNftEvent(event: Event, now: int)
      requires Valid()
      modifies this
      ensures Valid() && Abs() == Next(old(Abs()), Push(event, now))
      ensures archive == old(archive) && open == old(open)
      ensures queue == if Accepts(old(queue), old(archive), event) then old(queue)[old(nextID) := Row(event, Init, Created, now)] else old(queue)
    {
      PushKeepsInv(Abs(), event, now);
      if Accepts(queue, archive, event) {
        queue := queue[nextID := Row(event, Init, Created, now)];
        nextID, ledger := nextID + 1, ledger + [Entry(event, [])];
      }
    }

    /** Locks the oldest row that the worker selects and nobody holds; None when there is no such row. */
    method GetNftEventTransaction(p: nat, w: Worker, now: int, delay: int) returns (claimed: Option<nat>)
      requires Valid() && p !in open
      modifies this`open
      ensures Valid()
      ensures claimed.None? ==> Abs() == old(Abs()) && forall id :: !Candidate(queue, open, w, id, now, delay)
      ensures claimed.Some? ==>
                && Enabled(old(Abs()), Claim(p, w, claimed.value, now, delay))
                && Abs() == Next(old(Abs()), Claim(p, w, claimed.value, now, delay))
    {
      claimed := OldestCandidate(queue, open, w, now, delay);
      if claimed.Some? {
        ClaimKeepsInv(Abs(), p, w, claimed.value, now, delay);
        open := open[p := Claimed(w, claimed.value, queue[claimed.value])];
      }
    }

    method DeleteNftEvents(cutoff: int)
      requires Valid()
      modifies this`archive
      ensures Valid() && Abs() == Next(old(Abs()), Prune(cutoff))
    {
      PruneKeepsInv(Abs(), cutoff);
      ghost var pruned := Next(Abs(), Prune(cutoff));
      archive := CreatedSince(archive, cutoff);
      assert Abs() == pruned;
    }
  }

  /** An open transaction: what it will write on commit. After a commit or rollback every call on it fails. */
  class NftEventTx {
    const store: PostgresEventStore
    const proc: nat
    var done: bool
    var stage: Option<Stage>
    var status: Option<Status>
    var archived: bool

    ghost predicate Holds()
      reads this, store
    {
      store.Valid() && (!done ==> proc in store.open)
    }

    constructor (store: PostgresEventStore, proc: nat)
      requires store.Valid() && proc in store.open
      ensures this.store == store && this.proc == proc && Holds()
      ensures !done && stage == None && status == None && !archived
    {
      this.store, this.proc := store, proc;
      done, stage, status, archived := false, None, None, false;
    }

    method UpdateNftEvent(newStage: Option<Stage>, newStatus: Option<Status>, dbFails: bool) returns (failed: bool)
      modifies this`stage, this`status
      ensures failed <==> done || dbFails || (newStage.None? && newStatus.None?)
      ensures stage == if !failed && newStage.Some? then newStage else old(stage)
      ensures status == if !failed && newStatus.Some? then newStatus else old(status)
    {
      if newStage.None? && newStatus.None? { return true; }
      if done || dbFails { return true; }
      if newStage.Some? { stage := newStage; }
      if newStatus.Some? { status := newStatus; }
      failed := false;
    }

    method ArchiveNFTEvent(dbFails: bool) returns (failed: bool)
      modifies this`archived
      ensures failed <==> done || dbFails
      ensures archived == (old(archived) || !failed)
    {
      failed := done || dbFails;
      if !failed { archived := true; }
    }

    method Rollback()
      requires Holds()
      modifies this`done, store`open
      ensures Holds() && done
      ensures store.Abs() == if old(done) then old(store.Abs()) else Next(old(store.Abs()), Step.Rollback(proc))
    {
      if !done {
        RollbackKeepsInv(store.Abs(), proc);
        store.open := store.open - {proc};
        done := true;
      }
    }

    /** Applies the buffered writes, or, when the database fails, none of them. */
    method Commit(dbFails: bool)
      requires Holds()
      requires !done ==>
                 && (status == None || status == Some(Failed))
                 && (archived <==> NextStage(store.open[proc].worker).None?)
                 && stage == NextStage(store.open[proc].worker)
      modifies this`done, store
      ensures Holds() && done
      ensures store.Abs() ==
              if old(done) then old(store.Abs())
              else Next(old(store.Abs()), if dbFails then Step.Rollback(proc) else Step.Commit(proc, old(status) == None))
    {
      if done { return; }
      if dbFails {
        Rollback();
        return;
      }
      CommitKeepsInv(store.Abs(), proc, status == None);
      ClaimFacts(store.Abs(), proc);
      Apply();
      done := true;
    }

    method Apply()
      requires proc in store.open && store.open[proc].id in store.queue && store.open[proc].row == store.queue[store.open[proc].id]
      requires store.open[proc].row.status == Created && (status == None || status == Some(Failed))
      requires (archived <==> NextStage(store.open[proc].worker).None?) && stage == NextStage(store.open[proc].worker)
      modifies store
      ensures store.Abs() == Next(old(store.Abs()), Step.Commit(proc, status == None))
      ensures store.nextID == old(store.nextID)
    {
      var c := store.open[proc];
      if archived {
        store.archive := store.archive[c.id := Archive(c.row)];
        store.queue := store.queue - {c.id};
      } else {
        var row := store.queue[c.id];
        store.queue := store.queue[c.id := row.(
          stage := if stage.Some? then stage.value else row.stage,
          status := if status.Some? then status.value else row.status)];
      }
      store.open := store.open - {proc};
      store.ledger := Record(store.ledger, c.id, StageRun(CurrentStage(c.worker), status == None));
    }
  }

  lemma ClaimFacts(s: State, p: nat)
    requires Inv(s) && p in s.open
    ensures ClaimOk(s.open[p], s.queue)
  {
  }

  /** After a failed processor the row is marked; when that fails, the transaction is rolled back. */
  method MarkIfFailed(tx: NftEventTx, processorOk: bool, markFails: bool)
    requires tx.Holds() && !tx.done && tx.stage == None && tx.status == None && !tx.archived
    modifies tx, tx.store`open
    ensures tx.Holds() && tx.stage == None && !tx.archived
    ensures tx.done == (!processorOk && markFails)
    ensures !tx.done ==> tx.status == (if processorOk then None else Some(Failed)) && tx.store.Abs() == old(tx.store.Abs())
    ensures tx.done ==> tx.store.Abs() == Next(old(tx.store.Abs()), Step.Rollback(tx.proc))
  {
    if !processorOk {
      var failed := tx.UpdateNftEvent(None, Some(Failed), markFails);
      if failed { tx.Rollback(); }
    }
  }

  /** The row is moved to the archive or to the next stage; when that fails, the transaction is rolled back. */
  method MoveOn(tx: NftEventTx, nextStage: Option<Stage>, moveFails: bool)
    requires tx.Holds() && tx.stage == None && !tx.archived
    modifies tx, tx.store`open
    ensures tx.Holds() && tx.status == old(tx.status)
    ensures tx.done == (old(tx.done) || moveFails)
    ensures !tx.done ==> tx.stage == nextStage && tx.archived == nextStage.None? && tx.store.Abs() == old(tx.store.Abs())
    ensures tx.done ==> tx.store.Abs() == if old(tx.done) then old(tx.store.Abs()) else Next(old(tx.store.Abs()), Step.Rollback(tx.proc))
  {
    var failed;
    if nextStage.None? {
      failed := tx.ArchiveNFTEvent(moveFails);
    } else {
      failed := tx.UpdateNftEvent(nextStage, None, moveFails);
    }
    if failed { tx.Rollback(); }
  }

  /**
    The body of the worker loop after a claim, failed calls included: the processor's error marks the
    row and falls through to the advance. The whole body is one commit, or, as soon as any database
    call failed, one rollback.
   */
  method FinishNftEvent(store: PostgresEventStore, proc: nat, processorOk: bool, markFails: bool, moveFails: bool, commitFails: bool)
    requires store.Valid() && proc in store.open
    modifies store
    ensures store.Valid()
    ensures store.Abs() == Next(old(store.Abs()),
              if (processorOk || !markFails) && !moveFails && !commitFails
              then Step.Commit(proc, processorOk) else Step.Rollback(proc))
  {
    var tx := new NftEventTx(store, proc);
    var nextStage := NextStage(store.open[proc].worker);
    MarkIfFailed(tx, processorOk, markFails);
    MoveOn(tx, nextStage, moveFails);
    tx.Commit(commitFails);
  }
}
