/**
  The staged queue of NFT events (services/event-processor): pushes, concurrent workers that claim a
  row, run a processor and advance or archive the row in one transaction, and the pruning of the archive.
  Rows are named by the number of the accepted push that made them. The `ledger` records, per accepted
  push, the processor runs whose transaction committed; no step reads it.
 */
module EventPipeline {
  import opened Options

  datatype EventType = Mint | Burned | Transfer | TokenUpdated | Unlisted(name: string)

  datatype Event = Event(
    eventType: EventType, blockchain: string, contract: string, tokenID: string,
    from: string, to: string, txID: string, eventIndex: nat, txTime: int)

  datatype Stage = Init | FullSync | TokenSaleIndexing | DoubleSync

  datatype Status = Created | Processing | Processed | Failed

  datatype Row = Row(event: Event, stage: Stage, status: Status, createdAt: int)

  datatype Archived = Archived(event: Event, status: Status, createdAt: int)

  /** The six NFT workers that ProcessEvents starts. */
  datatype Worker =
    | UpdateLatestOwner
    | UpdateOwnerAndProvenance
    | UpdateOwnerAndProvenanceForBurnedToken
    | IndexTokenSale
    | RefreshTokenData
    | DoubleSyncTokenData

  function CurrentStage(w: Worker): Stage {
    match w
    case UpdateLatestOwner => Init
    case UpdateOwnerAndProvenance => FullSync
    case UpdateOwnerAndProvenanceForBurnedToken => FullSync
    case IndexTokenSale => TokenSaleIndexing
    case RefreshTokenData => Init
    case DoubleSyncTokenData => DoubleSync
  }

  /** None stands for stage zero: the worker archives the row. */
  function NextStage(w: Worker): Option<Stage> {
    match w
    case UpdateLatestOwner => Some(FullSync)
    case UpdateOwnerAndProvenance => Some(TokenSaleIndexing)
    case UpdateOwnerAndProvenanceForBurnedToken => None
    case IndexTokenSale => None
    case RefreshTokenData => Some(DoubleSync)
    case DoubleSyncTokenData => None
  }

  function Types(w: Worker): set<EventType> {
    match w
    case UpdateLatestOwner => {Transfer, Mint, Burned}
    case UpdateOwnerAndProvenance => {Transfer, Mint}
    case UpdateOwnerAndProvenanceForBurnedToken => {Burned}
    case IndexTokenSale => {Transfer}
    case RefreshTokenData => {TokenUpdated}
    case DoubleSyncTokenData => {TokenUpdated}
  }

  /** Seconds a row has to age before the worker sees it; the first token_updated worker reads its delay from the configuration. */
  function DeferSeconds(w: Worker, configuredDelay: int): int {
    match w
    case RefreshTokenData => configuredDelay
    case DoubleSyncTokenData => 60
    case _ => 0
  }

  /** An open transaction: the worker, the locked row and the copy of the row it read. */
  datatype Claimed = Claimed(worker: Worker, id: nat, row: Row)

  datatype StageRun = StageRun(stage: Stage, ok: bool)

  datatype Entry = Entry(event: Event, runs: seq<StageRun>)

  datatype State = State(
    queue: map<nat, Row>, archive: map<nat, Archived>, open: map<nat, Claimed>, ledger: seq<Entry>)

  const INITIAL := State(map[], map[], map[], [])

  datatype Step =
    | Push(event: Event, now: int)
    | Claim(proc: nat, worker: Worker, id: nat, now: int, delay: int)
    | Commit(proc: nat, ok: bool)
    | Rollback(proc: nat)
    | Prune(cutoff: int)

  // ---- transitions ----

  /** The archive lookup of the insert compares every column but tx_time. */
  predicate MatchesArchived(a: Archived, e: Event) {
    a.event.(txTime := e.txTime) == e
  }

  predicate Accepts(queue: map<nat, Row>, archive: map<nat, Archived>, e: Event) {
    && (forall id :: id in queue ==> queue[id].event != e)
    && (forall id :: id in archive ==> !MatchesArchived(archive[id], e))
  }

  predicate Selects(w: Worker, row: Row, now: int, delay: int) {
    && row.event.eventType in Types(w)
    && row.status in {Created, Processing}
    && row.stage == CurrentStage(w)
    && (DeferSeconds(w, delay) > 0 ==> row.createdAt < now - DeferSeconds(w, delay))
  }

  predicate Locked(open: map<nat, Claimed>, id: nat) {
    exists p :: p in open && open[p].id == id
  }

  predicate Candidate(queue: map<nat, Row>, open: map<nat, Claimed>, w: Worker, id: nat, now: int, delay: int) {
    id in queue && !Locked(open, id) && Selects(w, queue[id], now, delay)
  }

  ghost predicate Enabled(s: State, step: Step) {
    match step
    case Push(_, _) => true
    case Claim(p, w, id, now, delay) =>
      && p !in s.open
      && Candidate(s.queue, s.open, w, id, now, delay)
      && (forall other :: Candidate(s.queue, s.open, w, other, now, delay) ==> s.queue[id].createdAt <= s.queue[other].createdAt)
    case Commit(p, _) => p in s.open
    case Rollback(p) => p in s.open
    case Prune(_) => true
  }

  function Archive(row: Row): Archived {
    Archived(row.event.(eventIndex := 0), Processed, row.createdAt)
  }

  function Advance(row: Row, stage: Stage, ok: bool): Row {
    row.(stage := stage, status := if ok then row.status else Failed)
  }

  function Record(ledger: seq<Entry>, id: nat, run: StageRun): seq<Entry> {
    if id < |ledger| then ledger[id := ledger[id].(runs := ledger[id].runs + [run])] else ledger
  }

  function CreatedSince(archive: map<nat, Archived>, cutoff: int): map<nat, Archived> {
    map id | id in archive && archive[id].createdAt >= cutoff :: archive[id]
  }

  function Next(s: State, step: Step): State {
    match step
    case Push(e, now) =>
      if Accepts(s.queue, s.archive, e)
      then s.(queue := s.queue[|s.ledger| := Row(e, Init, Created, now)], ledger := s.ledger + [Entry(e, [])])
      else s
    case Claim(p, w, id, _, _) =>
      if id in s.queue then s.(open := s.open[p := Claimed(w, id, s.queue[id])]) else s
    case Commit(p, ok) =>
      if p !in s.open then s else
      var c := s.open[p];
      var closed := s.(open := s.open - {p}, ledger := Record(s.ledger, c.id, StageRun(CurrentStage(c.worker), ok)));
      (match NextStage(c.worker)
       case None => closed.(queue := s.queue - {c.id}, archive := s.archive[c.id := Archive(c.row)])
       case Some(stage) =>
         if c.id in s.queue then closed.(queue := s.queue[c.id := Advance(s.queue[c.id], stage, ok)]) else closed)
    case Rollback(p) => s.(open := s.open - {p})
    case Prune(cutoff) => s.(archive := CreatedSince(s.archive, cutoff))
  }

  function Exec(steps: seq<Step>): State {
    if steps == [] then INITIAL else Next(Exec(steps[..|steps| - 1]), steps[|steps| - 1])
  }

  ghost predicate ValidRun(steps: seq<Step>) {
    steps == [] ||
    (ValidRun(steps[..|steps| - 1]) && Enabled(Exec(steps[..|steps| - 1]), steps[|steps| - 1]))
  }

  // ---- what a run keeps ----

  /** The stages an event type passes, in order. The last stage of a mint, and the only one of an unlisted type, has no consumer. */
  function Path(t: EventType): seq<Stage> {
    match t
    case Transfer => [Init, FullSync, TokenSaleIndexing]
    case Mint => [Init, FullSync, TokenSaleIndexing]
    case Burned => [Init, FullSync]
    case TokenUpdated => [Init, DoubleSync]
    case Unlisted(_) => [Init]
  }

  function Consumers(t: EventType): nat {
    match t
    case Transfer => 3
    case Mint => 2
    case Burned => 2
    case TokenUpdated => 2
    case Unlisted(_) => 0
  }

  predicate SucceededThrough(t: EventType, runs: seq<StageRun>, k: nat) {
    k <= |runs| && k <= |Path(t)| && forall i :: 0 <= i < k ==> runs[i] == StageRun(Path(t)[i], true)
  }

  /** A created row at position k has had k successful runs; a failed row sits just past the run that failed. */
  predicate RowMatchesRuns(row: Row, runs: seq<StageRun>) {
    var t, k := row.event.eventType, |runs|;
    && k < |Path(t)| && k <= Consumers(t)
    && row.stage == Path(t)[k]
    && (row.status == Created || row.status == Failed)
    && (row.status == Created ==> SucceededThrough(t, runs, k))
    && (row.status == Failed ==> k > 0 && SucceededThrough(t, runs, k - 1) && runs[k - 1] == StageRun(Path(t)[k - 1], false))
  }

  /** An archived event ran at every stage of its path; only the last run may have failed. */
  predicate ArchivedMatchesRuns(e: Event, runs: seq<StageRun>) {
    var t := e.eventType;
    && t in {Transfer, Burned, TokenUpdated}
    && |runs| == |Path(t)| == Consumers(t)
    && SucceededThrough(t, runs, |runs| - 1)
    && runs[|runs| - 1].stage == Path(t)[|runs| - 1]
  }

  ghost predicate QueuedOk(s: State, id: nat)
    requires id in s.queue
  {
    && id < |s.ledger| && id !in s.archive
    && s.queue[id].event == s.ledger[id].event
    && RowMatchesRuns(s.queue[id], s.ledger[id].runs)
  }

  ghost predicate ArchivedOk(s: State, id: nat)
    requires id in s.archive
  {
    && id < |s.ledger|
    && s.archive[id].event == s.ledger[id].event.(eventIndex := 0) && s.archive[id].status == Processed
    && ArchivedMatchesRuns(s.ledger[id].event, s.ledger[id].runs)
  }

  ghost predicate RowsOk(s: State) {
    && (forall id :: id in s.queue ==> QueuedOk(s, id))
    && (forall id :: id in s.archive ==> ArchivedOk(s, id))
  }

  /** The locked row is still the row the worker read, and one its filter selects. */
  predicate ClaimOk(c: Claimed, queue: map<nat, Row>) {
    && c.id in queue && c.row == queue[c.id] && c.row.status == Created
    && c.row.stage == CurrentStage(c.worker) && c.row.event.eventType in Types(c.worker)
  }

  ghost predicate ClaimsOk(s: State) {
    && (forall p :: p in s.open ==> ClaimOk(s.open[p], s.queue))
    && (forall p, q :: p in s.open && q in s.open && s.open[p].id == s.open[q].id ==> p == q)
  }

  predicate Live(s: State, id: nat) {
    id in s.queue || id in s.archive
  }

  ghost predicate EventsOk(s: State) {
    && (forall i, j :: i in s.queue && j in s.queue && s.queue[i].event == s.queue[j].event ==> i == j)
    && (forall i: nat, j: nat :: i < j < |s.ledger| && s.ledger[i].event == s.ledger[j].event && s.ledger[i].event.eventIndex == 0 ==>
          !Live(s, i))
  }

  ghost predicate RunsBounded(ledger: seq<Entry>) {
    forall id :: 0 <= id < |ledger| ==> |ledger[id].runs| <= Consumers(ledger[id].event.eventType)
  }

  ghost predicate Inv(s: State) {
    RowsOk(s) && ClaimsOk(s) && EventsOk(s) && RunsBounded(s.ledger)
  }

  /** The worker table moves every type one position along its path and stops, or archives, at the end. */
  lemma WorkerTableFollowsPaths(w: Worker, t: EventType, k: nat)
    requires t in Types(w) && k < |Path(t)| && Path(t)[k] == CurrentStage(w)
    ensures k < Consumers(t)
    ensures NextStage(w) == if k + 1 < |Path(t)| then Some(Path(t)[k + 1]) else None
    ensures NextStage(w) == None ==> t in {Transfer, Burned, TokenUpdated} && k + 1 == Consumers(t)
  {
    assert k == 0 || k == 1 || k == 2;
  }

  /** No two workers of the table compete for one type at one stage, and none takes the end of a mint. */
  lemma WorkersPartitionStages(t: EventType, k: nat)
    requires k < |Path(t)|
    ensures forall v, w :: t in Types(v) && t in Types(w) && CurrentStage(v) == CurrentStage(w) ==> v == w
    ensures (exists w :: t in Types(w) && CurrentStage(w) == Path(t)[k]) <==> k < Consumers(t)
  {
    assert k == 0 || k == 1 || k == 2;
    if k < Consumers(t) {
      var w := if k == 0 then (if t == TokenUpdated then RefreshTokenData else UpdateLatestOwner)
               else if k == 2 then IndexTokenSale
               else if t == TokenUpdated then DoubleSyncTokenData
               else if t == Burned then UpdateOwnerAndProvenanceForBurnedToken else UpdateOwnerAndProvenance;
      assert t in Types(w) && CurrentStage(w) == Path(t)[k];
    }
  }

  lemma PushKeepsRows(s: State, e: Event, now: int)
    requires RowsOk(s) && Accepts(s.queue, s.archive, e)
    ensures RowsOk(Next(s, Push(e, now)))
  {
    var s', n := Next(s, Push(e, now)), |s.ledger|;
    forall id | id in s'.queue ensures QueuedOk(s', id) {
      if id != n {
        assert QueuedOk(s, id) && s'.ledger[id] == s.ledger[id];
      } else {
        assert n in s.archive ==> ArchivedOk(s, n);
      }
    }
    forall id | id in s'.archive ensures ArchivedOk(s', id) {
      assert ArchivedOk(s, id) && s'.ledger[id] == s.ledger[id];
    }
  }

  /** A live event with index zero blocks a push of the same event, from the queue or from the archive. */
  lemma SameEventBlocks(s: State, e: Event, i: nat)
    requires RowsOk(s) && i < |s.ledger| && s.ledger[i].event == e && e.eventIndex == 0
    ensures Live(s, i) ==> !Accepts(s.queue, s.archive, e)
  {
    if i in s.queue {
      assert QueuedOk(s, i);
    } else if i in s.archive {
      assert ArchivedOk(s, i);
      assert MatchesArchived(s.archive[i], e);
    }
  }

  lemma PushKeepsEvents(s: State, e: Event, now: int)
    requires RowsOk(s) && EventsOk(s) && Accepts(s.queue, s.archive, e)
    ensures EventsOk(Next(s, Push(e, now)))
  {
    var s', n := Next(s, Push(e, now)), |s.ledger|;
    forall id | id in s.queue ensures id < n { assert QueuedOk(s, id); }
    forall i: nat, j: nat | i < j < |s'.ledger| && s'.ledger[i].event == s'.ledger[j].event && s'.ledger[i].event.eventIndex == 0
      ensures !Live(s', i)
    {
      assert s.ledger[i] == s'.ledger[i];
      if j == n {
        SameEventBlocks(s, e, i);
      } else {
        assert s.ledger[j] == s'.ledger[j] && !Live(s, i);
      }
    }
  }

  lemma PushKeepsInv(s: State, e: Event, now: int)
    requires Inv(s)
    ensures Inv(Next(s, Push(e, now)))
  {
    if Accepts(s.queue, s.archive, e) {
      PushKeepsRows(s, e, now);
      PushKeepsEvents(s, e, now);
      forall id | id in s.queue ensures id != |s.ledger| { assert QueuedOk(s, id); }
      forall p | p in s.open ensures ClaimOk(s.open[p], Next(s, Push(e, now)).queue) {
        assert ClaimOk(s.open[p], s.queue);
      }
    }
  }

  lemma ClaimKeepsInv(s: State, p: nat, w: Worker, id: nat, now: int, delay: int)
    requires Inv(s) && Enabled(s, Claim(p, w, id, now, delay))
    ensures Inv(Next(s, Claim(p, w, id, now, delay)))
  {
    NewClaimOk(s, p, w, id, now, delay);
    SameTablesStayOk(s, Next(s, Claim(p, w, id, now, delay)));
  }

  lemma NewClaimOk(s: State, p: nat, w: Worker, id: nat, now: int, delay: int)
    requires RowsOk(s) && ClaimsOk(s) && Enabled(s, Claim(p, w, id, now, delay))
    ensures ClaimsOk(Next(s, Claim(p, w, id, now, delay)))
  {
    var s' := Next(s, Claim(p, w, id, now, delay));
    assert QueuedOk(s, id);
    forall q | q in s'.open ensures ClaimOk(s'.open[q], s'.queue) {
      if q != p { assert ClaimOk(s.open[q], s.queue); }
    }
  }

  lemma SameTablesStayOk(s: State, s': State)
    requires s'.queue == s.queue && s'.archive == s.archive && s'.ledger == s.ledger
    ensures RowsOk(s) ==> RowsOk(s')
    ensures EventsOk(s) ==> EventsOk(s')
  {
    if RowsOk(s) {
      forall i | i in s'.queue ensures QueuedOk(s', i) { assert QueuedOk(s, i); }
      forall i | i in s'.archive ensures ArchivedOk(s', i) { assert ArchivedOk(s, i); }
    }
    if EventsOk(s) {
      forall i: nat, j: nat | i < j < |s'.ledger| && s'.ledger[i].event == s'.ledger[j].event && s'.ledger[i].event.eventIndex == 0
        ensures !Live(s', i)
      { assert !Live(s, i); }
    }
  }

  lemma CommittedRowMatches(row: Row, runs: seq<StageRun>, w: Worker, ok: bool)
    requires RowMatchesRuns(row, runs) && row.status == Created
    requires row.stage == CurrentStage(w) && row.event.eventType in Types(w)
    ensures NextStage(w).Some? ==> RowMatchesRuns(Advance(row, NextStage(w).value, ok), runs + [StageRun(CurrentStage(w), ok)])
    ensures NextStage(w).None? ==> ArchivedMatchesRuns(row.event, runs + [StageRun(CurrentStage(w), ok)])
    ensures |runs| + 1 <= Consumers(row.event.eventType)
  {
    WorkerTableFollowsPaths(w, row.event.eventType, |runs|);
  }

  /** What one commit changes: the claimed row is advanced, or moved to the archive, and its run is recorded. */
  lemma CommitEffect(s: State, p: nat, ok: bool)
    requires p in s.open && ClaimOk(s.open[p], s.queue) && s.open[p].id < |s.ledger|
    ensures var c, s' := s.open[p], Next(s, Commit(p, ok));
            && s'.open == s.open - {p}
            && |s'.ledger| == |s.ledger|
            && s'.ledger[c.id] == Entry(s.ledger[c.id].event, s.ledger[c.id].runs + [StageRun(CurrentStage(c.worker), ok)])
            && (forall id :: 0 <= id < |s.ledger| && id != c.id ==> s'.ledger[id] == s.ledger[id])
            && s'.queue - {c.id} == s.queue - {c.id}
            && s'.archive - {c.id} == s.archive - {c.id}
            && (match NextStage(c.worker)
                case None => c.id !in s'.queue && c.id in s'.archive && s'.archive[c.id] == Archive(c.row)
                case Some(stage) => c.id in s'.queue && s'.queue[c.id] == Advance(c.row, stage, ok) && s'.archive == s.archive)
  {
  }

  lemma CommitKeepsRows(s: State, p: nat, ok: bool)
    requires Inv(s) && p in s.open
    ensures RowsOk(Next(s, Commit(p, ok)))
  {
    var c, s' := s.open[p], Next(s, Commit(p, ok));
    assert ClaimOk(c, s.queue) && QueuedOk(s, c.id);
    CommitEffect(s, p, ok);
    OwnRowOk(s, p, ok);
    forall id | id in s'.queue ensures QueuedOk(s', id) {
      if id != c.id { OtherRowsOk(s, s', id, c.id); }
    }
    forall id | id in s'.archive ensures ArchivedOk(s', id) {
      if id != c.id { OtherRowsOk(s, s', id, c.id); }
    }
  }

  lemma CommitKeepsRunsBounded(s: State, p: nat, ok: bool)
    requires Inv(s) && p in s.open
    ensures RunsBounded(Next(s, Commit(p, ok)).ledger)
  {
    var c := s.open[p];
    ClaimedRow(s, p);
    CommitRecords(s, p, ok);
    CommittedRowMatches(c.row, s.ledger[c.id].runs, c.worker, ok);
    RecordKeepsBound(s.ledger, c.id, StageRun(CurrentStage(c.worker), ok));
  }

  /** What is known of a claimed row. */
  lemma ClaimedRow(s: State, p: nat)
    requires Inv(s) && p in s.open
    ensures var c := s.open[p];
            && c.id < |s.ledger| && c.row.event == s.ledger[c.id].event
            && RowMatchesRuns(c.row, s.ledger[c.id].runs) && c.row.status == Created
            && c.row.stage == CurrentStage(c.worker) && c.row.event.eventType in Types(c.worker)
  {
    assert ClaimOk(s.open[p], s.queue) && QueuedOk(s, s.open[p].id);
  }

  lemma CommitRecords(s: State, p: nat, ok: bool)
    requires p in s.open
    ensures Next(s, Commit(p, ok)).ledger == Record(s.ledger, s.open[p].id, StageRun(CurrentStage(s.open[p].worker), ok))
  {
  }

  lemma RecordKeepsBound(ledger: seq<Entry>, id: nat, run: StageRun)
    requires RunsBounded(ledger) && id < |ledger| && |ledger[id].runs| < Consumers(ledger[id].event.eventType)
    ensures RunsBounded(Record(ledger, id, run))
  {
  }

  lemma OwnRowOk(s: State, p: nat, ok: bool)
    requires Inv(s) && p in s.open
    ensures var id, s' := s.open[p].id, Next(s, Commit(p, ok));
            (id in s'.queue ==> QueuedOk(s', id)) && (id in s'.archive ==> ArchivedOk(s', id))
  {
    var c := s.open[p];
    assert ClaimOk(c, s.queue) && QueuedOk(s, c.id);
    CommitEffect(s, p, ok);
    CommittedRowMatches(c.row, s.ledger[c.id].runs, c.worker, ok);
  }

  lemma OtherRowsOk(s: State, s': State, id: nat, changed: nat)
    requires RowsOk(s) && id != changed && |s'.ledger| == |s.ledger| && (id < |s.ledger| ==> s'.ledger[id] == s.ledger[id])
    requires s'.queue - {changed} == s.queue - {changed} && s'.archive - {changed} == s.archive - {changed}
    ensures id in s'.queue ==> QueuedOk(s', id)
    ensures id in s'.archive ==> ArchivedOk(s', id)
  {
    assert id in s'.queue <==> id in s'.queue - {changed};
    assert id in s'.archive <==> id in s'.archive - {changed};
    assert id in s.queue ==> QueuedOk(s, id);
    assert id in s.archive ==> ArchivedOk(s, id);
  }

  lemma CommitKeepsQueuedEvents(s: State, p: nat, ok: bool)
    requires Inv(s) && p in s.open
    ensures ClaimOk(s.open[p], s.queue) && s.open[p].id < |s.ledger|
    ensures forall id :: id in Next(s, Commit(p, ok)).queue ==>
              id in s.queue && Next(s, Commit(p, ok)).queue[id].event == s.queue[id].event
  {
    var c, s' := s.open[p], Next(s, Commit(p, ok));
    assert ClaimOk(c, s.queue) && QueuedOk(s, c.id);
    CommitEffect(s, p, ok);
    forall id | id in s'.queue ensures id in s.queue && s'.queue[id].event == s.queue[id].event {
      if id != c.id { assert id in s'.queue - {c.id}; }
    }
  }

  lemma CommitKeepsEvents(s: State, p: nat, ok: bool)
    requires Inv(s) && p in s.open
    ensures EventsOk(Next(s, Commit(p, ok)))
  {
    var c, s' := s.open[p], Next(s, Commit(p, ok));
    CommitKeepsQueuedEvents(s, p, ok);
    CommitEffect(s, p, ok);
    forall i: nat, j: nat | i < j < |s'.ledger| && s'.ledger[i].event == s'.ledger[j].event && s'.ledger[i].event.eventIndex == 0
      ensures !Live(s', i)
    {
      assert s.ledger[i].event == s.ledger[j].event && !Live(s, i);
      assert i in s'.archive ==> i in s'.archive - {c.id};
    }
  }

  lemma CommitKeepsInv(s: State, p: nat, ok: bool)
    requires Inv(s) && p in s.open
    ensures Inv(Next(s, Commit(p, ok)))
  {
    CommitKeepsRows(s, p, ok);
    CommitKeepsRunsBounded(s, p, ok);
    CommitKeepsEvents(s, p, ok);
    var c, s' := s.open[p], Next(s, Commit(p, ok));
    assert ClaimOk(c, s.queue) && QueuedOk(s, c.id);
    CommitEffect(s, p, ok);
    forall q | q in s'.open ensures ClaimOk(s'.open[q], s'.queue) {
      assert q != p && ClaimOk(s.open[q], s.queue);
      OtherClaimOk(s.open[q], c.id, s.queue, s'.queue);
    }
  }

  lemma OtherClaimOk(c: Claimed, id: nat, queue: map<nat, Row>, queue': map<nat, Row>)
    requires ClaimOk(c, queue) && c.id != id && queue' - {id} == queue - {id}
    ensures ClaimOk(c, queue')
  {
    assert c.id in queue - {id};
  }

  lemma PruneKeepsInv(s: State, cutoff: int)
    requires Inv(s)
    ensures Inv(Next(s, Prune(cutoff)))
  {
    var s' := Next(s, Prune(cutoff));
    forall i | i in s'.queue ensures QueuedOk(s', i) { assert QueuedOk(s, i); }
    forall i | i in s'.archive ensures ArchivedOk(s', i) { assert ArchivedOk(s, i); }
    forall i: nat, j: nat | i < j < |s'.ledger| && s'.ledger[i].event == s'.ledger[j].event && s'.ledger[i].event.eventIndex == 0
      ensures !Live(s', i)
    { assert !Live(s, i); }
  }

  lemma RollbackKeepsInv(s: State, p: nat)
    requires Inv(s)
    ensures Inv(Next(s, Rollback(p)))
  {
    var s' := Next(s, Rollback(p));
    forall q | q in s'.open ensures ClaimOk(s'.open[q], s'.queue) { assert ClaimOk(s.open[q], s.queue); }
    SameTablesStayOk(s, s');
  }

  lemma StepKeepsInv(s: State, step: Step)
    requires Inv(s) && Enabled(s, step)
    ensures Inv(Next(s, step))
  {
    match step
    case Push(e, now) => PushKeepsInv(s, e, now);
    case Claim(p, w, id, now, delay) => ClaimKeepsInv(s, p, w, id, now, delay);
    case Commit(p, ok) => CommitKeepsInv(s, p, ok);
    case Rollback(p) => RollbackKeepsInv(s, p);
    case Prune(cutoff) => PruneKeepsInv(s, cutoff);
  }

  lemma {:induction false} RunsKeepInv(steps: seq<Step>)
    requires ValidRun(steps)
    ensures Inv(Exec(steps))
  {
    if steps != [] {
      RunsKeepInv(steps[..|steps| - 1]);
      StepKeepsInv(Exec(steps[..|steps| - 1]), steps[|steps| - 1]);
    }
  }

  // ---- theorems over every run ----

  /** Every queued row is where its committed runs put it, and carries the event that was pushed. */
  lemma RowsFollowTheirPaths(steps: seq<Step>, id: nat)
    requires ValidRun(steps) && id in Exec(steps).queue
    ensures id < |Exec(steps).ledger|
    ensures Exec(steps).queue[id].event == Exec(steps).ledger[id].event
    ensures RowMatchesRuns(Exec(steps).queue[id], Exec(steps).ledger[id].runs)
  {
    RunsKeepInv(steps);
    assert QueuedOk(Exec(steps), id);
  }

  /** An archived event has had every stage of its path, and is marked processed even when its last run failed. */
  lemma ArchivedEventsRanEveryStage(steps: seq<Step>, id: nat)
    requires ValidRun(steps) && id in Exec(steps).archive
    ensures id < |Exec(steps).ledger|
    ensures ArchivedMatchesRuns(Exec(steps).ledger[id].event, Exec(steps).ledger[id].runs)
    ensures Exec(steps).archive[id].status == Processed
    ensures Exec(steps).archive[id].event == Exec(steps).ledger[id].event.(eventIndex := 0)
  {
    RunsKeepInv(steps);
    assert ArchivedOk(Exec(steps), id);
  }

  /** No row is held by two open transactions, and what a transaction read is what the table still holds. */
  lemma NoRowIsHeldTwice(steps: seq<Step>, p: nat, q: nat)
    requires ValidRun(steps) && p in Exec(steps).open && q in Exec(steps).open
    ensures Exec(steps).open[p].id == Exec(steps).open[q].id ==> p == q
    ensures Exec(steps).open[p].id in Exec(steps).queue
    ensures Exec(steps).open[p].row == Exec(steps).queue[Exec(steps).open[p].id]
  {
    RunsKeepInv(steps);
    assert ClaimOk(Exec(steps).open[p], Exec(steps).queue);
  }

  lemma FailedRowIsPastInit(s: State, id: nat)
    requires RowsOk(s) && id in s.queue && s.queue[id].status == Failed
    ensures s.queue[id].stage != Init
  {
    assert QueuedOk(s, id);
  }

  lemma FailedRowStays(s: State, id: nat, step: Step)
    requires Inv(s) && Enabled(s, step) && id in s.queue && s.queue[id].status == Failed
    ensures id in Next(s, step).queue && Next(s, step).queue[id] == s.queue[id]
  {
    assert QueuedOk(s, id);
    if step.Commit? {
      var c := s.open[step.proc];
      assert ClaimOk(c, s.queue);
      CommitEffect(s, step.proc, step.ok);
      assert id in s.queue - {c.id};
    }
  }

  /** A failed row has left the first stage, no worker ever selects it, and no further step changes it. */
  lemma FailedRowsAreStuck(steps: seq<Step>, id: nat, step: Step)
    requires ValidRun(steps) && Enabled(Exec(steps), step)
    requires id in Exec(steps).queue && Exec(steps).queue[id].status == Failed
    ensures Exec(steps).queue[id].stage != Init
    ensures forall w, now, delay :: !Selects(w, Exec(steps).queue[id], now, delay)
    ensures id in Next(Exec(steps), step).queue && Next(Exec(steps), step).queue[id] == Exec(steps).queue[id]
  {
    RunsKeepInv(steps);
    FailedRowIsPastInit(Exec(steps), id);
    FailedRowStays(Exec(steps), id, step);
  }

  /** Whether step k of a run deletes the archived record of a push: a pruning with a cutoff after the record's creation. */
  predicate PrunedAt(steps: seq<Step>, k: nat, id: nat) {
    && k < |steps| && steps[k].Prune?
    && id in Exec(steps[..k]).archive && Exec(steps[..k]).archive[id].createdAt < steps[k].cutoff
  }

  ghost predicate Pruned(steps: seq<Step>, id: nat) {
    exists k: nat :: PrunedAt(steps, k, id)
  }

  lemma PrunedByPrefix(steps: seq<Step>, id: nat)
    requires steps != []
    ensures var n := |steps| - 1; Pruned(steps, id) <==> Pruned(steps[..n], id) || PrunedAt(steps, n, id)
  {
    var n := |steps| - 1;
    if k: nat :| PrunedAt(steps, k, id) && k < n {
      PrunedInPrefix(steps, n, k, id);
      assert PrunedAt(steps[..n], k, id);
    }
    if k: nat :| PrunedAt(steps[..n], k, id) {
      PrunedInPrefix(steps, n, k, id);
      assert PrunedAt(steps, k, id);
    }
  }

  lemma PrunedInPrefix(steps: seq<Step>, n: nat, k: nat, id: nat)
    requires k < n <= |steps|
    ensures PrunedAt(steps[..n], k, id) <==> PrunedAt(steps, k, id)
  {
    assert steps[..n][..k] == steps[..k];
  }

  lemma StepKeepsLedger(s: State, step: Step, id: nat)
    requires id < |s.ledger|
    ensures id < |Next(s, step).ledger| && Next(s, step).ledger[id].event == s.ledger[id].event
  {
  }

  /** One step of a pushed event's record: it stays live, or stays gone, unless this very step prunes it. */
  lemma StepAndLive(s: State, step: Step, id: nat)
    requires Inv(s) && Enabled(s, step) && id < |s.ledger|
    ensures Live(Next(s, step), id) <==>
            Live(s, id) && !(step.Prune? && id in s.archive && s.archive[id].createdAt < step.cutoff)
  {
    match step
    case Commit(p, ok) =>
      var c := s.open[p];
      ClaimedRow(s, p);
      assert ClaimOk(c, s.queue);
      CommitEffect(s, p, ok);
      CommitAndLive(s, Next(s, step), id, c.id);
    case Prune(_) => assert id in s.queue ==> QueuedOk(s, id);
    case _ =>
  }

  lemma CommitAndLive(s: State, s': State, id: nat, changed: nat)
    requires s'.queue - {changed} == s.queue - {changed} && s'.archive - {changed} == s.archive - {changed}
    requires Live(s, changed) && Live(s', changed)
    ensures Live(s', id) <==> Live(s, id)
  {
    if id != changed {
      assert id in s'.queue <==> id in s'.queue - {changed};
      assert id in s.queue <==> id in s.queue - {changed};
      assert id in s'.archive <==> id in s'.archive - {changed};
      assert id in s.archive <==> id in s.archive - {changed};
    }
  }

  lemma StepMakesLive(s: State, step: Step, id: nat)
    requires Enabled(s, step) && |s.ledger| <= id < |Next(s, step).ledger|
    ensures Live(Next(s, step), id)
    ensures step.Push? && Accepts(s.queue, s.archive, step.event) && id == |s.ledger| && Next(s, step).ledger[id].event == step.event
  {
  }

  lemma ArchivedWerePushed(s: State)
    requires RowsOk(s)
    ensures forall id :: id in s.archive ==> id < |s.ledger|
  {
    forall id | id in s.archive ensures id < |s.ledger| { assert ArchivedOk(s, id); }
  }

  lemma {:induction false} NothingElseIsPruned(steps: seq<Step>, id: nat)
    requires ValidRun(steps) && id >= |Exec(steps).ledger|
    ensures !Pruned(steps, id)
  {
    if steps != [] {
      var before, step := steps[..|steps| - 1], steps[|steps| - 1];
      RunsKeepInv(before);
      LedgerGrows(steps, |steps| - 1);
      NothingElseIsPruned(before, id);
      PrunedByPrefix(steps, id);
      ArchivedWerePushed(Exec(before));
    }
  }

  lemma {:induction false} LedgerGrows(steps: seq<Step>, k: nat)
    requires k <= |steps|
    ensures |Exec(steps[..k]).ledger| <= |Exec(steps).ledger|
  {
    if k == |steps| {
      assert steps[..k] == steps;
    } else {
      var n := |steps| - 1;
      LedgerGrows(steps[..n], k);
      assert steps[..n][..k] == steps[..k];
      LedgerStep(Exec(steps[..n]), steps[n]);
    }
  }

  lemma LedgerStep(s: State, step: Step)
    ensures |s.ledger| <= |Next(s, step).ledger|
  {
  }

  /** Every accepted push is one record, in the queue or in the archive and never in both, exactly until that record is pruned. */
  lemma {:induction false} EachPushIsOneRecord(steps: seq<Step>, id: nat)
    requires ValidRun(steps) && id < |Exec(steps).ledger|
    ensures !(id in Exec(steps).queue && id in Exec(steps).archive)
    ensures Live(Exec(steps), id) <==> !Pruned(steps, id)
  {
    RunsKeepInv(steps);
    assert id in Exec(steps).queue ==> QueuedOk(Exec(steps), id);
    var before, step := steps[..|steps| - 1], steps[|steps| - 1];
    RunsKeepInv(before);
    PrunedByPrefix(steps, id);
    if id < |Exec(before).ledger| {
      EachPushIsOneRecord(before, id);
      StepAndLive(Exec(before), step, id);
    } else {
      StepMakesLive(Exec(before), step, id);
      NothingElseIsPruned(before, id);
    }
  }

  // ---- push times ----

  /** Whether step k is the push that was accepted as this record. */
  predicate PushedAt(steps: seq<Step>, k: nat, id: nat) {
    && k < |steps| && steps[k].Push?
    && |Exec(steps[..k]).ledger| == id < |Exec(steps[..k + 1]).ledger|
  }

  lemma PushedInPrefix(steps: seq<Step>, n: nat, k: nat, id: nat)
    requires k < n <= |steps|
    ensures PushedAt(steps[..n], k, id) <==> PushedAt(steps, k, id)
  {
    assert steps[..n][..k] == steps[..k] && steps[..n][..k + 1] == steps[..k + 1];
  }

  /** Every record comes from one push. */
  lemma {:induction false} EveryRecordWasPushed(steps: seq<Step>, id: nat) returns (k: nat)
    requires id < |Exec(steps).ledger|
    ensures PushedAt(steps, k, id)
  {
    var n := |steps| - 1;
    if id < |Exec(steps[..n]).ledger| {
      k := EveryRecordWasPushed(steps[..n], id);
      PushedInPrefix(steps, n, k, id);
    } else {
      k := n;
      assert steps[..n + 1] == steps;
    }
  }

  /** A step leaves a record's creation time, and its event, as they are. */
  lemma StepKeepsCreation(s: State, step: Step, id: nat)
    requires Inv(s) && Enabled(s, step) && id < |s.ledger|
    ensures var s' := Next(s, step);
            && (id in s'.queue ==> id in s.queue && s'.queue[id].createdAt == s.queue[id].createdAt)
            && (id in s'.archive ==> if id in s.archive then s'.archive[id].createdAt == s.archive[id].createdAt
                                     else id in s.queue && s'.archive[id].createdAt == s.queue[id].createdAt)
  {
    if step.Commit? {
      var c := s.open[step.proc];
      assert ClaimOk(c, s.queue) && QueuedOk(s, c.id);
      CommitEffect(s, step.proc, step.ok);
      if id != c.id { OtherCreationStays(s, Next(s, step), id, c.id); }
    }
  }

  lemma OtherCreationStays(s: State, s': State, id: nat, changed: nat)
    requires id != changed && s'.queue - {changed} == s.queue - {changed} && s'.archive - {changed} == s.archive - {changed}
    ensures id in s'.queue ==> id in s.queue && s'.queue[id] == s.queue[id]
    ensures id in s'.archive ==> id in s.archive && s'.archive[id] == s.archive[id]
  {
    assert id in s'.queue ==> id in s'.queue - {changed};
    assert id in s'.archive ==> id in s'.archive - {changed};
  }

  /** In every run a record, queued or archived, has the creation time of its push. */
  lemma {:induction false} RecordsKeepTheirPushTime(steps: seq<Step>, k: nat, id: nat)
    requires ValidRun(steps) && PushedAt(steps, k, id)
    ensures var s := Exec(steps);
            && id < |s.ledger| && s.ledger[id].event == steps[k].event
            && (id in s.queue ==> s.queue[id].createdAt == steps[k].now)
            && (id in s.archive ==> s.archive[id].createdAt == steps[k].now)
  {
    var n := |steps| - 1;
    var before, step := steps[..n], steps[n];
    RunsKeepInv(before);
    if k < n {
      PushedInPrefix(steps, n, k, id);
      RecordsKeepTheirPushTime(before, k, id);
      StepKeepsLedger(Exec(before), step, id);
      StepKeepsCreation(Exec(before), step, id);
    } else {
      assert steps[..k] == before && steps[..k + 1] == steps;
      ArchivedWerePushed(Exec(before));
    }
  }

  /** A pruning step deletes exactly the archived records that were pushed before its cutoff. */
  lemma PruningGoesByPushTime(steps: seq<Step>, cutoff: int, k: nat, id: nat)
    requires ValidRun(steps) && PushedAt(steps, k, id)
    ensures id in Exec(steps + [Prune(cutoff)]).archive <==> id in Exec(steps).archive && steps[k].now >= cutoff
  {
    RecordsKeepTheirPushTime(steps, k, id);
    assert (steps + [Prune(cutoff)])[..|steps|] == steps;
  }

  /** A worker claims, of the rows waiting for it, one that was pushed no later than any other. */
  lemma ClaimsGoByPushTime(steps: seq<Step>, claim: Step, other: nat, k: nat, l: nat)
    requires ValidRun(steps) && claim.Claim? && Enabled(Exec(steps), claim)
    requires Candidate(Exec(steps).queue, Exec(steps).open, claim.worker, other, claim.now, claim.delay)
    requires PushedAt(steps, k, claim.id) && PushedAt(steps, l, other)
    ensures steps[k].now <= steps[l].now
  {
    RecordsKeepTheirPushTime(steps, k, claim.id);
    RecordsKeepTheirPushTime(steps, l, other);
  }

  // ---- waiting rows ----

  /** The seconds after its push from which a row is visible to the worker. */
  predicate HasAged(w: Worker, pushedAt: int, now: int, delay: int) {
    && (w == RefreshTokenData && delay > 0 ==> now > pushedAt + delay)
    && (w == DoubleSyncTokenData ==> now > pushedAt + 60)
  }

  /** Exactly when a worker can claim a row: nobody holds it, no run of it failed, its next stage is the worker's, and it has aged. */
  lemma SelectableIff(steps: seq<Step>, k: nat, id: nat, w: Worker, now: int, delay: int)
    requires ValidRun(steps) && PushedAt(steps, k, id) && id in Exec(steps).queue && id < |Exec(steps).ledger|
    ensures var s := Exec(steps);
            var t, runs := s.ledger[id].event.eventType, s.ledger[id].runs;
            Candidate(s.queue, s.open, w, id, now, delay) <==>
            && (forall p :: p in s.open ==> s.open[p].id != id)
            && (forall i :: 0 <= i < |runs| ==> runs[i].ok)
            && |runs| < |Path(t)| && t in Types(w) && Path(t)[|runs|] == CurrentStage(w)
            && HasAged(w, steps[k].now, now, delay)
  {
    RunsKeepInv(steps);
    assert QueuedOk(Exec(steps), id);
    RecordsKeepTheirPushTime(steps, k, id);
    SelectsIff(Exec(steps).queue[id], Exec(steps).ledger[id].runs, w, now, delay);
  }

  lemma SelectsIff(row: Row, runs: seq<StageRun>, w: Worker, now: int, delay: int)
    requires RowMatchesRuns(row, runs)
    ensures Selects(w, row, now, delay) <==>
            && (forall i :: 0 <= i < |runs| ==> runs[i].ok)
            && |runs| < |Path(row.event.eventType)| && row.event.eventType in Types(w) && Path(row.event.eventType)[|runs|] == CurrentStage(w)
            && HasAged(w, row.createdAt, now, delay)
  {
    AgedIff(w, row.createdAt, now, delay);
    if row.status == Failed { assert !runs[|runs| - 1].ok; }
  }

  lemma AgedIff(w: Worker, createdAt: int, now: int, delay: int)
    ensures HasAged(w, createdAt, now, delay) <==> (DeferSeconds(w, delay) > 0 ==> createdAt < now - DeferSeconds(w, delay))
  {
  }

  /** A row with a stage to go and no failed run has one worker, which can claim it as soon as nobody holds it and it has aged. */
  lemma EveryWaitingRowHasAWorker(steps: seq<Step>, k: nat, id: nat) returns (w: Worker)
    requires ValidRun(steps) && PushedAt(steps, k, id) && id in Exec(steps).queue && id < |Exec(steps).ledger|
    requires forall i :: 0 <= i < |Exec(steps).ledger[id].runs| ==> Exec(steps).ledger[id].runs[i].ok
    requires |Exec(steps).ledger[id].runs| < Consumers(Exec(steps).ledger[id].event.eventType)
    ensures var s := Exec(steps);
            && (forall now, delay :: Candidate(s.queue, s.open, w, id, now, delay) <==>
                  (forall p :: p in s.open ==> s.open[p].id != id) && HasAged(w, steps[k].now, now, delay))
            && (forall other, now, delay :: other != w ==> !Candidate(s.queue, s.open, other, id, now, delay))
  {
    var s := Exec(steps);
    RunsKeepInv(steps);
    assert QueuedOk(s, id);
    var t, n := s.ledger[id].event.eventType, |s.ledger[id].runs|;
    WorkersPartitionStages(t, n);
    w :| t in Types(w) && CurrentStage(w) == Path(t)[n];
    forall v, now, delay ensures Candidate(s.queue, s.open, v, id, now, delay) <==>
      (forall p :: p in s.open ==> s.open[p].id != id) && t in Types(v) && Path(t)[n] == CurrentStage(v) && HasAged(v, steps[k].now, now, delay)
    {
      SelectableIff(steps, k, id, v, now, delay);
    }
  }

  predicate SameButIndexAndTime(d: Event, e: Event) {
    d.(eventIndex := e.eventIndex, txTime := e.txTime) == e
  }

  /**
    Exactly when a push is accepted: the same event is not queued, and, only if its index is zero, no
    archived push agrees with it on every field but index and time. So a nonzero index loses its
    protection once archived, and an index of zero is refused for the sake of any archived sibling.
   */
  lemma PushAcceptance(steps: seq<Step>, e: Event)
    requires ValidRun(steps)
    ensures var s := Exec(steps);
      Accepts(s.queue, s.archive, e) <==>
      && (forall id :: id in s.queue ==> id < |s.ledger| && s.ledger[id].event != e)
      && (e.eventIndex == 0 ==>
           forall id :: id in s.archive ==> id < |s.ledger| && !SameButIndexAndTime(s.ledger[id].event, e))
  {
    var s := Exec(steps);
    RunsKeepInv(steps);
    forall id | id in s.queue ensures id < |s.ledger| && s.queue[id].event == s.ledger[id].event { assert QueuedOk(s, id); }
    forall id | id in s.archive
      ensures id < |s.ledger| && (MatchesArchived(s.archive[id], e) <==> e.eventIndex == 0 && SameButIndexAndTime(s.ledger[id].event, e))
    {
      assert ArchivedOk(s, id);
    }
  }

  /** Whether the record of push i was deleted by a step before push j was accepted. */
  ghost predicate PrunedBeforePush(steps: seq<Step>, i: nat, j: nat) {
    exists k: nat :: PrunedAt(steps, k, i) && |Exec(steps[..k]).ledger| <= j
  }

  /** An event pushed with index zero is accepted again only after its earlier record was pruned. */
  lemma {:induction false} IndexZeroIsAcceptedOnce(steps: seq<Step>, i: nat, j: nat)
    requires ValidRun(steps) && i < j < |Exec(steps).ledger|
    requires Exec(steps).ledger[i].event == Exec(steps).ledger[j].event && Exec(steps).ledger[i].event.eventIndex == 0
    ensures PrunedBeforePush(steps, i, j)
  {
    var n := |steps| - 1;
    var before, step := steps[..n], steps[n];
    if j < |Exec(before).ledger| {
      StepKeepsLedger(Exec(before), step, i);
      StepKeepsLedger(Exec(before), step, j);
      IndexZeroIsAcceptedOnce(before, i, j);
      var k: nat :| PrunedAt(before, k, i) && |Exec(before[..k]).ledger| <= j;
      PrunedEarlier(steps, k, i, j);
    } else {
      StepMakesLive(Exec(before), step, j);
      StepKeepsLedger(Exec(before), step, i);
      RunsKeepInv(before);
      SameEventBlocks(Exec(before), step.event, i);
      EachPushIsOneRecord(before, i);
      var k: nat :| PrunedAt(before, k, i);
      LedgerGrows(before, k);
      PrunedEarlier(steps, k, i, j);
    }
  }

  lemma PrunedEarlier(steps: seq<Step>, k: nat, i: nat, j: nat)
    requires steps != [] && PrunedAt(steps[..|steps| - 1], k, i) && |Exec(steps[..|steps| - 1][..k]).ledger| <= j
    ensures PrunedBeforePush(steps, i, j)
  {
    PrunedInPrefix(steps, |steps| - 1, k, i);
    assert steps[..|steps| - 1][..k] == steps[..k];
  }

  function Pushes(steps: seq<Step>): nat {
    if steps == [] then 0 else Pushes(steps[..|steps| - 1]) + if steps[|steps| - 1].Push? then 1 else 0
  }

  function Commits(steps: seq<Step>): nat {
    if steps == [] then 0 else Commits(steps[..|steps| - 1]) + if steps[|steps| - 1].Commit? then 1 else 0
  }

  function TotalRuns(ledger: seq<Entry>): nat {
    if ledger == [] then 0 else TotalRuns(ledger[..|ledger| - 1]) + |ledger[|ledger| - 1].runs|
  }

  /** The committed runs the accepted events can still have: the remaining stages of everything pushed. */
  function Remaining(ledger: seq<Entry>): int {
    if ledger == [] then 0
    else Remaining(ledger[..|ledger| - 1]) + Consumers(ledger[|ledger| - 1].event.eventType) - |ledger[|ledger| - 1].runs|
  }

  lemma {:induction false} RecordAddsOneRun(ledger: seq<Entry>, id: nat, run: StageRun)
    requires id < |ledger|
    ensures TotalRuns(Record(ledger, id, run)) == TotalRuns(ledger) + 1
    ensures Remaining(Record(ledger, id, run)) == Remaining(ledger) - 1
  {
    var n := |ledger| - 1;
    var ledger' := Record(ledger, id, run);
    if id < n {
      RecordAddsOneRun(ledger[..n], id, run);
      assert ledger'[..n] == Record(ledger[..n], id, run);
    } else {
      assert ledger'[..n] == ledger[..n];
    }
  }

  lemma {:induction false} RemainingBounds(ledger: seq<Entry>)
    requires RunsBounded(ledger)
    ensures 0 <= Remaining(ledger) <= 3 * |ledger| - TotalRuns(ledger)
  {
    if ledger != [] {
      RemainingBounds(ledger[..|ledger| - 1]);
    }
  }

  lemma {:induction false} CommitsAreRuns(steps: seq<Step>)
    requires ValidRun(steps)
    ensures Commits(steps) == TotalRuns(Exec(steps).ledger)
    ensures |Exec(steps).ledger| <= Pushes(steps)
  {
    if steps != [] {
      var before, step := steps[..|steps| - 1], steps[|steps| - 1];
      CommitsAreRuns(before);
      RunsKeepInv(before);
      var s := Exec(before);
      match step
      case Push(e, now) => assert (s.ledger + [Entry(e, [])])[..|s.ledger|] == s.ledger;
      case Commit(p, ok) =>
        assert ClaimOk(s.open[p], s.queue) && QueuedOk(s, s.open[p].id);
        RecordAddsOneRun(s.ledger, s.open[p].id, StageRun(CurrentStage(s.open[p].worker), ok));
      case _ =>
    }
  }

  /** n pushes admit at most 3n committed worker transactions, and each one lowers what remains by one. */
  lemma CommitsAreBounded(steps: seq<Step>)
    requires ValidRun(steps)
    ensures Commits(steps) + Remaining(Exec(steps).ledger) <= 3 * Pushes(steps)
    ensures Remaining(Exec(steps).ledger) >= 0
    ensures forall p, ok :: p in Exec(steps).open ==>
              Remaining(Next(Exec(steps), Commit(p, ok)).ledger) == Remaining(Exec(steps).ledger) - 1
  {
    CommitsAreRuns(steps);
    RunsKeepInv(steps);
    var s := Exec(steps);
    RemainingBounds(s.ledger);
    forall p, ok | p in s.open ensures Remaining(Next(s, Commit(p, ok)).ledger) == Remaining(s.ledger) - 1 {
      ACommitUsesOneRun(s, p, ok);
    }
  }

  lemma ACommitUsesOneRun(s: State, p: nat, ok: bool)
    requires Inv(s) && p in s.open
    ensures Remaining(Next(s, Commit(p, ok)).ledger) == Remaining(s.ledger) - 1
  {
    ClaimedRow(s, p);
    CommitRecords(s, p, ok);
    RecordAddsOneRun(s.ledger, s.open[p].id, StageRun(CurrentStage(s.open[p].worker), ok));
  }

  /** One burned event taken through both of its workers. */
  function BurnedRun(e: Event): seq<Step> {
    [Push(e, 0), Claim(0, UpdateLatestOwner, 0, 0, 0), Commit(0, true),
     Claim(0, UpdateOwnerAndProvenanceForBurnedToken, 0, 0, 0), Commit(0, true)]
  }

  /** The states the run passes: pushed, claimed, advanced, claimed, archived. */
  function BurnedState(e: Event, k: nat): State {
    var row := Row(e, if k < 3 then Init else FullSync, Created, 0);
    var queue := if 0 < k < 5 then map[0 := row] else map[];
    State(queue,
          if k < 5 then map[] else map[0 := Archive(row)],
          if k == 2 then map[0 := Claimed(UpdateLatestOwner, 0, row)]
          else if k == 4 then map[0 := Claimed(UpdateOwnerAndProvenanceForBurnedToken, 0, row)] else map[],
          if k == 0 then [] else [Entry(e, BurnedRuns(k))])
  }

  function BurnedRuns(k: nat): seq<StageRun> {
    if k < 3 then [] else if k < 5 then [StageRun(Init, true)] else [StageRun(Init, true), StageRun(FullSync, true)]
  }

  lemma BurnedStep(e: Event, k: nat)
    requires e.eventType == Burned && k < 5
    ensures Enabled(BurnedState(e, k), BurnedRun(e)[k])
    ensures Next(BurnedState(e, k), BurnedRun(e)[k]) == BurnedState(e, k + 1)
  {
    if k == 2 || k == 4 { BurnedCommit(e, k); }
  }

  lemma BurnedCommit(e: Event, k: nat)
    requires e.eventType == Burned && (k == 2 || k == 4)
    ensures Next(BurnedState(e, k), Commit(0, true)) == BurnedState(e, k + 1)
  {
    var s, s' := BurnedState(e, k), Next(BurnedState(e, k), Commit(0, true));
    assert s.open - {0} == map[];
    assert BurnedRuns(k) + [StageRun(if k == 2 then Init else FullSync, true)] == BurnedRuns(k + 1);
    assert s'.ledger == BurnedState(e, k + 1).ledger;
    if k == 4 { assert s.queue - {0} == map[]; }
  }

  lemma Extend(steps: seq<Step>, step: Step, s: State)
    requires ValidRun(steps) && Exec(steps) == s && Enabled(s, step)
    ensures ValidRun(steps + [step]) && Exec(steps + [step]) == Next(s, step)
  {
    assert (steps + [step])[..|steps|] == steps;
  }

  lemma {:induction false} BurnedRunReaches(e: Event, k: nat)
    requires e.eventType == Burned && k <= 5
    ensures ValidRun(BurnedRun(e)[..k]) && Exec(BurnedRun(e)[..k]) == BurnedState(e, k)
  {
    if k > 0 {
      BurnedRunReaches(e, k - 1);
      BurnedStep(e, k - 1);
      Extend(BurnedRun(e)[..k - 1], BurnedRun(e)[k - 1], BurnedState(e, k - 1));
      assert BurnedRun(e)[..k] == BurnedRun(e)[..k - 1] + [BurnedRun(e)[k - 1]];
    }
  }

  lemma BurnedRunEnds(e: Event)
    requires e.eventType == Burned
    ensures ValidRun(BurnedRun(e)) && Exec(BurnedRun(e)) == BurnedState(e, 5)
  {
    BurnedRunReaches(e, 5);
    assert BurnedRun(e)[..5] == BurnedRun(e);
  }

  /** A nonzero index: the run archives the event, and pushing it again makes a second record. */
  lemma NonzeroIndexIsAcceptedAgain(e: Event)
    requires e.eventType == Burned && e.eventIndex != 0
    ensures ValidRun(BurnedRun(e) + [Push(e, 0)])
    ensures var s := Exec(BurnedRun(e) + [Push(e, 0)]);
            |s.ledger| == 2 && s.ledger[0].event == s.ledger[1].event == e && Live(s, 0) && Live(s, 1)
  {
    BurnedRunEnds(e);
    var s := Exec(BurnedRun(e));
    Extend(BurnedRun(e), Push(e, 0), s);
    assert Accepts(s.queue, s.archive, e);
  }

  /** An archived event with a nonzero index makes the store refuse its never-pushed sibling with index zero. */
  lemma SiblingWithIndexZeroIsLost(e: Event)
    requires e.eventType == Burned && e.eventIndex != 0
    ensures var s := Exec(BurnedRun(e));
            ValidRun(BurnedRun(e)) && |s.ledger| == 1 && s.ledger[0].event == e && !Accepts(s.queue, s.archive, e.(eventIndex := 0))
  {
    BurnedRunEnds(e);
    assert MatchesArchived(Exec(BurnedRun(e)).archive[0], e.(eventIndex := 0));
  }

  /**
    Exactly when a failed run leaves no trace in the tables: when its worker archives. At any other
    stage the row shows it, as failed.
   */
  lemma LastFailureIsInvisibleIff(steps: seq<Step>, p: nat)
    requires ValidRun(steps) && p in Exec(steps).open
    ensures var s, id := Exec(steps), Exec(steps).open[p].id;
            var ok, failed := Next(s, Commit(p, true)), Next(s, Commit(p, false));
            && (ok.queue == failed.queue && ok.archive == failed.archive <==> NextStage(s.open[p].worker).None?)
            && (NextStage(s.open[p].worker).None? ==> id in failed.archive && failed.archive[id].status == Processed)
            && (NextStage(s.open[p].worker).Some? ==> id in failed.queue && failed.queue[id].status == Failed)
            && ok.ledger != failed.ledger
  {
    var s := Exec(steps);
    RunsKeepInv(steps);
    ClaimedRow(s, p);
    assert ClaimOk(s.open[p], s.queue);
    CommitEffect(s, p, true);
    CommitEffect(s, p, false);
    var id, ok, failed := s.open[p].id, Next(s, Commit(p, true)), Next(s, Commit(p, false));
    SameOutsideTheRow(id, ok, failed);
    var n := |s.ledger[id].runs|;
    assert ok.ledger[id].runs[n] != failed.ledger[id].runs[n];
  }

  lemma SameOutsideTheRow(id: nat, s: State, s': State)
    requires s.queue - {id} == s'.queue - {id} && s.archive - {id} == s'.archive - {id}
    ensures id !in s.queue && id !in s'.queue ==> s.queue == s'.queue
    ensures id in s.archive && id in s'.archive && s.archive[id] == s'.archive[id] ==> s.archive == s'.archive
  {
    if id !in s.queue && id !in s'.queue {
      assert s.queue - {id} == s.queue && s'.queue - {id} == s'.queue;
    }
    if id in s.archive && id in s'.archive && s.archive[id] == s'.archive[id] {
      assert (s.archive - {id})[id := s.archive[id]] == s.archive && (s'.archive - {id})[id := s'.archive[id]] == s'.archive;
    }
  }
}
