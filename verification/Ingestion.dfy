/** Documents and their chunk rows. */
module Ingestion {
  import opened Collections
  import opened TextSplitting
  import opened TextChunker
  import opened Embedding
  import TextCleaning
  import EventLines

  const EMBED_BATCH := 16

  datatype Status = PENDING | PROCESSING | COMPLETED | FAILED

  datatype Document = Document(org: string, status: Status, deleted: bool)

  datatype ChunkRow = ChunkRow(index: nat, content: string, tokens: nat, vector: Vector)

  /** What one ingestion meets outside: whether the knowledge base exists, the pieces to embed (None when there is
      no text or the chunker rejects its settings), the token counter, the embedding requests and the vectors they
      are for, which inserts succeed, and before which insert the process dies, if it does. */
  datatype Attempt = Attempt(baseExists: bool, plan: Option<seq<string>>, count: string -> nat,
                             request: Request, vector: string -> Vector, stored: nat -> bool, dies: nat -> bool)

  /** The extracted text, None when download or extraction throws, and the settings of the chunker. */
  datatype Source = Source(text: Option<string>, tok: Tokenizer, chunkSize: int, overlap: int)

  /** The pieces that the chunker makes of a source. */
  function PlanOf(source: Source): Option<seq<string>>
  {
    if source.text.None? || Blank(source.text.value) then None
    else
      var r := Answer(source.tok, source.text.value, source.chunkSize, source.overlap);
      if r.Ok? then Some(r.value) else None
  }

  /** The attempt is made on this source. */
  ghost predicate MadeOn(a: Attempt, source: Source)
  {
    a.plan == PlanOf(source) && a.count == source.tok.count
  }

  /** Row `k` of a plan: piece `k` and the vector of piece `k`. */
  function PlannedRow(a: Attempt, plan: seq<string>, k: nat): ChunkRow
    requires k < |plan|
  {
    ChunkRow(k, plan[k], a.count(plan[k]), a.vector(plan[k]))
  }

  function Planned(a: Attempt, plan: seq<string>, n: nat): seq<ChunkRow>
    requires n <= |plan|
  {
    seq(n, k requires 0 <= k < n => PlannedRow(a, plan, k))
  }

  predicate BatchFails(a: Attempt, plan: seq<string>, k: nat)
    requires k <= |plan|
  {
    k % EMBED_BATCH == 0 && !AllSucceed(a.request, k, Slice(plan, k, EMBED_BATCH), 0)
  }

  /** The first row from `k` on that is not inserted; `|plan|` when all are. */
  function Stop(a: Attempt, plan: seq<string>, k: nat): (n: nat)
    requires k <= |plan|
    ensures k <= n <= |plan|
    decreases |plan| - k
  {
    if k == |plan| || BatchFails(a, plan, k) || a.dies(k) || !a.stored(k) then k else Stop(a, plan, k + 1)
  }

  /** How many rows are inserted, and the status afterwards. */
  function Outcome(a: Attempt): (nat, Status)
  {
    var plan := a.plan;
    if plan.None? then (0, FAILED)
    else
      var n := Stop(a, plan.value, 0);
      (n, StatusAt(a, plan.value, n))
  }

  /** The status in which an ingestion that stops at row `n` leaves the document. */
  function StatusAt(a: Attempt, plan: seq<string>, n: nat): Status
    requires n <= |plan|
  {
    if n < |plan| && (BatchFails(a, plan, n) || !a.dies(n)) then FAILED
    else if a.dies(n) then PROCESSING
    else COMPLETED
  }

  function RowsOf(a: Attempt): (r: seq<ChunkRow>)
  {
    var plan := a.plan;
    if plan.None? then [] else Planned(a, plan.value, Outcome(a).0)
  }

  // ---------- the operations on the tables ----------

  datatype Ledger = Ledger(docs: map<string, Document>, rows: map<string, seq<ChunkRow>>)

  datatype Op =
    | Upload(id: string, org: string)
    | Ingest(id: string, attempt: Attempt)
    | Reindex(id: string, org: string, attempt: Attempt)
    | Delete(id: string, org: string)

  predicate Found(l: Ledger, org: string, id: string)
  {
    id in l.docs && l.docs[id].org == org && !l.docs[id].deleted
  }

  /** The status guard of `ingestDocument`, which looks at nothing else of the document. */
  predicate Skips(l: Ledger, id: string, a: Attempt)
  {
    id !in l.docs || l.docs[id].status == COMPLETED || l.docs[id].status == PROCESSING || !a.baseExists
  }

  function With(l: Ledger, id: string, doc: Document, rows: seq<ChunkRow>): Ledger
  {
    Ledger(l.docs[id := doc], l.rows[id := rows])
  }

  function RowsIn(l: Ledger, id: string): seq<ChunkRow>
  {
    if id in l.rows then l.rows[id] else []
  }

  function Ingested(l: Ledger, id: string, a: Attempt): Ledger
  {
    if Skips(l, id, a) then l
    else With(l, id, l.docs[id].(status := Outcome(a).1), RowsIn(l, id) + RowsOf(a))
  }

  function Cleared(l: Ledger, id: string): Ledger
    requires id in l.docs
  {
    With(l, id, l.docs[id].(status := PENDING), [])
  }

  function Handle(l: Ledger, op: Op): Ledger
  {
    match op
    case Upload(id, org) => With(l, id, Document(org, PENDING, false), [])
    case Ingest(id, a) => Ingested(l, id, a)
    case Reindex(id, org, a) => if Found(l, org, id) && a.baseExists then Ingested(Cleared(l, id), id, a) else l
    case Delete(id, org) => if Found(l, org, id) then With(l, id, l.docs[id].(deleted := true), []) else l
  }

  /** What an ingestion does: skipped, without a plan, with a plan. */
  lemma IngestCases(l: Ledger, id: string, a: Attempt)
    requires Valid(l)
    ensures Skips(l, id, a) ==> Ingested(l, id, a) == l
    ensures !Skips(l, id, a) && a.plan.None? ==>
            Ingested(l, id, a) == Ledger(l.docs[id := l.docs[id].(status := FAILED)], l.rows)
    ensures !Skips(l, id, a) && a.plan.Some? ==>
              var n := Stop(a, a.plan.value, 0);
              Ingested(l, id, a) == Ledger(l.docs[id := l.docs[id].(status := StatusAt(a, a.plan.value, n))],
                                           l.rows[id := l.rows[id] + Planned(a, a.plan.value, n)])
  {
    hide Planned, Stop, StatusAt;
    if !Skips(l, id, a) && a.plan.None? {
      assert l.rows[id] + [] == l.rows[id];
      assert l.rows[id := l.rows[id]] == l.rows;
    }
  }

  function Min(a: nat, b: nat): nat
  {
    if a <= b then a else b
  }

  /** Every document has its list of rows. */
  ghost predicate Valid(l: Ledger)
  {
    forall id :: id in l.docs ==> id in l.rows
  }

  lemma NothingPlanned(a: Attempt, plan: seq<string>, before: seq<ChunkRow>)
    ensures before + Planned(a, plan, 0) == before
  {
  }

  lemma StopsHere(a: Attempt, plan: seq<string>, k: nat)
    requires k <= |plan| && (k == |plan| || BatchFails(a, plan, k) || a.dies(k) || !a.stored(k))
    ensures Stop(a, plan, k) == k
  {
  }

  lemma WhenBatchFails(a: Attempt, plan: seq<string>, i: nat)
    requires i < |plan| && i % EMBED_BATCH == 0
    ensures BatchFails(a, plan, i) <==> !AllSucceed(a.request, i, Slice(plan, i, EMBED_BATCH), 0)
  {
  }

  lemma SliceIsPart(plan: seq<string>, i: nat, batch: seq<string>)
    requires i < |plan| && batch == Slice(plan, i, EMBED_BATCH)
    ensures |batch| <= EMBED_BATCH && i + |batch| == Min(i + EMBED_BATCH, |plan|)
    ensures forall j :: 0 <= j < |batch| ==> batch[j] == plan[i + j]
  {
  }

  lemma InsideBatch(a: Attempt, plan: seq<string>, i: nat, j: nat)
    requires i % EMBED_BATCH == 0 && j < EMBED_BATCH && i + j < |plan| && !BatchFails(a, plan, i)
    ensures !BatchFails(a, plan, i + j)
  {
    hide AllSucceed;
  }

  lemma GoesOn(a: Attempt, plan: seq<string>, k: nat, before: seq<ChunkRow>)
    requires k < |plan| && !BatchFails(a, plan, k) && !a.dies(k) && a.stored(k)
    ensures Stop(a, plan, k) == Stop(a, plan, k + 1)
    ensures before + Planned(a, plan, k) + [PlannedRow(a, plan, k)] == before + Planned(a, plan, k + 1)
  {
  }

  class KnowledgeService {
    var docs: map<string, Document>
    var rows: map<string, seq<ChunkRow>>

    constructor ()
      ensures docs == map[] && rows == map[]
    {
      docs, rows := map[], map[];
    }

    function Tables(): Ledger
      reads this
    {
      Ledger(docs, rows)
    }

    method InsertChunk(id: string, row: ChunkRow)
      modifies this`rows
      ensures rows == old(rows)[id := RowsIn(old(Tables()), id) + [row]]
    {
      var before := if id in rows then rows[id] else [];
      rows := rows[id := before + [row]];
    }

    /** `ingestDocument`: the rows inserted are those of the plan, one by one, up to the first failure. */
    method IngestDocument(id: string, a: Attempt, source: Source)
      requires Elementwise(a.request, a.vector) && MadeOn(a, source) && Valid(Tables())
      modifies this
      ensures Tables() == Ingested(old(Tables()), id, a)
    {
      hide Blank, Answer, Elementwise, Stop, Planned, StatusAt, BatchFails, Ingested, TextCleaning.Solid,
           EventLines.Trimmed;
      IngestCases(Tables(), id, a);
      if id !in docs || docs[id].status == COMPLETED || docs[id].status == PROCESSING {
        return;
      }
      if !a.baseExists {
        return;
      }
      docs := docs[id := docs[id].(status := PROCESSING)];
      if source.text.None? || Blank(source.text.value) {
        Fail(id);
        return;
      }
      var split := TextChunker.Split(source.tok, source.text.value, source.chunkSize, source.overlap);
      if split.Err? {
        Fail(id);
        return;
      }
      var pieces := split.value;
      var end := EmbedAndInsert(id, a, pieces);
      assert docs == old(docs)[id := old(docs)[id].(status := PROCESSING)];
      if end == COMPLETED {
        docs := docs[id := docs[id].(status := COMPLETED)];
      } else if end == FAILED {
        Fail(id);
      }
    }

    /** The loop over the batches. */
    method EmbedAndInsert(id: string, a: Attempt, pieces: seq<string>) returns (end: Status)
      requires Elementwise(a.request, a.vector) && id in rows
      modifies this`rows
      ensures var n := Stop(a, pieces, 0);
              end == StatusAt(a, pieces, n) && end != PENDING
                && rows == old(rows)[id := old(rows)[id] + Planned(a, pieces, n)]
    {
      hide Elementwise, AllSucceed, Stop, Planned, BatchFails;
      ghost var before := rows[id];
      NothingPlanned(a, pieces, before);
      var i := 0;
      while i < |pieces|
        invariant 0 <= i && i % EMBED_BATCH == 0
        invariant id in rows && rows == old(rows)[id := rows[id]]
        invariant rows[id] == before + Planned(a, pieces, Min(i, |pieces|))
        invariant Stop(a, pieces, 0) == Stop(a, pieces, Min(i, |pieces|))
      {
        var batch := Slice(pieces, i, EMBED_BATCH);
        var embeddings := EmbedMany(a.request, i, batch, a.vector);
        WhenBatchFails(a, pieces, i);
        if embeddings.None? {
          StopsHere(a, pieces, i);
          return FAILED;
        }
        var stopped := InsertBatch(id, a, pieces, i, batch, embeddings.value, before);
        if stopped.Some? {
          return stopped.value;
        }
        i := i + EMBED_BATCH;
      }
      StopsHere(a, pieces, |pieces|);
      return if a.dies(|pieces|) then PROCESSING else COMPLETED;
    }

    /** The loop over one batch; None when all of its rows are inserted. */
    method InsertBatch(id: string, a: Attempt, pieces: seq<string>, i: nat, batch: seq<string>, embeddings: seq<Vector>,
                       ghost before: seq<ChunkRow>) returns (stopped: Option<Status>)
      requires i < |pieces| && i % EMBED_BATCH == 0 && !BatchFails(a, pieces, i)
      requires batch == Slice(pieces, i, EMBED_BATCH) && embeddings == Map(batch, a.vector)
      requires id in rows && rows[id] == before + Planned(a, pieces, i)
      modifies this`rows
      ensures id in rows && rows == old(rows)[id := rows[id]]
      ensures stopped.None? ==>
                && rows[id] == before + Planned(a, pieces, i + |batch|)
                && Stop(a, pieces, i) == Stop(a, pieces, i + |batch|)
      ensures stopped.Some? ==>
                && rows[id] == before + Planned(a, pieces, Stop(a, pieces, i))
                && stopped.value == StatusAt(a, pieces, Stop(a, pieces, i))
    {
      hide Stop, Planned, BatchFails, Slice;
      SliceIsPart(pieces, i, batch);
      for j := 0 to |batch|
        invariant id in rows && rows == old(rows)[id := rows[id]]
        invariant rows[id] == before + Planned(a, pieces, i + j)
        invariant Stop(a, pieces, i) == Stop(a, pieces, i + j)
      {
        InsideBatch(a, pieces, i, j);
        if a.dies(i + j) {
          StopsHere(a, pieces, i + j);
          return Some(PROCESSING);
        }
        if !a.stored(i + j) {
          StopsHere(a, pieces, i + j);
          return Some(FAILED);
        }
        GoesOn(a, pieces, i + j, before);
        InsertChunk(id, ChunkRow(i + j, batch[j], a.count(batch[j]), embeddings[j]));
      }
      return None;
    }

    method Fail(id: string)
      requires id in docs
      modifies this`docs
      ensures docs == old(docs)[id := old(docs)[id].(status := FAILED)]
    {
      docs := docs[id := docs[id].(status := FAILED)];
    }

    method UploadDocument(id: string, org: string)
      modifies this
      ensures Tables() == Handle(old(Tables()), Upload(id, org))
      ensures docs == old(docs)[id := Document(org, PENDING, false)] && rows == old(rows)[id := []]
    {
      docs, rows := docs[id := Document(org, PENDING, false)], rows[id := []];
    }

    method ReindexDocument(id: string, org: string, a: Attempt, source: Source) returns (started: bool)
      requires Elementwise(a.request, a.vector) && MadeOn(a, source) && Valid(Tables())
      modifies this
      ensures Tables() == Handle(old(Tables()), Reindex(id, org, a))
              && started == (Found(old(Tables()), org, id) && a.baseExists)
    {
      hide Elementwise, Ingested, MadeOn;
      if !(id in docs && docs[id].org == org && !docs[id].deleted) {
        return false;
      }
      if !a.baseExists {
        return false;
      }
      rows := rows[id := []];
      docs := docs[id := docs[id].(status := PENDING)];
      IngestDocument(id, a, source);
      return true;
    }

    method DeleteDocument(id: string, org: string) returns (found: bool)
      modifies this
      ensures Tables() == Handle(old(Tables()), Delete(id, org)) && found == Found(old(Tables()), org, id)
      ensures found <==> id in old(docs) && old(docs)[id].org == org && !old(docs)[id].deleted
      ensures found ==> docs == old(docs)[id := old(docs)[id].(deleted := true)] && rows == old(rows)[id := []]
      ensures !found ==> docs == old(docs) && rows == old(rows)
    {
      if !(id in docs && docs[id].org == org && !docs[id].deleted) {
        return false;
      }
      rows := rows[id := []];
      docs := docs[id := docs[id].(deleted := true)];
      return true;
    }
  }

  // ---------- every history ----------

  /** The attempt that last gave each document its rows. */
  type Attempts = map<string, Attempt>

  function Remembered(l: Ledger, last: Attempts, op: Op): Attempts
  {
    match op
    case Ingest(id, a) => if Skips(l, id, a) then last else last[id := a]
    case Reindex(id, org, a) => if Found(l, org, id) && a.baseExists then last[id := a] else last
    case _ => last
  }

  /** The rows are the rows of one ingestion from the start: row `k` has index `k`, piece `k` and its vector,
      and a COMPLETED document has one for every piece. */
  ghost predicate Exact(doc: Document, rows: seq<ChunkRow>, a: Attempt)
  {
    var plan := if a.plan.Some? then a.plan.value else [];
    && |rows| <= |plan|
    && (forall k :: 0 <= k < |rows| ==>
          && rows[k].index == k && rows[k].content == plan[k]
          && rows[k].tokens == a.count(plan[k]) && rows[k].vector == a.vector(plan[k]))
    && (doc.status == COMPLETED ==> a.plan.Some? && |rows| == |plan|)
  }

  ghost predicate Good(l: Ledger, last: Attempts)
  {
    && Valid(l)
    && (forall id :: id in l.docs ==>
          || (l.rows[id] == [] && (l.docs[id].deleted || l.docs[id].status == PENDING))
          || (id in last && l.docs[id].status != PENDING && Exact(l.docs[id], l.rows[id], last[id])))
  }

  /** Uploads have fresh ids, and a FAILED document is only tried again by reindexing it. */
  predicate Disciplined(l: Ledger, op: Op)
  {
    && (op.Upload? ==> op.id !in l.docs)
    && (op.Ingest? && op.id in l.docs ==> l.docs[op.id].status != FAILED)
  }

  lemma AttemptIsExact(doc: Document, a: Attempt)
    ensures Exact(doc.(status := Outcome(a).1), RowsOf(a), a)
  {
    hide BatchFails;
  }

  // ---------- how an ingestion ends ----------

  /** The chunker has answered, and every embedding request and every insert of the attempt succeeds. */
  ghost predicate Succeeds(a: Attempt)
  {
    && a.plan.Some?
    && (forall i :: 0 <= i < |a.plan.value| && i % 16 == 0 ==>
          a.request(i, a.plan.value[i..if i + 16 <= |a.plan.value| then i + 16 else |a.plan.value|]).Some?)
    && (forall k: nat :: k < |a.plan.value| ==> a.stored(k))
  }

  lemma BatchFailsIff(a: Attempt, plan: seq<string>, i: nat)
    requires i < |plan| && i % 16 == 0
    ensures BatchFails(a, plan, i) <==>
              a.request(i, plan[i..if i + 16 <= |plan| then i + 16 else |plan|]).None?
  {
    var batch := Slice(plan, i, EMBED_BATCH);
    AllSucceedIff(a.request, i, batch, 0);
    assert batch[0..|batch|] == batch && Slice(batch, 0, 100) == batch;
  }

  /** Where the loop stops, and why. */
  lemma {:induction false} StopHasReason(a: Attempt, plan: seq<string>, k: nat)
    requires k <= |plan|
    ensures var n := Stop(a, plan, k);
            && (forall i :: k <= i < n ==> !BatchFails(a, plan, i) && !a.dies(i) && a.stored(i))
            && (n < |plan| ==> BatchFails(a, plan, n) || a.dies(n) || !a.stored(n))
    decreases |plan| - k
  {
    hide BatchFails;
    if !(k == |plan| || BatchFails(a, plan, k) || a.dies(k) || !a.stored(k)) {
      StopHasReason(a, plan, k + 1);
    }
  }

  lemma NoBatchFailsIff(a: Attempt)
    requires a.plan.Some?
    ensures Succeeds(a) <==>
              forall k: nat :: k < |a.plan.value| ==> !BatchFails(a, a.plan.value, k) && a.stored(k)
  {
    var plan := a.plan.value;
    assert forall k: nat :: k < |plan| && k % 16 != 0 ==> !BatchFails(a, plan, k);
    hide BatchFails;
    if Succeeds(a) {
      forall k: nat | k < |plan| && k % 16 == 0
        ensures !BatchFails(a, plan, k)
      {
        BatchFailsIff(a, plan, k);
      }
    }
    if forall k: nat :: k < |plan| ==> !BatchFails(a, plan, k) && a.stored(k) {
      forall k | 0 <= k < |plan| && k % 16 == 0
        ensures a.request(k, plan[k..if k + 16 <= |plan| then k + 16 else |plan|]).Some?
      {
        BatchFailsIff(a, plan, k);
      }
    }
  }

  /** An ingestion that is not skipped ends COMPLETED, with all rows, if everything succeeds, and FAILED otherwise. Only
      if the process dies on the way is the document left PROCESSING, for every later ingestion to skip. */
  lemma IngestionEnds(l: Ledger, id: string, a: Attempt)
    requires Valid(l) && id in l.docs && l.docs[id].status in {PENDING, FAILED} && a.baseExists
    ensures var m := Handle(l, Ingest(id, a));
            && m.docs == l.docs[id := m.docs[id]] && m.docs[id].status in {COMPLETED, FAILED, PROCESSING}
            && (m.docs[id].status == PROCESSING ==> a.plan.Some? && exists k: nat :: k <= |a.plan.value| && a.dies(k))
            && (m.docs[id].status == COMPLETED ==> Succeeds(a))
            && ((forall k: nat :: !a.dies(k)) ==> m.docs[id].status == if Succeeds(a) then COMPLETED else FAILED)
            && m.docs[id].deleted == l.docs[id].deleted && m.docs[id].org == l.docs[id].org
  {
    hide BatchFails, Stop, Succeeds;
    if a.plan.Some? {
      var n := Stop(a, a.plan.value, 0);
      StopHasReason(a, a.plan.value, 0);
      NoBatchFailsIff(a);
    } else {
      NoPlanFails(a);
    }
  }

  lemma NoPlanFails(a: Attempt)
    requires a.plan.None?
    ensures !Succeeds(a)
  {
  }

  lemma OpKeepsGood(l: Ledger, last: Attempts, op: Op)
    requires Good(l, last) && Disciplined(l, op)
    ensures Good(Handle(l, op), Remembered(l, last, op))
  {
    hide Exact, Outcome, RowsOf;
    match op
    case Ingest(id, a) =>
      if !Skips(l, id, a) {
        AttemptIsExact(l.docs[id], a);
        NeverPending(a);
        assert [] + RowsOf(a) == RowsOf(a);
      }
    case Reindex(id, org, a) =>
      if Found(l, org, id) && a.baseExists {
        AttemptIsExact(Cleared(l, id).docs[id], a);
        NeverPending(a);
        assert [] + RowsOf(a) == RowsOf(a);
      }
    case _ =>
  }

  lemma NeverPending(a: Attempt)
    ensures Outcome(a).1 != PENDING
  {
  }

  function HandleAll(l: Ledger, ops: seq<Op>): Ledger
    decreases |ops|
  {
    if ops == [] then l else HandleAll(Handle(l, ops[0]), ops[1..])
  }

  function RememberedAll(l: Ledger, last: Attempts, ops: seq<Op>): Attempts
    decreases |ops|
  {
    if ops == [] then last else RememberedAll(Handle(l, ops[0]), Remembered(l, last, ops[0]), ops[1..])
  }

  predicate AllDisciplined(l: Ledger, ops: seq<Op>)
    decreases |ops|
  {
    ops == [] || (Disciplined(l, ops[0]) && AllDisciplined(Handle(l, ops[0]), ops[1..]))
  }

  lemma {:induction false} HistoryKeepsGood(l: Ledger, last: Attempts, ops: seq<Op>)
    requires Good(l, last) && AllDisciplined(l, ops)
    ensures Good(HandleAll(l, ops), RememberedAll(l, last, ops))
    decreases |ops|
  {
    hide Good, Handle, Remembered, Disciplined;
    if ops != [] {
      OpKeepsGood(l, last, ops[0]);
      HistoryKeepsGood(Handle(l, ops[0]), Remembered(l, last, ops[0]), ops[1..]);
    }
  }

  /** In every history in which FAILED documents are only retried by reindexing: a live COMPLETED document has
      exactly the rows of its last ingestion, one for each piece, and a live document in any other status has
      an initial part of them. */
  lemma LiveDocumentsAreExact(ops: seq<Op>)
    requires AllDisciplined(Ledger(map[], map[]), ops)
    ensures var l, last := HandleAll(Ledger(map[], map[]), ops), RememberedAll(Ledger(map[], map[]), map[], ops);
            Valid(l) && forall id :: id in l.docs && !l.docs[id].deleted ==>
              if l.docs[id].status == PENDING then l.rows[id] == []
              else id in last && Exact(l.docs[id], l.rows[id], last[id])
  {
    hide Exact, HandleAll, RememberedAll;
    HistoryKeepsGood(Ledger(map[], map[]), map[], ops);
  }

  /** Ingesting a document again while it is COMPLETED or PROCESSING changes nothing. */
  lemma RepeatedIngestIsSkipped(l: Ledger, id: string, a: Attempt, b: Attempt)
    requires id in l.docs
    ensures var m := Handle(l, Ingest(id, a));
            m.docs[id].status in {COMPLETED, PROCESSING} ==> Handle(m, Ingest(id, b)) == m
  {
    hide Outcome, RowsOf;
  }

  /** The status guard does not look at rows: an ingestion that completes leaves exactly the planned rows if and
      only if the document had none. A FAILED document that is ingested directly keeps the rows of its first
      attempt beside the new ones, although the entry point is described as idempotent. */
  lemma CompletedIsExactIffNoRowsBefore(l: Ledger, id: string, a: Attempt)
    requires Valid(l) && id in l.docs && !Skips(l, id, a)
    ensures var m := Handle(l, Ingest(id, a));
            m.docs[id].status == COMPLETED ==> (Exact(m.docs[id], m.rows[id], a) <==> l.rows[id] == [])
  {
    hide Outcome;
    var m := Handle(l, Ingest(id, a));
    AttemptIsExact(l.docs[id], a);
    if l.rows[id] == [] {
      assert [] + RowsOf(a) == RowsOf(a);
    } else {
      assert |m.rows[id]| > |RowsOf(a)|;
    }
  }

  /** Such a document exists for every attempt that would complete with two rows or more: let the second insert
      fail the first time, and ingest again. */
  lemma DirectRetryKeepsOldRows(l: Ledger, id: string, a: Attempt)
    requires Valid(l) && id in l.docs && l.docs[id].status == PENDING && l.rows[id] == [] && a.baseExists
    requires a.plan.Some? && |a.plan.value| > 1 && Outcome(a).1 == COMPLETED
    ensures var failing := a.(stored := (k: nat) => k != 1 && a.stored(k));
            var m := Handle(l, Ingest(id, failing));
            var t := Handle(m, Ingest(id, a));
            && m.docs[id].status == FAILED && m.rows[id] == [PlannedRow(a, a.plan.value, 0)]
            && t.docs[id].status == COMPLETED && !Exact(t.docs[id], t.rows[id], a)
  {
    hide BatchFails, Exact;
    var plan := a.plan.value;
    var failing := a.(stored := (k: nat) => k != 1 && a.stored(k));
    SameBatches(a, failing, plan);
    GoesOn(failing, plan, 0, []);
    StopsHere(failing, plan, 1);
    GoesOn(a, plan, 0, []);
    var m := Handle(l, Ingest(id, failing));
    assert [] + RowsOf(failing) == RowsOf(failing) && RowsOf(failing) == [PlannedRow(a, plan, 0)];
    CompletedIsExactIffNoRowsBefore(m, id, a);
  }

  lemma SameBatches(a: Attempt, b: Attempt, plan: seq<string>)
    requires a.request == b.request
    ensures forall k: nat :: k <= |plan| ==> (BatchFails(b, plan, k) <==> BatchFails(a, plan, k))
  {
  }

  /** Reindexing repairs a document whatever rows it had. */
  lemma ReindexRepairs(l: Ledger, id: string, org: string, a: Attempt)
    requires Found(l, org, id) && a.baseExists
    ensures var m := Handle(l, Reindex(id, org, a));
            && Exact(m.docs[id], m.rows[id], a)
            && ((forall k: nat :: !a.dies(k)) ==> m.docs[id].status == if Succeeds(a) then COMPLETED else FAILED)
  {
    hide Outcome, RowsOf, Exact, Succeeds;
    IngestionEnds(Cleared(Ledger(l.docs, map i | i in l.docs :: []), id), id, a);
    AttemptIsExact(Cleared(l, id).docs[id], a);
    assert [] + RowsOf(a) == RowsOf(a);
  }

  /** The guard does not look at `deletedAt` either: a queued ingestion gives a document that was deleted
      in the meantime rows exactly when it was still PENDING or FAILED and the attempt inserts some. */
  lemma DeletedDocumentGetsRowsIffNotDone(l: Ledger, id: string, org: string, a: Attempt)
    requires Found(l, org, id)
    ensures var m := Handle(Handle(l, Delete(id, org)), Ingest(id, a));
            && m.docs[id].deleted
            && (m.rows[id] != [] <==> l.docs[id].status in {PENDING, FAILED} && a.baseExists && RowsOf(a) != [])
  {
    hide Outcome, RowsOf;
    assert [] + RowsOf(a) == RowsOf(a);
  }
}
