/** Whole runs over any number of send queues sharing one free list, and the way a queue survives
    an upgrade. */
module SendQueueRuns {
  import B = Base64
  import opened SendQueue
  import opened Common

  /* ---------- queues over one pool ---------- */

  ghost function ChunksOf(qs: set<SendQ>): set<Chunk>
    reads qs`chunks
  {
    set q, c | q in qs && c in q.chunks :: c
  }

  /** The pool and all queues are well formed. */
  ghost predicate System(pool: Pool, qs: set<SendQ>)
    reads pool, pool.free, qs, ChunksOf(qs)
  {
    pool.Valid() && forall q :: q in qs ==> (forall c :: c in q.chunks ==> c in ChunksOf(qs)) && q.Valid()
  }

  /** A chunk has one owner, so it is in one place: it is not both free and queued, nor in two
      queues. */
  lemma OnePlace(pool: Pool, qs: set<SendQ>, q: SendQ, r: SendQ, c: Chunk)
    requires System(pool, qs) && q in qs && r in qs && c in q.chunks
    ensures c !in pool.free && (c in r.chunks ==> q == r)
  {
    q.InUse();
    r.InUse();
  }

  datatype Op =
    | Put(q: SendQ, room: nat, bytes: seq<Byte>)
    | Send(q: SendQ, accept: int)
    | Clear(q: SendQ)

  /** The writer of a buffer stays within the room it asked for. */
  predicate Fair(op: Op) {
    op.Put? ==> |op.bytes| <= op.room
  }

  /** What the operation adds at the end of its queue: nothing when the request was refused. */
  function Adds(op: Op): seq<Byte> {
    if op.Put? && op.room <= CHUNK_SIZE then op.bytes else []
  }

  /** An operation as far as its own queue is concerned. */
  method DoOne(pool: Pool, op: Op) returns (wire: seq<Byte>)
    requires pool.Valid() && op.q.Valid() && Fair(op)
    modifies pool, pool.free, op.q, op.q.chunks
    ensures pool.Valid() && op.q.Valid()
    ensures forall i :: 0 <= i < |pool.free| ==> pool.free[i] in old(pool.free) || pool.free[i] in old(op.q.chunks)
    ensures forall i :: 0 <= i < |op.q.chunks| ==>
      op.q.chunks[i] in old(op.q.chunks) || op.q.chunks[i] in old(pool.free) || fresh(op.q.chunks[i])
    ensures wire + op.q.Contents() == if op.Clear? then [] else old(op.q.Contents()) + Adds(op)
  {
    hide SendQ.Valid, Pool.Valid, SendQ.Contents;
    wire := [];
    var q := op.q;
    match op
    case Put(_, room, bytes) =>
      q.TailIs();
      pool.FreeHead();
      var chunk := q.GetBuffer(pool, room);
      if chunk != null {
        q.NotFreeTail(pool);
        q.TailIs();
        q.Store(bytes);
        var taken := q.EndBuffer(|bytes|);
      }
      assert forall i :: 0 <= i < |q.chunks| ==> q.chunks[i] in q.chunks;
    case Send(_, accept) =>
      var rc;
      rc, wire := q.Write(pool, accept);
      assert forall i :: 0 <= i < |q.chunks| ==> q.chunks[i] in q.chunks;
    case Clear(_) =>
      q.Clear(pool);
    assert forall i :: 0 <= i < |pool.free| ==> pool.free[i] in pool.free;
  }

  lemma Assemble(pool: Pool, qs: set<SendQ>)
    requires pool.Valid() && forall q :: q in qs ==> q.Valid()
    ensures System(pool, qs)
  {
    hide SendQ.Valid, Pool.Valid;
  }

  lemma Members(pool: Pool, qs: set<SendQ>)
    requires System(pool, qs)
    ensures pool.Valid() && forall q :: q in qs ==> q.Valid()
  {
    hide SendQ.Valid, Pool.Valid;
  }

  /** Every chunk in use is among these. */
  ghost predicate Inside(pool: Pool, qs: set<SendQ>, scope: set<Chunk>)
    reads pool, qs
  {
    (forall i :: 0 <= i < |pool.free| ==> pool.free[i] in scope) &&
    forall q, i :: q in qs && 0 <= i < |q.chunks| ==> q.chunks[i] in scope
  }

  lemma Widen(pool: Pool, qs: set<SendQ>, q: SendQ, scope: set<Chunk>, more: set<Chunk>)
    requires scope <= more && q in qs
    requires forall i :: 0 <= i < |pool.free| ==> pool.free[i] in scope
    requires forall r, i :: r in qs && r != q && 0 <= i < |r.chunks| ==> r.chunks[i] in scope
    requires forall i :: 0 <= i < |q.chunks| ==> q.chunks[i] in more
    ensures Inside(pool, qs, more)
  {
  }

  /** An operation changes the contents of its own queue and of no other, and leaves every queue
      and the pool well formed. */
  method Do(pool: Pool, ghost qs: set<SendQ>, op: Op, ghost scope: set<Chunk>)
      returns (wire: seq<Byte>, ghost wider: set<Chunk>)
    requires System(pool, qs) && op.q in qs && Fair(op) && Inside(pool, qs, scope)
    modifies pool, op.q, scope
    ensures scope <= wider && Inside(pool, qs, wider) && forall c :: c in wider ==> c in scope || fresh(c)
    ensures System(pool, qs) && forall r :: r in qs && r != op.q ==> r.Contents() == old(r.Contents())
    ensures wire + op.q.Contents() == if op.Clear? then [] else old(op.q.Contents()) + Adds(op)
  {
    hide SendQ.Valid, Pool.Valid, SendQ.Contents, System;
    Members(pool, qs);
    forall r, i | r in qs && r != op.q && 0 <= i < |r.chunks|
      ensures r.chunks[i] !in pool.free && r.chunks[i] !in op.q.chunks
    {
      OnePlace(pool, qs, r, op.q, r.chunks[i]);
    }
    wire := DoOne(pool, op);
    Assemble(pool, qs);
    wider := scope + set c | c in op.q.chunks;
    assert forall i :: 0 <= i < |op.q.chunks| ==> op.q.chunks[i] in wider;
    Widen(pool, qs, op.q, scope, wider);
  }

  /* ---------- runs ---------- */

  /** All that a run adds to a queue. */
  function Committed(ops: seq<Op>, q: SendQ): seq<Byte> {
    if ops == [] then []
    else Committed(ops[..|ops| - 1], q) + if ops[|ops| - 1].q == q then Adds(ops[|ops| - 1]) else []
  }

  predicate NeverCleared(ops: seq<Op>, q: SendQ) {
    forall i :: 0 <= i < |ops| ==> ops[i] != Clear(q)
  }

  lemma Initial(pool: Pool, qs: set<SendQ>)
    ensures Inside(pool, qs, ChunksOf(qs) + set c | c in pool.free)
  {
    forall q, i | q in qs && 0 <= i < |q.chunks|
      ensures q.chunks[i] in ChunksOf(qs)
    {
      var c := q.chunks[i];
      assert c in q.chunks && c in ChunksOf(qs);
    }
    assert forall i :: 0 <= i < |pool.free| ==> pool.free[i] in pool.free;
  }

  /** A run of any operations on any queues: whatever the chunk boundaries, the refused requests
      and the partial writes, what went out on the wire followed by what is still queued is what
      was queued before followed by everything committed since, for every queue that was not
      cleared. */
  method Run(pool: Pool, qs: set<SendQ>, ops: seq<Op>) returns (wires: map<SendQ, seq<Byte>>)
    requires System(pool, qs) && forall i :: 0 <= i < |ops| ==> ops[i].q in qs && Fair(ops[i])
    modifies pool, pool.free, qs, ChunksOf(qs)
    ensures System(pool, qs) && wires.Keys == qs
    ensures forall q :: q in qs && NeverCleared(ops, q) ==>
      wires[q] + q.Contents() == old(q.Contents()) + Committed(ops, q)
  {
    hide SendQ.Valid, Pool.Valid, SendQ.Contents, System, Committed, NeverCleared, Inside;
    wires := map q | q in qs :: [];
    ghost var had := ChunksOf(qs) + set c | c in pool.free;
    ghost var scope := had;
    Initial(pool, qs);
    forall q | q in qs
      ensures NeverCleared([], q) && Committed([], q) == []
    {
      NothingYet(q);
    }
    for k := 0 to |ops|
      invariant System(pool, qs) && wires.Keys == qs && Inside(pool, qs, scope)
      invariant forall c :: c in scope ==> c in had || fresh(c)
      invariant forall q :: q in qs && NeverCleared(ops[..k], q) ==>
        wires[q] + q.Contents() == old(q.Contents()) + Committed(ops[..k], q)
    {
      var op := ops[k];
      ghost var contents := op.q.Contents();
      var wire;
      wire, scope := Do(pool, qs, op, scope);
      if !op.Clear? {
        Conserved(wires[op.q], wire, op.q.Contents(), contents, Adds(op));
      }
      wires := wires[op.q := wires[op.q] + wire];
      forall q | q in qs
        ensures NeverCleared(ops[..k + 1], q) ==>
          wires[q] + q.Contents() == old(q.Contents()) + Committed(ops[..k + 1], q)
      {
        OneMore(ops, k, q);
        Grown(old(q.Contents()), Committed(ops[..k], q), if op.q == q then Adds(op) else []);
      }
    }
    assert ops[..|ops|] == ops;
  }

  lemma Conserved(sent: seq<Byte>, wire: seq<Byte>, now: seq<Byte>, before: seq<Byte>, added: seq<Byte>)
    requires wire + now == before + added
    ensures sent + wire + now == sent + before + added
  {
    assert sent + wire + now == sent + (wire + now);
    assert sent + before + added == sent + (before + added);
  }

  lemma Grown(a: seq<Byte>, b: seq<Byte>, c: seq<Byte>)
    ensures a + b + c == a + (b + c)
  {
  }

  lemma NothingYet(q: SendQ)
    ensures NeverCleared([], q) && Committed([], q) == []
  {
  }

  lemma OneMore(ops: seq<Op>, k: nat, q: SendQ)
    requires k < |ops|
    ensures NeverCleared(ops[..k + 1], q) ==> NeverCleared(ops[..k], q) && ops[k] != Clear(q)
    ensures Committed(ops[..k + 1], q) == Committed(ops[..k], q) + if ops[k].q == q then Adds(ops[k]) else []
  {
    assert ops[..k + 1][..k] == ops[..k];
    assert ops[..k + 1][k] == ops[k];
  }

  /* ---------- an upgrade ---------- */

  /** Serialized by one process and restored into an empty queue by the next, a queue has the same
      bytes and the same size, however its chunks were cut and however much of the first one was
      already sent. */
  method Upgrade(q: SendQ) returns (rc: int, pool: Pool, r: SendQ)
    requires q.Valid()
    ensures rc == 0 && pool.Valid() && r.Valid()
    ensures r.Contents() == q.Contents() && r.size == q.size
  {
    hide B.Encoded, B.Decoded, Flat, SendQ.Stored;
    var text := q.ToJson();
    B.EncodedLength(q.Contents());
    B.RoundTrip(q.Contents());
    pool := new Pool();
    r := new SendQ();
    rc := r.FromJson(pool, text);
    assert [] + q.Contents() == q.Contents();
  }
}
