/** The send queues of src/sendq.c: bytes in linked 4000-byte chunks, the chunks taken from and
    given back to a free list that all queues share, and the way a queue survives an upgrade as
    one base64 string. */
module SendQueue {
  import B = Base64
  import opened Common

  type Byte = B.Byte

  const CHUNK_SIZE := 4000
  const B64_CHUNK_SIZE := 5328
  const BACKLOG_MAX := 400
  const NUM_IOVECS := 32

  /* ---------- chunks ---------- */

  class Chunk {
    /** The 4000 bytes inside the structure. */
    var data: seq<Byte>
    var inUse: bool
    var start: nat
    var end: nat
    var next: Chunk?
    /** The queue or the pool that the chunk is linked into. */
    ghost var owner: object?

    /** The chunk holds exactly these bytes; one that holds none was never written to. */
    ghost predicate Holds(b: seq<Byte>)
      reads `start, `end, `data
    {
      |data| == CHUNK_SIZE && start <= end <= CHUNK_SIZE && data[start..end] == b && (b == [] ==> end == 0)
    }

    constructor ()
      ensures |data| == CHUNK_SIZE
    {
      data := seq(CHUNK_SIZE, _ => 0);
      inUse, start, end, next, owner := false, 0, 0, null, null;
    }
  }

  ghost function Nth(s: seq<Chunk>, i: nat): Chunk? {
    if i < |s| then s[i] else null
  }

  ghost function Only(c: Chunk?): set<Chunk> {
    if c == null then {} else {c}
  }

  ghost predicate Linked(s: seq<Chunk>, first: Chunk?)
    reads s`next
  {
    first == Nth(s, 0) && forall i {:trigger s[i].next} :: 0 <= i < |s| ==> s[i].next == Nth(s, i + 1)
  }

  /** A linked list that ends does not come back to its first chunk, nor to its last. */
  lemma HeadOnce(s: seq<Chunk>, first: Chunk?)
    requires Linked(s, first) && s != []
    ensures s[0] !in s[1..]
  {
    if s[0] in s[1..] {
      var j :| 1 <= j < |s| && s[j] == s[0];
      var m := |s| - 1 - j;
      assert s[m].next == s[m + 1];
      for k := 0 to m
        invariant s[k] == s[j + k]
      {
        assert s[k].next == s[k + 1] && s[j + k].next == s[j + k + 1];
      }
    }
  }

  lemma LinkedTail(s: seq<Chunk>, first: Chunk?)
    requires Linked(s, first) && first != null
    ensures s != [] && s[0] == first && Linked(s[1..], first.next)
    ensures forall i :: 1 <= i < |s| ==> s[i] != first
  {
    HeadOnce(s, first);
    forall i | 1 <= i < |s|
      ensures s[i] != first
    {
      assert s[i] in s[1..];
    }
  }

  lemma Finished(s: seq<Chunk>, first: Chunk?)
    requires Linked(s, first)
    ensures first == null <==> s == []
  {
  }

  lemma TailOnce(s: seq<Chunk>, first: Chunk?)
    requires Linked(s, first) && s != []
    ensures s[|s| - 1] !in s[..|s| - 1]
  {
    assert s[|s| - 1].next == null;
    forall i | 0 <= i < |s| - 1
      ensures s[i] != s[|s| - 1]
    {
      assert s[i].next == s[i + 1];
    }
  }

  /* ---------- the free list ---------- */

  class Pool {
    var freeChunks: Chunk?
    var numFree: int
    ghost var free: seq<Chunk>

    ghost predicate Valid()
      reads this, free
    {
      Linked(free, freeChunks) && numFree == |free| <= BACKLOG_MAX &&
      forall c :: c in free ==> !c.inUse && c.owner == this && |c.data| == CHUNK_SIZE
    }

    lemma FreeHead()
      requires Valid()
      ensures freeChunks != null ==> freeChunks in free
    {
    }

    constructor ()
      ensures Valid() && free == []
    {
      freeChunks, numFree, free := null, 0, [];
    }

    /** chunk_new */
    method ChunkNew(ghost q: object) returns (chunk: Chunk)
      requires Valid() && q != this
      modifies this, Only(freeChunks)
      ensures Valid() && free == if old(free) == [] then [] else old(free)[1..]
      ensures if old(free) == [] then fresh(chunk) else chunk == old(free[0]) == old(freeChunks)
      ensures chunk.inUse && chunk.next == null && chunk.end == 0 && chunk.Holds([]) && chunk.owner == q
    {
      if numFree != 0 {
        HeadOnce(free, freeChunks);
        numFree := numFree - 1;
        chunk := freeChunks;
        freeChunks := chunk.next;
        free := free[1..];
      } else {
        chunk := new Chunk();
      }
      chunk.inUse := true;
      chunk.next := null;
      chunk.start, chunk.end := 0, 0;
      chunk.owner := q;
    }

    /** chunk_free: the free list keeps at most 400 chunks. */
    method ChunkFree(chunk: Chunk)
      requires Valid() && |chunk.data| == CHUNK_SIZE && (chunk.inUse ==> chunk.owner != this)
      modifies this, chunk
      ensures Valid()
      ensures free == if old(chunk.inUse) && |old(free)| < 400 then [chunk] + old(free) else old(free)
      ensures if old(chunk.inUse) then chunk.owner in {null, this} else unchanged(chunk)
    {
      if !chunk.inUse {
        return;
      }
      if numFree >= BACKLOG_MAX {
        chunk.owner := null;
        return;
      }
      chunk.inUse := false;
      chunk.next := freeChunks;
      freeChunks := chunk;
      numFree := numFree + 1;
      free, chunk.owner := [chunk] + free, this;
    }
  }

  /* ---------- queues ---------- */

  class SendQ {
    var size: int
    var head: Chunk?
    var tail: Chunk?
    ghost var chunks: seq<Chunk>
    /** What each of the chunks holds. */
    ghost var parts: seq<seq<Byte>>

    ghost predicate Chain()
      reads `head, `tail, `chunks, chunks`next
    {
      Linked(chunks, head) && tail == if chunks == [] then null else chunks[|chunks| - 1]
    }

    /** No chunk but the last is empty. */
    ghost predicate Dense()
      reads `parts
    {
      forall i :: 0 <= i < |parts| - 1 ==> parts[i] != []
    }

    /** All but the size, which a write corrects before it drops the chunks. */
    ghost predicate Stored()
      reads `head, `tail, `chunks, `parts, chunks
    {
      Chain() && |parts| == |chunks| && Dense() &&
      forall i :: 0 <= i < |chunks| ==> chunks[i].inUse && chunks[i].owner == this && chunks[i].Holds(parts[i])
    }

    ghost predicate Valid()
      reads this, chunks
    {
      Stored() && size == |Flat(parts)|
    }

    ghost function Contents(): seq<Byte>
      reads this
    {
      Flat(parts)
    }

    /** No chunk of the queue is free. */
    lemma NotFree(pool: Pool)
      requires pool.Valid() && Stored()
      ensures forall c :: c in chunks ==> c !in pool.free
      ensures tail != null ==> tail in chunks
      ensures pool.freeChunks != null ==> pool.freeChunks in pool.free && pool.freeChunks !in chunks
    {
      hide Chunk.Holds;
    }

    lemma HoldsAll(i: nat)
      requires Stored() && i < |chunks|
      ensures |chunks[i].data| == CHUNK_SIZE && chunks[i].start <= chunks[i].end <= CHUNK_SIZE
      ensures parts[i] == chunks[i].data[chunks[i].start..chunks[i].end] && (parts[i] == [] ==> chunks[i].end == 0)
    {
      assert chunks[i].Holds(parts[i]);
    }

    /** u_sendq_init */
    constructor ()
      ensures Valid() && chunks == [] && Contents() == []
    {
      size, head, tail, chunks, parts := 0, null, null, [], [];
    }

    /** Hanging a chunk behind the tail. */
    method Link(chunk: Chunk)
      requires Stored() && chunk.inUse && chunk.owner == this && chunk.Holds([])
      requires chunk !in chunks && chunk.next == null && (parts != [] ==> parts[|parts| - 1] != [])
      modifies this, Only(tail)`next
      ensures Stored() && tail == chunk && chunks == old(chunks) + [chunk] && size == old(size) && parts == old(parts) + [[]]
    {
      hide Chunk.Holds;
      if tail != null {
        TailOnce(chunks, head);
        tail.next := chunk;
      }
      if head == null {
        head := chunk;
      }
      tail := chunk;
      chunks, parts := chunks + [chunk], parts + [[]];
      assert Chain();
    }

    /** sendq_append_chunk, behind a tail that has been written to. */
    method AppendChunk(pool: Pool) returns (chunk: Chunk)
      requires pool.Valid() && Valid() && (tail != null ==> tail.end > 0)
      modifies pool, Only(pool.freeChunks), this, Only(tail)`next
      ensures pool.Valid() && Valid()
      ensures tail == chunk && chunks == old(chunks) + [chunk] && chunk.end == 0 && Contents() == old(Contents())
      ensures chunk == old(pool.freeChunks) || fresh(chunk)
      ensures forall c :: c in pool.free ==> c in old(pool.free)
    {
      hide Flat, Chunk.Holds, Linked, Stored, Pool.Valid;
      NotFree(pool);
      TailWritten();
      chunk := pool.ChunkNew(this);
      Link(chunk);
      FlatSnoc(old(parts), []);
    }

    lemma TailWritten()
      requires Stored() && (tail != null ==> tail.end > 0)
      ensures |parts| == |chunks| && (parts != [] ==> parts[|parts| - 1] != [])
    {
      if parts != [] {
        HoldsAll(|parts| - 1);
      }
    }

    /** The head leaves the list. */
    method Unlink() returns (chunk: Chunk)
      requires Stored() && head != null
      modifies this
      ensures Stored() && size == old(size) && chunk == old(head) && chunk !in chunks
      ensures chunks == old(chunks[1..]) && parts == old(parts[1..])
    {
      hide Chunk.Holds;
      chunk := head;
      HeadOnce(chunks, head);
      head := chunk.next;
      if head == null {
        tail := null;
      }
      chunks, parts := chunks[1..], parts[1..];
      assert Chain();
    }

    /** sendq_delete_chunk, on the head. */
    method DeleteHead(pool: Pool)
      requires pool.Valid() && Stored() && head != null
      modifies pool, this, head
      ensures pool.Valid() && Stored() && size == old(size)
      ensures chunks == old(chunks[1..]) && parts == old(parts[1..])
      ensures forall c :: c in pool.free ==> c in old(pool.free) || c == old(head)
    {
      HeadIs(pool);
      hide Chunk.Holds, Linked, Stored, Pool.Valid;
      var chunk := Unlink();
      pool.ChunkFree(chunk);
    }

    lemma HeadIs(pool: Pool)
      requires pool.Valid() && Stored() && head != null
      ensures head in chunks && head.inUse && head.owner == this && |head.data| == CHUNK_SIZE && head !in pool.free
      ensures head.start <= head.end && |parts| == |chunks| && |parts[0]| == head.end - head.start
      ensures Contents() == parts[0] + Flat(parts[1..])
    {
      hide Chunk.Holds;
      assert head == chunks[0];
      HoldsAll(0);
    }

    /** u_sendq_get_buffer: where the next `sz` bytes may be written, or nothing. */
    method GetBuffer(pool: Pool, sz: nat) returns (chunk: Chunk?)
      requires pool.Valid() && Valid()
      modifies pool, Only(pool.freeChunks), this, Only(tail)`next
      ensures pool.Valid() && Valid() && Contents() == old(Contents())
      ensures chunk == null <==> sz > 4000
      ensures chunk != null ==> chunk == tail && chunk.end + sz <= 4000
      ensures tail == old(tail) || tail == old(pool.freeChunks) || fresh(tail)
      ensures forall c :: c in chunks ==> c in old(chunks) || c == old(pool.freeChunks) || fresh(c)
      ensures forall c :: c in pool.free ==> c in old(pool.free)
    {
      hide Flat, Chunk.Holds, Linked, Stored, Pool.Valid, Valid, Contents;
      if sz > CHUNK_SIZE {
        return null;
      }
      chunk := tail;
      if chunk == null || sz > CHUNK_SIZE - chunk.end {
        chunk := AppendChunk(pool);
      }
    }

    /** The tail's end moves on. */
    method Extend(n: nat)
      requires Valid() && tail != null && tail.end + n <= CHUNK_SIZE
      modifies this, tail`end
      ensures Valid() && chunks == old(chunks) && tail == old(tail)
      ensures tail.end == old(tail.end) + n <= |tail.data|
      ensures Contents() == old(Contents()) + tail.data[old(tail.end)..tail.end]
    {
      hide Flat, Chunk.Holds, Linked;
      ghost var k := |chunks| - 1;
      TailAlone();
      HoldsAll(k);
      ghost var init, last, more := parts[..k], parts[k], tail.data[tail.end..tail.end + n];
      assert parts == init + [last];
      tail.end := tail.end + n;
      size := size + n;
      parts := init + [last + more];
      FlatSnoc(init, last);
      FlatSnoc(init, last + more);
      Assoc(Flat(init), last, more);
      Longer(tail, last, more);
    }

    lemma TailAlone()
      requires Chain() && tail != null
      ensures chunks != [] && tail == chunks[|chunks| - 1] && forall i :: 0 <= i < |chunks| - 1 ==> chunks[i] != tail
    {
      TailOnce(chunks, head);
      forall i | 0 <= i < |chunks| - 1
        ensures chunks[i] != tail
      {
        assert chunks[i] in chunks[..|chunks| - 1];
      }
    }

    /** u_sendq_end_buffer: so many of the bytes written there join the queue. */
    method EndBuffer(sz: nat) returns (taken: nat)
      requires Valid()
      modifies this, Only(tail)`end
      ensures Valid() && chunks == old(chunks) && tail == old(tail)
      ensures taken == if tail == null then 0 else if old(tail.end) + sz > CHUNK_SIZE then CHUNK_SIZE - old(tail.end) else sz
      ensures tail == null ==> Contents() == old(Contents())
      ensures tail != null ==>
        tail.end == old(tail.end) + taken <= |tail.data| &&
        Contents() == old(Contents()) + tail.data[old(tail.end)..tail.end]
    {
      taken := sz;
      if tail == null {
        return 0;
      }
      HoldsAll(|chunks| - 1);
      if tail.end + taken > CHUNK_SIZE {
        taken := CHUNK_SIZE - tail.end;
      }
      hide Valid, Flat, Linked, Chunk.Holds;
      Extend(taken);
    }

    lemma FirstChunk()
      requires Stored()
      ensures head == Nth(chunks, 0) && |parts| == |chunks|
    {
    }

    lemma NextChunk(i: nat)
      requires Stored() && i < |chunks|
      ensures chunks[i].next == Nth(chunks, i + 1)
    {
    }

    /** The vector for writev: what the first 32 chunks hold. */
    method Gather() returns (iov: seq<seq<Byte>>)
      requires Stored()
      ensures iov == parts[..if |parts| < 32 then |parts| else 32]
    {
      hide Chunk.Holds, Linked, Stored;
      iov := [];
      var ch := head;
      FirstChunk();
      while |iov| < NUM_IOVECS && ch != null
        invariant |iov| <= |chunks| && |iov| <= NUM_IOVECS && iov == parts[..|iov|] && ch == Nth(chunks, |iov|)
      {
        HoldsAll(|iov|);
        NextChunk(|iov|);
        iov := iov + [ch.data[ch.start..ch.end]];
        ch := ch.next;
      }
    }

    /** Only part of the head chunk was sent. */
    method Trim(k: nat)
      requires Stored() && head != null && k < head.end - head.start
      modifies this`parts, head`start
      ensures Stored() && Contents() == old(Contents()[k..])
    {
      hide Linked, Chunk.Holds;
      HeadAlone();
      HoldsAll(0);
      ghost var first, rest := parts[0], parts[1..];
      assert parts == [first] + rest;
      head.start := head.start + k;
      parts := [first[k..]] + rest;
      FrontChanged(first, first[k..], rest, k);
      Shorter(head, first, k);
    }

    lemma HeadAlone()
      requires Chain() && head != null
      ensures chunks != [] && head == chunks[0] && forall i :: 1 <= i < |chunks| ==> chunks[i] != head
    {
      HeadOnce(chunks, head);
      forall i | 1 <= i < |chunks|
        ensures chunks[i] != head
      {
        assert chunks[i] in chunks[1..];
      }
    }

    /** The loop of u_sendq_write: so many bytes leave from the front. */
    method Drop(pool: Pool, sent: nat)
      requires pool.Valid() && Stored() && sent <= |Contents()|
      modifies pool, this, chunks
      ensures pool.Valid() && Stored() && size == old(size) && Contents() == old(Contents())[sent..]
      ensures forall c :: c in chunks ==> c in old(chunks)
      ensures forall c :: c in pool.free ==> c in old(pool.free) || c in old(chunks)
    {
      hide Chunk.Holds, Linked, Stored, Pool.Valid;
      var sz := sent;
      while head != null
        invariant pool.Valid() && Stored() && size == old(size)
        invariant 0 <= sz <= |Contents()| && Contents()[sz..] == old(Contents())[sent..]
        invariant forall c :: c in chunks ==> c in old(chunks)
        invariant forall c :: c in pool.free ==> c in old(pool.free) || c in old(chunks)
        decreases |chunks|
      {
        HeadIs(pool);
        var chsz := head.end - head.start;
        if chsz > sz {
          Trim(sz);
          return;
        }
        sz := sz - chsz;
        DeleteHead(pool);
      }
      Empty();
    }

    lemma Empty()
      requires Stored() && head == null
      ensures parts == [] && chunks == []
    {
    }

    /** What the first 32 chunks hold is everything, or the first of them holds something. */
    lemma Offered(iov: seq<seq<Byte>>)
      requires Dense() && iov == parts[..if |parts| < 32 then |parts| else 32]
      ensures Flat(parts) != [] ==> Flat(iov) != []
    {
      if |parts| > 1 {
        assert iov[0] == parts[0];
        FlatHead(iov);
      } else {
        assert iov == parts;
      }
    }

    /** u_sendq_write, where `accept` is what writev would take: an error when negative. What goes out
        is what writev takes of the first 32 chunks, and something does if there is anything to send
        and the socket takes any. */
    method Write(pool: Pool, accept: int) returns (rc: int, wire: seq<Byte>)
      requires pool.Valid() && Valid()
      modifies pool, this, chunks
      ensures pool.Valid() && Valid()
      ensures rc == (if accept < 0 then accept else 0) && wire + Contents() == old(Contents())
      ensures |wire| == if accept < 0 then 0 else Least(accept, |Flat(old(parts)[..Least(|old(parts)|, 32)])|)
      ensures accept > 0 && old(Contents()) != [] ==> wire != []
      ensures forall c :: c in chunks ==> c in old(chunks)
      ensures forall c :: c in pool.free ==> c in old(pool.free) || c in old(chunks)
    {
      hide Chunk.Holds, Linked, Stored, Pool.Valid;
      var iov := Gather();
      assert parts == iov + parts[|iov|..];
      FlatAppend(iov, parts[|iov|..]);
      IsDense();
      Offered(iov);
      var offered := Flat(iov);
      if accept < 0 {
        return accept, [];
      }
      var sz := Least(accept, |offered|);
      wire := offered[..sz];
      size := size - sz;
      Drop(pool, sz);
      return 0, wire;
    }

    lemma IsDense()
      requires Stored()
      ensures Dense()
    {
    }

    lemma InUse()
      requires Stored()
      ensures Linked(chunks, head)
      ensures forall i :: 0 <= i < |chunks| ==>
        chunks[i].inUse && chunks[i].owner == this && |chunks[i].data| == CHUNK_SIZE
    {
      hide Linked;
      forall i | 0 <= i < |chunks|
        ensures |chunks[i].data| == CHUNK_SIZE
      {
        HoldsAll(i);
      }
    }

    /** u_sendq_clear */
    method Clear(pool: Pool)
      requires pool.Valid() && Valid()
      modifies pool, this, chunks
      ensures pool.Valid() && Valid() && Contents() == []
      ensures chunks == [] && forall c :: c in pool.free ==> c in old(pool.free) || c in old(chunks)
    {
      InUse();
      hide Chunk.Holds, Linked, Stored, Dense, Pool.Valid, Flat, Contents, Valid;
      FreeAll(pool);
      size, head, tail, chunks, parts := 0, null, null, [], [];
      Emptied();
    }

    /** Its loop. */
    method FreeAll(pool: Pool)
      requires pool.Valid() && Linked(chunks, head)
      requires forall i :: 0 <= i < |chunks| ==>
        chunks[i].inUse && chunks[i].owner == this && |chunks[i].data| == CHUNK_SIZE
      modifies pool, chunks
      ensures pool.Valid()
      ensures forall c :: c in pool.free ==> c in old(pool.free) || c in chunks
    {
      hide Linked, Pool.Valid;
      Finished(chunks, head);
      var ch := head;
      ghost var rest := chunks;
      while ch != null
        invariant Linked(rest, ch) && pool.Valid() && (ch == null ==> rest == [])
        invariant forall i :: 0 <= i < |rest| ==>
          rest[i] in chunks && rest[i].inUse && rest[i].owner == this && |rest[i].data| == CHUNK_SIZE
        invariant forall c :: c in pool.free ==> c in old(pool.free) || c in chunks
        decreases |rest|
      {
        LinkedTail(rest, ch);
        rest := rest[1..];
        var nch := ch.next;
        pool.ChunkFree(ch);
        Finished(rest, nch);
        ch := nch;
      }
    }

    lemma Emptied()
      requires size == 0 && head == null && tail == null && chunks == [] && parts == []
      ensures Valid() && Contents() == []
    {
    }

    /** u_sendq_to_json: every chunk is encoded behind the one before, the encoder picking up from
        the padding, so chunk boundaries leave no trace. */
    method ToJson() returns (text: string)
      requires Valid()
      ensures text == B.Encoded(Contents())
    {
      hide Chunk.Holds, Linked, Stored, B.Encoded;
      var buf := new char[B.InflateSize(size)];
      var cur := 0;
      var c := head;
      ghost var i := 0;
      FirstChunk();
      B.EncodedNothing();
      while c != null
        invariant i <= |chunks| && c == Nth(chunks, i) && |parts| == |chunks| && fresh(buf)
        invariant cur == |B.Encoded(Flat(parts[..i]))| && cur <= buf.Length
        invariant buf[..cur] == B.Encoded(Flat(parts[..i]))
        decreases |chunks| - i
      {
        HoldsAll(i);
        NextChunk(i);
        FlatPrefix(parts, i);
        B.EncodedFits(Flat(parts[..i + 1]), size);
        var moved := B.Encode(c.data[c.start..c.end], buf, cur, Flat(parts[..i]));
        cur := cur + moved;
        c := c.next;
        i := i + 1;
      }
      assert parts[..i] == parts;
      text := buf[..cur];
    }

    /** A block of 5328 characters is at most 3996 bytes, so it fits an empty chunk with room for
        what the decoder writes past the end. */
    method RestoreBlock(pool: Pool, block: string)
      requires pool.Valid() && Valid() && |block| <= B64_CHUNK_SIZE
      modifies pool, Only(pool.freeChunks), this, Only(tail)
      ensures pool.Valid() && Valid() && Contents() == old(Contents()) + B.Decoded(block)
      ensures forall c :: c in chunks ==> c in old(chunks) || c == old(pool.freeChunks) || fresh(c)
      ensures forall c :: c in pool.free ==> c in old(pool.free)
    {
      hide Chunk.Holds, Linked, Stored, Valid, Flat, Pool.Valid, B.Decoded;
      TailIs();
      var chunk := GetBuffer(pool, CHUNK_SIZE);
      TailIs();
      var buf := new Byte[CHUNK_SIZE];
      var len := B.Decode(block, buf, 0);
      NotFreeTail(pool);
      Store(buf[..]);
      var taken := EndBuffer(len);
      assert buf[..][0..len] == buf[0..len];
    }

    lemma NotFreeTail(pool: Pool)
      requires pool.Valid() && Valid()
      ensures tail != null ==> tail !in pool.free
    {
      NotFree(pool);
    }

    /** u_sendq_from_json: the text is decoded in blocks of 5328 characters, each into a chunk. */
    method FromJson(pool: Pool, text: string) returns (rc: int)
      requires pool.Valid() && Valid()
      modifies pool, pool.free, this, chunks
      ensures pool.Valid() && Valid()
      ensures rc == if |text| % 4 == 0 then 0 else -1
      ensures Contents() == old(Contents()) + if |text| % 4 == 0 then B.Decoded(text) else []
      ensures forall c :: c in chunks ==> c in old(chunks) || c in old(pool.free) || fresh(c)
      ensures forall c :: c in pool.free ==> c in old(pool.free)
    {
      hide Chunk.Holds, Linked, Stored, Valid, Flat, Pool.Valid, B.Decoded, Dense, Contents;
      if |text| % 4 != 0 {
        return -1;
      }
      B.DecodedNothing();
      var cur := 0;
      while cur < |text|
        invariant 0 <= cur <= |text| && cur % 4 == 0 && pool.Valid() && Valid()
        invariant Contents() == old(Contents()) + B.Decoded(text[..cur])
        invariant forall c :: c in chunks ==> c in old(chunks) || c in old(pool.free) || fresh(c)
        invariant forall c :: c in pool.free ==> c in old(pool.free)
      {
        var echunk := Least(cur + B64_CHUNK_SIZE, |text|);
        var block := text[cur..echunk];
        pool.FreeHead();
        TailIs();
        RestoreBlock(pool, block);
        assert text[..cur] + block == text[..echunk];
        B.DecodedBlocks(text[..cur], block);
        Assoc(old(Contents()), B.Decoded(text[..cur]), B.Decoded(block));
        cur := echunk;
      }
      assert text[..cur] == text;
      return 0;
    }

    lemma TailIs()
      requires Valid()
      ensures tail != null ==> tail in chunks && |tail.data| == CHUNK_SIZE && tail.end <= CHUNK_SIZE
    {
      if tail != null {
        HoldsAll(|chunks| - 1);
      }
    }

    /** What the owner of the buffer writes there, before any of it counts. */
    method Store(bytes: seq<Byte>)
      requires Valid() && tail != null && tail.end + |bytes| <= CHUNK_SIZE
      modifies tail`data
      ensures Valid() && |tail.data| == CHUNK_SIZE && tail.data[tail.end..tail.end + |bytes|] == bytes
    {
      hide Linked, Chunk.Holds, Dense, Flat;
      TailAlone();
      HoldsAll(|chunks| - 1);
      ghost var was := tail.data;
      tail.data := tail.data[..tail.end] + bytes + tail.data[tail.end + |bytes|..];
      StillHolds(tail, was, bytes, parts[|chunks| - 1]);
    }
  }

  /** What is written behind the end of a chunk does not count yet. */
  lemma StillHolds(c: Chunk, was: seq<Byte>, bytes: seq<Byte>, b: seq<Byte>)
    requires |was| == CHUNK_SIZE && c.start <= c.end && c.end + |bytes| <= CHUNK_SIZE
    requires was[c.start..c.end] == b && (b == [] ==> c.end == 0)
    requires c.data == was[..c.end] + bytes + was[c.end + |bytes|..]
    ensures c.Holds(b) && c.data[c.end..c.end + |bytes|] == bytes
  {
    Overwritten(was[..c.end], bytes, was[c.end + |bytes|..], c.start);
    assert was[..c.end][c.start..] == was[c.start..c.end];
  }

  lemma Overwritten<T>(a: seq<T>, b: seq<T>, rest: seq<T>, from: nat)
    requires from <= |a|
    ensures var s := a + b + rest; s[from..|a|] == a[from..] && s[|a|..|a| + |b|] == b && |s| == |a| + |b| + |rest|
  {
  }

  lemma Shorter(c: Chunk, b: seq<Byte>, k: nat)
    requires |c.data| == CHUNK_SIZE && k < |b| && k <= c.start && c.start - k + |b| == c.end <= CHUNK_SIZE
    requires c.data[c.start - k..c.end] == b
    ensures c.Holds(b[k..])
  {
  }

  lemma FrontChanged(b: seq<Byte>, b': seq<Byte>, rest: seq<seq<Byte>>, k: nat)
    requires k <= |b| && b' == b[k..]
    ensures Flat([b'] + rest) == Flat([b] + rest)[k..]
  {
    hide Flat;
    FlatAppend([b], rest);
    FlatAppend([b'], rest);
    FlatOne(b);
    FlatOne(b');
  }

  lemma Longer(c: Chunk, b: seq<Byte>, more: seq<Byte>)
    requires |c.data| == CHUNK_SIZE && c.start + |b| + |more| == c.end <= CHUNK_SIZE
    requires c.data[c.start..c.start + |b|] == b && c.data[c.start + |b|..c.end] == more && (b == [] ==> c.start == 0)
    ensures c.Holds(b + more)
  {
  }
}
