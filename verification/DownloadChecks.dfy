/**
 * What a download session demands of the other side, exactly: the metadata it accepts, the chunk messages it
 * takes, and what has to follow them.
 */
module DownloadChecks {
  import opened Arithmetic
  import opened BigEndian
  import opened ChunkStore
  import opened Download
  import opened Outcomes

  // ---- Metadata ----

  /** `total` pieces of `size` bytes reach the end of the file, and one fewer do not. */
  predicate Covers(total: nat, size: nat, fileSize: nat) {
    fileSize <= total * size && (total > 0 ==> (total - 1) * size < fileSize)
  }

  /** Where piece `k` begins, the end of the file counting as the beginning of the piece after the last. */
  function Boundary(size: nat, fileSize: nat, k: nat): int {
    Min(k * size, fileSize)
  }

  predicate StartsAt(m: Message, offset: U64, k: nat)
    requires m.Metadata?
  {
    k <= m.totalChunks && offset == Boundary(m.chunkSize, m.fileSize, k)
  }

  lemma CoversExactly(total: nat, size: nat, fileSize: nat)
    requires size > 0
    ensures Covers(total, size, fileSize) <==> total == DivCeil(fileSize, size)
  {
    DivCeilBounds(fileSize, size);
    var n := DivCeil(fileSize, size);
    if total < n {
      MulMono(total, n - 1, size);
    } else if total > n {
      MulMono(n, total - 1, size);
    }
  }

  /** The offset is a boundary of the announced pieces, and the session starts at the piece that begins there. */
  lemma OffsetExactly(m: Message, offset: U64)
    requires m.Metadata? && m.chunkSize > 0 && Covers(m.totalChunks, m.chunkSize, m.fileSize)
    ensures (exists k :: StartsAt(m, offset, k))
      <==> offset <= m.fileSize && (offset == 0 || offset == m.fileSize || offset % m.chunkSize == 0)
    ensures forall k :: StartsAt(m, offset, k) && m.fileSize > 0 ==> StartChunk(offset, m) == k
  {
    hide Covers, StartChunk;
    if offset <= m.fileSize && (offset == 0 || offset == m.fileSize || offset % m.chunkSize == 0) {
      BoundaryAt(m, offset);
    }
    forall k: nat | StartsAt(m, offset, k)
      ensures offset <= m.fileSize && (offset == m.fileSize || offset % m.chunkSize == 0)
      ensures m.fileSize > 0 ==> StartChunk(offset, m) == k
    {
      StartIs(m, offset, k);
    }
  }

  lemma BoundaryAt(m: Message, offset: U64)
    requires m.Metadata? && m.chunkSize > 0 && Covers(m.totalChunks, m.chunkSize, m.fileSize)
    requires offset <= m.fileSize && (offset == 0 || offset == m.fileSize || offset % m.chunkSize == 0)
    ensures exists k :: StartsAt(m, offset, k)
  {
    var size, total := m.chunkSize, m.totalChunks;
    if offset == m.fileSize {
      assert StartsAt(m, offset, total);
    } else {
      assert total * size > offset;
      PieceAt(offset, size, total);
      assert StartsAt(m, offset, offset / size);
    }
  }

  lemma PieceAt(offset: nat, size: nat, total: nat)
    requires size > 0 && offset % size == 0 && offset < total * size
    ensures offset == offset / size * size && offset / size < total
  {
    var k := offset / size;
    assert offset == size * k + offset % size;
    assert size * k == k * size;
    MulLess(k, total, size);
  }

  lemma StartIs(m: Message, offset: U64, k: nat)
    requires m.Metadata? && m.chunkSize > 0 && Covers(m.totalChunks, m.chunkSize, m.fileSize) && StartsAt(m, offset, k)
    ensures offset <= m.fileSize && (offset == m.fileSize || offset % m.chunkSize == 0)
    ensures m.fileSize > 0 ==> StartChunk(offset, m) == k
  {
    MulMono(0, k, m.chunkSize);
    if k < m.totalChunks {
      MulMono(k, m.totalChunks - 1, m.chunkSize);
      DivModUnique(k * m.chunkSize, m.chunkSize, k, 0);
    }
  }

  /**
   * A session goes on exactly with a limit from 16 KiB to 2 MiB, a chunk size up to the limit, a chunk count that
   * covers the file with none to spare, and an offset on a chunk boundary; it starts at the chunk there.
   */
  lemma NegotiatedExactly(offset: U64, limit: U32, m: Message)
    requires m.Metadata?
    ensures Negotiated(offset, limit, m) <==>
      && 0x4000 <= limit <= 0x20_0000 && 0 < m.chunkSize <= limit
      && Covers(m.totalChunks, m.chunkSize, m.fileSize) && exists k :: StartsAt(m, offset, k)
    ensures Negotiated(offset, limit, m) && m.fileSize > 0 ==> StartsAt(m, offset, StartChunk(offset, m))
  {
    hide Covers, StartsAt, StartChunk, DivCeil;
    if m.chunkSize > 0 {
      CoversExactly(m.totalChunks, m.chunkSize, m.fileSize);
      if Covers(m.totalChunks, m.chunkSize, m.fileSize) {
        OffsetExactly(m, offset);
      }
    }
  }

  // ---- The store ----

  /** A stored row stands for a checkpoint exactly if it is of version 1 and every column fits its type. */
  lemma ReadExactly(t: Tables, cp: Checkpoint)
    ensures ReadCheckpoint(t) == Ok(Some(cp)) <==>
      && t.row == Some(CheckpointRow(1, cp.fileSize, cp.chunkSize, cp.totalChunks, cp.nextChunk))
      && cp.fileSize < 0x8000_0000_0000_0000
  {
  }

  /** The stored indices are those below `nextChunk`, and each chunk is of the length its place in the file gives it. */
  ghost predicate HoldsPrefix(chunks: map<int, ChunkRow>, cp: Checkpoint) {
    && (forall i :: i in chunks <==> 0 <= i < cp.nextChunk)
    && forall i: nat :: i < cp.nextChunk ==> i in chunks && |chunks[i].data| == Min(cp.fileSize - i * cp.chunkSize, cp.chunkSize)
  }

  lemma PrefixExactly(chunks: map<int, ChunkRow>, cp: Checkpoint)
    requires ShapeOk(cp)
    ensures PrefixOk(chunks, cp) <==> HoldsPrefix(chunks, cp)
  {
    hide ExpectedLength;
    forall i: U32 | i < cp.nextChunk
      ensures ExpectedLength(cp, i) == Ok(Min(cp.fileSize - i * cp.chunkSize, cp.chunkSize))
    {
      ChunkStartsInside(cp, i);
    }
  }

  /**
   * A store with a row is consistent exactly if the row stands for a checkpoint whose chunks cover the file with
   * none to spare, and holds exactly the chunks before the next one.
   */
  lemma ConsistentExactly(t: Tables)
    requires t.row.Some?
    ensures Consistent(t) <==> exists cp :: Stands(t, cp)
    ensures HintOf(t).Ok? <==> Consistent(t)
  {
    hide ResumeOffset, StoredBytes, Covers, HoldsPrefix, PrefixOk, DivCeil;
    var r := ReadCheckpoint(t);
    forall cp: Checkpoint | cp.chunkSize > 0 ensures ShapeOk(cp) ==> (PrefixOk(t.chunks, cp) <==> HoldsPrefix(t.chunks, cp)) {
      if ShapeOk(cp) { PrefixExactly(t.chunks, cp); }
    }
    if r.Ok? && r.value.Some? {
      var cp := r.value.value;
      if cp.chunkSize > 0 { CoversExactly(cp.totalChunks, cp.chunkSize, cp.fileSize); }
      if ShapeOk(cp) && PrefixOk(t.chunks, cp) {
        PrefixBytes(t.chunks, cp, cp.nextChunk);
        assert cp.(nextChunk := cp.nextChunk) == cp;
        assert Stands(t, cp);
      }
    }
    if cp :| Stands(t, cp) {
      CoversExactly(cp.totalChunks, cp.chunkSize, cp.fileSize);
      PrefixBytes(t.chunks, cp, cp.nextChunk);
      assert cp.(nextChunk := cp.nextChunk) == cp;
    }
  }

  ghost predicate Stands(t: Tables, cp: Checkpoint) {
    && ReadCheckpoint(t) == Ok(Some(cp))
    && cp.chunkSize > 0 && Covers(cp.totalChunks, cp.chunkSize, cp.fileSize) && cp.nextChunk <= cp.totalChunks
    && HoldsPrefix(t.chunks, cp)
  }

  /**
   * A consistent store takes a checkpoint exactly if it has that one already, or has none and the new one covers
   * the file and starts at the beginning. A refusal changes nothing.
   */
  lemma InitializeExactly(t: Tables, cp: Checkpoint)
    requires Consistent(t)
    ensures var (t', r) := Initialized(t, cp);
      && (r.Ok? <==>
            if t.row.Some? then ReadCheckpoint(t) == Ok(Some(cp))
            else cp.chunkSize > 0 && Covers(cp.totalChunks, cp.chunkSize, cp.fileSize) && cp.nextChunk == 0
                 && cp.fileSize < 0x8000_0000_0000_0000)
      && (r.Ok? ==> ReadCheckpoint(t') == Ok(Some(cp)) && t'.chunks == t.chunks)
      && (r.Err? ==> t' == t)
  {
    hide ResumeOffset, StoredBytes, Covers, DivCeil, ExpectedLength;
    if cp.chunkSize > 0 { CoversExactly(cp.totalChunks, cp.chunkSize, cp.fileSize); }
    if t.row.None? && cp.nextChunk > 0 {
      assert 0 !in t.chunks;
    }
  }

  // ---- Chunk messages ----

  /** A message that carries chunk `i` in full: its index, eight prefix and sixteen tag bytes, and all its data. */
  predicate CarriesChunk(m: Message, cp: Checkpoint, i: nat) {
    && m.FileChunk? && m.index == i && |m.prefix| == 8 && |m.tag| == 16
    && |m.data| == Min(cp.fileSize - i * cp.chunkSize, cp.chunkSize)
  }

  /**
   * The receive loop takes messages as long as each carries the next chunk in full, stops at the first that does
   * not, and completes exactly when none is missing; what is left over then is untouched.
   */
  lemma {:induction false} ReceiveExactly(t: Tables, cp: Checkpoint, inbox: seq<Message>)
    requires Consistent(t) && CheckpointOf(t) == Some(cp) && cp.nextChunk <= cp.totalChunks
    ensures var got := Receive(t, cp.nextChunk, cp.totalChunks, inbox); var a := |got.accepted|;
      && cp.nextChunk + a <= cp.totalChunks && a <= |inbox|
      && (forall j :: 0 <= j < a ==> CarriesChunk(inbox[j], cp, cp.nextChunk + j))
      && (cp.nextChunk + a < cp.totalChunks && a < |inbox| ==> !CarriesChunk(inbox[a], cp, cp.nextChunk + a))
      && (got.complete <==> cp.nextChunk + a == cp.totalChunks)
      && (got.complete ==> got.rest == inbox[a..])
    decreases |inbox|
  {
    hide Consistent, Recorded, CheckpointOf;
    var next := cp.nextChunk;
    if next < cp.totalChunks && inbox != [] {
      var m := inbox[0];
      if Framed(m) && m.index == next {
        var row := ChunkRow(m.prefix, m.tag, m.data);
        TakesNext(t, cp, next, row);
        var (t', r) := Recorded(t, next, row);
        if r.Ok? {
          var cp' := cp.(nextChunk := next + 1);
          ReceiveExactly(t', cp', inbox[1..]);
          var got := Receive(t', next + 1, cp.totalChunks, inbox[1..]);
          forall j | 0 <= j < |got.accepted| + 1 ensures CarriesChunk(inbox[j], cp, next + j) {
            if j > 0 { assert CarriesChunk(inbox[1..][j - 1], cp', next + 1 + (j - 1)); }
          }
        }
      }
    }
  }

  lemma TakesNext(t: Tables, cp: Checkpoint, idx: U32, row: ChunkRow)
    requires Consistent(t) && CheckpointOf(t) == Some(cp) && idx == cp.nextChunk < cp.totalChunks
    ensures var (t', r) := Recorded(t, idx, row);
      && (r.Ok? <==> |row.data| == Min(cp.fileSize - idx * cp.chunkSize, cp.chunkSize))
      && (r.Ok? ==> Consistent(t') && CheckpointOf(t') == Some(cp.(nextChunk := idx + 1)))
  {
    hide ShapeOk, PrefixOk, StoredBytes, ResumeOffset, ExpectedLength;
    RecordAcceptsNext(t, idx, row);
    RecordKeeps(t, idx, row);
  }

  // ---- What has to follow ----

  lemma {:induction false} ReceiveCounts(store: Tables, next: nat, total: nat, inbox: seq<Message>)
    requires next <= total < U32_END
    ensures var got := Receive(store, next, total, inbox);
      got.complete ==> |got.accepted| == total - next && |got.accepted| <= |inbox| && got.rest == inbox[|got.accepted|..]
    decreases total - next
  {
    hide Recorded;
    if next < total && inbox != [] && Framed(inbox[0]) && inbox[0].index == next {
      var (store', r) := Recorded(store, next, ChunkRow(inbox[0].prefix, inbox[0].tag, inbox[0].data));
      if r.Ok? { ReceiveCounts(store', next + 1, total, inbox[1..]); }
    }
  }

  /** A 32-byte key and the acknowledgement. */
  predicate Closes(inbox: seq<Message>) {
    |inbox| >= 2 && inbox[0].AesKey? && |inbox[0].key| == 32 && inbox[1].TransferComplete?
  }

  lemma CompleteExactly(c: Aead, d: Disk, m: Message, inbox: seq<Message>, crash: CrashPoint, taken: seq<nat>)
    requires m.Metadata? && AllThere(d.store, m.totalChunks)
    ensures var e := Complete(c, d, m, inbox, crash, taken);
      && e.accepted == taken
      && (e.outcome.Done? ==> crash == NoCrash || crash == AfterPrepare || crash == AfterInitialize)
      && (e.outcome.Done? ==> Closes(inbox) && e.outcome.fileSize == m.fileSize && e.disk.store == EMPTY
                              && e.disk.dest.Some? && |e.disk.dest.value| == m.fileSize)
      && (crash == NoCrash && Closes(inbox) ==>
            var p := Plaintext(c, inbox[0].key, d.store.chunks, m.totalChunks);
            p.Some? && |p.value| == m.fileSize ==> e.outcome.Done? && e.disk.dest == p)
  {
    hide Plaintext, Written;
    if Closes(inbox) && Plaintext(c, inbox[0].key, d.store.chunks, m.totalChunks).Some? {
      WrittenWhole(c, inbox[0].key, d.store.chunks, m.totalChunks);
    }
  }

  /** After success all chunks, a 32-byte key and the acknowledgement have come, and a file of the announced size is written. */
  lemma SuccessNeeds(c: Aead, d: Disk, offset: U64, limit: U32, inbox: seq<Message>, crash: CrashPoint)
    requires Session(c, d, offset, limit, inbox, crash).outcome.Done? && inbox[0].fileSize > 0
    ensures var e := Session(c, d, offset, limit, inbox, crash); var m := inbox[0]; var n := |e.accepted|;
      && crash == NoCrash && Negotiated(offset, limit, m) && StartChunk(offset, m) + n == m.totalChunks
      && n + 3 <= |inbox| && Closes(inbox[n + 1..])
      && e.disk.store == EMPTY && e.disk.dest.Some? && |e.disk.dest.value| == m.fileSize == e.outcome.fileSize
  {
    hide Receive, Complete, Initialized, StartChunk, Closes, Negotiated;
    FirstIsMetadata(c, d, offset, limit, inbox, crash);
    var m, rest := inbox[0], inbox[1..];
    var start := StartChunk(offset, m);
    var (ready, r) := Initialized(if offset == 0 then EMPTY else d.store,
                                  Checkpoint(m.fileSize, m.chunkSize, m.totalChunks, start));
    var got := Receive(ready, start, m.totalChunks, rest);
    InitializedKeys(if offset == 0 then EMPTY else d.store, Checkpoint(m.fileSize, m.chunkSize, m.totalChunks, start));
    ReceivedAll(ready, start, m.totalChunks, rest);
    ReceiveCounts(ready, start, m.totalChunks, rest);
    CompleteExactly(c, d.(store := got.store), m, got.rest, crash, got.accepted);
    ClosesLength(got.rest);
    assert got.rest == inbox[|got.accepted| + 1..];
  }

  lemma ClosesLength(inbox: seq<Message>)
    requires Closes(inbox)
    ensures |inbox| >= 2
  {
  }

  /** What a session that succeeds has passed on its way to the receive loop. */
  lemma FirstIsMetadata(c: Aead, d: Disk, offset: U64, limit: U32, inbox: seq<Message>, crash: CrashPoint)
    requires Session(c, d, offset, limit, inbox, crash).outcome.Done?
    ensures inbox != [] && Negotiated(offset, limit, inbox[0]) && inbox[0].Metadata? && inbox[0].chunkSize > 0
    ensures inbox[0].fileSize > 0 ==> 0 <= StartChunk(offset, inbox[0]) <= inbox[0].totalChunks
  {
    hide Receive, Complete, Initialized;
    if inbox != [] && Negotiated(offset, limit, inbox[0]) {
      StartInWidth(offset, inbox[0]);
    }
  }

  /**
   * With an honest server, a good store and a file that is not empty, a planned attempt succeeds exactly when
   * nothing cuts it short, the metadata is acceptable and the same as before, every missing chunk comes in full
   * and in order, and the key and the acknowledgement follow.
   */
  lemma SuccessExactly(c: Aead, key: Bytes, plain: Bytes, d: Disk, a: Attempt)
    requires Lawful(c) && Good(c, key, plain, d.store) && Honest(c, key, plain, a.inbox) && 0 < |plain| < I64_END
    requires a.inbox != [] && a.inbox[0].Metadata?
    ensures var (_, offset, limit) := Planned(d.store, a.preferred); var m := a.inbox[0]; var next := Next(d.store);
      Step(c, d, a).outcome.Done? <==>
        && a.crash == NoCrash && Negotiated(offset, limit, m) && next <= m.totalChunks
        && (next > 0 ==> m.chunkSize == CheckpointOf(d.store).value.chunkSize)
        && DeliversAll(a.inbox, Checkpoint(|plain|, m.chunkSize, m.totalChunks, next))
  {
    hide Good, Honest, Session, HintOf, Planned, ShapeOk, Negotiated, StartChunk, DeliversAll, Lawful;
    var (store, offset, limit) := Planned(d.store, a.preferred);
    var m, next := a.inbox[0], Next(d.store);
    PlanKeeps(c, key, plain, d.store, a.preferred);
    HonestSize(c, key, plain, a.inbox);
    assert d.(store := store) == d;
    if Step(c, d, a).outcome.Done? {
      SuccessNeeds(c, d, offset, limit, a.inbox, a.crash);
    }
    if next > 0 && m.chunkSize != CheckpointOf(d.store).value.chunkSize {
      if a.crash == NoCrash { ChangedMetadataRefused(c, key, plain, d, a); }
    } else if a.crash == NoCrash && Negotiated(offset, limit, m) {
      DoneExactly(c, key, plain, d, a, offset, limit);
    }
  }

  lemma HonestSize(c: Aead, key: Bytes, plain: Bytes, inbox: seq<Message>)
    requires Honest(c, key, plain, inbox) && inbox != [] && inbox[0].Metadata?
    ensures inbox[0].fileSize == |plain|
    ensures forall j :: 0 <= j < |inbox| ==> HonestMessage(c, key, plain, inbox[0].chunkSize, inbox[j])
  {
    assert HonestMessage(c, key, plain, inbox[0].chunkSize, inbox[0]);
  }

  /** Every chunk from `nextChunk` on in turn, in full, and the two messages that close the transfer. */
  predicate DeliversAll(inbox: seq<Message>, cp: Checkpoint) {
    && cp.nextChunk <= cp.totalChunks
    && var n := cp.totalChunks - cp.nextChunk;
    && n + 1 <= |inbox|
    && (forall j :: 0 <= j < n ==> CarriesChunk(inbox[1..][j], cp, cp.nextChunk + j))
    && Closes(inbox[n + 1..])
  }

  lemma DoneExactly(c: Aead, key: Bytes, plain: Bytes, d: Disk, a: Attempt, offset: U64, limit: U32)
    requires Lawful(c) && Good(c, key, plain, d.store) && 0 < |plain| < I64_END && a.crash == NoCrash
    requires a.inbox != [] && a.inbox[0].Metadata? && a.inbox[0].fileSize == |plain|
    requires forall j :: 0 <= j < |a.inbox| ==> HonestMessage(c, key, plain, a.inbox[0].chunkSize, a.inbox[j])
    requires Planned(d.store, a.preferred) == (d.store, offset, limit) && Negotiated(offset, limit, a.inbox[0])
    requires Next(d.store) > 0 ==> a.inbox[0].chunkSize == CheckpointOf(d.store).value.chunkSize
    ensures var m := a.inbox[0];
      && Next(d.store) <= m.totalChunks
      && (Session(c, d, offset, limit, a.inbox, a.crash).outcome.Done?
          <==> DeliversAll(a.inbox, Checkpoint(|plain|, m.chunkSize, m.totalChunks, Next(d.store))))
  {
    hide Good, Session, Planned, ShapeOk, Negotiated, StartChunk, Lawful, Receive, Complete, Plaintext, Initialized, Next;
    hide HonestMessage, Closes, CarriesChunk, CheckpointOf;
    var m, rest, next := a.inbox[0], a.inbox[1..], Next(d.store);
    StartsAtNext(c, key, plain, d.store, a.preferred, m);
    var cp := Checkpoint(|plain|, m.chunkSize, m.totalChunks, next);
    var prepared := if offset == 0 then EMPTY else d.store;
    ReadyStore(c, key, plain, d.store, prepared, cp);
    var ready := Initialized(prepared, cp).0;
    InitializedKeys(prepared, cp);
    GoodIsConsistent(c, key, plain, ready);
    ReceiveExactly(ready, cp, rest);
    ReceiveKeeps(c, key, plain, ready, cp, rest);
    ReceivedAll(ready, next, m.totalChunks, rest);
    var got := Receive(ready, next, m.totalChunks, rest);
    SessionThrough(c, d, offset, limit, a.inbox, cp, ready);
    if got.complete {
      DecryptsAll(c, key, plain, got.store);
      KeyIsHonest(c, key, plain, m.chunkSize, rest, got.rest);
      CompleteExactly(c, d.(store := got.store), m, got.rest, NoCrash, got.accepted);
      assert got.rest == a.inbox[m.totalChunks - next + 1..];
      ClosesKey(got.rest);
    }
  }

  lemma ClosesKey(inbox: seq<Message>)
    ensures Closes(inbox) ==> inbox != [] && inbox[0].AesKey?
  {
  }

  lemma StartsAtNext(c: Aead, key: Bytes, plain: Bytes, t: Tables, preferred: U32, m: Message)
    requires Good(c, key, plain, t) && m.Metadata? && m.fileSize == |plain| > 0
    requires Negotiated(Planned(t, preferred).1, Planned(t, preferred).2, m)
    requires Next(t) > 0 ==> m.chunkSize == CheckpointOf(t).value.chunkSize
    ensures StartChunk(Planned(t, preferred).1, m) == Next(t) <= m.totalChunks && 0 < m.chunkSize <= MAX_CHUNK
    ensures m.totalChunks == DivCeil(|plain|, m.chunkSize)
    ensures Planned(t, preferred).1 == 0 <==> Next(t) == 0
    ensures Next(t) == 0 ==> t.row.None? ==> t == EMPTY
  {
    hide PrefixOk, SealedRow, ResumeOffset, Planned;
    PlanKeeps(c, key, plain, t, preferred);
    if Next(t) > 0 {
      PlanPasses(c, key, plain, t, preferred);
      StoredTotal(t);
    }
  }

  /** The session's way through to the receive loop and on, when the checkpoint has been set up. */
  lemma SessionThrough(c: Aead, d: Disk, offset: U64, limit: U32, inbox: seq<Message>, cp: Checkpoint, ready: Tables)
    requires inbox != [] && Negotiated(offset, limit, inbox[0]) && inbox[0].fileSize > 0
    requires StartChunk(offset, inbox[0]) == cp.nextChunk <= cp.totalChunks
    requires cp == Checkpoint(inbox[0].fileSize, inbox[0].chunkSize, inbox[0].totalChunks, cp.nextChunk)
    requires Initialized(if offset == 0 then EMPTY else d.store, cp) == (ready, Ok(cp))
    ensures var got := Receive(ready, cp.nextChunk, cp.totalChunks, inbox[1..]);
      && (got.complete ==> AllThere(got.store, cp.totalChunks))
      && Session(c, d, offset, limit, inbox, NoCrash)
        == if !got.complete then End(d.(store := got.store), Failed, got.accepted)
           else Complete(c, d.(store := got.store), inbox[0], got.rest, NoCrash, got.accepted)
  {
    hide Receive, Complete, Initialized, StartChunk;
    InitializedKeys(if offset == 0 then EMPTY else d.store, cp);
    ReceivedAll(ready, cp.nextChunk, cp.totalChunks, inbox[1..]);
  }

  /** An empty file succeeds exactly with its marker and the acknowledgement, and touches nothing but the destination. */
  lemma EmptyFileExactly(c: Aead, d: Disk, offset: U64, limit: U32, inbox: seq<Message>, crash: CrashPoint)
    requires inbox != [] && inbox[0].Metadata? && inbox[0].fileSize == 0
    ensures var e := Session(c, d, offset, limit, inbox, crash);
      && (e.outcome.Done? <==> Negotiated(offset, limit, inbox[0]) && offset == 0
                               && |inbox| >= 3 && inbox[1].EmptyFile? && inbox[2].TransferComplete?)
      && e.disk.store == d.store && e.accepted == []
      && (e.outcome.Done? ==> e.outcome == Done(0) && e.disk.dest == Some([]))
  {
  }

  // ---- Nonces ----

  /** Twelve bytes, in which the prefix and then the index, most significant byte first, can be read back. */
  lemma NonceReads(prefix: Bytes, i: U32)
    requires |prefix| == 8
    ensures var n := Nonce(prefix, i);
      |n| == 12 && n[..8] == prefix && WordOf(n[8], n[9], n[10], n[11]) == i
  {
    hide WordOf;
    WordOfBytes(i);
  }

  /** No two chunks share a nonce, unless both prefix and index are the same. */
  lemma NoncesDistinct(p: Bytes, i: U32, q: Bytes, j: U32)
    requires |p| == 8 && |q| == 8 && Nonce(p, i) == Nonce(q, j)
    ensures p == q && i == j
  {
    hide Nonce, WordOf;
    NonceReads(p, i);
    NonceReads(q, j);
  }
}
