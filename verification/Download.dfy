/**
 * The resumable encrypted download: one session of the client against whatever messages arrive,
 * with a disconnect or a crash anywhere, and runs of sessions each resumed at the persisted hint.
 */
module Download {
  import opened Arithmetic
  import opened BigEndian
  import opened ChunkStore
  import opened Outcomes

  const MIN_CHUNK := 16 * 1024
  const MAX_CHUNK := 2 * 1024 * 1024
  const KEY_LEN := 32

  // ---- Encryption, abstractly ----

  datatype Sealed = Sealed(data: Bytes, tag: Bytes)

  /** An authenticated cipher: key, nonce and text in, and back. */
  datatype Aead = Aead(seal: (Bytes, Bytes, Bytes) -> Sealed, open: (Bytes, Bytes, Sealed) -> Option<Bytes>)

  ghost predicate Lawful(c: Aead) {
    forall key, nonce, text: Bytes :: var s := c.seal(key, nonce, text);
      c.open(key, nonce, s) == Some(text) && |s.data| == |text|
  }

  /** Eight prefix bytes and the chunk index. */
  function Nonce(prefix: Bytes, idx: U32): Bytes {
    prefix + Be32(idx)
  }

  function DecryptChunk(c: Aead, key: Bytes, idx: U32, row: ChunkRow): Option<Bytes> {
    c.open(key, Nonce(row.prefix, idx), Sealed(row.data, row.tag))
  }

  // ---- Messages, disk and crashes ----

  datatype Message =
    | Metadata(fileSize: U64, chunkSize: U32, totalChunks: U32)
    | FileChunk(index: U32, prefix: Bytes, tag: Bytes, data: Bytes)
    | AesKey(key: Bytes)
    | EmptyFile
    | TransferComplete
    | Unusable

  datatype Disk = Disk(store: Tables, dest: Option<Bytes>)

  /** Where the process dies, besides simply ceasing to receive. */
  datatype CrashPoint = NoCrash | AfterPrepare | AfterInitialize | WhileWriting(written: nat) | BeforePurge | AfterPurge

  datatype Outcome = Done(fileSize: U64) | Failed | Died

  datatype End = End(disk: Disk, outcome: Outcome, accepted: seq<nat>)

  // ---- One session ----

  /** The checks on offset and metadata that come before any state is touched. */
  predicate Negotiated(offset: U64, maxChunk: U32, m: Message) {
    && MIN_CHUNK <= maxChunk <= MAX_CHUNK
    && m.Metadata?
    && 0 < m.chunkSize <= maxChunk
    && m.totalChunks == DivCeil(m.fileSize, m.chunkSize)
    && offset <= m.fileSize
    && (offset == 0 || offset == m.fileSize || offset % m.chunkSize == 0)
  }

  function StartChunk(offset: U64, m: Message): int
    requires m.Metadata? && m.chunkSize > 0
  {
    if offset == m.fileSize then m.totalChunks else offset / m.chunkSize % U32_END
  }

  predicate Framed(m: Message) {
    m.FileChunk? && |m.prefix| == 8 && |m.tag| == 16
  }

  datatype Received = Received(store: Tables, rest: seq<Message>, complete: bool, accepted: seq<nat>)

  /** Chunk messages are taken in order until `total`; anything else ends the session. */
  function Receive(store: Tables, next: nat, total: nat, inbox: seq<Message>): Received
    requires next <= total < U32_END
    decreases total - next
  {
    if next == total then Received(store, inbox, true, [])
    else if inbox == [] || !Framed(inbox[0]) || inbox[0].index != next then Received(store, [], false, [])
    else
      var (store', r) := Recorded(store, next, ChunkRow(inbox[0].prefix, inbox[0].tag, inbox[0].data));
      if r.Err? then Received(store, [], false, [])
      else
        var more := Receive(store', next + 1, total, inbox[1..]);
        more.(accepted := [next] + more.accepted)
  }

  /** The plaintext of chunks `0..n`, or nothing when one does not open. */
  function Plaintext(c: Aead, key: Bytes, chunks: map<int, ChunkRow>, n: nat): Option<Bytes>
    requires n < U32_END && forall i :: 0 <= i < n ==> i in chunks
  {
    if n == 0 then Some([])
    else
      match Plaintext(c, key, chunks, n - 1)
      case None => None
      case Some(front) =>
        match DecryptChunk(c, key, n - 1, chunks[n - 1])
        case None => None
        case Some(text) => Some(front + text)
  }

  /** What decryption has written when it stops at the first chunk that does not open. */
  function Written(c: Aead, key: Bytes, chunks: map<int, ChunkRow>, n: nat): Bytes
    requires n < U32_END && forall i :: 0 <= i < n ==> i in chunks
  {
    if n == 0 then []
    else
      match Plaintext(c, key, chunks, n)
      case Some(text) => text
      case None => Written(c, key, chunks, n - 1)
  }

  function Finish(d: Disk, fileSize: U64, inbox: seq<Message>, crash: CrashPoint, accepted: seq<nat>): End {
    if inbox == [] || !inbox[0].TransferComplete? then End(d, Failed, accepted)
    else if crash == BeforePurge then End(d, Died, accepted)
    else
      var purged := d.(store := EMPTY);
      if crash == AfterPurge then End(purged, Died, accepted) else End(purged, Done(fileSize), accepted)
  }

  /** From the key on: decrypt, write, check the size, acknowledge, purge. */
  function Complete(c: Aead, d: Disk, m: Message, inbox: seq<Message>, crash: CrashPoint, accepted: seq<nat>): End
    requires m.Metadata? && forall i :: 0 <= i < m.totalChunks ==> i in d.store.chunks
  {
    if inbox == [] || !inbox[0].AesKey? || |inbox[0].key| != KEY_LEN then End(d, Failed, accepted)
    else
      var key := inbox[0].key;
      var out := Written(c, key, d.store.chunks, m.totalChunks);
      if crash.WhileWriting? then
        End(d.(dest := Some(out[..if crash.written <= |out| then crash.written else |out|])), Died, accepted)
      else
        var d' := d.(dest := Some(out));
        if Plaintext(c, key, d.store.chunks, m.totalChunks).None? || |out| != m.fileSize then End(d', Failed, accepted)
        else Finish(d', m.fileSize, inbox[1..], crash, accepted)
  }

  predicate AllThere(t: Tables, n: nat) {
    forall i :: 0 <= i < n ==> i in t.chunks
  }

  /** One call of `receive_with_resume` with a persistent chunk store. */
  function Session(c: Aead, d: Disk, offset: U64, maxChunk: U32, inbox: seq<Message>, crash: CrashPoint): End {
    if inbox == [] || !Negotiated(offset, maxChunk, inbox[0]) then End(d, Failed, [])
    else
      var m, rest := inbox[0], inbox[1..];
      if m.fileSize == 0 then
        if rest == [] || !rest[0].EmptyFile? then End(d, Failed, [])
        else
          var d' := d.(dest := Some([]));
          if |rest| < 2 || !rest[1].TransferComplete? then End(d', Failed, []) else End(d', Done(0), [])
      else
        var prepared := if offset == 0 then EMPTY else d.store;
        if crash == AfterPrepare then End(d.(store := prepared), Died, [])
        else
          var start := StartChunk(offset, m);
          if start > m.totalChunks then End(d.(store := prepared), Failed, [])
          else
            var (ready, r) := Initialized(prepared, Checkpoint(m.fileSize, m.chunkSize, m.totalChunks, start));
            if r.Err? then End(d.(store := ready), Failed, [])
            else if crash == AfterInitialize then End(d.(store := ready), Died, [])
            else
              var got := Receive(ready, start, m.totalChunks, rest);
              var d' := d.(store := got.store);
              if !got.complete then End(d', Failed, got.accepted)
              else
                ReceivedAll(ready, start, m.totalChunks, rest);
                Complete(c, d', m, got.rest, crash, got.accepted)
  }

  /** After a complete reception every index below the total is stored. */
  lemma {:induction false} ReceivedAll(store: Tables, next: nat, total: nat, inbox: seq<Message>)
    requires next <= total < U32_END
    ensures Receive(store, next, total, inbox).complete && AllThere(store, next) ==>
      AllThere(Receive(store, next, total, inbox).store, total)
    decreases total - next
  {
    if next < total && inbox != [] && Framed(inbox[0]) && inbox[0].index == next {
      var (store', r) := Recorded(store, next, ChunkRow(inbox[0].prefix, inbox[0].tag, inbox[0].data));
      if r.Ok? {
        ReceivedAll(store', next + 1, total, inbox[1..]);
      }
    }
  }

  // ---- Resume arithmetic ----

  /** The figure the receive loop reports after `n` chunks. */
  function ReportedBytes(m: Message, n: nat): nat
    requires m.Metadata?
  {
    if n < m.totalChunks then m.chunkSize * n else m.fileSize
  }

  /** Reported progress is the resume offset the store would give, and each chunk moves it on, up to the file size. */
  lemma ReportedIsOffset(cp: Checkpoint)
    requires ShapeOk(cp)
    ensures ReportedBytes(Metadata(cp.fileSize, cp.chunkSize, cp.totalChunks), cp.nextChunk) == ResumeOffset(cp)
    ensures cp.nextChunk < cp.totalChunks ==> ResumeOffset(cp) < ResumeOffset(cp.(nextChunk := cp.nextChunk + 1))
    ensures cp.nextChunk == cp.totalChunks ==> ResumeOffset(cp) == cp.fileSize
  {
    DivCeilBounds(cp.fileSize, cp.chunkSize);
    assert cp.chunkSize * cp.nextChunk == cp.nextChunk * cp.chunkSize;
    if cp.nextChunk < cp.totalChunks {
      ChunkStartsInside(cp, cp.nextChunk);
      OffsetAdvances(cp);
    }
  }

  /** Resuming at the stored offset with unchanged metadata passes every check and starts at the stored chunk. */
  lemma ResumePasses(cp: Checkpoint, maxChunk: U32)
    requires ShapeOk(cp) && cp.fileSize > 0 && MIN_CHUNK <= maxChunk <= MAX_CHUNK && cp.chunkSize <= maxChunk
    ensures var m := Metadata(cp.fileSize, cp.chunkSize, cp.totalChunks);
      Negotiated(ResumeOffset(cp), maxChunk, m) && StartChunk(ResumeOffset(cp), m) == cp.nextChunk
  {
    DivCeilBounds(cp.fileSize, cp.chunkSize);
    if cp.nextChunk < cp.totalChunks {
      ChunkStartsInside(cp, cp.nextChunk);
      DivModUnique(cp.nextChunk * cp.chunkSize, cp.chunkSize, cp.nextChunk, 0);
    }
  }

  /** ... and the store it came from takes the checkpoint up again unchanged. */
  lemma ResumeInitializes(t: Tables)
    requires Consistent(t) && t.row.Some?
    ensures Initialized(t, ReadCheckpoint(t).value.value) == (t, Ok(ReadCheckpoint(t).value.value))
  {
    hide ShapeOk, PrefixOk;
  }

  // ---- An honest server ----

  /** Chunk `i` of the plaintext. */
  function ChunkText(plain: Bytes, size: nat, i: nat): Bytes {
    MulMono(i, i + 1, size);
    MulMono(0, i, size);
    plain[Min(i * size, |plain|)..Min((i + 1) * size, |plain|)]
  }

  ghost predicate SealedRow(c: Aead, key: Bytes, plain: Bytes, size: nat, i: U32, row: ChunkRow) {
    Sealed(row.data, row.tag) == c.seal(key, Nonce(row.prefix, i), ChunkText(plain, size, i))
  }

  /** A message sent by a server that seals the chunks of one plaintext with one key. */
  ghost predicate HonestMessage(c: Aead, key: Bytes, plain: Bytes, size: nat, msg: Message) {
    match msg
    case Metadata(fileSize, _, _) => fileSize == |plain|
    case FileChunk(i, prefix, tag, data) => SealedRow(c, key, plain, size, i, ChunkRow(prefix, tag, data))
    case AesKey(k) => k == key
    case _ => true
  }

  ghost predicate Honest(c: Aead, key: Bytes, plain: Bytes, inbox: seq<Message>) {
    inbox != [] && inbox[0].Metadata? ==>
      forall j :: 0 <= j < |inbox| ==> HonestMessage(c, key, plain, inbox[0].chunkSize, inbox[j])
  }

  function CheckpointOf(t: Tables): Option<Checkpoint> {
    match ReadCheckpoint(t) case Ok(x) => x case Err(_) => None
  }

  /** Consistent, and every stored chunk is the sealed chunk of the plaintext. */
  ghost predicate Good(c: Aead, key: Bytes, plain: Bytes, t: Tables) {
    && Consistent(t)
    && (t.row.Some? ==> GoodRows(c, key, plain, t.chunks, CheckpointOf(t).value))
  }

  ghost predicate GoodRows(c: Aead, key: Bytes, plain: Bytes, chunks: map<int, ChunkRow>, cp: Checkpoint) {
    && cp.fileSize == |plain| && cp.chunkSize <= MAX_CHUNK
    && forall i :: 0 <= i < cp.nextChunk ==> i in chunks && SealedRow(c, key, plain, cp.chunkSize, i, chunks[i])
  }

  function Next(t: Tables): nat {
    match CheckpointOf(t) case Some(cp) => cp.nextChunk case None => 0
  }

  function Range(from: nat, count: nat): seq<nat> {
    seq(count, i requires 0 <= i < count => from + i)
  }

  /** Reception keeps a good store good and accepts consecutive chunks, from the next one on. */
  lemma {:induction false} ReceiveKeeps(c: Aead, key: Bytes, plain: Bytes, t: Tables, cp: Checkpoint,
      inbox: seq<Message>)
    requires Good(c, key, plain, t) && t.row.Some? && CheckpointOf(t) == Some(cp) && cp.nextChunk <= cp.totalChunks
    requires forall j :: 0 <= j < |inbox| ==> HonestMessage(c, key, plain, cp.chunkSize, inbox[j])
    ensures var got := Receive(t, cp.nextChunk, cp.totalChunks, inbox);
      && Good(c, key, plain, got.store) && got.store.row.Some?
      && cp.nextChunk + |got.accepted| <= cp.totalChunks
      && CheckpointOf(got.store) == Some(cp.(nextChunk := cp.nextChunk + |got.accepted|))
      && got.accepted == Range(cp.nextChunk, |got.accepted|)
      && (got.complete ==> cp.nextChunk + |got.accepted| == cp.totalChunks && IsTail(got.rest, inbox))
    decreases |inbox|
  {
    hide ShapeOk, PrefixOk, ResumeOffset, HonestMessage, Good, CheckpointOf, Recorded;
    var next := cp.nextChunk;
    if next < cp.totalChunks && inbox != [] && Framed(inbox[0]) && inbox[0].index == next {
      var row := ChunkRow(inbox[0].prefix, inbox[0].tag, inbox[0].data);
      var (t', r) := Recorded(t, next, row);
      if r.Ok? {
        GoodIsConsistent(c, key, plain, t);
        RecordKeeps(t, next, row);
        RecordedGood(c, key, plain, t, inbox[0]);
        ReceiveKeeps(c, key, plain, t', cp.(nextChunk := next + 1), inbox[1..]);
        var more := Receive(t', next + 1, cp.totalChunks, inbox[1..]);
        assert [next] + Range(next + 1, |more.accepted|) == Range(next, 1 + |more.accepted|);
        if more.complete {
          TailOfRest(more.rest, inbox);
        }
      }
    } else if next == cp.totalChunks {
      assert inbox[0..] == inbox;
    }
  }

  lemma GoodIsConsistent(c: Aead, key: Bytes, plain: Bytes, t: Tables)
    requires Good(c, key, plain, t)
    ensures Consistent(t)
  {
  }

  ghost predicate IsTail(rest: seq<Message>, inbox: seq<Message>) {
    |rest| <= |inbox| && rest == inbox[|inbox| - |rest|..]
  }

  lemma TailOfRest(rest: seq<Message>, inbox: seq<Message>)
    requires inbox != [] && IsTail(rest, inbox[1..])
    ensures IsTail(rest, inbox)
  {
    assert inbox[1..][|inbox| - 1 - |rest|..] == inbox[|inbox| - |rest|..];
  }

  lemma ConsistentShape(t: Tables)
    requires Consistent(t) && t.row.Some?
    ensures CheckpointOf(t).Some? && CheckpointOf(t).value.nextChunk <= CheckpointOf(t).value.totalChunks
    ensures CheckpointOf(t).value.chunkSize > 0
    ensures CheckpointOf(t).value.totalChunks == DivCeil(CheckpointOf(t).value.fileSize, CheckpointOf(t).value.chunkSize)
  {
    hide PrefixOk, ResumeOffset;
  }

  lemma RecordedGood(c: Aead, key: Bytes, plain: Bytes, t: Tables, msg: Message)
    requires Good(c, key, plain, t) && t.row.Some? && msg.FileChunk?
    requires HonestMessage(c, key, plain, CheckpointOf(t).value.chunkSize, msg)
    requires var (t', r) := Recorded(t, msg.index, ChunkRow(msg.prefix, msg.tag, msg.data)); r.Ok? && Consistent(t')
    ensures var (t', r) := Recorded(t, msg.index, ChunkRow(msg.prefix, msg.tag, msg.data)); var cp := CheckpointOf(t).value;
      Good(c, key, plain, t') && t'.row.Some? && cp.nextChunk < cp.totalChunks
      && CheckpointOf(t') == Some(cp.(nextChunk := cp.nextChunk + 1))
  {
    hide ShapeOk, PrefixOk, ResumeOffset, SealedRow, ExpectedLength;
  }

  /** What the first `n` chunks of that size hold. */
  function UpTo(plain: Bytes, size: nat, n: nat): Bytes {
    MulMono(0, n, size);
    plain[..Min(n * size, |plain|)]
  }

  /** The chunks of a good store decrypt, in order, to the plaintext up to the resume offset. */
  lemma {:induction false} DecryptsPrefix(c: Aead, key: Bytes, plain: Bytes, chunks: map<int, ChunkRow>,
      cp: Checkpoint, n: U32)
    requires Lawful(c) && GoodRows(c, key, plain, chunks, cp) && n <= cp.nextChunk
    ensures Plaintext(c, key, chunks, n) == Some(UpTo(plain, cp.chunkSize, n))
    decreases n
  {
    hide Nonce, UpTo, ChunkText;
    NothingYet(plain, cp.chunkSize);
    if n > 0 {
      DecryptsPrefix(c, key, plain, chunks, cp, n - 1);
      var row := chunks[n - 1];
      assert SealedRow(c, key, plain, cp.chunkSize, n - 1, row);
      var text := ChunkText(plain, cp.chunkSize, n - 1);
      OpensSealed(c, key, Nonce(row.prefix, n - 1), text);
      JoinsChunk(plain, cp.chunkSize, n);
    }
  }

  lemma OpensSealed(c: Aead, key: Bytes, nonce: Bytes, text: Bytes)
    requires Lawful(c)
    ensures c.open(key, nonce, c.seal(key, nonce, text)) == Some(text)
  {
  }

  lemma NothingYet(plain: Bytes, size: nat)
    ensures UpTo(plain, size, 0) == []
  {
  }

  lemma JoinsChunk(plain: Bytes, size: nat, n: nat)
    requires n > 0
    ensures UpTo(plain, size, n - 1) + ChunkText(plain, size, n - 1) == UpTo(plain, size, n)
  {
    MulMono(0, n - 1, size);
    MulMono(n - 1, n, size);
  }

  /** A complete good store decrypts to the whole plaintext. */
  lemma DecryptsAll(c: Aead, key: Bytes, plain: Bytes, t: Tables)
    requires Lawful(c) && Good(c, key, plain, t) && t.row.Some?
    requires CheckpointOf(t).value.nextChunk == CheckpointOf(t).value.totalChunks
    ensures AllThere(t, CheckpointOf(t).value.totalChunks)
    ensures Plaintext(c, key, t.chunks, CheckpointOf(t).value.totalChunks) == Some(plain)
  {
    hide PrefixOk, ResumeOffset, SealedRow;
    var cp := CheckpointOf(t).value;
    ConsistentShape(t);
    DecryptsPrefix(c, key, plain, t.chunks, cp, cp.totalChunks);
    DivCeilBounds(cp.fileSize, cp.chunkSize);
    assert plain[..|plain|] == plain;
  }

  // ---- What every session keeps ----

  /** An honest session never spoils the store, and when it returns successfully the plaintext is written. */
  lemma SessionKeeps(c: Aead, key: Bytes, plain: Bytes, d: Disk, offset: U64, maxChunk: U32,
      inbox: seq<Message>, crash: CrashPoint)
    requires Lawful(c) && Good(c, key, plain, d.store) && Honest(c, key, plain, inbox)
    ensures var e := Session(c, d, offset, maxChunk, inbox, crash);
      Good(c, key, plain, e.disk.store) && (e.outcome.Done? ==> e.disk.dest == Some(plain) && e.outcome.fileSize == |plain|)
  {
    hide ShapeOk, PrefixOk, ResumeOffset, SealedRow, StartChunk, ExpectedLength, Receive, Initialized, Lawful, Complete;
    if inbox != [] && Negotiated(offset, maxChunk, inbox[0]) {
      var m, rest := inbox[0], inbox[1..];
      assert HonestMessage(c, key, plain, m.chunkSize, m);
      if m.fileSize != 0 {
        var prepared := if offset == 0 then EMPTY else d.store;
        EmptyConsistent();
        var start := StartChunk(offset, m);
        if start <= m.totalChunks {
          StartInWidth(offset, m);
          var cp := Checkpoint(m.fileSize, m.chunkSize, m.totalChunks, start);
          InitializedGood(c, key, plain, prepared, cp);
          var (ready, r) := Initialized(prepared, cp);
          if r.Ok? {
            ReceiveKeeps(c, key, plain, ready, cp, rest);
            var got := Receive(ready, start, m.totalChunks, rest);
            if got.complete {
              ReceivedAll(ready, start, m.totalChunks, rest);
              DecryptsAll(c, key, plain, got.store);
              KeyIsHonest(c, key, plain, m.chunkSize, rest, got.rest);
              CompleteWrites(c, key, plain, d.(store := got.store), m, got.rest, crash, got.accepted);
            }
          }
        }
      }
    }
  }

  lemma StartInWidth(offset: U64, m: Message)
    requires m.Metadata? && m.chunkSize > 0
    ensures 0 <= StartChunk(offset, m) < U32_END
  {
  }

  lemma InitializedGood(c: Aead, key: Bytes, plain: Bytes, t: Tables, cp: Checkpoint)
    requires Good(c, key, plain, t) && cp.fileSize == |plain| && cp.chunkSize <= MAX_CHUNK
    ensures var (t', r) := Initialized(t, cp);
      Good(c, key, plain, t') && (r.Err? ==> t' == t)
      && (r.Ok? ==> t'.row.Some? && CheckpointOf(t') == Some(cp) && (t.row.Some? ==> t' == t) && (t.row.None? ==> cp.nextChunk == 0))
  {
    hide ShapeOk, ExpectedLength, ResumeOffset, SealedRow;
    InitializeKeeps(t, cp);
    var (t', r) := Initialized(t, cp);
    if r.Ok? && t.row.None? {
      assert t.chunks == map[];
      assert cp.nextChunk == 0 by {
        assert cp.nextChunk > 0 ==> 0 in t.chunks;
      }
    }
  }

  lemma KeyIsHonest(c: Aead, key: Bytes, plain: Bytes, size: nat, rest: seq<Message>, tail: seq<Message>)
    requires forall j :: 0 <= j < |rest| ==> HonestMessage(c, key, plain, size, rest[j])
    requires IsTail(tail, rest)
    ensures tail != [] && tail[0].AesKey? ==> tail[0].key == key
  {
    if tail != [] {
      assert tail[0] == rest[|rest| - |tail|];
    }
  }

  lemma CompleteWrites(c: Aead, key: Bytes, plain: Bytes, d: Disk, m: Message, inbox: seq<Message>,
      crash: CrashPoint, accepted: seq<nat>)
    requires m.Metadata? && m.fileSize == |plain| && AllThere(d.store, m.totalChunks)
    requires Plaintext(c, key, d.store.chunks, m.totalChunks) == Some(plain)
    requires inbox != [] && inbox[0].AesKey? ==> inbox[0].key == key
    ensures var e := Complete(c, d, m, inbox, crash, accepted);
      (e.disk.store == d.store || e.disk.store == EMPTY) && e.accepted == accepted
      && (e.outcome.Done? ==> e.disk.dest == Some(plain) && e.outcome.fileSize == |plain|)
      && (e.outcome.Failed? ==> e.disk.store == d.store)
  {
    hide Plaintext;
    WrittenWhole(c, key, d.store.chunks, m.totalChunks);
  }

  lemma NoPlaintext(c: Aead, key: Bytes, chunks: map<int, ChunkRow>)
    ensures Plaintext(c, key, chunks, 0) == Some([])
  {
  }

  lemma PlaintextStep(c: Aead, key: Bytes, chunks: map<int, ChunkRow>, n: nat, front: Bytes, text: Bytes)
    requires n + 1 < U32_END && forall i :: 0 <= i < n + 1 ==> i in chunks
    requires Plaintext(c, key, chunks, n) == Some(front) && DecryptChunk(c, key, n, chunks[n]) == Some(text)
    ensures Plaintext(c, key, chunks, n + 1) == Some(front + text)
  {
  }

  lemma WrittenWhole(c: Aead, key: Bytes, chunks: map<int, ChunkRow>, n: nat)
    requires n < U32_END && (forall i :: 0 <= i < n ==> i in chunks) && Plaintext(c, key, chunks, n).Some?
    ensures Written(c, key, chunks, n) == Plaintext(c, key, chunks, n).value
  {
  }

  // ---- Which chunks a session accepts ----

  /** Chunks are dropped only when the plaintext is already written, or when there were none. */
  ghost predicate NothingLost(d: Disk, e: End, plain: Bytes) {
    e.disk.store == EMPTY && Next(d.store) > 0 ==> e.disk.dest == Some(plain)
  }

  /** A session that resumes where the store stands accepts consecutive chunks from there. */
  lemma SessionAccepts(c: Aead, key: Bytes, plain: Bytes, d: Disk, offset: U64, maxChunk: U32,
      inbox: seq<Message>, crash: CrashPoint)
    requires Lawful(c) && Good(c, key, plain, d.store) && Honest(c, key, plain, inbox)
    requires offset == 0 ==> Next(d.store) == 0
    ensures var e := Session(c, d, offset, maxChunk, inbox, crash);
      && e.accepted == Range(Next(d.store), |e.accepted|)
      && (e.disk.store == EMPTY || Next(e.disk.store) == Next(d.store) + |e.accepted|)
      && NothingLost(d, e, plain)
  {
    hide ShapeOk, PrefixOk, ResumeOffset, SealedRow, StartChunk, ExpectedLength, Receive, Initialized, Lawful, Complete;
    if inbox != [] && Negotiated(offset, maxChunk, inbox[0]) {
      var m, rest := inbox[0], inbox[1..];
      assert HonestMessage(c, key, plain, m.chunkSize, m);
      if m.fileSize != 0 {
        var prepared := if offset == 0 then EMPTY else d.store;
        EmptyConsistent();
        var start := StartChunk(offset, m);
        if start <= m.totalChunks {
          StartInWidth(offset, m);
          var cp := Checkpoint(m.fileSize, m.chunkSize, m.totalChunks, start);
          InitializedGood(c, key, plain, prepared, cp);
          var (ready, r) := Initialized(prepared, cp);
          if r.Ok? {
            assert start == Next(d.store);
            ReceiveKeeps(c, key, plain, ready, cp, rest);
            var got := Receive(ready, start, m.totalChunks, rest);
            if got.complete {
              ReceivedAll(ready, start, m.totalChunks, rest);
              DecryptsAll(c, key, plain, got.store);
              KeyIsHonest(c, key, plain, m.chunkSize, rest, got.rest);
              CompleteAccepts(c, key, plain, d.(store := got.store), m, got.rest, crash, got.accepted);
            }
          }
        }
      }
    }
  }

  lemma CompleteAccepts(c: Aead, key: Bytes, plain: Bytes, d: Disk, m: Message, inbox: seq<Message>,
      crash: CrashPoint, accepted: seq<nat>)
    requires m.Metadata? && m.fileSize == |plain| && AllThere(d.store, m.totalChunks)
    requires Plaintext(c, key, d.store.chunks, m.totalChunks) == Some(plain)
    requires inbox != [] && inbox[0].AesKey? ==> inbox[0].key == key
    ensures var e := Complete(c, d, m, inbox, crash, accepted);
      e.accepted == accepted && (e.disk.store == d.store || (e.disk.store == EMPTY && e.disk.dest == Some(plain)))
  {
    hide Plaintext;
    WrittenWhole(c, key, d.store.chunks, m.totalChunks);
  }

  // ---- Runs of sessions ----

  function Clamp(x: U32): U32 {
    if x < MIN_CHUNK then MIN_CHUNK else if x > MAX_CHUNK then MAX_CHUNK else x
  }

  /** One attempt: what arrives, where it dies, and the chunk size the user prefers. */
  datatype Attempt = Attempt(inbox: seq<Message>, crash: CrashPoint, preferred: U32)

  /** How the queue resumes: an unreadable store is discarded, otherwise its hint gives offset and chunk limit. */
  function Planned(t: Tables, preferred: U32): (Tables, U64, U32) {
    match HintOf(t)
    case Err(_) => (EMPTY, 0, Clamp(preferred))
    case Ok(None) => (t, 0, Clamp(preferred))
    case Ok(Some(h)) => (t, h.offset, Clamp(h.chunkSize))
  }

  function Step(c: Aead, d: Disk, a: Attempt): End {
    var (store, offset, maxChunk) := Planned(d.store, a.preferred);
    Session(c, d.(store := store), offset, maxChunk, a.inbox, a.crash)
  }

  /** The disk after a run, how each session ended, and the chunks accepted into the present store. */
  datatype History = History(disk: Disk, ends: seq<End>, live: seq<nat>)

  function Run(c: Aead, d: Disk, attempts: seq<Attempt>): History {
    if attempts == [] then History(d, [], [])
    else
      var before := Run(c, d, attempts[..|attempts| - 1]);
      var e := Step(c, before.disk, attempts[|attempts| - 1]);
      History(e.disk, before.ends + [e], if e.disk.store == EMPTY then [] else before.live + e.accepted)
  }

  /** The queue's plan never discards a good store, and restarts from 0 only when no chunk is stored. */
  lemma PlanKeeps(c: Aead, key: Bytes, plain: Bytes, t: Tables, preferred: U32)
    requires Good(c, key, plain, t)
    ensures var (store, offset, _) := Planned(t, preferred); store == t && (offset == 0 <==> Next(t) == 0)
  {
    hide PrefixOk, SealedRow;
    ConsistentHint(t);
    if t.row.Some? {
      var cp := CheckpointOf(t).value;
      ConsistentShape(t);
      if cp.nextChunk > 0 {
        DivCeilBounds(cp.fileSize, cp.chunkSize);
        MulMono(1, cp.nextChunk, cp.chunkSize);
      }
    }
  }

  lemma StepKeeps(c: Aead, key: Bytes, plain: Bytes, d: Disk, a: Attempt)
    requires Lawful(c) && Good(c, key, plain, d.store) && Honest(c, key, plain, a.inbox)
    ensures var e := Step(c, d, a);
      && Good(c, key, plain, e.disk.store)
      && (e.outcome.Done? ==> e.disk.dest == Some(plain) && e.outcome.fileSize == |plain|)
      && e.accepted == Range(Next(d.store), |e.accepted|)
      && (e.disk.store == EMPTY || Next(e.disk.store) == Next(d.store) + |e.accepted|)
      && NothingLost(d, e, plain)
  {
    hide Session, Good, HintOf, Next, Honest;
    PlanKeeps(c, key, plain, d.store, a.preferred);
    var (store, offset, maxChunk) := Planned(d.store, a.preferred);
    assert d.(store := store) == d;
    SessionKeeps(c, key, plain, d, offset, maxChunk, a.inbox, a.crash);
    SessionAccepts(c, key, plain, d, offset, maxChunk, a.inbox, a.crash);
  }

  /**
   * Over any sequence of sessions, each cut off or crashed anywhere and resumed at the persisted hint:
   * every session that returns success has written exactly the plaintext, the store stays good, and the
   * chunks accepted into it are 0, 1, 2, ... in order, none twice.
   */
  lemma {:induction false} WholeRun(c: Aead, key: Bytes, plain: Bytes, d: Disk, attempts: seq<Attempt>)
    requires Lawful(c) && d.store == EMPTY
    requires forall i :: 0 <= i < |attempts| ==> Honest(c, key, plain, attempts[i].inbox)
    ensures var h := Run(c, d, attempts);
      && |h.ends| == |attempts|
      && Good(c, key, plain, h.disk.store)
      && (forall i :: 0 <= i < |h.ends| && h.ends[i].outcome.Done? ==>
          h.ends[i].disk.dest == Some(plain) && h.ends[i].outcome.fileSize == |plain|)
      && h.live == Range(0, Next(h.disk.store))
  {
    hide Good, Honest, Step, Next;
    if attempts == [] {
      EmptyGood(c, key, plain);
    } else {
      var n := |attempts| - 1;
      WholeRun(c, key, plain, d, attempts[..n]);
      var before := Run(c, d, attempts[..n]);
      StepKeeps(c, key, plain, before.disk, attempts[n]);
      EmptyGood(c, key, plain);
      var e := Step(c, before.disk, attempts[n]);
      assert Range(0, Next(before.disk.store)) + Range(Next(before.disk.store), |e.accepted|)
        == Range(0, Next(before.disk.store) + |e.accepted|);
    }
  }

  lemma EmptyGood(c: Aead, key: Bytes, plain: Bytes)
    ensures Good(c, key, plain, EMPTY) && Next(EMPTY) == 0
  {
    EmptyConsistent();
  }

  // ---- Complete stores and full deliveries ----

  /** With every chunk stored, a retry takes no chunk message, whatever the server sends. */
  lemma CompleteTakesNoChunk(c: Aead, key: Bytes, plain: Bytes, d: Disk, a: Attempt)
    requires Lawful(c) && Good(c, key, plain, d.store) && Honest(c, key, plain, a.inbox)
    requires d.store.row.Some? && Next(d.store) == CheckpointOf(d.store).value.totalChunks > 0
    ensures Step(c, d, a).accepted == []
  {
    hide Session, HintOf, PrefixOk, ShapeOk;
    PlanKeeps(c, key, plain, d.store, a.preferred);
    var (store, offset, maxChunk) := Planned(d.store, a.preferred);
    assert d.(store := store) == d;
    CompleteReceivesNothing(c, key, plain, d, offset, maxChunk, a.inbox, a.crash);
  }

  lemma CompleteReceivesNothing(c: Aead, key: Bytes, plain: Bytes, d: Disk, offset: U64, maxChunk: U32,
      inbox: seq<Message>, crash: CrashPoint)
    requires Lawful(c) && Good(c, key, plain, d.store) && Honest(c, key, plain, inbox) && offset != 0
    requires d.store.row.Some? && Next(d.store) == CheckpointOf(d.store).value.totalChunks
    ensures Session(c, d, offset, maxChunk, inbox, crash).accepted == []
  {
    hide ShapeOk, PrefixOk, ResumeOffset, SealedRow, StartChunk, ExpectedLength;
    if inbox != [] && Negotiated(offset, maxChunk, inbox[0]) {
      var m := inbox[0];
      assert HonestMessage(c, key, plain, m.chunkSize, m);
      var start := StartChunk(offset, m);
      if m.fileSize != 0 && start <= m.totalChunks {
        StartInWidth(offset, m);
        InitializedGood(c, key, plain, d.store, Checkpoint(m.fileSize, m.chunkSize, m.totalChunks, start));
      }
    }
  }

  /** The chunk messages still owed, in order. */
  ghost predicate Delivers(c: Aead, key: Bytes, plain: Bytes, size: nat, from: nat, total: nat, msgs: seq<Message>) {
    && from + |msgs| == total
    && forall j :: 0 <= j < |msgs| ==>
         Framed(msgs[j]) && msgs[j].index == from + j && HonestMessage(c, key, plain, size, msgs[j])
  }

  lemma {:induction false} ReceivesDelivered(c: Aead, key: Bytes, plain: Bytes, t: Tables, cp: Checkpoint,
      msgs: seq<Message>, tail: seq<Message>)
    requires Lawful(c) && Good(c, key, plain, t) && t.row.Some? && CheckpointOf(t) == Some(cp)
    requires Delivers(c, key, plain, cp.chunkSize, cp.nextChunk, cp.totalChunks, msgs)
    ensures var got := Receive(t, cp.nextChunk, cp.totalChunks, msgs + tail); got.complete && got.rest == tail
    decreases |msgs|
  {
    hide ShapeOk, PrefixOk, ResumeOffset, HonestMessage, Good, CheckpointOf, Recorded;
    if msgs == [] {
      assert msgs + tail == tail;
    } else {
      var inbox := msgs + tail;
      assert inbox[1..] == msgs[1..] + tail;
      var row := ChunkRow(msgs[0].prefix, msgs[0].tag, msgs[0].data);
      GoodIsConsistent(c, key, plain, t);
      AcceptsHonest(c, key, plain, t, cp, msgs[0]);
      RecordKeeps(t, cp.nextChunk, row);
      RecordedGood(c, key, plain, t, msgs[0]);
      var (t', r) := Recorded(t, cp.nextChunk, row);
      ReceivesDelivered(c, key, plain, t', cp.(nextChunk := cp.nextChunk + 1), msgs[1..], tail);
    }
  }

  /** A sealed chunk has the length the store expects. */
  lemma AcceptsHonest(c: Aead, key: Bytes, plain: Bytes, t: Tables, cp: Checkpoint, msg: Message)
    requires Lawful(c) && Good(c, key, plain, t) && t.row.Some? && CheckpointOf(t) == Some(cp)
    requires msg.FileChunk? && msg.index == cp.nextChunk < cp.totalChunks
    requires HonestMessage(c, key, plain, cp.chunkSize, msg)
    ensures Recorded(t, msg.index, ChunkRow(msg.prefix, msg.tag, msg.data)).1.Ok?
  {
    hide PrefixOk, ResumeOffset;
    var row := ChunkRow(msg.prefix, msg.tag, msg.data);
    ShapeOfGood(c, key, plain, t, cp);
    ChunkStartsInside(cp, cp.nextChunk);
    var text := ChunkText(plain, cp.chunkSize, cp.nextChunk);
    SealedLength(c, key, Nonce(msg.prefix, msg.index), text);
    assert (cp.nextChunk + 1) * cp.chunkSize == cp.nextChunk * cp.chunkSize + cp.chunkSize;
    assert |text| == Min(cp.fileSize - cp.nextChunk * cp.chunkSize, cp.chunkSize);
    RecordAcceptsNext(t, msg.index, row);
  }

  lemma ShapeOfGood(c: Aead, key: Bytes, plain: Bytes, t: Tables, cp: Checkpoint)
    requires Good(c, key, plain, t) && t.row.Some? && CheckpointOf(t) == Some(cp)
    ensures ShapeOk(cp) && cp.fileSize == |plain| && cp.chunkSize <= MAX_CHUNK
  {
    hide PrefixOk, ResumeOffset, SealedRow;
  }

  lemma SealedLength(c: Aead, key: Bytes, nonce: Bytes, text: Bytes)
    requires Lawful(c)
    ensures |c.seal(key, nonce, text).data| == |text|
  {
  }

  /** Retrying with everything still owed delivered, then key and acknowledgement, succeeds and writes the plaintext. */
  lemma FullDeliverySucceeds(c: Aead, key: Bytes, plain: Bytes, d: Disk, size: U32, total: U32,
      msgs: seq<Message>, preferred: U32)
    requires Lawful(c) && Good(c, key, plain, d.store) && |key| == KEY_LEN && 0 < |plain| < I64_END
    requires 0 < size && total == DivCeil(|plain|, size)
    requires if Next(d.store) > 0 then size == CheckpointOf(d.store).value.chunkSize
      else FreshLimit(size, Wanted(d.store, preferred))
    requires Delivers(c, key, plain, size, Next(d.store), total, msgs)
    ensures var a := Attempt([Metadata(|plain|, size, total)] + msgs + [AesKey(key), TransferComplete], NoCrash, preferred);
      var e := Step(c, d, a);
      e.outcome == Done(|plain|) && e.disk == Disk(EMPTY, Some(plain))
  {
    hide Good, Session, HintOf, Plaintext, Delivers, ShapeOk, Receive, Written, Initialized, StartChunk, DivCeil, Negotiated;
    var m := Metadata(|plain|, size, total);
    var tail := [AesKey(key), TransferComplete];
    PlanKeeps(c, key, plain, d.store, preferred);
    var (store, offset, maxChunk) := Planned(d.store, preferred);
    assert d.(store := store) == d;
    ResumeNegotiates(c, key, plain, d.store, m, preferred);
    EmptyGood(c, key, plain);
    var prepared := if offset == 0 then EMPTY else d.store;
    var cp := Checkpoint(|plain|, size, total, Next(d.store));
    ReadyStore(c, key, plain, d.store, prepared, cp);
    var ready := Initialized(prepared, cp).0;
    DeliveryDecrypts(c, key, plain, ready, cp, msgs, tail);
    SessionUnfolds(c, d, offset, maxChunk, m, msgs, tail, cp, ready);
  }

  lemma DeliveryDecrypts(c: Aead, key: Bytes, plain: Bytes, ready: Tables, cp: Checkpoint, msgs: seq<Message>,
      tail: seq<Message>)
    requires Lawful(c) && Good(c, key, plain, ready) && ready.row.Some? && CheckpointOf(ready) == Some(cp)
    requires cp.nextChunk <= cp.totalChunks && tail == [AesKey(key), TransferComplete]
    requires Delivers(c, key, plain, cp.chunkSize, cp.nextChunk, cp.totalChunks, msgs)
    ensures var got := Receive(ready, cp.nextChunk, cp.totalChunks, msgs + tail);
      && got.complete && got.rest == tail && AllThere(got.store, cp.totalChunks)
      && Plaintext(c, key, got.store.chunks, cp.totalChunks) == Some(plain)
      && Written(c, key, got.store.chunks, cp.totalChunks) == plain
  {
    hide Good, Plaintext, Delivers, Receive, Written;
    ReceivesDelivered(c, key, plain, ready, cp, msgs, tail);
    DeliveredHonest(c, key, plain, cp, msgs, tail);
    ReceiveKeeps(c, key, plain, ready, cp, msgs + tail);
    var got := Receive(ready, cp.nextChunk, cp.totalChunks, msgs + tail);
    DecryptsAll(c, key, plain, got.store);
    WrittenWhole(c, key, got.store.chunks, cp.totalChunks);
  }

  /** The chunk sizes a client may ask for that starts afresh: the preferred one, kept within the two bounds. */
  predicate FreshLimit(size: U32, preferred: U32) {
    (size <= preferred || size <= MIN_CHUNK) && size <= MAX_CHUNK
  }

  /** A chunk size once chosen takes the place of the preferred one. */
  function Wanted(t: Tables, preferred: U32): U32 {
    match CheckpointOf(t) case Some(cp) => cp.chunkSize case None => preferred
  }

  /** The plan's limit is one the session allows, and allows exactly the sizes within the bounds up to the wanted one. */
  lemma PlanLimit(t: Tables, preferred: U32)
    requires Consistent(t)
    ensures MIN_CHUNK <= Planned(t, preferred).2 <= MAX_CHUNK
    ensures forall size: U32 :: size <= Planned(t, preferred).2 <==> FreshLimit(size, Wanted(t, preferred))
  {
    hide ShapeOk, PrefixOk, ResumeOffset;
    ConsistentHint(t);
  }

  /** A store that does not certify itself is discarded, and the download starts over with the preferred size. */
  lemma UnreadableStartsOver(t: Tables, preferred: U32)
    requires t.row.Some? && !Consistent(t)
    ensures Planned(t, preferred) == (EMPTY, 0, Planned(EMPTY, preferred).2)
  {
    hide ShapeOk, PrefixOk, ResumeOffset, StoredBytes;
    EmptyConsistent();
    if HintOf(t).Ok? && HintOf(t).value.Some? {
      HintCertifies(t);
    }
  }

  /**
   * Whatever the user prefers by now, a started download is resumed so that the stored metadata is accepted
   * again: the limit allows the stored chunk size, and the offset leads to the next chunk.
   */
  lemma PlanPasses(c: Aead, key: Bytes, plain: Bytes, t: Tables, preferred: U32)
    requires Good(c, key, plain, t) && Next(t) > 0
    ensures var cp := CheckpointOf(t).value; var (store, offset, limit) := Planned(t, preferred);
      var m := Metadata(cp.fileSize, cp.chunkSize, cp.totalChunks);
      && store == t && offset == ResumeOffset(cp) && cp.chunkSize <= limit
      && Negotiated(offset, limit, m) && StartChunk(offset, m) == cp.nextChunk
  {
    hide PrefixOk, SealedRow, ResumeOffset;
    var cp := CheckpointOf(t).value;
    ConsistentHint(t);
    ConsistentShape(t);
    DivCeilBounds(cp.fileSize, cp.chunkSize);
    ResumePasses(cp, Clamp(cp.chunkSize));
  }

  lemma ResumeNegotiates(c: Aead, key: Bytes, plain: Bytes, t: Tables, m: Message, preferred: U32)
    requires Good(c, key, plain, t) && m.Metadata? && m.fileSize == |plain| > 0
    requires 0 < m.chunkSize && m.totalChunks == DivCeil(|plain|, m.chunkSize)
    requires if Next(t) > 0 then m.chunkSize == CheckpointOf(t).value.chunkSize
      else FreshLimit(m.chunkSize, Wanted(t, preferred))
    ensures var (_, offset, maxChunk) := Planned(t, preferred);
      Negotiated(offset, maxChunk, m) && StartChunk(offset, m) == Next(t) && Next(t) <= m.totalChunks
      && m.chunkSize <= MAX_CHUNK
  {
    hide PrefixOk, SealedRow, ResumeOffset, Negotiated, StartChunk;
    ConsistentHint(t);
    PlanLimit(t, preferred);
    if Next(t) > 0 {
      PlanPasses(c, key, plain, t, preferred);
      StoredTotal(t);
    } else {
      PlanKeeps(c, key, plain, t, preferred);
      FreshNegotiates(Planned(t, preferred).2, m);
    }
  }

  lemma StoredTotal(t: Tables)
    requires Consistent(t) && t.row.Some?
    ensures var cp := CheckpointOf(t).value;
      cp.chunkSize > 0 && cp.nextChunk <= cp.totalChunks == DivCeil(cp.fileSize, cp.chunkSize)
  {
    ConsistentShape(t);
  }

  lemma FreshNegotiates(limit: U32, m: Message)
    requires MIN_CHUNK <= limit <= MAX_CHUNK && m.Metadata? && m.fileSize > 0 && 0 < m.chunkSize <= limit
    requires m.totalChunks == DivCeil(m.fileSize, m.chunkSize)
    ensures Negotiated(0, limit, m) && StartChunk(0, m) == 0
  {
  }

  lemma ReadyStore(c: Aead, key: Bytes, plain: Bytes, t: Tables, prepared: Tables, cp: Checkpoint)
    requires Good(c, key, plain, t) && cp.fileSize == |plain| && |plain| < I64_END && cp.chunkSize <= MAX_CHUNK
    requires cp.chunkSize > 0 && cp.totalChunks == DivCeil(|plain|, cp.chunkSize) && cp.nextChunk == Next(t) <= cp.totalChunks
    requires Next(t) > 0 ==> cp.chunkSize == CheckpointOf(t).value.chunkSize
    requires prepared == t || (prepared == EMPTY && Next(t) == 0)
    requires prepared == t ==> Next(t) > 0 || t == EMPTY
    ensures var (ready, r) := Initialized(prepared, cp);
      r == Ok(cp) && Good(c, key, plain, ready) && ready.row.Some? && CheckpointOf(ready) == Some(cp)
  {
    hide SealedRow, ResumeOffset, ExpectedLength;
    EmptyGood(c, key, plain);
    InitializedGood(c, key, plain, prepared, cp);
    if prepared != EMPTY {
      ResumeInitializes(t);
    }
  }

  lemma DeliveredHonest(c: Aead, key: Bytes, plain: Bytes, cp: Checkpoint, msgs: seq<Message>, tail: seq<Message>)
    requires Delivers(c, key, plain, cp.chunkSize, cp.nextChunk, cp.totalChunks, msgs) && tail == [AesKey(key), TransferComplete]
    ensures forall j :: 0 <= j < |msgs + tail| ==> HonestMessage(c, key, plain, cp.chunkSize, (msgs + tail)[j])
  {
    hide SealedRow;
  }

  /** The session's definition, unfolded along the successful path. */
  lemma SessionUnfolds(c: Aead, d: Disk, offset: U64, maxChunk: U32, m: Message, msgs: seq<Message>, tail: seq<Message>,
                       cp: Checkpoint, ready: Tables)
    requires Negotiated(offset, maxChunk, m) && m.fileSize > 0 && StartChunk(offset, m) == cp.nextChunk <= m.totalChunks
    requires cp == Checkpoint(m.fileSize, m.chunkSize, m.totalChunks, cp.nextChunk)
    requires Initialized(if offset == 0 then EMPTY else d.store, cp) == (ready, Ok(cp))
    requires var got := Receive(ready, cp.nextChunk, m.totalChunks, msgs + tail);
      got.complete && got.rest == tail && AllThere(got.store, m.totalChunks)
    requires |tail| == 2 && tail[0].AesKey? && |tail[0].key| == KEY_LEN && tail[1].TransferComplete?
    requires var got := Receive(ready, cp.nextChunk, m.totalChunks, msgs + tail);
      var p := Plaintext(c, tail[0].key, got.store.chunks, m.totalChunks);
      p.Some? && |p.value| == m.fileSize && Written(c, tail[0].key, got.store.chunks, m.totalChunks) == p.value
    ensures var got := Receive(ready, cp.nextChunk, m.totalChunks, msgs + tail);
      Session(c, d, offset, maxChunk, [m] + msgs + tail, NoCrash)
      == End(Disk(EMPTY, Plaintext(c, tail[0].key, got.store.chunks, m.totalChunks)), Done(m.fileSize), got.accepted)
  {
    hide Plaintext, Written, Receive, Initialized, StartChunk;
    var inbox := [m] + msgs + tail;
    assert inbox[1..] == msgs + tail;
  }

  /** A server that changes the file size or the chunk size on a started download is refused and nothing is lost. */
  lemma ChangedMetadataRefused(c: Aead, key: Bytes, plain: Bytes, d: Disk, a: Attempt)
    requires Good(c, key, plain, d.store) && Next(d.store) > 0 && a.crash == NoCrash
    requires a.inbox != [] && a.inbox[0].Metadata?
    requires a.inbox[0].fileSize != |plain| || a.inbox[0].chunkSize != CheckpointOf(d.store).value.chunkSize
    ensures Step(c, d, a) == End(d, Failed, [])
  {
    hide Receive, Complete, HintOf, SealedRow, PrefixOk, ResumeOffset, ShapeOk, StartChunk;
    PlanKeeps(c, key, plain, d.store, a.preferred);
    var (store, offset, maxChunk) := Planned(d.store, a.preferred);
    assert d.(store := store) == d;
    var m := a.inbox[0];
    if Negotiated(offset, maxChunk, m) {
      var start := StartChunk(offset, m);
      StartInWidth(offset, m);
      if start <= m.totalChunks {
        assert Initialized(d.store, Checkpoint(m.fileSize, m.chunkSize, m.totalChunks, start)) == (d.store, Err(Refused));
      }
    }
  }

  // ---- The client ----

  class Client {
    var db: ChunkDb
    var dest: Option<Bytes>

    constructor (t: Tables, dest: Option<Bytes>)
      ensures fresh(db) && db.Contents() == t && this.dest == dest
    {
      db := new ChunkDb.Open(t);
      this.dest := dest;
    }

    function OnDisk(): Disk
      reads this, db
    {
      Disk(db.Contents(), dest)
    }

    /** The receive loop, message by message. */
    method ReceiveChunks(start: nat, total: nat, inbox: seq<Message>)
      returns (complete: bool, rest: seq<Message>, accepted: seq<nat>)
      requires start <= total < U32_END
      modifies db
      ensures var got := Receive(old(db.Contents()), start, total, inbox);
        db.Contents() == got.store && complete == got.complete && rest == got.rest && accepted == got.accepted
      ensures dest == old(dest)
    {
      hide Recorded;
      var remaining := total - start;
      var received := 0;
      rest := inbox;
      accepted := [];
      while received < remaining
        invariant received <= remaining
        invariant Receive(old(db.Contents()), start, total, inbox) == Later(accepted, Receive(db.Contents(), start + received, total, rest))
      {
        if rest == [] || !Framed(rest[0]) || rest[0].index != start + received {
          return false, [], accepted;
        }
        var msg := rest[0];
        FailureChangesNothing(db.Contents(), msg.index, ChunkRow(msg.prefix, msg.tag, msg.data));
        var r := db.RecordChunk(msg.index, ChunkRow(msg.prefix, msg.tag, msg.data));
        if r.Err? {
          return false, [], accepted;
        }
        ghost var more := Receive(db.Contents(), start + received + 1, total, rest[1..]);
        assert accepted + ([start + received] + more.accepted) == (accepted + [start + received]) + more.accepted;
        accepted := accepted + [start + received];
        rest := rest[1..];
        received := received + 1;
      }
      assert accepted + [] == accepted;
      return true, rest, accepted;
    }

    /** Decrypts the stored chunks in order until one does not open. */
    method DecryptAll(c: Aead, key: Bytes, total: nat) returns (out: Bytes, ok: bool)
      requires total < U32_END && forall i :: i in db.chunks <==> 0 <= i < total
      ensures out == Written(c, key, db.chunks, total)
      ensures ok <==> Plaintext(c, key, db.chunks, total).Some?
    {
      hide DecryptChunk, Plaintext, Written;
      NoPlaintext(c, key, db.chunks);
      var rows := db.OrderedChunks();
      RowsInOrder(db.chunks, rows, total);
      out := [];
      for i := 0 to |rows|
        invariant Plaintext(c, key, db.chunks, i) == Some(out)
      {
        var text := DecryptChunk(c, key, rows[i].0, rows[i].1);
        if text.None? {
          StopsAt(c, key, db.chunks, total, i);
          return out, false;
        }
        PlaintextStep(c, key, db.chunks, i, out, text.value);
        out := out + text.value;
      }
      WrittenWhole(c, key, db.chunks, total);
      return out, true;
    }

    /** The key, the one pass of decryption into the destination, the acknowledgement, and the purge. */
    method CompleteTransfer(c: Aead, m: Message, inbox: seq<Message>, crash: CrashPoint,
        taken: seq<nat>) returns (outcome: Outcome)
      requires m.Metadata? && m.totalChunks < U32_END && forall i :: i in db.chunks <==> 0 <= i < m.totalChunks
      modifies this
      ensures End(OnDisk(), outcome, taken) == Complete(c, old(OnDisk()), m, inbox, crash, taken)
    {
      hide Written, Plaintext;
      if inbox == [] || !inbox[0].AesKey? || |inbox[0].key| != KEY_LEN { return Failed; }
      var out, ok := DecryptAll(c, inbox[0].key, m.totalChunks);
      if crash.WhileWriting? {
        dest := Some(out[..if crash.written <= |out| then crash.written else |out|]);
        return Died;
      }
      dest := Some(out);
      if !ok || |out| != m.fileSize { return Failed; }
      if |inbox| == 1 || !inbox[1].TransferComplete? { return Failed; }
      if crash == BeforePurge { return Died; }
      db := new ChunkDb.Open(EMPTY);
      if crash == AfterPurge { return Died; }
      return Done(m.fileSize);
    }

    /** `receive_with_resume`: `crash` says where the process dies, the end of `inbox` where the stream closes. */
    method ReceiveWithResume(c: Aead, offset: U64, maxChunk: U32, inbox: seq<Message>, crash: CrashPoint)
      returns (outcome: Outcome, accepted: seq<nat>)
      modifies this, db
      ensures End(OnDisk(), outcome, accepted) == Session(c, old(OnDisk()), offset, maxChunk, inbox, crash)
    {
      hide Receive, Complete, StartChunk, Initialized;
      accepted := [];
      if inbox == [] || !Negotiated(offset, maxChunk, inbox[0]) { return Failed, []; }
      var m, rest := inbox[0], inbox[1..];
      if m.fileSize == 0 {
        if rest == [] || !rest[0].EmptyFile? { return Failed, []; }
        dest := Some([]);
        if |rest| < 2 || !rest[1].TransferComplete? { return Failed, []; }
        return Done(0), [];
      }
      if offset == 0 {
        db := new ChunkDb.Open(EMPTY);
      }
      if crash == AfterPrepare { return Died, []; }
      var start := StartChunk(offset, m);
      if start > m.totalChunks { return Failed, []; }
      StartInWidth(offset, m);
      var r := db.InitializeCheckpoint(Checkpoint(m.fileSize, m.chunkSize, m.totalChunks, start));
      if r.Err? { return Failed, []; }
      if crash == AfterInitialize { return Died, []; }
      ghost var ready := db.Contents();
      var complete, tail, taken := ReceiveChunks(start, m.totalChunks, rest);
      if !complete { return Failed, taken; }
      ReceivedAll(ready, start, m.totalChunks, rest);
      InitializedKeys(if offset == 0 then EMPTY else old(db.Contents()), Checkpoint(m.fileSize, m.chunkSize, m.totalChunks, start));
      ReceivedExactly(ready, start, m.totalChunks, rest);
      outcome := CompleteTransfer(c, m, tail, crash, taken);
      accepted := taken;
    }
  }

  /** A reception with earlier acceptances put in front. */
  function Later(before: seq<nat>, r: Received): Received {
    r.(accepted := before + r.accepted)
  }

  /** Sorted rows over exactly the indices `0..total` are those indices in turn. */
  lemma RowsInOrder(chunks: map<int, ChunkRow>, rows: seq<(int, ChunkRow)>, total: nat)
    requires forall i :: i in chunks <==> 0 <= i < total
    requires forall i, j :: 0 <= i < j < |rows| ==> rows[i].0 < rows[j].0
    requires forall i :: 0 <= i < |rows| ==> rows[i].0 in chunks && chunks[rows[i].0] == rows[i].1
    requires forall k :: k in chunks ==> exists i :: 0 <= i < |rows| && rows[i].0 == k
    ensures |rows| == total && forall i :: 0 <= i < |rows| ==> rows[i].0 == i
  {
    forall i | 0 <= i < |rows| ensures rows[i].0 >= i {
      KeysGrow(rows, i);
    }
    assert |rows| > 0 ==> rows[|rows| - 1].0 in chunks;
    RowsFrom(chunks, rows, total, 0);
  }

  lemma {:induction false} KeysGrow(rows: seq<(int, ChunkRow)>, i: nat)
    requires i < |rows| && forall i, j :: 0 <= i < j < |rows| ==> rows[i].0 < rows[j].0
    requires forall i :: 0 <= i < |rows| ==> rows[i].0 >= 0
    ensures rows[i].0 >= i
  {
    if i > 0 {
      KeysGrow(rows, i - 1);
      assert rows[i - 1].0 < rows[i].0;
    }
  }

  lemma {:induction false} RowsFrom(chunks: map<int, ChunkRow>, rows: seq<(int, ChunkRow)>, total: nat, n: nat)
    requires forall i :: i in chunks <==> 0 <= i < total
    requires forall i, j :: 0 <= i < j < |rows| ==> rows[i].0 < rows[j].0
    requires forall i :: 0 <= i < |rows| ==> rows[i].0 >= i
    requires forall k :: k in chunks ==> exists i :: 0 <= i < |rows| && rows[i].0 == k
    requires |rows| <= total && n <= |rows| && forall i :: 0 <= i < n ==> rows[i].0 == i
    ensures |rows| == total && forall i :: 0 <= i < |rows| ==> rows[i].0 == i
    decreases total - n
  {
    if n < total {
      assert n in chunks;
      var i :| 0 <= i < |rows| && rows[i].0 == n;
      assert i >= n;
      assert rows[n].0 <= rows[i].0;
      RowsFrom(chunks, rows, total, n + 1);
    }
  }

  lemma {:induction false} StopsAt(c: Aead, key: Bytes, chunks: map<int, ChunkRow>, total: nat, i: nat)
    requires i < total < U32_END && forall k :: 0 <= k < total ==> k in chunks
    requires Plaintext(c, key, chunks, i).Some? && DecryptChunk(c, key, i, chunks[i]).None?
    ensures Plaintext(c, key, chunks, total).None?
    ensures Written(c, key, chunks, total) == Plaintext(c, key, chunks, i).value
    decreases total
  {
    hide DecryptChunk;
    if total == i + 1 {
      assert Written(c, key, chunks, total) == Written(c, key, chunks, i);
      WrittenWhole(c, key, chunks, i);
    } else {
      StopsAt(c, key, chunks, total - 1, i);
    }
  }

  lemma FailureChangesNothing(t: Tables, idx: U32, chunk: ChunkRow)
    ensures Recorded(t, idx, chunk).1.Err? ==> Recorded(t, idx, chunk).0 == t
  {
  }

  /** A checkpoint is taken up only over exactly the chunks it stands for. */
  lemma InitializedKeys(t: Tables, cp: Checkpoint)
    ensures Initialized(t, cp).1.Ok? ==> forall i :: i in Initialized(t, cp).0.chunks <==> 0 <= i < cp.nextChunk
  {
    hide ShapeOk, ExpectedLength;
  }

  /** After a complete reception nothing else is stored either. */
  lemma ReceivedExactly(store: Tables, next: nat, total: nat, inbox: seq<Message>)
    requires next <= total < U32_END && (forall i :: i in store.chunks <==> 0 <= i < next)
    ensures var got := Receive(store, next, total, inbox);
      got.complete ==> forall i :: i in got.store.chunks <==> 0 <= i < total
    decreases total - next
  {
    if next < total && inbox != [] && Framed(inbox[0]) && inbox[0].index == next {
      var (store', r) := Recorded(store, next, ChunkRow(inbox[0].prefix, inbox[0].tag, inbox[0].data));
      if r.Ok? {
        ReceivedExactly(store', next + 1, total, inbox[1..]);
      }
    }
  }
}
