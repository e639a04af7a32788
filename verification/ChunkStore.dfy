/**
 * The durable store of encrypted chunks: one row per chunk and a single checkpoint row,
 * with the integer widths of the columns and of the code that reads them.
 */
module ChunkStore {
  import opened Arithmetic
  import opened Outcomes

  const I64_END := 0x8000_0000_0000_0000
  const SCHEMA_VERSION := 1

  datatype ChunkRow = ChunkRow(prefix: seq<Byte>, tag: seq<Byte>, data: seq<Byte>)

  /** The checkpoint row as stored; its columns hold any integer. */
  datatype CheckpointRow = CheckpointRow(version: int, fileSize: int, chunkSize: int, totalChunks: int, nextChunk: int)

  datatype Checkpoint = Checkpoint(fileSize: U64, chunkSize: U32, totalChunks: U32, nextChunk: U32)

  datatype ResumeHint = ResumeHint(offset: U64, chunkSize: U32)

  /** The two tables. */
  datatype Tables = Tables(chunks: map<int, ChunkRow>, row: Option<CheckpointRow>)

  const EMPTY := Tables(map[], None)

  function Min(a: int, b: int): int { if a <= b then a else b }

  function DivCeil(a: nat, b: nat): nat
    requires b > 0
  {
    a / b + (if a % b == 0 then 0 else 1)
  }

  // ---- Pure parts of the code ----

  /** Both factors fit 32 bits, so the 64-bit product does not wrap. */
  function ResumeOffset(cp: Checkpoint): (r: U64)
    ensures r <= cp.fileSize
  {
    MulMono(0, cp.nextChunk, cp.chunkSize);
    Min(cp.nextChunk * cp.chunkSize, cp.fileSize)
  }

  predicate ShapeOk(cp: Checkpoint) {
    cp.chunkSize != 0 && cp.nextChunk <= cp.totalChunks && DivCeil(cp.fileSize, cp.chunkSize) == cp.totalChunks
  }

  /** The length chunk `index` must have; the subtraction wraps, as unsigned 64-bit arithmetic does. */
  function ExpectedLength(cp: Checkpoint, index: U32): Result<U32> {
    if index >= cp.totalChunks then Err(Refused)
    else
      var rest := (cp.fileSize - index * cp.chunkSize) % U64_END;
      Ok(Min(rest, cp.chunkSize))
  }

  predicate InU32(x: int) { 0 <= x < U32_END }

  function ReadCheckpoint(t: Tables): Result<Option<Checkpoint>> {
    match t.row
    case None => Ok(None)
    case Some(r) =>
      if r.version != SCHEMA_VERSION || !(0 <= r.fileSize < I64_END) then Err(Refused)
      else if !InU32(r.chunkSize) || !InU32(r.totalChunks) || !InU32(r.nextChunk) then Err(Refused)
      else Ok(Some(Checkpoint(r.fileSize, r.chunkSize, r.totalChunks, r.nextChunk)))
  }

  function RowOf(cp: Checkpoint): CheckpointRow {
    CheckpointRow(SCHEMA_VERSION, cp.fileSize, cp.chunkSize, cp.totalChunks, cp.nextChunk)
  }

  // ---- What the store should contain ----

  /** The stored indices are exactly those below `nextChunk`, and each chunk has its expected length. */
  predicate PrefixOk(chunks: map<int, ChunkRow>, cp: Checkpoint) {
    && (forall i :: i in chunks ==> 0 <= i < cp.nextChunk)
    && (forall i :: 0 <= i < cp.nextChunk ==> i in chunks && ExpectedLength(cp, i) == Ok(|chunks[i].data|))
  }

  function StoredBytes(chunks: map<int, ChunkRow>, n: nat): nat
    requires forall i :: 0 <= i < n ==> i in chunks
  {
    if n == 0 then 0 else StoredBytes(chunks, n - 1) + |chunks[n - 1].data|
  }

  /** No checkpoint and no chunks, or a well-formed checkpoint and exactly the chunks it stands for. */
  ghost predicate Consistent(t: Tables) {
    match t.row
    case None => t.chunks == map[]
    case Some(_) =>
      var r := ReadCheckpoint(t);
      r.Ok? && r.value.Some? && ShapeOk(r.value.value) && PrefixOk(t.chunks, r.value.value)
      && StoredBytes(t.chunks, r.value.value.nextChunk) == ResumeOffset(r.value.value)
  }

  // ---- The operations as functions of the tables ----

  function HintOf(t: Tables): Result<Option<ResumeHint>> {
    match ReadCheckpoint(t)
    case Err(_) => Err(Refused)
    case Ok(None) => Ok(None)
    case Ok(Some(cp)) =>
      if ShapeOk(cp) && PrefixOk(t.chunks, cp) then Ok(Some(ResumeHint(ResumeOffset(cp), cp.chunkSize))) else Err(Refused)
  }

  function Initialized(t: Tables, expected: Checkpoint): (Tables, Result<Checkpoint>) {
    if !ShapeOk(expected) then (t, Err(Refused))
    else
      match ReadCheckpoint(t)
      case Err(_) => (t, Err(Refused))
      case Ok(Some(existing)) =>
        (t, if existing == expected && PrefixOk(t.chunks, existing) then Ok(existing) else Err(Refused))
      case Ok(None) =>
        if !PrefixOk(t.chunks, expected) || expected.fileSize >= I64_END then (t, Err(Refused))
        else (t.(row := Some(RowOf(expected))), Ok(expected))
  }

  function Recorded(t: Tables, idx: U32, chunk: ChunkRow): (Tables, Result<Checkpoint>) {
    match ReadCheckpoint(t)
    case Err(_) => (t, Err(Refused))
    case Ok(None) => (t, Err(Refused))
    case Ok(Some(cp)) =>
      if idx != cp.nextChunk || idx >= cp.totalChunks then (t, Err(Refused))
      else if ExpectedLength(cp, idx) != Ok(|chunk.data|) then (t, Err(Refused))
      else if idx in t.chunks then (t, Err(Refused))
      else
        var next := cp.(nextChunk := idx + 1);
        (Tables(t.chunks[idx := chunk], Some(t.row.value.(nextChunk := idx + 1))), Ok(next))
  }

  // ---- Arithmetic of the prefix ----

  lemma DivCeilBounds(a: nat, b: nat)
    requires b > 0
    ensures a <= DivCeil(a, b) * b < a + b
    ensures DivCeil(a, b) > 0 <==> a > 0
  {
    var q, r := a / b, a % b;
    assert a == b * q + r;
    assert (q + 1) * b == q * b + b;
    if q < 0 {
      MulMono(q, -1, b);
    } else if q > 0 {
      MulMono(1, q, b);
    }
  }

  /** A chunk below the total starts inside the file, so its length does not wrap. */
  lemma ChunkStartsInside(cp: Checkpoint, index: U32)
    requires ShapeOk(cp) && index < cp.totalChunks
    ensures 0 <= index * cp.chunkSize < cp.fileSize
    ensures ExpectedLength(cp, index) == Ok(Min(cp.fileSize - index * cp.chunkSize, cp.chunkSize))
    ensures ExpectedLength(cp, index).value > 0
  {
    DivCeilBounds(cp.fileSize, cp.chunkSize);
    MulMono(index + 1, cp.totalChunks, cp.chunkSize);
    MulMono(0, index, cp.chunkSize);
    assert (index + 1) * cp.chunkSize == index * cp.chunkSize + cp.chunkSize;
  }

  /** Storing the next chunk moves the resume offset on by exactly that chunk's length. */
  lemma OffsetAdvances(cp: Checkpoint)
    requires ShapeOk(cp) && cp.nextChunk < cp.totalChunks
    ensures ExpectedLength(cp, cp.nextChunk).Ok?
    ensures ResumeOffset(cp.(nextChunk := cp.nextChunk + 1)) == ResumeOffset(cp) + ExpectedLength(cp, cp.nextChunk).value
  {
    ChunkStartsInside(cp, cp.nextChunk);
    assert (cp.nextChunk + 1) * cp.chunkSize == cp.nextChunk * cp.chunkSize + cp.chunkSize;
  }

  /** A validated prefix holds exactly as many bytes as the resume offset says. */
  lemma {:induction false} PrefixBytes(chunks: map<int, ChunkRow>, cp: Checkpoint, n: U32)
    requires ShapeOk(cp) && n <= cp.nextChunk && PrefixOk(chunks, cp)
    ensures StoredBytes(chunks, n) == ResumeOffset(cp.(nextChunk := n))
    decreases n
  {
    if n > 0 {
      PrefixBytes(chunks, cp, n - 1);
      var before := cp.(nextChunk := n - 1);
      OffsetAdvances(before);
      assert ExpectedLength(before, n - 1) == ExpectedLength(cp, n - 1);
    }
  }

  // ---- The invariant ----

  /** A hint from any contents whatever certifies them. */
  lemma HintCertifies(t: Tables)
    requires HintOf(t).Ok? && HintOf(t).value.Some?
    ensures Consistent(t)
    ensures var h := HintOf(t).value.value; var cp := ReadCheckpoint(t).value.value;
      h.offset == StoredBytes(t.chunks, cp.nextChunk) && h.chunkSize == cp.chunkSize
  {
    hide ShapeOk, ExpectedLength, ResumeOffset;
    var cp := ReadCheckpoint(t).value.value;
    PrefixBytes(t.chunks, cp, cp.nextChunk);
    assert cp.(nextChunk := cp.nextChunk) == cp;
  }

  /** Consistent contents always yield a hint, or none when there is no checkpoint. */
  lemma ConsistentHint(t: Tables)
    requires Consistent(t)
    ensures HintOf(t).Ok? && (HintOf(t).value.Some? <==> t.row.Some?)
  {
    hide ShapeOk, PrefixOk, ResumeOffset;
  }

  lemma EmptyConsistent()
    ensures Consistent(EMPTY)
  {
  }

  lemma InitializeKeeps(t: Tables, expected: Checkpoint)
    requires Consistent(t)
    ensures Consistent(Initialized(t, expected).0)
    ensures Initialized(t, expected).1.Ok? ==> ReadCheckpoint(Initialized(t, expected).0) == Ok(Some(expected))
  {
    hide ShapeOk, ExpectedLength, ResumeOffset;
    var (t', r) := Initialized(t, expected);
    if t.row.None? && r.Ok? {
      PrefixBytes(t'.chunks, expected, expected.nextChunk);
      assert expected.(nextChunk := expected.nextChunk) == expected;
    }
  }

  lemma RecordKeeps(t: Tables, idx: U32, chunk: ChunkRow)
    requires Consistent(t)
    ensures Consistent(Recorded(t, idx, chunk).0)
  {
    hide ResumeOffset;
    var (t', r) := Recorded(t, idx, chunk);
    if r.Ok? {
      var cp := ReadCheckpoint(t).value.value;
      var next := cp.(nextChunk := idx + 1);
      assert ReadCheckpoint(t') == Ok(Some(next));
      assert forall i: U32 :: ExpectedLength(next, i) == ExpectedLength(cp, i);
      assert PrefixOk(t'.chunks, next);
      PrefixBytes(t'.chunks, next, next.nextChunk);
      assert next.(nextChunk := next.nextChunk) == next;
    }
  }

  /** Exactly which chunk a consistent store accepts: the next one, at its expected length. */
  lemma RecordAcceptsNext(t: Tables, idx: U32, chunk: ChunkRow)
    requires Consistent(t)
    ensures Recorded(t, idx, chunk).1.Ok? <==>
      t.row.Some? && var cp := ReadCheckpoint(t).value.value;
        idx == cp.nextChunk < cp.totalChunks
        && |chunk.data| == Min(cp.fileSize - idx * cp.chunkSize, cp.chunkSize)
    ensures Recorded(t, idx, chunk).1.Err? ==> Recorded(t, idx, chunk).0 == t
  {
    if t.row.Some? {
      var cp := ReadCheckpoint(t).value.value;
      if idx < cp.totalChunks {
        ChunkStartsInside(cp, idx);
      }
    }
  }

  /** One call on the store; a crash around its transaction leaves the tables as if it had not been made. */
  datatype Call = Initialize(expected: Checkpoint) | Record(idx: U32, chunk: ChunkRow) | Crashed

  function After(t: Tables, call: Call): Tables {
    match call
    case Initialize(expected) => Initialized(t, expected).0
    case Record(idx, chunk) => Recorded(t, idx, chunk).0
    case Crashed => t
  }

  function AfterAll(t: Tables, calls: seq<Call>): Tables {
    if calls == [] then t else After(AfterAll(t, calls[..|calls| - 1]), calls[|calls| - 1])
  }

  /** Every state reachable from an empty store, failed calls and crashes included, is consistent. */
  lemma {:induction false} ReachableConsistent(calls: seq<Call>)
    ensures Consistent(AfterAll(EMPTY, calls))
  {
    if calls != [] {
      ReachableConsistent(calls[..|calls| - 1]);
      var t := AfterAll(EMPTY, calls[..|calls| - 1]);
      match calls[|calls| - 1]
      case Initialize(expected) => InitializeKeeps(t, expected);
      case Record(idx, chunk) => RecordKeeps(t, idx, chunk);
      case Crashed =>
    }
  }

  // ---- The store ----

  class ChunkDb {
    var chunks: map<int, ChunkRow>
    var row: Option<CheckpointRow>

    function Contents(): Tables
      reads this
    {
      Tables(chunks, row)
    }

    constructor Open(t: Tables)
      ensures Contents() == t
    {
      chunks := t.chunks;
      row := t.row;
    }

    /** Walks the rows in index order against a running count, as the query's cursor does. */
    method ValidateStoredPrefix(cp: Checkpoint) returns (ok: bool)
      requires ShapeOk(cp)
      ensures ok <==> PrefixOk(chunks, cp)
    {
      hide ExpectedLength, ShapeOk;
      var rest := chunks.Keys;
      var count: U32 := 0;
      while rest != {}
        invariant count <= cp.nextChunk && rest <= chunks.Keys
        invariant forall i :: i in chunks && i !in rest <==> 0 <= i < count
        invariant forall i :: 0 <= i < count ==> i in chunks && ExpectedLength(cp, i) == Ok(|chunks[i].data|)
        decreases rest
      {
        var index := Least(rest);
        var length := |chunks[index].data|;
        if !InU32(index) || !InU32(length) {
          WideLength(cp, index);
          return false;
        }
        var expected := ExpectedLength(cp, index);
        if expected.Err? {
          TooFar(cp, index);
          return false;
        }
        assert index >= count && (index > count ==> count !in chunks);
        if index != count || index >= cp.nextChunk || length != expected.value {
          return false;
        }
        rest := rest - {index};
        count := count + 1;
      }
      assert forall i :: i in chunks <==> 0 <= i < count;
      assert count !in chunks;
      return count == cp.nextChunk;
    }

    method ReadRow() returns (r: Result<Option<Checkpoint>>)
      ensures r == ReadCheckpoint(Contents())
    {
      return ReadCheckpoint(Contents());
    }

    method ReadResumeHint() returns (r: Result<Option<ResumeHint>>)
      ensures r == HintOf(Contents())
    {
      hide ExpectedLength, PrefixOk;
      var cp := ReadRow();
      if cp.Err? { return Err(Refused); }
      if cp.value.None? { return Ok(None); }
      if !ShapeOk(cp.value.value) { return Err(Refused); }
      var ok := ValidateStoredPrefix(cp.value.value);
      if !ok { return Err(Refused); }
      return Ok(Some(ResumeHint(ResumeOffset(cp.value.value), cp.value.value.chunkSize)));
    }

    method InitializeCheckpoint(expected: Checkpoint) returns (r: Result<Checkpoint>)
      modifies this
      ensures (Contents(), r) == Initialized(old(Contents()), expected)
    {
      hide ExpectedLength, PrefixOk;
      if !ShapeOk(expected) { return Err(Refused); }
      var existing := ReadRow();
      if existing.Err? { return Err(Refused); }
      if existing.value.Some? {
        if existing.value.value != expected { return Err(Refused); }
        var ok := ValidateStoredPrefix(expected);
        if !ok { return Err(Refused); }
        return Ok(expected);
      }
      var ok := ValidateStoredPrefix(expected);
      if !ok { return Err(Refused); }
      if expected.fileSize >= I64_END { return Err(Refused); }
      row := Some(RowOf(expected));
      return Ok(expected);
    }

    /** Both tables change in one transaction, or neither does. */
    method RecordChunk(idx: U32, chunk: ChunkRow) returns (r: Result<Checkpoint>)
      modifies this
      ensures (Contents(), r) == Recorded(old(Contents()), idx, chunk)
    {
      var found := ReadRow();
      if found.Err? || found.value.None? { return Err(Refused); }
      var cp := found.value.value;
      if idx != cp.nextChunk || idx >= cp.totalChunks { return Err(Refused); }
      var expected := ExpectedLength(cp, idx);
      if expected.Err? || |chunk.data| != expected.value { return Err(Refused); }
      if idx in chunks { return Err(Refused); }
      chunks := chunks[idx := chunk];
      row := Some(row.value.(nextChunk := idx + 1));
      return Ok(cp.(nextChunk := idx + 1));
    }

    /** The chunks in index order. */
    method OrderedChunks() returns (out: seq<(int, ChunkRow)>)
      ensures forall i, j :: 0 <= i < j < |out| ==> out[i].0 < out[j].0
      ensures forall i :: 0 <= i < |out| ==> out[i].0 in chunks && chunks[out[i].0] == out[i].1
      ensures forall k :: k in chunks ==> exists i :: 0 <= i < |out| && out[i].0 == k
    {
      out := [];
      var rest := chunks.Keys;
      while rest != {}
        invariant rest <= chunks.Keys
        invariant forall i, j :: 0 <= i < j < |out| ==> out[i].0 < out[j].0
        invariant forall i :: 0 <= i < |out| ==> out[i].0 in chunks && chunks[out[i].0] == out[i].1
        invariant forall k :: k in chunks && k !in rest ==> exists i :: 0 <= i < |out| && out[i].0 == k
        invariant forall i, k :: 0 <= i < |out| && k in rest ==> out[i].0 < k
        decreases rest
      {
        var index := Least(rest);
        ghost var before := out;
        out := out + [(index, chunks[index])];
        rest := rest - {index};
        assert out[|before|].0 == index;
        assert forall i :: 0 <= i < |before| ==> out[i] == before[i];
      }
    }
  }

  lemma Inhabited(s: set<int>)
    ensures s == {} || exists x :: x in s
  {
    if !exists x :: x in s {
      assert s == {};
    }
  }

  /** The smallest key. */
  method Least(s: set<int>) returns (m: int)
    requires s != {}
    ensures m in s && forall x :: x in s ==> m <= x
  {
    Inhabited(s);
    var first: int :| first in s;
    m := first;
    var rest := s - {m};
    while rest != {}
      invariant m in s && rest <= s && forall x :: x in s && x !in rest ==> m <= x
      decreases rest
    {
      Inhabited(rest);
      var x: int :| x in rest;
      if x < m { m := x; }
      rest := rest - {x};
    }
  }

  /** A row beyond 32 bits, in index or length, is in no valid prefix. */
  lemma WideLength(cp: Checkpoint, index: int)
    ensures InU32(index) && ExpectedLength(cp, index).Ok? ==> InU32(ExpectedLength(cp, index).value)
    ensures !InU32(index) ==> !(0 <= index < cp.nextChunk)
  {
  }

  lemma TooFar(cp: Checkpoint, index: U32)
    requires ShapeOk(cp) && ExpectedLength(cp, index).Err?
    ensures index >= cp.nextChunk
  {
  }
}
