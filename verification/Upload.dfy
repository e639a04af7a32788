/** The resumable upload: negotiation checks, and the loop that sends the file in protocol chunks. */
module Upload {
  import opened Arithmetic
  import opened Outcomes

  const CLIENT_MAX_CHUNK := 64 * 1024

  datatype Negotiation = Negotiation(action: string, fileSize: nat, chunkSize: nat, offset: nat, supportsResume: bool)

  predicate Acceptable(n: Negotiation, expectedSize: nat, maxChunk: nat) {
    && n.action == "transfer_file"
    && n.fileSize == expectedSize
    && 0 < n.chunkSize <= maxChunk
    && n.offset <= expectedSize
    && (n.offset > 0 ==> n.supportsResume)
    && (n.offset == expectedSize || n.offset % n.chunkSize == 0)
  }

  method ValidateNegotiation(n: Negotiation, expectedSize: nat, maxChunk: nat) returns (ok: bool)
    ensures ok <==> Acceptable(n, expectedSize, maxChunk)
  {
    if n.action != "transfer_file" { return false; }
    if n.fileSize != expectedSize { return false; }
    if n.chunkSize == 0 || n.chunkSize > maxChunk { return false; }
    if n.offset > expectedSize { return false; }
    if n.offset > 0 && !n.supportsResume { return false; }
    if n.offset != expectedSize && n.offset % n.chunkSize != 0 { return false; }
    return true;
  }

  // ---- The stream ----

  function Joined(payloads: seq<Bytes>): Bytes {
    if payloads == [] then [] else Joined(payloads[..|payloads| - 1]) + payloads[|payloads| - 1]
  }

  /** Non-empty payloads, all but the last of the chunk size and the last no longer. */
  predicate WellCut(payloads: seq<Bytes>, size: nat) {
    && (forall i :: 0 <= i < |payloads| ==> 0 < |payloads[i]| <= size)
    && (forall i :: 0 <= i < |payloads| - 1 ==> |payloads[i]| == size)
  }

  function Boundary(payloads: seq<Bytes>, offset: nat, i: nat): nat
    requires i <= |payloads|
  {
    offset + |Joined(payloads[..i])|
  }

  lemma {:induction false} BoundaryMultiple(payloads: seq<Bytes>, size: nat, offset: nat, i: nat)
    requires size > 0 && WellCut(payloads, size) && offset % size == 0 && i < |payloads|
    ensures Boundary(payloads, offset, i) == offset + i * size
    ensures Boundary(payloads, offset, i) % size == 0
  {
    if i > 0 {
      BoundaryMultiple(payloads, size, offset, i - 1);
      assert payloads[..i][..i - 1] == payloads[..i - 1];
      assert i * size == (i - 1) * size + size;
      var q := (offset + (i - 1) * size) / size;
      assert (q + 1) * size == q * size + size;
      DivModUnique(offset + i * size, size, q + 1, 0);
    } else {
      assert payloads[..0] == [];
    }
  }

  predicate AllFull(payloads: seq<Bytes>, size: nat) {
    forall i :: 0 <= i < |payloads| ==> |payloads[i]| == size
  }

  lemma NothingCut(size: nat)
    ensures WellCut([], size) && AllFull([], size) && Joined([]) == []
  {
  }

  lemma OneMore(payloads: seq<Bytes>, chunk: Bytes, size: nat)
    requires WellCut(payloads, size) && AllFull(payloads, size) && 0 < |chunk| <= size
    ensures WellCut(payloads + [chunk], size) && Joined(payloads + [chunk]) == Joined(payloads) + chunk
    ensures |chunk| == size ==> AllFull(payloads + [chunk], size)
  {
    assert (payloads + [chunk])[..|payloads|] == payloads;
  }

  /** What is sent from byte `sent` on: full chunks, then the rest, as long as the file still has them. */
  function PayloadsFrom(n: Negotiation, source: Bytes, sent: nat): seq<Bytes>
    requires n.chunkSize > 0
    decreases n.fileSize - sent
  {
    if sent >= n.fileSize then []
    else
      var end := if n.fileSize - sent <= n.chunkSize then n.fileSize else sent + n.chunkSize;
      if end > |source| then [] else [source[sent..end]] + PayloadsFrom(n, source, end)
  }

  function Payloads(n: Negotiation, source: Bytes): seq<Bytes>
    requires n.chunkSize > 0
  {
    PayloadsFrom(n, source, n.offset)
  }

  lemma SentStep(n: Negotiation, source: Bytes, sent: nat, before: seq<Bytes>)
    requires n.chunkSize > 0 && sent < n.fileSize
    ensures var end := if n.fileSize - sent <= n.chunkSize then n.fileSize else sent + n.chunkSize;
      before + PayloadsFrom(n, source, sent)
        == if end > |source| then before else (before + [source[sent..end]]) + PayloadsFrom(n, source, end)
  {
    hide Joined;
  }

  lemma SentAll(n: Negotiation, source: Bytes, sent: nat, before: seq<Bytes>)
    requires n.chunkSize > 0 && sent >= n.fileSize
    ensures before + PayloadsFrom(n, source, sent) == before
  {
  }

  /**
   * The sending loop. `source` is what the file holds when it is read, which may be less than it was when
   * its size was announced. On success the payloads spell exactly the part of the file still owed.
   */
  method SendChunks(n: Negotiation, source: Bytes) returns (payloads: seq<Bytes>, r: Result<nat>)
    requires Acceptable(n, n.fileSize, CLIENT_MAX_CHUNK)
    ensures payloads == Payloads(n, source)
    ensures WellCut(payloads, n.chunkSize)
    ensures n.offset == n.fileSize ==> payloads == []
    ensures forall i :: 0 <= i < |payloads| ==> Boundary(payloads, n.offset, i) % n.chunkSize == 0
    ensures r.Ok? <==> n.offset == n.fileSize || n.fileSize <= |source|
    ensures r.Ok? ==> r.value == n.fileSize
    ensures r.Ok? && n.offset < n.fileSize ==> Joined(payloads) == source[n.offset..n.fileSize]
    ensures r.Err? && n.offset <= |source| ==> Joined(payloads) <= source[n.offset..]
    ensures r.Err? && n.offset > |source| ==> payloads == []
  {
    hide Joined, Boundary, WellCut, AllFull, PayloadsFrom;
    payloads := [];
    NothingCut(n.chunkSize);
    assert [] + Payloads(n, source) == Payloads(n, source);
    var sent := n.offset;
    while sent < n.fileSize
      invariant n.offset <= sent <= n.fileSize && WellCut(payloads, n.chunkSize)
      invariant payloads + PayloadsFrom(n, source, sent) == Payloads(n, source)
      invariant payloads != [] ==> n.offset < n.fileSize && sent <= |source|
      invariant payloads == [] ==> sent == n.offset
      invariant sent < n.fileSize ==> AllFull(payloads, n.chunkSize)
      invariant n.offset <= |source| && sent <= |source| ==> Joined(payloads) == source[n.offset..sent]
    {
      var expected := if n.fileSize - sent <= n.chunkSize then n.fileSize - sent else n.chunkSize;
      SentStep(n, source, sent, payloads);
      if sent + expected > |source| {
        Boundaries(payloads, n);
        return payloads, Err(Refused);
      }
      OneMore(payloads, source[sent..sent + expected], n.chunkSize);
      if n.offset <= |source| {
        assert source[n.offset..sent] + source[sent..sent + expected] == source[n.offset..sent + expected];
      }
      payloads := payloads + [source[sent..sent + expected]];
      sent := sent + expected;
    }
    SentAll(n, source, sent, payloads);
    Boundaries(payloads, n);
    return payloads, Ok(sent);
  }

  lemma Boundaries(payloads: seq<Bytes>, n: Negotiation)
    requires Acceptable(n, n.fileSize, CLIENT_MAX_CHUNK) && WellCut(payloads, n.chunkSize)
    requires payloads != [] ==> n.offset < n.fileSize
    ensures forall i :: 0 <= i < |payloads| ==> Boundary(payloads, n.offset, i) % n.chunkSize == 0
  {
    forall i | 0 <= i < |payloads| ensures Boundary(payloads, n.offset, i) % n.chunkSize == 0 {
      BoundaryMultiple(payloads, n.chunkSize, n.offset, i);
    }
  }

  // ---- Runs of interrupted uploads ----

  /** One session: what was negotiated, the file as it could be read, and how many payloads the server kept. */
  datatype Session = Session(negotiation: Negotiation, source: Bytes, kept: nat)

  /** An accepted negotiation that starts where the server stands, over the file or what is left of it. */
  predicate Valid(file: Bytes, stored: nat, s: Session) {
    && Acceptable(s.negotiation, |file|, CLIENT_MAX_CHUNK)
    && s.negotiation.offset == stored
    && s.source <= file
    && s.kept <= |Payloads(s.negotiation, s.source)|
  }

  function Kept(stored: Bytes, s: Session): Bytes
    requires s.negotiation.chunkSize > 0 && s.kept <= |Payloads(s.negotiation, s.source)|
  {
    stored + Joined(Payloads(s.negotiation, s.source)[..s.kept])
  }

  predicate Resumed(file: Bytes, stored: Bytes, sessions: seq<Session>)
    decreases |sessions|
  {
    sessions == [] || (Valid(file, |stored|, sessions[0]) && Resumed(file, Kept(stored, sessions[0]), sessions[1..]))
  }

  /** What the server holds after a run of sessions. */
  function Stored(file: Bytes, stored: Bytes, sessions: seq<Session>): Bytes
    requires Resumed(file, stored, sessions)
    decreases |sessions|
  {
    if sessions == [] then stored else Stored(file, Kept(stored, sessions[0]), sessions[1..])
  }

  /** The first payloads spell the file from the offset on, up to a whole number of chunks or its end. */
  lemma {:induction false} KeptPart(n: Negotiation, source: Bytes, sent: nat, k: nat) returns (end: nat)
    requires n.chunkSize > 0 && k <= |PayloadsFrom(n, source, sent)|
    ensures k > 0 ==> end == if sent + k * n.chunkSize <= n.fileSize then sent + k * n.chunkSize else n.fileSize
    ensures k == 0 ==> end == sent
    ensures k > 0 ==> sent < end <= |source|
    ensures Joined(PayloadsFrom(n, source, sent)[..k]) == if k == 0 then [] else source[sent..end]
    decreases k
  {
    hide Joined;
    var all := PayloadsFrom(n, source, sent);
    if k == 0 {
      NothingCut(n.chunkSize);
      assert all[..0] == [];
      end := sent;
    } else {
      var next := if n.fileSize - sent <= n.chunkSize then n.fileSize else sent + n.chunkSize;
      var rest := PayloadsFrom(n, source, next);
      assert all[..k] == [source[sent..next]] + rest[..k - 1];
      end := KeptPart(n, source, next, k - 1);
      JoinedFront(source[sent..next], rest[..k - 1]);
      assert end == next || source[sent..next] + source[next..end] == source[sent..end];
      ChunksOn(k, n.chunkSize);
    }
  }

  lemma ChunksOn(k: nat, size: nat)
    requires k > 0
    ensures k * size == (k - 1) * size + size && (k - 1) * size >= 0
    ensures k > 1 ==> (k - 1) * size >= size
  {
    MulMono(0, k - 1, size);
    if k > 1 { MulMono(1, k - 1, size); }
  }

  lemma {:induction false} JoinedFront(first: Bytes, rest: seq<Bytes>)
    ensures Joined([first] + rest) == first + Joined(rest)
  {
    var all := [first] + rest;
    if rest == [] {
      assert all[..0] == [];
    } else {
      var front, last := rest[..|rest| - 1], rest[|rest| - 1];
      assert all[..|all| - 1] == [first] + front && all[|all| - 1] == last;
      JoinedFront(first, front);
      assert first + (Joined(front) + last) == (first + Joined(front)) + last;
    }
  }

  /** `k` payloads come before the end of the file exactly if there is another, and all of them reach it. */
  lemma {:induction false} PayloadsCover(n: Negotiation, source: Bytes, sent: nat, k: nat)
    requires n.chunkSize > 0 && k <= |PayloadsFrom(n, source, sent)|
    ensures k < |PayloadsFrom(n, source, sent)| ==> sent + k * n.chunkSize < n.fileSize
    ensures |source| >= n.fileSize ==> sent + |PayloadsFrom(n, source, sent)| * n.chunkSize >= n.fileSize
    decreases |PayloadsFrom(n, source, sent)|
  {
    var all := PayloadsFrom(n, source, sent);
    if all != [] {
      ChunksOn(|all|, n.chunkSize);
      var next := if n.fileSize - sent <= n.chunkSize then n.fileSize else sent + n.chunkSize;
      assert |PayloadsFrom(n, source, next)| == |all| - 1;
      if k > 0 {
        ChunksOn(k, n.chunkSize);
        PayloadsCover(n, source, next, k - 1);
      } else {
        PayloadsCover(n, source, next, 0);
      }
    }
  }

  /** The end of what is sent on from an aligned offset is aligned again, or the end of the file. */
  predicate Aligned(length: nat, fileSize: nat, size: nat)
    requires size > 0
  {
    length == fileSize || length % size == 0
  }

  lemma MultipleOn(offset: nat, k: nat, size: nat)
    requires size > 0 && offset % size == 0
    ensures k * size >= 0 && (offset + k * size) % size == 0
  {
    var q := offset / size;
    assert offset == q * size;
    assert (q + k) * size == q * size + k * size;
    MulMono(0, k, size);
    DivModUnique(offset + k * size, size, q + k, 0);
  }

  /** One session takes a prefix of the file to a longer one, aligned to the session's chunk size. */
  lemma SessionExtends(file: Bytes, stored: Bytes, s: Session)
    requires Valid(file, |stored|, s) && stored <= file
    ensures stored <= Kept(stored, s) <= file
    ensures Aligned(|Kept(stored, s)|, |file|, s.negotiation.chunkSize)
    ensures Kept(stored, s) == file <==>
      stored == file || (|s.source| == |file| && s.kept == |Payloads(s.negotiation, s.source)|)
  {
    hide PayloadsFrom, Joined;
    var n := s.negotiation;
    var end := KeptPart(n, s.source, n.offset, s.kept);
    PayloadsCover(n, s.source, n.offset, s.kept);
    if s.kept > 0 {
      assert stored + s.source[|stored|..end] == file[..end];
      if n.offset % n.chunkSize == 0 { MultipleOn(n.offset, s.kept, n.chunkSize); }
    } else {
      assert stored + [] == stored;
    }
    NothingToSend(n, s.source, n.offset);
  }

  lemma NothingToSend(n: Negotiation, source: Bytes, sent: nat)
    requires n.chunkSize > 0
    ensures sent >= n.fileSize ==> PayloadsFrom(n, source, sent) == []
    ensures sent < n.fileSize <= |source| ==> PayloadsFrom(n, source, sent) != []
  {
  }

  /**
   * However often an upload is cut off, and whatever chunk sizes were negotiated: the server always holds a
   * prefix of the file, and never less than before.
   */
  lemma {:induction false} ServerHoldsPrefix(file: Bytes, stored: Bytes, sessions: seq<Session>)
    requires Resumed(file, stored, sessions) && stored <= file
    ensures stored <= Stored(file, stored, sessions) <= file
    decreases |sessions|
  {
    hide Kept;
    if sessions != [] {
      SessionExtends(file, stored, sessions[0]);
      ServerHoldsPrefix(file, Kept(stored, sessions[0]), sessions[1..]);
    }
  }

  lemma {:induction false} StoredAligned(file: Bytes, stored: Bytes, sessions: seq<Session>, size: nat)
    requires Resumed(file, stored, sessions) && stored <= file && size > 0
    requires forall i :: 0 <= i < |sessions| ==> sessions[i].negotiation.chunkSize == size
    requires Aligned(|stored|, |file|, size)
    ensures Aligned(|Stored(file, stored, sessions)|, |file|, size)
    decreases |sessions|
  {
    hide Kept, Aligned;
    if sessions != [] {
      SessionExtends(file, stored, sessions[0]);
      StoredAligned(file, Kept(stored, sessions[0]), sessions[1..], size);
    }
  }

  /** With the chunk size unchanged the next negotiation at the server's offset passes, resume support given. */
  lemma NextIsAcceptable(file: Bytes, sessions: seq<Session>, size: nat, supportsResume: bool)
    requires Resumed(file, [], sessions) && 0 < size <= CLIENT_MAX_CHUNK
    requires forall i :: 0 <= i < |sessions| ==> sessions[i].negotiation.chunkSize == size
    ensures var held := Stored(file, [], sessions);
      var next := Negotiation("transfer_file", |file|, size, |held|, supportsResume);
      Acceptable(next, |file|, CLIENT_MAX_CHUNK) <==> |held| == 0 || supportsResume
  {
    ServerHoldsPrefix(file, [], sessions);
    StoredAligned(file, [], sessions, size);
  }

  /** A run followed by a session that is not cut off leaves the server with the whole file. */
  lemma {:induction false} UncutSessionCompletes(file: Bytes, stored: Bytes, sessions: seq<Session>, last: Session)
    requires Resumed(file, stored, sessions) && stored <= file
    requires Valid(file, |Stored(file, stored, sessions)|, last)
    requires last.source == file && last.kept == |Payloads(last.negotiation, file)|
    ensures Resumed(file, stored, sessions + [last]) && Stored(file, stored, sessions + [last]) == file
    decreases |sessions|
  {
    hide Kept;
    var all := sessions + [last];
    if sessions == [] {
      SessionExtends(file, stored, last);
      assert all[1..] == [];
    } else {
      SessionExtends(file, stored, sessions[0]);
      assert all[1..] == sessions[1..] + [last];
      UncutSessionCompletes(file, Kept(stored, sessions[0]), sessions[1..], last);
    }
  }
}
