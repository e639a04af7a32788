/** The wire format of a multiplexed frame: four id bytes, one kind byte, the payload. */
module Frame {
  import opened Arithmetic
  import opened BigEndian
  import opened Outcomes

  datatype Kind = Process | Conclusion

  datatype Frame = Frame(id: U32, kind: Kind, payload: Bytes)

  function Encode(f: Frame): Bytes {
    Be32(f.id) + [if f.kind == Process then 0 else 1] + f.payload
  }

  function IdOf(b: Bytes): U32
    requires |b| >= 4
  {
    WordOf(b[0], b[1], b[2], b[3])
  }

  function Decode(data: Bytes): Result<Frame> {
    if |data| < 5 then Err(LengthMismatch)
    else if data[4] == 0 then Ok(Frame(IdOf(data), Process, data[5..]))
    else if data[4] == 1 then Ok(Frame(IdOf(data), Conclusion, data[5..]))
    else Err(InvalidRequest)
  }

  /** The id comes first, its highest byte in front; then 0 for data and 1 for a conclusion; then the payload. */
  lemma WireLayout(f: Frame)
    ensures var e: seq<int> := Encode(f);
      |e| == 5 + |f.payload| && e[5..] == f.payload
      && e[0] * 0x100_0000 + e[1] * 0x1_0000 + e[2] * 0x100 + e[3] == f.id
      && (f.kind == Process <==> e[4] == 0) && (f.kind == Conclusion <==> e[4] == 1)
  {
    hide Be32;
    WordOfBytes(f.id);
    assert Encode(f)[5..] == f.payload;
  }

  lemma DecodeEncode(f: Frame)
    ensures Decode(Encode(f)) == Ok(f)
  {
    hide Be32, WordOf;
    var e := Encode(f);
    WordOfBytes(f.id);
    IdOfPrefix(Be32(f.id), e);
    assert e[5..] == f.payload;
  }

  lemma IdOfPrefix(a: Bytes, b: Bytes)
    requires 4 <= |a| <= |b| && a == b[..|a|]
    ensures IdOf(a) == IdOf(b)
  {
    assert a[0] == b[0] && a[1] == b[1] && a[2] == b[2] && a[3] == b[3];
  }

  /** Decoding fails exactly on short input or an unknown kind byte; otherwise nothing of the input is lost. */
  lemma EncodeDecode(data: Bytes)
    ensures Decode(data).Err? <==> |data| < 5 || data[4] > 1
    ensures Decode(data).Ok? ==> Encode(Decode(data).value) == data
  {
    hide Be32, WordOf;
    if |data| >= 5 {
      BytesOfWord(data[0], data[1], data[2], data[3]);
      assert data[..4] == [data[0], data[1], data[2], data[3]];
      assert data == data[..4] + [data[4]] + data[5..];
    }
  }
}
