/** The matrix of one address, worked out cell by cell. */
module MatrixExample {
  import opened Matrix

  const HOME := Endpoint(192, 168, 1, 10, 8080)

  const DIGITS: Row := [1, 9, 2, 1, 6, 8, 0, 0, 1, 0, 1, 0, 0, 8, 0, 8, 0]

  function Sevens(k: nat): Row { seq(k, _ => 7) }

  lemma HomeFields()
    ensures Field(HOME, 0) == [1, 9, 2] && Field(HOME, 1) == [1, 6, 8] && Field(HOME, 2) == [0, 0, 1]
    ensures Field(HOME, 3) == [0, 1, 0] && Field(HOME, 4) == [0, 8, 0, 8, 0]
    ensures EndpointPayload(HOME) == DIGITS
  {
  }

  /** The sum of the first `k` digits, from that of one digit less. */
  lemma SumStep(k: nat, s: nat)
    requires k < 17 && WeightedSum(DIGITS[..k]) == s
    ensures WeightedSum(DIGITS[..k + 1]) == s + DIGITS[k] * [1, 3, 7, 9][k % 4]
  {
    hide WeightedSum;
    assert DIGITS[..k + 1] == DIGITS[..k] + [DIGITS[k]];
    WeightsInTurn(DIGITS[..k], DIGITS[k]);
  }

  lemma HomeChecksum()
    ensures Checksum(DIGITS) == 5
  {
    assert WeightedSum(DIGITS[..0]) == 0;
    hide WeightedSum, Checksum;
    SumStep(0, 0);
    SumStep(1, 1);
    SumStep(2, 28);
    SumStep(3, 42);
    SumStep(4, 51);
    SumStep(5, 57);
    SumStep(6, 81);
    SumStep(7, 81);
    SumStep(8, 81);
    SumStep(9, 82);
    SumStep(10, 82);
    SumStep(11, 89);
    SumStep(12, 89);
    SumStep(13, 89);
    SumStep(14, 113);
    SumStep(15, 113);
    SumStep(16, 185);
    assert DIGITS[..17] == DIGITS;
    ChecksumExactly(DIGITS, 5);
  }

  lemma PlacedIs(row: nat, r: Row)
    requires row < 5 && |r| == 7
    requires forall i :: 0 <= i < Width(row) ==> r[Path(row)[i]] == Field(HOME, row)[i]
    requires forall c :: 0 <= c < 7 && c !in Path(row) ==> r[c] == 7
    ensures EncodedRow(HOME, seq(7, _ => Sevens(7)), row) == r
  {
    hide Path, Place, Field, Checksum, EndpointPayload, Hamming74;
    PathsDistinct(row);
    PlaceExactly(Sevens(7), Path(row), Field(HOME, row), r);
  }

  lemma LastRows()
    ensures EncodedRow(HOME, seq(7, _ => Sevens(7)), 5) == [0, 1, 0, 0, 1, 0, 1]
    ensures EncodedRow(HOME, seq(7, _ => Sevens(7)), 6) == [7, 7, 5, 7, 7, 7, 7]
  {
    hide Path, Place, Field, Checksum, EndpointPayload;
    HomeFields();
    HomeChecksum();
  }

  /** The matrix over decoy cells that are all 7. */
  lemma KnownMatrix()
    ensures Encode(HOME, seq(7, _ => Sevens(7))) == [
      [7, 2, 7, 9, 7, 1, 7],
      [6, 7, 8, 7, 7, 1, 7],
      [1, 0, 7, 7, 0, 7, 7],
      [7, 0, 7, 7, 0, 7, 1],
      [0, 0, 8, 7, 0, 7, 8],
      [0, 1, 0, 0, 1, 0, 1],
      [7, 7, 5, 7, 7, 7, 7]]
  {
    hide EncodedRow;
    FieldRows();
    LastRows();
  }

  lemma FieldRows()
    ensures var decoys := seq(7, _ => Sevens(7));
      EncodedRow(HOME, decoys, 0) == [7, 2, 7, 9, 7, 1, 7] && EncodedRow(HOME, decoys, 1) == [6, 7, 8, 7, 7, 1, 7]
      && EncodedRow(HOME, decoys, 2) == [1, 0, 7, 7, 0, 7, 7] && EncodedRow(HOME, decoys, 3) == [7, 0, 7, 7, 0, 7, 1]
      && EncodedRow(HOME, decoys, 4) == [0, 0, 8, 7, 0, 7, 8]
  {
    hide Path, Place, Field, EncodedRow;
    HomeFields();
    PathColumns();
    PlacedIs(0, [7, 2, 7, 9, 7, 1, 7]);
    PlacedIs(1, [6, 7, 8, 7, 7, 1, 7]);
    PlacedIs(2, [1, 0, 7, 7, 0, 7, 7]);
    PlacedIs(3, [7, 0, 7, 7, 0, 7, 1]);
    PlacedIs(4, [0, 0, 8, 7, 0, 7, 8]);
  }
}
