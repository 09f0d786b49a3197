/**
 * The evaluation matrix: one row per ply, the move label followed by the
 * values of `static_eval`, with column names in `EvalHeader`; column
 * extraction (`get_column`) and lookup of a column by name
 * (`EvalHeader.index`).
 */
module EvalMatrix {
  import opened Wrappers
  import opened EvalTable

  /** One matrix entry: the move label in column 0, a score elsewhere. */
  datatype Entry = Label(text: string) | Score(value: real)

  type Row = seq<Entry>

  /**
   * The column names of a matrix row, as the script lists them: `'Move'`,
   * then one group per line of the list.
   */
  const EvalHeader: seq<string> :=
    ["Move"] + MaterialColumns + ImbalanceColumns + PawnsColumns
    + KnightsColumns + BishopsColumns + RooksColumns + QueensColumns + MobilityColumns
    + KingSafetyColumns + ThreatsColumns + PassedPawnsColumns + SpaceColumns
    + TotalColumns

  const MaterialColumns: seq<string> := ["Material Total MG", "Material Total EG"]
  /** As written, both entries carry the midgame name. */
  const ImbalanceColumns: seq<string> := ["Imbalance Total MG", "Imbalance Total MG"]
  /** As written, both entries carry the midgame name. */
  const PawnsColumns: seq<string> := ["Pawns Total MG", "Pawns Total MG"]
  const KnightsColumns: seq<string> := ["Knights White MG", "Knights White EG", "Knights Black MG", "Knights Black EG", "Knights Total MG", "Knights Total EG"]
  const BishopsColumns: seq<string> := ["Bishops White MG", "Bishops White EG", "Bishops Black MG", "Bishops Black EG", "Bishops Total MG", "Bishops Total EG"]
  const RooksColumns: seq<string> := ["Rooks White MG", "Rooks White EG", "Rooks Black MG", "Rooks Black EG", "Rooks Total MG", "Rooks Total EG"]
  const QueensColumns: seq<string> := ["Queens White MG", "Queens White EG", "Queens Black MG", "Queens Black EG", "Queens Total MG", "Queens Total EG"]
  const MobilityColumns: seq<string> := ["Mobility White MG", "Mobility White EG", "Mobility Black MG", "Mobility Black EG", "Mobility Total MG", "Mobility Total EG"]
  const KingSafetyColumns: seq<string> := ["King Safety White MG", "King Safety White EG", "King Safety Black MG", "King Safety Black EG", "King Safety Total MG", "King Safety Total EG"]
  const ThreatsColumns: seq<string> := ["Threats White MG", "Threats White EG", "Threats Black MG", "Threats Black EG", "Threats Total MG", "Threats Total EG"]
  const PassedPawnsColumns: seq<string> := ["Passed Pawns White MG", "Passed Pawns White EG", "Passed Pawns Black MG", "Passed Pawns Black EG", "Passed Pawns Total MG", "Passed Pawns Total EG"]
  const SpaceColumns: seq<string> := ["Space White MG", "Space White EG", "Space Black MG", "Space Black EG", "Space Total MG", "Space Total EG"]
  const TotalColumns: seq<string> := ["Total MG", "Total EG", "Total"]

  /** The row of one ply: `scores.insert(0, move_notation)`. */
  function MakeRow(move: string, scores: seq<real>): (r: Row)
    ensures |r| == |scores| + 1 && r[0] == Label(move)
    ensures forall p :: 0 <= p < |scores| ==> r[1 + p] == Score(scores[p])
  {
    [Label(move)] + seq(|scores|, p requires 0 <= p < |scores| => Score(scores[p]))
  }

  /** A row built from the 63 raw values has exactly one entry per header name. */
  lemma RowMatchesHeader(move: string, scores: seq<real>)
    requires |scores| == 63
    ensures |MakeRow(move, scores)| == |EvalHeader| == 64
  {
  }

  /** `get_column(matrix, i)`: entry `i` of every row, or None where a row is too short (IndexError). */
  function GetColumn(matrix: seq<Row>, i: nat): (r: Option<seq<Entry>>)
    ensures r.Some? <==> forall k :: 0 <= k < |matrix| ==> i < |matrix[k]|
    ensures r.Some? ==> |r.value| == |matrix| && forall k :: 0 <= k < |matrix| ==> r.value[k] == matrix[k][i]
  {
    if matrix == [] then Some([])
    else if i >= |matrix[0]| then None
    else
      match GetColumn(matrix[1..], i)
      case None => None
      case Some(rest) => Some([matrix[0][i]] + rest)
  }

  /** Appending a row appends its entry to the column: the matrix grows ply by ply. */
  lemma GetColumnAppend(matrix: seq<Row>, row: Row, i: nat)
    requires GetColumn(matrix, i).Some? && i < |row|
    ensures GetColumn(matrix + [row], i) == Some(GetColumn(matrix, i).value + [row[i]])
  {
    var m := matrix + [row];
    assert forall k :: 0 <= k < |m| ==> i < |m[k]| by {
      forall k | 0 <= k < |m| ensures i < |m[k]| {
        if k < |matrix| { assert m[k] == matrix[k]; }
      }
    }
    var column := GetColumn(matrix, i).value;
    assert GetColumn(m, i).value == column + [row[i]];
  }

  /** `names.index(name)`: the first position holding `name`, or None (ValueError). */
  function IndexOf(names: seq<string>, name: string): (r: Option<nat>)
    ensures r.Some? ==> r.value < |names| && names[r.value] == name
    ensures r.Some? ==> forall j :: 0 <= j < r.value ==> names[j] != name
    ensures r.None? <==> name !in names
  {
    if names == [] then None
    else if names[0] == name then Some(0)
    else
      match IndexOf(names[1..], name)
      case None => None
      case Some(i) => Some(i + 1)
  }

  /** A name held at `i` and nowhere before resolves to `i`. */
  lemma IndexOfFirst(names: seq<string>, name: string, i: nat)
    requires i < |names| && names[i] == name
    requires forall j :: 0 <= j < i ==> names[j] != name
    ensures IndexOf(names, name) == Some(i)
  {
  }

  /**
   * The duplicated name `'Imbalance Total MG'` resolves to its first
   * occurrence, column 3.
   */
  lemma ImbalanceMgResolvesFirst()
    ensures IndexOf(EvalHeader, "Imbalance Total MG") == Some(3)
  {
    forall j | 0 <= j < 3 ensures EvalHeader[j] != "Imbalance Total MG" {
      if j == 0 { } else if j == 1 { } else { }
    }
    IndexOfFirst(EvalHeader, "Imbalance Total MG", 3);
  }

  /**
   * The duplicated name `'Pawns Total MG'` resolves to its first
   * occurrence, column 5.
   */
  lemma PawnsMgResolvesFirst()
    ensures IndexOf(EvalHeader, "Pawns Total MG") == Some(5)
  {
    forall j | 0 <= j < 5 ensures EvalHeader[j] != "Pawns Total MG" {
      if j == 0 { } else if j == 1 { } else if j == 2 { } else if j == 3 { } else { }
    }
    IndexOfFirst(EvalHeader, "Pawns Total MG", 5);
  }

  // ---------------------------------------------------------------------------
  // Naming the columns after the table layout

  /** The script's name for the category of a table row. */
  function RowName(row: nat): string
  {
    match row
    case 3 => "Material"
    case 4 => "Imbalance"
    case 5 => "Pawns"
    case 6 => "Knights"
    case 7 => "Bishops"
    case 8 => "Rooks"
    case 9 => "Queens"
    case 10 => "Mobility"
    case 11 => "King Safety"
    case 12 => "Threats"
    case 13 => "Passed Pawns"
    case 14 => "Space"
    case _ => "Total"
  }

  function SideName(cell: nat): string
  {
    if cell == 1 then "White" else if cell == 2 then "Black" else "Total"
  }

  /** The name describing token `t` (0 = MG, 1 = EG) of the table cell `c`. */
  function ColumnName(c: Coord, t: nat): string
  {
    (if c.row == 16 then "Total" else RowName(c.row) + " " + SideName(c.cell)) + " " + (if t == 0 then "MG" else "EG")
  }

  /** The header with the endgame columns of Imbalance and Pawns named as such. */
  const CorrectedHeader: seq<string> := EvalHeader[4 := "Imbalance Total EG"][6 := "Pawns Total EG"]

  lemma NamesOfMaterialColumns()
    ensures forall p :: 0 <= p < 2 ==> CorrectedHeader[1 + p] == ColumnName(PlanEntry(p / 2), p % 2)
  {
    forall p | 0 <= p < 2 ensures CorrectedHeader[1 + p] == ColumnName(PlanEntry(p / 2), p % 2) {
      if p == 0 { } else { }
    }
  }

  lemma NamesOfImbalanceColumns()
    ensures forall p :: 2 <= p < 4 ==> CorrectedHeader[1 + p] == ColumnName(PlanEntry(p / 2), p % 2)
  {
    forall p | 2 <= p < 4 ensures CorrectedHeader[1 + p] == ColumnName(PlanEntry(p / 2), p % 2) {
      if p == 2 { } else { }
    }
  }

  lemma NamesOfPawnsColumns()
    ensures forall p :: 4 <= p < 6 ==> CorrectedHeader[1 + p] == ColumnName(PlanEntry(p / 2), p % 2)
  {
    forall p | 4 <= p < 6 ensures CorrectedHeader[1 + p] == ColumnName(PlanEntry(p / 2), p % 2) {
      if p == 4 { } else { }
    }
  }

  lemma KnightsColumnsNamed()
    ensures forall p :: 6 <= p < 12 ==> KnightsColumns[p - 6] == ColumnName(PlanEntry(p / 2), p % 2)
  {
    forall p | 6 <= p < 12 ensures KnightsColumns[p - 6] == ColumnName(PlanEntry(p / 2), p % 2) {
      if p == 6 { } else if p == 7 { } else if p == 8 { } else if p == 9 { } else if p == 10 { } else { }
    }
  }

  lemma NamesOfKnightsColumns()
    ensures forall p :: 6 <= p < 12 ==> EvalHeader[1 + p] == ColumnName(PlanEntry(p / 2), p % 2)
  {
    assert EvalHeader[7..13] == KnightsColumns;
    KnightsColumnsNamed();
    forall p | 6 <= p < 12 ensures EvalHeader[1 + p] == ColumnName(PlanEntry(p / 2), p % 2) {
      assert EvalHeader[1 + p] == EvalHeader[7..13][p - 6];
    }
  }

  lemma BishopsColumnsNamed()
    ensures forall p :: 12 <= p < 18 ==> BishopsColumns[p - 12] == ColumnName(PlanEntry(p / 2), p % 2)
  {
    forall p | 12 <= p < 18 ensures BishopsColumns[p - 12] == ColumnName(PlanEntry(p / 2), p % 2) {
      if p == 12 { } else if p == 13 { } else if p == 14 { } else if p == 15 { } else if p == 16 { } else { }
    }
  }

  lemma NamesOfBishopsColumns()
    ensures forall p :: 12 <= p < 18 ==> EvalHeader[1 + p] == ColumnName(PlanEntry(p / 2), p % 2)
  {
    assert EvalHeader[13..19] == BishopsColumns;
    BishopsColumnsNamed();
    forall p | 12 <= p < 18 ensures EvalHeader[1 + p] == ColumnName(PlanEntry(p / 2), p % 2) {
      assert EvalHeader[1 + p] == EvalHeader[13..19][p - 12];
    }
  }

  lemma RooksColumnsNamed()
    ensures forall p :: 18 <= p < 24 ==> RooksColumns[p - 18] == ColumnName(PlanEntry(p / 2), p % 2)
  {
    forall p | 18 <= p < 24 ensures RooksColumns[p - 18] == ColumnName(PlanEntry(p / 2), p % 2) {
      if p == 18 { } else if p == 19 { } else if p == 20 { } else if p == 21 { } else if p == 22 { } else { }
    }
  }

  lemma NamesOfRooksColumns()
    ensures forall p :: 18 <= p < 24 ==> EvalHeader[1 + p] == ColumnName(PlanEntry(p / 2), p % 2)
  {
    assert EvalHeader[19..25] == RooksColumns;
    RooksColumnsNamed();
    forall p | 18 <= p < 24 ensures EvalHeader[1 + p] == ColumnName(PlanEntry(p / 2), p % 2) {
      assert EvalHeader[1 + p] == EvalHeader[19..25][p - 18];
    }
  }

  lemma QueensColumnsNamed()
    ensures forall p :: 24 <= p < 30 ==> QueensColumns[p - 24] == ColumnName(PlanEntry(p / 2), p % 2)
  {
    forall p | 24 <= p < 30 ensures QueensColumns[p - 24] == ColumnName(PlanEntry(p / 2), p % 2) {
      if p == 24 { } else if p == 25 { } else if p == 26 { } else if p == 27 { } else if p == 28 { } else { }
    }
  }

  lemma NamesOfQueensColumns()
    ensures forall p :: 24 <= p < 30 ==> EvalHeader[1 + p] == ColumnName(PlanEntry(p / 2), p % 2)
  {
    assert EvalHeader[25..31] == QueensColumns;
    QueensColumnsNamed();
    forall p | 24 <= p < 30 ensures EvalHeader[1 + p] == ColumnName(PlanEntry(p / 2), p % 2) {
      assert EvalHeader[1 + p] == EvalHeader[25..31][p - 24];
    }
  }

  lemma MobilityColumnsNamed()
    ensures forall p :: 30 <= p < 36 ==> MobilityColumns[p - 30] == ColumnName(PlanEntry(p / 2), p % 2)
  {
    forall p | 30 <= p < 36 ensures MobilityColumns[p - 30] == ColumnName(PlanEntry(p / 2), p % 2) {
      if p == 30 { } else if p == 31 { } else if p == 32 { } else if p == 33 { } else if p == 34 { } else { }
    }
  }

  lemma NamesOfMobilityColumns()
    ensures forall p :: 30 <= p < 36 ==> EvalHeader[1 + p] == ColumnName(PlanEntry(p / 2), p % 2)
  {
    assert EvalHeader[31..37] == MobilityColumns;
    MobilityColumnsNamed();
    forall p | 30 <= p < 36 ensures EvalHeader[1 + p] == ColumnName(PlanEntry(p / 2), p % 2) {
      assert EvalHeader[1 + p] == EvalHeader[31..37][p - 30];
    }
  }

  lemma KingSafetyColumnsNamed()
    ensures forall p :: 36 <= p < 42 ==> KingSafetyColumns[p - 36] == ColumnName(PlanEntry(p / 2), p % 2)
  {
    forall p | 36 <= p < 42 ensures KingSafetyColumns[p - 36] == ColumnName(PlanEntry(p / 2), p % 2) {
      if p == 36 { } else if p == 37 { } else if p == 38 { } else if p == 39 { } else if p == 40 { } else { }
    }
  }

  lemma NamesOfKingSafetyColumns()
    ensures forall p :: 36 <= p < 42 ==> EvalHeader[1 + p] == ColumnName(PlanEntry(p / 2), p % 2)
  {
    assert EvalHeader[37..43] == KingSafetyColumns;
    KingSafetyColumnsNamed();
    forall p | 36 <= p < 42 ensures EvalHeader[1 + p] == ColumnName(PlanEntry(p / 2), p % 2) {
      assert EvalHeader[1 + p] == EvalHeader[37..43][p - 36];
    }
  }

  lemma ThreatsColumnsNamed()
    ensures forall p :: 42 <= p < 48 ==> ThreatsColumns[p - 42] == ColumnName(PlanEntry(p / 2), p % 2)
  {
    forall p | 42 <= p < 48 ensures ThreatsColumns[p - 42] == ColumnName(PlanEntry(p / 2), p % 2) {
      if p == 42 { } else if p == 43 { } else if p == 44 { } else if p == 45 { } else if p == 46 { } else { }
    }
  }

  lemma NamesOfThreatsColumns()
    ensures forall p :: 42 <= p < 48 ==> EvalHeader[1 + p] == ColumnName(PlanEntry(p / 2), p % 2)
  {
    assert EvalHeader[43..49] == ThreatsColumns;
    ThreatsColumnsNamed();
    forall p | 42 <= p < 48 ensures EvalHeader[1 + p] == ColumnName(PlanEntry(p / 2), p % 2) {
      assert EvalHeader[1 + p] == EvalHeader[43..49][p - 42];
    }
  }

  lemma PassedPawnsColumnsNamed()
    ensures forall p :: 48 <= p < 54 ==> PassedPawnsColumns[p - 48] == ColumnName(PlanEntry(p / 2), p % 2)
  {
    forall p | 48 <= p < 54 ensures PassedPawnsColumns[p - 48] == ColumnName(PlanEntry(p / 2), p % 2) {
      if p == 48 { } else if p == 49 { } else if p == 50 { } else if p == 51 { } else if p == 52 { } else { }
    }
  }

  lemma NamesOfPassedPawnsColumns()
    ensures forall p :: 48 <= p < 54 ==> EvalHeader[1 + p] == ColumnName(PlanEntry(p / 2), p % 2)
  {
    assert EvalHeader[49..55] == PassedPawnsColumns;
    PassedPawnsColumnsNamed();
    forall p | 48 <= p < 54 ensures EvalHeader[1 + p] == ColumnName(PlanEntry(p / 2), p % 2) {
      assert EvalHeader[1 + p] == EvalHeader[49..55][p - 48];
    }
  }

  lemma SpaceColumnsNamed()
    ensures forall p :: 54 <= p < 60 ==> SpaceColumns[p - 54] == ColumnName(PlanEntry(p / 2), p % 2)
  {
    forall p | 54 <= p < 60 ensures SpaceColumns[p - 54] == ColumnName(PlanEntry(p / 2), p % 2) {
      if p == 54 { } else if p == 55 { } else if p == 56 { } else if p == 57 { } else if p == 58 { } else { }
    }
  }

  lemma NamesOfSpaceColumns()
    ensures forall p :: 54 <= p < 60 ==> EvalHeader[1 + p] == ColumnName(PlanEntry(p / 2), p % 2)
  {
    assert EvalHeader[55..61] == SpaceColumns;
    SpaceColumnsNamed();
    forall p | 54 <= p < 60 ensures EvalHeader[1 + p] == ColumnName(PlanEntry(p / 2), p % 2) {
      assert EvalHeader[1 + p] == EvalHeader[55..61][p - 54];
    }
  }

  lemma TotalColumnsNamed()
    ensures forall p :: 60 <= p < 62 ==> TotalColumns[p - 60] == ColumnName(PlanEntry(p / 2), p % 2)
  {
    forall p | 60 <= p < 62 ensures TotalColumns[p - 60] == ColumnName(PlanEntry(p / 2), p % 2) {
      if p == 60 { } else { }
    }
  }

  lemma NamesOfTotalColumns()
    ensures forall p :: 60 <= p < 62 ==> EvalHeader[1 + p] == ColumnName(PlanEntry(p / 2), p % 2)
  {
    assert EvalHeader[61..64] == TotalColumns;
    TotalColumnsNamed();
    forall p | 60 <= p < 62 ensures EvalHeader[1 + p] == ColumnName(PlanEntry(p / 2), p % 2) {
      assert EvalHeader[1 + p] == EvalHeader[61..64][p - 60];
    }
  }

  /**
   * The corrected header names every value column after the table cell and
   * phase it holds, position for position: column `1 + p` holds token
   * `p % 2` of planned cell `p / 2`, and the last column is the scalar Total.
   */
  lemma CorrectedHeaderNamesLayout()
    ensures |CorrectedHeader| == 64 && CorrectedHeader[0] == "Move" && CorrectedHeader[63] == "Total"
    ensures forall p :: 0 <= p < 62 ==> CorrectedHeader[1 + p] == ColumnName(PlanEntry(p / 2), p % 2)
  {
    NamesOfMaterialColumns();
    NamesOfImbalanceColumns();
    NamesOfPawnsColumns();
    NamesOfKnightsColumns();
    NamesOfBishopsColumns();
    NamesOfRooksColumns();
    NamesOfQueensColumns();
    NamesOfMobilityColumns();
    NamesOfKingSafetyColumns();
    NamesOfThreatsColumns();
    NamesOfPassedPawnsColumns();
    NamesOfSpaceColumns();
    NamesOfTotalColumns();
  }

  /**
   * As written, the header differs from the layout exactly at columns 4 and
   * 6: they repeat the midgame names of columns 3 and 5, so no name lookup
   * can ever reach the endgame Imbalance and Pawns columns.
   */
  lemma EndgameColumnsUnreachable(name: string)
    ensures EvalHeader == CorrectedHeader[4 := EvalHeader[3]][6 := EvalHeader[5]]
    ensures EvalHeader[4] != ColumnName(PlanEntry(1), 1) && EvalHeader[6] != ColumnName(PlanEntry(2), 1)
    ensures IndexOf(EvalHeader, name) != Some(4) && IndexOf(EvalHeader, name) != Some(6)
  {
    assert EvalHeader[4] == EvalHeader[3] == "Imbalance Total MG";
    assert EvalHeader[6] == EvalHeader[5] == "Pawns Total MG";
    assert ColumnName(PlanEntry(1), 1) == "Imbalance Total EG";
    assert ColumnName(PlanEntry(2), 1) == "Pawns Total EG";
    assert EvalHeader[4][16] != "Imbalance Total EG"[16];
    assert EvalHeader[6][12] != "Pawns Total EG"[12];
  }

  /** With the corrected header both Imbalance totals are found by name. */
  lemma CorrectedHeaderFindsImbalance()
    ensures IndexOf(CorrectedHeader, "Imbalance Total MG") == Some(3)
    ensures IndexOf(CorrectedHeader, "Imbalance Total EG") == Some(4)
  {
    forall j | 0 <= j < 4 ensures CorrectedHeader[j] != "Imbalance Total EG" {
      if j == 0 { } else if j == 1 { } else if j == 2 { } else { }
    }
    forall j | 0 <= j < 3 ensures CorrectedHeader[j] != "Imbalance Total MG" {
      if j == 0 { } else if j == 1 { } else { }
    }
    IndexOfFirst(CorrectedHeader, "Imbalance Total MG", 3);
    IndexOfFirst(CorrectedHeader, "Imbalance Total EG", 4);
  }

  /** With the corrected header both Pawns totals are found by name. */
  lemma CorrectedHeaderFindsPawns()
    ensures IndexOf(CorrectedHeader, "Pawns Total MG") == Some(5)
    ensures IndexOf(CorrectedHeader, "Pawns Total EG") == Some(6)
  {
    forall j | 0 <= j < 6 ensures CorrectedHeader[j] != "Pawns Total EG" {
      if j == 0 { } else if j == 1 { } else if j == 2 { } else if j == 3 { } else if j == 4 { } else { }
    }
    forall j | 0 <= j < 5 ensures CorrectedHeader[j] != "Pawns Total MG" {
      if j == 0 { } else if j == 1 { } else if j == 2 { } else if j == 3 { } else { }
    }
    IndexOfFirst(CorrectedHeader, "Pawns Total MG", 5);
    IndexOfFirst(CorrectedHeader, "Pawns Total EG", 6);
  }
}
