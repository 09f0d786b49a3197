/**
 * Token extraction from the engine's `eval` table (the body of
 * `static_eval` before the numbers are converted). The table has a fixed
 * layout: rows 0-2 are headers, rows 3-5 (Material, Imbalance, Pawns) have
 * only a Total cell, rows 6-14 (Knights ... Space) have White, Black and
 * Total cells, row 16 is the Total row and row 18 reads
 * `Total Evaluation: <x> (white side)`. Cells are separated by `|`.
 */
module EvalTable {
  import opened Wrappers
  import opened Errors
  import opened PyStr

  /** A position in the table: a line index and a `|`-cell index within that line. */
  datatype Coord = Coord(row: nat, cell: nat)

  /** The i-th cell the extraction reads, in reading order. */
  function PlanEntry(n: nat): Coord
  {
    if n < 3 then Coord(3 + n, 3)
    else if n < 30 then Coord(6 + (n - 3) / 3, 1 + (n - 3) % 3)
    else Coord(16, 3)
  }

  /** The 31 cells read by the nested loops, in the order the loops visit them. */
  function Plan(): (p: seq<Coord>)
    ensures |p| == 31
  {
    seq(31, n requires 0 <= n => PlanEntry(n))
  }

  /** The row whose third whitespace token is the final scalar evaluation. */
  const ScalarRow: nat := 18

  /** `evaluation[row].split('|')[cell]`, or the IndexError it raises. */
  function CellOf(e: seq<string>, c: Coord): Result<string, Error>
  {
    if c.row >= |e| then Err(LineMissing(c.row))
    else
      var cells := Split(e[c.row], '|');
      if c.cell < |cells| then Ok(cells[c.cell]) else Err(CellMissing(c.row, c.cell))
  }

  /** The tokens of the cells of `plan`, concatenated in order; the first failing read wins. */
  function Collect(e: seq<string>, plan: seq<Coord>): Result<seq<string>, Error>
    decreases |plan|
  {
    if plan == [] then Ok([])
    else
      match Collect(e, plan[..|plan| - 1])
      case Err(x) => Err(x)
      case Ok(tokens) =>
        match CellOf(e, plan[|plan| - 1])
        case Err(x) => Err(x)
        case Ok(cell) => Ok(tokens + Words(cell))
  }

  /** The raw token list of `static_eval`: every planned cell's tokens, then the scalar. */
  function TableTokens(e: seq<string>): Result<seq<string>, Error>
  {
    match Collect(e, Plan())
    case Err(x) => Err(x)
    case Ok(tokens) =>
      if ScalarRow >= |e| then Err(LineMissing(ScalarRow))
      else
        var words := Words(e[ScalarRow]);
        if |words| < 3 then Err(TokenMissing(ScalarRow)) else Ok(tokens + [words[2]])
  }

  /** Once a read fails, reading more cells keeps that failure. */
  lemma {:induction false} CollectErrorSticks(e: seq<string>, plan: seq<Coord>, more: seq<Coord>)
    requires Collect(e, plan).Err?
    ensures Collect(e, plan + more) == Collect(e, plan)
    decreases |more|
  {
    if more != [] {
      var shorter := more[..|more| - 1];
      assert (plan + more)[..|plan + more| - 1] == plan + shorter;
      CollectErrorSticks(e, plan, shorter);
    } else {
      assert plan + more == plan;
    }
  }

  /**
   * One read of the nested loops, `evaluation[row].split('|')[cell].split()`,
   * appended to the tokens of the `n` reads before it; a failing read is the
   * failure of the whole extraction.
   */
  method ReadCell(evaluation: seq<string>, row: nat, cell: nat, ghost n: nat, results: seq<string>)
    returns (r: Result<seq<string>, Error>)
    requires n < |Plan()| && Plan()[n] == Coord(row, cell)
    requires Collect(evaluation, Plan()[..n]) == Ok(results)
    ensures r.Ok? ==> Collect(evaluation, Plan()[..n + 1]) == r
    ensures r.Err? ==> TableTokens(evaluation) == r
  {
    if row >= |evaluation| {
      ReadFailureIsFinal(evaluation, n, LineMissing(row));
      return Err(LineMissing(row));
    }
    var cells := Split(evaluation[row], '|');
    if |cells| <= cell {
      ReadFailureIsFinal(evaluation, n, CellMissing(row, cell));
      return Err(CellMissing(row, cell));
    }
    ReadSucceeds(evaluation, n, results, cells[cell]);
    r := Ok(results + Words(cells[cell]));
  }

  /**
   * The nested loops of `static_eval`: rows 3-5 cell 3, rows 6-14 cells 1-3,
   * row 16 cell 3, then the third token of row 18.
   */
  method ExtractTokens(evaluation: seq<string>) returns (r: Result<seq<string>, Error>)
    ensures r == TableTokens(evaluation)
  {
    var results: seq<string> := [];
    ghost var n := 0;
    for i := 3 to 6
      invariant n == i - 3
      invariant Collect(evaluation, Plan()[..n]) == Ok(results)
    {
      assert Plan()[n] == Coord(i, 3);
      var read := ReadCell(evaluation, i, 3, n, results);
      if read.Err? {
        return read;
      }
      results := read.value;
      n := n + 1;
    }
    for i := 6 to 15
      invariant n == 3 + 3 * (i - 6)
      invariant Collect(evaluation, Plan()[..n]) == Ok(results)
    {
      for j := 1 to 4
        invariant n == 3 + 3 * (i - 6) + (j - 1)
        invariant Collect(evaluation, Plan()[..n]) == Ok(results)
      {
        assert Plan()[n] == Coord(i, j);
        var read := ReadCell(evaluation, i, j, n, results);
        if read.Err? {
          return read;
        }
        results := read.value;
        n := n + 1;
      }
    }
    assert Plan()[n] == Coord(16, 3);
    var read := ReadCell(evaluation, 16, 3, n, results);
    if read.Err? {
      return read;
    }
    results := read.value;
    n := n + 1;
    assert Plan()[..n] == Plan();
    if ScalarRow >= |evaluation| {
      return Err(LineMissing(ScalarRow));
    }
    var words := Words(evaluation[ScalarRow]);
    if |words| < 3 {
      return Err(TokenMissing(ScalarRow));
    }
    results := results + [words[2]];
    r := Ok(results);
  }

  /** A successful read of cell `n` of the plan appends that cell's tokens. */
  lemma ReadSucceeds(e: seq<string>, n: nat, tokens: seq<string>, cell: string)
    requires n < |Plan()|
    requires Collect(e, Plan()[..n]) == Ok(tokens)
    requires CellOf(e, Plan()[n]) == Ok(cell)
    ensures Collect(e, Plan()[..n + 1]) == Ok(tokens + Words(cell))
  {
    assert Plan()[..n + 1][..n] == Plan()[..n];
  }

  /** The failure of reading cell `n` of the plan is the failure of the whole extraction. */
  lemma ReadFailureIsFinal(e: seq<string>, n: nat, x: Error)
    requires n < |Plan()|
    requires Collect(e, Plan()[..n]).Ok?
    requires CellOf(e, Plan()[n]) == Err(x)
    ensures TableTokens(e) == Err(x)
  {
    assert Plan()[..n + 1][..n] == Plan()[..n];
    assert Collect(e, Plan()[..n + 1]) == Err(x);
    CollectErrorSticks(e, Plan()[..n + 1], Plan()[n + 1..]);
    assert Plan()[..n + 1] + Plan()[n + 1..] == Plan();
  }

  // ---------------------------------------------------------------------------
  // Properties of the reading plan and of the extracted tokens

  /**
   * The plan visits rows in ascending order and, within a row, cells left to
   * right; it reads only cell 3 (Total) of rows 3-5 and 16, cells 1-3 of rows
   * 6-14, and never a header row (0-2), the rule (15), the blank row (17) or
   * the label cell 0.
   */
  lemma PlanOrder()
    ensures forall m, n :: 0 <= m < n < |Plan()| ==>
      Plan()[m].row < Plan()[n].row || (Plan()[m].row == Plan()[n].row && Plan()[m].cell < Plan()[n].cell)
    ensures forall n :: 0 <= n < |Plan()| ==>
      && 1 <= Plan()[n].cell <= 3
      && (3 <= Plan()[n].row <= 14 || Plan()[n].row == 16)
      && (Plan()[n].row <= 5 || Plan()[n].row == 16 ==> Plan()[n].cell == 3)
  {
  }

  /** The table layout the extraction expects: each read cell holds an MG and an EG token. */
  predicate WellFormed(e: seq<string>)
  {
    && ScalarRow < |e|
    && (forall n :: 0 <= n < |Plan()| ==>
          CellOf(e, Plan()[n]).Ok? && |Words(CellOf(e, Plan()[n]).value)| == 2)
    && |Words(e[ScalarRow])| >= 3
  }

  /** Token `t` (0 = MG, 1 = EG) of the `n`-th planned cell of a well-formed table. */
  function PlannedToken(e: seq<string>, n: nat, t: nat): string
    requires WellFormed(e) && n < |Plan()| && t < 2
  {
    Words(CellOf(e, Plan()[n]).value)[t]
  }

  /** On a well-formed table, the first `k` planned cells give `2k` tokens, cell after cell. */
  lemma {:induction false} CollectWellFormed(e: seq<string>, k: nat)
    requires WellFormed(e) && k <= |Plan()|
    ensures Collect(e, Plan()[..k]).Ok?
    ensures |Collect(e, Plan()[..k]).value| == 2 * k
    ensures forall p :: 0 <= p < 2 * k ==> Collect(e, Plan()[..k]).value[p] == PlannedToken(e, p / 2, p % 2)
  {
    if k > 0 {
      CollectWellFormed(e, k - 1);
      assert Plan()[..k][..k - 1] == Plan()[..k - 1];
      var before := Collect(e, Plan()[..k - 1]).value;
      var cell := CellOf(e, Plan()[k - 1]).value;
      assert Collect(e, Plan()[..k]).value == before + Words(cell);
      forall p | 2 * (k - 1) <= p < 2 * k
        ensures (before + Words(cell))[p] == PlannedToken(e, p / 2, p % 2)
      {
        assert p / 2 == k - 1;
      }
    }
  }

  /**
   * On a well-formed table the extraction yields exactly 63 tokens: token
   * `p < 62` is token `p % 2` of planned cell `p / 2` (so MG and EG alternate,
   * in plan order), and the last is the third word of row 18.
   */
  lemma TableTokensWellFormed(e: seq<string>)
    requires WellFormed(e)
    ensures TableTokens(e).Ok?
    ensures |TableTokens(e).value| == 63
    ensures forall p :: 0 <= p < 62 ==> TableTokens(e).value[p] == PlannedToken(e, p / 2, p % 2)
    ensures TableTokens(e).value[62] == Words(e[ScalarRow])[2]
  {
    CollectWellFormed(e, |Plan()|);
    assert Plan()[..|Plan()|] == Plan();
  }

  /** Tables that agree on every planned cell agree on the first `k` planned reads. */
  lemma {:induction false} CollectAgrees(e1: seq<string>, e2: seq<string>, k: nat)
    requires k <= |Plan()|
    requires forall n :: 0 <= n < k ==> CellOf(e1, Plan()[n]) == CellOf(e2, Plan()[n])
    ensures Collect(e1, Plan()[..k]) == Collect(e2, Plan()[..k])
  {
    if k > 0 {
      CollectAgrees(e1, e2, k - 1);
      assert Plan()[..k][..k - 1] == Plan()[..k - 1];
    }
  }

  /**
   * The extraction depends only on the planned cells and on row 18: two
   * replies that agree there (and both reach row 18, or both do not) give the
   * same tokens or the same error.
   */
  lemma TableTokensReadOnlyPlanned(e1: seq<string>, e2: seq<string>)
    requires forall n :: 0 <= n < |Plan()| ==> CellOf(e1, Plan()[n]) == CellOf(e2, Plan()[n])
    requires ScalarRow < |e1| <==> ScalarRow < |e2|
    requires ScalarRow < |e1| ==> e1[ScalarRow] == e2[ScalarRow]
    ensures TableTokens(e1) == TableTokens(e2)
  {
    CollectAgrees(e1, e2, |Plan()|);
    assert Plan()[..|Plan()|] == Plan();
  }

  /** Rows 0-2, 15, 17 and anything after row 18 are never read. */
  lemma UnreadRowsIgnored(e1: seq<string>, e2: seq<string>)
    requires ScalarRow < |e1| && ScalarRow < |e2|
    requires forall i :: 3 <= i <= ScalarRow && i != 15 && i != 17 ==> e1[i] == e2[i]
    ensures TableTokens(e1) == TableTokens(e2)
  {
    PlanOrder();
    TableTokensReadOnlyPlanned(e1, e2);
  }

  /**
   * Replacing the label cell (cell 0) of any `|`-separated row leaves the
   * extraction unchanged (row 18 is read by whitespace, not by cell).
   */
  lemma LabelCellIgnored(e: seq<string>, i: nat, name: string)
    requires i < |e| && i != ScalarRow && |Split(e[i], '|')| >= 2
    requires '|' !in name
    ensures var cells := Split(e[i], '|');
      TableTokens(e[i := name + ['|'] + Join(cells[1..], '|')]) == TableTokens(e)
  {
    var cells := Split(e[i], '|');
    var e2 := e[i := name + ['|'] + Join(cells[1..], '|')];
    SplitJoin(cells[1..], '|');
    SplitFirstPiece(name, '|', Join(cells[1..], '|'));
    assert Split(e2[i], '|') == [name] + cells[1..];
    PlanOrder();
    forall n | 0 <= n < |Plan()|
      ensures CellOf(e, Plan()[n]) == CellOf(e2, Plan()[n])
    {
    }
    TableTokensReadOnlyPlanned(e, e2);
  }

  // ---------------------------------------------------------------------------
  // Rows laid out as the engine prints them

  /** A row of four `|`-separated cells. */
  function Row4(a: string, b: string, c: string, d: string): string
  {
    a + "|" + b + "|" + c + "|" + d
  }

  /**
   * A value cell as the engine prints it: the MG and EG values, each
   * right-aligned, so the blank runs before them vary with the width of the
   * value (one blank before `-0.36`, two before `0.23`), and possibly a
   * trailing blank.
   */
  datatype ValueCell = ValueCell(lead: string, mg: string, gap: string, eg: string, trail: string)

  /** A token the engine prints in a value cell: non-empty, no whitespace, no `|`. */
  predicate PrintedValue(v: string)
  {
    v != [] && NoSpace(v) && '|' !in v
  }

  /** Whitespace around the values, with at least one blank between them. */
  predicate PrintedCell(c: ValueCell)
  {
    && AllSpace(c.lead) && AllSpace(c.gap) && c.gap != [] && AllSpace(c.trail)
    && PrintedValue(c.mg) && PrintedValue(c.eg)
  }

  /** The text of a value cell. */
  function CellText(c: ValueCell): string
  {
    c.lead + c.mg + c.gap + c.eg + c.trail
  }

  /** A row made of four cells free of `|` splits back into those cells. */
  lemma SplitRow4(a: string, b: string, c: string, d: string)
    requires '|' !in a && '|' !in b && '|' !in c && '|' !in d
    ensures Split(Row4(a, b, c, d), '|') == [a, b, c, d]
  {
    var cells := [a, b, c, d];
    assert cells[1..] == [b, c, d];
    assert cells[1..][1..] == [c, d];
    assert cells[1..][1..][1..] == [d];
    assert Join([c, d], '|') == c + "|" + d;
    assert Join([b, c, d], '|') == b + "|" + (c + "|" + d);
    assert Join(cells, '|') == Row4(a, b, c, d);
    SplitJoin(cells, '|');
  }

  /** A printed value cell holds no `|` and splits into its MG and EG values. */
  lemma ValueCellWords(c: ValueCell)
    requires PrintedCell(c)
    ensures '|' !in CellText(c)
    ensures Words(CellText(c)) == [c.mg, c.eg]
  {
    assert !IsSpace('|');
    assert [c.mg, c.eg][1..] == [c.eg];
    assert [c.lead, c.gap][1..] == [c.gap];
    assert Padded([c.eg], [c.gap], c.trail) == c.gap + c.eg + c.trail;
    assert CellText(c) == Padded([c.mg, c.eg], [c.lead, c.gap], c.trail);
    WordsPadded([c.mg, c.eg], [c.lead, c.gap], c.trail);
  }

  /**
   * A row laid out as rows 6-14 of the table are printed (term name, then
   * White, Black and Total value cells): each value cell splits into its MG
   * and EG values, whatever the widths of the values and the blank runs.
   */
  lemma PieceRowTokens(term: string, white: ValueCell, black: ValueCell, total: ValueCell)
    requires '|' !in term
    requires PrintedCell(white) && PrintedCell(black) && PrintedCell(total)
    ensures var cells := Split(Row4(term, CellText(white), CellText(black), CellText(total)), '|');
      && |cells| == 4
      && Words(cells[1]) == [white.mg, white.eg]
      && Words(cells[2]) == [black.mg, black.eg]
      && Words(cells[3]) == [total.mg, total.eg]
  {
    ValueCellWords(white);
    ValueCellWords(black);
    ValueCellWords(total);
    SplitRow4(term, CellText(white), CellText(black), CellText(total));
  }

  /**
   * A row laid out as rows 3-5 are printed (term name, White and Black cells
   * the extraction never reads, then the Total value cell): the Total cell
   * splits into its MG and EG values.
   */
  lemma TermRowTokens(term: string, white: string, black: string, total: ValueCell)
    requires '|' !in term && '|' !in white && '|' !in black
    requires PrintedCell(total)
    ensures var cells := Split(Row4(term, white, black, CellText(total)), '|');
      |cells| == 4 && Words(cells[3]) == [total.mg, total.eg]
  {
    ValueCellWords(total);
    SplitRow4(term, white, black, CellText(total));
  }
}
