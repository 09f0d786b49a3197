# Static evaluation reply of a UCI engine, modelled in Dafny

`CreateStaticEvalGraphs.py` walks a chess game ply by ply. For each position it asks a
UCI engine (Stockfish 7) for a static evaluation (`eval`). It reads back the engine's
fixed-layout table and turns it into a row of numbers: midgame (MG) and endgame (EG)
values per evaluation term, plus the final scalar. The matrix of rows is later charted
column by column, with columns looked up by name in `EvalHeader`.

This project models the core of that script:

- **Framing** (`EngineSession`, file `engine_session.dfy`). `get` reads lines until the
  engine answers `readyok`. Each line is `rstrip`ped and blank lines are kept. The pipe
  is modelled as the finite sequence of lines the engine emits.
- **Table extraction** (`EvalTable`). `static_eval` reads rows 3-5 cell 3, rows 6-14
  cells 1-3, row 16 cell 3 (split on `|`, then on whitespace) and the third word of
  row 18. The reads are a fixed *plan* of 31 cells. The method `ExtractTokens` keeps the
  source's nested loops and is proved equal to a specification function over the plan.
- **Number conversion** (`Numbers`). `float(token)` on the plain signed decimals the
  engine prints, over exact reals. The two-decimal rendering of the engine round-trips.
- **Phase blend** (`Phase`). `phi`, `mg_eg` and the `'XG'` list comprehension, over
  `real`.
- **`static_eval`** (`StaticEval`). Extraction, conversion and the optional blend.
  The position command it sends is modelled as a string.
- **The matrix** (`EvalMatrix`). The row layout (`scores.insert(0, move_notation)`),
  `get_column`, `EvalHeader` and `EvalHeader.index`.
- **The game walker** (`GameWalker`). `static_eval_pgn`: the move-label format, the
  cumulative UCI move list and the loop that builds the matrix. The chess library's
  answers for each ply (move number, side to move, SAN and UCI text) are given as data.
  The engine is a function from the position command to its reply to `eval`.
- Python's `str` behaviour that all of this relies on (`PyStr`): `isspace`, `rstrip()`,
  `split(sep)`, `split()` and `str(n)`.

Python exceptions are modelled as the `Error` datatype of module `Errors`, never as preconditions:

- `IndexError` on a missing line, cell or word;
- `ValueError` from `float`;
- `IndexError` from `results[-3]` on a short list.

## Model

| member | source | states |
|---|---|---|
| EngineSession.Get | code/CreateStaticEvalGraphs.py:34-50 | The output is, in order, the `rstrip`ped lines before the first line that strips to `readyok`. Blank lines are kept and no output line equals `readyok`. The lines after the sentinel stay unread. Without a sentinel the whole stream is consumed and `found` is false. |
| PyStr.RStrip | code/CreateStaticEvalGraphs.py:42 | `rstrip()` gives a prefix of the line that does not end in whitespace, and every dropped character is whitespace. |
| PyStr.RStripIgnoresTrailingSpace | code/CreateStaticEvalGraphs.py:42-44 | Trailing whitespace (such as `\r`) added to a line does not change what `rstrip()` gives, so `readyok\r\n` is still recognised as the sentinel. |
| PyStr.Split | code/CreateStaticEvalGraphs.py:145-149 | `split` on the cell separator always gives at least one piece, and no piece contains the separator. |
| PyStr.JoinSplit | code/CreateStaticEvalGraphs.py:145-149 | Joining the pieces of `split(sep)` with `sep` gives back the line. |
| PyStr.SplitJoin | code/CreateStaticEvalGraphs.py:145-149 | Splitting a join of separator-free pieces gives back the pieces. |
| PyStr.Words | code/CreateStaticEvalGraphs.py:145-150 | Every word of `split()` is non-empty and free of whitespace. Which words the table cells give is stated by `WordsStep` and `WordsPadded`. |
| PyStr.WordsSpaced | code/CreateStaticEvalGraphs.py:145-150 | `split()` recovers exactly the words laid out with blanks between them. |
| PyStr.WordsSkipsSpace | code/CreateStaticEvalGraphs.py:145-150 | Leading whitespace does not change the words of `split()`. |
| PyStr.WordsStep | code/CreateStaticEvalGraphs.py:145-150 | A whitespace-free word followed by whitespace, or by nothing, is the first word of `split()`, and the rest is split on its own. |
| PyStr.WordsPadded | code/CreateStaticEvalGraphs.py:145-150 | `split()` gives back, in order, the words of any layout with whitespace runs of any length between them and any whitespace before and after. |
| PyStr.NatToString | code/CreateStaticEvalGraphs.py:214 | `str(n)` is a non-empty digit string with no leading zero. |
| PyStr.DigitsValueOfNatToString | code/CreateStaticEvalGraphs.py:214 | Reading back the digits of `str(n)` gives `n`. |
| EvalTable.ReadCell | code/CreateStaticEvalGraphs.py:145 | One read `evaluation[row].split('|')[cell].split()` extends the tokens of the planned reads before it by that cell's words. A failing read (missing line or cell) is the error of the whole extraction. |
| EvalTable.ExtractTokens | code/CreateStaticEvalGraphs.py:143-150 | The nested loops compute exactly the plan-based token list, including which error the first failing read raises. |
| EvalTable.ReadFailureIsFinal | code/CreateStaticEvalGraphs.py:143-150 | The first read of the plan that fails determines the error of the whole extraction. |
| EvalTable.CollectErrorSticks | code/CreateStaticEvalGraphs.py:143-150 | Once a read has failed, reading more cells keeps that error. |
| EvalTable.PlanOrder | code/CreateStaticEvalGraphs.py:144-149 | The reads go through rows in ascending order and, within a row, cells left to right. They touch only cells 1-3, only rows 3-14 and 16, and only cell 3 of rows 3-5 and 16. |
| EvalTable.TableTokensWellFormed | code/CreateStaticEvalGraphs.py:143-150 | On a well-formed table there are exactly 63 tokens. Token `p < 62` is token `p % 2` (MG, then EG) of planned cell `p / 2`, and token 62 is the third word of row 18. |
| EvalTable.CollectWellFormed | code/CreateStaticEvalGraphs.py:143-149 | The first `k` planned cells of a well-formed table give `2k` tokens, cell after cell. |
| EvalTable.TableTokensReadOnlyPlanned | code/CreateStaticEvalGraphs.py:143-150 | The result depends only on the planned cells and on row 18. |
| EvalTable.UnreadRowsIgnored | code/CreateStaticEvalGraphs.py:144-150 | Rows 0-2, 15 and 17, and any rows after 18, never influence the result. |
| EvalTable.LabelCellIgnored | code/CreateStaticEvalGraphs.py:145-149 | Replacing the label cell (cell 0) of any cell-separated row other than row 18 never changes the result. |
| EvalTable.SplitRow4 | code/CreateStaticEvalGraphs.py:145-149 | A row of four cells free of `|` splits back into exactly those cells. |
| EvalTable.ValueCellWords | code/CreateStaticEvalGraphs.py:145-149 | A value cell holds no `|` and splits into its MG and EG values. The cell has any whitespace before the MG value, at least one blank before the EG value and any trailing whitespace, as right-aligned values of any width produce (one blank before `-0.36`, two before `0.23`). |
| EvalTable.PieceRowTokens | code/CreateStaticEvalGraphs.py:147-149 | In a row printed like rows 6-14 (a term name, then three value cells), cells 1-3 each give their MG and EG values, whatever the value widths, the blank runs and the trailing blanks. |
| EvalTable.TermRowTokens | code/CreateStaticEvalGraphs.py:144-145 | In a row printed like rows 3-5 (a term name, two `|`-free cells that are never read, then a value cell), cell 3 gives its MG and EG values. |
| Numbers.ParseFormatHundredths | code/CreateStaticEvalGraphs.py:151 | `float` of a two-decimal token as the engine prints it (`1.07`, `-0.36`) gives exactly that many hundredths. |
| Numbers.ParseUnsignedPoint | code/CreateStaticEvalGraphs.py:151 | A point between a non-empty digit run and a digit run reads as whole part plus fraction. |
| Phase.Phi | code/CreateStaticEvalGraphs.py:117-128 | `phi` is 0 when Total MG equals Total EG (no division). Otherwise it is the factor that blends the two totals into Total. |
| Phase.MgEgEqualPair | code/CreateStaticEvalGraphs.py:130-135 | A pair whose MG and EG agree blends to that value for any `phi`. |
| Phase.MgEgEndpoints | code/CreateStaticEvalGraphs.py:130-135 | Factor 0 gives the MG value and factor 1 the EG value. |
| Phase.MgEgOfPhi | code/CreateStaticEvalGraphs.py:125-135 | Blending the totals with their own `phi` gives back Total exactly, or Total MG when MG = EG. |
| Phase.PhiOfMgEg | code/CreateStaticEvalGraphs.py:125-135 | For distinct MG and EG, `phi` recovers the factor of any blend. |
| Phase.Blend | code/CreateStaticEvalGraphs.py:154-157 | The `'XG'` step fails exactly when fewer than three values are present (`results[-3]`), and otherwise yields `len // 2` values. |
| Phase.BlendRaw | code/CreateStaticEvalGraphs.py:156-157 | On 63 raw values: 31 results, value `k` the blend of `raw[2k]` and `raw[2k+1]`, and the trailing scalar is not output on its own. The last result equals the scalar Total when Total MG ≠ Total EG. Equal pairs keep their value. |
| StaticEval.ParseAll | code/CreateStaticEvalGraphs.py:151 | The conversion succeeds iff every token is a number, and then converts each token in place. Otherwise it fails on the first token that is not a number. |
| StaticEval.StaticEval | code/CreateStaticEvalGraphs.py:142-160 | The method (extraction, conversion, optional blend) computes exactly the specification `StaticEvalOf`, errors included. |
| StaticEval.StaticEvalRaw | code/CreateStaticEvalGraphs.py:154 | With any selector other than `'XG'` (the walker passes `'MG EG'`), a numeric table gives its 63 raw values unchanged and in table order. |
| StaticEval.StaticEvalBlended | code/CreateStaticEvalGraphs.py:154-157 | With `'XG'` a numeric table gives 31 values, each the blend of a raw pair with the `phi` of the totals. The last value equals the scalar Total when the totals differ. |
| EvalMatrix.MakeRow | code/CreateStaticEvalGraphs.py:220 | A row is the move label followed by the scores, in order. |
| EvalMatrix.RowMatchesHeader | code/CreateStaticEvalGraphs.py:65-79 | A row of 63 scores has one entry per `EvalHeader` name (64). |
| EvalMatrix.GetColumn | code/CreateStaticEvalGraphs.py:20-27 | `get_column(m, i)` succeeds iff every row has an entry `i`. It then has one element per row, the `k`-th being `m[k][i]`. |
| EvalMatrix.GetColumnAppend | code/CreateStaticEvalGraphs.py:27 | Appending a row appends its entry to the column. |
| EvalMatrix.IndexOf | code/CreateStaticEvalGraphs.py:245 | `EvalHeader.index(name)` returns the first position holding the name, and fails (`ValueError`) iff the name is absent. |
| EvalMatrix.IndexOfFirst | code/CreateStaticEvalGraphs.py:245 | A name held at `i` and nowhere before is found at `i`. |
| EvalMatrix.ImbalanceMgResolvesFirst | code/CreateStaticEvalGraphs.py:65-67 | The duplicated name `'Imbalance Total MG'` resolves to column 3. |
| EvalMatrix.PawnsMgResolvesFirst | code/CreateStaticEvalGraphs.py:65-68 | The duplicated name `'Pawns Total MG'` resolves to column 5. |
| EvalMatrix.CorrectedHeaderNamesLayout | code/CreateStaticEvalGraphs.py:65-79 | In the corrected header, column `1 + p` is named after the table cell and phase of raw value `p`, for all 62 paired values. The header starts with `'Move'` and ends with `'Total'`. |
| EvalMatrix.EndgameColumnsUnreachable | code/CreateStaticEvalGraphs.py:67-68 | As written, the header differs from the layout only at columns 4 and 6, which repeat the MG names. No name lookup can ever return 4 or 6. |
| EvalMatrix.CorrectedHeaderFindsImbalance | code/CreateStaticEvalGraphs.py:65-67 | With the corrected header, both Imbalance totals are found by name, at 3 and 4. |
| EvalMatrix.CorrectedHeaderFindsPawns | code/CreateStaticEvalGraphs.py:65-68 | With the corrected header, both Pawns totals are found by name, at 5 and 6. |
| GameWalker.MoveLabelRoundTrip | code/CreateStaticEvalGraphs.py:214-217 | A move label determines its move number, side to move and SAN, since the label format is invertible. |
| GameWalker.ParseLabelParts | code/CreateStaticEvalGraphs.py:214-217 | A label splits after its leading digits and `". "`, and the `"... "` marker identifies Black. |
| GameWalker.UciMovesSpaced | code/CreateStaticEvalGraphs.py:210-218 | The cumulative move list is the UCI moves, each preceded by one blank. |
| GameWalker.UciMovesWords | code/CreateStaticEvalGraphs.py:210-218 | Read word by word, the move list gives exactly the UCI moves played, in order. |
| GameWalker.StartCommandWords | code/CreateStaticEvalGraphs.py:137-141 | The command sent for a ply reads as `position startpos moves` followed by exactly the UCI moves played so far. |
| GameWalker.StaticEvalPgn | code/CreateStaticEvalGraphs.py:209-223 | The loop computes exactly the walk over the per-ply evaluations. |
| GameWalker.WalkOkIff | code/CreateStaticEvalGraphs.py:212-222 | The walk succeeds iff every per-ply evaluation does. |
| GameWalker.WalkRows | code/CreateStaticEvalGraphs.py:214-221 | A successful walk has one row per ply: the ply's label, then the evaluation of the position after it. |
| GameWalker.WalkFirstError | code/CreateStaticEvalGraphs.py:219 | A failed walk carries the error of the first failing evaluation, and every earlier one succeeded. |
| GameWalker.WalkErrSticks | code/CreateStaticEvalGraphs.py:219 | An exception aborts the walk: later plies do not change the error. |
| GameWalker.MatrixColumns | code/CreateStaticEvalGraphs.py:219-221 | When every reply is a numeric table, the walk succeeds. Every row then has 64 entries, every header column can be extracted, and column 0 lists the move labels. |

## Left out

- Process handling is not modelled: spawning the engine, `put`, `exec_engine`, `init_engine`, pipe writes, `isready`, and the `trace` printing.
- The pipe is not modelled. The engine's output is a given finite line sequence, and its reply to `eval` is a function of the position command.
- Get: where the script would block or loop forever on a stream without `readyok`, the model returns `found = false`.
- Floating point is replaced by exact reals. Blend values are therefore exact: `phi` and `mg_eg` do not round.
- ParseNum: accepts only plain signed decimals (digits with an optional point). Exponents, `inf`, `nan`, underscores and surrounding whitespace are not accepted, because the engine's table never prints them.
- Python's `phi` returns the integer `0` in the degenerate case. The model uses `0.0`.
- The chess library is not modelled: PGN reading, board state, SAN and UCI generation. The walker receives each ply's move number, side, SAN and UCI text as data.
- The series-styling rule (lines 265-277) is not modelled. Its substring tests on header names are left out.
- Charting (`plot_scores`, Bokeh), `print_scores`, `open_pgn`/`read_pgn`/`close_pgn` and the `plot_pgn` driver are not modelled. They are I/O or rendering, and `print_scores` refers to an undefined global.
- The docstring example row of `static_eval_pgn` (code/CreateStaticEvalGraphs.py lines 199-204) holds the move label and 63 values, matching what the code yields; the model follows the code.

## Findings

| source | as written | input that shows it | evidently intended | confidence | as-written member | corrected member |
|---|---|---|---|---|---|---|
| code/CreateStaticEvalGraphs.py:67-68 | `EvalHeader` names columns 4 and 6 `'Imbalance Total MG'` and `'Pawns Total MG'`, the same as columns 3 and 5, although they hold the EG values of those rows | No name passed to `EvalHeader.index` can yield column 4 or 6: `'Imbalance Total MG'` gives 3 and `'Pawns Total MG'` gives 5, so no subplot can select the Imbalance or Pawns EG column | `'Imbalance Total EG'` and `'Pawns Total EG'` | not executed | EvalMatrix.EndgameColumnsUnreachable | EvalMatrix.CorrectedHeaderNamesLayout |
