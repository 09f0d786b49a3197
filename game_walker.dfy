/**
 * The game walker (`static_eval_pgn`): for each ply of the mainline, build
 * the move label, extend the move list, have the engine evaluate the
 * position, and append the labelled row. The chess library's view of each
 * ply (move number, side to move, SAN and UCI text) is given as a `Ply`
 * value, and the engine is a function from the position command it was
 * last sent to its reply to `eval`.
 */
module GameWalker {
  import opened Wrappers
  import opened PyStr
  import opened Errors
  import opened EvalTable
  import opened StaticEval
  import opened EvalMatrix

  /** What the script reads from the board before one mainline move. */
  datatype Ply = Ply(fullmove: nat, blackToMove: bool, san: string, uci: string)

  /** The marker written between the move number and a Black move. */
  function SideMarker(blackToMove: bool): string
  {
    if blackToMove then "... " else ""
  }

  /** The label of a move: `"12. Nf3"` for White, `"12. ... Nf6"` for Black. */
  function MoveLabel(p: Ply): string
  {
    NatToString(p.fullmove) + ". " + SideMarker(p.blackToMove) + p.san
  }

  /** Length of the run of decimal digits that starts `s`. */
  function DigitRun(s: string): (n: nat)
    ensures n <= |s| && AllDigits(s[..n])
    ensures n == |s| || !IsDigit(s[n])
  {
    if s == [] || !IsDigit(s[0]) then 0
    else
      var n := 1 + DigitRun(s[1..]);
      assert s[..n] == [s[0]] + s[1..][..n - 1];
      n
  }

  /** Reads a label back into its move number, side and SAN; the inverse of `MoveLabel`. */
  function ParseMoveLabel(text: string): Option<(nat, bool, string)>
  {
    var n := DigitRun(text);
    if n == 0 || n + 2 > |text| || text[n..n + 2] != ". " then None
    else
      var rest := text[n + 2..];
      if |rest| >= 4 && rest[..4] == "... " then Some((DigitsValue(text[..n]), true, rest[4..]))
      else Some((DigitsValue(text[..n]), false, rest))
  }

  lemma {:induction false} DigitRunOfDigits(digits: string, rest: string)
    requires AllDigits(digits)
    requires rest == [] || !IsDigit(rest[0])
    ensures DigitRun(digits + rest) == |digits|
  {
    if digits != [] {
      assert (digits + rest)[1..] == digits[1..] + rest;
      DigitRunOfDigits(digits[1..], rest);
    } else {
      assert digits + rest == rest;
    }
  }

  /**
   * A label determines its move number, side to move and SAN (for any SAN
   * that does not itself start with a point, as no SAN move does).
   */
  lemma MoveLabelRoundTrip(p: Ply)
    requires p.san == [] || p.san[0] != '.'
    ensures ParseMoveLabel(MoveLabel(p)) == Some((p.fullmove, p.blackToMove, p.san))
  {
    var rest := SideMarker(p.blackToMove) + p.san;
    assert MoveLabel(p) == NatToString(p.fullmove) + ". " + rest;
    ParseLabelParts(NatToString(p.fullmove), rest);
    DigitsValueOfNatToString(p.fullmove);
    if p.blackToMove {
      assert rest[..4] == "... ";
      assert rest[4..] == p.san;
    } else {
      assert rest == p.san;
      assert |rest| >= 4 ==> rest[..4][0] != '.';
    }
  }

  /** A label splits at the end of its leading digits, which must be followed by `". "`. */
  lemma ParseLabelParts(digits: string, rest: string)
    requires digits != [] && AllDigits(digits)
    ensures ParseMoveLabel(digits + ". " + rest) ==
      if |rest| >= 4 && rest[..4] == "... " then Some((DigitsValue(digits), true, rest[4..]))
      else Some((DigitsValue(digits), false, rest))
  {
    var text := digits + ". " + rest;
    var n := |digits|;
    assert text == digits + (". " + rest);
    DigitRunOfDigits(digits, ". " + rest);
    assert text[..n] == digits;
    assert text[n..n + 2] == ". ";
    assert text[n + 2..] == rest;
  }

  /** `uci_moves` after the given plies: each UCI move preceded by one blank. */
  function UciMoves(plies: seq<Ply>): string
  {
    if plies == [] then "" else UciMoves(plies[..|plies| - 1]) + " " + plies[|plies| - 1].uci
  }

  function UciList(plies: seq<Ply>): (r: seq<string>)
    ensures |r| == |plies| && forall k :: 0 <= k < |plies| ==> r[k] == plies[k].uci
  {
    seq(|plies|, k requires 0 <= k < |plies| => plies[k].uci)
  }

  /** The move list is the UCI moves laid out with one blank before each. */
  lemma {:induction false} UciMovesSpaced(plies: seq<Ply>)
    ensures UciMoves(plies) == Spaced(UciList(plies))
  {
    if plies != [] {
      var init := plies[..|plies| - 1];
      UciMovesSpaced(init);
      assert UciList(plies) == UciList(init) + [plies[|plies| - 1].uci];
      SpacedAppend(UciList(init), [plies[|plies| - 1].uci]);
      assert Spaced([plies[|plies| - 1].uci]) == " " + plies[|plies| - 1].uci;
    }
  }

  /**
   * The move list read word by word gives the plies' UCI moves in order
   * (UCI moves being non-empty and blank-free), so the command
   * `position startpos moves` + list names exactly the moves played so far.
   */
  lemma UciMovesWords(plies: seq<Ply>)
    requires forall k :: 0 <= k < |plies| ==> plies[k].uci != [] && NoSpace(plies[k].uci)
    ensures Words(UciMoves(plies)) == UciList(plies)
  {
    UciMovesSpaced(plies);
    WordsSpaced(UciList(plies));
  }

  /** The words that open the command of the walk. */
  const CommandHead: seq<string> := ["position", "startpos", "moves"]

  /** The opening words are non-empty and blank-free. */
  lemma CommandHeadWords()
    ensures forall k :: 0 <= k < |CommandHead| ==> CommandHead[k] != [] && NoSpace(CommandHead[k])
  {
    forall k | 0 <= k < |CommandHead| ensures NoSpace(CommandHead[k]) {
      var w := CommandHead[k];
      forall i | 0 <= i < |w| ensures !IsSpace(w[i]) {
        assert 'a' <= w[i] <= 'z' by {
          if k == 0 { } else if k == 1 { } else { }
        }
      }
    }
  }

  /** The opening words laid out with one blank before each. */
  lemma CommandHeadSpaced()
    ensures Spaced(CommandHead) == [' '] + "position startpos moves"
  {
    assert CommandHead[1..][1..][1..] == [];
  }

  /**
   * The position command of the walk, read word by word, is `position`,
   * `startpos`, `moves` and then exactly the UCI moves played so far.
   */
  lemma StartCommandWords(plies: seq<Ply>)
    requires forall k :: 0 <= k < |plies| ==> plies[k].uci != [] && NoSpace(plies[k].uci)
    ensures Words(PositionCommand(Start, UciMoves(plies))) == CommandHead + UciList(plies)
  {
    StartCommandLayout(plies);
    CommandWordsClean(plies);
    WordsAfterBlank(PositionCommand(Start, UciMoves(plies)), CommandHead + UciList(plies));
  }

  /** A blank and the command of the walk lay out the opening words and then the UCI moves. */
  lemma StartCommandLayout(plies: seq<Ply>)
    ensures [' '] + PositionCommand(Start, UciMoves(plies)) == Spaced(CommandHead + UciList(plies))
  {
    CommandHeadSpaced();
    UciMovesSpaced(plies);
    SpacedAfterPrefix("position startpos moves", CommandHead, UciMoves(plies), UciList(plies));
  }

  /** The words of the command of the walk are all non-empty and blank-free. */
  lemma CommandWordsClean(plies: seq<Ply>)
    requires forall k :: 0 <= k < |plies| ==> plies[k].uci != [] && NoSpace(plies[k].uci)
    ensures forall k :: 0 <= k < |CommandHead + UciList(plies)| ==>
      (CommandHead + UciList(plies))[k] != [] && NoSpace((CommandHead + UciList(plies))[k])
  {
    CommandHeadWords();
    var words := CommandHead + UciList(plies);
    forall k | 0 <= k < |words| ensures words[k] != [] && NoSpace(words[k]) {
      if k < |CommandHead| { assert words[k] == CommandHead[k]; } else { assert words[k] == UciList(plies)[k - |CommandHead|]; }
    }
  }



  /** One more ply adds a blank and its UCI move to the move list. */
  lemma UciMovesStep(plies: seq<Ply>, i: nat)
    requires i < |plies|
    ensures UciMoves(plies[..i + 1]) == UciMoves(plies[..i]) + " " + plies[i].uci
  {
    assert plies[..i + 1][..i] == plies[..i];
  }

  /** The engine's reply to `eval` once it has been sent the first `k + 1` plies. */
  function ReplyOfPly(plies: seq<Ply>, engine: string -> seq<string>, k: nat): seq<string>
    requires k < |plies|
  {
    engine(PositionCommand(Start, UciMoves(plies[..k + 1])))
  }

  /** `static_eval('start', uci_moves, 'MG EG')` after the first `k + 1` plies. */
  function EvalOfPly(plies: seq<Ply>, engine: string -> seq<string>, k: nat): Result<seq<real>, Error>
    requires k < |plies|
  {
    StaticEvalOf(ReplyOfPly(plies, engine, k), Separate)
  }

  /** The evaluations the walk asks for, one per ply. */
  function Evaluations(plies: seq<Ply>, engine: string -> seq<string>): (r: seq<Result<seq<real>, Error>>)
    ensures |r| == |plies| && forall k :: 0 <= k < |plies| ==> r[k] == EvalOfPly(plies, engine, k)
  {
    seq(|plies|, k requires 0 <= k < |plies| => EvalOfPly(plies, engine, k))
  }

  /**
   * The walk over the first `n` plies, given the evaluation of the position
   * after each ply: one row per ply, the label of the ply followed by its
   * evaluation; the first failing evaluation ends the walk with its error.
   */
  function Walk(plies: seq<Ply>, evals: seq<Result<seq<real>, Error>>, n: nat): Result<seq<Row>, Error>
    requires n <= |plies| == |evals|
  {
    if n == 0 then Ok([])
    else
      match Walk(plies, evals, n - 1)
      case Err(e) => Err(e)
      case Ok(rows) =>
        if evals[n - 1].Err? then Err(evals[n - 1].error)
        else Ok(rows + [MakeRow(MoveLabel(plies[n - 1]), evals[n - 1].value)])
  }

  /** Once the walk has failed, walking further plies keeps the same error. */
  lemma {:induction false} WalkErrSticks(plies: seq<Ply>, evals: seq<Result<seq<real>, Error>>, n: nat, m: nat)
    requires n <= m <= |plies| == |evals|
    requires Walk(plies, evals, n).Err?
    ensures Walk(plies, evals, m) == Walk(plies, evals, n)
  {
    if n < m {
      WalkErrSticks(plies, evals, n, m - 1);
    }
  }

  /** The walk succeeds exactly when every evaluation along it does. */
  lemma {:induction false} WalkOkIff(plies: seq<Ply>, evals: seq<Result<seq<real>, Error>>, n: nat)
    requires n <= |plies| == |evals|
    ensures Walk(plies, evals, n).Ok? <==> forall k :: 0 <= k < n ==> evals[k].Ok?
  {
    if n > 0 {
      WalkOkIff(plies, evals, n - 1);
    }
  }

  /**
   * A successful walk has one row per ply, made of the ply's label and the
   * evaluation of the position after it.
   */
  lemma {:induction false} WalkRows(plies: seq<Ply>, evals: seq<Result<seq<real>, Error>>, n: nat)
    requires n <= |plies| == |evals|
    requires Walk(plies, evals, n).Ok?
    ensures |Walk(plies, evals, n).value| == n
    ensures forall k :: 0 <= k < n ==>
      evals[k].Ok? && Walk(plies, evals, n).value[k] == MakeRow(MoveLabel(plies[k]), evals[k].value)
  {
    if n > 0 {
      WalkRows(plies, evals, n - 1);
    }
  }

  /**
   * A failed walk carries the error of the first failing evaluation: every
   * evaluation before it succeeded.
   */
  lemma {:induction false} WalkFirstError(plies: seq<Ply>, evals: seq<Result<seq<real>, Error>>, n: nat)
    requires n <= |plies| == |evals|
    requires Walk(plies, evals, n).Err?
    ensures exists k :: 0 <= k < n && evals[k] == Err(Walk(plies, evals, n).error) &&
                        forall j :: 0 <= j < k ==> evals[j].Ok?
  {
    if Walk(plies, evals, n - 1).Err? {
      WalkFirstError(plies, evals, n - 1);
    } else {
      WalkOkIff(plies, evals, n - 1);
    }
  }

  /**
   * `static_eval_pgn`: walks the plies in order, extending the cumulative
   * move list by one UCI move per ply, sending it with `static_eval` and
   * appending the labelled row; the first failing evaluation aborts the walk.
   */
  method StaticEvalPgn(plies: seq<Ply>, engine: string -> seq<string>) returns (r: Result<seq<Row>, Error>)
    ensures r == Walk(plies, Evaluations(plies, engine), |plies|)
  {
    ghost var evals := Evaluations(plies, engine);
    var output: seq<Row> := [];
    var uciMoves := "";
    var i := 0;
    while i < |plies|
      invariant 0 <= i <= |plies|
      invariant uciMoves == UciMoves(plies[..i])
      invariant Walk(plies, evals, i) == Ok(output)
    {
      var moveNotation := MoveLabel(plies[i]);
      uciMoves := uciMoves + " " + plies[i].uci;
      UciMovesStep(plies, i);
      var scores := StaticEval.StaticEval(engine(PositionCommand(Start, uciMoves)), Separate);
      assert evals[i] == scores;
      if scores.Err? {
        WalkErrSticks(plies, evals, i + 1, |plies|);
        return Err(scores.error);
      }
      output := output + [MakeRow(moveNotation, scores.value)];
      i := i + 1;
    }
    r := Ok(output);
  }

  /**
   * When the engine answers every position with a numeric table, the walk
   * succeeds and every row has one entry per header name, so every column
   * can be extracted; column 0 lists the move labels.
   */
  lemma MatrixColumns(plies: seq<Ply>, engine: string -> seq<string>)
    requires forall k :: 0 <= k < |plies| ==> NumericTable(ReplyOfPly(plies, engine, k))
    ensures Walk(plies, Evaluations(plies, engine), |plies|).Ok?
    ensures var rows := Walk(plies, Evaluations(plies, engine), |plies|).value;
      |rows| == |plies| &&
      (forall k :: 0 <= k < |rows| ==> |rows[k]| == |EvalHeader|) &&
      (forall i :: 0 <= i < |EvalHeader| ==> GetColumn(rows, i).Some?) &&
      GetColumn(rows, 0).Some? && forall k :: 0 <= k < |plies| ==> GetColumn(rows, 0).value[k] == Label(MoveLabel(plies[k]))
  {
    forall k | 0 <= k < |plies| ensures EvalOfPly(plies, engine, k).Ok? && |EvalOfPly(plies, engine, k).value| == 63 {
      StaticEvalRaw(ReplyOfPly(plies, engine, k), Separate);
    }
    var evals := Evaluations(plies, engine);
    WalkOkIff(plies, evals, |plies|);
    WalkRows(plies, evals, |plies|);
  }
}
