/**
 * `static_eval` on the engine's reply to `eval`: extract the tokens,
 * convert them, and in `'XG'` mode blend each midgame/endgame pair.
 * The two commands it sends are modelled as strings; the reply is given.
 */
module StaticEval {
  import opened Wrappers
  import opened PyStr
  import opened Errors
  import opened EvalTable
  import opened Numbers
  import opened Phase

  /** The phase selector that asks for blended values. */
  const Blended: string := "XG"

  /** The phase selector the game walker passes: midgame and endgame values kept apart. */
  const Separate: string := "MG EG"

  /** How `static_eval` sets up the position: from a FEN string, or from the start position and a move list. */
  datatype Mode = Fen | Start

  /** The position command `static_eval` sends before `eval`. */
  function PositionCommand(mode: Mode, info: string): string
  {
    match mode
    case Fen => "position fen " + info
    case Start => "position startpos moves" + info
  }

  /** `[float(x) for x in results]`: every token converted, or the first one that is not a number. */
  function ParseAll(tokens: seq<string>): (r: Result<seq<real>, Error>)
    ensures r.Ok? ==> |r.value| == |tokens| && forall i :: 0 <= i < |tokens| ==> ParseNum(tokens[i]) == Some(r.value[i])
    ensures r.Ok? <==> forall i :: 0 <= i < |tokens| ==> ParseNum(tokens[i]).Some?
    ensures r.Err? ==> exists i :: 0 <= i < |tokens| && r.error == NotANumber(tokens[i]) && ParseNum(tokens[i]).None? &&
                                   forall j :: 0 <= j < i ==> ParseNum(tokens[j]).Some?
  {
    if tokens == [] then Ok([])
    else
      match ParseNum(tokens[0])
      case None => Err(NotANumber(tokens[0]))
      case Some(v) =>
        match ParseAll(tokens[1..])
        case Err(x) => Err(x)
        case Ok(vs) => Ok([v] + vs)
  }

  /** The value `static_eval` returns for a reply, or the exception it raises. */
  function StaticEvalOf(evaluation: seq<string>, phase: string): Result<seq<real>, Error>
  {
    match TableTokens(evaluation)
    case Err(x) => Err(x)
    case Ok(tokens) =>
      match ParseAll(tokens)
      case Err(x) => Err(x)
      case Ok(raw) => if phase == Blended then Blend(raw) else Ok(raw)
  }

  /**
   * `static_eval`, given the engine's reply to `eval`: the same steps as
   * `StaticEvalOf`, but reading the table with the loops of `ExtractTokens`
   * as the script does; `StaticEvalOf` is its specification.
   */
  method StaticEval(evaluation: seq<string>, phase: string) returns (r: Result<seq<real>, Error>)
    ensures r == StaticEvalOf(evaluation, phase)
  {
    var tokens := ExtractTokens(evaluation);
    if tokens.Err? {
      return Err(tokens.error);
    }
    var results := ParseAll(tokens.value);
    if results.Err? {
      return results;
    }
    if phase == Blended {
      r := Blend(results.value);
    } else {
      r := results;
    }
  }

  /** A well-formed reply whose 63 tokens are all numbers. */
  predicate NumericTable(evaluation: seq<string>)
  {
    WellFormed(evaluation) && TableTokens(evaluation).Ok? && ParseAll(TableTokens(evaluation).value).Ok?
  }

  /**
   * Any selector other than `'XG'` (the game walker passes `'MG EG'`) gives
   * the 63 raw values unchanged, in table order: value `p < 62` is token
   * `p % 2` of planned cell `p / 2`, value 62 the scalar of row 18.
   */
  lemma StaticEvalRaw(evaluation: seq<string>, phase: string)
    requires NumericTable(evaluation) && phase != Blended
    ensures StaticEvalOf(evaluation, phase).Ok?
    ensures |StaticEvalOf(evaluation, phase).value| == 63
    ensures forall p :: 0 <= p < 62 ==>
      Some(StaticEvalOf(evaluation, phase).value[p]) == ParseNum(PlannedToken(evaluation, p / 2, p % 2))
    ensures Some(StaticEvalOf(evaluation, phase).value[62]) == ParseNum(Words(evaluation[ScalarRow])[2])
  {
    TableTokensWellFormed(evaluation);
  }

  /**
   * In `'XG'` mode a numeric table gives 31 values: value `k` blends raw
   * values `2k` and `2k + 1` with the factor `phi` computed from the totals,
   * and the last one (the Total pair) equals the scalar Total whenever the
   * midgame and endgame totals differ.
   */
  lemma StaticEvalBlended(evaluation: seq<string>)
    requires NumericTable(evaluation)
    ensures var raw := StaticEvalOf(evaluation, Separate);
      var r := StaticEvalOf(evaluation, Blended);
      && raw.Ok? && |raw.value| == 63
      && r.Ok? && |r.value| == 31
      && (forall k :: 0 <= k < 31 ==>
            r.value[k] == MgEg(Phi(raw.value[62], raw.value[60], raw.value[61]), raw.value[2 * k], raw.value[2 * k + 1]))
      && (raw.value[60] != raw.value[61] ==> r.value[30] == raw.value[62])
  {
    StaticEvalRaw(evaluation, Separate);
    BlendRaw(ParseAll(TableTokens(evaluation).value).value);
  }
}
