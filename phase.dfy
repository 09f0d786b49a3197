/**
 * The game-phase blend of `static_eval` in `'XG'` mode, over exact reals:
 * `phi` recovers where the total evaluation lies between the midgame and
 * endgame totals, and `mg_eg` interpolates a midgame/endgame pair with it.
 */
module Phase {
  import opened Wrappers
  import opened Errors

  /**
   * `phi([total, mg, eg])`: 0 when the midgame and endgame totals coincide
   * (the guard against dividing by zero), otherwise the one blend factor
   * that turns the pair into `total`.
   */
  function Phi(total: real, mg: real, eg: real): (r: real)
    ensures mg == eg ==> r == 0.0
    ensures mg != eg ==> mg + r * (eg - mg) == total
  {
    if mg == eg then 0.0 else (total - mg) / (eg - mg)
  }

  /** `mg_eg([phi, mg, eg])`: the point `phi` of the way from `mg` to `eg`. */
  function MgEg(phi: real, mg: real, eg: real): real
  {
    mg + phi * (eg - mg)
  }

  /** A pair whose two values agree blends to that value, whatever the factor. */
  lemma MgEgEqualPair(phi: real, v: real)
    ensures MgEg(phi, v, v) == v
  {
  }

  /** Factor 0 gives the midgame value and factor 1 the endgame value. */
  lemma MgEgEndpoints(mg: real, eg: real)
    ensures MgEg(0.0, mg, eg) == mg && MgEg(1.0, mg, eg) == eg
  {
  }

  /** Blending the totals with their own `phi` gives back the total (or the midgame total when the pair is degenerate). */
  lemma MgEgOfPhi(total: real, mg: real, eg: real)
    ensures MgEg(Phi(total, mg, eg), mg, eg) == if mg == eg then mg else total
  {
  }

  /** `phi` recovers the factor of a blend of a non-degenerate pair. */
  lemma PhiOfMgEg(phi: real, mg: real, eg: real)
    requires mg != eg
    ensures Phi(MgEg(phi, mg, eg), mg, eg) == phi
  {
    var t := MgEg(phi, mg, eg);
    assert t - mg == phi * (eg - mg);
  }

  /** Consecutive pairs `(vals[2k], vals[2k+1])` blended with `phi0`. */
  function BlendPairs(phi0: real, vals: seq<real>): (r: seq<real>)
    ensures |r| == |vals| / 2
  {
    seq(|vals| / 2, k requires 0 <= k < |vals| / 2 => MgEg(phi0, vals[2 * k], vals[2 * k + 1]))
  }

  /**
   * The `'XG'` branch: `phi0` from the last three values (Total MG, Total EG,
   * Total), then one blended value per pair for `i in range(0, len - 1, 2)`.
   * Fewer than three values make `results[-3]` raise.
   */
  function Blend(vals: seq<real>): (r: Result<seq<real>, Error>)
    ensures r.Err? <==> |vals| < 3
    ensures r.Err? ==> r.error == TooFewValues(|vals|)
    ensures r.Ok? ==> |r.value| == |vals| / 2
  {
    if |vals| < 3 then Err(TooFewValues(|vals|))
    else
      var n := |vals|;
      Ok(BlendPairs(Phi(vals[n - 1], vals[n - 3], vals[n - 2]), vals))
  }

  /**
   * On the 63 raw values: 31 blended values, value `k` the blend of
   * `raw[2k]` and `raw[2k+1]`; the trailing scalar is not output on its own,
   * but when the totals differ the last blended value (the Total pair)
   * equals it exactly; equal pairs keep their value.
   */
  lemma BlendRaw(raw: seq<real>)
    requires |raw| == 63
    ensures Blend(raw).Ok? && |Blend(raw).value| == 31
    ensures forall k :: 0 <= k < 31 ==>
      Blend(raw).value[k] == MgEg(Phi(raw[62], raw[60], raw[61]), raw[2 * k], raw[2 * k + 1])
    ensures forall k :: 0 <= k < 31 && raw[2 * k] == raw[2 * k + 1] ==> Blend(raw).value[k] == raw[2 * k]
    ensures raw[60] != raw[61] ==> Blend(raw).value[30] == raw[62]
    ensures raw[60] == raw[61] ==> Blend(raw).value[30] == raw[60]
  {
    MgEgOfPhi(raw[62], raw[60], raw[61]);
  }
}
