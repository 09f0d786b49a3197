/**
 * The exceptions `static_eval` can raise on an engine reply: a missing
 * line, cell or token while reading the table, a token `float` rejects,
 * and a value list too short for the `'XG'` blend.
 */
module Errors {

  /** What Python would raise while evaluating one position. */
  datatype Error =
    | LineMissing(row: nat)              // `evaluation[row]`: IndexError
    | CellMissing(row: nat, cell: nat)   // `.split('|')[cell]`: IndexError
    | TokenMissing(row: nat)             // `.split()[2]`: IndexError
    | NotANumber(token: string)          // `float(token)`: ValueError
    | TooFewValues(count: nat)           // `results[-3]` on a short list: IndexError
}
