/** Values, errors and results shared by the whole model.

    Python raises exceptions; the model returns them as values, so every
    operation that can raise has a `Result` or `Outcome` type and its
    contract says exactly when it fails. */
module Common {

  /** The Python values that travel through keyword-argument dictionaries
      (session configurations and move-selection arguments). */
  datatype Value =
    | VNone
    | VBool(b: bool)
    | VInt(i: int)
    | VReal(r: real)
    | VStr(s: string)

  /** Python truthiness of a value: `None`, `False`, `0`, `0.0` and `""` are false. */
  predicate Truthy(v: Value) {
    match v
    case VNone => false
    case VBool(b) => b
    case VInt(i) => i != 0
    case VReal(r) => r != 0.0
    case VStr(s) => s != ""
  }

  /** The exceptions the modelled code can raise. */
  datatype Error =
    | UnknownGlyph(glyph: string)                    // KeyError in the board parser
    | RaggedBoard                                    // ValueError: np.array over rows of unequal length
    | UnsupportedGame(game: Value)                   // NotImplementedError: only "classic"
    | InvalidLevel(level: int)                       // ValueError: level outside 1..9
    | UnexpectedKeywords(keys: set<string>)          // TypeError: unknown constructor arguments
    | IllTypedParameter(key: string)                 // a configuration value of the wrong kind
    | CommandFailed(command: string, response: string) // the engine answered with a `?`
    | NotInTurn(pid: int)                            // ValueError: the seat does not have the turn
    | NotAnInteger(text: string)                     // ValueError from int()
    | InvalidStrategy(name: string)                  // AssertionError: unknown selection strategy
    | UnexpectedSelectionArgs                        // AssertionError: arguments for a non-epsilon strategy
    | EmptyArgMax                                    // ValueError: argmax of an empty sequence
    | NotImplemented                                 // NotImplementedError: no board evaluation

  /** A board as rows of cell values: -1 for an empty cell and 0..3 for the
      colour that covers it. */
  type Grid = seq<seq<int>>

  /** Every cell value is -1 (empty) or a colour index 0..3. */
  predicate CellsInRange(g: Grid) {
    forall i, k :: 0 <= i < |g| && 0 <= k < |g[i]| ==> -1 <= g[i][k] <= 3
  }

  datatype Result<+T> = Success(value: T) | Failure(error: Error)

  datatype Outcome = Pass | Fail(error: Error)
}
