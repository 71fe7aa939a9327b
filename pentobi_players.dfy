/** The players of PentobiPlayers.py. An internal player asks the engine for
    its move (possibly from a second engine at its own level); an external
    player plays every legal move on the shared engine, reads each board
    back, undoes the move, scores the boards with its own evaluation and
    plays the best one. Randomness (`random.choice`, `np.random.rand`) is a
    parameter or a nondeterministic choice; the name of the temporary game
    file that carries a position between two engines is a parameter. */
module PentobiPlayers {
  import opened Common
  import opened Text
  import opened BoardText
  import opened BoardNorming
  import opened PentobiGtp

  // ---------------------------------------------------------------------
  // move-selection strategy

  datatype Strategy = Best | RandomPick | EpsilonGreedy

  /** The strategy names the constructors accept. */
  function StrategyName(s: Strategy): string {
    match s
    case Best => "best"
    case RandomPick => "random"
    case EpsilonGreedy => "epsilon_greedy"
  }

  /** A validated strategy with its keyword arguments. */
  datatype Selection = Selection(strategy: Strategy, args: map<string, Value>)

  /** The exploration rate filled in when `epsilon_greedy` gets none. */
  const DefaultEpsilon: Value := VReal(0.1)

  /** The constructors' checks on `move_selection_strategy` and
      `move_selection_kwargs`: the name must be one of the three; only
      `epsilon_greedy` may take arguments; an `epsilon_greedy` without
      `epsilon` gets the default one. */
  function ValidateSelection(name: string, kwargs: map<string, Value>): (r: Result<Selection>)
    ensures r.Success? <==>
              (name == "best" || name == "random" || name == "epsilon_greedy") &&
              (name != "epsilon_greedy" ==> kwargs == map[])
    ensures name != "best" && name != "random" && name != "epsilon_greedy" ==>
              r == Failure(InvalidStrategy(name))
    ensures (name == "best" || name == "random") && kwargs != map[] ==>
              r == Failure(UnexpectedSelectionArgs)
    ensures r.Success? ==> StrategyName(r.value.strategy) == name
    ensures r.Success? && r.value.strategy != EpsilonGreedy ==> r.value.args == map[]
    ensures r.Success? && r.value.strategy == EpsilonGreedy ==>
              "epsilon" in r.value.args &&
              r.value.args.Keys == kwargs.Keys + {"epsilon"} &&
              (forall k :: k in kwargs ==> r.value.args[k] == kwargs[k]) &&
              ("epsilon" !in kwargs ==> r.value.args["epsilon"] == DefaultEpsilon)
  {
    if name == "best" then
      if kwargs == map[] then Success(Selection(Best, kwargs)) else Failure(UnexpectedSelectionArgs)
    else if name == "random" then
      if kwargs == map[] then Success(Selection(RandomPick, kwargs)) else Failure(UnexpectedSelectionArgs)
    else if name == "epsilon_greedy" then
      if "epsilon" in kwargs then Success(Selection(EpsilonGreedy, kwargs))
      else Success(Selection(EpsilonGreedy, kwargs["epsilon" := DefaultEpsilon]))
    else
      Failure(InvalidStrategy(name))
  }

  /** A validated selection passes validation again unchanged. */
  lemma ValidateIdempotent(name: string, kwargs: map<string, Value>)
    requires ValidateSelection(name, kwargs).Success?
    ensures ValidateSelection(name, ValidateSelection(name, kwargs).value.args) == ValidateSelection(name, kwargs)
  {
    var sel := ValidateSelection(name, kwargs).value;
    if sel.strategy == EpsilonGreedy {
      assert "epsilon" in sel.args;
    }
  }

  /** The argument dictionary after validation, as written: the default
      epsilon is inserted into the very dictionary the constructor was
      given. When that is the constructor's shared default `{}`, the
      insertion outlives the call. */
  function KwargsAfter(name: string, kwargs: map<string, Value>): (after: map<string, Value>)
    ensures ValidateSelection(name, kwargs).Success? ==> after == ValidateSelection(name, kwargs).value.args
    ensures ValidateSelection(name, kwargs).Failure? ==> after == kwargs
  {
    var v := ValidateSelection(name, kwargs);
    if v.Success? then v.value.args else kwargs
  }

  /** As written: once an `epsilon_greedy` player is built with the shared
      default arguments, the next `best` or `random` player built with the
      default arguments is refused. */
  lemma SharedDefaultLeaks(name: string)
    requires name == "best" || name == "random"
    ensures KwargsAfter("epsilon_greedy", map[]) == map["epsilon" := DefaultEpsilon]
    ensures ValidateSelection(name, KwargsAfter("epsilon_greedy", map[])) == Failure(UnexpectedSelectionArgs)
  {
    var after := KwargsAfter("epsilon_greedy", map[]);
    assert after == map["epsilon" := DefaultEpsilon];
    assert "epsilon" in after;
  }

  /** Corrected: with a fresh `{}` for every construction, the default
      arguments are accepted by every strategy, whatever was built before,
      and each `epsilon_greedy` player gets its own default epsilon. */
  lemma FreshDefaultAccepted(name: string)
    requires name == "best" || name == "random" || name == "epsilon_greedy"
    ensures ValidateSelection(name, map[]).Success?
    ensures name == "epsilon_greedy" ==>
              ValidateSelection(name, map[]).value.args == map["epsilon" := DefaultEpsilon]
  {
    if name == "epsilon_greedy" {
      var args := ValidateSelection(name, map[]).value.args;
      assert args.Keys == {"epsilon"};
    }
  }

  // ---------------------------------------------------------------------
  // choosing the best value

  /** `np.argmax`: the index of the first maximum; an empty sequence raises. */
  function ArgMax(values: seq<int>): (r: Result<nat>)
    ensures r.Success? <==> |values| > 0
    ensures r.Failure? ==> r.error == EmptyArgMax
    ensures r.Success? ==>
              r.value < |values| &&
              (forall i :: 0 <= i < |values| ==> values[i] <= values[r.value]) &&
              (forall i :: 0 <= i < r.value ==> values[i] < values[r.value])
  {
    if |values| == 0 then Failure(EmptyArgMax) else Success(FirstMax(values, |values|))
  }

  /** The index of the first maximum among `values[..n]`. */
  function FirstMax(values: seq<int>, n: nat): (k: nat)
    requires 1 <= n <= |values|
    ensures k < n
    ensures forall i :: 0 <= i < n ==> values[i] <= values[k]
    ensures forall i :: 0 <= i < k ==> values[i] < values[k]
  {
    if n == 1 then 0
    else
      var k := FirstMax(values, n - 1);
      if values[n - 1] > values[k] then n - 1 else k
  }

  /** The moves `calc_next_states` plays, in order: every move but "pass". */
  function Candidates(moves: seq<string>): (cands: seq<string>)
    ensures |cands| <= |moves|
  {
    if moves == [] then []
    else
      var last := moves[|moves| - 1];
      Candidates(moves[..|moves| - 1]) + (if last == "pass" then [] else [last])
  }

  /** The candidates are exactly the moves other than "pass". */
  lemma {:induction false} CandidatesSpec(moves: seq<string>)
    ensures forall i :: 0 <= i < |Candidates(moves)| ==>
              Candidates(moves)[i] != "pass" && Candidates(moves)[i] in moves
    ensures forall m :: m in moves && m != "pass" ==> m in Candidates(moves)
  {
    if moves != [] {
      var init := moves[..|moves| - 1];
      CandidatesSpec(init);
      assert moves == init + [moves[|moves| - 1]];
    }
  }

  /** One more move considered: it is a candidate unless it is a pass. */
  lemma CandidatesSnoc(moves: seq<string>, i: nat)
    requires i < |moves|
    ensures Candidates(moves[..i + 1]) ==
            Candidates(moves[..i]) + (if moves[i] == "pass" then [] else [moves[i]])
  {
    assert moves[..i + 1][..i] == moves[..i];
  }

  /** Without a "pass" among them, every move is a candidate. */
  lemma {:induction false} CandidatesWithoutPass(moves: seq<string>)
    requires "pass" !in moves
    ensures Candidates(moves) == moves
  {
    if moves != [] {
      CandidatesWithoutPass(moves[..|moves| - 1]);
      assert moves == moves[..|moves| - 1] + [moves[|moves| - 1]];
    }
  }

  /** A seat that can only pass has no candidate. */
  lemma CandidatesOfPass()
    ensures Candidates(["pass"]) == []
  {
    assert ["pass"][..0] == [];
  }

  /** `moves[np.argmax(values)]` as written in `_make_move_with_external_player`. */
  function SelectAsWritten(moves: seq<string>, values: seq<int>): (r: Result<string>)
    requires |values| <= |moves|
    ensures r.Failure? <==> values == []
    ensures r.Failure? ==> r.error == EmptyArgMax
    ensures r.Success? ==> r.value in moves
  {
    var i := ArgMax(values);
    if i.Failure? then Failure(i.error) else Success(moves[i.value])
  }

  /** As written, a seat whose only legal move is "pass" has no board to
      score, and `np.argmax([])` raises instead of passing. */
  lemma SelectAsWrittenFailsOnPass()
    ensures Candidates(["pass"]) == []
    ensures SelectAsWritten(["pass"], []) == Failure(EmptyArgMax)
  {
    CandidatesOfPass();
  }

  /** The evident intent: the candidate with the highest value, the
      earliest of equal ones, or a pass when there is no candidate. */
  function SelectBest(cands: seq<string>, values: seq<int>): (move: string)
    requires |values| == |cands|
    ensures cands == [] ==> move == "pass"
    ensures cands != [] ==>
              exists k :: 0 <= k < |cands| && cands[k] == move &&
                (forall i :: 0 <= i < |values| ==> values[i] <= values[k]) &&
                (forall i :: 0 <= i < k ==> values[i] < values[k])
  {
    if cands == [] then "pass" else cands[ArgMax(values).value]
  }

  /** Where the original does not raise, the corrected choice is the
      original's: with no "pass" among the moves and at least one value,
      both pick the same move. */
  lemma SelectBestAgrees(moves: seq<string>, values: seq<int>)
    requires "pass" !in moves && |values| == |moves| > 0
    ensures Candidates(moves) == moves
    ensures SelectAsWritten(moves, values) == Success(SelectBest(Candidates(moves), values))
  {
    CandidatesWithoutPass(moves);
  }

  // ---------------------------------------------------------------------
  // board evaluation

  /** `evaluate_board`: the base class raises, `GreedyExternalPlayer` counts. */
  datatype Evaluator = Unimplemented | Greedy

  /** `np.sum(board == v)`. */
  function Count(b: Grid, v: int): nat {
    Cells(b)[v]
  }

  /** `GreedyExternalPlayer.evaluate_board`: the cells holding the value
      `pid` minus the cells holding the value `4 - pid`. */
  function GreedyScore(b: Grid, pid: int): int {
    Count(b, pid) - Count(b, 4 - pid)
  }

  /** `[self.evaluate_board(board) for board in next_states]`. */
  function Scores(ev: Evaluator, pid: int, boards: seq<Grid>): (r: Result<seq<int>>)
    ensures r.Success? <==> ev.Greedy? || boards == []
    ensures r.Failure? ==> r.error == NotImplemented
    ensures r.Success? ==>
              |r.value| == |boards| &&
              forall i :: 0 <= i < |boards| ==> r.value[i] == GreedyScore(boards[i], pid)
  {
    if ev.Unimplemented? && boards != [] then Failure(NotImplemented)
    else Success(seq(|boards|, i requires 0 <= i < |boards| => GreedyScore(boards[i], pid)))
  }

  /** Seat 2 compares its value with itself: every board scores 0. */
  lemma GreedySeatTwo(b: Grid)
    ensures GreedyScore(b, 2) == 0
  {
  }

  /** No cell of a parsed board holds a value outside -1..3. */
  lemma {:induction false} CountOutside(b: Grid, v: int, m: nat)
    requires CellsInRange(b) && m <= |b| && !(-1 <= v <= 3)
    ensures CellsOfRows(b, m)[v] == 0
  {
    if m > 0 {
      CountOutside(b, v, m - 1);
      var row := b[m - 1];
      assert v !in row by {
        forall k | 0 <= k < |row|
          ensures row[k] != v
        {
          assert -1 <= b[m - 1][k] <= 3;
        }
      }
    }
  }

  /** Seat 4 is compared with the value 4, which no parsed cell holds, and
      with the value 0 (seat 1's pieces): its score is minus seat 1's cells. */
  lemma GreedySeatFour(b: Grid)
    requires CellsInRange(b)
    ensures GreedyScore(b, 4) == 0 - Count(b, 0)
  {
    CountOutside(b, 4, |b|);
  }

  /** The greedy score does not depend on which corner the board is turned to. */
  lemma GreedyRotation(b: Grid, p: int, pid: int)
    requires IsRect(b)
    ensures GreedyScore(Rotate(b, p), pid) == GreedyScore(b, pid)
  {
    RotatePreserves(b, p);
  }

  /** The `"play <pid> <move>"`, `"showboard"`, `"undo"` triple written for
      each candidate. */
  function ProbeCommands(pid: int, cands: seq<string>): (cmds: seq<string>)
    ensures |cmds| == 3 * |cands|
  {
    if cands == [] then []
    else ProbeCommands(pid, cands[..|cands| - 1]) + ProbeTriple(pid, cands[|cands| - 1])
  }

  function ProbeTriple(pid: int, move: string): seq<string> {
    ["play " + IntToString(pid) + " " + move, "showboard", "undo"]
  }

  /** Command `3k` plays candidate `k`, `3k + 1` reads the board, `3k + 2` undoes. */
  lemma {:induction false} ProbeCommandsAt(pid: int, cands: seq<string>, k: nat)
    requires k < |cands|
    ensures ProbeCommands(pid, cands)[3 * k] == "play " + IntToString(pid) + " " + cands[k]
    ensures ProbeCommands(pid, cands)[3 * k + 1] == "showboard"
    ensures ProbeCommands(pid, cands)[3 * k + 2] == "undo"
  {
    var init := cands[..|cands| - 1];
    if k < |init| {
      ProbeCommandsAt(pid, init, k);
      assert init[k] == cands[k];
    }
  }

  /** Appending one candidate appends its triple. */
  lemma ProbeCommandsNext(log: seq<string>, pid: int, cands: seq<string>, move: string)
    ensures log + ProbeCommands(pid, cands) + ProbeTriple(pid, move) == log + ProbeCommands(pid, cands + [move])
  {
    assert (cands + [move])[..|cands|] == cands;
  }

  /** The output after `n` rounds, each of which consumes what `round` does. */
  function Iterate(round: seq<string> -> seq<string>, lines: seq<string>, n: nat): seq<string>
    decreases n
  {
    if n == 0 then lines else Iterate(round, round(lines), n - 1)
  }

  /** One more round. */
  lemma {:induction false} IterateNext(round: seq<string> -> seq<string>, lines: seq<string>, n: nat)
    ensures Iterate(round, lines, n + 1) == round(Iterate(round, lines, n))
    decreases n
  {
    if n > 0 {
      IterateNext(round, round(lines), n - 1);
    }
  }

  /** Value `k` of `values` is what `read` makes of the output left after
      `k` rounds. */
  ghost predicate ReadEach<T>(round: seq<string> -> seq<string>, read: seq<string> -> Result<T>,
                              lines: seq<string>, values: seq<T>)
    decreases |values|
  {
    values == [] ||
    (read(lines) == Success(values[0]) && ReadEach(round, read, round(lines), values[1..]))
  }

  lemma {:induction false} ReadEachAt<T>(round: seq<string> -> seq<string>, read: seq<string> -> Result<T>,
                                         lines: seq<string>, values: seq<T>, k: nat)
    requires ReadEach(round, read, lines, values) && k < |values|
    ensures read(Iterate(round, lines, k)) == Success(values[k])
    decreases k
  {
    if k > 0 {
      ReadEachAt(round, read, round(lines), values[1..], k - 1);
    }
  }

  /** A value read after the last round extends `ReadEach`. */
  lemma {:induction false} ReadEachSnoc<T>(round: seq<string> -> seq<string>, read: seq<string> -> Result<T>,
                                           lines: seq<string>, values: seq<T>, v: T)
    requires ReadEach(round, read, lines, values)
    requires read(Iterate(round, lines, |values|)) == Success(v)
    ensures ReadEach(round, read, lines, values + [v])
    decreases |values|
  {
    if values != [] {
      ReadEachSnoc(round, read, round(lines), values[1..], v);
      assert (values + [v])[1..] == values[1..] + [v];
    }
  }

  /** One probe round reads three responses: `play`, `showboard`, `undo`. */
  function Round(lines: seq<string>): seq<string> {
    Rest(Rest(Rest(lines)))
  }

  /** The board a probe round reads: the answer to `showboard`. */
  function BoardOf(lines: seq<string>): Result<Grid> {
    ParseBoard(Response(Rest(lines)))
  }

  /** The output left after `n` probe rounds. */
  function SkipRounds(lines: seq<string>, n: nat): seq<string> {
    Iterate(Round, lines, n)
  }

  /** Board `k` of `states` is the board parsed from the `showboard`
      answer of probe round `k` of `lines`. */
  ghost predicate BoardsRead(lines: seq<string>, states: seq<Grid>) {
    ReadEach(Round, BoardOf, lines, states)
  }

  /** What `BoardsRead` says about each board. */
  lemma BoardsReadAt(lines: seq<string>, states: seq<Grid>, k: nat)
    requires BoardsRead(lines, states) && k < |states|
    ensures ParseBoard(Response(Rest(SkipRounds(lines, k)))) == Success(states[k])
  {
    ReadEachAt(Round, BoardOf, lines, states, k);
  }

  /** Where `calc_next_states` stands after probing `cands`: their
      commands were written after `log`, three responses were read for
      each, and `states` are the boards read. */
  ghost predicate Probed(start: seq<string>, log: seq<string>, pid: int, cands: seq<string>, states: seq<Grid>,
                         sent: seq<string>, pending: seq<string>)
  {
    |states| == |cands| &&
    sent == log + ProbeCommands(pid, cands) &&
    pending == SkipRounds(start, |states|) &&
    BoardsRead(start, states)
  }

  /** When every move has been looked at, the candidates probed are all of them. */
  lemma ProbedAll(start: seq<string>, log: seq<string>, pid: int, moves: seq<string>, states: seq<Grid>,
                  sent: seq<string>, pending: seq<string>)
    requires Probed(start, log, pid, Candidates(moves[..|moves|]), states, sent, pending)
    ensures |states| == |Candidates(moves)|
    ensures sent == log + ProbeCommands(pid, Candidates(moves))
    ensures pending == SkipRounds(start, |states|)
    ensures BoardsRead(start, states)
  {
    assert moves[..|moves|] == moves;
  }

  /** One more round of probing keeps `Probed`. */
  lemma ProbedSnoc(start: seq<string>, log: seq<string>, pid: int, cands: seq<string>, states: seq<Grid>,
                   sent: seq<string>, pending: seq<string>, move: string, board: Grid)
    requires Probed(start, log, pid, cands, states, sent, pending)
    requires ParseBoard(Response(Rest(pending))) == Success(board)
    ensures Probed(start, log, pid, cands + [move], states + [board],
                   sent + ProbeTriple(pid, move), Rest(Rest(Rest(pending))))
  {
    ProbeCommandsNext(log, pid, cands, move);
    IterateNext(Round, start, |states|);
    ReadEachSnoc(Round, BoardOf, start, states, board);
  }

  /** Undoing the move just recorded gives the seats back. */
  lemma PushPop(players: seq<int>, pid: int)
    ensures (players + [pid])[..|players|] == players && (players + [pid])[|players|] == pid
  {
  }

  /** The three commands of a probe, written one after the other. */
  lemma ProbeTripleSent(sent: seq<string>, pid: int, move: string)
    ensures sent + ["play " + IntToString(pid) + " " + move] + ["showboard"] + ["undo"] ==
            sent + ProbeTriple(pid, move)
  {
  }

  /** The renaming both `play_move`s apply: the engine's empty answer `=` is a pass. */
  function Renamed(move: string): (m: string)
    ensures m == "pass" || m == move
    ensures move == "=" <==> m == "pass" && move != "pass"
  {
    if move == "=" then "pass" else move
  }

  /** Whether a move is picked at random from the legal moves: always for
      `random`, when the draw falls under epsilon for `epsilon_greedy`. */
  predicate Explores(strategy: Strategy, explore: bool) {
    strategy == RandomPick || (strategy == EpsilonGreedy && explore)
  }

  /** What validation guarantees about a player's strategy and arguments. */
  predicate SelectionOk(strategy: Strategy, args: map<string, Value>) {
    (strategy != EpsilonGreedy ==> args == map[]) &&
    (strategy == EpsilonGreedy ==> "epsilon" in args)
  }

  /** The pool key `{"level": level}` is a valid configuration exactly for
      the levels 1..9, and then binds that level. */
  lemma LevelConfig(level: int)
    ensures ConfigOf(Merge(map["level" := VInt(level)])).Success? <==> 1 <= level <= 9
    ensures 1 <= level <= 9 ==> ConfigOf(map["level" := VInt(level)]).value.level == level
    ensures !(1 <= level <= 9) ==>
              ConfigOf(Merge(map["level" := VInt(level)])) == Failure(InvalidLevel(level))
  {
    var kwargs := map["level" := VInt(level)];
    assert kwargs.Keys <= ArgNames;
    ConfigOfMerged(kwargs);
  }

  // ---------------------------------------------------------------------
  // the internal player

  /** `PentobiInternalPlayer`: its moves come from the engine. When the
      shared session plays at another level than the player, the moves come
      from a second session at the player's level, brought to the shared
      session's position before each move. */
  class InternalPlayer {
    const pid: int
    const level: int
    const name: string
    var strategy: Strategy
    var selectionArgs: map<string, Value>
    /** The session the game is played on. */
    var session: Session?
    /** The session the moves are generated on. */
    var moveSession: Session?

    /** The fields the constructor sets before it looks for a move session. */
    constructor(pid: int, session: Session?, level: int, name: string)
      ensures this.pid == pid && this.session == session && this.level == level && this.name == name
      ensures moveSession == null && strategy == Best && selectionArgs == map[]
    {
      this.pid := pid;
      this.session := session;
      this.level := level;
      this.name := name;
      moveSession := null;
      strategy := Best;
      selectionArgs := map[];
    }

    /** `has_separate_pentobi_sess`. */
    predicate HasSeparateSession()
      reads this
    {
      session != null && session.level != level
    }

    /** Moves come from the shared session unless it plays at another
        level; then from a session at the player's own level. */
    predicate Valid()
      reads this
    {
      (if HasSeparateSession() then moveSession != null && moveSession.level == level
       else moveSession == session) &&
      SelectionOk(strategy, selectionArgs)
    }

    /** `get_move_pentobi_sess`: the shared session itself, or the pool's
        session for `{"level": level}`. */
    method GetMoveSession(pool: SessionPool, binary: string, output: seq<string>) returns (r: Result<Session?>)
      requires pool.Valid()
      modifies pool
      ensures pool.Valid()
      ensures forall k :: k in old(pool.sessions) ==> k in pool.sessions && pool.sessions[k] == old(pool.sessions)[k]
      ensures !HasSeparateSession() ==> r == Success(session) && pool.sessions == old(pool.sessions)
      ensures HasSeparateSession() && r.Success? ==> r.value != null && r.value.level == level
      ensures HasSeparateSession() && !(1 <= level <= 9) ==> r == Failure(InvalidLevel(level))
      ensures HasSeparateSession() && Merge(map["level" := VInt(level)]) in old(pool.sessions) ==>
                r == Success(old(pool.sessions)[Merge(map["level" := VInt(level)])])
    {
      if !HasSeparateSession() {
        return Success(session);
      }
      LevelConfig(level);
      var got := pool.Get(map["level" := VInt(level)], binary, output);
      if got.Failure? {
        return Failure(got.error);
      }
      return Success(got.value);
    }

    /** `set_pentobi_session`: the new session is kept even when finding
        its move session fails. */
    method SetSession(s: Session?, pool: SessionPool, binary: string, output: seq<string>) returns (r: Outcome)
      requires Valid() && pool.Valid()
      modifies this, pool
      ensures pool.Valid()
      ensures forall k :: k in old(pool.sessions) ==> k in pool.sessions && pool.sessions[k] == old(pool.sessions)[k]
      ensures session == s && strategy == old(strategy) && selectionArgs == old(selectionArgs)
      ensures r.Pass? ==> Valid()
      ensures r.Fail? ==> moveSession == old(moveSession)
      ensures s == null || s.level == level ==>
                r == Pass && moveSession == s && pool.sessions == old(pool.sessions)
      ensures s != null && s.level != level && !(1 <= level <= 9) ==> r == Fail(InvalidLevel(level))
    {
      session := s;
      var got := GetMoveSession(pool, binary, output);
      if got.Failure? {
        return Fail(got.error);
      }
      moveSession := got.value;
      return Pass;
    }

    /** `set_move_session_state`: nothing to do without a separate
        session; otherwise the move session loads the shared session's
        game and takes over its seat to move. */
    method SetMoveSessionState(file: string) returns (r: Outcome)
      requires Valid()
      requires session != null ==> session.Valid() && moveSession != null && moveSession.Valid()
      modifies session, moveSession
      ensures !HasSeparateSession() ==> r == Pass
      ensures !HasSeparateSession() && session != null ==> unchanged(session)
      ensures HasSeparateSession() ==>
                session.Valid() && moveSession.Valid() &&
                session.currentPlayer == old(session.currentPlayer) &&
                session.previousPlayers == old(session.previousPlayers) &&
                moveSession.previousPlayers == old(moveSession.previousPlayers) &&
                (r.Fail? ==> moveSession.currentPlayer == old(moveSession.currentPlayer)) &&
                (r.Pass? ==>
                   moveSession.currentPlayer == session.currentPlayer &&
                   session.sent == old(session.sent) + ["showboard", "savesgf " + file] &&
                   session.pending == Skip(old(session.pending), 2) &&
                   moveSession.sent == old(moveSession.sent) + ["loadsgf " + file] &&
                   moveSession.pending == Rest(old(moveSession.pending)))
    {
      if !HasSeparateSession() {
        return Pass;
      }
      r := moveSession.SetToState(session, file);
    }

    /** `_make_move_with_pentobi_sess`: bring the move session to the
        game's position and ask it for this seat's move. */
    method MakeMoveWithMoveSession(file: string) returns (r: Result<string>)
      requires Valid() && session != null && session.Valid()
      requires moveSession != null && moveSession.Valid()
      modifies session, moveSession
      ensures session.Valid() && moveSession.Valid()
      ensures session.previousPlayers == old(session.previousPlayers) &&
              session.currentPlayer == old(session.currentPlayer)
      ensures old(session.currentPlayer) != pid ==> r.Failure?
      ensures r.Success? && !HasSeparateSession() ==>
                r.value == GeneratedMove(Response(old(session.pending)))
      ensures r.Success? && HasSeparateSession() ==>
                r.value == GeneratedMove(ReplyAt(old(moveSession.pending), 1))
    {
      ghost var movePending := moveSession.pending;
      var prepared := SetMoveSessionState(file);
      if prepared.Fail? {
        return Failure(prepared.error);
      }
      if HasSeparateSession() {
        assert moveSession.pending == Skip(movePending, 1);
        assert moveSession.currentPlayer == old(session.currentPlayer);
        r := moveSession.GenerateInternalMove(pid);
      } else {
        assert moveSession == session;
        r := session.GenerateInternalMove(pid);
      }
    }

    /** The move `play_move` settles on, before the renaming of `=`. */
    method SelectMove(explore: bool, file: string) returns (r: Result<string>)
      requires Valid() && session != null && session.Valid()
      requires moveSession != null && moveSession.Valid()
      modifies session, moveSession
      ensures session.Valid() && moveSession.Valid()
      ensures session.previousPlayers == old(session.previousPlayers) &&
              session.currentPlayer == old(session.currentPlayer)
      ensures r.Success? && Explores(strategy, explore) ==>
                r.value in LegalMoves(Response(old(session.pending)))
      ensures !Explores(strategy, explore) && old(session.currentPlayer) != pid ==> r.Failure?
      ensures r.Success? && !Explores(strategy, explore) && !HasSeparateSession() ==>
                r.value == GeneratedMove(Response(old(session.pending)))
      ensures r.Success? && !Explores(strategy, explore) && HasSeparateSession() ==>
                r.value == GeneratedMove(ReplyAt(old(moveSession.pending), 1))
    {
      if !Explores(strategy, explore) {
        r := MakeMoveWithMoveSession(file);
        return;
      }
      var moves := session.GetLegalMoves(pid);
      if moves.Failure? {
        return Failure(moves.error);
      }
      assert moves.value[0] in moves.value;
      var m :| m in moves.value;
      return Success(m);
    }

    /** `play_move`: pick a legal move at random, or ask the move session
        for its move; the empty answer `=` is a pass; then play the move on
        the shared session. Exactly one move is recorded when it succeeds,
        none when it fails. */
    method PlayMove(explore: bool, file: string) returns (r: Outcome, ghost chosen: string)
      requires Valid() && session != null && session.Valid()
      requires moveSession != null && moveSession.Valid()
      modifies session, moveSession
      ensures session.Valid() && moveSession.Valid()
      ensures old(session.currentPlayer) != pid ==> r.Fail?
      ensures r.Pass? ==>
                session.previousPlayers == old(session.previousPlayers) + [pid] &&
                session.currentPlayer == NextSeat(pid)
      ensures r.Fail? ==>
                session.previousPlayers == old(session.previousPlayers) &&
                session.currentPlayer == old(session.currentPlayer)
      ensures r.Pass? && chosen != "pass" ==>
                |session.sent| > 0 && session.sent[|session.sent| - 1] == "play " + IntToString(pid) + " " + chosen
      ensures r.Pass? && Explores(strategy, explore) ==>
                exists m :: m in LegalMoves(Response(old(session.pending))) && chosen == Renamed(m)
      ensures r.Pass? && !Explores(strategy, explore) && !HasSeparateSession() ==>
                chosen == Renamed(GeneratedMove(Response(old(session.pending))))
      ensures r.Pass? && !Explores(strategy, explore) && HasSeparateSession() ==>
                chosen == Renamed(GeneratedMove(ReplyAt(old(moveSession.pending), 1)))
    {
      var selected := SelectMove(explore, file);
      if selected.Failure? {
        return Fail(selected.error), "";
      }
      var move := Renamed(selected.value);
      chosen := move;
      r := session.PlayMove(pid, move);
    }
  }

  /** `PentobiInternalPlayer(...)`: the move session is looked up first (the
      pool may launch an engine, or fail), then the strategy is checked. */
  method NewInternalPlayer(pid: int, session: Session?, level: int, strategyName: string,
                           kwargs: map<string, Value>, name: string,
                           pool: SessionPool, binary: string, output: seq<string>)
    returns (r: Result<InternalPlayer>)
    requires pool.Valid()
    modifies pool
    ensures pool.Valid()
    ensures forall k :: k in old(pool.sessions) ==> k in pool.sessions && pool.sessions[k] == old(pool.sessions)[k]
    ensures session == null || session.level == level ==>
              pool.sessions == old(pool.sessions) &&
              (r.Success? <==> ValidateSelection(strategyName, kwargs).Success?) &&
              (r.Failure? ==> r.error == ValidateSelection(strategyName, kwargs).error)
    ensures session != null && session.level != level && !(1 <= level <= 9) ==> r == Failure(InvalidLevel(level))
    ensures ValidateSelection(strategyName, kwargs).Failure? ==> r.Failure?
    ensures r.Success? ==>
              fresh(r.value) && r.value.Valid() &&
              r.value.pid == pid && r.value.level == level && r.value.name == name &&
              r.value.session == session &&
              Selection(r.value.strategy, r.value.selectionArgs) == ValidateSelection(strategyName, kwargs).value
  {
    var player := new InternalPlayer(pid, session, level, name);
    var found := player.GetMoveSession(pool, binary, output);
    if found.Failure? {
      return Failure(found.error);
    }
    player.moveSession := found.value;
    var selection := ValidateSelection(strategyName, kwargs);
    if selection.Failure? {
      return Failure(selection.error);
    }
    player.strategy := selection.value.strategy;
    player.selectionArgs := selection.value.args;
    return Success(player);
  }

  // ---------------------------------------------------------------------
  // the external player

  /** `PentobiExternalPlayer` (evaluator `Unimplemented`) and
      `GreedyExternalPlayer` (evaluator `Greedy`): every candidate move is
      played on the shared session, the board is read, the move undone,
      and the best-scoring candidate is played. */
  class ExternalPlayer {
    const pid: int
    const name: string
    const evaluator: Evaluator
    const strategy: Strategy
    const selectionArgs: map<string, Value>
    const session: Session

    constructor(pid: int, session: Session, name: string, evaluator: Evaluator, selection: Selection)
      ensures this.pid == pid && this.session == session && this.name == name && this.evaluator == evaluator
      ensures strategy == selection.strategy && selectionArgs == selection.args
    {
      this.pid := pid;
      this.session := session;
      this.name := name;
      this.evaluator := evaluator;
      strategy := selection.strategy;
      selectionArgs := selection.args;
    }

    /** One round of `calc_next_states`: play the move, read the board,
        undo the move. */
    method ProbeMove(move: string) returns (r: Result<Grid>)
      requires session.Valid() && move != "pass"
      modifies session
      ensures session.Valid()
      ensures r.Success? ==>
                old(session.currentPlayer) == pid &&
                session.currentPlayer == old(session.currentPlayer) &&
                session.previousPlayers == old(session.previousPlayers) &&
                session.sent == old(session.sent) + ProbeTriple(pid, move) &&
                session.pending == Rest(Rest(Rest(old(session.pending)))) &&
                ParseBoard(Response(Rest(old(session.pending)))) == Success(r.value)
      ensures r.Failure? ==>
                (session.currentPlayer == old(session.currentPlayer) &&
                 session.previousPlayers == old(session.previousPlayers)) ||
                (session.currentPlayer == NextSeat(pid) &&
                 session.previousPlayers == old(session.previousPlayers) + [pid])
    {
      ghost var sent, players := session.sent, session.previousPlayers;
      var played := session.PlayMove(pid, move);
      if played.Fail? {
        return Failure(played.error);
      }
      var board := session.Board();
      if board.Failure? {
        return Failure(board.error);
      }
      var undone := session.UndoLastMove();
      if undone.Fail? {
        return Failure(undone.error);
      }
      PushPop(players, pid);
      ProbeTripleSent(sent, pid, move);
      return board;
    }

    /** One iteration of `calc_next_states`: move `i` is skipped if it is
        a pass and probed otherwise; `Probed` is kept over the moves looked
        at so far. */
    method ProbeStep(moves: seq<string>, i: nat, ghost start: seq<string>, ghost log: seq<string>,
                     ghost cands: seq<string>, states: seq<Grid>)
      returns (r: Result<seq<Grid>>, ghost cands': seq<string>)
      requires session.Valid() && i < |moves| && cands == Candidates(moves[..i])
      requires Probed(start, log, pid, cands, states, session.sent, session.pending)
      modifies session
      ensures session.Valid()
      ensures r.Success? ==>
                cands' == Candidates(moves[..i + 1]) &&
                session.currentPlayer == old(session.currentPlayer) &&
                session.previousPlayers == old(session.previousPlayers) &&
                Probed(start, log, pid, cands', r.value, session.sent, session.pending)
      ensures r.Success? && cands' != cands ==> old(session.currentPlayer) == pid
      ensures r.Failure? ==>
                (session.currentPlayer == old(session.currentPlayer) &&
                 session.previousPlayers == old(session.previousPlayers)) ||
                (session.currentPlayer == NextSeat(pid) &&
                 session.previousPlayers == old(session.previousPlayers) + [pid])
    {
      CandidatesSnoc(moves, i);
      var move := moves[i];
      if move == "pass" {
        return Success(states), cands;
      }
      ghost var sent, pending := session.sent, session.pending;
      var board := ProbeMove(move);
      if board.Failure? {
        return Failure(board.error), cands;
      }
      ProbedSnoc(start, log, pid, cands, states, sent, pending, move, board.value);
      return Success(states + [board.value]), cands + [move];
    }

    /** `calc_next_states`: for each candidate, in order, play it, read the
        board and undo it. On success the game is back where it was and
        board `k` is the one read after playing candidate `k`; a failure
        can leave the probed move played. */
    method CalcNextStates(moves: seq<string>) returns (r: Result<seq<Grid>>)
      requires session.Valid()
      modifies session
      ensures session.Valid()
      ensures r.Success? ==>
                |r.value| == |Candidates(moves)| &&
                session.currentPlayer == old(session.currentPlayer) &&
                session.previousPlayers == old(session.previousPlayers) &&
                session.sent == old(session.sent) + ProbeCommands(pid, Candidates(moves)) &&
                session.pending == SkipRounds(old(session.pending), |r.value|) &&
                BoardsRead(old(session.pending), r.value)
      ensures r.Success? && Candidates(moves) != [] ==> old(session.currentPlayer) == pid
      ensures r.Failure? ==>
                (session.currentPlayer == old(session.currentPlayer) &&
                 session.previousPlayers == old(session.previousPlayers)) ||
                (session.currentPlayer == NextSeat(pid) &&
                 session.previousPlayers == old(session.previousPlayers) + [pid])
    {
      ghost var start := session.pending;
      ghost var log := session.sent;
      ghost var cands: seq<string> := [];
      var states: seq<Grid> := [];
      var i := 0;
      while i < |moves|
        invariant 0 <= i <= |moves|
        invariant session.Valid()
        invariant cands == Candidates(moves[..i])
        invariant session.currentPlayer == old(session.currentPlayer)
        invariant session.previousPlayers == old(session.previousPlayers)
        invariant Probed(start, log, pid, cands, states, session.sent, session.pending)
        invariant cands != [] ==> old(session.currentPlayer) == pid
      {
        var next, probed := ProbeStep(moves, i, start, log, cands, states);
        if next.Failure? {
          return Failure(next.error);
        }
        states, cands := next.value, probed;
        i := i + 1;
      }
      ProbedAll(start, log, pid, moves, states, session.sent, session.pending);
      return Success(states);
    }

    /** `_make_move_with_external_player`, with the selection corrected to
        `SelectBest`: score the probed boards and take the best candidate,
        or pass when there is none. */
    method MakeMoveWithExternalPlayer(moves: seq<string>) returns (r: Result<string>, ghost states: seq<Grid>)
      requires session.Valid()
      modifies session
      ensures session.Valid()
      ensures r.Success? ==>
                |states| == |Candidates(moves)| &&
                session.currentPlayer == old(session.currentPlayer) &&
                session.previousPlayers == old(session.previousPlayers) &&
                BoardsRead(old(session.pending), states) &&
                Scores(evaluator, pid, states).Success? &&
                r.value == SelectBest(Candidates(moves), Scores(evaluator, pid, states).value)
      ensures r.Success? ==>
                (r.value in moves && r.value != "pass") || (r.value == "pass" && Candidates(moves) == [])
      ensures r.Success? && evaluator == Unimplemented ==> r.value == "pass"
      ensures r.Success? && r.value != "pass" ==> old(session.currentPlayer) == pid
      ensures r.Failure? ==>
                (session.currentPlayer == old(session.currentPlayer) &&
                 session.previousPlayers == old(session.previousPlayers)) ||
                (session.currentPlayer == NextSeat(pid) &&
                 session.previousPlayers == old(session.previousPlayers) + [pid])
    {
      CandidatesSpec(moves);
      var next := CalcNextStates(moves);
      if next.Failure? {
        return Failure(next.error), [];
      }
      states := next.value;
      var values := Scores(evaluator, pid, next.value);
      if values.Failure? {
        return Failure(values.error), states;
      }
      return Success(SelectBest(Candidates(moves), values.value)), states;
    }

    /** The move `play_move` settles on, before the renaming of `=`: the
        legal moves are asked for, then one is picked at random or the
        best candidate is chosen. */
    method SelectMove(explore: bool) returns (r: Result<string>, ghost states: seq<Grid>)
      requires session.Valid()
      modifies session
      ensures session.Valid()
      ensures r.Success? ==>
                session.currentPlayer == old(session.currentPlayer) &&
                session.previousPlayers == old(session.previousPlayers)
      ensures r.Failure? ==>
                (session.currentPlayer == old(session.currentPlayer) &&
                 session.previousPlayers == old(session.previousPlayers)) ||
                (session.currentPlayer == NextSeat(pid) &&
                 session.previousPlayers == old(session.previousPlayers) + [pid])
      ensures r.Success? && r.value != "pass" && !Explores(strategy, explore) ==> old(session.currentPlayer) == pid
      ensures r.Success? && Explores(strategy, explore) ==>
                r.value in LegalMoves(Response(old(session.pending)))
      ensures r.Success? && !Explores(strategy, explore) ==>
                var cands := Candidates(LegalMoves(Response(old(session.pending))));
                |states| == |cands| &&
                BoardsRead(Rest(old(session.pending)), states) &&
                Scores(evaluator, pid, states).Success? &&
                r.value == SelectBest(cands, Scores(evaluator, pid, states).value)
    {
      ghost var start := session.pending;
      states := [];
      var moves := session.GetLegalMoves(pid);
      if moves.Failure? {
        return Failure(moves.error), states;
      }
      if Explores(strategy, explore) {
        assert moves.value[0] in moves.value;
        var m :| m in moves.value;
        return Success(m), states;
      }
      r, states := MakeMoveWithExternalPlayer(moves.value);
    }

    /** `play_move`: ask for the legal moves, pick one at random or the best
        one, rename `=` to a pass and play it. When it succeeds, exactly one
        move is recorded. */
    method PlayMove(explore: bool) returns (r: Outcome, ghost chosen: string, ghost states: seq<Grid>)
      requires session.Valid()
      modifies session
      ensures session.Valid()
      ensures old(session.currentPlayer) != pid ==> r.Fail?
      ensures r.Pass? ==>
                session.previousPlayers == old(session.previousPlayers) + [pid] &&
                session.currentPlayer == NextSeat(pid)
      ensures r.Pass? && chosen != "pass" ==>
                |session.sent| > 0 && session.sent[|session.sent| - 1] == "play " + IntToString(pid) + " " + chosen
      ensures r.Pass? && Explores(strategy, explore) ==>
                exists m :: m in LegalMoves(Response(old(session.pending))) && chosen == Renamed(m)
      ensures r.Pass? && !Explores(strategy, explore) ==>
                var cands := Candidates(LegalMoves(Response(old(session.pending))));
                |states| == |cands| &&
                BoardsRead(Rest(old(session.pending)), states) &&
                Scores(evaluator, pid, states).Success? &&
                chosen == Renamed(SelectBest(cands, Scores(evaluator, pid, states).value))
    {
      var selected;
      selected, states := SelectMove(explore);
      if selected.Failure? {
        return Fail(selected.error), "", states;
      }
      var move := Renamed(selected.value);
      chosen := move;
      r := session.PlayMove(pid, move);
    }
  }

  /** `PentobiExternalPlayer(...)` and `GreedyExternalPlayer(...)`: the
      strategy is checked; nothing else can fail. */
  method NewExternalPlayer(pid: int, session: Session, strategyName: string, kwargs: map<string, Value>,
                           name: string, evaluator: Evaluator)
    returns (r: Result<ExternalPlayer>)
    ensures r.Success? <==> ValidateSelection(strategyName, kwargs).Success?
    ensures r.Failure? ==> r.error == ValidateSelection(strategyName, kwargs).error
    ensures r.Success? ==>
              fresh(r.value) && SelectionOk(r.value.strategy, r.value.selectionArgs) &&
              r.value.pid == pid && r.value.session == session && r.value.name == name &&
              r.value.evaluator == evaluator &&
              Selection(r.value.strategy, r.value.selectionArgs) == ValidateSelection(strategyName, kwargs).value
  {
    var selection := ValidateSelection(strategyName, kwargs);
    if selection.Failure? {
      return Failure(selection.error);
    }
    var player := new ExternalPlayer(pid, session, name, evaluator, selection.value);
    return Success(player);
  }
}
