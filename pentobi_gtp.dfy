/** A session with the Pentobi engine over its text protocol (PentobiGTP.py).

    The engine process is an oracle: a session holds the lines the engine
    has written and not yet been read (`pending`, what successive
    `readline` calls return) and the log of commands written to it
    (`sent`). What the engine answers is therefore a parameter of every
    run, and each contract below says which lines a call consumes, which
    commands it writes and what it makes of the answer. */
module PentobiGtp {
  import opened Common
  import opened Text
  import opened BoardText

  // ---------------------------------------------------------------------
  // configuration

  /** The keyword arguments of the session constructor. */
  const ArgNames: set<string> :=
    {"gtp_path", "level", "book", "config", "game", "seed", "showboard", "nobook", "noresign", "threads"}

  /** The default of each keyword argument. */
  function Default(name: string): Value {
    if name == "level" then VInt(1)
    else if name == "game" then VStr("classic")
    else if name == "showboard" || name == "nobook" then VBool(false)
    else if name == "noresign" then VBool(true)
    else if name == "threads" then VInt(1)
    else VNone
  }

  /** The value an argument takes in a call with `kwargs`: the given one
      if there is one, the default otherwise. */
  function Arg(kwargs: map<string, Value>, name: string): Value {
    if name in kwargs then kwargs[name] else Default(name)
  }

  /** `{**defaults, **kwargs}`: every argument name is a key, and a given
      value wins over the default. */
  function Merge(kwargs: map<string, Value>): (m: map<string, Value>)
    ensures m.Keys == ArgNames + kwargs.Keys
    ensures forall k :: k in m ==> m[k] == Arg(kwargs, k)
  {
    map k | k in ArgNames + kwargs.Keys :: Arg(kwargs, k)
  }

  /** Values the command line can hold: anything but a float, whose Python
      spelling is not part of this model. */
  predicate Formattable(v: Value) {
    !v.VReal?
  }

  /** The f-string spelling of a value. */
  function Format(v: Value): string
    requires Formattable(v)
  {
    match v
    case VNone => "None"
    case VBool(b) => if b then "True" else "False"
    case VInt(i) => IntToString(i)
    case VStr(s) => s
  }

  /** A validated configuration; the game is always "classic". */
  datatype Config = Config(
    book: Value,
    config: Value,
    level: int,
    seed: Value,
    showboard: bool,
    nobook: bool,
    noresign: bool,
    threads: Value)

  predicate WellFormed(cfg: Config) {
    1 <= cfg.level <= 9 &&
    Formattable(cfg.book) && Formattable(cfg.config) && Formattable(cfg.seed) && Formattable(cfg.threads)
  }

  /** Binding `PentobiGTP(**kwargs)` and its two checks: an unknown keyword
      fails the call, then a game other than "classic", then a level that
      is not an integer in 1..9. */
  function ConfigOf(kwargs: map<string, Value>): (r: Result<Config>)
    ensures r.Success? ==> WellFormed(r.value)
    ensures r.Success? <==>
              kwargs.Keys <= ArgNames &&
              Arg(kwargs, "game") == VStr("classic") &&
              Arg(kwargs, "level").VInt? && 1 <= Arg(kwargs, "level").i <= 9 &&
              Formattable(Arg(kwargs, "book")) && Formattable(Arg(kwargs, "config")) &&
              Formattable(Arg(kwargs, "seed")) && Formattable(Arg(kwargs, "threads"))
    ensures !(kwargs.Keys <= ArgNames) ==> r == Failure(UnexpectedKeywords(kwargs.Keys - ArgNames))
    ensures kwargs.Keys <= ArgNames && Arg(kwargs, "game") != VStr("classic") ==>
              r == Failure(UnsupportedGame(Arg(kwargs, "game")))
    ensures kwargs.Keys <= ArgNames && Arg(kwargs, "game") == VStr("classic") && Arg(kwargs, "level").VInt? &&
            !(1 <= Arg(kwargs, "level").i <= 9) ==>
              r == Failure(InvalidLevel(Arg(kwargs, "level").i))
    ensures r.Success? ==>
              r.value.level == Arg(kwargs, "level").i &&
              r.value.book == Arg(kwargs, "book") && r.value.config == Arg(kwargs, "config") &&
              r.value.seed == Arg(kwargs, "seed") && r.value.threads == Arg(kwargs, "threads") &&
              (r.value.showboard <==> Truthy(Arg(kwargs, "showboard"))) &&
              (r.value.nobook <==> Truthy(Arg(kwargs, "nobook"))) &&
              (r.value.noresign <==> Truthy(Arg(kwargs, "noresign")))
  {
    var level := Arg(kwargs, "level");
    if !(kwargs.Keys <= ArgNames) then Failure(UnexpectedKeywords(kwargs.Keys - ArgNames))
    else if Arg(kwargs, "game") != VStr("classic") then Failure(UnsupportedGame(Arg(kwargs, "game")))
    else if !level.VInt? then Failure(IllTypedParameter("level"))
    else if level.i < 1 || level.i > 9 then Failure(InvalidLevel(level.i))
    else if !Formattable(Arg(kwargs, "book")) then Failure(IllTypedParameter("book"))
    else if !Formattable(Arg(kwargs, "config")) then Failure(IllTypedParameter("config"))
    else if !Formattable(Arg(kwargs, "seed")) then Failure(IllTypedParameter("seed"))
    else if !Formattable(Arg(kwargs, "threads")) then Failure(IllTypedParameter("threads"))
    else Success(Config(Arg(kwargs, "book"), Arg(kwargs, "config"), level.i, Arg(kwargs, "seed"),
                        Truthy(Arg(kwargs, "showboard")), Truthy(Arg(kwargs, "nobook")),
                        Truthy(Arg(kwargs, "noresign")), Arg(kwargs, "threads")))
  }

  /** `{}` and `{"level": 1}` merge to the same configuration. */
  lemma DefaultLevelCoincides()
    ensures Merge(map[]) == Merge(map["level" := VInt(1)])
  {
    var a := Merge(map[]);
    var b := Merge(map["level" := VInt(1)]);
    assert "level" in ArgNames;
    assert a.Keys == b.Keys;
  }

  /** Merging a merged configuration changes nothing. */
  lemma MergeIdempotent(kwargs: map<string, Value>)
    ensures Merge(Merge(kwargs)) == Merge(kwargs)
  {
    var m := Merge(kwargs);
    forall k | k in m
      ensures Arg(m, k) == m[k]
    {
    }
  }

  /** Binding the merged arguments is binding the arguments: the pool's
      merge is invisible to the constructor. */
  lemma ConfigOfMerged(kwargs: map<string, Value>)
    ensures ConfigOf(Merge(kwargs)) == ConfigOf(kwargs) || !(kwargs.Keys <= ArgNames)
    ensures ConfigOf(Merge(kwargs)).Success? <==> ConfigOf(kwargs).Success?
  {
    var m := Merge(kwargs);
    forall k | k in ArgNames
      ensures Arg(m, k) == Arg(kwargs, k)
    {
    }
    assert m.Keys <= ArgNames <==> kwargs.Keys <= ArgNames;
  }

  /** What the pool relies on: a merged configuration launches at the
      level of the arguments it was merged from. */
  lemma MergedLevel(kwargs: map<string, Value>)
    ensures ConfigOf(Merge(kwargs)).Success? ==>
              ConfigOf(kwargs).Success? && ConfigOf(Merge(kwargs)).value.level == ConfigOf(kwargs).value.level
  {
    ConfigOfMerged(kwargs);
  }

  function Flag(present: bool, part: string): seq<string> {
    if present then [part] else []
  }

  function Bit(b: bool): nat {
    if b then 1 else 0
  }

  /** The launch command, part by part: the binary first, then the optional
      book and configuration, the game and level (always present and in
      that order), the seed only when it is truthy, the three switches,
      and the thread count last. */
  function CommandParts(binary: string, cfg: Config): (parts: seq<string>)
    requires WellFormed(cfg)
    ensures |parts| == 4 + Bit(Truthy(cfg.book)) + Bit(Truthy(cfg.config)) + Bit(Truthy(cfg.seed)) +
                           Bit(cfg.showboard) + Bit(cfg.nobook) + Bit(cfg.noresign)
    ensures parts[0] == binary && parts[|parts| - 1] == "--threads " + Format(cfg.threads)
    ensures exists i :: 1 <= i < |parts| - 2 && parts[i] == "--game classic" &&
                        parts[i + 1] == "--level " + IntToString(cfg.level)
  {
    var head := Head(binary, cfg);
    var switches := Switches(cfg);
    var mid := head + ["--game classic", "--level " + IntToString(cfg.level)];
    var parts := mid + switches + ["--threads " + Format(cfg.threads)];
    assert parts[|head|] == mid[|head|] == "--game classic";
    assert parts[|head| + 1] == mid[|head| + 1] == "--level " + IntToString(cfg.level);
    parts
  }

  /** The binary, then the book and the configuration when they are truthy. */
  function Head(binary: string, cfg: Config): (parts: seq<string>)
    requires WellFormed(cfg)
    ensures |parts| == 1 + Bit(Truthy(cfg.book)) + Bit(Truthy(cfg.config)) && parts[0] == binary
  {
    [binary] + Flag(Truthy(cfg.book), "--book " + Format(cfg.book))
             + Flag(Truthy(cfg.config), "--config " + Format(cfg.config))
  }

  /** The seed when it is truthy, then the three switches that are set. */
  function Switches(cfg: Config): (parts: seq<string>)
    requires WellFormed(cfg)
    ensures |parts| == Bit(Truthy(cfg.seed)) + Bit(cfg.showboard) + Bit(cfg.nobook) + Bit(cfg.noresign)
  {
    Flag(Truthy(cfg.seed), "--seed " + Format(cfg.seed))
      + Flag(cfg.showboard, "--showboard")
      + Flag(cfg.nobook, "--nobook")
      + Flag(cfg.noresign, "--noresign")
  }

  /** A zero seed is falsy, so it launches the engine exactly as no seed does. */
  lemma SeedZeroOmitted(binary: string, cfg: Config)
    requires WellFormed(cfg)
    ensures CommandParts(binary, cfg.(seed := VInt(0))) == CommandParts(binary, cfg.(seed := VNone))
  {
  }

  /** The command is built by appending to a list, one option at a time. */
  method BuildCommand(binary: string, cfg: Config) returns (parts: seq<string>)
    requires WellFormed(cfg)
    ensures parts == CommandParts(binary, cfg)
  {
    parts := [binary];
    parts := AppendIf(parts, Truthy(cfg.book), "--book " + Format(cfg.book));
    parts := AppendIf(parts, Truthy(cfg.config), "--config " + Format(cfg.config));
    ghost var head := parts;
    parts := parts + ["--game classic"];
    parts := parts + ["--level " + IntToString(cfg.level)];
    assert parts == head + ["--game classic", "--level " + IntToString(cfg.level)];
    parts := AppendSwitches(parts, cfg);
    parts := parts + ["--threads " + Format(cfg.threads)];
  }

  /** The seed and switch part of the command, appended one option at a time. */
  method AppendSwitches(parts: seq<string>, cfg: Config) returns (r: seq<string>)
    requires WellFormed(cfg)
    ensures r == parts + Switches(cfg)
  {
    var seed := Flag(Truthy(cfg.seed), "--seed " + Format(cfg.seed));
    var showboard, nobook := Flag(cfg.showboard, "--showboard"), Flag(cfg.nobook, "--nobook");
    r := AppendIf(parts, Truthy(cfg.seed), "--seed " + Format(cfg.seed));
    r := AppendIf(r, cfg.showboard, "--showboard");
    AppendAssoc(parts, seed, showboard);
    r := AppendIf(r, cfg.nobook, "--nobook");
    AppendAssoc(parts, seed + showboard, nobook);
    r := AppendIf(r, cfg.noresign, "--noresign");
    AppendAssoc(parts, seed + showboard + nobook, Flag(cfg.noresign, "--noresign"));
  }

  /** `if present: command.append(part)`. */
  method AppendIf(parts: seq<string>, present: bool, part: string) returns (r: seq<string>)
    ensures r == parts + Flag(present, part)
  {
    r := parts;
    if present {
      r := r + [part];
    }
  }

  // ---------------------------------------------------------------------
  // response framing

  /** The number of lines of the next response: the lines up to the first
      one that is blank once stripped (or up to the end of the output). */
  function Frame(lines: seq<string>): (k: nat)
    ensures k <= |lines|
  {
    FrameFrom(lines, 0)
  }

  /** The index of the first blank line at or after `i`, or the end. */
  function FrameFrom(lines: seq<string>, i: nat): (k: nat)
    requires i <= |lines|
    ensures i <= k <= |lines|
    decreases |lines| - i
  {
    if i == |lines| || Strip(lines[i]) == "" then i else FrameFrom(lines, i + 1)
  }

  /** Reading stops at line `j` exactly when `j` is the end of the frame:
      every line before the end is non-blank, the one at the end is blank. */
  lemma FrameStop(lines: seq<string>, j: nat)
    requires j <= Frame(lines)
    ensures (j == |lines| || Strip(lines[j]) == "") <==> j == Frame(lines)
  {
    FrameFromStop(lines, 0, j);
  }

  lemma {:induction false} FrameFromStop(lines: seq<string>, i: nat, j: nat)
    requires i <= |lines| && i <= j <= FrameFrom(lines, i)
    ensures (j == |lines| || Strip(lines[j]) == "") <==> j == FrameFrom(lines, i)
    decreases j - i
  {
    if i < j {
      FrameFromStop(lines, i + 1, j);
    }
  }

  /** One `readline` of `_read_response` inside the frame: the line read
      is not blank and, stripped, extends what was collected. */
  lemma ReadInside(lines: seq<string>, j: nat)
    requires j < Frame(lines)
    ensures j < |lines| && Strip(lines[j]) != "" && lines[j..][1..] == lines[j + 1..]
    ensures StripEach(lines[..j + 1]) == StripEach(lines[..j]) + [Strip(lines[j])]
  {
    assert j < |lines| && Strip(lines[j]) != "" by {
      FrameStop(lines, j);
    }
    assert lines[j..][1..] == lines[j + 1..];
    assert lines[..j + 1] == lines[..j] + [lines[j]];
    StripEachSnoc(lines[..j], lines[j]);
  }

  /** The `readline` at the end of the frame: the line read is blank, what
      was collected is the response and what is left is the rest. */
  lemma ReadEnd(lines: seq<string>, j: nat)
    requires j == Frame(lines)
    ensures j == |lines| || Strip(lines[j]) == ""
    ensures Response(lines) == Join(StripEach(lines[..j]), '\n')
    ensures Rest(lines) == (if j < |lines| then lines[j..][1..] else [])
  {
    FrameStop(lines, j);
    if j < |lines| {
      assert lines[j..][1..] == lines[j + 1..];
    }
  }

  /** The next response: its lines stripped and joined with newlines. */
  function Response(lines: seq<string>): string {
    Join(StripEach(lines[..Frame(lines)]), '\n')
  }

  /** What is left after the next response and its blank terminator. */
  function Rest(lines: seq<string>): (rest: seq<string>)
    ensures |rest| < |lines| || lines == []
  {
    var k := Frame(lines);
    if k < |lines| then lines[k + 1..] else []
  }

  /** The output after `n` responses. */
  function Skip(lines: seq<string>, n: nat): seq<string> {
    if n == 0 then lines else Rest(Skip(lines, n - 1))
  }

  /** The response at position `n` (0 is the next one). */
  function ReplyAt(lines: seq<string>, n: nat): string {
    Response(Skip(lines, n))
  }

  /** Framing round trip: a reply written as non-empty stripped lines and
      terminated by an empty line is read back as those lines joined with
      newlines, and reading stops right after the terminator. */
  lemma ResponseOfReply(reply: seq<string>, more: seq<string>)
    requires forall i :: 0 <= i < |reply| ==> reply[i] != "" && IsStripped(reply[i])
    ensures Response(reply + [""] + more) == Join(reply, '\n')
    ensures Rest(reply + [""] + more) == more
  {
    var lines := reply + [""] + more;
    FrameOfReply(reply, more);
    var k := Frame(lines);
    assert lines[..k] == reply;
    StripEachStripped(reply);
    assert k < |lines|;
    assert lines[k + 1..] == more;
  }

  lemma FrameOfReply(reply: seq<string>, more: seq<string>)
    requires forall i :: 0 <= i < |reply| ==> reply[i] != "" && IsStripped(reply[i])
    ensures Frame(reply + [""] + more) == |reply|
  {
    FrameFromReply(reply, more, 0);
  }

  lemma {:induction false} FrameFromReply(reply: seq<string>, more: seq<string>, i: nat)
    requires i <= |reply|
    requires forall i :: 0 <= i < |reply| ==> reply[i] != "" && IsStripped(reply[i])
    ensures FrameFrom(reply + [""] + more, i) == |reply|
    decreases |reply| - i
  {
    var lines := reply + [""] + more;
    if i == |reply| {
      assert lines[i] == "";
      assert Strip("") == "";
    } else {
      assert lines[i] == reply[i];
      StripStripped(reply[i]);
      FrameFromReply(reply, more, i + 1);
    }
  }

  /** Once the output is exhausted every read answers the empty response. */
  lemma EndOfOutput()
    ensures Response([]) == "" && Rest([]) == []
  {
  }

  // ---------------------------------------------------------------------
  // reading the engine's answers

  /** `get_legal_moves` on a response: remove every `=`, split into lines,
      drop empty lines, strip what is left; no move at all is `["pass"]`. */
  function LegalMoves(resp: string): (moves: seq<string>)
    ensures |moves| >= 1
    ensures forall i :: 0 <= i < |moves| ==> IsStripped(moves[i])
  {
    var lines := NonEmpty(Split(RemoveChar(resp, '='), '\n'));
    StripEachStrips(lines);
    var stripped := StripEach(lines);
    if |stripped| == 0 then ["pass"] else stripped
  }

  /** A list of moves written as the engine writes it (`= ` and then one
      move per line) is read back as the same list. */
  lemma LegalMovesOfList(ms: seq<string>)
    requires |ms| >= 1
    requires forall i :: 0 <= i < |ms| ==> ms[i] != "" && IsStripped(ms[i]) && '=' !in ms[i] && '\n' !in ms[i]
    ensures LegalMoves("= " + Join(ms, '\n')) == ms
  {
    var resp := "= " + Join(ms, '\n');
    var lines := [" " + ms[0]] + ms[1..];
    assert Split(RemoveChar(resp, '='), '\n') == lines by {
      RemoveStatus(ms);
      SplitReply(ms);
    }
    assert forall i :: 0 <= i < |lines| ==> lines[i] != "" by {
      forall i | 0 <= i < |lines| ensures lines[i] != "" {
        if i > 0 { assert lines[i] == ms[i]; }
      }
    }
    LegalMovesOfLines(resp, lines);
    StripEachReply(ms);
  }

  /** When the answer splits into non-empty lines, the moves are those lines stripped. */
  lemma LegalMovesOfLines(resp: string, lines: seq<string>)
    requires Split(RemoveChar(resp, '='), '\n') == lines
    requires |lines| >= 1 && forall i :: 0 <= i < |lines| ==> lines[i] != ""
    ensures LegalMoves(resp) == StripEach(lines)
  {
    NonEmptyKeepsAll(lines);
  }

  lemma StripEachReply(ms: seq<string>)
    requires |ms| >= 1
    requires forall i :: 0 <= i < |ms| ==> IsStripped(ms[i])
    ensures StripEach([" " + ms[0]] + ms[1..]) == ms
  {
    var lines := [" " + ms[0]] + ms[1..];
    var stripped := StripEach(lines);
    forall i | 0 <= i < |ms|
      ensures stripped[i] == ms[i]
    {
      StripStripped(ms[i]);
      assert lines[i] == if i == 0 then " " + ms[i] else ms[i];
    }
  }

  lemma RemoveStatus(ms: seq<string>)
    requires forall i :: 0 <= i < |ms| ==> '=' !in ms[i]
    ensures RemoveChar("= " + Join(ms, '\n'), '=') == " " + Join(ms, '\n')
  {
    var body := Join(ms, '\n');
    JoinAvoids(ms, '\n', '=');
    RemoveCharConcat("= ", body, '=');
    RemoveCharAbsent(body, '=');
    assert RemoveChar("= ", '=') == " ";
  }

  lemma SplitReply(ms: seq<string>)
    requires |ms| >= 1
    requires forall i :: 0 <= i < |ms| ==> '\n' !in ms[i]
    ensures Split(" " + Join(ms, '\n'), '\n') == [" " + ms[0]] + ms[1..]
  {
    var lines := [" " + ms[0]] + ms[1..];
    JoinPrefix(" ", ms, '\n');
    assert forall i :: 0 <= i < |lines| ==> '\n' !in lines[i];
    SplitOfJoin(lines, '\n');
  }

  /** An answer without moves, `=` alone, means the seat can only pass. */
  lemma NoLegalMoves()
    ensures LegalMoves("=") == ["pass"]
    ensures LegalMoves("") == ["pass"]
  {
    assert RemoveChar("=", '=') == "";
    assert Split("", '\n') == [""];
    assert NonEmpty([""]) == [];
  }

  /** `generate_internal_move` on a response: a failed request is a pass,
      otherwise the `"= "` prefix is removed. */
  function GeneratedMove(out: string): (move: string)
    ensures '?' in out ==> move == "pass"
  {
    if '?' in out then "pass" else RemoveAll(out, "= ")
  }

  /** The move the engine announces as `= m` is `m`. */
  lemma GeneratedMoveOf(m: string)
    requires '=' !in m && '?' !in m
    ensures GeneratedMove("= " + m) == m
  {
    var s := "= " + m;
    assert s[..2] == "= ";
    assert s[2..] == m;
    RemoveAllAbsent(m, "= ");
  }

  /** When the engine generates no move it answers `= `, which framing
      strips to `=`; that comes back unchanged, and the players turn it
      into a pass. */
  lemma GeneratedNoMove()
    ensures GeneratedMove("=") == "="
  {
  }

  /** `[int(x) for x in parts]` once every `int(x)` is known: the first
      failure is raised, otherwise all the values in order. */
  function Collect(results: seq<Result<int>>): (r: Result<seq<int>>)
    ensures r.Success? <==> forall i :: 0 <= i < |results| ==> results[i].Success?
    ensures r.Success? ==>
              (|r.value| == |results| && forall i :: 0 <= i < |results| ==> r.value[i] == results[i].value)
    ensures r.Failure? ==>
              (exists i :: 0 <= i < |results| && results[i] == Failure(r.error) &&
                           forall j :: 0 <= j < i ==> results[j].Success?)
  {
    if results == [] then Success([])
    else if results[0].Failure? then Failure(results[0].error)
    else
      var rest := Collect(results[1..]);
      if rest.Failure? then
        ghost var i :| 0 <= i < |results| - 1 && results[1..][i] == Failure(rest.error) &&
                       forall j :: 0 <= j < i ==> results[1..][j].Success?;
        assert results[i + 1] == Failure(rest.error);
        rest
      else Success([results[0].value] + rest.value)
  }

  /** The `score` property on a response: split on single spaces, skip the
      status word and read every other piece as an integer. */
  function ScoreOf(resp: string): (r: Result<seq<int>>)
    ensures r.Success? ==> |r.value| == |Split(resp, ' ')| - 1
  {
    var pieces := Split(resp, ' ')[1..];
    Collect(seq(|pieces|, i requires 0 <= i < |pieces| => ParseInt(pieces[i])))
  }

  function Spelled(scores: seq<int>): (words: seq<string>)
    ensures |words| == |scores|
  {
    seq(|scores|, i requires 0 <= i < |scores| => IntToString(scores[i]))
  }

  /** Scores written as the engine writes them (`= 85 81 77 65`) are read
      back as the same scores. */
  lemma ScoreOfReply(scores: seq<int>)
    ensures ScoreOf(Join(["="] + Spelled(scores), ' ')) == Success(scores)
  {
    var words := ["="] + Spelled(scores);
    forall i | 0 <= i < |words|
      ensures ' ' !in words[i]
    {
      if i > 0 {
        IntToStringPlain(scores[i - 1]);
      }
    }
    SplitOfJoin(words, ' ');
    assert words[1..] == Spelled(scores);
    var pieces := Split(Join(words, ' '), ' ')[1..];
    assert pieces == Spelled(scores);
    var results := seq(|pieces|, i requires 0 <= i < |pieces| => ParseInt(pieces[i]));
    forall i | 0 <= i < |scores|
      ensures results[i] == Success(scores[i])
    {
      ParseIntOfString(scores[i]);
    }
    assert Collect(results).value == scores;
  }

  // ---------------------------------------------------------------------
  // turns

  predicate IsSeat(pid: int) {
    1 <= pid <= 4
  }

  /** `_change_player`: the seat after `pid`, `pid % 4 + 1`. */
  function NextSeat(pid: int): (next: int)
    ensures IsSeat(next)
    ensures IsSeat(pid) ==> next == (if pid == 4 then 1 else pid + 1)
  {
    pid % 4 + 1
  }

  /** Four turns bring the play back to the same seat. */
  lemma NextSeatCycle(pid: int)
    requires IsSeat(pid)
    ensures NextSeat(NextSeat(NextSeat(NextSeat(pid)))) == pid
  {
  }

  /** What `get_legal_moves(pid)` makes of a response: a failure when it
      holds a `?`, the parsed list otherwise. */
  function LegalReply(pid: int, resp: string): (r: Result<seq<string>>)
    ensures r.Failure? <==> '?' in resp
    ensures r.Success? ==> |r.value| >= 1
  {
    if '?' in resp then Failure(CommandFailed("all_legal " + IntToString(pid), resp))
    else Success(LegalMoves(resp))
  }

  /** A seat that can only pass: the request succeeded and the list is `["pass"]`. */
  predicate OnlyPass(resp: string) {
    '?' !in resp && LegalMoves(resp) == ["pass"]
  }

  /** The answers seats 1..4 would get from the next four responses. */
  function SeatAnswers(lines: seq<string>): (answers: seq<Result<seq<string>>>)
    ensures |answers| == 4
  {
    seq(4, i requires 0 <= i < 4 => LegalReply(i + 1, ReplyAt(lines, i)))
  }

  /** The requests `all_legal 1` .. `all_legal n`. */
  function AskedSeats(n: nat): (cmds: seq<string>)
    ensures |cmds| == n
  {
    seq(n, i requires 0 <= i < n => "all_legal " + IntToString(i + 1))
  }

  lemma SeatAnswerAt(lines: seq<string>, k: nat)
    requires k < 4
    ensures SeatAnswers(lines)[k] == LegalReply(k + 1, Response(Skip(lines, k)))
  {
  }

  lemma AskedSeatsNext(log: seq<string>, n: nat)
    ensures log + AskedSeats(n) + ["all_legal " + IntToString(n + 1)] == log + AskedSeats(n + 1)
  {
    assert AskedSeats(n) + ["all_legal " + IntToString(n + 1)] == AskedSeats(n + 1);
  }

  /** The outcome of probing and how many seats were asked. */
  datatype Probe = Probe(result: Result<bool>, asked: nat)

  /** The loop of `is_game_finished` over the answers from index `k` on:
      the first failure is raised, the first seat with a move ends it
      with `false`, and running out of seats means `true`. */
  function ProbeFrom(answers: seq<Result<seq<string>>>, k: nat): Probe
    requires k <= |answers|
    decreases |answers| - k
  {
    if k == |answers| then Probe(Success(true), k)
    else if answers[k].Failure? then Probe(Failure(answers[k].error), k + 1)
    else if answers[k].value != ["pass"] then Probe(Success(false), k + 1)
    else ProbeFrom(answers, k + 1)
  }

  /** Probing from index `k` asks at least one more seat while any is left;
      every seat asked before the last one could only pass; the result is
      `true` exactly when all remaining seats can only pass, `false` when
      the last seat asked has a move, and a failure when its request failed. */
  lemma {:induction false} ProbeFacts(answers: seq<Result<seq<string>>>, k: nat)
    requires k <= |answers|
    ensures var p := ProbeFrom(answers, k);
            (k < |answers| ==> k < p.asked <= |answers|) &&
            (k == |answers| ==> p == Probe(Success(true), k)) &&
            (forall j :: k <= j < p.asked - 1 ==> answers[j] == Success(["pass"])) &&
            (p.result == Success(true) <==>
               p.asked == |answers| && forall j :: k <= j < |answers| ==> answers[j] == Success(["pass"])) &&
            (p.result == Success(false) ==>
               answers[p.asked - 1].Success? && answers[p.asked - 1].value != ["pass"]) &&
            (p.result.Failure? ==> answers[p.asked - 1] == Failure(p.result.error))
    decreases |answers| - k
  {
    if k < |answers| && answers[k].Success? && answers[k].value == ["pass"] {
      ProbeFacts(answers, k + 1);
    }
  }

  /** The game is finished exactly when all four seats can only pass. */
  lemma FinishedIff(lines: seq<string>)
    ensures ProbeFrom(SeatAnswers(lines), 0).result == Success(true) <==>
              forall s :: 0 <= s < 4 ==> OnlyPass(ReplyAt(lines, s))
  {
    var answers := SeatAnswers(lines);
    ProbeAllPass(answers);
    forall s | 0 <= s < 4
      ensures answers[s] == Success(["pass"]) <==> OnlyPass(ReplyAt(lines, s))
    {
      AnswerPasses(lines, s);
    }
  }

  lemma ProbeAllPass(answers: seq<Result<seq<string>>>)
    ensures ProbeFrom(answers, 0).result == Success(true) <==>
              forall j :: 0 <= j < |answers| ==> answers[j] == Success(["pass"])
  {
    ProbeFacts(answers, 0);
    var p := ProbeFrom(answers, 0);
    if forall j :: 0 <= j < |answers| ==> answers[j] == Success(["pass"]) {
      if |answers| > 0 {
        assert answers[p.asked - 1] == Success(["pass"]);
      }
      assert p.result.Success? ==> p.result.value;
    }
  }

  lemma AnswerPasses(lines: seq<string>, s: nat)
    requires s < 4
    ensures SeatAnswers(lines)[s] == Success(["pass"]) <==> OnlyPass(ReplyAt(lines, s))
    ensures '?' !in ReplyAt(lines, s) ==> SeatAnswers(lines)[s] == Success(LegalMoves(ReplyAt(lines, s)))
  {
    SeatAnswerAt(lines, s);
  }

  /** Probing stops at the first seat with a move: only the seats up to
      it are asked. */
  lemma FinishedStopsEarly(lines: seq<string>, s: nat)
    requires s < 4
    requires forall t :: 0 <= t < s ==> OnlyPass(ReplyAt(lines, t))
    requires '?' !in ReplyAt(lines, s) && !OnlyPass(ReplyAt(lines, s))
    ensures ProbeFrom(SeatAnswers(lines), 0) == Probe(Success(false), s + 1)
  {
    var answers := SeatAnswers(lines);
    forall t | 0 <= t < s
      ensures answers[t] == Success(["pass"])
    {
      AnswerPasses(lines, t);
    }
    AnswerPasses(lines, s);
    ProbePassesThrough(answers, 0, s);
  }

  /** One step of the probe: a failed request or a seat with a move ends
      it, a seat that can only pass hands over to the next one. */
  lemma ProbeStep(answers: seq<Result<seq<string>>>, k: nat)
    requires k < |answers|
    ensures answers[k].Failure? ==> ProbeFrom(answers, k) == Probe(Failure(answers[k].error), k + 1)
    ensures answers[k].Success? && answers[k].value != ["pass"] ==>
              ProbeFrom(answers, k) == Probe(Success(false), k + 1)
    ensures answers[k] == Success(["pass"]) ==> ProbeFrom(answers, k) == ProbeFrom(answers, k + 1)
  {
  }

  lemma {:induction false} ProbePassesThrough(answers: seq<Result<seq<string>>>, k: nat, s: nat)
    requires k <= s < |answers|
    requires forall t :: k <= t < s ==> answers[t] == Success(["pass"])
    ensures ProbeFrom(answers, k) == ProbeFrom(answers, s)
    decreases s - k
  {
    if k < s {
      ProbePassesThrough(answers, k + 1, s);
    }
  }

  // ---------------------------------------------------------------------
  // the session

  class Session {
    /** The AI level the engine was launched with. */
    const level: int
    /** The launch command line. */
    const command: string
    /** The seat to move, 1..4. */
    var currentPlayer: int
    /** The seats that have moved, most recent last; `undo_last_move` pops it. */
    var previousPlayers: seq<int>
    /** Every command written to the engine, in order. */
    var sent: seq<string>
    /** The engine's output lines not read yet. */
    var pending: seq<string>

    predicate Valid()
      reads this
    {
      1 <= level <= 9 && IsSeat(currentPlayer) &&
      forall i :: 0 <= i < |previousPlayers| ==> IsSeat(previousPlayers[i])
    }

    /** A fresh engine: seat 1 to move, no history, nothing written yet. */
    constructor(level: int, command: string, output: seq<string>)
      requires 1 <= level <= 9
      ensures Valid()
      ensures this.level == level && this.command == command
      ensures currentPlayer == 1 && previousPlayers == [] && sent == [] && pending == output
    {
      this.level := level;
      this.command := command;
      currentPlayer := 1;
      previousPlayers := [];
      sent := [];
      pending := output;
    }

    /** `readline().strip()`: the next line stripped, or "" at the end of the output. */
    method ReadLine() returns (line: string)
      modifies this
      ensures old(pending) == [] ==> line == "" && pending == []
      ensures old(pending) != [] ==> line == Strip(old(pending)[0]) && pending == old(pending)[1..]
      ensures sent == old(sent) && currentPlayer == old(currentPlayer) && previousPlayers == old(previousPlayers)
    {
      if pending == [] {
        line := "";
      } else {
        line := Strip(pending[0]);
        pending := pending[1..];
      }
    }

    /** `_read_response`: collect stripped lines until an empty one. */
    method ReadResponse() returns (response: string)
      modifies this
      ensures response == Response(old(pending))
      ensures pending == Rest(old(pending))
      ensures sent == old(sent) && currentPlayer == old(currentPlayer) && previousPlayers == old(previousPlayers)
    {
      ghost var lines := pending;
      ghost var j := 0;
      var collected: seq<string> := [];
      while true
        invariant 0 <= j <= Frame(lines)
        invariant pending == lines[j..]
        invariant collected == StripEach(lines[..j])
        invariant sent == old(sent) && currentPlayer == old(currentPlayer) && previousPlayers == old(previousPlayers)
        decreases |pending|
      {
        if j < Frame(lines) {
          ReadInside(lines, j);
        } else {
          ReadEnd(lines, j);
        }
        var line := ReadLine();
        if line == "" {
          break;
        }
        collected := collected + [line];
        j := j + 1;
      }
      response := Join(collected, '\n');
    }

    /** `send_command`: write the command, read the response, and fail when
        it holds a `?` and errors are raised. The response is consumed
        either way. */
    method SendCommand(cmd: string, raiseErrors: bool) returns (r: Result<string>)
      modifies this
      ensures sent == old(sent) + [cmd]
      ensures pending == Rest(old(pending))
      ensures currentPlayer == old(currentPlayer) && previousPlayers == old(previousPlayers)
      ensures r.Failure? <==> raiseErrors && '?' in Response(old(pending))
      ensures r.Failure? ==> r.error == CommandFailed(cmd, Response(old(pending)))
      ensures r.Success? ==> r.value == Response(old(pending))
    {
      sent := sent + [cmd];
      var response := ReadResponse();
      if '?' in response && raiseErrors {
        return Failure(CommandFailed(cmd, response));
      }
      return Success(response);
    }

    /** `_check_pid_has_turn`. */
    predicate HasTurn(pid: int)
      reads this
    {
      pid == currentPlayer
    }

    /** `play_move`: only the seat to move may play; a pass writes nothing
        to the engine; a rejected move leaves the turn where it was;
        otherwise the seat is pushed on the history and the turn passes
        to the next seat. */
    method PlayMove(pid: int, move: string) returns (r: Outcome)
      requires Valid()
      modifies this
      ensures Valid()
      ensures !old(HasTurn(pid)) ==>
                r == Fail(NotInTurn(pid)) && sent == old(sent) && pending == old(pending)
      ensures old(HasTurn(pid)) && move == "pass" ==>
                r == Pass && sent == old(sent) && pending == old(pending)
      ensures old(HasTurn(pid)) && move != "pass" ==>
                sent == old(sent) + ["play " + IntToString(pid) + " " + move] &&
                pending == Rest(old(pending)) &&
                (r.Pass? <==> '?' !in Response(old(pending)))
      ensures r.Fail? ==> currentPlayer == old(currentPlayer) && previousPlayers == old(previousPlayers)
      ensures r.Pass? ==> previousPlayers == old(previousPlayers) + [pid] && currentPlayer == NextSeat(pid)
    {
      if !HasTurn(pid) {
        return Fail(NotInTurn(pid));
      }
      if move != "pass" {
        var res := SendCommand("play " + IntToString(pid) + " " + move, true);
        if res.Failure? {
          return Fail(res.error);
        }
      }
      previousPlayers := previousPlayers + [pid];
      currentPlayer := NextSeat(pid);
      return Pass;
    }

    /** `undo_last_move`: nothing to undo is a no-op; a rejected undo leaves
        the turn where it was; otherwise the last seat is popped and has
        the turn again. The "Undo failed" branch of the original never
        runs: a `?` answer already fails inside `send_command`. */
    method UndoLastMove() returns (r: Outcome)
      requires Valid()
      modifies this
      ensures Valid()
      ensures old(previousPlayers) == [] ==>
                r == Pass && sent == old(sent) && pending == old(pending) &&
                currentPlayer == old(currentPlayer) && previousPlayers == []
      ensures old(previousPlayers) != [] ==>
                sent == old(sent) + ["undo"] && pending == Rest(old(pending)) &&
                (r.Pass? <==> '?' !in Response(old(pending)))
      ensures r.Fail? ==> currentPlayer == old(currentPlayer) && previousPlayers == old(previousPlayers)
      ensures r.Pass? && old(previousPlayers) != [] ==>
                currentPlayer == old(previousPlayers)[|old(previousPlayers)| - 1] &&
                previousPlayers == old(previousPlayers)[..|old(previousPlayers)| - 1]
    {
      if |previousPlayers| == 0 {
        return Pass;
      }
      var res := SendCommand("undo", true);
      if res.Failure? {
        return Fail(res.error);
      }
      assert '?' !in res.value;
      currentPlayer := previousPlayers[|previousPlayers| - 1];
      previousPlayers := previousPlayers[..|previousPlayers| - 1];
      return Pass;
    }

    /** `generate_internal_move`: the seat must have the turn; the request
        never raises, and a failed one is a pass. */
    method GenerateInternalMove(pid: int) returns (r: Result<string>)
      modifies this
      ensures !old(HasTurn(pid)) ==>
                r == Failure(NotInTurn(pid)) && sent == old(sent) && pending == old(pending)
      ensures old(HasTurn(pid)) ==>
                r == Success(GeneratedMove(Response(old(pending)))) &&
                sent == old(sent) + ["reg_genmove " + IntToString(pid)] &&
                pending == Rest(old(pending))
      ensures currentPlayer == old(currentPlayer) && previousPlayers == old(previousPlayers)
    {
      if !HasTurn(pid) {
        return Failure(NotInTurn(pid));
      }
      var out := SendCommand("reg_genmove " + IntToString(pid), false);
      return Success(GeneratedMove(out.value));
    }

    /** `get_legal_moves`. */
    method GetLegalMoves(pid: int) returns (r: Result<seq<string>>)
      modifies this
      ensures sent == old(sent) + ["all_legal " + IntToString(pid)]
      ensures pending == Rest(old(pending))
      ensures currentPlayer == old(currentPlayer) && previousPlayers == old(previousPlayers)
      ensures r == LegalReply(pid, Response(old(pending)))
    {
      var out := SendCommand("all_legal " + IntToString(pid), true);
      if out.Failure? {
        return Failure(out.error);
      }
      return Success(LegalMoves(out.value));
    }

    /** `is_game_finished`: ask seats 1..4 in turn and stop at the first
        one that has a move. */
    method IsGameFinished() returns (r: Result<bool>)
      modifies this
      ensures r == ProbeFrom(SeatAnswers(old(pending)), 0).result
      ensures sent == old(sent) + AskedSeats(ProbeFrom(SeatAnswers(old(pending)), 0).asked)
      ensures pending == Skip(old(pending), ProbeFrom(SeatAnswers(old(pending)), 0).asked)
      ensures currentPlayer == old(currentPlayer) && previousPlayers == old(previousPlayers)
    {
      ghost var answers := SeatAnswers(pending);
      var seat := 1;
      while seat <= 4
        invariant 1 <= seat <= 5
        invariant pending == Skip(old(pending), seat - 1)
        invariant sent == old(sent) + AskedSeats(seat - 1)
        invariant ProbeFrom(answers, seat - 1) == ProbeFrom(answers, 0)
        invariant currentPlayer == old(currentPlayer) && previousPlayers == old(previousPlayers)
        decreases 5 - seat
      {
        SeatAnswerAt(old(pending), seat - 1);
        AskedSeatsNext(old(sent), seat - 1);
        ProbeStep(answers, seat - 1);
        var moves := GetLegalMoves(seat);
        if moves.Failure? {
          return Failure(moves.error);
        }
        if moves.value != ["pass"] {
          return Success(false);
        }
        seat := seat + 1;
      }
      return Success(true);
    }

    /** `board_as_text`. */
    method BoardText() returns (r: Result<string>)
      modifies this
      ensures sent == old(sent) + ["showboard"] && pending == Rest(old(pending))
      ensures currentPlayer == old(currentPlayer) && previousPlayers == old(previousPlayers)
      ensures r.Failure? <==> '?' in Response(old(pending))
      ensures r.Failure? ==> r.error == CommandFailed("showboard", Response(old(pending)))
      ensures r.Success? ==> r.value == Response(old(pending))
    {
      r := SendCommand("showboard", true);
    }

    /** `board`: the parsed `showboard` answer. */
    method Board() returns (r: Result<Grid>)
      modifies this
      ensures sent == old(sent) + ["showboard"] && pending == Rest(old(pending))
      ensures currentPlayer == old(currentPlayer) && previousPlayers == old(previousPlayers)
      ensures '?' in Response(old(pending)) ==>
                r == Failure(CommandFailed("showboard", Response(old(pending))))
      ensures '?' !in Response(old(pending)) ==> r == ParseBoard(Response(old(pending)))
    {
      var text := BoardText();
      if text.Failure? {
        return Failure(text.error);
      }
      return ParseBoard(text.value);
    }

    /** `score`: the parsed `final_score` answer. */
    method Score() returns (r: Result<seq<int>>)
      modifies this
      ensures sent == old(sent) + ["final_score"] && pending == Rest(old(pending))
      ensures currentPlayer == old(currentPlayer) && previousPlayers == old(previousPlayers)
      ensures '?' in Response(old(pending)) ==>
                r == Failure(CommandFailed("final_score", Response(old(pending))))
      ensures '?' !in Response(old(pending)) ==> r == ScoreOf(Response(old(pending)))
    {
      var out := SendCommand("final_score", true);
      if out.Failure? {
        return Failure(out.error);
      }
      return ScoreOf(out.value);
    }

    /** `set_to_state`: the other session's board is read (it names the
        temporary file), the other session saves its game to `file`, this
        session loads it and takes over the seat to move. The other
        session's turn is untouched and this session's history is not
        copied. */
    method SetToState(other: Session, file: string) returns (r: Outcome)
      requires other != this && Valid() && other.Valid()
      modifies this, other
      ensures Valid() && other.Valid()
      ensures other.currentPlayer == old(other.currentPlayer) && other.previousPlayers == old(other.previousPlayers)
      ensures previousPlayers == old(previousPlayers)
      ensures r.Fail? ==> currentPlayer == old(currentPlayer)
      ensures r.Pass? ==>
                currentPlayer == other.currentPlayer &&
                other.sent == old(other.sent) + ["showboard", "savesgf " + file] &&
                other.pending == Skip(old(other.pending), 2) &&
                sent == old(sent) + ["loadsgf " + file] && pending == Rest(old(pending))
    {
      ghost var otherPending := other.pending;
      var board := other.Board();
      if board.Failure? {
        return Fail(board.error);
      }
      assert other.pending == Skip(otherPending, 1);
      var saved := other.SendCommand("savesgf " + file, true);
      if saved.Failure? {
        return Fail(saved.error);
      }
      var loaded := SendCommand("loadsgf " + file, true);
      if loaded.Failure? {
        return Fail(loaded.error);
      }
      currentPlayer := other.currentPlayer;
      return Pass;
    }
  }

  /** The constructor: bind and check the arguments (nothing is launched
      when that fails), build the command, start the engine on `output`
      and ask for the board once, failing if the engine rejects it. */
  method Launch(kwargs: map<string, Value>, binary: string, output: seq<string>) returns (r: Result<Session>)
    ensures ConfigOf(kwargs).Failure? ==> r == Failure(ConfigOf(kwargs).error)
    ensures ConfigOf(kwargs).Success? ==>
              (r.Failure? <==> '?' in Response(output)) &&
              (r.Failure? ==> r.error == CommandFailed("showboard", Response(output)))
    ensures r.Success? ==>
              fresh(r.value) && r.value.Valid() &&
              r.value.level == ConfigOf(kwargs).value.level &&
              r.value.command == Join(CommandParts(binary, ConfigOf(kwargs).value), ' ') &&
              r.value.currentPlayer == 1 && r.value.previousPlayers == [] &&
              r.value.sent == ["showboard"] && r.value.pending == Rest(output)
  {
    var cfg := ConfigOf(kwargs);
    if cfg.Failure? {
      return Failure(cfg.error);
    }
    var parts := BuildCommand(binary, cfg.value);
    var session := new Session(cfg.value.level, Join(parts, ' '), output);
    var test := session.SendCommand("showboard", true);
    if test.Failure? {
      return Failure(test.error);
    }
    return Success(session);
  }

  /** `get_pentobi_move_session` and its module-level dictionary: sessions
      keyed on the merged configuration. */
  class SessionPool {
    var sessions: map<map<string, Value>, Session>

    /** Every key is a valid configuration, and its session was launched
        at that configuration's level. */
    predicate Valid()
      reads this
    {
      forall k :: k in sessions ==> ConfigOf(k).Success? && sessions[k].level == ConfigOf(k).value.level
    }

    constructor()
      ensures Valid() && sessions == map[]
    {
      sessions := map[];
    }

    /** A configuration seen before gets its session back; a new one is
        launched and stored only if the launch succeeds; no entry is ever
        removed or replaced. */
    method Get(kwargs: map<string, Value>, binary: string, output: seq<string>) returns (r: Result<Session>)
      requires Valid()
      modifies this
      ensures Valid()
      ensures Merge(kwargs) in old(sessions) ==>
                r == Success(old(sessions)[Merge(kwargs)]) && sessions == old(sessions)
      ensures Merge(kwargs) !in old(sessions) && r.Success? ==>
                fresh(r.value) && sessions == old(sessions)[Merge(kwargs) := r.value] &&
                r.value.Valid() && r.value.currentPlayer == 1 && r.value.previousPlayers == []
      ensures r.Success? ==> ConfigOf(kwargs).Success? && r.value.level == ConfigOf(kwargs).value.level
      ensures r.Failure? ==> sessions == old(sessions)
      ensures ConfigOf(Merge(kwargs)).Failure? ==> r == Failure(ConfigOf(Merge(kwargs)).error)
      ensures forall k :: k in old(sessions) ==> k in sessions && sessions[k] == old(sessions)[k]
    {
      var key := Merge(kwargs);
      MergedLevel(kwargs);
      if key in sessions {
        return Success(sessions[key]);
      }
      r := Open(key, binary, output);
      if r.Success? {
        Store(key, r.value);
      }
    }

    /** The part of the constructor's contract the pool relies on. */
    static method Open(kwargs: map<string, Value>, binary: string, output: seq<string>) returns (r: Result<Session>)
      ensures ConfigOf(kwargs).Failure? ==> r == Failure(ConfigOf(kwargs).error)
      ensures r.Success? ==>
                fresh(r.value) && r.value.Valid() && ConfigOf(kwargs).Success? &&
                r.value.level == ConfigOf(kwargs).value.level &&
                r.value.currentPlayer == 1 && r.value.previousPlayers == []
    {
      r := Launch(kwargs, binary, output);
    }

    /** Enter a session launched at its key's level. */
    method Store(key: map<string, Value>, session: Session)
      requires Valid() && ConfigOf(key).Success? && session.level == ConfigOf(key).value.level
      modifies this
      ensures Valid() && sessions == old(sessions)[key := session]
    {
      sessions := sessions[key := session];
    }
  }
}
