# Pentobi GTP players, modelled in Dafny

PythonBlokus drives the Blokus engine Pentobi through its text protocol (GTP)
and builds players on top of it. This project models the core of that code:

- `utils.py`: `parse_gtp_board_to_matrix`, which turns the engine's
  `showboard` dump into a grid of seat values (`common.dfy`, `text.dfy`,
  `board_text.dfy`).
- `board_norming.py`: turning a board so that a seat's corner is at the top
  left, and renumbering colours so that a seat becomes colour 0
  (`board_norming.dfy`).
- `PentobiGTP.py` (`pentobi_gtp.dfy`):
  - argument checking and the launch command;
  - reading a response and the `?` failure rule of `send_command`;
  - whose turn it is, playing and undoing;
  - legal moves, the end-of-game test, engine-generated moves and the
    score;
  - copying a position between two sessions;
  - the shared pool of move sessions keyed on their configuration.
- `PentobiPlayers.py` (`pentobi_players.dfy`):
  - the internal player, whose moves come from the engine, possibly from a
    second engine at its own level;
  - the external player, which plays each candidate move, reads the board
    back, undoes the move and plays the candidate its evaluation scores
    highest;
  - the greedy evaluation.

The engine process is an oracle. A session holds two sequences:

- `pending`: the lines the engine has written and that have not been read
  yet;
- `sent`: the log of commands written to the engine.

Every session method states which commands it writes, which lines it
consumes and what it makes of them. Exceptions become `Result` or `Outcome`
values, and each one carries an `Error` saying which check failed.

Three points where the code and its documentation differ; the model
follows the code:

- The board parser does not reject rows with fewer than twenty cells. It
  only slices them (`[1:21]`). A board whose rows are all equally short
  parses to a narrower grid. Rows of different lengths are refused,
  because `np.array` raises on them (numpy 1.24 and later); `ParseBoard`
  returns `RaggedBoard` there.
- `set_to_state` does not clean up its temporary game file on failure.
  Removing the file is outside the model in any case.
- The "Undo failed" branch of `undo_last_move` cannot be reached.
  `send_command` already raises when the answer contains `?`, so
  `UndoLastMove` fails with that `CommandFailed` error.

## Model

| member | source | states |
|---|---|---|
| Text.Split | BlokusPentobi/utils.py:32 | `str.split(sep)` always gives at least one part |
| Text.SplitSepFree | BlokusPentobi/utils.py:32 | no part of `s.split(sep)` contains the separator |
| Text.SplitOfSepFree | BlokusPentobi/utils.py:34 | a string without the separator splits into itself alone |
| Text.SplitConcat | BlokusPentobi/utils.py:32 | splitting `a + sep + b` gives the parts of `a` followed by the parts of `b` |
| Text.SplitOfJoin | BlokusPentobi/PentobiGTP.py:239 | separator-free parts joined by the separator split back into the same parts |
| Text.JoinOfSplit | BlokusPentobi/PentobiGTP.py:109 | joining the parts of a split gives back the string |
| Text.JoinPrefix | BlokusPentobi/PentobiGTP.py:109 | a prefix on the first part is a prefix of the joined string |
| Text.JoinAvoids | BlokusPentobi/PentobiGTP.py:239 | a character that is neither the separator nor in any part is not in the join |
| Text.NonEmpty | BlokusPentobi/utils.py:36 | the filter keeps only non-empty strings, each taken from the input, and never lengthens the list |
| Text.NonEmptyConcat | BlokusPentobi/utils.py:36 | filtering a concatenation filters each half |
| Text.NonEmptyKeepsAll | BlokusPentobi/PentobiGTP.py:302 | a list without empty strings passes the filter unchanged |
| Text.Tokens | BlokusPentobi/utils.py:34-36 | the words of a line are non-empty and hold no space |
| Text.TokensConcat | BlokusPentobi/utils.py:34-36 | the words of `a + " " + b` are the words of `a` then those of `b` |
| Text.TokensOfWords | BlokusPentobi/utils.py:34-36 | space-free words joined by spaces split back into the same words |
| Text.TrimStartSpec | BlokusPentobi/PentobiGTP.py:235 | trimming the front removes exactly the leading whitespace, and the result starts with a non-space |
| Text.TrimEndSpec | BlokusPentobi/PentobiGTP.py:235 | trimming the back removes exactly the trailing whitespace, and the result ends with a non-space |
| Text.StripSpec | BlokusPentobi/PentobiGTP.py:235 | `strip()` gives a stripped string, no longer than the input, and it is empty exactly when the input is all whitespace |
| Text.StripEach | BlokusPentobi/PentobiGTP.py:302 | stripping a list keeps its length and strips each element in place |
| Text.StripEachStrips | BlokusPentobi/PentobiGTP.py:302 | every element of a stripped list is stripped |
| Text.StripEachSnoc | BlokusPentobi/PentobiGTP.py:238 | stripping a list with one more line appends that line stripped |
| Text.StripEachStripped | BlokusPentobi/PentobiGTP.py:302 | a list of stripped strings is its own stripping |
| Text.StripStripped | BlokusPentobi/PentobiGTP.py:302 | stripping is idempotent and removes one leading blank |
| Text.RemoveChar | BlokusPentobi/PentobiGTP.py:301 | `replace("=", "")` leaves no `=` and never lengthens the text |
| Text.RemoveCharKeeps | BlokusPentobi/PentobiGTP.py:301 | every character left was in the input |
| Text.RemoveCharConcat | BlokusPentobi/PentobiGTP.py:301 | removing a character from a concatenation removes it from each half |
| Text.RemoveCharAbsent | BlokusPentobi/PentobiGTP.py:301 | a text without the character is unchanged |
| Text.RemoveAll | BlokusPentobi/PentobiGTP.py:263 | `replace("= ", "")` never lengthens the text |
| Text.RemoveAllAbsent | BlokusPentobi/PentobiGTP.py:263 | a text without the pattern's first character is unchanged |
| Text.NatToString | BlokusPentobi/PentobiGTP.py:99 | a natural number is spelled with at least one digit and only digits |
| Text.DigitsOfNat | BlokusPentobi/PentobiGTP.py:99 | the decimal spelling reads back as the same number |
| Text.ParseInt | BlokusPentobi/PentobiGTP.py:166 | a failing `int(x)` names the text it could not read |
| Text.ParseIntOfString | BlokusPentobi/PentobiGTP.py:166 | `int(str(i)) == i` for every integer |
| Text.SignedValueOfString | BlokusPentobi/PentobiGTP.py:166 | the sign-and-digits reading of `str(i)` is `i` |
| Text.IntToStringPlain | BlokusPentobi/PentobiGTP.py:284 | `str(i)` is non-empty, has no whitespace or newline, and starts with a digit or `-` |
| BoardText.ReplaceMarkers | BlokusPentobi/utils.py:31 | blanking `>` and `<` keeps the length, leaves no marker and keeps every other character |
| BoardText.BodyLines | BlokusPentobi/utils.py:31-33 | the body is the lines of the blanked text without the first and last ones |
| BoardText.RowCells | BlokusPentobi/utils.py:34-42 | the cells of a row are its words after the label, at most twenty of them |
| BoardText.GlyphValue | BlokusPentobi/utils.py:47-54 | a known glyph maps to -1..3, and to -1 exactly for `.` and `+` |
| BoardText.ParseRow | BlokusPentobi/utils.py:57 | a row converts exactly when all its cells are known glyphs, cell by cell; otherwise the lookup fails on an unknown glyph of the row |
| BoardText.ParseRows | BlokusPentobi/utils.py:55-57 | all rows convert, row by row and keeping the row count, or the error of a failing row is raised |
| BoardText.ParseBoard | BlokusPentobi/utils.py:31-58 | parsing succeeds exactly when every body row's cells are known glyphs and all rows keep the same number of cells; the grid then is rectangular with one row per body line, each cell being the value of its glyph, all in -1..3; an unknown glyph fails with that glyph, and known glyphs in rows of unequal length fail as a ragged board |
| BoardText.ReplaceMarkersConcat | BlokusPentobi/utils.py:31 | blanking distributes over concatenation |
| BoardText.ReplaceMarkersPlain | BlokusPentobi/utils.py:31 | a text without markers is unchanged |
| BoardText.MarkerSeparatesTokens | BlokusPentobi/utils.py:31-36 | a marker separates words as a space does |
| BoardText.AnnotationsIgnored | BlokusPentobi/utils.py:42 | text after the twenty-first word of a row does not change its cells |
| BoardText.GlyphOf | BlokusPentobi/utils.py:47-54 | each value -1..3 has a plain glyph that maps back to it |
| BoardText.JoinGlyphsPlain | BlokusPentobi/utils.py:34 | glyphs joined by spaces hold neither a newline nor a marker |
| BoardText.ReplaceMarkersJoin | BlokusPentobi/utils.py:31-32 | blanking the whole dump blanks each of its lines |
| BoardText.RenderRowMarkers | BlokusPentobi/utils.py:31 | blanking a rendered row only blanks its annotation |
| BoardText.RenderRowBlanked | BlokusPentobi/utils.py:31-32 | a blanked rendered row stays on one line |
| BoardText.SplitOfBlanked | BlokusPentobi/utils.py:31-32 | lines that stay single lines after blanking are split back apart |
| BoardText.RowCellsOfRender | BlokusPentobi/utils.py:34-42 | the cells read from a rendered row of twenty values are its glyphs |
| BoardText.BodyOfRender | BlokusPentobi/utils.py:31-33 | the body lines of a rendered dump are its rows, with annotations blanked |
| BoardText.ParseOfRender | BlokusPentobi/utils.py:3-58 | a grid of twenty-column rows over -1..3, rendered in the engine's layout with any header, footer, labels and annotations, parses back to the same grid |
| BoardNorming.Corners | BlokusPentobi/board_norming.py:11-15 | there are four corners, listed clockwise from the top left |
| BoardNorming.CornerIndex | BlokusPentobi/board_norming.py:18-23 | the index of the first corner holding the seat, or 0 when no corner does |
| BoardNorming.Rot90 | BlokusPentobi/board_norming.py:26 | a quarter turn swaps the dimensions of a rectangular board |
| BoardNorming.RotateK | BlokusPentobi/board_norming.py:26 | `np.rot90(board, k)` of a rectangular board is rectangular |
| BoardNorming.Rotate | BlokusPentobi/board_norming.py:3-28 | turning to a seat's perspective keeps the board rectangular |
| BoardNorming.RotateKDims | BlokusPentobi/board_norming.py:26 | an even number of quarter turns keeps the dimensions, an odd one swaps them |
| BoardNorming.RelabelCell | BlokusPentobi/board_norming.py:35-46 | a renumbered cell is in -1..3, and is -1 exactly when it was empty |
| BoardNorming.Relabel | BlokusPentobi/board_norming.py:35-46 | renumbering keeps the shape and puts every cell in -1..3 |
| BoardNorming.Normalize | BlokusPentobi/board_norming.py:30-50 | the normalised board is rectangular with every cell in -1..3 |
| BoardNorming.CornersOfRot90 | BlokusPentobi/board_norming.py:26 | a quarter turn moves the corner list one place, so the top right corner comes to the top left |
| BoardNorming.CornersOfRotateK | BlokusPentobi/board_norming.py:26 | `k` quarter turns move the corner list `k` places |
| BoardNorming.RotateCorner | BlokusPentobi/board_norming.py:3-28 | the seat's corner ends at the top left; a seat in no corner leaves the board unturned |
| BoardNorming.RotateIdempotent | BlokusPentobi/board_norming.py:3-28 | turning to a seat's perspective twice is turning once |
| BoardNorming.Rot180 | BlokusPentobi/board_norming.py:26 | two quarter turns keep the dimensions and bring every cell from the opposite position |
| BoardNorming.RotateFour | BlokusPentobi/board_norming.py:26 | four quarter turns give back the board |
| BoardNorming.RotateKAdd | BlokusPentobi/board_norming.py:26 | `m` turns then `k` turns are `m + k` turns |
| BoardNorming.BlockColumn | BlokusPentobi/board_norming.py:26 | widening a top-left block by a column adds the top of that column |
| BoardNorming.BlockOfCols | BlokusPentobi/board_norming.py:26 | a full-height block holds the cells of its columns |
| BoardNorming.BlockNoColumns | BlokusPentobi/board_norming.py:26 | a block with no columns is empty |
| BoardNorming.BlockOfRows | BlokusPentobi/board_norming.py:26 | a full-width block holds the cells of its rows |
| BoardNorming.CellsByColumns | BlokusPentobi/board_norming.py:26 | counting cells by rows or by columns gives the same multiset |
| BoardNorming.Rot90Row | BlokusPentobi/board_norming.py:26 | row `i` of the turned board is column `w - 1 - i` of the board |
| BoardNorming.Rot90Rows | BlokusPentobi/board_norming.py:26 | the first `n` rows of the turned board are the last `n` columns of the board |
| BoardNorming.Rot90Cells | BlokusPentobi/board_norming.py:26 | a quarter turn keeps the multiset of cell values |
| BoardNorming.RotateKCells | BlokusPentobi/board_norming.py:26 | any number of quarter turns keeps the multiset of cell values |
| BoardNorming.RotatePreserves | BlokusPentobi/board_norming.py:3-28 | turning to a perspective keeps a square board's dimensions and the multiset of its cells |
| BoardNorming.RotateInRange | BlokusPentobi/board_norming.py:3-28 | turning keeps every cell in -1..3 |
| BoardNorming.RotateKInRange | BlokusPentobi/board_norming.py:26 | any number of quarter turns keeps every cell in -1..3 |
| BoardNorming.RelabelOrder | BlokusPentobi/board_norming.py:31-43 | seat `p` becomes 0 and the seat `d` places after it becomes `d` |
| BoardNorming.RelabelInjective | BlokusPentobi/board_norming.py:42-46 | distinct cell values stay distinct |
| BoardNorming.ModShift | BlokusPentobi/board_norming.py:43 | shifting by `4 - p` and then by `4 + p`, modulo 4, gives back a value in 0..3 |
| BoardNorming.RelabelInverse | BlokusPentobi/board_norming.py:42-46 | renumbering from `-p` undoes renumbering from `p` |
| BoardNorming.RelabelZero | BlokusPentobi/board_norming.py:42-46 | renumbering from 0 changes no cell |
| BoardNorming.RelabelRot90 | BlokusPentobi/board_norming.py:42-48 | renumbering and a quarter turn commute |
| BoardNorming.RelabelRotateK | BlokusPentobi/board_norming.py:42-48 | renumbering and any number of turns commute |
| BoardNorming.CornerIndexRelabel | BlokusPentobi/board_norming.py:46-48 | after renumbering, colour 0 is found in the corner where seat `p` was |
| BoardNorming.NormalizeIsRotateThenRelabel | BlokusPentobi/board_norming.py:30-50 | normalising is turning to `p`'s corner and then renumbering |
| BoardNorming.NormalizeCorner | BlokusPentobi/board_norming.py:30-50 | when `p` holds a corner, the normalised board has colour 0 at the top left |
| BoardNorming.NormalizeIdempotent | BlokusPentobi/board_norming.py:30-50 | normalising a normalised board to seat 0 changes nothing |
| PentobiGtp.Default | BlokusPentobi/PentobiGTP.py:24-35 | the default of every constructor argument |
| PentobiGtp.Merge | BlokusPentobi/PentobiGTP.py:37 | the merged arguments name every argument, and a given value wins over the default |
| PentobiGtp.ConfigOf | BlokusPentobi/PentobiGTP.py:51-81 | binding succeeds exactly for known keywords, the classic game, an integer level in 1..9 and printable values; an unknown keyword, then a game other than classic, then a level outside 1..9 is the error raised; success binds the level, book, config, seed, threads and switches |
| PentobiGtp.DefaultLevelCoincides | BlokusPentobi/PentobiGTP.py:24-38 | `{}` and `{"level": 1}` merge to the same pool key |
| PentobiGtp.MergeIdempotent | BlokusPentobi/PentobiGTP.py:37 | merging a merged configuration changes nothing |
| PentobiGtp.ConfigOfMerged | BlokusPentobi/PentobiGTP.py:37-41 | binding the merged arguments binds as the arguments themselves do |
| PentobiGtp.MergedLevel | BlokusPentobi/PentobiGTP.py:37-44 | a session launched from the merged key runs at the level asked for |
| PentobiGtp.CommandParts | BlokusPentobi/PentobiGTP.py:93-108 | the command starts with the binary and ends with the thread count, has one part per truthy option, and carries the game and level next to each other |
| PentobiGtp.Head | BlokusPentobi/PentobiGTP.py:93-97 | the binary, then one part per truthy book and configuration |
| PentobiGtp.Switches | BlokusPentobi/PentobiGTP.py:100-107 | one part per truthy seed and per switch that is set |
| PentobiGtp.SeedZeroOmitted | BlokusPentobi/PentobiGTP.py:100-101 | a zero seed is falsy and launches the engine as no seed does |
| PentobiGtp.BuildCommand | BlokusPentobi/PentobiGTP.py:92-109 | appending option by option builds exactly the command parts |
| PentobiGtp.AppendSwitches | BlokusPentobi/PentobiGTP.py:100-107 | the seed and switches are appended in order |
| PentobiGtp.AppendIf | BlokusPentobi/PentobiGTP.py:94-95 | an option is appended exactly when it is present |
| PentobiGtp.Frame | BlokusPentobi/PentobiGTP.py:233-238 | a response never runs past the end of the output |
| PentobiGtp.FrameFrom | BlokusPentobi/PentobiGTP.py:233-238 | the scan for the blank line ends within the output |
| PentobiGtp.FrameStop | BlokusPentobi/PentobiGTP.py:236-237 | reading stops at the first line that is blank once stripped, or at the end of the output |
| PentobiGtp.FrameFromStop | BlokusPentobi/PentobiGTP.py:236-237 | the scan from any line stops at the first blank line after it, or at the end |
| PentobiGtp.ReadInside | BlokusPentobi/PentobiGTP.py:235-238 | inside a response each line read is non-blank and is appended stripped |
| PentobiGtp.ReadEnd | BlokusPentobi/PentobiGTP.py:236-239 | at the end of the response the answer is the stripped lines joined by newlines, and the rest follows the blank line |
| PentobiGtp.Rest | BlokusPentobi/PentobiGTP.py:230-239 | reading a response consumes at least one line unless the output is exhausted |
| PentobiGtp.ResponseOfReply | BlokusPentobi/PentobiGTP.py:230-239 | stripped non-empty lines followed by a blank line read as those lines joined, and the following lines are left |
| PentobiGtp.FrameOfReply | BlokusPentobi/PentobiGTP.py:236-237 | such a reply ends at its blank line |
| PentobiGtp.FrameFromReply | BlokusPentobi/PentobiGTP.py:236-237 | the scan from inside such a reply ends at its blank line |
| PentobiGtp.EndOfOutput | BlokusPentobi/PentobiGTP.py:235-239 | with nothing left to read the answer is empty and nothing is consumed |
| PentobiGtp.LegalMoves | BlokusPentobi/PentobiGTP.py:300-307 | the move list is never empty and every move is stripped |
| PentobiGtp.LegalMovesOfList | BlokusPentobi/PentobiGTP.py:300-307 | the reply `= m1\nm2…` lists exactly the moves `m1, m2, …` |
| PentobiGtp.LegalMovesOfLines | BlokusPentobi/PentobiGTP.py:301-302 | with no empty line the moves are the stripped lines |
| PentobiGtp.StripEachReply | BlokusPentobi/PentobiGTP.py:302 | the blank left by the status mark is stripped away |
| PentobiGtp.RemoveStatus | BlokusPentobi/PentobiGTP.py:301 | removing `=` from a reply removes only the status mark |
| PentobiGtp.SplitReply | BlokusPentobi/PentobiGTP.py:301 | the reply splits into its move lines |
| PentobiGtp.NoLegalMoves | BlokusPentobi/PentobiGTP.py:304-306 | an empty list of moves becomes `["pass"]` |
| PentobiGtp.GeneratedMove | BlokusPentobi/PentobiGTP.py:261-262 | an answer containing `?` is read as "pass" |
| PentobiGtp.GeneratedMoveOf | BlokusPentobi/PentobiGTP.py:263-264 | the answer `= m` gives the move `m` |
| PentobiGtp.GeneratedNoMove | BlokusPentobi/PentobiGTP.py:263-264 | the bare answer `=` is returned as `=` |
| PentobiGtp.Collect | BlokusPentobi/PentobiGTP.py:166 | all values in order when every `int(x)` succeeds, otherwise the first failure |
| PentobiGtp.ScoreOf | BlokusPentobi/PentobiGTP.py:165-166 | one score per word after the status mark |
| PentobiGtp.ScoreOfReply | BlokusPentobi/PentobiGTP.py:163-170 | the reply `= s1 s2 …` reads as the scores `s1, s2, …` |
| PentobiGtp.NextSeat | BlokusPentobi/PentobiGTP.py:249-250 | the next seat is in 1..4, and it is the seat after `pid`, wrapping from 4 to 1 |
| PentobiGtp.NextSeatCycle | BlokusPentobi/PentobiGTP.py:249-250 | four changes of player come back to the same seat |
| PentobiGtp.LegalReply | BlokusPentobi/PentobiGTP.py:226-227 | the request fails exactly when the answer holds `?`, and a success lists at least one move |
| PentobiGtp.SeatAnswers | BlokusPentobi/PentobiGTP.py:312-313 | the end-of-game test asks one question for each of the four seats |
| PentobiGtp.AskedSeats | BlokusPentobi/PentobiGTP.py:312-313 | one request is sent per seat asked |
| PentobiGtp.SeatAnswerAt | BlokusPentobi/PentobiGTP.py:312-313 | seat `k + 1` is answered by the `k`-th response |
| PentobiGtp.AskedSeatsNext | BlokusPentobi/PentobiGTP.py:312-313 | asking one more seat logs its request |
| PentobiGtp.ProbeFacts | BlokusPentobi/PentobiGTP.py:309-319 | the game is finished exactly when every seat asked can only pass; the first seat with a move ends the test with "not finished", a failing request ends it with that error, and the seats before the last one asked could only pass |
| PentobiGtp.FinishedIff | BlokusPentobi/PentobiGTP.py:309-319 | the game is finished exactly when every seat's answer is only "pass" |
| PentobiGtp.ProbeAllPass | BlokusPentobi/PentobiGTP.py:309-319 | the test is true exactly when every answer is `["pass"]` |
| PentobiGtp.AnswerPasses | BlokusPentobi/PentobiGTP.py:313-315 | a seat's answer is `["pass"]` exactly when its reply can only pass |
| PentobiGtp.FinishedStopsEarly | BlokusPentobi/PentobiGTP.py:315-316 | the test stops at the first seat that has a move |
| PentobiGtp.ProbeStep | BlokusPentobi/PentobiGTP.py:313-318 | one seat: a failure stops, a move stops with "not finished", a pass goes on |
| PentobiGtp.ProbePassesThrough | BlokusPentobi/PentobiGTP.py:312-318 | seats that can only pass are skipped over |
| PentobiGtp.Session.constructor | BlokusPentobi/PentobiGTP.py:91-123 | a new session is at seat 1 with no history and nothing sent |
| PentobiGtp.Session.ReadLine | BlokusPentobi/PentobiGTP.py:235 | `readline().strip()` consumes one line and strips it; at the end of the output it gives "" |
| PentobiGtp.Session.ReadResponse | BlokusPentobi/PentobiGTP.py:230-239 | reads exactly the next response and consumes its lines and the blank line |
| PentobiGtp.Session.SendCommand | BlokusPentobi/PentobiGTP.py:206-228 | writes the command, reads one response, and fails exactly when raising is on and the answer holds `?` |
| PentobiGtp.Session.PlayMove | BlokusPentobi/PentobiGTP.py:276-287 | a seat out of turn is refused with nothing sent; "pass" sends nothing; another move sends `play`; on success the seat is pushed on the history and the turn passes to the next seat; a refused play changes no turn state |
| PentobiGtp.Session.UndoLastMove | BlokusPentobi/PentobiGTP.py:266-274 | with no history nothing happens; otherwise `undo` is sent and on success the last seat is popped and has the turn again |
| PentobiGtp.Session.GenerateInternalMove | BlokusPentobi/PentobiGTP.py:252-264 | a seat out of turn is refused; otherwise `reg_genmove` is sent and the answer read as a move, errors read as "pass" |
| PentobiGtp.Session.GetLegalMoves | BlokusPentobi/PentobiGTP.py:297-307 | sends `all_legal pid` and returns the parsed moves, failing on `?` |
| PentobiGtp.Session.IsGameFinished | BlokusPentobi/PentobiGTP.py:309-319 | asks the seats in order until one has a move and returns the test's result, consuming one response per seat asked |
| PentobiGtp.Session.BoardText | BlokusPentobi/PentobiGTP.py:147-151 | sends `showboard` and returns the answer, failing on `?` |
| PentobiGtp.Session.Board | BlokusPentobi/PentobiGTP.py:153-157 | the parsed `showboard` answer |
| PentobiGtp.Session.Score | BlokusPentobi/PentobiGTP.py:159-170 | sends `final_score` and reads the scores after the status mark |
| PentobiGtp.Session.SetToState | BlokusPentobi/PentobiGTP.py:190-202 | the other session shows its board and saves the game, this session loads it and takes the other's seat to move; neither history changes |
| PentobiGtp.Launch | BlokusPentobi/PentobiGTP.py:51-130 | invalid arguments launch nothing; otherwise the session runs the built command at the given level, asks for the board once and fails exactly when that answer holds `?` |
| PentobiGtp.SessionPool.constructor | BlokusPentobi/PentobiGTP.py:11 | the pool starts empty |
| PentobiGtp.SessionPool.Get | BlokusPentobi/PentobiGTP.py:13-44 | a known key returns its session; a new one is launched and stored only on success; no entry is removed or replaced, and every session runs at its key's level |
| PentobiGtp.SessionPool.Open | BlokusPentobi/PentobiGTP.py:41 | a launched session is fresh and runs at the requested level |
| PentobiGtp.SessionPool.Store | BlokusPentobi/PentobiGTP.py:43 | storing a session under its own level's key keeps the pool consistent |
| PentobiPlayers.ValidateSelection | BlokusPentobi/PentobiPlayers.py:39-48 | only the three strategy names pass; only `epsilon_greedy` may take arguments; it gets epsilon 0.1 when none is given, and the arguments given are kept |
| PentobiPlayers.ValidateIdempotent | BlokusPentobi/PentobiPlayers.py:39-48 | validating the validated arguments again changes nothing |
| PentobiPlayers.KwargsAfter | BlokusPentobi/PentobiPlayers.py:40-48 | the argument dictionary after construction is the validated one |
| PentobiPlayers.SharedDefaultLeaks | BlokusPentobi/PentobiPlayers.py:16-48 | as written, an `epsilon_greedy` player built with the default `{}` leaves epsilon in it, and a later `best` or `random` player with the default is refused |
| PentobiPlayers.FreshDefaultAccepted | BlokusPentobi/PentobiPlayers.py:16-48 | with a fresh `{}` each time, every strategy accepts the default and each epsilon-greedy player gets its own epsilon |
| PentobiPlayers.ArgMax | BlokusPentobi/PentobiPlayers.py:171 | `np.argmax` fails on an empty list and otherwise returns the first index of a maximum |
| PentobiPlayers.FirstMax | BlokusPentobi/PentobiPlayers.py:171 | the first index of the maximum of a non-empty prefix |
| PentobiPlayers.Candidates | BlokusPentobi/PentobiPlayers.py:156-158 | the moves probed are never more than the moves given |
| PentobiPlayers.CandidatesSpec | BlokusPentobi/PentobiPlayers.py:156-158 | the probed moves are exactly the given moves other than "pass" |
| PentobiPlayers.CandidatesSnoc | BlokusPentobi/PentobiPlayers.py:156-161 | one more move adds it to the probed moves unless it is "pass" |
| PentobiPlayers.CandidatesWithoutPass | BlokusPentobi/PentobiPlayers.py:156-158 | without "pass" every move is probed |
| PentobiPlayers.CandidatesOfPass | BlokusPentobi/PentobiPlayers.py:157-158 | `["pass"]` probes nothing |
| PentobiPlayers.SelectAsWritten | BlokusPentobi/PentobiPlayers.py:169-172 | as written: fails exactly when no board was probed, and otherwise picks from the legal moves |
| PentobiPlayers.SelectAsWrittenFailsOnPass | BlokusPentobi/PentobiPlayers.py:169-172 | a seat whose only legal move is "pass" makes the as-written choice raise |
| PentobiPlayers.SelectBest | BlokusPentobi/PentobiPlayers.py:169-172 | corrected: "pass" when nothing was probed, otherwise the first probed move of highest value |
| PentobiPlayers.SelectBestAgrees | BlokusPentobi/PentobiPlayers.py:169-172 | whenever the as-written choice is defined it agrees with the corrected one |
| PentobiPlayers.Scores | BlokusPentobi/PentobiPlayers.py:143-149 | the base evaluation raises as soon as there is a board; the greedy one scores each board |
| PentobiPlayers.GreedySeatTwo | BlokusPentobi/PentobiPlayers.py:206-208 | seat 2 compares its colour with itself, so every board scores 0 |
| PentobiPlayers.CountOutside | BlokusPentobi/PentobiPlayers.py:206-207 | a board over -1..3 holds no cell of another value |
| PentobiPlayers.GreedySeatFour | BlokusPentobi/PentobiPlayers.py:206-208 | seat 4 counts no cell of its own, since cells go up to 3, and its score is minus the cells of colour 0 |
| PentobiPlayers.GreedyRotation | BlokusPentobi/PentobiPlayers.py:203-208 | turning the board does not change the greedy score |
| PentobiPlayers.ProbeCommands | BlokusPentobi/PentobiPlayers.py:159-162 | probing sends three commands per probed move |
| PentobiPlayers.ProbeCommandsAt | BlokusPentobi/PentobiPlayers.py:159-162 | the commands for probed move `k` are `play`, `showboard`, `undo` |
| PentobiPlayers.ProbeCommandsNext | BlokusPentobi/PentobiPlayers.py:159-162 | probing one more move logs its three commands |
| PentobiPlayers.IterateNext | BlokusPentobi/PentobiPlayers.py:156-162 | one more probing round reads the next three responses |
| PentobiPlayers.ReadEachAt | BlokusPentobi/PentobiPlayers.py:160-161 | the `k`-th board read is the one in the `k`-th round of responses |
| PentobiPlayers.ReadEachSnoc | BlokusPentobi/PentobiPlayers.py:160-161 | a board read in the next round extends the boards read |
| PentobiPlayers.BoardsReadAt | BlokusPentobi/PentobiPlayers.py:160-161 | the `k`-th next state is the `showboard` answer of the `k`-th probe |
| PentobiPlayers.ProbedAll | BlokusPentobi/PentobiPlayers.py:156-163 | after the last move every candidate was probed once, in order |
| PentobiPlayers.ProbedSnoc | BlokusPentobi/PentobiPlayers.py:159-162 | probing one more move adds its board and its three commands |
| PentobiPlayers.Renamed | BlokusPentobi/PentobiPlayers.py:104-105 | the bare answer `=` is played as "pass" and any other move as itself |
| PentobiPlayers.LevelConfig | BlokusPentobi/PentobiPlayers.py:67 | the pool key `{"level": level}` is valid exactly for levels 1..9 and launches at that level |
| PentobiPlayers.InternalPlayer.constructor | BlokusPentobi/PentobiPlayers.py:29-33 | the fields set before the move session is looked up |
| PentobiPlayers.InternalPlayer.GetMoveSession | BlokusPentobi/PentobiPlayers.py:62-68 | the shared session unless it plays at another level; then the pool's session at the player's level |
| PentobiPlayers.InternalPlayer.SetSession | BlokusPentobi/PentobiPlayers.py:50-53 | the new session is kept, and a move session at the right level is found or the error is reported |
| PentobiPlayers.InternalPlayer.SetMoveSessionState | BlokusPentobi/PentobiPlayers.py:70-76 | nothing happens without a separate session; otherwise the move session loads the shared game and takes over its seat to move |
| PentobiPlayers.InternalPlayer.MakeMoveWithMoveSession | BlokusPentobi/PentobiPlayers.py:78-87 | the move is generated on the move session after copying the game, and the shared session's turn state is unchanged |
| PentobiPlayers.InternalPlayer.SelectMove | BlokusPentobi/PentobiPlayers.py:92-102 | an exploring draw picks a legal move; otherwise the engine's move is taken |
| PentobiPlayers.InternalPlayer.PlayMove | BlokusPentobi/PentobiPlayers.py:89-107 | the chosen move, with `=` read as "pass", is played for the player's seat |
| PentobiPlayers.NewInternalPlayer | BlokusPentobi/PentobiPlayers.py:11-48 | the move session is looked up first, then the strategy is validated; the player holds the validated strategy and arguments |
| PentobiPlayers.ExternalPlayer.constructor | BlokusPentobi/PentobiPlayers.py:129-133 | the player's fields |
| PentobiPlayers.ExternalPlayer.ProbeMove | BlokusPentobi/PentobiPlayers.py:159-162 | play, read the board, undo: the turn state comes back and the board read is the `showboard` answer |
| PentobiPlayers.ExternalPlayer.ProbeStep | BlokusPentobi/PentobiPlayers.py:156-162 | one loop iteration skips "pass" or probes the move, keeping the record of boards read and commands sent |
| PentobiPlayers.ExternalPlayer.CalcNextStates | BlokusPentobi/PentobiPlayers.py:152-163 | one board per move other than "pass", in order, each read after playing that move; the turn state is restored and the commands sent are play/showboard/undo per move |
| PentobiPlayers.ExternalPlayer.MakeMoveWithExternalPlayer | BlokusPentobi/PentobiPlayers.py:166-172 | the move chosen is the first probed move of highest score, or "pass" when none was probed |
| PentobiPlayers.ExternalPlayer.SelectMove | BlokusPentobi/PentobiPlayers.py:184-193 | an exploring draw picks a legal move; otherwise the best-scoring probed move |
| PentobiPlayers.ExternalPlayer.PlayMove | BlokusPentobi/PentobiPlayers.py:175-197 | the chosen move, with `=` read as "pass", is played for the player's seat |
| PentobiPlayers.NewExternalPlayer | BlokusPentobi/PentobiPlayers.py:112-141 | construction succeeds exactly when the strategy validates, and the player holds the validated strategy and arguments |

## Left out

- The engine process is not modelled. Process start-up, pipes, `poll` and
  `close` are left out; the engine's output is the `pending` parameter of a
  session. Finding the binary (`PENTOBI_GTP`, searching the directory
  tree) is also left out; the binary is a parameter of the launch.
- Locks (`multiprocessing.Lock`, `EmptyLock`, `lock_process`) only matter
  with several processes, and concurrency is not modelled.
- `random.choice` is a nondeterministic pick among the legal moves.
  `np.random.rand() < epsilon` is the boolean parameter `explore`; the
  value of epsilon is never compared.
- Printed messages and `warnings.warn` are left out.
- `load_sgf` and `save_sgf` check the file system: whether the file exists
  and that it ends in `.blksgf`. Those checks are left out; the game file
  is a name passed in.
- The temporary file name in `set_to_state` is a parameter. Its hash and
  random number are left out, and so is `os.remove`.
- The pool key is the merged argument map. Python's `hash` of a frozenset,
  and its equality of `True` with `1`, are not modelled.
- `move_selection_kwargs` is the caller's dictionary, and Python mutates it
  in place. The model returns the validated arguments as a new map. The
  aliasing this causes is stated by `SharedDefaultLeaks`.
- The `__main__` block of PentobiGTP.py and simulate.py are not part of
  this model.
- Text.Strip: whitespace is the set Python's `str.isspace` uses for ASCII
  and the common Unicode spaces. Other Unicode whitespace is not covered.
- Float-valued options: a float `book`, `config`, `seed` or `threads` is
  refused as ill-typed, because Python's spelling of floats is not
  modelled.
- PentobiGtp.ConfigOf: the level must be an `int`. Python's range test
  also lets a float level such as `2.5`, or the bool `True`, through, and
  then builds `--level 2.5` or `--level True`. The model refuses those
  levels as ill-typed, because `Config.level` is an integer.
- BoardText.ParseBoard: older numpy builds an object array from rows of
  unequal length instead of raising. The model follows numpy 1.24 and
  later, which raise.
- PentobiPlayers.ExternalPlayer.CalcNextStates: when a probe fails after
  its move was played, the move stays played. The failure contract states
  only that the turn state is either unchanged or advanced by that one
  move.
- PentobiPlayers.ExternalPlayer.MakeMoveWithExternalPlayer: the choice is
  the corrected `SelectBest`, so a seat whose only legal move is "pass"
  gets "pass". The source calls `np.argmax([])` there and raises
  ValueError (the first row under Findings). Where the source's choice is
  defined the two agree (`SelectBestAgrees`).
- PentobiPlayers.ExternalPlayer.SelectMove: a non-exploring draw inherits
  the corrected choice, so it succeeds with "pass" on `["pass"]` where the
  source raises.
- PentobiPlayers.ExternalPlayer.PlayMove: a `best` or non-exploring
  `epsilon_greedy` player with no legal move plays "pass" where the
  source raises ValueError before playing anything.
- PentobiGtp.SessionPool.Get: that a pool key is the merge of its own
  arguments is not stated as an invariant. The contract covers the level
  each stored session runs at.

## Findings

| source | as written | input that shows it | evidently intended | confidence | as-written member | corrected member |
|---|---|---|---|---|---|---|
| BlokusPentobi/PentobiPlayers.py:169-172 | `np.argmax(values)` over the scores of the probed boards, then `moves[best_move_idx]` | a `best` external player whose only legal move is "pass": no board is probed, and `np.argmax([])` raises | play "pass" when nothing was probed, and index the probed moves rather than all moves | not executed | PentobiPlayers.SelectAsWrittenFailsOnPass | PentobiPlayers.SelectBest |
| BlokusPentobi/PentobiPlayers.py:16-48 | the default `move_selection_kwargs={}` is one shared dictionary, and epsilon is written into it | an `epsilon_greedy` player built with the default, then a `best` player built with the default: the second assertion fails | a fresh empty dictionary for every construction | not executed | PentobiPlayers.SharedDefaultLeaks | PentobiPlayers.FreshDefaultAccepted |
