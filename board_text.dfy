/** The engine's `showboard` text dump and its parser
    (`parse_gtp_board_to_matrix` in BlokusPentobi/utils.py).

    The dump is a header line, one line per board row, and a footer line
    of column letters. A row line is a row number, the cells as glyphs
    separated by blanks, and possibly trailing annotations (the colour's
    score, the pieces left). The engine marks the last placed piece with
    `<` or `>` in place of a blank. */
module BoardText {
  import opened Common
  import opened Text

  function Min(a: int, b: int): int {
    if a <= b then a else b
  }

  // ---------------------------------------------------------------------
  // the parsing pipeline

  predicate IsMarker(c: char) {
    c == '<' || c == '>'
  }

  /** `board.replace(">", " ").replace("<", " ")`. */
  function ReplaceMarkers(s: string): (r: string)
    ensures |r| == |s|
    ensures forall i :: 0 <= i < |r| ==> !IsMarker(r[i])
    ensures forall i :: 0 <= i < |s| && !IsMarker(s[i]) ==> r[i] == s[i]
  {
    seq(|s|, i requires 0 <= i < |s| => if IsMarker(s[i]) then ' ' else s[i])
  }

  /** The lines between the first and the last line of the text
      (`board.split("\n")[1:-1]`, after the markers are blanked). */
  function BodyLines(text: string): (body: seq<string>)
    ensures var all := Split(ReplaceMarkers(text), '\n');
            |body| == (if |all| < 2 then 0 else |all| - 2) &&
            forall i :: 0 <= i < |body| ==> body[i] == all[i + 1]
  {
    var all := Split(ReplaceMarkers(text), '\n');
    if |all| < 2 then [] else all[1..|all| - 1]
  }

  /** The cells kept from one body line: tokens 1..20 (`tokens[1:21]`), so
      the row label is dropped and annotations past the twentieth cell are
      ignored. */
  function RowCells(line: string): (cells: seq<string>)
    ensures var t := Tokens(line);
            |cells| == (if |t| == 0 then 0 else Min(20, |t| - 1)) &&
            forall k :: 0 <= k < |cells| ==> cells[k] == t[k + 1]
  {
    var t := Tokens(line);
    if |t| == 0 then [] else t[1..Min(21, |t|)]
  }

  /** The glyphs of the conversion table. */
  predicate IsGlyph(g: string) {
    g == "." || g == "+" || g == "X" || g == "O" || g == "#" || g == "@"
  }

  /** The conversion table: `.` and `+` are empty, `X O # @` are colours 0..3. */
  function GlyphValue(g: string): (v: int)
    requires IsGlyph(g)
    ensures -1 <= v <= 3
    ensures v == -1 <==> (g == "." || g == "+")
  {
    if g == "." || g == "+" then -1
    else if g == "X" then 0
    else if g == "O" then 1
    else if g == "#" then 2
    else 3
  }

  predicate AllGlyphs(cells: seq<string>) {
    forall k :: 0 <= k < |cells| ==> IsGlyph(cells[k])
  }

  /** One row through the table; the first glyph not in it raises `KeyError`. */
  function ParseRow(cells: seq<string>): (r: Result<seq<int>>)
    ensures r.Success? <==> AllGlyphs(cells)
    ensures r.Success? ==> (|r.value| == |cells| &&
              forall k :: 0 <= k < |cells| ==> r.value[k] == GlyphValue(cells[k]))
    ensures r.Failure? ==>
              (exists k :: 0 <= k < |cells| && !IsGlyph(cells[k]) && r.error == UnknownGlyph(cells[k]))
  {
    if cells == [] then Success([])
    else if !IsGlyph(cells[0]) then Failure(UnknownGlyph(cells[0]))
    else
      var rest := ParseRow(cells[1..]);
      if rest.Failure? then rest
      else Success([GlyphValue(cells[0])] + rest.value)
  }

  /** Every row in order; the first failing row decides the error. */
  function ParseRows(rows: seq<seq<string>>): (r: Result<Grid>)
    ensures r.Success? <==> forall i :: 0 <= i < |rows| ==> ParseRow(rows[i]).Success?
    ensures r.Success? ==> (|r.value| == |rows| &&
              forall i :: 0 <= i < |rows| ==> r.value[i] == ParseRow(rows[i]).value)
    ensures r.Failure? ==> exists i :: 0 <= i < |rows| && ParseRow(rows[i]) == Failure(r.error)
  {
    if rows == [] then Success([])
    else
      var first := ParseRow(rows[0]);
      if first.Failure? then Failure(first.error)
      else
        var rest := ParseRows(rows[1..]);
        if rest.Failure? then rest
        else Success([first.value] + rest.value)
  }

  /** Every body line keeps as many cells as the first one, so that
      `np.array` can build a matrix from the converted rows. */
  predicate EvenRows(body: seq<string>) {
    forall i :: 0 <= i < |body| ==> |RowCells(body[i])| == |RowCells(body[0])|
  }

  /** `parse_gtp_board_to_matrix`: one output row per body line, in order,
      holding the values of that line's kept cells. An unknown glyph raises
      in the conversion loop; rows that convert but differ in length are
      refused by `np.array`. */
  function ParseBoard(text: string): (r: Result<Grid>)
    ensures r.Success? <==>
              (forall i :: 0 <= i < |BodyLines(text)| ==> AllGlyphs(RowCells(BodyLines(text)[i]))) &&
              EvenRows(BodyLines(text))
    ensures r.Success? ==> CellsInRange(r.value) && |r.value| == |BodyLines(text)|
    ensures r.Success? ==> forall i :: 0 <= i < |r.value| ==> |r.value[i]| == |r.value[0]|
    ensures r.Success? ==> forall i :: 0 <= i < |r.value| ==>
              |r.value[i]| == |RowCells(BodyLines(text)[i])| &&
              forall k :: 0 <= k < |r.value[i]| ==>
                r.value[i][k] == GlyphValue(RowCells(BodyLines(text)[i])[k])
    ensures !(forall i :: 0 <= i < |BodyLines(text)| ==> AllGlyphs(RowCells(BodyLines(text)[i]))) ==>
              exists g :: r == Failure(UnknownGlyph(g)) && !IsGlyph(g)
    ensures ((forall i :: 0 <= i < |BodyLines(text)| ==> AllGlyphs(RowCells(BodyLines(text)[i]))) &&
             !EvenRows(BodyLines(text))) ==> r == Failure(RaggedBoard)
  {
    var body := BodyLines(text);
    var rows := seq(|body|, i requires 0 <= i < |body| => RowCells(body[i]));
    assert forall i :: 0 <= i < |body| ==> rows[i] == RowCells(body[i]);
    var parsed := ParseRows(rows);
    if parsed.Failure? then parsed
    else if !EvenRows(body) then Failure(RaggedBoard)
    else parsed
  }

  // ---------------------------------------------------------------------
  // facts about the pipeline

  lemma ReplaceMarkersConcat(a: string, b: string)
    ensures ReplaceMarkers(a + b) == ReplaceMarkers(a) + ReplaceMarkers(b)
  {
  }

  lemma ReplaceMarkersPlain(s: string)
    requires forall i :: 0 <= i < |s| ==> !IsMarker(s[i])
    ensures ReplaceMarkers(s) == s
  {
  }

  /** A marker glued between two glyphs (`X>O`) separates them like a blank. */
  lemma MarkerSeparatesTokens(a: string, b: string, m: char)
    requires IsMarker(m)
    ensures Tokens(ReplaceMarkers(a + [m] + b)) ==
            Tokens(ReplaceMarkers(a)) + Tokens(ReplaceMarkers(b))
  {
    ReplaceMarkersConcat(a + [m], b);
    ReplaceMarkersConcat(a, [m]);
    assert ReplaceMarkers([m]) == " ";
    TokensConcat(ReplaceMarkers(a), ReplaceMarkers(b));
  }

  /** Whatever follows the twentieth cell of a row (a score, the pieces
      left) does not change the cells kept. */
  lemma AnnotationsIgnored(line: string, note: string)
    requires |Tokens(line)| >= 21
    ensures RowCells(line + " " + note) == RowCells(line)
  {
    TokensConcat(line, note);
    var t := Tokens(line);
    assert (t + Tokens(note))[1..21] == t[1..21];
  }

  // ---------------------------------------------------------------------
  // rendering in the engine's layout, and the round trip

  /** The glyph the engine prints for a cell value (empty as `.`). */
  function GlyphOf(v: int): (g: string)
    requires -1 <= v <= 3
    ensures IsGlyph(g) && GlyphValue(g) == v
    ensures g != "" && ' ' !in g && '\n' !in g
    ensures forall i :: 0 <= i < |g| ==> !IsMarker(g[i])
  {
    if v == -1 then "." else if v == 0 then "X" else if v == 1 then "O" else if v == 2 then "#" else "@"
  }

  function Glyphs(row: seq<int>): (gs: seq<string>)
    requires forall k :: 0 <= k < |row| ==> -1 <= row[k] <= 3
    ensures |gs| == |row|
    ensures forall k :: 0 <= k < |row| ==> gs[k] == GlyphOf(row[k])
  {
    seq(|row|, k requires 0 <= k < |row| => GlyphOf(row[k]))
  }

  /** A row label: one token without line breaks or markers. */
  predicate IsLabel(s: string) {
    s != "" && ' ' !in s && '\n' !in s && forall i :: 0 <= i < |s| ==> !IsMarker(s[i])
  }

  /** A body line: rowLabel, the glyphs separated by blanks, then annotations. */
  function RenderRow(rowLabel: string, row: seq<int>, note: string): string
    requires forall k :: 0 <= k < |row| ==> -1 <= row[k] <= 3
  {
    rowLabel + " " + Join(Glyphs(row), ' ') + " " + note
  }

  /** The whole dump: header, one line per row, footer. */
  function Render(header: string, rowLabels: seq<string>, g: Grid, notes: seq<string>, footer: string): string
    requires |rowLabels| == |g| == |notes|
    requires CellsInRange(g)
  {
    Join([header] + seq(|g|, i requires 0 <= i < |g| => RenderRow(rowLabels[i], g[i], notes[i])) + [footer], '\n')
  }

  lemma {:induction false} JoinGlyphsPlain(gs: seq<string>)
    requires forall k :: 0 <= k < |gs| ==> '\n' !in gs[k] && forall i :: 0 <= i < |gs[k]| ==> !IsMarker(gs[k][i])
    ensures '\n' !in Join(gs, ' ')
    ensures forall i :: 0 <= i < |Join(gs, ' ')| ==> !IsMarker(Join(gs, ' ')[i])
  {
    if |gs| > 1 {
      JoinGlyphsPlain(gs[1..]);
      var rest := Join(gs[1..], ' ');
      assert Join(gs, ' ') == gs[0] + [' '] + rest;
      forall i | 0 <= i < |Join(gs, ' ')| ensures !IsMarker(Join(gs, ' ')[i]) {
        if i > |gs[0]| {
          assert Join(gs, ' ')[i] == rest[i - |gs[0]| - 1];
        }
      }
    }
  }

  /** Blanking markers line by line is blanking them in the whole text. */
  lemma {:induction false} ReplaceMarkersJoin(lines: seq<string>)
    ensures ReplaceMarkers(Join(lines, '\n')) ==
            Join(seq(|lines|, i requires 0 <= i < |lines| => ReplaceMarkers(lines[i])), '\n')
  {
    var mapped := seq(|lines|, i requires 0 <= i < |lines| => ReplaceMarkers(lines[i]));
    if |lines| > 1 {
      ReplaceMarkersJoin(lines[1..]);
      assert mapped[1..] == seq(|lines| - 1, i requires 0 <= i < |lines| - 1 => ReplaceMarkers(lines[1..][i]));
      ReplaceMarkersConcat(lines[0] + "\n", Join(lines[1..], '\n'));
      ReplaceMarkersConcat(lines[0], "\n");
    }
  }

  /** A rendered row keeps its rowLabel and glyphs when markers are blanked;
      only the annotations can change. */
  lemma RenderRowMarkers(rowLabel: string, row: seq<int>, note: string)
    requires IsLabel(rowLabel)
    requires forall k :: 0 <= k < |row| ==> -1 <= row[k] <= 3
    ensures ReplaceMarkers(RenderRow(rowLabel, row, note)) == RenderRow(rowLabel, row, ReplaceMarkers(note))
  {
    var body := Join(Glyphs(row), ' ');
    JoinGlyphsPlain(Glyphs(row));
    ReplaceMarkersConcat(rowLabel + " " + body + " ", note);
    ReplaceMarkersPlain(rowLabel + " " + body + " ");
  }

  /** The cells kept from a rendered row of twenty cells are its glyphs. */
  lemma RowCellsOfRender(rowLabel: string, row: seq<int>, note: string)
    requires IsLabel(rowLabel)
    requires |row| == 20 && forall k :: 0 <= k < |row| ==> -1 <= row[k] <= 3
    ensures RowCells(RenderRow(rowLabel, row, note)) == Glyphs(row)
  {
    var gs := Glyphs(row);
    var body := Join(gs, ' ');
    TokensConcat(rowLabel + " " + body, note);
    TokensConcat(rowLabel, body);
    TokensOfWords([rowLabel]);
    TokensOfWords(gs);
    var t := [rowLabel] + gs + Tokens(note);
    assert Tokens(RenderRow(rowLabel, row, note)) == t;
    assert t[1..21] == gs;
  }

  /** The body lines of a rendered dump are its rendered rows, with the
      markers of the annotations blanked. */
  lemma BodyOfRender(header: string, rowLabels: seq<string>, g: Grid, notes: seq<string>, footer: string)
    requires |rowLabels| == |g| == |notes|
    requires CellsInRange(g)
    requires forall i :: 0 <= i < |g| ==> IsLabel(rowLabels[i]) && '\n' !in notes[i]
    requires '\n' !in header && '\n' !in footer
    ensures var body := BodyLines(Render(header, rowLabels, g, notes, footer));
            |body| == |g| &&
            forall i :: 0 <= i < |g| ==> body[i] == RenderRow(rowLabels[i], g[i], ReplaceMarkers(notes[i]))
  {
    var rows := seq(|g|, i requires 0 <= i < |g| => RenderRow(rowLabels[i], g[i], notes[i]));
    var lines := [header] + rows + [footer];
    forall i | 0 <= i < |lines|
      ensures '\n' !in ReplaceMarkers(lines[i])
    {
      if 0 < i < |lines| - 1 {
        assert lines[i] == rows[i - 1];
        RenderRowBlanked(rowLabels[i - 1], g[i - 1], notes[i - 1]);
      }
    }
    SplitOfBlanked(lines);
    var text := Render(header, rowLabels, g, notes, footer);
    assert text == Join(lines, '\n');
    var all := Split(ReplaceMarkers(text), '\n');
    assert |all| == |g| + 2;
    var body := BodyLines(text);
    forall i | 0 <= i < |g|
      ensures body[i] == RenderRow(rowLabels[i], g[i], ReplaceMarkers(notes[i]))
    {
      assert body[i] == all[i + 1] == ReplaceMarkers(lines[i + 1]);
      assert lines[i + 1] == rows[i];
      RenderRowBlanked(rowLabels[i], g[i], notes[i]);
    }
  }

  /** A rendered row with its markers blanked is the row rendered with a
      blanked annotation, and it stays on one line. */
  lemma RenderRowBlanked(rowLabel: string, row: seq<int>, note: string)
    requires IsLabel(rowLabel) && '\n' !in note
    requires forall k :: 0 <= k < |row| ==> -1 <= row[k] <= 3
    ensures ReplaceMarkers(RenderRow(rowLabel, row, note)) == RenderRow(rowLabel, row, ReplaceMarkers(note))
    ensures '\n' !in ReplaceMarkers(RenderRow(rowLabel, row, note))
  {
    RenderRowMarkers(rowLabel, row, note);
    JoinGlyphsPlain(Glyphs(row));
  }

  /** Lines that stay single lines once blanked are split back apart. */
  lemma SplitOfBlanked(lines: seq<string>)
    requires |lines| >= 1
    requires forall i :: 0 <= i < |lines| ==> '\n' !in ReplaceMarkers(lines[i])
    ensures Split(ReplaceMarkers(Join(lines, '\n')), '\n') ==
            seq(|lines|, i requires 0 <= i < |lines| => ReplaceMarkers(lines[i]))
  {
    ReplaceMarkersJoin(lines);
    SplitOfJoin(seq(|lines|, i requires 0 <= i < |lines| => ReplaceMarkers(lines[i])), '\n');
  }

  /** Round trip: a board of twenty-column rows over {-1..3}, rendered in
      the engine's layout with any header, footer, row labels and
      annotations (markers included), parses back to the same board. */
  lemma ParseOfRender(header: string, rowLabels: seq<string>, g: Grid, notes: seq<string>, footer: string)
    requires |rowLabels| == |g| == |notes|
    requires CellsInRange(g)
    requires forall i :: 0 <= i < |g| ==> |g[i]| == 20 && IsLabel(rowLabels[i]) && '\n' !in notes[i]
    requires '\n' !in header && '\n' !in footer
    ensures ParseBoard(Render(header, rowLabels, g, notes, footer)) == Success(g)
  {
    var text := Render(header, rowLabels, g, notes, footer);
    BodyOfRender(header, rowLabels, g, notes, footer);
    var body := BodyLines(text);
    forall i | 0 <= i < |g|
      ensures RowCells(body[i]) == Glyphs(g[i])
    {
      RowCellsOfRender(rowLabels[i], g[i], ReplaceMarkers(notes[i]));
    }
    var r := ParseBoard(text);
    assert r.Success?;
    forall i | 0 <= i < |g|
      ensures r.value[i] == g[i]
    {
      assert |r.value[i]| == |g[i]|;
      forall k | 0 <= k < |g[i]|
        ensures r.value[i][k] == g[i][k]
      {
        assert RowCells(body[i])[k] == GlyphOf(g[i][k]);
      }
    }
    assert |r.value| == |g|;
    assert r.value == g;
  }
}
