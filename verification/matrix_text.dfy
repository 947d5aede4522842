/** Matrices as Kaldi's text writer prints them, and what
    `_read_matrix_trans` in converter/component.py makes of such text: where
    each row ends, and that the rows come back transposed. */
module MatrixText {
  import opened Results
  import opened Text
  import opened Tokenizer
  import opened Readers

  // ---------------------------------------------------------------------------
  // Row text
  // ---------------------------------------------------------------------------

  predicate Blank(s: string) {
    forall i | 0 <= i < |s| :: IsSpace(s[i])
  }

  predicate HasNewline(s: string) {
    exists i | 0 <= i < |s| :: s[i] == '\n'
  }

  /** The whitespace after a row element: never empty, and holding a `\n`
      exactly when `nl` says so. */
  predicate Gap(g: string, nl: bool) {
    |g| > 0 && Blank(g) && (HasNewline(g) <==> nl)
  }

  /** Each word followed by its gap. */
  function Spaced(ws: seq<string>, gaps: seq<string>): string
    requires |ws| == |gaps|
    decreases |ws|
  {
    if |ws| == 0 then "" else ws[0] + gaps[0] + Spaced(ws[1..], gaps[1..])
  }

  /** Words each of which is one token that Python's `float()` accepts. */
  predicate Numbers(ws: seq<string>) {
    forall i | 0 <= i < |ws| :: NumberAt(ws, i)
  }

  predicate NumberAt(ws: seq<string>, i: nat)
    requires i < |ws|
  {
    IsWord(ws[i]) && FloatLit(ws[i])
  }

  /** A row written as the words `ws`, each followed by its gap, and ended as
      `end` says: the last gap of a row ended by a line break holds a `\n`,
      and no other gap does. */
  predicate RowLayout(ws: seq<string>, gaps: seq<string>, end: RowEnd) {
    && |ws| == |gaps|
    && Numbers(ws)
    && (forall i | 0 <= i < |gaps| :: Gap(gaps[i], end == Newline && i == |gaps| - 1))
    && (end == Newline ==> |ws| > 0)
  }

  /** The row's text; a closed row carries its `]`. */
  function RowText(ws: seq<string>, gaps: seq<string>, end: RowEnd): string
    requires |ws| == |gaps|
  {
    Spaced(ws, gaps) + (if end == Closed then "]" else "")
  }

  /** The row elements the words stand for. */
  function Elements(ws: seq<string>): (row: seq<Float>)
    ensures |row| == |ws| && forall i | 0 <= i < |ws| :: row[i].lexeme == ws[i]
  {
    seq(|ws|, i requires 0 <= i < |ws| => Float(ws[i]))
  }

  // ---------------------------------------------------------------------------
  // Reading one row back
  // ---------------------------------------------------------------------------

  /** Character `i` of `s`. Facts about written text are stated through it,
      so that a proof uses them only at the positions it names. */
  function Char(s: string, i: nat): char
    requires i < |s|
  {
    s[i]
  }

  /** `line` holds `s` from position `k` on. */
  predicate WrittenAt(line: string, k: nat, s: string) {
    k + |s| <= |line| && forall i | 0 <= i < |s| :: line[k + i] == Char(s, i)
  }

  lemma WrittenSplit(line: string, k: nat, a: string, b: string)
    requires WrittenAt(line, k, a + b)
    ensures WrittenAt(line, k, a) && WrittenAt(line, k + |a|, b)
  {
    forall i | 0 <= i < |a|
      ensures line[k + i] == Char(a, i)
    {
      assert line[k + i] == Char(a + b, i);
    }
    forall i | 0 <= i < |b|
      ensures line[k + |a| + i] == Char(b, i)
    {
      assert line[k + (|a| + i)] == Char(a + b, |a| + i);
    }
  }

  /** Text between a prefix and a suffix is written after the prefix. */
  lemma WrittenInside(pre: string, s: string, post: string)
    ensures WrittenAt(pre + s + post, |pre|, s)
  {
    forall i | 0 <= i < |s|
      ensures (pre + s + post)[|pre| + i] == Char(s, i)
    {
    }
  }

  /** `WrittenAt` read at one position. */
  lemma CharAt(line: string, k: nat, s: string, i: nat)
    requires WrittenAt(line, k, s) && i < |s|
    ensures line[k + i] == s[i]
  {
    assert line[k + i] == Char(s, i);
  }

  /** A word other than `[` after whitespace is the row token, and `q` is
      the position just after it. */
  lemma WordAt(line: string, k: nat, lead: string, w: string, q: nat)
    requires Blank(lead) && IsWord(w) && w != "["
    requires WrittenAt(line, k, lead + w) && q == k + |lead| + |w|
    requires q == |line| || IsSpace(line[q])
    ensures RowToken(line, k) == (Some(w), q)
  {
    WrittenSplit(line, k, lead, w);
    forall i | 0 <= i < |w|
      ensures line[q - |w|..q][i] == w[i]
    {
      CharAt(line, k + |lead|, w, i);
    }
    forall i | k <= i < k + |lead|
      ensures IsSpace(line[i])
    {
      CharAt(line, k, lead, i - k);
    }
    assert line[q - |w|..q] == w;
    CharAt(line, k + |lead|, w, 0);
    assert TokenAt(line, k, w, q);
    var r := NextToken(line, k);
    TokenAtUnique(line, k, w, q, r.0.value, r.1);
  }

  /** Whitespace `g` that ends at a non-space character (or the line's end):
      the newline check skips exactly `g`, to `p`, and reports whether `g`
      holds a `\n`. */
  lemma GapAt(line: string, q: nat, g: string, p: nat)
    requires Blank(g) && WrittenAt(line, q, g) && p == q + |g|
    requires p == |line| || !IsSpace(line[p])
    ensures CheckForNewline(line, q) == (HasNewline(g), p)
  {
    var (saw, p') := CheckForNewline(line, q);
    forall i | q <= i < p
      ensures IsSpace(line[i])
    {
      CharAt(line, q, g, i - q);
    }
    assert p' == p;
    if saw {
      var i :| q <= i < p && line[i] == '\n';
      CharAt(line, q, g, i - q);
    }
    if HasNewline(g) {
      var j :| 0 <= j < |g| && g[j] == '\n';
      CharAt(line, q, g, j);
    }
  }

  /** The step of the inner loop on an element: a `\n` in the whitespace
      after it ends the row; otherwise the row goes on from the next element. */
  lemma RowStep(line: string, pos: nat, w: string, q: nat, saw: bool, p2: nat)
    requires RowToken(line, pos) == (Some(w), q) && w != "]" && ParseFloat(w) == Some(Float(w))
    requires CheckForNewline(line, q) == (saw, p2)
    ensures saw ==> MatrixRow(line, pos) == Ok(([Float(w)], Newline, p2))
    ensures !saw ==> MatrixRow(line, pos) == Prepend(Float(w), MatrixRow(line, p2))
  {
  }

  /** A number word is neither bracket, and `float()` keeps it whole. */
  lemma NumberWord(w: string)
    requires FloatLit(w)
    ensures w != "[" && w != "]" && ParseFloat(w) == Some(Float(w))
  {
    BracketsAreNotNumbers();
  }

  /** The row read after `f`, with `f` put in front. */
  function Prepend(f: Float, r: Result<(seq<Float>, RowEnd, nat)>): Result<(seq<Float>, RowEnd, nat)> {
    match r
    case Err(e) => Err(e)
    case Ok((row, end, p)) => Ok(([f] + row, end, p))
  }

  /** What may follow a row's text at position `m` of its line: after a
      line break, a non-space character or the line's end; after a `]`,
      whitespace or the line's end; a row that runs off the line ends it. */
  predicate FollowsAt(line: string, m: nat, end: RowEnd) {
    match end
    case Newline => m == |line| || (m < |line| && !IsSpace(line[m]))
    case Closed => m == |line| || (m < |line| && IsSpace(line[m]))
    case Exhausted => m == |line|
  }

  /** The scans over one element written at `k` and its gap: the word ends
      at `q`, the gap at `k'`, where `text'` begins with a non-space character
      (or, when empty, is followed by one or by the line's end). */
  lemma ElementScan(line: string, k: nat, lead: string, w: string, g: string, text': string, q: nat, k': nat)
    requires Blank(lead) && IsWord(w) && |g| > 0 && Blank(g) && w != "["
    requires WrittenAt(line, k, (lead + w) + g + text')
    requires q == k + |lead| + |w| && k' == q + |g|
    requires if |text'| > 0 then !IsSpace(text'[0]) else k' == |line| || !IsSpace(line[k'])
    ensures WrittenAt(line, k', text')
    ensures RowToken(line, k) == (Some(w), q)
    ensures CheckForNewline(line, q) == (HasNewline(g), k')
  {
    WrittenSplit(line, k, (lead + w) + g, text');
    WrittenSplit(line, k, lead + w, g);
    CharAt(line, q, g, 0);
    if |text'| > 0 {
      CharAt(line, k', text', 0);
    }
    WordAt(line, k, lead, w, q);
    GapAt(line, q, g, k');
  }

  /** A row of float words written with gaps as `RowLayout` describes, from
      position `k` of a line up to `m`, is read back as exactly those
      elements, ends as `end` says, and leaves the position at `m`. In
      particular a row ends at the first element whose trailing whitespace
      holds a `\n`, and not before. */
  lemma {:induction false} RowReadsBack(line: string, k: nat, lead: string, ws: seq<string>, gaps: seq<string>, end: RowEnd, m: nat)
    requires Blank(lead) && RowLayout(ws, gaps, end)
    requires WrittenAt(line, k, lead + RowText(ws, gaps, end))
    requires m == k + |lead| + |RowText(ws, gaps, end)| && FollowsAt(line, m, end)
    ensures MatrixRow(line, k) == Ok((Elements(ws), end, m))
    decreases |ws|
  {
    if |ws| == 0 {
      EmptyRowAt(line, k, lead, end, m);
    } else {
      var k' := k + |lead| + |ws[0]| + |gaps[0]|;
      FirstElementAt(line, k, lead, ws, gaps, end, m, k');
      if !HasNewline(gaps[0]) {
        RowReadsBack(line, k', "", ws[1..], gaps[1..], end, m);
      }
    }
  }

  /** A row with no elements: its `]`, or the end of the line. */
  lemma EmptyRowAt(line: string, k: nat, lead: string, end: RowEnd, m: nat)
    requires Blank(lead) && RowLayout([], [], end)
    requires WrittenAt(line, k, lead + RowText([], [], end))
    requires m == k + |lead| + |RowText([], [], end)| && FollowsAt(line, m, end)
    ensures MatrixRow(line, k) == Ok(([], end, m))
  {
    var text := RowText([], [], end);
    if end == Closed {
      assert text == "]";
      ClosedEmptyRowAt(line, k, lead, m);
    } else {
      assert text == "" && m == k + |lead| && lead + text == lead;
      ExhaustedEmptyRowAt(line, k, lead);
    }
  }

  /** The first element of a row, ending at `k'` with its gap: a `\n` there
      ends the row; otherwise the rest of the row is written from `k'` on. */
  lemma FirstElementAt(line: string, k: nat, lead: string, ws: seq<string>, gaps: seq<string>, end: RowEnd, m: nat, k': nat)
    requires Blank(lead) && RowLayout(ws, gaps, end) && |ws| > 0
    requires WrittenAt(line, k, lead + RowText(ws, gaps, end))
    requires m == k + |lead| + |RowText(ws, gaps, end)| && FollowsAt(line, m, end)
    requires k' == k + |lead| + |ws[0]| + |gaps[0]|
    ensures HasNewline(gaps[0]) ==> MatrixRow(line, k) == Ok((Elements(ws), end, m))
    ensures !HasNewline(gaps[0]) ==>
      && MatrixRow(line, k) == Prepend(Float(ws[0]), MatrixRow(line, k'))
      && Elements(ws) == [Float(ws[0])] + Elements(ws[1..])
      && RowLayout(ws[1..], gaps[1..], end)
      && WrittenAt(line, k', "" + RowText(ws[1..], gaps[1..], end))
      && m == k' + |""| + |RowText(ws[1..], gaps[1..], end)|
  {
    var text := RowText(ws, gaps, end);
    var w, g := ws[0], gaps[0];
    var text' := RowText(ws[1..], gaps[1..], end);
    RowTextStep(lead, ws, gaps, end);
    RowTextStart(ws, gaps, end);
    var q := k + |lead| + |w|;
    assert m == k' + |text'| by {
      assert |lead + text| == |(lead + w) + g + text'|;
    }
    assert NumberAt(ws, 0);
    ElementScan(line, k, lead, w, g, text', q, k');
    NumberWord(w);
    RowStep(line, k, w, q, HasNewline(g), k');
    ElementsCons(ws);
    if HasNewline(g) {
      assert Gap(gaps[0], end == Newline && 0 == |gaps| - 1);
      assert |ws| == 1 && text' == "" && end == Newline;
      assert Elements(ws) == [Float(w)] by {
        assert Elements(ws[1..]) == [];
      }
    } else {
      RowLayoutTail(ws, gaps, end);
      assert "" + text' == text';
    }
  }

  lemma ElementsCons(ws: seq<string>)
    requires |ws| > 0
    ensures Elements(ws) == [Float(ws[0])] + Elements(ws[1..])
  {
  }

  lemma RowTextStep(lead: string, ws: seq<string>, gaps: seq<string>, end: RowEnd)
    requires |ws| == |gaps| > 0
    ensures lead + RowText(ws, gaps, end) == (lead + ws[0]) + gaps[0] + RowText(ws[1..], gaps[1..], end)
  {
  }

  /** What follows an element's gap starts with a non-space character. */
  lemma RowTextStart(ws: seq<string>, gaps: seq<string>, end: RowEnd)
    requires RowLayout(ws, gaps, end) && |ws| > 0
    ensures var text' := RowText(ws[1..], gaps[1..], end);
      |text'| > 0 ==> !IsSpace(text'[0])
    ensures RowText(ws[1..], gaps[1..], end) == "" <==> |ws| == 1 && end != Closed
  {
    var text' := RowText(ws[1..], gaps[1..], end);
    if |ws| > 1 {
      assert NumberAt(ws, 1);
      assert text'[0] == ws[1][0];
    }
  }

  lemma ClosedEmptyRowAt(line: string, k: nat, lead: string, m: nat)
    requires Blank(lead) && WrittenAt(line, k, lead + "]")
    requires m == k + |lead| + 1 && FollowsAt(line, m, Closed)
    ensures MatrixRow(line, k) == Ok(([], Closed, m))
  {
    WordAt(line, k, lead, "]", m);
  }

  lemma ExhaustedEmptyRowAt(line: string, k: nat, lead: string)
    requires Blank(lead) && WrittenAt(line, k, lead) && k + |lead| == |line|
    ensures MatrixRow(line, k) == Ok(([], Exhausted, |line|))
  {
    BlankAt(line, k, lead);
  }

  lemma BlankAt(line: string, k: nat, lead: string)
    requires Blank(lead) && WrittenAt(line, k, lead) && k + |lead| == |line|
    ensures forall i | k <= i < |line| :: IsSpace(line[i])
  {
    forall i | k <= i < |line|
      ensures IsSpace(line[i])
    {
      CharAt(line, k, lead, i - k);
    }
  }

  /** After the first element of a row whose first gap holds no `\n`, the
      remaining words still form a row of the same kind. */
  lemma RowLayoutTail(ws: seq<string>, gaps: seq<string>, end: RowEnd)
    requires RowLayout(ws, gaps, end) && |ws| > 0 && !HasNewline(gaps[0])
    ensures RowLayout(ws[1..], gaps[1..], end)
  {
    assert forall i | 0 <= i < |gaps| - 1 :: gaps[1..][i] == gaps[i + 1];
    assert forall i | 0 <= i < |ws| - 1 :: ws[1..][i] == ws[i + 1];
    assert forall i | 0 <= i < |ws| - 1 :: NumberAt(ws[1..], i) == NumberAt(ws, i + 1);
  }

  // ---------------------------------------------------------------------------
  // The outer loop, one row at a time
  // ---------------------------------------------------------------------------

  /** A row ended by a line break is kept, and the rows go on from after it. */
  lemma RowsAfterNewline(cur: Cursor, row: seq<Float>, p: nat)
    requires MatrixRow(cur.line, cur.pos) == Ok((row, Newline, p))
    requires MatrixRows(cur.(pos := p)).Ok?
    ensures MatrixRows(cur) == Ok(([row] + MatrixRows(cur.(pos := p)).value.0, MatrixRows(cur.(pos := p)).value.1))
  {
  }

  /** A closed row is the last one, and it is kept when it is not empty. */
  lemma RowsAfterClosed(cur: Cursor, row: seq<Float>, p: nat)
    requires MatrixRow(cur.line, cur.pos) == Ok((row, Closed, p)) && |row| > 0
    ensures MatrixRows(cur) == Ok(([row], cur.(pos := p)))
  {
  }

  /** A line with nothing left on it hands over to the next line. */
  lemma RowsAfterBlank(cur: Cursor)
    requires forall i | cur.pos <= i < |cur.line| :: IsSpace(cur.line[i])
    requires |cur.rest| > 0
    ensures MatrixRows(cur) == MatrixRows(Pull(cur))
  {
    var p := NextToken(cur.line, cur.pos).1;
    assert MatrixRow(cur.line, cur.pos) == Ok(([], Exhausted, p));
    var r := MatrixRows(Pull(cur));
    if r.Ok? {
      assert Kept<Float>([]) + r.value.0 == r.value.0;
    }
  }

  /** A row ended by a line break, then a closed one on the same line. */
  lemma TwoRows(cur: Cursor, row1: seq<Float>, p: nat, row2: seq<Float>, p2: nat)
    requires MatrixRow(cur.line, cur.pos) == Ok((row1, Newline, p))
    requires MatrixRow(cur.line, p) == Ok((row2, Closed, p2)) && |row2| > 0
    ensures MatrixRows(cur) == Ok(([row1, row2], cur.(pos := p2)))
  {
    var next := cur.(pos := p);
    RowsAfterClosed(next, row2, p2);
    assert MatrixRows(next).Ok?;
    RowsAfterNewline(cur, row1, p);
    assert [row1] + [row2] == [row1, row2];
    assert next.(pos := p2) == cur.(pos := p2);
  }

  /** After the opening `[`, rows of one length come back transposed. */
  lemma MatrixAfterOpen(cur: Cursor, q: nat, rows: seq<seq<Float>>, c: Cursor)
    requires NextToken(cur.line, cur.pos) == (Some("["), q)
    requires MatrixRows(cur.(pos := q)) == Ok((rows, c)) && Rectangular(rows)
    ensures ReadMatrixTrans(cur) == Ok((Transpose(rows), c))
  {
  }

  // ---------------------------------------------------------------------------
  // Whole matrices as Kaldi writes them
  // ---------------------------------------------------------------------------

  /** The gaps Kaldi's writer puts after a row's `n` elements: a space after
      each, and `last` after the final one. */
  function KaldiGaps(n: nat, last: string): (gs: seq<string>)
    ensures |gs| == n && forall i | 0 <= i < n :: gs[i] == (if i == n - 1 then last else " ")
  {
    seq(n, i requires 0 <= i < n => if i == n - 1 then last else " ")
  }

  /** A row line as Kaldi prints it: two spaces, each element followed by a
      space, then the line break. */
  function RowLine(ws: seq<string>): string {
    "  " + Spaced(ws, KaldiGaps(|ws|, " \n"))
  }

  /** The last row line carries the closing `]` before its line break. */
  function LastRowLine(ws: seq<string>): string {
    "  " + Spaced(ws, KaldiGaps(|ws|, " ")) + "]\n"
  }

  /** The lines after the opening `[`: one per row. */
  function MatrixLines(rows: seq<seq<string>>): (lines: seq<string>)
    requires |rows| > 0
    ensures |lines| == |rows| && lines[|rows| - 1] == LastRowLine(rows[|rows| - 1])
    decreases |rows|
  {
    if |rows| == 1 then [LastRowLine(rows[0])] else [RowLine(rows[0])] + MatrixLines(rows[1..])
  }

  /** Non-empty rows of float words. */
  predicate NumberRows(rows: seq<seq<string>>) {
    forall i | 0 <= i < |rows| :: |rows[i]| > 0 && Numbers(rows[i])
  }

  function ElementRows(rows: seq<seq<string>>): (m: seq<seq<Float>>)
    ensures |m| == |rows| && forall i | 0 <= i < |rows| :: m[i] == Elements(rows[i])
  {
    seq(|rows|, i requires 0 <= i < |rows| => Elements(rows[i]))
  }

  lemma ElementRowsCons(rows: seq<seq<string>>)
    requires |rows| > 0
    ensures ElementRows(rows) == [Elements(rows[0])] + ElementRows(rows[1..])
  {
    assert forall i | 0 <= i < |rows| - 1 :: rows[1..][i] == rows[i + 1];
  }

  lemma ElementRowsOne(rows: seq<seq<string>>)
    requires |rows| == 1
    ensures ElementRows(rows) == [Elements(rows[0])]
  {
  }

  lemma RowLineReadsBack(ws: seq<string>)
    requires |ws| > 0 && Numbers(ws)
    ensures MatrixRow(RowLine(ws), 0) == Ok((Elements(ws), Newline, |RowLine(ws)|))
  {
    RowLineLayout(ws);
    RowReadsBack(RowLine(ws), 0, "  ", ws, KaldiGaps(|ws|, " \n"), Newline, |RowLine(ws)|);
  }

  /** A row line is a row ended by its line break, written from the line's start. */
  lemma RowLineLayout(ws: seq<string>)
    requires |ws| > 0 && Numbers(ws)
    ensures var gaps := KaldiGaps(|ws|, " \n");
      && RowLayout(ws, gaps, Newline)
      && WrittenAt(RowLine(ws), 0, "  " + RowText(ws, gaps, Newline))
      && |RowLine(ws)| == 0 + |"  "| + |RowText(ws, gaps, Newline)|
      && FollowsAt(RowLine(ws), |RowLine(ws)|, Newline)
  {
    var gaps := KaldiGaps(|ws|, " \n");
    assert Gap(" \n", true) by {
      assert " \n"[1] == '\n';
    }
    assert !HasNewline(" ");
    assert RowLine(ws) == "" + ("  " + RowText(ws, gaps, Newline)) + "";
    WrittenInside("", "  " + RowText(ws, gaps, Newline), "");
  }

  lemma LastRowLineReadsBack(ws: seq<string>)
    requires |ws| > 0 && Numbers(ws)
    ensures MatrixRow(LastRowLine(ws), 0) == Ok((Elements(ws), Closed, |LastRowLine(ws)| - 1))
  {
    var m := |LastRowLine(ws)| - 1;
    LastRowLineLayout(ws);
    RowReadsBack(LastRowLine(ws), 0, "  ", ws, KaldiGaps(|ws|, " "), Closed, m);
  }

  /** The last row line is a closed row, written from the line's start and
      followed by the line break. */
  lemma LastRowLineLayout(ws: seq<string>)
    requires |ws| > 0 && Numbers(ws)
    ensures var gaps := KaldiGaps(|ws|, " ");
      && RowLayout(ws, gaps, Closed)
      && WrittenAt(LastRowLine(ws), 0, "  " + RowText(ws, gaps, Closed))
      && |LastRowLine(ws)| - 1 == 0 + |"  "| + |RowText(ws, gaps, Closed)|
      && FollowsAt(LastRowLine(ws), |LastRowLine(ws)| - 1, Closed)
  {
    var gaps := KaldiGaps(|ws|, " ");
    var line := LastRowLine(ws);
    assert !HasNewline(" ");
    assert line == "" + ("  " + RowText(ws, gaps, Closed)) + "\n";
    WrittenInside("", "  " + RowText(ws, gaps, Closed), "\n");
    assert line[|line| - 1] == '\n';
  }

  /** Each of `lines` read as one row from its start: every line but the
      last as a row ended by its line break, the last as a closed row, not
      empty. The rows, and where the last `]` ends; `None` when the lines
      are not laid out so. */
  function LinesRows(lines: seq<string>): (r: Option<(seq<seq<Float>>, nat)>)
    ensures r.Some? ==> |r.value.0| == |lines| > 0
    decreases |lines|
  {
    if |lines| == 0 then None
    else
      match MatrixRow(lines[0], 0)
      case Err(_) => None
      case Ok((row, end, q)) =>
        if |lines| == 1 then
          if end == Closed && |row| > 0 then Some(([row], q)) else None
        else if end == Newline && q == |lines[0]| then
          match LinesRows(lines[1..])
          case None => None
          case Some((rows, p)) => Some(([row] + rows, p))
        else None
  }

  /** From a line with nothing left on it, lines that each read as one row
      are read back one list entry per line, in order, and the cursor stands
      on the last line just after its `]`. */
  lemma {:induction false} LinesReadBack(line: string, pos: nat, lines: seq<string>, rows: seq<seq<Float>>, p: nat, after: seq<string>)
    requires pos <= |line| && Blank(line[pos..])
    requires LinesRows(lines) == Some((rows, p))
    ensures MatrixRows(Cursor(line, pos, lines + after)) == Ok((rows, Cursor(lines[|lines| - 1], p, after)))
    decreases |lines|
  {
    LinesRowsSplit(lines, rows, p);
    if |lines| == 1 {
      LastLineRead(line, pos, lines, rows, p, after);
    } else {
      var l0 := lines[0];
      LinesReadBack(l0, |l0|, lines[1..], rows[1..], p, after);
      FirstLineRead(line, pos, lines, rows, p, after);
    }
  }

  /** What `LinesRows` says of the first line, and of the lines after it. */
  lemma LinesRowsSplit(lines: seq<string>, rows: seq<seq<Float>>, p: nat)
    requires LinesRows(lines) == Some((rows, p))
    ensures |rows| == |lines| > 0
    ensures |lines| == 1 ==> MatrixRow(lines[0], 0) == Ok((rows[0], Closed, p)) && |rows[0]| > 0
    ensures |lines| > 1 ==>
      && MatrixRow(lines[0], 0) == Ok((rows[0], Newline, |lines[0]|))
      && LinesRows(lines[1..]) == Some((rows[1..], p))
  {
    if |lines| > 1 {
      var rest := LinesRows(lines[1..]);
      assert rest.Some? && rows == [rows[0]] + rest.value.0;
    }
  }

  /** The one line left is the closed last row. */
  lemma LastLineRead(line: string, pos: nat, lines: seq<string>, rows: seq<seq<Float>>, p: nat, after: seq<string>)
    requires pos <= |line| && Blank(line[pos..])
    requires |lines| == |rows| == 1 && MatrixRow(lines[0], 0) == Ok((rows[0], Closed, p)) && |rows[0]| > 0
    ensures MatrixRows(Cursor(line, pos, lines + after)) == Ok((rows, Cursor(lines[|lines| - 1], p, after)))
  {
    NextLineRead(line, pos, lines, after);
    RowsAfterClosed(Cursor(lines[0], 0, lines[1..] + after), rows[0], p);
    OneLine(lines, rows, after);
  }

  lemma OneLine(lines: seq<string>, rows: seq<seq<Float>>, after: seq<string>)
    requires |lines| == |rows| == 1
    ensures [rows[0]] == rows && lines[1..] + after == after
  {
  }

  /** The first of several lines is a row ended by its line break, and the
      rows go on from the next line. */
  lemma FirstLineRead(line: string, pos: nat, lines: seq<string>, rows: seq<seq<Float>>, p: nat, after: seq<string>)
    requires pos <= |line| && Blank(line[pos..])
    requires |lines| == |rows| > 1 && MatrixRow(lines[0], 0) == Ok((rows[0], Newline, |lines[0]|))
    requires MatrixRows(Cursor(lines[0], |lines[0]|, lines[1..] + after))
      == Ok((rows[1..], Cursor(lines[1..][|lines[1..]| - 1], p, after)))
    ensures MatrixRows(Cursor(line, pos, lines + after)) == Ok((rows, Cursor(lines[|lines| - 1], p, after)))
  {
    NextLineRead(line, pos, lines, after);
    RowsAfterNewline(Cursor(lines[0], 0, lines[1..] + after), rows[0], |lines[0]|);
    MoreLines(lines, rows);
  }

  lemma MoreLines(lines: seq<string>, rows: seq<seq<Float>>)
    requires |lines| == |rows| > 1
    ensures [rows[0]] + rows[1..] == rows && lines[1..][|lines[1..]| - 1] == lines[|lines| - 1]
  {
  }

  /** From the blank end of a line, the rows go on from the next one. */
  lemma NextLineRead(line: string, pos: nat, lines: seq<string>, after: seq<string>)
    requires pos <= |line| && Blank(line[pos..]) && |lines| > 0
    ensures MatrixRows(Cursor(line, pos, lines + after)) == MatrixRows(Cursor(lines[0], 0, lines[1..] + after))
  {
    var cur := Cursor(line, pos, lines + after);
    PullLines(line, pos, lines, after);
    BlankFrom(line, pos);
    RowsAfterBlank(cur);
  }

  lemma PullLines(line: string, pos: nat, lines: seq<string>, after: seq<string>)
    requires |lines| > 0
    ensures Pull(Cursor(line, pos, lines + after)) == Cursor(lines[0], 0, lines[1..] + after)
  {
    assert (lines + after)[1..] == lines[1..] + after;
  }

  lemma BlankFrom(line: string, pos: nat)
    requires pos <= |line| && Blank(line[pos..])
    ensures forall i | pos <= i < |line| :: IsSpace(line[i])
  {
    assert forall i | pos <= i < |line| :: line[i] == line[pos..][i - pos];
  }

  /** The lines Kaldi prints for non-empty rows of numbers each read as one
      row: the elements of that row. */
  lemma {:induction false} MatrixLinesRead(rows: seq<seq<string>>)
    requires |rows| > 0 && NumberRows(rows)
    ensures LinesRows(MatrixLines(rows)) == Some((ElementRows(rows), |LastRowLine(rows[|rows| - 1])| - 1))
    decreases |rows|, 1
  {
    if |rows| == 1 {
      OneMatrixLine(rows);
    } else {
      MatrixLinesStep(rows);
    }
  }

  lemma OneMatrixLine(rows: seq<seq<string>>)
    requires |rows| == 1 && NumberRows(rows)
    ensures LinesRows(MatrixLines(rows)) == Some((ElementRows(rows), |LastRowLine(rows[|rows| - 1])| - 1))
  {
    LastRowLineReadsBack(rows[0]);
    ElementRowsOne(rows);
  }

  /** A row line in front of lines that read back reads back too. */
  lemma {:induction false} MatrixLinesStep(rows: seq<seq<string>>)
    requires |rows| > 1 && NumberRows(rows)
    ensures LinesRows(MatrixLines(rows)) == Some((ElementRows(rows), |LastRowLine(rows[|rows| - 1])| - 1))
    decreases |rows|, 0
  {
    NumberRowsTail(rows);
    RowLineReadsBack(rows[0]);
    ElementRowsCons(rows);
    assert rows[1..][|rows[1..]| - 1] == rows[|rows| - 1];
    MatrixLinesRead(rows[1..]);
    LinesReadCons(RowLine(rows[0]), Elements(rows[0]), MatrixLines(rows[1..]), ElementRows(rows[1..]), |LastRowLine(rows[|rows| - 1])| - 1);
  }

  lemma LinesReadCons(l: string, row: seq<Float>, lines: seq<string>, rows: seq<seq<Float>>, p: nat)
    requires MatrixRow(l, 0) == Ok((row, Newline, |l|)) && LinesRows(lines) == Some((rows, p))
    ensures LinesRows([l] + lines) == Some(([row] + rows, p))
  {
    assert ([l] + lines)[1..] == lines && ([row] + rows)[1..] == rows;
  }

  /** From a line with nothing left on it, the rows Kaldi printed one per line
      are read back one list entry per line, in order, and the cursor stands
      on the last line just after its `]`. */
  lemma MatrixRowsReadsBack(line: string, pos: nat, rows: seq<seq<string>>, after: seq<string>)
    requires pos <= |line| && Blank(line[pos..])
    requires |rows| > 0 && NumberRows(rows)
    ensures var last := LastRowLine(rows[|rows| - 1]);
      MatrixRows(Cursor(line, pos, MatrixLines(rows) + after))
        == Ok((ElementRows(rows), Cursor(last, |last| - 1, after)))
  {
    MatrixLinesRead(rows);
    LinesReadBack(line, pos, MatrixLines(rows), ElementRows(rows), |LastRowLine(rows[|rows| - 1])| - 1, after);
  }

  lemma NumberRowsTail(rows: seq<seq<string>>)
    requires |rows| > 0 && NumberRows(rows)
    ensures NumberRows(rows[1..])
  {
    assert forall i | 0 <= i < |rows| - 1 :: rows[1..][i] == rows[i + 1];
  }

  /** A matrix as Kaldi prints it: `[` ending its line (after the tag that
      introduced it), then one line per row with `]` closing the last. Its
      rows, all of one length, come back transposed, and the cursor stands
      just after the `]`. */
  lemma ReadMatrixReadsBack(pre: string, lead: string, blank: string, rows: seq<seq<string>>, after: seq<string>)
    requires Blank(lead) && Blank(blank)
    requires |rows| > 0 && NumberRows(rows) && Rectangular(rows)
    ensures var line := pre + lead + "[" + blank;
      var last := LastRowLine(rows[|rows| - 1]);
      ReadMatrixTrans(Cursor(line, |pre|, MatrixLines(rows) + after))
        == Ok((Transpose(ElementRows(rows)), Cursor(last, |last| - 1, after)))
  {
    var line := pre + lead + "[" + blank;
    var q := |pre| + |lead| + 1;
    var last := LastRowLine(rows[|rows| - 1]);
    NextTokenAt(pre, lead, "[", blank);
    assert line[q..] == blank;
    MatrixRowsReadsBack(line, q, rows, after);
    assert Rectangular(ElementRows(rows));
    MatrixAfterOpen(Cursor(line, |pre|, MatrixLines(rows) + after), q, ElementRows(rows), Cursor(last, |last| - 1, after));
  }

  /** The rows read are the matrix's columns: element `i` of column `j` is
      the `j`-th word of row `i`. */
  lemma ReadMatrixColumns(pre: string, lead: string, blank: string, rows: seq<seq<string>>, after: seq<string>)
    requires Blank(lead) && Blank(blank)
    requires |rows| > 0 && NumberRows(rows) && Rectangular(rows)
    ensures var r := ReadMatrixTrans(Cursor(pre + lead + "[" + blank, |pre|, MatrixLines(rows) + after));
      && r.Ok? && |r.value.0| == |rows[0]|
      && (forall j | 0 <= j < |rows[0]| :: |r.value.0[j]| == |rows|)
      && forall j, i | 0 <= j < |rows[0]| && 0 <= i < |rows| :: r.value.0[j][i] == Float(rows[i][j])
  {
    ReadMatrixReadsBack(pre, lead, blank, rows, after);
  }

  // ---------------------------------------------------------------------------
  // A worked example
  // ---------------------------------------------------------------------------

  /** `[ 1 2 \n 3 4 ]` on one line: the `\n` after `2` ends the first row,
      the `]` the second, and the result is the transpose. */
  lemma TwoByTwoExample()
    ensures ReadMatrixTrans(Cursor("[ 1 2 \n 3 4 ]", 0, []))
         == Ok(([[Float("1"), Float("3")], [Float("2"), Float("4")]], Cursor("[ 1 2 \n 3 4 ]", 13, [])))
  {
    var line := "[ 1 2 \n 3 4 ]";
    var rows := [[Float("1"), Float("2")], [Float("3"), Float("4")]];
    ExampleOpens();
    ExampleRows();
    ExampleTranspose();
    MatrixAfterOpen(Cursor(line, 0, []), 1, rows, Cursor(line, 13, []));
  }

  lemma ExampleRows()
    ensures MatrixRows(Cursor("[ 1 2 \n 3 4 ]", 1, []))
         == Ok(([[Float("1"), Float("2")], [Float("3"), Float("4")]], Cursor("[ 1 2 \n 3 4 ]", 13, [])))
  {
    ExampleFirstRow();
    ExampleSecondRow();
    TwoRows(Cursor("[ 1 2 \n 3 4 ]", 1, []), [Float("1"), Float("2")], 8, [Float("3"), Float("4")], 13);
  }

  lemma ExampleTranspose()
    ensures var rows := [[Float("1"), Float("2")], [Float("3"), Float("4")]];
      Rectangular(rows) && Transpose(rows) == [[Float("1"), Float("3")], [Float("2"), Float("4")]]
  {
    var rows := [[Float("1"), Float("2")], [Float("3"), Float("4")]];
    var m := Transpose(rows);
    assert m[0] == [rows[0][0], rows[1][0]];
    assert m[1] == [rows[0][1], rows[1][1]];
  }

  lemma ExampleOpens()
    ensures NextToken("[ 1 2 \n 3 4 ]", 0) == (Some("["), 1)
  {
    NextTokenAt("", "", "[", " 1 2 \n 3 4 ]");
    assert "" + "" + "[" + " 1 2 \n 3 4 ]" == "[ 1 2 \n 3 4 ]";
  }

  lemma ExampleFirstRow()
    ensures MatrixRow("[ 1 2 \n 3 4 ]", 1) == Ok(([Float("1"), Float("2")], Newline, 8))
  {
    ExampleFirstWords();
    ExampleFirstWritten();
    RowReadsBack("[ 1 2 \n 3 4 ]", 1, " ", ["1", "2"], [" ", " \n "], Newline, 8);
  }

  lemma ExampleFirstWords()
    ensures RowLayout(["1", "2"], [" ", " \n "], Newline)
    ensures Elements(["1", "2"]) == [Float("1"), Float("2")]
  {
    DigitWordsAreNumbers(["1", "2"]);
    ExampleGaps();
    var gaps := [" ", " \n "];
    assert forall i | 0 <= i < 2 :: Gap(gaps[i], i == 1);
  }

  lemma ExampleGaps()
    ensures Gap(" ", false) && Gap(" \n ", true)
  {
    assert " \n "[1] == '\n';
  }

  lemma ExampleFirstWritten()
    ensures var line, text := "[ 1 2 \n 3 4 ]", RowText(["1", "2"], [" ", " \n "], Newline);
      && WrittenAt(line, 1, " " + text)
      && 8 == 1 + |" "| + |text|
      && FollowsAt(line, 8, Newline)
  {
    ExampleFirstText();
    ExampleLine();
    WrittenInside("[", " 1 2 \n ", "3 4 ]");
  }

  lemma ExampleFirstText()
    ensures " " + RowText(["1", "2"], [" ", " \n "], Newline) == " 1 2 \n "
  {
  }

  lemma ExampleLine()
    ensures "[" + " 1 2 \n " + "3 4 ]" == "[ 1 2 \n 3 4 ]"
    ensures "[ 1 2 \n " + "3 4 ]" + "" == "[ 1 2 \n 3 4 ]"
  {
  }

  lemma ExampleSecondRow()
    ensures MatrixRow("[ 1 2 \n 3 4 ]", 8) == Ok(([Float("3"), Float("4")], Closed, 13))
  {
    ExampleSecondWords();
    ExampleSecondWritten();
    RowReadsBack("[ 1 2 \n 3 4 ]", 8, "", ["3", "4"], [" ", " "], Closed, 13);
  }

  lemma ExampleSecondWords()
    ensures RowLayout(["3", "4"], [" ", " "], Closed)
    ensures Elements(["3", "4"]) == [Float("3"), Float("4")]
  {
    DigitWordsAreNumbers(["3", "4"]);
    ExampleGaps();
  }

  lemma ExampleSecondWritten()
    ensures var line, text := "[ 1 2 \n 3 4 ]", RowText(["3", "4"], [" ", " "], Closed);
      && WrittenAt(line, 8, "" + text)
      && 13 == 8 + |""| + |text|
      && FollowsAt(line, 13, Closed)
  {
    ExampleSecondText();
    ExampleLine();
    WrittenInside("[ 1 2 \n ", "3 4 ]", "");
  }

  lemma ExampleSecondText()
    ensures "" + RowText(["3", "4"], [" ", " "], Closed) == "3 4 ]"
  {
  }

  /** Words of one decimal digit each are numbers. */
  lemma DigitWordsAreNumbers(ws: seq<string>)
    requires forall i | 0 <= i < |ws| :: |ws[i]| == 1 && IsDigit(ws[i][0])
    ensures Numbers(ws)
  {
    forall i | 0 <= i < |ws|
      ensures NumberAt(ws, i)
    {
      assert ws[i] == [ws[i][0]];
      DigitWordIsNumber(ws[i][0]);
    }
  }

  lemma DigitWordIsNumber(c: char)
    requires '0' <= c <= '9'
    ensures IsWord([c]) && FloatLit([c])
  {
    assert DigitPart([c]);
    assert ParseInt([c]).Some?;
    IntLiteralIsFloatLiteral([c]);
  }
}
