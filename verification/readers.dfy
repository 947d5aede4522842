/** The value readers of converter/component.py: booleans, integers,
    floats, bracketed vectors and bracketed matrices. Each takes the cursor
    where the value starts and returns the value with the cursor after it,
    pulling further lines where a vector or matrix continues. */
module Readers {
  import opened Results
  import opened Text
  import opened Tokenizer

  // ---------------------------------------------------------------------------
  // Scalars
  // ---------------------------------------------------------------------------

  const FalseWords: set<string> := {"F", "False", "false"}
  const TrueWords: set<string> := {"T", "True", "true"}

  /** `_read_bool`: one token, one of six spellings; the line is never changed. */
  function ReadBool(cur: Cursor): (r: Result<(bool, Cursor)>)
    ensures var (t, q) := NextToken(cur.line, cur.pos);
      && (r.Ok? <==> t.Some? && t.value in FalseWords + TrueWords)
      && (r.Ok? ==> r.value.0 == (t.value in TrueWords))
      && (r.Ok? ==> r.value.1 == Cursor(cur.line, q, cur.rest))
      && (r.Err? ==> r.error == BadBool(q, t))
  {
    var (t, q) := NextToken(cur.line, cur.pos);
    if t.Some? && t.value in FalseWords then Ok((false, cur.(pos := q)))
    else if t.Some? && t.value in TrueWords then Ok((true, cur.(pos := q)))
    else Err(BadBool(q, t))
  }

  /** Python's `str(b)` for a boolean. */
  function ShowBool(b: bool): string {
    if b then "True" else "False"
  }

  /** Both spellings Python prints are single whitespace-free words. */
  lemma ShowBoolIsWord(b: bool)
    ensures IsWord(ShowBool(b))
  {
  }

  lemma ReadBoolAt(line: string, pos: nat, rest: seq<string>, b: bool, q: nat)
    requires NextToken(line, pos) == (Some(ShowBool(b)), q)
    ensures ReadBool(Cursor(line, pos, rest)) == Ok((b, Cursor(line, q, rest)))
  {
  }

  /** A boolean written as Python prints it, after whitespace, reads back. */
  lemma ReadBoolReadsBack(b: bool, lead: string, tail: string, rest: seq<string>)
    requires forall i | 0 <= i < |lead| :: IsSpace(lead[i])
    requires |tail| == 0 || IsSpace(tail[0])
    ensures ReadBool(Cursor(lead + ShowBool(b) + tail, 0, rest))
         == Ok((b, Cursor(lead + ShowBool(b) + tail, |lead| + |ShowBool(b)|, rest)))
  {
    ShowBoolIsWord(b);
    NextTokenReadsBack(lead, ShowBool(b), tail);
    ReadBoolAt(lead + ShowBool(b) + tail, 0, rest, b, |lead| + |ShowBool(b)|);
  }

  /** `_read_int`: one token through Python's `int()`; a missing token fails too. */
  function ReadInt(cur: Cursor): (r: Result<(int, Cursor)>)
    ensures var (t, q) := NextToken(cur.line, cur.pos);
      && (r.Ok? <==> t.Some? && ParseInt(t.value).Some?)
      && (r.Ok? ==> Some(r.value.0) == ParseInt(t.value) && r.value.1 == Cursor(cur.line, q, cur.rest))
      && (r.Err? ==> r.error == BadInt(t))
  {
    var (t, q) := NextToken(cur.line, cur.pos);
    if t.None? then Err(BadInt(t))
    else match ParseInt(t.value)
      case None => Err(BadInt(t))
      case Some(i) => Ok((i, cur.(pos := q)))
  }

  /** A token `int()` accepts, after whitespace, reads back as its value. */
  lemma ReadIntWord(w: string, i: int, lead: string, tail: string, rest: seq<string>)
    requires forall k | 0 <= k < |lead| :: IsSpace(lead[k])
    requires IsWord(w)
    requires |tail| == 0 || IsSpace(tail[0])
    requires ParseInt(w) == Some(i)
    ensures ReadInt(Cursor(lead + w + tail, 0, rest)) == Ok((i, Cursor(lead + w + tail, |lead| + |w|, rest)))
  {
    NextTokenReadsBack(lead, w, tail);
    ReadIntAt(lead + w + tail, 0, rest, w, |lead| + |w|, i);
  }

  lemma ReadIntAt(line: string, pos: nat, rest: seq<string>, w: string, q: nat, i: int)
    requires NextToken(line, pos) == (Some(w), q) && ParseInt(w) == Some(i)
    ensures ReadInt(Cursor(line, pos, rest)) == Ok((i, Cursor(line, q, rest)))
  {
  }

  /** `_read_float`: one token through Python's `float()`. */
  function ReadFloat(cur: Cursor): (r: Result<(Float, Cursor)>)
    ensures var (t, q) := NextToken(cur.line, cur.pos);
      && (r.Ok? <==> t.Some? && FloatLit(t.value))
      && (r.Ok? ==> r.value.0 == Float(t.value) && r.value.1 == Cursor(cur.line, q, cur.rest))
      && (r.Err? ==> r.error == BadFloat(t))
  {
    var (t, q) := NextToken(cur.line, cur.pos);
    if t.None? then Err(BadFloat(t))
    else match ParseFloat(t.value)
      case None => Err(BadFloat(t))
      case Some(f) => Ok((f, cur.(pos := q)))
  }

  // ---------------------------------------------------------------------------
  // Vectors
  // ---------------------------------------------------------------------------

  /** The loop of `__read_vector` after its `[`: collect tokens up to `]`,
      pulling a new line whenever the current one is used up. */
  function VectorBody(cur: Cursor): (r: Result<(seq<string>, Cursor)>)
    ensures r.Ok? ==> Advanced(cur, r.value.1) && "]" !in r.value.0
    ensures r.Err? ==> r.error == EofInVector
    decreases |cur.rest|, Remaining(cur.line, cur.pos)
  {
    var (t, q) := NextToken(cur.line, cur.pos);
    AdvancedStep(cur, q);
    if t == Some("]") then Ok(([], cur.(pos := q)))
    else if t.None? then
      if |cur.rest| == 0 then Err(EofInVector)
      else
        match VectorBody(Pull(cur))
        case Err(e) => Err(e)
        case Ok((v, c)) =>
          AdvancedTrans(cur, Pull(cur), c);
          Ok((v, c))
    else
      match VectorBody(cur.(pos := q))
      case Err(e) => Err(e)
      case Ok((v, c)) =>
        AdvancedTrans(cur, cur.(pos := q), c);
        Ok(([t.value] + v, c))
  }

  /** `__read_vector`: a `[` token, then the raw element tokens up to `]`. */
  function ReadVector(cur: Cursor): (r: Result<(seq<string>, Cursor)>)
    ensures var (t, q) := NextToken(cur.line, cur.pos);
      t != Some("[") ==> r == Err(ExpectedOpenBracket(q, t))
    ensures r.Ok? ==> Advanced(cur, r.value.1) && "]" !in r.value.0
    ensures r.Err? ==> r.error == EofInVector || r.error.ExpectedOpenBracket?
  {
    var (t, q) := NextToken(cur.line, cur.pos);
    if t != Some("[") then Err(ExpectedOpenBracket(q, t))
    else VectorBody(cur.(pos := q))
  }

  /** `int()` of every element; the first element it rejects is reported. */
  function ParseInts(ts: seq<string>): (r: Result<seq<int>>)
    ensures r.Ok? <==> forall i | 0 <= i < |ts| :: ParseInt(ts[i]).Some?
    ensures r.Ok? ==> |r.value| == |ts| && forall i | 0 <= i < |ts| :: ParseInt(ts[i]) == Some(r.value[i])
    ensures r.Err? ==> exists i | 0 <= i < |ts| :: r.error == BadInt(Some(ts[i])) && ParseInt(ts[i]).None?
    decreases |ts|
  {
    if |ts| == 0 then Ok([])
    else match ParseInt(ts[0])
      case None => Err(BadInt(Some(ts[0])))
      case Some(x) =>
        match ParseInts(ts[1..])
        case Err(e) => Err(e)
        case Ok(xs) => Ok([x] + xs)
  }

  /** `float()` of every element; the first element it rejects is reported. */
  function ParseFloats(ts: seq<string>): (r: Result<seq<Float>>)
    ensures r.Ok? <==> forall i | 0 <= i < |ts| :: FloatLit(ts[i])
    ensures r.Ok? ==> |r.value| == |ts| && forall i | 0 <= i < |ts| :: r.value[i] == Float(ts[i])
    ensures r.Err? ==> exists i | 0 <= i < |ts| :: r.error == BadFloat(Some(ts[i])) && !FloatLit(ts[i])
    decreases |ts|
  {
    if |ts| == 0 then Ok([])
    else match ParseFloat(ts[0])
      case None => Err(BadFloat(Some(ts[0])))
      case Some(x) =>
        match ParseFloats(ts[1..])
        case Err(e) => Err(e)
        case Ok(xs) => Ok([x] + xs)
  }

  /** `_read_vector_int`. */
  function ReadVectorInt(cur: Cursor): (r: Result<(seq<int>, Cursor)>)
    ensures r.Ok? ==> Advanced(cur, r.value.1)
    ensures r.Ok? <==> ReadVector(cur).Ok? && ParseInts(ReadVector(cur).value.0).Ok?
    ensures r.Ok? ==> r.value == (ParseInts(ReadVector(cur).value.0).value, ReadVector(cur).value.1)
  {
    match ReadVector(cur)
    case Err(e) => Err(e)
    case Ok((ts, c)) =>
      match ParseInts(ts)
      case Err(e) => Err(e)
      case Ok(xs) => Ok((xs, c))
  }

  /** `_read_vector_float`. */
  function ReadVectorFloat(cur: Cursor): (r: Result<(seq<Float>, Cursor)>)
    ensures r.Ok? ==> Advanced(cur, r.value.1)
    ensures r.Ok? <==> ReadVector(cur).Ok? && ParseFloats(ReadVector(cur).value.0).Ok?
    ensures r.Ok? ==> r.value == (ParseFloats(ReadVector(cur).value.0).value, ReadVector(cur).value.1)
  {
    match ReadVector(cur)
    case Err(e) => Err(e)
    case Ok((ts, c)) =>
      match ParseFloats(ts)
      case Err(e) => Err(e)
      case Ok(xs) => Ok((xs, c))
  }

  // ---------------------------------------------------------------------------
  // Matrices
  // ---------------------------------------------------------------------------

  /** Why a matrix row stopped: at `]`, because the line was used up, or
      because the whitespace after an element held a newline. */
  datatype RowEnd = Closed | Exhausted | Newline

  /** A token of a matrix row: a `[` is skipped and the token after it taken instead. */
  function RowToken(line: string, pos: nat): (r: (Option<string>, nat))
    ensures pos <= r.1 && (r.1 == pos || r.1 <= |line|)
    ensures r.0.Some? ==> pos < r.1 <= |line|
  {
    var (t1, p1) := NextToken(line, pos);
    if t1 == Some("[") then NextToken(line, p1) else (t1, p1)
  }

  /** The inner loop of `_read_matrix_trans`: one row, within the current
      line. A `[` token is skipped wherever the loop reads one. */
  function MatrixRow(line: string, pos: nat): (r: Result<(seq<Float>, RowEnd, nat)>)
    ensures r.Ok? ==> var (row, end, p) := r.value;
      && pos <= p && (p == pos || p <= |line|)
      && (|row| > 0 ==> pos < p)
      && (end == Newline ==> |row| > 0)
      && FloatRow(row)
    ensures r.Err? ==> r.error.BadFloat?
    decreases Remaining(line, pos)
  {
    var (t, p) := RowToken(line, pos);
    if t == Some("]") then Ok(([], Closed, p))
    else if t.None? then Ok(([], Exhausted, p))
    else
      match ParseFloat(t.value)
      case None => Err(BadFloat(t))
      case Some(f) =>
        var (saw, p2) := CheckForNewline(line, p);
        if saw then Ok(([f], Newline, p2))
        else
          match MatrixRow(line, p2)
          case Err(e) => Err(e)
          case Ok((row, end, p3)) =>
            FloatRowCons(f, row);
            Ok(([f] + row, end, p3))
  }

  /** What each way of ending a row leaves behind on the line: a row that
      ran off the line stands at its end; a closed row stands just after a
      `]` token; a row ended by a line break stands after a run of
      whitespace, skipped whole, that holds a `\n`. */
  lemma {:induction false} MatrixRowEnds(line: string, pos: nat)
    ensures var r := MatrixRow(line, pos);
      r.Ok? ==> EndFits(line, pos, r.value.1, r.value.2)
    decreases Remaining(line, pos)
  {
    var (t, p) := RowToken(line, pos);
    if t == Some("]") {
      ClosingBracketAt(line, pos);
      assert MatrixRow(line, pos) == Ok(([], Closed, p));
    } else if t.None? {
      assert MatrixRow(line, pos) == Ok(([], Exhausted, p));
    } else if ParseFloat(t.value).Some? {
      var f := ParseFloat(t.value).value;
      var (saw, p2) := CheckForNewline(line, p);
      if saw {
        assert MatrixRow(line, pos) == Ok(([f], Newline, p2));
        var s :| p <= s < p2 && line[s] == '\n';
        assert NewlineBefore(line, pos, p2);
      } else {
        MatrixRowEnds(line, p2);
        var r := MatrixRow(line, p2);
        if r.Ok? {
          assert MatrixRow(line, pos) == Ok(([f] + r.value.0, r.value.1, r.value.2));
          EndFitsEarlier(line, pos, p2, r.value.1, r.value.2);
        } else {
          assert MatrixRow(line, pos).Err?;
        }
      }
    } else {
      assert MatrixRow(line, pos).Err?;
    }
  }

  /** The facts `MatrixRowEnds` states about a row that ends with `end` at `p`. */
  predicate EndFits(line: string, pos: nat, end: RowEnd, p: nat) {
    && (end == Exhausted ==> p >= |line|)
    && (end == Closed ==> 0 < p <= |line| && line[p - 1] == ']' && (p == |line| || IsSpace(line[p])))
    && (end == Newline ==> NewlineBefore(line, pos, p))
  }

  lemma EndFitsEarlier(line: string, pos: nat, pos': nat, end: RowEnd, p: nat)
    requires pos <= pos' && EndFits(line, pos', end, p)
    ensures EndFits(line, pos, end, p)
  {
    if end == Newline {
      var s :| pos' <= s < p && line[s] == '\n' && forall i | s <= i < p :: IsSpace(line[i]);
      assert pos <= s;
    }
  }

  /** `p` follows a run of whitespace, starting at or after `pos`, that holds a `\n`
      and that nothing but a non-space character (or the line's end) follows. */
  predicate NewlineBefore(line: string, pos: nat, p: nat) {
    && p <= |line|
    && (p < |line| ==> !IsSpace(line[p]))
    && exists s | pos <= s < p :: line[s] == '\n' && forall i | s <= i < p :: IsSpace(line[i])
  }

  /** A `]` row token ends just before the position the scan reports. */
  lemma ClosingBracketAt(line: string, pos: nat)
    requires RowToken(line, pos).0 == Some("]")
    ensures var p := RowToken(line, pos).1;
      0 < p <= |line| && line[p - 1] == ']' && (p == |line| || IsSpace(line[p]))
  {
    var (t1, p1) := NextToken(line, pos);
    var p := RowToken(line, pos).1;
    assert TokenAt(line, if t1 == Some("[") then p1 else pos, "]", p);
    assert line[p - 1..p] == "]";
  }

  /** Every element of the row passed Python's `float()`. */
  predicate FloatRow(row: seq<Float>) {
    forall i | 0 <= i < |row| :: FloatLit(row[i].lexeme)
  }

  lemma FloatRowCons(f: Float, row: seq<Float>)
    requires FloatLit(f.lexeme) && FloatRow(row)
    ensures FloatRow([f] + row)
  {
    var fr := [f] + row;
    forall i | 0 <= i < |fr|
      ensures FloatLit(fr[i].lexeme)
    {
      if i > 0 {
        assert fr[i] == row[i - 1];
      }
    }
  }

  /** The outer loop of `_read_matrix_trans`: rows until `]`. Empty rows are
      dropped; a used-up line pulls the next one. */
  function MatrixRows(cur: Cursor): (r: Result<(seq<seq<Float>>, Cursor)>)
    ensures r.Ok? ==> Advanced(cur, r.value.1)
    ensures r.Ok? ==> NoEmptyRow(r.value.0)
    ensures r.Err? ==> r.error == EofInMatrix || r.error.BadFloat?
    decreases |cur.rest|, Remaining(cur.line, cur.pos)
  {
    match MatrixRow(cur.line, cur.pos)
    case Err(e) => Err(e)
    case Ok((row, end, p)) =>
      var here := Kept(row);
      match end
      case Closed =>
        AdvancedStep(cur, p);
        Ok((here, cur.(pos := p)))
      case Exhausted =>
        if |cur.rest| == 0 then Err(EofInMatrix)
        else (
          match MatrixRows(Pull(cur))
          case Err(e) => Err(e)
          case Ok((rows, c)) =>
            AdvancedStep(cur, p);
            AdvancedTrans(cur, Pull(cur), c);
            NoEmptyRowAppend(here, rows);
            Ok((here + rows, c)))
      case Newline =>
        match MatrixRows(cur.(pos := p))
        case Err(e) => Err(e)
        case Ok((rows, c)) =>
          AdvancedStep(cur, p);
          AdvancedTrans(cur, cur.(pos := p), c);
          NoEmptyRowAppend(here, rows);
          Ok((here + rows, c))
  }

  /** The row as the list of rows keeps it: an empty row is dropped. */
  function Kept<T>(row: seq<T>): (rows: seq<seq<T>>)
    ensures NoEmptyRow(rows)
  {
    if |row| > 0 then [row] else []
  }

  predicate NoEmptyRow<T>(rows: seq<seq<T>>) {
    forall i | 0 <= i < |rows| :: |rows[i]| > 0
  }

  lemma NoEmptyRowAppend<T>(a: seq<seq<T>>, b: seq<seq<T>>)
    requires NoEmptyRow(a) && NoEmptyRow(b)
    ensures NoEmptyRow(a + b)
  {
    assert forall i | |a| <= i < |a + b| :: (a + b)[i] == b[i - |a|];
  }

  predicate Rectangular<T>(rows: seq<seq<T>>) {
    forall i | 0 <= i < |rows| :: |rows[i]| == |rows[0]|
  }

  /** `np.transpose` of a rectangular row list: column `j` of the input is row `j` of the output. */
  function Transpose<T>(rows: seq<seq<T>>): (m: seq<seq<T>>)
    requires Rectangular(rows)
    ensures |rows| == 0 ==> m == []
    ensures |rows| > 0 ==> |m| == |rows[0]|
    ensures forall j | 0 <= j < |m| :: |m[j]| == |rows|
    ensures forall j, i | 0 <= j < |m| && 0 <= i < |rows| :: m[j][i] == rows[i][j]
  {
    if |rows| == 0 then []
    else seq(|rows[0]|, j requires 0 <= j < |rows[0]| => seq(|rows|, i requires 0 <= i < |rows| => rows[i][j]))
  }

  /** Transposing twice gives the rows back, once no row is empty. */
  lemma TransposeTwice<T>(rows: seq<seq<T>>)
    requires Rectangular(rows)
    requires forall i | 0 <= i < |rows| :: |rows[i]| > 0
    ensures Rectangular(Transpose(rows))
    ensures Transpose(Transpose(rows)) == rows
  {
    var m := Transpose(rows);
    if |rows| > 0 {
      assert |m| > 0;
      var back := Transpose(m);
      assert |back| == |rows|;
      forall i | 0 <= i < |rows|
        ensures back[i] == rows[i]
      {
        assert |back[i]| == |rows[i]|;
      }
    }
  }

  /** `_read_matrix_trans`: a `[` token, the rows, then their transpose.
      Rows of unequal length make the array conversion fail. */
  function ReadMatrixTrans(cur: Cursor): (r: Result<(seq<seq<Float>>, Cursor)>)
    ensures var (t, q) := NextToken(cur.line, cur.pos);
      t != Some("[") ==> r == Err(ExpectedOpenBracket(q, t))
    ensures r.Ok? ==> Advanced(cur, r.value.1)
    ensures r.Ok? ==> Rectangular(r.value.0) && forall j | 0 <= j < |r.value.0| :: |r.value.0[j]| > 0
    ensures r.Ok? ==> var body := MatrixRows(cur.(pos := NextToken(cur.line, cur.pos).1));
      && body.Ok? && r.value.1 == body.value.1
      && Rectangular(body.value.0) && Transpose(r.value.0) == body.value.0
  {
    var (t, q) := NextToken(cur.line, cur.pos);
    if t != Some("[") then Err(ExpectedOpenBracket(q, t))
    else
      match MatrixRows(cur.(pos := q))
      case Err(e) => Err(e)
      case Ok((rows, c)) =>
        AdvancedStep(cur, q);
        AdvancedTrans(cur, cur.(pos := q), c);
        if Rectangular(rows) then
          TransposeTwice(rows);
          Ok((Transpose(rows), c))
        else Err(RaggedMatrix)
  }

  // ---------------------------------------------------------------------------
  // What each reader consumes from the token stream
  // ---------------------------------------------------------------------------

  /** `s` with every `x` removed. */
  function Without(x: string, s: seq<string>): seq<string>
    decreases |s|
  {
    if |s| == 0 then [] else (if s[0] == x then [] else [s[0]]) + Without(x, s[1..])
  }

  lemma {:induction false} WithoutAppend(x: string, a: seq<string>, b: seq<string>)
    ensures Without(x, a + b) == Without(x, a) + Without(x, b)
    decreases |a|
  {
    if |a| > 0 {
      assert (a + b)[1..] == a[1..] + b;
      WithoutAppend(x, a[1..], b);
    } else {
      assert a + b == b;
    }
  }

  /** The lexemes of a row, in order. */
  function Lexemes(row: seq<Float>): seq<string>
    decreases |row|
  {
    if |row| == 0 then [] else [row[0].lexeme] + Lexemes(row[1..])
  }

  /** The lexemes of all rows, row after row. */
  function RowsLexemes(rows: seq<seq<Float>>): seq<string>
    decreases |rows|
  {
    if |rows| == 0 then [] else Lexemes(rows[0]) + RowsLexemes(rows[1..])
  }

  lemma {:induction false} RowsLexemesAppend(a: seq<seq<Float>>, b: seq<seq<Float>>)
    ensures RowsLexemes(a + b) == RowsLexemes(a) + RowsLexemes(b)
    decreases |a|
  {
    if |a| > 0 {
      assert (a + b)[1..] == a[1..] + b;
      RowsLexemesAppend(a[1..], b);
    } else {
      assert a + b == b;
    }
  }

  /** The vector loop takes exactly the tokens before the first `]`, and the
      `]` itself, from the stream; it fails exactly when no `]` is left. */
  lemma {:induction false} VectorBodyConsumes(cur: Cursor)
    ensures VectorBody(cur).Ok? <==> "]" in Stream(cur)
    ensures VectorBody(cur).Ok? ==> Stream(cur) == VectorBody(cur).value.0 + ["]"] + Stream(VectorBody(cur).value.1)
    decreases |cur.rest|, Remaining(cur.line, cur.pos)
  {
    StreamStep(cur);
    var (t, q) := NextToken(cur.line, cur.pos);
    var r := VectorBody(cur);
    if t == Some("]") {
      assert r == Ok(([], cur.(pos := q)));
      assert Stream(cur) == ["]"] + Stream(cur.(pos := q));
    } else if t.None? {
      if |cur.rest| > 0 {
        var next := Pull(cur);
        VectorBodyConsumes(next);
        assert Stream(cur) == Stream(next);
        assert r == VectorBody(next);
      } else {
        assert Stream(cur) == [];
        assert r == Err(EofInVector);
      }
    } else {
      var next := cur.(pos := q);
      VectorBodyConsumes(next);
      var w := t.value;
      assert Stream(cur) == [w] + Stream(next);
      assert "]" in Stream(cur) <==> "]" in Stream(next);
      if r.Ok? {
        var (v, c) := VectorBody(next).value;
        assert r == Ok(([w] + v, c));
        ConsCloses(Stream(cur), w, Stream(next), v, Stream(c));
      }
    }
  }

  lemma ConsCloses(x: seq<string>, w: string, m: seq<string>, v: seq<string>, y: seq<string>)
    requires x == [w] + m && m == v + ["]"] + y
    ensures x == ([w] + v) + ["]"] + y
  {
  }

  /** `__read_vector` on a line whose next token is `[`: it succeeds exactly
      when a `]` follows somewhere, and then returns the tokens between the
      brackets, in order, leaving the cursor just after the `]`. */
  lemma ReadVectorConsumes(cur: Cursor)
    requires NextToken(cur.line, cur.pos).0 == Some("[")
    ensures Stream(cur) == ["["] + Stream(cur.(pos := NextToken(cur.line, cur.pos).1))
    ensures ReadVector(cur).Ok? <==> "]" in Stream(cur)[1..]
    ensures ReadVector(cur).Ok? ==>
              Stream(cur) == ["["] + ReadVector(cur).value.0 + ["]"] + Stream(ReadVector(cur).value.1)
  {
    var next := cur.(pos := NextToken(cur.line, cur.pos).1);
    TokenStep(cur);
    VectorBodyConsumes(next);
    assert ReadVector(cur) == VectorBody(next);
    if ReadVector(cur).Ok? {
      var (v, c) := ReadVector(cur).value;
      OpenBracketCons(Stream(cur), Stream(next), v, Stream(c));
    } else {
      OpenBracketCons(Stream(cur), Stream(next), [], []);
    }
  }

  lemma OpenBracketCons(s: seq<string>, n: seq<string>, v: seq<string>, y: seq<string>)
    requires s == ["["] + n
    ensures s[1..] == n
    ensures n == v + ["]"] + y ==> s == ["["] + v + ["]"] + y
  {
  }

  /** The first `]` splits a sequence in only one way. */
  lemma SplitAtFirst(x: string, a: seq<string>, b: seq<string>, c: seq<string>, d: seq<string>)
    requires x !in a && x !in c
    requires a + [x] + b == c + [x] + d
    ensures a == c && b == d
  {
    var s := a + [x] + b;
    assert forall i | 0 <= i < |a| :: s[i] == a[i];
    assert forall i | 0 <= i < |c| :: s[i] == c[i];
    assert s[|a|] == x && s[|c|] == x;
    assert a == s[..|a|] && c == s[..|c|];
    assert b == s[|a| + 1..] && d == s[|c| + 1..];
  }

  /** A bracketed sequence holds a `]` after its `[`, and the first one
      fixes the elements and what follows. */
  lemma BracketedSplit(s: seq<string>, elems: seq<string>, after: seq<string>, v: seq<string>, rest: seq<string>)
    requires s == ["["] + elems + ["]"] + after && "]" !in elems
    ensures "]" in s[1..]
    ensures s == ["["] + v + ["]"] + rest && "]" !in v ==> v == elems && rest == after
  {
    assert s[1..] == elems + ["]"] + after;
    assert s[1..][|elems|] == "]";
    if s == ["["] + v + ["]"] + rest && "]" !in v {
      assert s[1..] == v + ["]"] + rest;
      SplitAtFirst("]", v, rest, elems, after);
    }
  }

  /** A vector written as `[`, its elements and `]` reads back as those elements. */
  lemma ReadVectorReadsBack(cur: Cursor, elems: seq<string>, after: seq<string>)
    requires NextToken(cur.line, cur.pos).0.Some?
    requires Stream(cur) == ["["] + elems + ["]"] + after
    requires "]" !in elems
    ensures ReadVector(cur).Ok?
    ensures ReadVector(cur).value.0 == elems && Stream(ReadVector(cur).value.1) == after
  {
    var s := Stream(cur);
    StreamHead(cur);
    BracketedSplit(s, elems, after, [], []);
    ReadVectorConsumes(cur);
    var rv := ReadVector(cur);
    BracketedSplit(s, elems, after, rv.value.0, Stream(rv.value.1));
  }

  /** A row read from tokens `from` stopped with tokens `left` unread: its
      elements and its closing `]` (if any) are exactly the tokens it
      passed, `[` aside, and a row that ran off the line left nothing. */
  predicate RowTakes(from: seq<string>, left: seq<string>, row: seq<Float>, end: RowEnd) {
    && IsSuffix(left, from)
    && (end == Exhausted ==> left == [])
    && Without("[", from) == Lexemes(row) + (if end == Closed then ["]"] else []) + Without("[", left)
  }

  /** What a matrix row consumed from the tokens of its line. */
  ghost predicate RowConsumes(line: string, pos: nat, row: seq<Float>, end: RowEnd, p: nat) {
    RowTakes(LineTokens(line, pos), LineTokens(line, p), row, end)
  }

  /** A row token passes over at most one `[` before the token it returns. */
  lemma RowTokenStep(line: string, pos: nat)
    ensures var (t, p) := RowToken(line, pos);
      && IsSuffix(LineTokens(line, p), LineTokens(line, pos))
      && (t.None? ==> Without("[", LineTokens(line, pos)) == [] && LineTokens(line, p) == [])
      && (t.Some? ==> Without("[", LineTokens(line, pos)) == Without("[", [t.value]) + Without("[", LineTokens(line, p)))
  {
    var (t1, p1) := NextToken(line, pos);
    var from := if t1 == Some("[") then p1 else pos;
    var L, F := LineTokens(line, pos), LineTokens(line, from);
    assert IsSuffix(F, L) && Without("[", L) == Without("[", F) by {
      LineTokensStep(line, pos);
      if t1 == Some("[") {
        SuffixCons("[", F);
        WithoutAppend("[", ["["], F);
      }
    }
    var (t, p) := RowToken(line, pos);
    assert (t, p) == NextToken(line, from);
    var P := LineTokens(line, p);
    LineTokensStep(line, from);
    if t.Some? {
      SuffixCons(t.value, P);
      SuffixTrans(P, F, L);
      WithoutAppend("[", [t.value], P);
    }
  }

  /** Putting one more element in front of a row that consumed the rest. */
  lemma ExtendRow(wa: seq<string>, wb: seq<string>, wc: seq<string>, f: Float, row: seq<Float>, close: seq<string>)
    requires wa == [f.lexeme] + wb
    requires wb == Lexemes(row) + close + wc
    ensures wa == Lexemes([f] + row) + close + wc
  {
    var lr := Lexemes(row);
    assert Lexemes([f] + row) == [f.lexeme] + lr by {
      assert ([f] + row)[1..] == row;
    }
    assert [f.lexeme] + (lr + close + wc) == ([f.lexeme] + lr) + close + wc;
  }

  /** An element token and the whitespace after it, as the line's tokens see them. */
  lemma ElementStep(line: string, pos: nat)
    requires RowToken(line, pos).0.Some? && FloatLit(RowToken(line, pos).0.value)
    ensures var (t, p) := RowToken(line, pos);
      var p2 := CheckForNewline(line, p).1;
      && IsSuffix(LineTokens(line, p2), LineTokens(line, pos))
      && Without("[", LineTokens(line, pos)) == [t.value] + Without("[", LineTokens(line, p2))
  {
    var (t, p) := RowToken(line, pos);
    var p2 := CheckForNewline(line, p).1;
    RowTokenStep(line, pos);
    LineTokensAfterSpace(line, p, p2);
    BracketsAreNotNumbers();
    WithoutOther("[", t.value);
  }

  lemma WithoutOther(x: string, w: string)
    requires w != x
    ensures Without(x, [w]) == [w]
  {
    assert [w][1..] == [];
  }

  /** The row's element followed by the rest of the row read on the same line. */
  lemma RowConsumesStep(line: string, pos: nat)
    requires MatrixRow(line, pos).Ok?
    requires RowToken(line, pos).0.Some? && RowToken(line, pos).0.value != "]"
    requires !CheckForNewline(line, RowToken(line, pos).1).0
    requires var p2 := CheckForNewline(line, RowToken(line, pos).1).1;
      MatrixRow(line, p2).Ok? ==>
        RowConsumes(line, p2, MatrixRow(line, p2).value.0, MatrixRow(line, p2).value.1, MatrixRow(line, p2).value.2)
    ensures RowConsumes(line, pos, MatrixRow(line, pos).value.0, MatrixRow(line, pos).value.1, MatrixRow(line, pos).value.2)
  {
    var (t, p) := RowToken(line, pos);
    var f := Float(t.value);
    var p2 := CheckForNewline(line, p).1;
    var (row, end, p3) := MatrixRow(line, p2).value;
    assert MatrixRow(line, pos).value == ([f] + row, end, p3);
    assert ParseFloat(t.value).Some?;
    ElementStep(line, pos);
    ExtendRowTakes(LineTokens(line, pos), LineTokens(line, p2), LineTokens(line, p3), f, row, end);
  }

  /** An element read in front of a row that took the rest. */
  lemma ExtendRowTakes(from: seq<string>, mid: seq<string>, left: seq<string>, f: Float, row: seq<Float>, end: RowEnd)
    requires IsSuffix(mid, from) && Without("[", from) == [f.lexeme] + Without("[", mid)
    requires RowTakes(mid, left, row, end)
    ensures RowTakes(from, left, [f] + row, end)
  {
    SuffixTrans(left, mid, from);
    ExtendRow(Without("[", from), Without("[", mid), Without("[", left), f, row, if end == Closed then ["]"] else []);
  }

  /** A row that ends at a line break after its single element. */
  lemma RowConsumesLast(line: string, pos: nat)
    requires MatrixRow(line, pos).Ok?
    requires RowToken(line, pos).0.Some? && RowToken(line, pos).0.value != "]"
    requires CheckForNewline(line, RowToken(line, pos).1).0
    ensures RowConsumes(line, pos, MatrixRow(line, pos).value.0, MatrixRow(line, pos).value.1, MatrixRow(line, pos).value.2)
  {
    var (t, p) := RowToken(line, pos);
    var p2 := CheckForNewline(line, p).1;
    assert MatrixRow(line, pos).value == ([Float(t.value)], Newline, p2);
    assert ParseFloat(t.value).Some?;
    ElementStep(line, pos);
    SingleRowTakes(LineTokens(line, pos), LineTokens(line, p2), Float(t.value));
  }

  lemma SingleRowTakes(from: seq<string>, left: seq<string>, f: Float)
    requires IsSuffix(left, from) && Without("[", from) == [f.lexeme] + Without("[", left)
    ensures RowTakes(from, left, [f], Newline)
  {
    assert Lexemes([f]) == [f.lexeme] by {
      assert [f][1..] == [];
    }
  }

  /** A row that ends at the end of the line. */
  lemma RowConsumesExhausted(line: string, pos: nat)
    requires RowToken(line, pos).0.None?
    ensures MatrixRow(line, pos) == Ok(([], Exhausted, RowToken(line, pos).1))
    ensures RowConsumes(line, pos, [], Exhausted, RowToken(line, pos).1)
  {
    var L, P := LineTokens(line, pos), LineTokens(line, RowToken(line, pos).1);
    assert IsSuffix(P, L) && Without("[", L) == [] && P == [] by {
      RowTokenStep(line, pos);
    }
    EmptyRowTakes(L, P);
  }

  lemma EmptyRowTakes(from: seq<string>, left: seq<string>)
    requires IsSuffix(left, from) && Without("[", from) == [] && left == []
    ensures RowTakes(from, left, [], Exhausted)
  {
    assert Lexemes([]) == [] && Without("[", left) == [];
  }

  /** A row that ends at `]`. */
  lemma RowConsumesClosed(line: string, pos: nat)
    requires RowToken(line, pos).0 == Some("]")
    ensures MatrixRow(line, pos) == Ok(([], Closed, RowToken(line, pos).1))
    ensures RowConsumes(line, pos, [], Closed, RowToken(line, pos).1)
  {
    var L, P := LineTokens(line, pos), LineTokens(line, RowToken(line, pos).1);
    assert IsSuffix(P, L) && Without("[", L) == Without("[", ["]"]) + Without("[", P) by {
      RowTokenStep(line, pos);
    }
    ClosedRowTakes(L, P);
  }

  lemma ClosedRowTakes(from: seq<string>, left: seq<string>)
    requires IsSuffix(left, from) && Without("[", from) == Without("[", ["]"]) + Without("[", left)
    ensures RowTakes(from, left, [], Closed)
  {
    var wl := Without("[", left);
    assert Without("[", from) == ["]"] + wl by {
      WithoutOther("[", "]");
    }
    assert Lexemes([]) + ["]"] + wl == ["]"] + wl by {
      assert Lexemes([]) == [];
    }
  }

  /** A matrix row takes its elements and possibly the closing `]` from the
      line's tokens; the only other tokens it passes over are `[`. */
  lemma {:induction false} MatrixRowConsumes(line: string, pos: nat)
    ensures MatrixRow(line, pos).Ok? ==>
              RowConsumes(line, pos, MatrixRow(line, pos).value.0, MatrixRow(line, pos).value.1, MatrixRow(line, pos).value.2)
    decreases Remaining(line, pos)
  {
    var (t, p) := RowToken(line, pos);
    if MatrixRow(line, pos).Ok? {
      if t.None? {
        RowConsumesExhausted(line, pos);
      } else if t.value == "]" {
        RowConsumesClosed(line, pos);
      } else if CheckForNewline(line, p).0 {
        RowConsumesLast(line, pos);
      } else {
        MatrixRowConsumes(line, CheckForNewline(line, p).1);
        RowConsumesStep(line, pos);
      }
    }
  }

  /** What the matrix rows consumed from the stream. */
  ghost predicate RowsConsume(cur: Cursor, rows: seq<seq<Float>>, c: Cursor) {
    && IsSuffix(Stream(c), Stream(cur))
    && Without("[", Stream(cur)) == RowsLexemes(rows) + ["]"] + Without("[", Stream(c))
  }

  /** A dropped empty row contributes no lexemes. */
  lemma KeptRow(row: seq<Float>)
    ensures RowsLexemes(Kept(row)) == Lexemes(row)
  {
    if |row| > 0 {
      assert [row][1..] == [];
    }
  }

  /** Gluing the lexemes of one row to those of the rows after it. */
  lemma {:induction false} GlueRows(lt: seq<string>, lt': seq<string>, rt: seq<string>, sc: seq<string>,
                 lex: seq<string>, restLex: seq<string>)
    requires Without("[", lt) == lex + Without("[", lt')
    requires Without("[", lt' + rt) == restLex + ["]"] + Without("[", sc)
    ensures Without("[", lt + rt) == lex + restLex + ["]"] + Without("[", sc)
  {
    WithoutAppend("[", lt, rt);
    WithoutAppend("[", lt', rt);
    Regather(Without("[", lt), Without("[", lt'), Without("[", rt), lex, restLex, Without("[", sc));
  }

  lemma Regather(a: seq<string>, b: seq<string>, c: seq<string>, head: seq<string>, mid: seq<string>, tail: seq<string>)
    requires a == head + b && b + c == mid + ["]"] + tail
    ensures a + c == head + mid + ["]"] + tail
  {
    assert (head + b) + c == head + (b + c);
  }

  lemma {:induction false} GlueClosed(lt: seq<string>, lt': seq<string>, rt: seq<string>, lex: seq<string>)
    requires Without("[", lt) == lex + ["]"] + Without("[", lt')
    ensures Without("[", lt + rt) == lex + ["]"] + Without("[", lt' + rt)
  {
    WithoutAppend("[", lt, rt);
    WithoutAppend("[", lt', rt);
  }

  /** The matrix ends with the `]` that closes the current row. */
  lemma {:induction false} RowsConsumeClosed(cur: Cursor)
    requires MatrixRows(cur).Ok? && MatrixRow(cur.line, cur.pos).Ok?
    requires MatrixRow(cur.line, cur.pos).value.1 == Closed
    ensures RowsConsume(cur, MatrixRows(cur).value.0, MatrixRows(cur).value.1)
  {
    var (row, end, p) := MatrixRow(cur.line, cur.pos).value;
    assert MatrixRows(cur).value == (Kept(row), cur.(pos := p));
    MatrixRowConsumes(cur.line, cur.pos);
    KeptRow(row);
    var lt, lt', rt := LineTokens(cur.line, cur.pos), LineTokens(cur.line, p), RestTokens(cur.rest);
    assert Stream(cur.(pos := p)) == lt' + rt;
    GlueClosed(lt, lt', rt, Lexemes(row));
    SuffixExtend(lt', lt, rt);
  }

  /** The matrix goes on after the current row, in the same line or the next. */
  lemma {:induction false} RowsConsumeGoesOn(cur: Cursor, next: Cursor)
    requires MatrixRows(cur).Ok? && MatrixRow(cur.line, cur.pos).Ok?
    requires var (_, end, p) := MatrixRow(cur.line, cur.pos).value;
      || (end == Newline && next == cur.(pos := p))
      || (end == Exhausted && |cur.rest| > 0 && next == Pull(cur))
    requires MatrixRows(next).Ok? ==> RowsConsume(next, MatrixRows(next).value.0, MatrixRows(next).value.1)
    ensures RowsConsume(cur, MatrixRows(cur).value.0, MatrixRows(cur).value.1)
  {
    var (row, end, p) := MatrixRow(cur.line, cur.pos).value;
    var here := Kept(row);
    var (rows, c) := MatrixRows(next).value;
    assert MatrixRows(next).Ok? && MatrixRows(cur).value == (here + rows, c);
    MatrixRowConsumes(cur.line, cur.pos);
    var lt, lt', rt := LineTokens(cur.line, cur.pos), LineTokens(cur.line, p), RestTokens(cur.rest);
    assert Stream(next) == lt' + rt;
    KeptRow(row);
    RowsLexemesAppend(here, rows);
    GlueRows(lt, lt', rt, Stream(c), Lexemes(row), RowsLexemes(rows));
    SuffixExtend(lt', lt, rt);
    SuffixTrans(Stream(c), lt' + rt, lt + rt);
  }

  /** The matrix rows take their elements and the closing `]` from the
      stream; apart from them only `[` tokens are passed over. */
  lemma {:induction false} MatrixRowsConsumes(cur: Cursor)
    ensures MatrixRows(cur).Ok? ==> RowsConsume(cur, MatrixRows(cur).value.0, MatrixRows(cur).value.1)
    decreases |cur.rest|, Remaining(cur.line, cur.pos)
  {
    if MatrixRows(cur).Ok? {
      var (row, end, p) := MatrixRow(cur.line, cur.pos).value;
      match end
      case Closed =>
        RowsConsumeClosed(cur);
      case Exhausted =>
        MatrixRowsConsumes(Pull(cur));
        RowsConsumeGoesOn(cur, Pull(cur));
      case Newline =>
        MatrixRowsConsumes(cur.(pos := p));
        RowsConsumeGoesOn(cur, cur.(pos := p));
    }
  }

  /** `_read_matrix_trans` consumes `[`, the elements of the transpose of its
      result read back row by row, and the closing `]`; only further `[`
      tokens are passed over. */
  lemma ReadMatrixConsumes(cur: Cursor)
    ensures ReadMatrixTrans(cur).Ok? ==> var (m, c) := ReadMatrixTrans(cur).value;
      && IsSuffix(Stream(c), Stream(cur))
      && Without("[", Stream(cur)) == RowsLexemes(Transpose(m)) + ["]"] + Without("[", Stream(c))
  {
    if ReadMatrixTrans(cur).Ok? {
      var (t, q) := NextToken(cur.line, cur.pos);
      StreamStep(cur);
      var inner := cur.(pos := q);
      MatrixRowsConsumes(inner);
      WithoutAppend("[", ["["], Stream(inner));
      SuffixCons("[", Stream(inner));
      var (m, c) := ReadMatrixTrans(cur).value;
      SuffixTrans(Stream(c), Stream(inner), Stream(cur));
    }
  }
}
