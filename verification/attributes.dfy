/** `Component.read_attributes` of converter/component.py: the tag loop
    driven by the component's attribute table, the batch-norm adjustment,
    lifting `dim` out of the attributes, and promoting the parameter
    arrays to named constants that become extra inputs. */
module Attributes {
  import opened Results
  import opened Text
  import opened Tokenizer
  import opened Readers
  import opened Components
  import opened MatrixText

  // ---------------------------------------------------------------------------
  // The tag loop
  // ---------------------------------------------------------------------------

  /** The `while True` loop of `read_attributes`. A terminating token ends
      it; a used-up line pulls the next one (running out of lines is
      fatal); a tag of the table runs its reader and stores the value under
      the table's key; any other token is passed over. */
  function AttrLoop(table: map<string, Action>, terms: set<string>, attrs: map<string, Value>, cur: Cursor)
    : (r: Result<(map<string, Value>, Cursor)>)
    ensures r.Ok? ==> forall k | k in attrs && k !in TableKeys(table) :: k in r.value.0 && r.value.0[k] == attrs[k]
    ensures r.Ok? ==> forall k | k in r.value.0 :: k in attrs || k in TableKeys(table)
    decreases |cur.rest|, Remaining(cur.line, cur.pos)
  {
    var (t, q) := NextToken(cur.line, cur.pos);
    if t.Some? && t.value in terms then Ok((attrs, cur.(pos := q)))
    else if t.None? then
      if |cur.rest| == 0 then Err(EofInAttributes)
      else AttrLoop(table, terms, attrs, Pull(cur))
    else if t.value in table then
      var (v, c) :- RunReader(table[t.value].reader, cur.(pos := q));
      AttrLoop(table, terms, attrs[table[t.value].key := v], c)
    else AttrLoop(table, terms, attrs, cur.(pos := q))
  }

  /** One round of the loop, case by case. */
  lemma AttrLoopUnfold(table: map<string, Action>, terms: set<string>, attrs: map<string, Value>, cur: Cursor)
    ensures var (t, q) := NextToken(cur.line, cur.pos);
      var r := AttrLoop(table, terms, attrs, cur);
      && (t.Some? && t.value in terms ==> r == Ok((attrs, cur.(pos := q))))
      && (t.None? && |cur.rest| == 0 ==> r == Err(EofInAttributes))
      && (t.None? && |cur.rest| > 0 ==> r == AttrLoop(table, terms, attrs, Pull(cur)))
      && (t.Some? && t.value !in terms && t.value in table ==>
            var rr := RunReader(table[t.value].reader, cur.(pos := q));
            && (rr.Err? ==> r == Err(rr.error))
            && (rr.Ok? ==> r == AttrLoop(table, terms, attrs[table[t.value].key := rr.value.0], rr.value.1)))
      && (t.Some? && t.value !in terms && t.value !in table ==> r == AttrLoop(table, terms, attrs, cur.(pos := q)))
  {
  }

  /** A table tag whose reader succeeds: the loop stores the value under
      the tag's key and goes on from where the reader stopped. */
  lemma AttrLoopStores(table: map<string, Action>, terms: set<string>, attrs: map<string, Value>,
                       line: string, pos: nat, rest: seq<string>, t: string, q: nat, v: Value, c: Cursor)
    requires NextToken(line, pos) == (Some(t), q) && t !in terms && t in table
    requires RunReader(table[t].reader, Cursor(line, q, rest)) == Ok((v, c))
    ensures AttrLoop(table, terms, attrs, Cursor(line, pos, rest)) == AttrLoop(table, terms, attrs[table[t].key := v], c)
  {
    AttrLoopUnfold(table, terms, attrs, Cursor(line, pos, rest));
  }

  /** A table tag bound to the float-vector reader, then (on the tag's
      line) `[`, float literals and `]`: the loop stores the vector under
      the tag's key and goes on from a cursor whose stream is what follows
      the `]`. */
  lemma AttrLoopStoresVector(table: map<string, Action>, terms: set<string>, attrs: map<string, Value>,
                             cur: Cursor, t: string, q: nat, elems: seq<string>, after: seq<string>)
    requires NextToken(cur.line, cur.pos) == (Some(t), q) && NextToken(cur.line, q).0.Some?
    requires t !in terms && t in table && table[t].reader == FloatVecReader
    requires Stream(cur) == [t, "["] + elems + ["]"] + after
    requires "]" !in elems && forall i | 0 <= i < |elems| :: FloatLit(elems[i])
    ensures ParseFloats(elems).Ok?
    ensures exists c: Cursor :: (Stream(c) == after
      && AttrLoop(table, terms, attrs, cur) == AttrLoop(table, terms, attrs[table[t].key := FloatVec(ParseFloats(elems).value)], c))
  {
    var c := FloatVectorAfterTag(cur, t, q, elems, after);
    AttrLoopStores(table, terms, attrs, cur.line, cur.pos, cur.rest, t, q, FloatVec(ParseFloats(elems).value), c);
  }

  /** After a tag, `[`, float literals and `]` read as that float vector. */
  lemma FloatVectorAfterTag(cur: Cursor, t: string, q: nat, elems: seq<string>, after: seq<string>) returns (c: Cursor)
    requires NextToken(cur.line, cur.pos) == (Some(t), q) && NextToken(cur.line, q).0.Some?
    requires Stream(cur) == [t, "["] + elems + ["]"] + after
    requires "]" !in elems && forall i | 0 <= i < |elems| :: FloatLit(elems[i])
    ensures ParseFloats(elems).Ok?
    ensures RunReader(FloatVecReader, cur.(pos := q)) == Ok((FloatVec(ParseFloats(elems).value), c)) && Stream(c) == after
  {
    var next := cur.(pos := q);
    StreamHead(cur);
    TagDropped(t, elems, after);
    c := FloatVectorReadsBack(next, elems, after);
  }

  lemma TagDropped(t: string, elems: seq<string>, after: seq<string>)
    ensures ([t, "["] + elems + ["]"] + after)[1..] == ["["] + elems + ["]"] + after
  {
    var s := [t, "["] + elems + ["]"] + after;
    assert s == [t] + (["["] + elems + ["]"] + after);
  }

  /** `[`, float literals and `]` read as that float vector. */
  lemma FloatVectorReadsBack(cur: Cursor, elems: seq<string>, after: seq<string>) returns (c: Cursor)
    requires NextToken(cur.line, cur.pos).0.Some?
    requires Stream(cur) == ["["] + elems + ["]"] + after
    requires "]" !in elems && forall i | 0 <= i < |elems| :: FloatLit(elems[i])
    ensures ParseFloats(elems).Ok?
    ensures RunReader(FloatVecReader, cur) == Ok((FloatVec(ParseFloats(elems).value), c)) && Stream(c) == after
  {
    ReadVectorReadsBack(cur, elems, after);
    c := ReadVector(cur).value.1;
  }

  /** A table tag bound to the matrix reader, then a matrix as Kaldi
      prints it: the loop stores the transposed rows under the tag's key and
      goes on just after the closing `]`. */
  lemma AttrLoopStoresMatrix(table: map<string, Action>, terms: set<string>, attrs: map<string, Value>,
                             line: string, pos: nat, t: string, q: nat, gap: string, blank: string,
                             rows: seq<seq<string>>, after: seq<string>)
    requires NextToken(line, pos) == (Some(t), q) && t !in terms && t in table && table[t].reader == MatrixReader
    requires q <= |line| && line[q..] == gap + "[" + blank && Blank(gap) && Blank(blank)
    requires |rows| > 0 && NumberRows(rows) && Rectangular(rows)
    ensures var last := LastRowLine(rows[|rows| - 1]);
      AttrLoop(table, terms, attrs, Cursor(line, pos, MatrixLines(rows) + after))
        == AttrLoop(table, terms, attrs[table[t].key := Matrix(Transpose(ElementRows(rows)))], Cursor(last, |last| - 1, after))
  {
    var last := LastRowLine(rows[|rows| - 1]);
    MatrixReaderReadsBack(table, t, line, q, gap, blank, rows, after);
    AttrLoopStores(table, terms, attrs, line, pos, MatrixLines(rows) + after, t, q,
                   Matrix(Transpose(ElementRows(rows))), Cursor(last, |last| - 1, after));
  }

  /** The matrix reader of a table tag, run where the rest of the line is
      whitespace, `[` and whitespace and the matrix's row lines follow,
      returns the transposed rows. */
  lemma MatrixReaderReadsBack(table: map<string, Action>, t: string, line: string, q: nat, gap: string, blank: string,
                              rows: seq<seq<string>>, after: seq<string>)
    requires t in table && table[t].reader == MatrixReader
    requires q <= |line| && line[q..] == gap + "[" + blank && Blank(gap) && Blank(blank)
    requires |rows| > 0 && NumberRows(rows) && Rectangular(rows)
    ensures var last := LastRowLine(rows[|rows| - 1]);
      RunReader(table[t].reader, Cursor(line, q, MatrixLines(rows) + after))
        == Ok((Matrix(Transpose(ElementRows(rows))), Cursor(last, |last| - 1, after)))
  {
    assert line == line[..q] + gap + "[" + blank;
    ReadMatrixReadsBack(line[..q], gap, blank, rows, after);
  }

  /** Reading from `cur` stopped at `c` just after the token `t`. */
  ghost predicate StopsAfter(cur: Cursor, c: Cursor, t: string) {
    Advanced(cur, c) && IsSuffix([t] + Stream(c), Stream(cur))
  }

  /** Stopping after `t` from `mid` is stopping after `t` from any earlier cursor. */
  lemma StopsAfterFrom(cur: Cursor, mid: Cursor, c: Cursor, t: string)
    requires Advanced(cur, mid) && IsSuffix(Stream(mid), Stream(cur))
    requires StopsAfter(mid, c, t)
    ensures StopsAfter(cur, c, t)
  {
    AdvancedTrans(cur, mid, c);
    SuffixTrans([t] + Stream(c), Stream(mid), Stream(cur));
  }

  /** The loop only moves forward, and the last token it consumed is a
      terminating token. */
  lemma {:induction false} AttrLoopEndsAtTerminator(table: map<string, Action>, terms: set<string>,
                                                    attrs: map<string, Value>, cur: Cursor)
    returns (t: string)
    requires AttrLoop(table, terms, attrs, cur).Ok?
    ensures t in terms && StopsAfter(cur, AttrLoop(table, terms, attrs, cur).value.1, t)
    decreases |cur.rest|, Remaining(cur.line, cur.pos)
  {
    var (tok, q) := NextToken(cur.line, cur.pos);
    AttrLoopUnfold(table, terms, attrs, cur);
    if tok.None? {
      t := AttrLoopEndsAtTerminator(table, terms, attrs, Pull(cur));
      StopsAfterPull(table, terms, attrs, cur, t);
    } else if tok.value in terms {
      t := tok.value;
      TokenStep(cur);
    } else if tok.value in table {
      var (v, c1) := RunReader(table[tok.value].reader, cur.(pos := q)).value;
      ReadPastToken(cur, q, c1);
      t := AttrLoopEndsAtTerminator(table, terms, attrs[table[tok.value].key := v], c1);
      StopsAfterRead(table, terms, attrs, cur, t);
    } else {
      t := AttrLoopEndsAtTerminator(table, terms, attrs, cur.(pos := q));
      StopsAfterSkip(table, terms, attrs, cur, t);
    }
  }

  lemma StopsAfterPull(table: map<string, Action>, terms: set<string>, attrs: map<string, Value>, cur: Cursor, t: string)
    requires NextToken(cur.line, cur.pos).0.None? && |cur.rest| > 0
    requires AttrLoop(table, terms, attrs, Pull(cur)).Ok?
    requires StopsAfter(Pull(cur), AttrLoop(table, terms, attrs, Pull(cur)).value.1, t)
    ensures AttrLoop(table, terms, attrs, cur) == AttrLoop(table, terms, attrs, Pull(cur))
    ensures StopsAfter(cur, AttrLoop(table, terms, attrs, cur).value.1, t)
  {
    AttrLoopUnfold(table, terms, attrs, cur);
    PullStep(cur);
    StopsAfterFrom(cur, Pull(cur), AttrLoop(table, terms, attrs, cur).value.1, t);
  }

  lemma StopsAfterSkip(table: map<string, Action>, terms: set<string>, attrs: map<string, Value>, cur: Cursor, t: string)
    requires var (tok, q) := NextToken(cur.line, cur.pos);
      && tok.Some? && tok.value !in terms && tok.value !in table
      && AttrLoop(table, terms, attrs, cur.(pos := q)).Ok?
      && StopsAfter(cur.(pos := q), AttrLoop(table, terms, attrs, cur.(pos := q)).value.1, t)
    ensures AttrLoop(table, terms, attrs, cur).Ok?
    ensures StopsAfter(cur, AttrLoop(table, terms, attrs, cur).value.1, t)
  {
    var (tok, q) := NextToken(cur.line, cur.pos);
    AttrLoopUnfold(table, terms, attrs, cur);
    TokenStep(cur);
    StopsAfterFrom(cur, cur.(pos := q), AttrLoop(table, terms, attrs, cur).value.1, t);
  }

  lemma StopsAfterRead(table: map<string, Action>, terms: set<string>, attrs: map<string, Value>, cur: Cursor, t: string)
    requires var (tok, q) := NextToken(cur.line, cur.pos);
      && tok.Some? && tok.value !in terms && tok.value in table
      && var rr := RunReader(table[tok.value].reader, cur.(pos := q));
      && rr.Ok?
      && var next := AttrLoop(table, terms, attrs[table[tok.value].key := rr.value.0], rr.value.1);
      && next.Ok?
      && StopsAfter(rr.value.1, next.value.1, t)
    ensures AttrLoop(table, terms, attrs, cur).Ok?
    ensures StopsAfter(cur, AttrLoop(table, terms, attrs, cur).value.1, t)
  {
    var (tok, q) := NextToken(cur.line, cur.pos);
    var start := cur.(pos := q);
    var reader := table[tok.value].reader;
    var c1 := RunReader(reader, start).value.1;
    AttrLoopUnfold(table, terms, attrs, cur);
    TokenStep(cur);
    ReaderConsumes(reader, start);
    SuffixTrans(Stream(c1), Stream(start), Stream(cur));
    AdvancedTrans(cur, start, c1);
    StopsAfterFrom(cur, c1, AttrLoop(table, terms, attrs, cur).value.1, t);
  }

  /** Whatever is read after a token lies strictly ahead of where the
      token started. */
  lemma ReadPastToken(cur: Cursor, q: nat, c: Cursor)
    requires cur.pos < q <= |cur.line|
    requires Advanced(cur.(pos := q), c)
    ensures |c.rest| < |cur.rest|
         || (|c.rest| == |cur.rest| && Remaining(c.line, c.pos) < Remaining(cur.line, cur.pos))
  {
  }

  /** A reader takes a suffix of the stream away. */
  lemma ReaderConsumes(reader: Reader, cur: Cursor)
    requires RunReader(reader, cur).Ok?
    ensures IsSuffix(Stream(RunReader(reader, cur).value.1), Stream(cur))
  {
    var (t, q) := NextToken(cur.line, cur.pos);
    StreamStep(cur);
    match reader
    case IntReader =>
      SuffixCons(t.value, Stream(cur.(pos := q)));
    case FloatReader =>
      SuffixCons(t.value, Stream(cur.(pos := q)));
    case IntVecReader =>
      ReadVectorConsumes(cur);
    case FloatVecReader =>
      ReadVectorConsumes(cur);
    case MatrixReader =>
      ReadMatrixConsumes(cur);
  }

  /** Tokens that are neither terminating tokens nor tags of the table are
      passed over without touching the attributes: with only such tokens
      before the first terminating token, the loop returns the attributes
      unchanged and stops right after that terminating token. */
  lemma {:induction false} AttrLoopSkipsUnknown(table: map<string, Action>, terms: set<string>,
                                                attrs: map<string, Value>, cur: Cursor,
                                                junk: seq<string>, term: string, after: seq<string>)
    requires Stream(cur) == junk + [term] + after
    requires term in terms
    requires forall x | x in junk :: x !in terms && x !in table
    ensures AttrLoop(table, terms, attrs, cur).Ok? && AttrLoop(table, terms, attrs, cur).value.0 == attrs
    ensures Stream(AttrLoop(table, terms, attrs, cur).value.1) == after
    decreases |cur.rest|, Remaining(cur.line, cur.pos)
  {
    var (t, q) := NextToken(cur.line, cur.pos);
    AttrLoopUnfold(table, terms, attrs, cur);
    if t.Some? {
      var next := cur.(pos := q);
      TokenStep(cur);
      JunkStep(Stream(cur), Stream(next), t.value, junk, term, after);
      if |junk| > 0 {
        AttrLoopSkipsUnknown(table, terms, attrs, next, junk[1..], term, after);
      }
    } else {
      EmptyStreamHasNoTerm(cur, junk, term, after);
      PullStep(cur);
      AttrLoopSkipsUnknown(table, terms, attrs, Pull(cur), junk, term, after);
    }
  }

  /** The head of `junk + [term] + after`, and what follows it. */
  lemma JunkStep(s: seq<string>, n: seq<string>, x: string, junk: seq<string>, term: string, after: seq<string>)
    requires s == [x] + n && s == junk + [term] + after
    ensures |junk| == 0 ==> x == term && n == after
    ensures |junk| > 0 ==> x in junk && n == junk[1..] + [term] + after
    ensures |junk| > 0 ==> forall y | y in junk[1..] :: y in junk
  {
    if |junk| > 0 {
      assert s[0] == junk[0];
      assert s[1..] == junk[1..] + [term] + after;
      assert forall y | y in junk[1..] :: y in junk by {
        assert forall k | 0 <= k < |junk| - 1 :: junk[1..][k] == junk[k + 1];
      }
    } else {
      assert s == [term] + after;
    }
  }

  lemma EmptyStreamHasNoTerm(cur: Cursor, junk: seq<string>, term: string, after: seq<string>)
    requires Stream(cur) == junk + [term] + after
    ensures NextToken(cur.line, cur.pos).0.None? ==> |cur.rest| > 0
  {
    StreamStep(cur);
  }

  /** With no terminating token and no tag of the table ahead, the loop
      runs out of lines. */
  lemma {:induction false} AttrLoopRunsOut(table: map<string, Action>, terms: set<string>,
                                           attrs: map<string, Value>, cur: Cursor)
    requires forall x | x in Stream(cur) :: x !in terms && x !in table
    ensures AttrLoop(table, terms, attrs, cur) == Err(EofInAttributes)
    decreases |cur.rest|, Remaining(cur.line, cur.pos)
  {
    var (t, q) := NextToken(cur.line, cur.pos);
    AttrLoopUnfold(table, terms, attrs, cur);
    if t.Some? {
      var next := cur.(pos := q);
      TokenStep(cur);
      ConsMembers(Stream(cur), Stream(next), t.value);
      AttrLoopRunsOut(table, terms, attrs, next);
    } else if |cur.rest| > 0 {
      PullStep(cur);
      AttrLoopRunsOut(table, terms, attrs, Pull(cur));
    }
  }

  lemma ConsMembers(s: seq<string>, n: seq<string>, x: string)
    requires s == [x] + n
    ensures x in s && forall y | y in n :: y in s
  {
  }

  // ---------------------------------------------------------------------------
  // Last write wins
  // ---------------------------------------------------------------------------

  /** The stores the loop makes, in order, and where it stops. */
  function Writes(table: map<string, Action>, terms: set<string>, cur: Cursor)
    : (r: Result<(seq<(string, Value)>, Cursor)>)
    ensures r.Ok? ==> forall i | 0 <= i < |r.value.0| :: r.value.0[i].0 in TableKeys(table)
    decreases |cur.rest|, Remaining(cur.line, cur.pos)
  {
    var (t, q) := NextToken(cur.line, cur.pos);
    if t.Some? && t.value in terms then Ok(([], cur.(pos := q)))
    else if t.None? then
      if |cur.rest| == 0 then Err(EofInAttributes)
      else Writes(table, terms, Pull(cur))
    else if t.value in table then
      var (v, c) :- RunReader(table[t.value].reader, cur.(pos := q));
      var (ws, c') :- Writes(table, terms, c);
      Ok(([(table[t.value].key, v)] + ws, c'))
    else Writes(table, terms, cur.(pos := q))
  }

  /** One round of `Writes`, case by case. */
  lemma WritesUnfold(table: map<string, Action>, terms: set<string>, cur: Cursor)
    ensures var (t, q) := NextToken(cur.line, cur.pos);
      var r := Writes(table, terms, cur);
      && (t.Some? && t.value in terms ==> r == Ok(([], cur.(pos := q))))
      && (t.None? && |cur.rest| == 0 ==> r == Err(EofInAttributes))
      && (t.None? && |cur.rest| > 0 ==> r == Writes(table, terms, Pull(cur)))
      && (t.Some? && t.value !in terms && t.value in table ==>
            var rr := RunReader(table[t.value].reader, cur.(pos := q));
            && (rr.Err? ==> r == Err(rr.error))
            && (rr.Ok? ==>
                  var w := Writes(table, terms, rr.value.1);
                  && (w.Err? ==> r == Err(w.error))
                  && (w.Ok? ==> r == Ok(([(table[t.value].key, rr.value.0)] + w.value.0, w.value.1)))))
      && (t.Some? && t.value !in terms && t.value !in table ==> r == Writes(table, terms, cur.(pos := q)))
  {
  }

  /** Store a sequence of writes into a map, first to last. */
  function Apply(m: map<string, Value>, ws: seq<(string, Value)>): map<string, Value>
    decreases |ws|
  {
    if |ws| == 0 then m else Apply(m[ws[0].0 := ws[0].1], ws[1..])
  }

  /** The value of the last write to `k`, if any. */
  function LastWrite(ws: seq<(string, Value)>, k: string): (r: Option<Value>)
    ensures r.Some? <==> exists i | 0 <= i < |ws| :: ws[i].0 == k
    decreases |ws|
  {
    if |ws| == 0 then None
    else if ws[|ws| - 1].0 == k then Some(ws[|ws| - 1].1)
    else LastWrite(ws[..|ws| - 1], k)
  }

  lemma {:induction false} ApplySnoc(m: map<string, Value>, ws: seq<(string, Value)>, w: (string, Value))
    ensures Apply(m, ws + [w]) == Apply(m, ws)[w.0 := w.1]
    decreases |ws|
  {
    if |ws| == 0 {
      assert ws + [w] == [w];
    } else {
      assert (ws + [w])[1..] == ws[1..] + [w];
      ApplySnoc(m[ws[0].0 := ws[0].1], ws[1..], w);
    }
  }

  /** After the writes, a key holds the value of its last write, or its
      old value when it was never written. */
  lemma {:induction false} ApplyLastWins(m: map<string, Value>, ws: seq<(string, Value)>, k: string)
    ensures LastWrite(ws, k).Some? ==> k in Apply(m, ws) && Apply(m, ws)[k] == LastWrite(ws, k).value
    ensures LastWrite(ws, k).None? ==> (k in Apply(m, ws) <==> k in m)
    ensures LastWrite(ws, k).None? && k in m ==> Apply(m, ws)[k] == m[k]
    decreases |ws|
  {
    if |ws| > 0 {
      var init, w := ws[..|ws| - 1], ws[|ws| - 1];
      assert ws == init + [w];
      ApplySnoc(m, init, w);
      ApplyLastWins(m, init, k);
    }
  }

  /** The loop is the sequence of its writes applied to the attributes it
      starts with; its failures are those of the writes. */
  lemma {:induction false} AttrLoopIsWrites(table: map<string, Action>, terms: set<string>,
                                            attrs: map<string, Value>, cur: Cursor)
    ensures AttrLoop(table, terms, attrs, cur).Ok? <==> Writes(table, terms, cur).Ok?
    ensures Writes(table, terms, cur).Ok? ==>
              AttrLoop(table, terms, attrs, cur).value
              == (Apply(attrs, Writes(table, terms, cur).value.0), Writes(table, terms, cur).value.1)
    ensures Writes(table, terms, cur).Err? ==>
              AttrLoop(table, terms, attrs, cur).error == Writes(table, terms, cur).error
    decreases |cur.rest|, Remaining(cur.line, cur.pos)
  {
    var (t, q) := NextToken(cur.line, cur.pos);
    AttrLoopUnfold(table, terms, attrs, cur);
    WritesUnfold(table, terms, cur);
    if t.None? && |cur.rest| > 0 {
      AttrLoopIsWrites(table, terms, attrs, Pull(cur));
    } else if t.Some? && t.value !in terms && t.value in table {
      var a := table[t.value];
      var rr := RunReader(a.reader, cur.(pos := q));
      if rr.Ok? {
        var (v, c) := rr.value;
        ReadPastToken(cur, q, c);
        AttrLoopIsWrites(table, terms, attrs[a.key := v], c);
        var w := Writes(table, terms, c);
        if w.Ok? {
          var ws := [(a.key, v)] + w.value.0;
          assert ws[1..] == w.value.0;
          assert Apply(attrs, ws) == Apply(attrs[a.key := v], w.value.0);
        }
      }
    } else if t.Some? && t.value !in terms {
      AttrLoopIsWrites(table, terms, attrs, cur.(pos := q));
    }
  }

  /** `v` is a value some tag of the table stores under `k`, in its
      reader's shape. */
  predicate StoredBy(table: map<string, Action>, k: string, v: Value) {
    exists t | t in table :: table[t].key == k && Fits(table[t].reader, v)
  }

  /** Every value the loop leaves is either one it started with or one a
      table tag's reader produced for that key. */
  lemma {:induction false} AttrLoopFits(table: map<string, Action>, terms: set<string>,
                                        attrs: map<string, Value>, cur: Cursor)
    requires AttrLoop(table, terms, attrs, cur).Ok?
    ensures var out := AttrLoop(table, terms, attrs, cur).value.0;
      forall k | k in out :: (k in attrs && out[k] == attrs[k]) || StoredBy(table, k, out[k])
    decreases |cur.rest|, Remaining(cur.line, cur.pos)
  {
    var (t, q) := NextToken(cur.line, cur.pos);
    AttrLoopUnfold(table, terms, attrs, cur);
    if t.None? && |cur.rest| > 0 {
      AttrLoopFits(table, terms, attrs, Pull(cur));
    } else if t.Some? && t.value !in terms && t.value in table {
      var a := table[t.value];
      var (v, c) := RunReader(a.reader, cur.(pos := q)).value;
      ReadPastToken(cur, q, c);
      AttrLoopFits(table, terms, attrs[a.key := v], c);
      assert StoredBy(table, a.key, v) by {
        assert table[t.value].key == a.key && Fits(table[t.value].reader, v);
      }
    } else if t.Some? && t.value !in terms {
      AttrLoopFits(table, terms, attrs, cur.(pos := q));
    }
  }

  /** Last write wins: after the loop, every key the loop stored holds the
      value of its last store; every other key keeps its old value. */
  lemma AttrLoopLastWriteWins(table: map<string, Action>, terms: set<string>,
                              attrs: map<string, Value>, cur: Cursor, k: string)
    requires Writes(table, terms, cur).Ok?
    ensures var ws := Writes(table, terms, cur).value.0;
      && AttrLoop(table, terms, attrs, cur).Ok?
      && (LastWrite(ws, k).Some? ==>
            k in AttrLoop(table, terms, attrs, cur).value.0
            && AttrLoop(table, terms, attrs, cur).value.0[k] == LastWrite(ws, k).value)
      && (LastWrite(ws, k).None? ==>
            (k in AttrLoop(table, terms, attrs, cur).value.0 <==> k in attrs))
  {
    AttrLoopIsWrites(table, terms, attrs, cur);
    ApplyLastWins(attrs, Writes(table, terms, cur).value.0, k);
  }

  // ---------------------------------------------------------------------------
  // Batch-norm adjustment
  // ---------------------------------------------------------------------------

  /** The keys `BatchNormComponent._adjust_attributes` looks up, in the
      order Python evaluates the lookups. */
  const BatchNormLookups: seq<string> := ["stats_var", "epsilon", "target_rms", "stats_mean"]

  /** The first of `keys` missing from `m`, if any. */
  function FirstMissing(keys: seq<string>, m: map<string, Value>): (r: Option<string>)
    ensures r.None? <==> forall i | 0 <= i < |keys| :: keys[i] in m
    ensures r.Some? ==> exists i | 0 <= i < |keys| ::
              keys[i] == r.value && keys[i] !in m && forall j | 0 <= j < i :: keys[j] in m
    decreases |keys|
  {
    if |keys| == 0 then None
    else if keys[0] !in m then Some(keys[0])
    else
      var r := FirstMissing(keys[1..], m);
      if r.Some? then
        var i :| 0 <= i < |keys[1..]| && keys[1..][i] == r.value && keys[1..][i] !in m
                 && forall j | 0 <= j < i :: keys[1..][j] in m;
        assert keys[i + 1] == r.value && forall j | 0 <= j < i + 1 :: keys[j] in m;
        r
      else r
  }

  /** Two aligned dimensions broadcast when they are equal or either is 1. */
  predicate DimsAgree(x: nat, y: nat) {
    x == y || x == 1 || y == 1
  }

  /** The `i`-th dimensions of `a` and `b`, counted from the last, agree. */
  predicate AlignedAgree(a: seq<nat>, b: seq<nat>, i: nat)
    requires i < |a| && i < |b|
  {
    DimsAgree(a[|a| - 1 - i], b[|b| - 1 - i])
  }

  /** numpy's broadcasting of two shapes: the last dimensions are aligned, a
      missing leading dimension counts as 1, and each aligned pair takes the
      larger size, or fails when the sizes differ and neither is 1. */
  function Broadcast(a: seq<nat>, b: seq<nat>): (r: Option<seq<nat>>)
    ensures r.Some? <==> forall i | 0 <= i < |a| && i < |b| :: AlignedAgree(a, b, i)
    ensures r.Some? ==> |r.value| == if |a| < |b| then |b| else |a|
    decreases |a|
  {
    if |a| == 0 then Some(b)
    else if |b| == 0 then Some(a)
    else
      var a', b' := a[..|a| - 1], b[..|b| - 1];
      var x, y := a[|a| - 1], b[|b| - 1];
      assert forall i | 0 <= i < |a'| && i < |b'| :: AlignedAgree(a', b', i) == AlignedAgree(a, b, i + 1);
      assert forall i | 1 <= i < |a| && i < |b| :: AlignedAgree(a, b, i) == AlignedAgree(a', b', i - 1);
      assert AlignedAgree(a, b, 0) == DimsAgree(x, y);
      if !DimsAgree(x, y) then None
      else
        match Broadcast(a', b')
        case None => None
        case Some(p) => Some(p + [if x == 1 then y else x])
  }

  /** Broadcasting does not depend on the order of the operands. */
  lemma {:induction false} BroadcastSymmetric(a: seq<nat>, b: seq<nat>)
    ensures Broadcast(a, b) == Broadcast(b, a)
    decreases |a|
  {
    if |a| > 0 && |b| > 0 {
      BroadcastSymmetric(a[..|a| - 1], b[..|b| - 1]);
    }
  }

  /** Broadcasting where either operand is present. */
  function BroadcastBoth(a: Option<seq<nat>>, b: Option<seq<nat>>): Option<seq<nat>> {
    if a.Some? && b.Some? then Broadcast(a.value, b.value) else None
  }

  /** The shape numpy gives a value: `[]` for a scalar, `[n]` for a vector,
      `[rows, columns]` for a matrix. The batch-norm arrays have the shape
      their operands broadcast to, and none when they fail to broadcast:
      `np.power` and negation keep a shape, `np.add` and `np.multiply`
      broadcast their two operands. */
  function ShapeOf(v: Value): Option<seq<nat>> {
    match v
    case IntV(_) => Some([])
    case FloatV(_) => Some([])
    case IntVec(xs) => Some([|xs|])
    case FloatVec(xs) => Some([|xs|])
    case Matrix(rows) => Some(if |rows| == 0 then [0] else [|rows|, |rows[0]|])
    case BatchNormScale(targetRms, statsVar, epsilon) =>
      BroadcastBoth(ShapeOf(targetRms), BroadcastBoth(ShapeOf(statsVar), ShapeOf(epsilon)))
    case BatchNormShift(scale, statsMean) => BroadcastBoth(ShapeOf(scale), ShapeOf(statsMean))
  }

  /** The scale the batch-norm adjustment computes from `attrs`. */
  function StatsScale(attrs: map<string, Value>): Value
    requires "stats_var" in attrs && "epsilon" in attrs && "target_rms" in attrs
  {
    BatchNormScale(attrs["target_rms"], attrs["stats_var"], attrs["epsilon"])
  }

  /** The batch-norm adjustment goes through: its four keys are present and
      every operation of it broadcasts. */
  predicate StatsBroadcast(attrs: map<string, Value>) {
    && "stats_var" in attrs && "epsilon" in attrs && "target_rms" in attrs && "stats_mean" in attrs
    && ShapeOf(BatchNormShift(StatsScale(attrs), attrs["stats_mean"])).Some?
  }

  /** `_adjust_attributes`: nothing for most classes; batch norm turns its
      statistics into a scale (stored as `stats_mean`) and a shift (stored
      as `stats_var`). Python evaluates it in the order of BatchNormSteps:
      a lookup without its key, or an `np.add`/`np.multiply` whose operands
      do not broadcast, raises before anything later is looked up. */
  function Adjust(kind: Kind, attrs: map<string, Value>): (r: Result<map<string, Value>>)
    ensures kind != BatchNorm ==> r == Ok(attrs)
    ensures kind == BatchNorm ==> (r.Ok? <==> StatsBroadcast(attrs))
    ensures kind == BatchNorm && r.Err? ==> r.error.MissingAttribute? || r.error == BroadcastMismatch
    ensures r.Err? && r.error.MissingAttribute? ==> FirstMissing(BatchNormLookups, attrs) == Some(r.error.key)
    ensures kind == BatchNorm && FirstMissing(BatchNormLookups, attrs).None? && r.Err? ==> r.error == BroadcastMismatch
    ensures r.Ok? ==> r.value.Keys == attrs.Keys
    ensures r.Ok? ==> forall k | k in attrs && k != "stats_mean" && k != "stats_var" :: r.value[k] == attrs[k]
    ensures r.Ok? && kind == BatchNorm ==>
              && "stats_mean" in attrs && "stats_var" in attrs && "epsilon" in attrs && "target_rms" in attrs
              && r.value["stats_mean"] == BatchNormScale(attrs["target_rms"], attrs["stats_var"], attrs["epsilon"])
              && r.value["stats_var"] == BatchNormShift(r.value["stats_mean"], attrs["stats_mean"])
  {
    assert BatchNormLookups[1..][1..][1..][1..] == [];
    if kind != BatchNorm then Ok(attrs)
    else if "stats_var" !in attrs then Err(MissingAttribute("stats_var"))
    else if "epsilon" !in attrs then Err(MissingAttribute("epsilon"))
    else if BroadcastBoth(ShapeOf(attrs["stats_var"]), ShapeOf(attrs["epsilon"])).None? then
      assert "target_rms" in attrs ==> ShapeOf(StatsScale(attrs)).None?;
      Err(BroadcastMismatch)
    else if "target_rms" !in attrs then Err(MissingAttribute("target_rms"))
    else
      var scale := StatsScale(attrs);
      if ShapeOf(scale).None? then Err(BroadcastMismatch)
      else if "stats_mean" !in attrs then Err(MissingAttribute("stats_mean"))
      else
        var shift := BatchNormShift(scale, attrs["stats_mean"]);
        if ShapeOf(shift).None? then Err(BroadcastMismatch)
        else Ok(attrs["stats_var" := shift]["stats_mean" := scale])
  }

  /** One step of evaluating the batch-norm adjustment: an attribute lookup,
      or a numpy operation broadcasting the two operands computed last. */
  datatype Step = Lookup(key: string) | Combine

  /** Lines 348-350 of the adjustment in Python's evaluation order. Function
      arguments are evaluated left to right before the call; `np.power` and
      negation keep their operand's shape and so are not steps. */
  const BatchNormSteps: seq<Step> :=
    [Lookup("stats_var"), Lookup("epsilon"), Combine, Lookup("target_rms"), Combine, Lookup("stats_mean"), Combine]

  /** The first exception evaluating `steps` raises, with `shapes` the
      operands computed so far (None for an operand with no shape). */
  function FirstFailure(steps: seq<Step>, attrs: map<string, Value>, shapes: seq<Option<seq<nat>>>): Option<Error>
    decreases |steps|
  {
    if |steps| == 0 then None
    else match steps[0]
      case Lookup(k) =>
        if k !in attrs then Some(MissingAttribute(k))
        else FirstFailure(steps[1..], attrs, shapes + [ShapeOf(attrs[k])])
      case Combine =>
        if |shapes| < 2 then FirstFailure(steps[1..], attrs, shapes)
        else
          var s := BroadcastBoth(shapes[|shapes| - 2], shapes[|shapes| - 1]);
          if s.None? then Some(BroadcastMismatch)
          else FirstFailure(steps[1..], attrs, shapes[..|shapes| - 2] + [s])
  }

  /** The adjustment fails exactly when evaluating BatchNormSteps raises,
      and with the exception that evaluation raises first. */
  lemma AdjustFollowsSteps(attrs: map<string, Value>)
    ensures Adjust(BatchNorm, attrs).Err? <==> FirstFailure(BatchNormSteps, attrs, []).Some?
    ensures Adjust(BatchNorm, attrs).Err? ==> Adjust(BatchNorm, attrs).error == FirstFailure(BatchNormSteps, attrs, []).value
  {
    var steps := BatchNormSteps;
    assert steps[1..][1..][1..][1..][1..][1..][1..] == [];
    if "stats_var" in attrs && "epsilon" in attrs {
      var v := BroadcastBoth(ShapeOf(attrs["stats_var"]), ShapeOf(attrs["epsilon"]));
      var after2 := [ShapeOf(attrs["stats_var"]), ShapeOf(attrs["epsilon"])];
      assert FirstFailure(steps, attrs, []) == FirstFailure(steps[2..], attrs, after2);
      if v.Some? && "target_rms" in attrs {
        var sc := ShapeOf(StatsScale(attrs));
        assert FirstFailure(steps, attrs, []) == FirstFailure(steps[4..], attrs, [v, ShapeOf(attrs["target_rms"])]);
        assert BroadcastBoth(ShapeOf(attrs["target_rms"]), v) == sc;
        if ShapeOf(attrs["target_rms"]).Some? {
          BroadcastSymmetric(v.value, ShapeOf(attrs["target_rms"]).value);
        }
        assert FirstFailure(steps[4..], attrs, [v, ShapeOf(attrs["target_rms"])]) == if sc.None? then Some(BroadcastMismatch) else FirstFailure(steps[5..], attrs, [sc]);
        if sc.Some? && "stats_mean" in attrs {
          assert FirstFailure(steps, attrs, []) == FirstFailure(steps[6..], attrs, [sc, ShapeOf(attrs["stats_mean"])]);
        }
      }
    }
  }

  /** Python's order shows: statistics and an epsilon that do not broadcast
      raise at the `np.add`, before the missing target RMS is looked up. */
  lemma EarlyBroadcastFailure(a: Float, b: Float)
    ensures Adjust(BatchNorm, map["stats_var" := FloatVec([a, b]), "epsilon" := FloatVec([a, b, a])]) == Err(BroadcastMismatch)
  {
  }

  /** With the values the batch-norm table reads (a float epsilon and
      target RMS, float vectors of statistics), the adjustment goes through
      exactly when the two statistics' lengths are equal or one of them is 1. */
  lemma StatsBroadcastVectors(attrs: map<string, Value>)
    requires "stats_var" in attrs && "epsilon" in attrs && "target_rms" in attrs && "stats_mean" in attrs
    requires attrs["epsilon"].FloatV? && attrs["target_rms"].FloatV?
    requires attrs["stats_var"].FloatVec? && attrs["stats_mean"].FloatVec?
    ensures StatsBroadcast(attrs) <==> DimsAgree(|attrs["stats_var"].floats|, |attrs["stats_mean"].floats|)
  {
    var n, m := |attrs["stats_var"].floats|, |attrs["stats_mean"].floats|;
    assert ShapeOf(attrs["stats_var"]) == Some([n]);
    assert ShapeOf(StatsScale(attrs)) == Some([n]);
    assert ShapeOf(attrs["stats_mean"]) == Some([m]);
    assert AlignedAgree([n], [m], 0) == DimsAgree(n, m);
    assert Broadcast([n], [m]).Some? <==> DimsAgree(n, m);
  }

  /** Statistics of lengths 2 and 3 make the adjustment fail. */
  lemma MismatchedStatistics(e: Float, rms: Float, v: seq<Float>, mean: seq<Float>)
    requires |v| == 2 && |mean| == 3
    ensures var attrs := map["epsilon" := FloatV(e), "target_rms" := FloatV(rms),
                             "stats_var" := FloatVec(v), "stats_mean" := FloatVec(mean)];
      Adjust(BatchNorm, attrs) == Err(BroadcastMismatch)
  {
    var attrs := map["epsilon" := FloatV(e), "target_rms" := FloatV(rms),
                     "stats_var" := FloatVec(v), "stats_mean" := FloatVec(mean)];
    StatsBroadcastVectors(attrs);
    assert FirstMissing(BatchNormLookups, attrs).None?;
  }

  // ---------------------------------------------------------------------------
  // Dimension and constants
  // ---------------------------------------------------------------------------

  /** Two records of the same component: id, name, node type and class agree. */
  predicate SameIdentity(a: Component, b: Component) {
    a.id == b.id && a.name == b.name && a.nodeType == b.nodeType && a.kind == b.kind
  }

  /** A `dim` attribute becomes the component's dimension and leaves the
      attributes. */
  function LiftDim(c: Component): (r: Component)
    ensures "dim" !in r.attrs
    ensures "dim" in c.attrs ==> r.dim == Some(c.attrs["dim"])
    ensures "dim" !in c.attrs ==> r.dim == c.dim
    ensures forall k | k != "dim" :: (k in r.attrs <==> k in c.attrs)
    ensures forall k | k in r.attrs :: r.attrs[k] == c.attrs[k]
    ensures SameIdentity(r, c) && r.inputs == c.inputs && r.consts == c.consts
  {
    if "dim" in c.attrs then c.(dim := Some(c.attrs["dim"]), attrs := c.attrs - {"dim"}) else c
  }

  /** The name a promoted constant gets: `<component name>_<key>`. */
  function ConstName(name: string, key: string): (n: string)
    ensures |n| == |name| + 1 + |key| && n[..|name| + 1] == name + "_" && n[|name| + 1..] == key
  {
    var n := name + "_" + key;
    assert n[|name| + 1..] == key;
    n
  }

  /** Different keys give different constant names. */
  lemma ConstNameInjective(name: string, a: string, b: string)
    ensures ConstName(name, a) == ConstName(name, b) <==> a == b
  {
    var na, nb := ConstName(name, a), ConstName(name, b);
    if na == nb {
      assert na[|name| + 1..] == nb[|name| + 1..];
    }
  }

  /** An array with a zero first dimension (`shape[0] == 0`). */
  predicate EmptyArray(v: Value) {
    match v
    case IntVec(ints) => |ints| == 0
    case FloatVec(floats) => |floats| == 0
    case Matrix(rows) => |rows| == 0
    case _ => false
  }

  /** `key` is present and is not an empty bias: it is promoted. */
  predicate Promotes(attrs: map<string, Value>, key: string) {
    key in attrs && !(key == "bias" && EmptyArray(attrs[key]))
  }

  /** One round of the promotion loop. */
  function PromoteOne(c: Component, key: string): (r: Component)
    ensures key !in r.attrs
    ensures r.attrs == c.attrs - {key}
    ensures SameIdentity(r, c) && r.dim == c.dim
    ensures Promotes(c.attrs, key) ==>
              && r.inputs == c.inputs + [ConstName(c.name, key)]
              && r.consts == c.consts[ConstName(c.name, key) := c.attrs[key]]
    ensures !Promotes(c.attrs, key) ==> r.inputs == c.inputs && r.consts == c.consts
  {
    if key !in c.attrs then c
    else if key == "bias" && EmptyArray(c.attrs[key]) then c.(attrs := c.attrs - {key})
    else
      var n := ConstName(c.name, key);
      c.(inputs := c.inputs + [n], consts := c.consts[n := c.attrs[key]], attrs := c.attrs - {key})
  }

  /** The keys of `keys` that get promoted, in order. */
  function Promoted(attrs: map<string, Value>, keys: seq<string>): seq<string>
    decreases |keys|
  {
    if |keys| == 0 then []
    else (if Promotes(attrs, keys[0]) then [keys[0]] else []) + Promoted(attrs, keys[1..])
  }

  /** The constant names of promoted keys. */
  function ConstNames(name: string, keys: seq<string>): (ns: seq<string>)
    ensures |ns| == |keys| && forall i | 0 <= i < |keys| :: ns[i] == ConstName(name, keys[i])
    decreases |keys|
  {
    if |keys| == 0 then [] else [ConstName(name, keys[0])] + ConstNames(name, keys[1..])
  }

  lemma ConstNamesAppend(name: string, a: seq<string>, b: seq<string>)
    ensures ConstNames(name, a + b) == ConstNames(name, a) + ConstNames(name, b)
  {
  }

  predicate Distinct(keys: seq<string>) {
    forall i, j | 0 <= i < j < |keys| :: keys[i] != keys[j]
  }

  /** The promotion loop over `keys`: every listed key leaves the
      attributes, which otherwise stay as they were; only the inputs and
      the constants change besides. */
  function PromoteAll(c: Component, keys: seq<string>): (r: Component)
    ensures forall k | k in keys :: k !in r.attrs
    ensures forall k | k !in keys :: (k in r.attrs <==> k in c.attrs) && (k in r.attrs ==> r.attrs[k] == c.attrs[k])
    ensures SameIdentity(r, c) && r.dim == c.dim
    decreases |keys|
  {
    if |keys| == 0 then c
    else PromoteAll(PromoteOne(c, keys[0]), keys[1..])
  }

  /** The promoted keys' constant names are appended to the inputs, in key
      order; an empty bias adds none. */
  lemma {:induction false} PromoteAllInputs(c: Component, keys: seq<string>)
    requires Distinct(keys)
    ensures PromoteAll(c, keys).inputs == c.inputs + ConstNames(c.name, Promoted(c.attrs, keys))
    decreases |keys|
  {
    if |keys| > 0 {
      var k0, rest := keys[0], keys[1..];
      var c1 := PromoteOne(c, k0);
      var head := if Promotes(c.attrs, k0) then [k0] else [];
      var tail := Promoted(c.attrs, rest);
      var ch, ct := ConstNames(c.name, head), ConstNames(c.name, tail);
      var x, a, y := PromoteAll(c, keys).inputs, c1.inputs, ConstNames(c.name, Promoted(c.attrs, keys));
      assert x == a + ct by {
        PromoteAllInputs(c1, rest);
        assert k0 !in rest;
        PromotedTail(c.attrs, c1.attrs, rest);
      }
      assert a == c.inputs + ch by {
        if Promotes(c.attrs, k0) {
          assert ch == [ConstName(c.name, k0)];
        } else {
          assert ch == [];
        }
      }
      assert y == ch + ct by {
        assert Promoted(c.attrs, keys) == head + tail;
        ConstNamesAppend(c.name, head, tail);
      }
      Regroup(x, a, c.inputs, ch, ct, y);
    }
  }

  lemma Regroup<T>(x: seq<T>, a: seq<T>, b: seq<T>, ch: seq<T>, ct: seq<T>, y: seq<T>)
    requires x == a + ct && a == b + ch && y == ch + ct
    ensures x == b + y
  {
  }

  /** Each promoted key's value becomes the constant `<name>_<key>`; other
      constants are kept, and no other constant appears. */
  lemma {:induction false} PromoteAllConsts(c: Component, keys: seq<string>)
    requires Distinct(keys)
    ensures var r := PromoteAll(c, keys);
      forall k | k in keys && Promotes(c.attrs, k) ::
        ConstName(c.name, k) in r.consts && r.consts[ConstName(c.name, k)] == c.attrs[k]
    ensures var r := PromoteAll(c, keys);
      forall n | n in c.consts && n !in ConstNames(c.name, Promoted(c.attrs, keys)) ::
        n in r.consts && r.consts[n] == c.consts[n]
    ensures var r := PromoteAll(c, keys);
      forall n | n in r.consts :: n in c.consts || n in ConstNames(c.name, Promoted(c.attrs, keys))
    decreases |keys|
  {
    if |keys| > 0 {
      var k0, rest := keys[0], keys[1..];
      var c1 := PromoteOne(c, k0);
      var r := PromoteAll(c, keys);
      var tail := Promoted(c.attrs, rest);
      var head := if Promotes(c.attrs, k0) then [k0] else [];
      var names, tailNames := ConstNames(c.name, Promoted(c.attrs, keys)), ConstNames(c.name, tail);
      var n0 := ConstName(c.name, k0);
      assert r == PromoteAll(c1, rest);
      assert c1.name == c.name;
      assert Promoted(c1.attrs, rest) == tail by {
        assert k0 !in rest;
        PromotedTail(c.attrs, c1.attrs, rest);
      }
      assert names == ConstNames(c.name, head) + tailNames by {
        assert Promoted(c.attrs, keys) == head + tail;
        ConstNamesAppend(c.name, head, tail);
      }
      assert n0 !in tailNames by {
        PromotedSpec(c.attrs, rest);
        forall i | 0 <= i < |tail|
          ensures ConstName(c.name, tail[i]) != n0
        {
          assert tail[i] in rest;
          ConstNameInjective(c.name, tail[i], k0);
        }
      }
      PromoteAllConsts(c1, rest);
      forall k | k in keys && Promotes(c.attrs, k)
        ensures ConstName(c.name, k) in r.consts && r.consts[ConstName(c.name, k)] == c.attrs[k]
      {
        if k != k0 {
          assert k in rest;
        }
      }
    }
  }

  /** The promoted keys are exactly the listed keys that are present and
      are not an empty bias. */
  lemma {:induction false} PromotedSpec(attrs: map<string, Value>, keys: seq<string>)
    ensures forall k :: k in Promoted(attrs, keys) <==> k in keys && Promotes(attrs, k)
    decreases |keys|
  {
    if |keys| > 0 {
      PromotedSpec(attrs, keys[1..]);
      assert forall k | k in keys :: k == keys[0] || k in keys[1..];
    }
  }

  /** Promotion of later keys does not depend on removing an earlier key. */
  lemma {:induction false} PromotedTail(a: map<string, Value>, b: map<string, Value>, keys: seq<string>)
    requires forall k | k in keys :: Promotes(b, k) == Promotes(a, k)
    ensures Promoted(b, keys) == Promoted(a, keys)
    decreases |keys|
  {
    if |keys| > 0 {
      PromotedTail(a, b, keys[1..]);
    }
  }

  /** The promotion keys are pairwise different. */
  lemma ConstKeysDistinct()
    ensures Distinct(ConstKeys)
  {
  }

  // ---------------------------------------------------------------------------
  // read_attributes
  // ---------------------------------------------------------------------------

  /** The component after the loop: adjusted and with `dim` lifted, before
      promotion. */
  function Finish(c: Component, attrs: map<string, Value>): (r: Result<Component>)
    ensures r.Ok? <==> Adjust(c.kind, attrs).Ok?
    ensures r.Ok? ==> r.value == LiftDim(c.(attrs := Adjust(c.kind, attrs).value))
  {
    var adjusted :- Adjust(c.kind, attrs);
    Ok(LiftDim(c.(attrs := adjusted)))
  }

  /** `Component.read_attributes`: read tags with the component's table up
      to a terminating token, adjust, lift `dim`, promote the parameter
      arrays. Returns the finished component and where reading stopped. */
  function ReadAttributes(c: Component, cur: Cursor, terms: set<string>): (r: Result<(Component, Cursor)>)
    ensures AttrLoop(Actions(c.kind), terms, c.attrs, cur).Err? ==>
              r == Err(AttrLoop(Actions(c.kind), terms, c.attrs, cur).error)
    ensures AttrLoop(Actions(c.kind), terms, c.attrs, cur).Ok? ==>
              var attrs := AttrLoop(Actions(c.kind), terms, c.attrs, cur).value.0;
              && (r.Ok? <==> Adjust(c.kind, attrs).Ok?)
              && (r.Err? ==> r.error == Adjust(c.kind, attrs).error)
    ensures r.Ok? ==> "dim" !in r.value.0.attrs && forall k | k in ConstKeys :: k !in r.value.0.attrs
    ensures r.Ok? ==> SameIdentity(r.value.0, c)
    ensures r.Ok? ==> |r.value.0.inputs| >= |c.inputs| && r.value.0.inputs[..|c.inputs|] == c.inputs
    ensures r.Ok? ==> r.value.1 == AttrLoop(Actions(c.kind), terms, c.attrs, cur).value.1
  {
    var (attrs, after) :- AttrLoop(Actions(c.kind), terms, c.attrs, cur);
    var lifted :- Finish(c, attrs);
    var done := PromoteAll(lifted, ConstKeys);
    assert done.inputs[..|c.inputs|] == c.inputs by {
      ConstKeysDistinct();
      PromoteAllInputs(lifted, ConstKeys);
    }
    Ok((done, after))
  }

  /** The four promotion keys, as far as `Promoted` is concerned. */
  lemma PromotedConstKeys(attrs: map<string, Value>)
    ensures Promoted(attrs, ConstKeys)
         == (if Promotes(attrs, "params") then ["params"] else [])
          + (if Promotes(attrs, "bias") then ["bias"] else [])
          + (if Promotes(attrs, "stats_mean") then ["stats_mean"] else [])
          + (if Promotes(attrs, "stats_var") then ["stats_var"] else [])
  {
    assert ConstKeys[1..] == ["bias", "stats_mean", "stats_var"];
    assert ConstKeys[1..][1..] == ["stats_mean", "stats_var"];
    assert ConstKeys[1..][1..][1..] == ["stats_var"];
    assert ConstKeys[1..][1..][1..][1..] == [];
  }

  /** With the loop and the adjustment through, `read_attributes` returns
      the promoted component and the loop's cursor. */
  lemma ReadAttributesFinish(c: Component, cur: Cursor, terms: set<string>)
    requires AttrLoop(Actions(c.kind), terms, c.attrs, cur).Ok?
    requires Finish(c, AttrLoop(Actions(c.kind), terms, c.attrs, cur).value.0).Ok?
    ensures var (attrs, after) := AttrLoop(Actions(c.kind), terms, c.attrs, cur).value;
      ReadAttributes(c, cur, terms) == Ok((PromoteAll(Finish(c, attrs).value, ConstKeys), after))
  {
  }

  /** When exactly two keys are promoted, their constant names follow the
      inputs in key order and carry the keys' values. */
  lemma PromoteTwo(l: Component, keys: seq<string>, k1: string, k2: string)
    requires Distinct(keys) && Promoted(l.attrs, keys) == [k1, k2]
    ensures k1 in l.attrs && k2 in l.attrs
    ensures var d := PromoteAll(l, keys);
      && d.inputs == l.inputs + [ConstName(l.name, k1), ConstName(l.name, k2)]
      && ConstName(l.name, k1) in d.consts && d.consts[ConstName(l.name, k1)] == l.attrs[k1]
      && ConstName(l.name, k2) in d.consts && d.consts[ConstName(l.name, k2)] == l.attrs[k2]
  {
    PromoteAllInputs(l, keys);
    assert ConstNames(l.name, [k1, k2]) == [ConstName(l.name, k1), ConstName(l.name, k2)];
    assert k1 in keys && Promotes(l.attrs, k1) && k2 in keys && Promotes(l.attrs, k2) by {
      PromotedSpec(l.attrs, keys);
      assert k1 in Promoted(l.attrs, keys) && k2 in Promoted(l.attrs, keys);
    }
    PromoteAllConsts(l, keys);
  }

  /** An affine component's attributes pass through adjustment and `dim`
      lifting with its matrix and bias untouched. */
  lemma AffineFinish(c: Component, attrs: map<string, Value>)
    requires c.kind == Affine
    requires "params" in attrs && "bias" in attrs && !EmptyArray(attrs["bias"])
    requires "stats_mean" !in attrs && "stats_var" !in attrs
    ensures Finish(c, attrs).Ok?
    ensures var l := Finish(c, attrs).value;
      && l.name == c.name && l.inputs == c.inputs
      && l.attrs["params"] == attrs["params"] && l.attrs["bias"] == attrs["bias"]
      && Promoted(l.attrs, ConstKeys) == ["params", "bias"]
  {
    var l := LiftDim(c.(attrs := attrs));
    assert Finish(c, attrs) == Ok(l);
    PromotedConstKeys(l.attrs);
  }

  /** A finished affine component: its matrix and a non-empty bias become
      the constants `<name>_params` and `<name>_bias`, appended to the
      inputs in that order. */
  lemma AffinePromotion(c: Component, cur: Cursor, terms: set<string>)
    requires c.kind == Affine
    requires AttrLoop(Actions(c.kind), terms, c.attrs, cur).Ok?
    requires var attrs := AttrLoop(Actions(c.kind), terms, c.attrs, cur).value.0;
      && "params" in attrs && "bias" in attrs && !EmptyArray(attrs["bias"])
      && "stats_mean" !in attrs && "stats_var" !in attrs
    ensures ReadAttributes(c, cur, terms).Ok?
    ensures var attrs := AttrLoop(Actions(c.kind), terms, c.attrs, cur).value.0;
      var d := ReadAttributes(c, cur, terms).value.0;
      && d.inputs == c.inputs + [ConstName(c.name, "params"), ConstName(c.name, "bias")]
      && ConstName(c.name, "params") in d.consts && d.consts[ConstName(c.name, "params")] == attrs["params"]
      && ConstName(c.name, "bias") in d.consts && d.consts[ConstName(c.name, "bias")] == attrs["bias"]
  {
    var attrs := AttrLoop(Actions(c.kind), terms, c.attrs, cur).value.0;
    AffineFinish(c, attrs);
    ReadAttributesFinish(c, cur, terms);
    ConstKeysDistinct();
    PromoteTwo(Finish(c, attrs).value, ConstKeys, "params", "bias");
  }

  /** A batch-norm component's adjustment replaces its mean and variance by
      the scale and shift; `dim` lifting leaves both in place. */
  lemma BatchNormFinish(c: Component, attrs: map<string, Value>)
    requires c.kind == BatchNorm
    requires "stats_var" in attrs && "epsilon" in attrs && "target_rms" in attrs && "stats_mean" in attrs
    requires "params" !in attrs && "bias" !in attrs
    ensures Finish(c, attrs).Ok? <==> StatsBroadcast(attrs)
    ensures !StatsBroadcast(attrs) ==> Finish(c, attrs) == Err(BroadcastMismatch)
    ensures StatsBroadcast(attrs) ==> var l := Finish(c, attrs).value;
      var scale := BatchNormScale(attrs["target_rms"], attrs["stats_var"], attrs["epsilon"]);
      && l.name == c.name && l.inputs == c.inputs
      && "stats_mean" in l.attrs && l.attrs["stats_mean"] == scale
      && "stats_var" in l.attrs && l.attrs["stats_var"] == BatchNormShift(scale, attrs["stats_mean"])
      && Promoted(l.attrs, ConstKeys) == ["stats_mean", "stats_var"]
  {
    assert FirstMissing(BatchNormLookups, attrs).None?;
    if StatsBroadcast(attrs) {
      var l := Finish(c, attrs).value;
      assert "params" !in l.attrs && "bias" !in l.attrs && "stats_mean" in l.attrs && "stats_var" in l.attrs;
      PromotedConstKeys(l.attrs);
    }
  }

  /** A finished batch-norm component: its scale and shift become the
      constants `<name>_stats_mean` and `<name>_stats_var`, appended to
      the inputs in that order. */
  lemma BatchNormPromotion(c: Component, cur: Cursor, terms: set<string>)
    requires c.kind == BatchNorm
    requires AttrLoop(Actions(c.kind), terms, c.attrs, cur).Ok?
    requires var attrs := AttrLoop(Actions(c.kind), terms, c.attrs, cur).value.0;
      && "stats_var" in attrs && "epsilon" in attrs && "target_rms" in attrs && "stats_mean" in attrs
      && "params" !in attrs && "bias" !in attrs
    ensures var attrs := AttrLoop(Actions(c.kind), terms, c.attrs, cur).value.0;
      ReadAttributes(c, cur, terms).Ok? <==> StatsBroadcast(attrs)
    ensures var attrs := AttrLoop(Actions(c.kind), terms, c.attrs, cur).value.0;
      !StatsBroadcast(attrs) ==> ReadAttributes(c, cur, terms) == Err(BroadcastMismatch)
    ensures var attrs := AttrLoop(Actions(c.kind), terms, c.attrs, cur).value.0;
      StatsBroadcast(attrs) ==>
      var d := ReadAttributes(c, cur, terms).value.0;
      var scale := BatchNormScale(attrs["target_rms"], attrs["stats_var"], attrs["epsilon"]);
      && d.inputs == c.inputs + [ConstName(c.name, "stats_mean"), ConstName(c.name, "stats_var")]
      && ConstName(c.name, "stats_mean") in d.consts && d.consts[ConstName(c.name, "stats_mean")] == scale
      && ConstName(c.name, "stats_var") in d.consts
      && d.consts[ConstName(c.name, "stats_var")] == BatchNormShift(scale, attrs["stats_mean"])
  {
    var attrs := AttrLoop(Actions(c.kind), terms, c.attrs, cur).value.0;
    BatchNormFinish(c, attrs);
    if StatsBroadcast(attrs) {
      ReadAttributesFinish(c, cur, terms);
      ConstKeysDistinct();
      PromoteTwo(Finish(c, attrs).value, ConstKeys, "stats_mean", "stats_var");
    }
  }

  /** The readers the batch-norm table binds to its keys: floats for the
      epsilon and target RMS, float vectors for the statistics, and nothing
      for the affine keys. */
  lemma BatchNormReaders()
    ensures forall t | t in Actions(BatchNorm) ::
      && (Actions(BatchNorm)[t].key in {"epsilon", "target_rms"} ==> Actions(BatchNorm)[t].reader == FloatReader)
      && (Actions(BatchNorm)[t].key in {"stats_mean", "stats_var"} ==> Actions(BatchNorm)[t].reader == FloatVecReader)
      && Actions(BatchNorm)[t].key !in {"params", "bias"}
  {
  }

  /** A batch-norm component read from scratch, once the loop has read all
      four statistics: reading fails exactly when the mean and variance
      vectors differ in length and neither has length 1, where
      `np.multiply` cannot broadcast them. */
  lemma BatchNormStatsAgree(c: Component, cur: Cursor, terms: set<string>)
    requires c.kind == BatchNorm && c.attrs == map[]
    requires AttrLoop(Actions(c.kind), terms, c.attrs, cur).Ok?
    requires var attrs := AttrLoop(Actions(c.kind), terms, c.attrs, cur).value.0;
      "stats_var" in attrs && "epsilon" in attrs && "target_rms" in attrs && "stats_mean" in attrs
    ensures var attrs := AttrLoop(Actions(c.kind), terms, c.attrs, cur).value.0;
      && attrs["stats_var"].FloatVec? && attrs["stats_mean"].FloatVec?
      && (ReadAttributes(c, cur, terms).Ok? <==> DimsAgree(|attrs["stats_var"].floats|, |attrs["stats_mean"].floats|))
      && (ReadAttributes(c, cur, terms).Err? ==> ReadAttributes(c, cur, terms).error == BroadcastMismatch)
  {
    var table := Actions(c.kind);
    var attrs := AttrLoop(table, terms, c.attrs, cur).value.0;
    AttrLoopFits(table, terms, c.attrs, cur);
    BatchNormValues(attrs);
    StatsBroadcastVectors(attrs);
    BatchNormPromotion(c, cur, terms);
  }

  /** Attributes the batch-norm table stored have its readers' shapes. */
  lemma BatchNormValues(attrs: map<string, Value>)
    requires forall k | k in attrs :: StoredBy(Actions(BatchNorm), k, attrs[k])
    requires "stats_var" in attrs && "epsilon" in attrs && "target_rms" in attrs && "stats_mean" in attrs
    ensures attrs["epsilon"].FloatV? && attrs["target_rms"].FloatV?
    ensures attrs["stats_var"].FloatVec? && attrs["stats_mean"].FloatVec?
    ensures "params" !in attrs && "bias" !in attrs
  {
    var table := Actions(BatchNorm);
    BatchNormReaders();
    assert StoredBy(table, "epsilon", attrs["epsilon"]);
    assert StoredBy(table, "target_rms", attrs["target_rms"]);
    assert StoredBy(table, "stats_var", attrs["stats_var"]);
    assert StoredBy(table, "stats_mean", attrs["stats_mean"]);
  }
}
