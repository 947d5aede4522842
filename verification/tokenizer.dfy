/** The whitespace tokenizer, the line cursor it runs over, and the
    component-type check every declaration passes first
    (`read_next_token`, `read_component_type` and `__check_for_newline`
    in converter/component.py). */
module Tokenizer {
  import opened Results
  import opened Text

  /** Characters of `line` left to scan from `pos`; zero once `pos` is past the end. */
  function Remaining(line: string, pos: nat): nat {
    if pos <= |line| then |line| - pos else 0
  }

  /** First index at or after `pos` that is not whitespace (or the end). */
  function SkipSpace(line: string, pos: nat): (q: nat)
    ensures pos <= q
    ensures q == pos || q <= |line|
    ensures forall i | pos <= i < q :: i < |line| && IsSpace(line[i])
    ensures q < |line| ==> !IsSpace(line[q])
    decreases Remaining(line, pos)
  {
    if pos < |line| && IsSpace(line[pos]) then SkipSpace(line, pos + 1) else pos
  }

  /** First index at or after `pos` that is whitespace (or the end). */
  function SkipWord(line: string, pos: nat): (q: nat)
    ensures pos <= q
    ensures q == pos || q <= |line|
    ensures forall i | pos <= i < q :: i < |line| && !IsSpace(line[i])
    ensures q < |line| ==> IsSpace(line[q])
    decreases Remaining(line, pos)
  {
    if pos < |line| && !IsSpace(line[pos]) then SkipWord(line, pos + 1) else pos
  }

  /** `t`, ending just before `q`, is the token the scan from `pos` must find:
      only whitespace lies between `pos` and `t`, `t` is a non-empty run of
      non-whitespace, and it stops at whitespace or at the end of the line. */
  predicate TokenAt(line: string, pos: nat, t: string, q: nat) {
    && 0 < |t| && pos + |t| <= q <= |line|
    && line[q - |t|..q] == t
    && (forall i | 0 <= i < |t| :: !IsSpace(t[i]))
    && (forall i | pos <= i < q - |t| :: IsSpace(line[i]))
    && (q == |line| || IsSpace(line[q]))
  }

  /** The next token of `line` from `pos` and the position after it; `None`
      when only whitespace is left. */
  function NextToken(line: string, pos: nat): (r: (Option<string>, nat))
    ensures r.0.None? <==> forall i | pos <= i < |line| :: IsSpace(line[i])
    ensures r.0.None? ==> r.1 == (if pos <= |line| then |line| else pos)
    ensures r.0.Some? ==> pos < r.1 && TokenAt(line, pos, r.0.value, r.1)
  {
    var start := SkipSpace(line, pos);
    if start >= |line| then (None, start)
    else
      var end := SkipWord(line, start);
      var t := line[start..end];
      assert forall i | 0 <= i < |t| :: t[i] == line[start + i];
      (Some(t), end)
  }

  /** `TokenAt` pins the token down: no other token or end position fits it. */
  lemma TokenAtUnique(line: string, pos: nat, t: string, q: nat, t': string, q': nat)
    requires TokenAt(line, pos, t, q) && TokenAt(line, pos, t', q')
    ensures t == t' && q == q'
  {
    var s, s' := q - |t|, q' - |t'|;
    assert !IsSpace(line[s]) && !IsSpace(line[s']) by {
      assert line[s] == t[0] && line[s'] == t'[0];
    }
    assert forall i | s <= i < q :: !IsSpace(line[i]) by {
      assert forall i | s <= i < q :: line[i] == t[i - s];
    }
    assert forall i | s' <= i < q' :: !IsSpace(line[i]) by {
      assert forall i | s' <= i < q' :: line[i] == t'[i - s'];
    }
  }

  /** Writing a token after some whitespace and before whitespace (or the
      end of the line) and scanning it back yields that token. */
  lemma NextTokenReadsBack(lead: string, t: string, tail: string)
    requires forall i | 0 <= i < |lead| :: IsSpace(lead[i])
    requires IsWord(t)
    requires |tail| == 0 || IsSpace(tail[0])
    ensures NextToken(lead + t + tail, 0) == (Some(t), |lead| + |t|)
  {
    var line := lead + t + tail;
    var q := |lead| + |t|;
    assert line[q - |t|..q] == t;
    assert forall i | 0 <= i < q - |t| :: line[i] == lead[i];
    assert q < |line| ==> line[q] == tail[0];
    assert TokenAt(line, 0, t, q);
    assert line[|lead|] == t[0];
    var r := NextToken(line, 0);
    TokenAtUnique(line, 0, t, q, r.0.value, r.1);
  }

  /** The same, for a token written anywhere on the line: scanning from just
      after `pre` skips `lead` and returns the token. */
  lemma NextTokenAt(pre: string, lead: string, t: string, tail: string)
    requires forall i | 0 <= i < |lead| :: IsSpace(lead[i])
    requires IsWord(t)
    requires |tail| == 0 || IsSpace(tail[0])
    ensures NextToken(pre + lead + t + tail, |pre|) == (Some(t), |pre| + |lead| + |t|)
  {
    var line := pre + lead + t + tail;
    var p, q := |pre|, |pre| + |lead| + |t|;
    assert line[q - |t|..q] == t;
    assert forall i | p <= i < q - |t| :: line[i] == lead[i - p];
    assert q < |line| ==> line[q] == tail[0];
    assert TokenAt(line, p, t, q);
    assert line[p + |lead|] == t[0];
    var r := NextToken(line, p);
    TokenAtUnique(line, p, t, q, r.0.value, r.1);
  }

  /** `read_component_type`: the next token must look like `<...Component>`. */
  predicate ValidTypeTag(t: string) {
    |t| >= 13 && t[0] == '<' && t[|t| - 10..] == "Component>"
  }

  function ReadComponentType(line: string, pos: nat): (r: Result<(string, nat)>)
    ensures r.Ok? <==> NextToken(line, pos).0.Some? && ValidTypeTag(NextToken(line, pos).0.value)
    ensures r.Ok? ==> r.value == (NextToken(line, pos).0.value, NextToken(line, pos).1)
    ensures r.Err? ==> r.error == BadComponentType(NextToken(line, pos).1, NextToken(line, pos).0)
  {
    var (t, q) := NextToken(line, pos);
    if t.Some? && ValidTypeTag(t.value) then Ok((t.value, q))
    else Err(BadComponentType(q, t))
  }

  /** The accepted tags are exactly `<` + a name of two or more characters + `Component>`. */
  lemma ValidTypeTagShape(t: string)
    ensures ValidTypeTag(t) <==> exists name :: |name| >= 2 && t == "<" + name + "Component>"
  {
    if ValidTypeTag(t) {
      var name := t[1..|t| - 10];
      assert t == "<" + name + "Component>";
    }
    if exists name :: |name| >= 2 && t == "<" + name + "Component>" {
      var name :| |name| >= 2 && t == "<" + name + "Component>";
      assert t[|t| - 10..] == "Component>";
    }
  }

  /** `<` + a name of two or more characters + `Component>` is a valid tag. */
  lemma ComponentTagValid(p: string)
    requires |p| >= 2
    ensures ValidTypeTag("<" + (p + "Component") + ">")
  {
    var t := "<" + (p + "Component") + ">";
    assert t[|t| - 10..] == "Component>";
  }

  /** A tag such as `<AffineComponent>`, followed by whitespace or the end
      of the line, passes the type check and is returned whole. */
  lemma AcceptsComponentTag(p: string, tail: string)
    requires |p| >= 2 && IsWord(p)
    requires |tail| == 0 || IsSpace(tail[0])
    ensures var t := "<" + (p + "Component") + ">";
      ReadComponentType(t + tail, 0) == Ok((t, |t|))
  {
    var t := "<" + (p + "Component") + ">";
    ComponentTagValid(p);
    assert forall i | 0 <= i < |t| :: !IsSpace(t[i]) by {
      var c := "Component";
      assert forall i | 0 <= i < |c| :: !IsSpace(c[i]);
      assert forall i | 0 <= i < |t| :: t[i] == '<' || t[i] == '>' || (1 <= i <= |p| && t[i] == p[i - 1]) || (|p| < i < |t| - 1 && t[i] == c[i - 1 - |p|]);
    }
    NextTokenReadsBack("", t, tail);
    assert "" + t + tail == t + tail;
  }

  /** Any other word, wherever it stands on the line, fails the type check,
      and the error names the word and the position after it. */
  lemma RejectsMalformedTag(lead: string, w: string, tail: string)
    requires forall i | 0 <= i < |lead| :: IsSpace(lead[i])
    requires IsWord(w)
    requires |tail| == 0 || IsSpace(tail[0])
    requires !ValidTypeTag(w)
    ensures ReadComponentType(lead + w + tail, 0) == Err(BadComponentType(|lead| + |w|, Some(w)))
  {
    NextTokenReadsBack(lead, w, tail);
  }

  /** `__check_for_newline`: skip whitespace, reporting whether a `\n` was skipped. */
  function CheckForNewline(line: string, pos: nat): (r: (bool, nat))
    ensures r.1 == pos || r.1 <= |line|
    ensures pos <= r.1
    ensures forall i | pos <= i < r.1 :: i < |line| && IsSpace(line[i])
    ensures r.1 < |line| ==> !IsSpace(line[r.1])
    ensures r.0 <==> exists i | pos <= i < r.1 :: line[i] == '\n'
    decreases Remaining(line, pos)
  {
    if pos < |line| && IsSpace(line[pos]) then
      var (saw, q) := CheckForNewline(line, pos + 1);
      (saw || line[pos] == '\n', q)
    else (false, pos)
  }

  /** Over a run of whitespace `g` that ends at a non-space character (or the
      line's end), the newline check skips exactly `g` and reports whether `g`
      holds a `\n`. */
  lemma CheckForNewlineOver(a: string, g: string, b: string)
    requires forall i | 0 <= i < |g| :: IsSpace(g[i])
    requires |b| == 0 || !IsSpace(b[0])
    ensures CheckForNewline(a + g + b, |a|)
         == ((exists i | 0 <= i < |g| :: g[i] == '\n'), |a| + |g|)
  {
    var line := a + g + b;
    var (saw, q) := CheckForNewline(line, |a|);
    assert forall i | 0 <= i < |g| :: line[|a| + i] == g[i];
    assert q == |a| + |g| by {
      assert |a| + |g| < |line| ==> line[|a| + |g|] == b[0];
    }
    if saw {
      var k :| |a| <= k < q && line[k] == '\n';
      assert g[k - |a|] == '\n';
    }
  }

  // ---------------------------------------------------------------------------
  // The line cursor and the token stream it denotes
  // ---------------------------------------------------------------------------

  /** Where the reader stands: the current line, the position in it, and the
      lines the line buffer has not handed out yet. */
  datatype Cursor = Cursor(line: string, pos: nat, rest: seq<string>)

  /** `next(line_buffer)`: the next line, read from position 0. */
  function Pull(cur: Cursor): (c: Cursor)
    requires |cur.rest| > 0
    ensures |c.rest| == |cur.rest| - 1
  {
    Cursor(cur.rest[0], 0, cur.rest[1..])
  }

  /** `later` is reachable from `earlier` by reading: lines are only ever
      taken from the front of the buffer and never re-read, and on the same
      line the position only moves forward. */
  predicate Advanced(earlier: Cursor, later: Cursor) {
    && |later.rest| <= |earlier.rest|
    && later.rest == earlier.rest[|earlier.rest| - |later.rest|..]
    && (|later.rest| == |earlier.rest| ==> later.line == earlier.line && earlier.pos <= later.pos)
  }

  /** Moving along the line, or pulling the next line, is reading forward. */
  lemma AdvancedStep(cur: Cursor, q: nat)
    requires cur.pos <= q
    ensures Advanced(cur, cur.(pos := q))
    ensures |cur.rest| > 0 ==> Advanced(cur, Pull(cur))
  {
    if |cur.rest| > 0 {
      assert Pull(cur).rest == cur.rest[|cur.rest| - |Pull(cur).rest|..];
    }
  }

  lemma AdvancedTrans(a: Cursor, b: Cursor, c: Cursor)
    requires Advanced(a, b) && Advanced(b, c)
    ensures Advanced(a, c)
  {
    assert c.rest == a.rest[|a.rest| - |c.rest|..];
  }

  /** Every token of `line` from `pos` on, as repeated `read_next_token` calls return them. */
  function LineTokens(line: string, pos: nat): (ts: seq<string>)
    decreases Remaining(line, pos)
  {
    match NextToken(line, pos)
    case (None, _) => []
    case (Some(t), q) => [t] + LineTokens(line, q)
  }

  function RestTokens(rest: seq<string>): seq<string>
    decreases |rest|
  {
    if |rest| == 0 then [] else LineTokens(rest[0], 0) + RestTokens(rest[1..])
  }

  /** The tokens still ahead of the cursor, across all remaining lines. */
  function Stream(cur: Cursor): seq<string> {
    LineTokens(cur.line, cur.pos) + RestTokens(cur.rest)
  }

  predicate IsSuffix<T(==)>(a: seq<T>, b: seq<T>) {
    |a| <= |b| && b[|b| - |a|..] == a
  }

  lemma SuffixTrans<T>(a: seq<T>, b: seq<T>, c: seq<T>)
    requires IsSuffix(a, b) && IsSuffix(b, c)
    ensures IsSuffix(a, c)
  {
    assert c[|c| - |a|..] == c[|c| - |b|..][|b| - |a|..];
  }

  /** One step of the tokenizer moves along the stream by exactly the token
      it returns; a used-up line hands over to the next line unchanged. */
  lemma StreamStep(cur: Cursor)
    ensures var (t, q) := NextToken(cur.line, cur.pos);
      && (t.Some? ==> Stream(cur) == [t.value] + Stream(cur.(pos := q)))
      && (t.None? ==> LineTokens(cur.line, cur.pos) == [] && LineTokens(cur.line, q) == [])
      && (t.None? && |cur.rest| > 0 ==> Stream(cur) == Stream(Pull(cur)))
      && (t.None? && |cur.rest| == 0 ==> Stream(cur) == [])
  {
    var (t, q) := NextToken(cur.line, cur.pos);
    if t.None? {
      assert NextToken(cur.line, q).0.None?;
    }
  }

  /** Taking a token moves the cursor forward along the stream. */
  lemma TokenStep(cur: Cursor)
    requires NextToken(cur.line, cur.pos).0.Some?
    ensures var (t, q) := NextToken(cur.line, cur.pos);
      && Advanced(cur, cur.(pos := q))
      && Stream(cur) == [t.value] + Stream(cur.(pos := q))
      && IsSuffix(Stream(cur.(pos := q)), Stream(cur))
  {
    var (t, q) := NextToken(cur.line, cur.pos);
    StreamStep(cur);
    SuffixCons(t.value, Stream(cur.(pos := q)));
  }

  /** Pulling the next line moves the cursor forward and loses no token. */
  lemma PullStep(cur: Cursor)
    requires NextToken(cur.line, cur.pos).0.None? && |cur.rest| > 0
    ensures Advanced(cur, Pull(cur)) && Stream(cur) == Stream(Pull(cur))
    ensures IsSuffix(Stream(Pull(cur)), Stream(cur))
  {
    StreamStep(cur);
    assert Pull(cur).rest == cur.rest[|cur.rest| - |Pull(cur).rest|..];
  }

  /** When the line still holds a token, that token heads the stream. */
  lemma StreamHead(cur: Cursor)
    requires NextToken(cur.line, cur.pos).0.Some?
    ensures |Stream(cur)| > 0 && Stream(cur)[0] == NextToken(cur.line, cur.pos).0.value
    ensures Stream(cur)[1..] == Stream(cur.(pos := NextToken(cur.line, cur.pos).1))
  {
    StreamStep(cur);
  }

  // ---------------------------------------------------------------------------
  // Nothing is skipped or duplicated
  // ---------------------------------------------------------------------------

  /** The non-whitespace characters of `s`, in order. */
  function NonSpace(s: string): string
    decreases |s|
  {
    if |s| == 0 then "" else (if IsSpace(s[0]) then "" else [s[0]]) + NonSpace(s[1..])
  }

  function Concat(ts: seq<string>): string
    decreases |ts|
  {
    if |ts| == 0 then "" else ts[0] + Concat(ts[1..])
  }

  lemma {:induction false} NonSpaceAppend(a: string, b: string)
    ensures NonSpace(a + b) == NonSpace(a) + NonSpace(b)
    decreases |a|
  {
    if |a| > 0 {
      assert (a + b)[1..] == a[1..] + b;
      NonSpaceAppend(a[1..], b);
    } else {
      assert a + b == b;
    }
  }

  lemma SplitThree<T>(x: seq<T>, i: nat, j: nat, k: nat)
    requires i <= j <= k <= |x|
    ensures x[i..] == x[i..j] + x[j..k] + x[k..]
  {
  }

  lemma {:induction false} NonSpaceOfSpaces(s: string)
    requires forall i | 0 <= i < |s| :: IsSpace(s[i])
    ensures NonSpace(s) == ""
    decreases |s|
  {
    if |s| > 0 {
      NonSpaceOfSpaces(s[1..]);
    }
  }

  lemma {:induction false} NonSpaceOfWord(s: string)
    requires forall i | 0 <= i < |s| :: !IsSpace(s[i])
    ensures NonSpace(s) == s
    decreases |s|
  {
    if |s| > 0 {
      NonSpaceOfWord(s[1..]);
      assert s == [s[0]] + s[1..];
    }
  }

  /** Repeated `read_next_token` calls consume the line left to right with
      no character skipped or duplicated: the tokens, put back together, are
      exactly the line's non-whitespace characters from `pos` on. */
  lemma {:induction false} LineTokensCover(line: string, pos: nat)
    requires pos <= |line|
    ensures Concat(LineTokens(line, pos)) == NonSpace(line[pos..])
    decreases Remaining(line, pos)
  {
    var (t, q) := NextToken(line, pos);
    if t.None? {
      NonSpaceOfSpaces(line[pos..]);
    } else {
      var w := t.value;
      var s := q - |w|;
      var a, b, c := line[pos..s], line[s..q], line[q..];
      SplitThree(line, pos, s, q);
      assert b == w;
      calc {
        NonSpace(line[pos..]);
        { NonSpaceAppend(a + b, c); }
        NonSpace(a + b) + NonSpace(c);
        { NonSpaceAppend(a, b); NonSpaceOfSpaces(a); }
        NonSpace(b) + NonSpace(c);
        { NonSpaceOfWord(b); }
        w + NonSpace(c);
        { LineTokensCover(line, q); }
        w + Concat(LineTokens(line, q));
      }
      var ts := LineTokens(line, pos);
      assert ts[0] == w && ts[1..] == LineTokens(line, q);
    }
  }

  /** Every token on a line is a non-empty run without whitespace. */
  lemma {:induction false} LineTokensAreWords(line: string, pos: nat)
    ensures forall k | 0 <= k < |LineTokens(line, pos)| :: IsWord(LineTokens(line, pos)[k])
    decreases Remaining(line, pos)
  {
    var (t, q) := NextToken(line, pos);
    if t.Some? {
      LineTokensAreWords(line, q);
      var ts := LineTokens(line, pos);
      assert ts == [t.value] + LineTokens(line, q);
    }
  }

  // ---------------------------------------------------------------------------
  // Stepping lemmas used by the readers' proofs
  // ---------------------------------------------------------------------------

  /** One tokenizer step on a line: the token heads the line's tokens. */
  lemma LineTokensStep(line: string, pos: nat)
    ensures var (t, q) := NextToken(line, pos);
      && (t.Some? ==> LineTokens(line, pos) == [t.value] + LineTokens(line, q))
      && (t.None? ==> LineTokens(line, pos) == [] && LineTokens(line, q) == [])
  {
    var (t, q) := NextToken(line, pos);
    if t.None? {
      assert NextToken(line, q).0.None?;
    }
  }

  /** Skipping whitespace does not change the tokens ahead. */
  lemma LineTokensAfterSpace(line: string, p: nat, p2: nat)
    requires p <= p2 && (p2 == p || p2 <= |line|)
    requires forall i | p <= i < p2 :: i < |line| && IsSpace(line[i])
    ensures NextToken(line, p) == NextToken(line, p2)
    ensures LineTokens(line, p) == LineTokens(line, p2)
  {
    var (t, q) := NextToken(line, p2);
    if t.Some? {
      var w := t.value;
      assert TokenAt(line, p, w, q);
      assert line[q - |w|] == w[0];
      var (t', q') := NextToken(line, p);
      TokenAtUnique(line, p, w, q, t'.value, q');
    }
  }

  lemma SuffixCons<T>(x: T, b: seq<T>)
    ensures IsSuffix(b, [x] + b)
  {
    assert ([x] + b)[1..] == b;
  }

  lemma SuffixExtend<T>(a: seq<T>, b: seq<T>, tail: seq<T>)
    requires IsSuffix(a, b)
    ensures IsSuffix(a + tail, b + tail)
  {
    assert (b + tail)[|b| - |a|..] == b[|b| - |a|..] + tail;
  }
}
