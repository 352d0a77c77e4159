/** `_split_sql_literals` of `db.py` against a character-level lexer of single-quoted SQL strings and
    `--` line comments. */
module SqlLiterals {

  datatype Segment = Segment(literal: bool, text: string)

  // ---------------------------------------------------------------- the lexer

  /** Where a lexer is after reading a prefix: in code, after one dash, in a line comment, inside a
      string, or just past a quote inside a string, which may close it or begin an escape. */
  datatype Mode = Code | Dash | Comment | Str | StrQuote

  function Next(m: Mode, c: char): Mode {
    match m
    case Comment => if c == '\n' then Code else Comment
    case Str => if c == '\'' then StrQuote else Str
    case StrQuote => if c == '\'' then Str else if c == '-' then Dash else Code
    case Dash => if c == '-' then Comment else if c == '\'' then Str else Code
    case Code => if c == '-' then Dash else if c == '\'' then Str else Code
  }

  function Lex(s: string): Mode {
    if s == "" then Code else Next(Lex(s[..|s| - 1]), s[|s| - 1])
  }

  predicate InString(m: Mode) { m == Str || m == StrQuote }

  /** For each character, whether it belongs to a string literal, quotes included. */
  function Labels(s: string): (r: seq<bool>)
    ensures |r| == |s|
  {
    if s == "" then [] else Labels(s[..|s| - 1]) + [InString(Lex(s))]
  }

  lemma LexSnoc(s: string, c: char)
    ensures Lex(s + [c]) == Next(Lex(s), c)
    ensures Labels(s + [c]) == Labels(s) + [InString(Next(Lex(s), c))]
  {
    assert (s + [c])[..|s|] == s;
  }

  // ---------------------------------------------------------------- what segments mean

  function Flatten(segs: seq<Segment>): string {
    if segs == [] then "" else Flatten(segs[..|segs| - 1]) + segs[|segs| - 1].text
  }

  function Repeat(b: bool, n: nat): (r: seq<bool>)
    ensures |r| == n && forall i :: 0 <= i < n ==> r[i] == b
  {
    seq(n, _ => b)
  }

  function SegmentLabels(segs: seq<Segment>): seq<bool> {
    if segs == [] then []
    else SegmentLabels(segs[..|segs| - 1]) + Repeat(segs[|segs| - 1].literal, |segs[|segs| - 1].text|)
  }

  /** The inside of an unfinished string: every quote doubled. */
  predicate OpenBody(u: string) {
    u == "" || (if u[0] == '\'' then |u| >= 2 && u[1] == '\'' && OpenBody(u[2..]) else OpenBody(u[1..]))
  }

  /** The rest of a finished string after its opening quote: inner quotes doubled, then one quote. */
  predicate ClosedBody(u: string) {
    u != "" && (u == "'" || (if u[0] == '\'' then |u| >= 2 && u[1] == '\'' && ClosedBody(u[2..])
        else ClosedBody(u[1..])))
  }

  predicate OneString(t: string) {
    t != "" && t[0] == '\'' && ClosedBody(t[1..])
  }

  predicate UnfinishedString(t: string) {
    t != "" && t[0] == '\'' && OpenBody(t[1..])
  }

  /** Position `k` lies behind a `--` on its own line. */
  ghost predicate InComment(t: string, k: nat)
    requires k < |t|
  {
    exists j :: OpensComment(t, j, k)
  }

  ghost predicate OpensComment(t: string, j: int, k: nat)
    requires k < |t|
  {
    0 <= j < k - 1 && t[j] == '-' && t[j + 1] == '-' && forall m :: j <= m <= k ==> t[m] != '\n'
  }

  ghost predicate QuotesOnlyInComments(t: string) {
    forall k: nat :: k < |t| && t[k] == '\'' ==> InComment(t, k)
  }

  ghost predicate Shaped(seg: Segment) {
    seg.text != "" && if seg.literal then OneString(seg.text) else QuotesOnlyInComments(seg.text)
  }

  ghost predicate Alternating(segs: seq<Segment>) {
    forall i, j :: 0 <= i < |segs| && j == i + 1 && j < |segs| ==> segs[i].literal != segs[j].literal
  }

  // ---------------------------------------------------------------- growing a string

  lemma {:induction false} OpenSnoc(u: string, c: char)
    requires OpenBody(u) && c != '\''
    ensures OpenBody(u + [c])
  {
    if u != "" {
      if u[0] == '\'' {
        OpenSnoc(u[2..], c);
        assert (u + [c])[2..] == u[2..] + [c];
      } else {
        OpenSnoc(u[1..], c);
        assert (u + [c])[1..] == u[1..] + [c];
      }
    } else {
      assert ([c])[1..] == "";
    }
  }

  lemma {:induction false} OpenEscape(u: string)
    requires OpenBody(u)
    ensures OpenBody(u + "''")
  {
    if u != "" {
      if u[0] == '\'' {
        OpenEscape(u[2..]);
        assert (u + "''")[2..] == u[2..] + "''";
      } else {
        OpenEscape(u[1..]);
        assert (u + "''")[1..] == u[1..] + "''";
      }
    } else {
      assert u + "''" == "''" && "''"[2..] == "";
    }
  }

  lemma {:induction false} OpenCloses(u: string)
    requires OpenBody(u)
    ensures ClosedBody(u + "'")
  {
    if u != "" {
      if u[0] == '\'' {
        OpenCloses(u[2..]);
        assert (u + "'")[2..] == u[2..] + "'";
        assert u + "'" != "'" by { assert |u + "'"| > 1; }
      } else {
        OpenCloses(u[1..]);
        assert (u + "'")[1..] == u[1..] + "'";
        assert u + "'" != "'" by { assert |u + "'"| > 1; }
      }
    } else {
      assert u + "'" == "'";
    }
  }

  // ---------------------------------------------------------------- growing code

  lemma InCommentExtends(t: string, x: string, k: nat)
    requires k < |t| && InComment(t, k)
    ensures InComment(t + x, k)
  {
    var j :| OpensComment(t, j, k);
    assert OpensComment(t + x, j, k);
  }

  lemma CodeSnoc(t: string, c: char)
    requires QuotesOnlyInComments(t) && c != '\''
    ensures QuotesOnlyInComments(t + [c])
  {
    forall k: nat | k < |t + [c]| && (t + [c])[k] == '\''
      ensures InComment(t + [c], k)
    {
      InCommentExtends(t, [c], k);
    }
  }

  ghost predicate IsComment(x: string) {
    |x| >= 2 && x[0] == '-' && x[1] == '-' && forall m :: 0 <= m < |x| ==> x[m] != '\n'
  }

  lemma CodeTakesComment(t: string, x: string)
    requires QuotesOnlyInComments(t) && IsComment(x)
    ensures QuotesOnlyInComments(t + x)
  {
    forall k: nat | k < |t + x| && (t + x)[k] == '\''
      ensures InComment(t + x, k)
    {
      if k < |t| {
        InCommentExtends(t, x, k);
      } else {
        assert OpensComment(t + x, |t|, k);
      }
    }
  }

  lemma LexSnocPlain(s: string, c: char)
    requires !InString(Next(Lex(s), c))
    ensures Lex(s + [c]) == Next(Lex(s), c)
    ensures Labels(s + [c]) == Labels(s) + [false]
  {
    LexSnoc(s, c);
  }

  lemma RepeatMore(s: seq<bool>, b: bool, m: nat, n: nat)
    ensures s + Repeat(b, m + n) == s + Repeat(b, m) + Repeat(b, n)
  {
    assert Repeat(b, m + n) == Repeat(b, m) + Repeat(b, n);
  }

  lemma RepeatOnce(s: seq<bool>, b: bool, m: nat)
    ensures s + Repeat(b, m) + [b] == s + Repeat(b, m + 1)
  {
    assert Repeat(b, m + 1) == Repeat(b, m) + [b];
  }

  lemma LexDashes(s: string)
    requires Lex(s) == Code || Lex(s) == StrQuote
    ensures Lex(s + "--") == Comment
    ensures Labels(s + "--") == Labels(s) + Repeat(false, 2)
  {
    LexSnocPlain(s, '-');
    LexSnocPlain(s + ['-'], '-');
    assert s + "--" == s + ['-'] + ['-'];
    assert Repeat(false, 2) == [false] + [false];
  }

  /** Inside a comment, reading on without a newline stays there. */
  lemma {:induction false} LexRest(s: string, y: string)
    requires Lex(s) == Comment && forall m :: 0 <= m < |y| ==> y[m] != '\n'
    ensures Lex(s + y) == Comment
    ensures Labels(s + y) == Labels(s) + Repeat(false, |y|)
  {
    if y == "" {
      assert s + y == s;
      assert Labels(s) + Repeat(false, 0) == Labels(s);
    } else {
      var z, c := y[..|y| - 1], y[|y| - 1];
      LexRest(s, z);
      LexSnocPlain(s + z, c);
      assert s + y == s + z + [c];
      RepeatOnce(Labels(s), false, |z|);
    }
  }

  lemma LexDashesThen(s: string, y: string)
    requires Lex(s) == Code || Lex(s) == StrQuote
    requires forall m :: 0 <= m < |y| ==> y[m] != '\n'
    ensures Lex(s + ("--" + y)) == Comment
    ensures Labels(s + ("--" + y)) == Labels(s) + Repeat(false, 2 + |y|)
  {
    LexDashes(s);
    LexRest(s + "--", y);
    Regroup(s, "--", y);
    RepeatMore(Labels(s), false, 2, |y|);
  }

  /** Reading a whole comment keeps the lexer out of strings. */
  lemma LexComment(s: string, x: string)
    requires IsComment(x) && (Lex(s) == Code || Lex(s) == StrQuote)
    ensures Lex(s + x) == Comment
    ensures Labels(s + x) == Labels(s) + Repeat(false, |x|)
  {
    assert x == "--" + x[2..];
    LexDashesThen(s, x[2..]);
  }

  // ---------------------------------------------------------------- the split

  function FindNewline(s: string, i: nat): (j: nat)
    requires i <= |s|
    ensures i <= j <= |s| && (j < |s| ==> s[j] == '\n')
    ensures forall k :: i <= k < j ==> s[k] != '\n'
    decreases |s| - i
  {
    if i == |s| || s[i] == '\n' then i else FindNewline(s, i + 1)
  }

  /** The loop's state after reading `read`, with `rest` to come: finished segments, a buffer, and
      whether the buffer is inside a string. */
  ghost predicate Reading(read: string, rest: string, segs: seq<Segment>, buf: string, inStr: bool) {
    && Spells(read, segs, buf, inStr)
    && Finished(segs)
    && (segs != [] ==> segs[|segs| - 1].literal != inStr)
    && (if inStr then UnfinishedString(buf) && Lex(read) == Str
        else && QuotesOnlyInComments(buf)
             && Calm(Lex(read), rest)
             && (segs != [] && buf == "" ==> Lex(read) == StrQuote))
  }

  ghost predicate Spells(read: string, segs: seq<Segment>, buf: string, inStr: bool) {
    && Flatten(segs) + buf == read
    && SegmentLabels(segs) + Repeat(inStr, |buf|) == Labels(read)
  }

  ghost predicate Finished(segs: seq<Segment>) {
    && (forall i :: 0 <= i < |segs| ==> Shaped(segs[i]))
    && Alternating(segs)
  }

  /** Outside a string, the next character cannot be one the lexer would treat specially. */
  predicate Calm(m: Mode, rest: string) {
    match m
    case Code => true
    case Dash => rest == "" || rest[0] != '-'
    case Comment => rest == "" || rest[0] == '\n'
    case StrQuote => rest == "" || rest[0] != '\''
    case Str => false
  }

  lemma FlattenSnoc(segs: seq<Segment>, x: Segment)
    ensures Flatten(segs + [x]) == Flatten(segs) + x.text
    ensures SegmentLabels(segs + [x]) == SegmentLabels(segs) + Repeat(x.literal, |x.text|)
  {
    assert (segs + [x])[..|segs|] == segs;
  }

  /** Flushing the buffer to a segment of its own kind changes neither text nor labels. */
  lemma Flush(read: string, segs: seq<Segment>, buf: string, inStr: bool, next: bool)
    requires Spells(read, segs, buf, inStr)
    ensures Spells(read, segs + [Segment(inStr, buf)], "", next)
  {
    FlattenSnoc(segs, Segment(inStr, buf));
    assert read + "" == read;
    assert Repeat(next, 0) == [];
    assert Labels(read) + [] == Labels(read);
  }

  /** An empty buffer has no kind. */
  lemma Relabel(read: string, segs: seq<Segment>, inStr: bool, next: bool)
    requires Spells(read, segs, "", inStr)
    ensures Spells(read, segs, "", next)
  {
    assert Repeat(inStr, 0) == [] == Repeat(next, 0);
  }

  lemma Regroup(flat: string, buf: string, x: string)
    ensures flat + (buf + x) == flat + buf + x
  {
  }

  /** Buffering more characters, all labelled alike. */
  lemma Grow(read: string, segs: seq<Segment>, buf: string, inStr: bool, x: string)
    requires Spells(read, segs, buf, inStr)
    requires Labels(read + x) == Labels(read) + Repeat(inStr, |x|)
    ensures Spells(read + x, segs, buf + x, inStr)
  {
    Regroup(Flatten(segs), buf, x);
    RepeatMore(SegmentLabels(segs), inStr, |buf|, |x|);
  }

  lemma FinishedSnoc(segs: seq<Segment>, x: Segment)
    requires Finished(segs) && Shaped(x)
    requires segs != [] ==> segs[|segs| - 1].literal != x.literal
    ensures Finished(segs + [x])
  {
  }

  lemma ReadComment(read: string, rest: string, segs: seq<Segment>, buf: string, j: nat)
    requires Reading(read, rest, segs, buf, false)
    requires 2 <= j <= |rest| && IsComment(rest[..j]) && (j < |rest| ==> rest[j] == '\n')
    ensures Reading(read + rest[..j], rest[j..], segs, buf + rest[..j], false)
  {
    LexComment(read, rest[..j]);
    CodeTakesComment(buf, rest[..j]);
    Grow(read, segs, buf, false, rest[..j]);
  }

  lemma ReadCode(read: string, rest: string, segs: seq<Segment>, buf: string)
    requires Reading(read, rest, segs, buf, false)
    requires rest != "" && rest[0] != '\'' && !(rest[0] == '-' && |rest| > 1 && rest[1] == '-')
    ensures Reading(read + [rest[0]], rest[1..], segs, buf + [rest[0]], false)
  {
    LexSnoc(read, rest[0]);
    CodeSnoc(buf, rest[0]);
    assert Repeat(false, 1) == [false];
    Grow(read, segs, buf, false, [rest[0]]);
  }

  lemma ReadOpeningQuote(read: string, rest: string, segs: seq<Segment>, buf: string)
    requires Reading(read, rest, segs, buf, false) && rest != "" && rest[0] == '\''
    ensures var out := if buf == "" then segs else segs + [Segment(false, buf)];
            Reading(read + ['\''], rest[1..], out, "'", true)
  {
    var out := if buf == "" then segs else segs + [Segment(false, buf)];
    if buf == "" {
      Relabel(read, segs, false, true);
    } else {
      Flush(read, segs, buf, false, true);
      FinishedSnoc(segs, Segment(false, buf));
    }
    LexSnoc(read, '\'');
    assert Repeat(true, 1) == [true];
    Grow(read, out, "", true, ['\'']);
    assert "" + ['\''] == "'";
    assert "'"[1..] == "";
  }

  lemma ReadStringChar(read: string, rest: string, segs: seq<Segment>, buf: string)
    requires Reading(read, rest, segs, buf, true) && rest != "" && rest[0] != '\''
    ensures Reading(read + [rest[0]], rest[1..], segs, buf + [rest[0]], true)
  {
    LexSnoc(read, rest[0]);
    OpenSnoc(buf[1..], rest[0]);
    assert (buf + [rest[0]])[1..] == buf[1..] + [rest[0]];
    assert Repeat(true, 1) == [true];
    Grow(read, segs, buf, true, [rest[0]]);
  }

  lemma ReadEscape(read: string, rest: string, segs: seq<Segment>, buf: string)
    requires Reading(read, rest, segs, buf, true) && |rest| >= 2 && rest[0] == '\'' && rest[1] == '\''
    ensures Reading(read + "''", rest[2..], segs, buf + "''", true)
  {
    LexSnoc(read, '\'');
    LexSnoc(read + ['\''], '\'');
    assert read + "''" == read + ['\''] + ['\''];
    OpenEscape(buf[1..]);
    assert (buf + "''")[1..] == buf[1..] + "''";
    assert Repeat(true, 2) == [true] + [true];
    Grow(read, segs, buf, true, "''");
  }

  lemma ReadClosingQuote(read: string, rest: string, segs: seq<Segment>, buf: string)
    requires Reading(read, rest, segs, buf, true) && rest != "" && rest[0] == '\'' && (|rest| == 1 || rest[1] != '\'')
    ensures Reading(read + ['\''], rest[1..], segs + [Segment(true, buf + ['\''])], "", false)
  {
    var text := buf + ['\''];
    LexSnoc(read, '\'');
    assert Repeat(true, 1) == [true];
    Grow(read, segs, buf, true, ['\'']);
    Flush(read + ['\''], segs, text, true, false);
    ClosedIsShaped(buf);
    FinishedSnoc(segs, Segment(true, text));
  }

  lemma ClosedIsShaped(buf: string)
    requires UnfinishedString(buf)
    ensures Shaped(Segment(true, buf + ['\'']))
  {
    OpenCloses(buf[1..]);
    assert (buf + ['\''])[1..] == buf[1..] + "'";
  }

  /** What the split promises of its segments. */
  ghost predicate Splits(sql: string, segs: seq<Segment>) {
    && Flatten(segs) == sql
    && SegmentLabels(segs) == Labels(sql)
    && Alternating(segs)
    && (forall i :: 0 <= i < |segs| - 1 ==> Shaped(segs[i]))
    && (segs != [] ==>
          var last := segs[|segs| - 1];
          if Lex(sql) == Str then last.literal && UnfinishedString(last.text) else Shaped(last))
  }

  lemma LastFlush(sql: string, segs: seq<Segment>, buf: string, inStr: bool)
    requires Reading(sql, "", segs, buf, inStr)
    ensures Splits(sql, if buf == "" then segs else segs + [Segment(inStr, buf)])
  {
    if buf == "" {
      assert Flatten(segs) + "" == Flatten(segs);
      assert Repeat(inStr, 0) == [];
    } else {
      Flush(sql, segs, buf, inStr, inStr);
      var out := segs + [Segment(inStr, buf)];
      assert Flatten(out) + "" == Flatten(out);
      assert Repeat(inStr, 0) == [];
      assert Alternating(out);
    }
  }

  // ---------------------------------------------------------------- one split only

  ghost predicate Proper(segs: seq<Segment>) {
    Alternating(segs) && forall i :: 0 <= i < |segs| ==> segs[i].text != ""
  }

  lemma ProperInit(segs: seq<Segment>)
    requires Proper(segs) && segs != []
    ensures Proper(segs[..|segs| - 1])
  {
    var init := segs[..|segs| - 1];
    assert forall i :: 0 <= i < |init| ==> init[i] == segs[i];
  }

  lemma {:induction false} LabelsMatchText(segs: seq<Segment>)
    ensures |SegmentLabels(segs)| == |Flatten(segs)|
  {
    if segs != [] { LabelsMatchText(segs[..|segs| - 1]); }
  }

  /** The labels end in a run as long as the last segment, and what comes before it differs. */
  lemma LastRun(segs: seq<Segment>)
    requires Proper(segs) && segs != []
    ensures var labels, last := SegmentLabels(segs), segs[|segs| - 1];
            && |last.text| <= |labels|
            && (forall k :: |labels| - |last.text| <= k < |labels| ==> labels[k] == last.literal)
            && (|last.text| < |labels| ==> labels[|labels| - |last.text| - 1] != last.literal)
  {
    var init := segs[..|segs| - 1];
    if init != [] {
      var x := init[|init| - 1];
      assert x == segs[|segs| - 2] && x.literal != segs[|segs| - 1].literal;
      assert SegmentLabels(init) == SegmentLabels(init[..|init| - 1]) + Repeat(x.literal, |x.text|);
      assert x.text != "";
    }
  }

  /** Text and labels determine properly alternating segments. */
  lemma {:induction false} SegmentsAreDetermined(a: seq<Segment>, b: seq<Segment>)
    requires Proper(a) && Proper(b) && Flatten(a) == Flatten(b) && SegmentLabels(a) == SegmentLabels(b)
    ensures a == b
  {
    LabelsMatchText(a);
    LabelsMatchText(b);
    if a == [] || b == [] {
      NothingSpelled(a);
      NothingSpelled(b);
    } else {
      LastRun(a);
      LastRun(b);
      var x, y := a[|a| - 1], b[|b| - 1];
      var labels := SegmentLabels(a);
      assert labels[|labels| - 1] == x.literal == y.literal;
      assert |x.text| == |y.text|;
      var a1, b1 := a[..|a| - 1], b[..|b| - 1];
      SameEnds(Flatten(a1), x.text, Flatten(b1), y.text);
      SameEnds(SegmentLabels(a1), Repeat(x.literal, |x.text|), SegmentLabels(b1), Repeat(y.literal, |y.text|));
      ProperInit(a);
      ProperInit(b);
      SegmentsAreDetermined(a1, b1);
      assert a == a1 + [x] && b == b1 + [y];
    }
  }

  lemma SameEnds<T>(p: seq<T>, x: seq<T>, q: seq<T>, y: seq<T>)
    requires p + x == q + y && |x| == |y|
    ensures p == q && x == y
  {
    assert p == (p + x)[..|p|] && q == (q + y)[..|q|];
    assert x == (p + x)[|p|..] && y == (q + y)[|q|..];
  }

  lemma NothingSpelled(segs: seq<Segment>)
    requires Proper(segs)
    ensures Flatten(segs) == "" <==> segs == []
  {
    if segs != [] {
      assert segs[|segs| - 1].text != "";
      assert |Flatten(segs)| >= |segs[|segs| - 1].text|;
    }
  }

  /** What is promised of the split leaves no choice: for every string there is one such list. */
  lemma SplitIsUnique(sql: string, a: seq<Segment>, b: seq<Segment>)
    requires Splits(sql, a) && Splits(sql, b)
    ensures a == b
  {
    SplitIsProper(sql, a);
    SplitIsProper(sql, b);
    SegmentsAreDetermined(a, b);
  }

  lemma SplitIsProper(sql: string, segs: seq<Segment>)
    requires Splits(sql, segs)
    ensures Proper(segs)
  {
    forall i | 0 <= i < |segs|
      ensures segs[i].text != ""
    {
      if i < |segs| - 1 { assert Shaped(segs[i]); }
    }
  }

  // ---------------------------------------------------------------- the loop

  ghost predicate At(sql: string, i: int, segs: seq<Segment>, buf: string, inStr: bool) {
    0 <= i <= |sql| && Reading(sql[..i], sql[i..], segs, buf, inStr)
  }

  lemma Ahead(sql: string, i: nat, j: nat)
    requires i <= j <= |sql|
    ensures sql[..i] + sql[i..][..j - i] == sql[..j]
    ensures sql[i..][j - i..] == sql[j..]
    ensures sql[i..][..j - i] == sql[i..j]
  {
  }

  lemma AtComment(sql: string, i: nat, segs: seq<Segment>, buf: string)
    requires i + 1 < |sql| && sql[i] == '-' && sql[i + 1] == '-'
    requires At(sql, i, segs, buf, false)
    ensures var j := FindNewline(sql, i); At(sql, j, segs, buf + sql[i..j], false)
  {
    var j := FindNewline(sql, i);
    assert j >= i + 2;
    Ahead(sql, i, j);
    assert IsComment(sql[i..j]);
    ReadComment(sql[..i], sql[i..], segs, buf, j - i);
  }

  lemma AtOpeningQuote(sql: string, i: nat, segs: seq<Segment>, buf: string)
    requires i < |sql| && At(sql, i, segs, buf, false) && sql[i] == '\''
    ensures At(sql, i + 1, if buf == "" then segs else segs + [Segment(false, buf)], "'", true)
  {
    Ahead(sql, i, i + 1);
    assert sql[i..][..1] == ['\''];
    ReadOpeningQuote(sql[..i], sql[i..], segs, buf);
  }

  lemma AtCode(sql: string, i: nat, segs: seq<Segment>, buf: string)
    requires i < |sql| && At(sql, i, segs, buf, false)
    requires sql[i] != '\'' && !(sql[i] == '-' && i + 1 < |sql| && sql[i + 1] == '-')
    ensures At(sql, i + 1, segs, buf + [sql[i]], false)
  {
    Ahead(sql, i, i + 1);
    assert sql[i..][..1] == [sql[i]];
    ReadCode(sql[..i], sql[i..], segs, buf);
  }

  lemma AtStringChar(sql: string, i: nat, segs: seq<Segment>, buf: string)
    requires i < |sql| && At(sql, i, segs, buf, true) && sql[i] != '\''
    ensures At(sql, i + 1, segs, buf + [sql[i]], true)
  {
    Ahead(sql, i, i + 1);
    assert sql[i..][..1] == [sql[i]];
    ReadStringChar(sql[..i], sql[i..], segs, buf);
  }

  lemma AtClosingQuote(sql: string, i: nat, segs: seq<Segment>, buf: string)
    requires i < |sql| && At(sql, i, segs, buf, true)
    requires sql[i] == '\'' && (i + 1 == |sql| || sql[i + 1] != '\'')
    ensures At(sql, i + 1, segs + [Segment(true, buf + ['\''])], "", false)
  {
    Ahead(sql, i, i + 1);
    assert sql[i..][..1] == ['\''];
    ReadClosingQuote(sql[..i], sql[i..], segs, buf);
  }

  lemma AtEscape(sql: string, i: nat, segs: seq<Segment>, buf: string)
    requires i + 1 < |sql| && sql[i] == '\'' && sql[i + 1] == '\''
    requires At(sql, i, segs, buf, true)
    ensures At(sql, i + 2, segs, buf + "''", true)
  {
    Ahead(sql, i, i + 2);
    assert sql[i..][..2] == "''";
    ReadEscape(sql[..i], sql[i..], segs, buf);
  }

  lemma AtEnd(sql: string, segs: seq<Segment>, buf: string, inStr: bool)
    requires At(sql, |sql|, segs, buf, inStr)
    ensures Splits(sql, if buf == "" then segs else segs + [Segment(inStr, buf)])
  {
    assert sql[..|sql|] == sql && sql[|sql|..] == "";
    LastFlush(sql, segs, buf, inStr);
  }

  lemma AtStart(sql: string)
    ensures At(sql, 0, [], "", false)
  {
    assert sql[..0] == "";
    assert Repeat(false, 0) == [];
  }

  /** `_split_sql_literals`: lossless for every string, and in agreement with the lexer. Each literal
      segment is one quoted string with doubled inner quotes, except a last one the lexer finds
      unfinished; quotes in other segments occur only inside `--` comments; segments alternate. */
  method SplitSqlLiterals(sql: string) returns (segs: seq<Segment>)
    ensures Splits(sql, segs)
  {
    segs := [];
    var buf, inStr, i := "", false, 0;
    AtStart(sql);
    while i < |sql|
      invariant At(sql, i, segs, buf, inStr)
    {
      var c := sql[i];
      if !inStr {
        if c == '-' && i + 1 < |sql| && sql[i + 1] == '-' {
          AtComment(sql, i, segs, buf);
          var j := FindNewline(sql, i);
          buf := buf + sql[i..j];
          i := j;
          continue;
        }
        if c == '\'' {
          AtOpeningQuote(sql, i, segs, buf);
          if buf != "" {
            segs := segs + [Segment(false, buf)];
          }
          buf := "'";
          inStr := true;
        } else {
          AtCode(sql, i, segs, buf);
          buf := buf + [c];
        }
      } else {
        if c == '\'' && i + 1 < |sql| && sql[i + 1] == '\'' {
          AtEscape(sql, i, segs, buf);
          buf := buf + "''";
          i := i + 2;
          continue;
        }
        if c == '\'' {
          AtClosingQuote(sql, i, segs, buf);
        } else {
          AtStringChar(sql, i, segs, buf);
        }
        buf := buf + [c];
        if c == '\'' {
          segs := segs + [Segment(true, buf)];
          buf := "";
          inStr := false;
        }
      }
      i := i + 1;
    }
    AtEnd(sql, segs, buf, inStr);
    if buf != "" {
      segs := segs + [Segment(inStr, buf)];
    }
  }
}
