// Parser::removeComments (Parser.cpp:669-721): reads a text stream line by line
// and returns the lines that are not empty once `//` comments, one-line
// `/* ... */` comments and multi-line `/* ... */` comments are taken out.
//
// The stream is a QTextStream over a file; here it is an object holding the
// lines readLine() would return, and the number already read.
module Comments {
  import opened QtString

  // A line-oriented input stream (the QTextStream the source reads from).
  class LineStream {
    const lines: seq<string>
    var pos: nat

    constructor (lines: seq<string>)
      ensures this.lines == lines && pos == 0
    {
      this.lines := lines;
      pos := 0;
    }

    // QTextStream::atEnd(): every line has been read.
    predicate AtEnd()
      reads this
    {
      pos >= |lines|
    }

    // QTextStream::readLine(): the next line, or an empty string at the end.
    method ReadLine() returns (line: string)
      modifies this`pos
      ensures old(pos) < |lines| ==> line == lines[old(pos)] && pos == old(pos) + 1
      ensures old(pos) >= |lines| ==> line == "" && pos == old(pos)
    {
      if pos < |lines| {
        line := lines[pos];
        pos := pos + 1;
      } else {
        line := "";
      }
    }
  }

  // A line that is empty once its spaces are gone becomes empty; tabs count as
  // content (Parser.cpp:679-683, 694-698, 710-712).
  function ClearIfBlank(t: string): string
  {
    if t != "" && ReplaceAll(t, " ", "") == "" then "" else t
  }

  // A `//` comment is cut off (Parser.cpp:675-684).
  function CutLineComment(line: string): string
  {
    if Contains(line, "//") then ClearIfBlank(Chop(line, |line| - IndexOf(line, "//"))) else line
  }

  // The inner read loop of Parser.cpp:703-705: with `k` lines read, keep reading
  // until the current line holds a `*/` or the stream is exhausted. Returns the
  // line it stops on and the number of lines read by then.
  function SkipToClose(L: seq<string>, k: nat, line: string): (r: (string, nat))
    ensures k <= r.1
    ensures k <= |L| ==> r.1 <= |L|
    ensures !Contains(r.0, "*/") ==> r.1 >= |L| && (r.1 == k ==> r.0 == line)
    decreases |L| - k
  {
    if Contains(line, "*/") || k >= |L| then (line, k)
    else SkipToClose(L, k + 1, L[k])
  }

  // A `/*` closed on its own line: the text from the first `/*` through the
  // first `*/` goes (Parser.cpp:688-698).
  function RemoveInlineBlock(cut: string): string
  {
    var s := IndexOf(cut, "/*");
    var e := IndexOf(cut, "*/");
    ClearIfBlank(Remove(cut, s, (e + 2) - s))
  }

  // The line the inner read loop stopped on: what follows its first `*/`, or the
  // whole line when it holds none (Parser.cpp:707-713).
  function AfterClose(l2: string): string
  {
    var idx := IndexOf(l2, "*/");
    if idx != -1 then ClearIfBlank(Remove(l2, 0, idx + 2)) else l2
  }

  // One pass of the outer loop body (Parser.cpp:675-716) on `line`, with `k`
  // lines read: the text to emit (empty for nothing) and the lines read after it.
  function ProcessLine(L: seq<string>, k: nat, line: string): (r: (string, nat))
    ensures k <= r.1
    ensures k <= |L| ==> r.1 <= |L|
  {
    var cut := CutLineComment(line);
    if !Contains(cut, "/*") then (cut, k)
    else if Contains(cut, "*/") then (RemoveInlineBlock(cut), k)
    else
      var (l2, k2) := SkipToClose(L, k, cut);
      (AfterClose(l2), k2)
  }

  // The output of the outer loop from the state "current line `line`, `k` lines
  // read": the loop stops as soon as the stream is at its end, before the line
  // just read is processed.
  function StripFrom(L: seq<string>, k: nat, line: string): (r: seq<string>)
    ensures forall j :: 0 <= j < |r| ==> r[j] != ""
    ensures k <= |L| ==> |r| <= |L| - k
    decreases |L| - k
  {
    if k >= |L| then []
    else
      var step := ProcessLine(L, k, line);
      var next := if step.1 < |L| then L[step.1] else "";
      var k2 := if step.1 < |L| then step.1 + 1 else step.1;
      (if step.0 != "" then [step.0] else []) + StripFrom(L, k2, next)
  }

  // removeComments on a stream positioned before line `p`.
  function StripAt(L: seq<string>, p: nat): seq<string>
  {
    if p < |L| then StripFrom(L, p + 1, L[p]) else []
  }

  // removeComments on a whole file.
  function StripComments(L: seq<string>): seq<string>
  {
    StripAt(L, 0)
  }

  // Parser.cpp:675-684.
  method CutComment(line: string) returns (r: string)
    ensures r == CutLineComment(line)
  {
    r := line;
    if Contains(r, "//") {
      var indexOfComment := IndexOf(r, "//");
      r := Chop(r, |r| - indexOfComment);
      if r != "" {
        var temp := ReplaceAll(r, " ", "");
        if temp == "" {
          r := "";
        }
      }
    }
  }

  // Parser.cpp:688-698: a `/*` closed on the same line.
  method RemoveBlockOnLine(line: string) returns (r: string)
    requires Contains(line, "/*") && Contains(line, "*/")
    ensures r == RemoveInlineBlock(line)
  {
    var sIndex := IndexOf(line, "/*");
    var eIndex := IndexOf(line, "*/");
    r := Remove(line, sIndex, (eIndex + 2) - sIndex);
    if r != "" {
      var temp := ReplaceAll(r, " ", "");
      if temp == "" {
        r := "";
      }
    }
  }

  // Parser.cpp:702-713: a `/*` left open; reads on until a line holds `*/` or
  // the stream is exhausted, and keeps what follows that `*/`.
  method CloseBlock(stream: LineStream, line: string) returns (r: string)
    requires stream.pos <= |stream.lines|
    modifies stream`pos
    ensures var (l2, k2) := SkipToClose(stream.lines, old(stream.pos), line);
      r == AfterClose(l2) && stream.pos == k2
  {
    ghost var skip := SkipToClose(stream.lines, stream.pos, line);
    r := line;
    while !Contains(r, "*/") && !stream.AtEnd()
      invariant SkipToClose(stream.lines, stream.pos, r) == skip
      invariant stream.pos <= |stream.lines|
      decreases |stream.lines| - stream.pos
    {
      r := stream.ReadLine();
    }
    ghost var l2 := r;
    var idx := IndexOf(r, "*/");
    if idx != -1 {
      r := Remove(r, 0, idx + 2);
      var temp := ReplaceAll(r, " ", "");
      if temp == "" {
        r := "";
      }
    }
    assert r == AfterClose(l2);
  }

  // The body of the outer loop of removeComments before the line is emitted
  // (Parser.cpp:675-715).
  method ProcessCurrentLine(stream: LineStream, line: string) returns (r: string)
    requires stream.pos <= |stream.lines|
    modifies stream`pos
    ensures (r, stream.pos) == ProcessLine(stream.lines, old(stream.pos), line)
  {
    r := CutComment(line);
    if Contains(r, "/*") {
      if Contains(r, "*/") {
        r := RemoveBlockOnLine(r);
      } else {
        r := CloseBlock(stream, r);
      }
    }
  }

  // One turn of the outer loop of removeComments: what it emits, then the
  // output from the next line read.
  lemma StripStep(L: seq<string>, k: nat, line: string, emitted: seq<string>, k1: nat, next: string, k2: nat)
    requires k < |L|
    requires ProcessLine(L, k, line).1 == k1
    requires emitted == if ProcessLine(L, k, line).0 != "" then [ProcessLine(L, k, line).0] else []
    requires k1 < |L| ==> next == L[k1] && k2 == k1 + 1
    requires k1 >= |L| ==> next == "" && k2 == k1
    ensures StripFrom(L, k, line) == emitted + StripFrom(L, k2, next)
  {
    var step := ProcessLine(L, k, line);
    assert step.1 == k1 && (if step.0 != "" then [step.0] else []) == emitted;
  }

  lemma AppendAssoc(a: seq<string>, b: seq<string>, c: seq<string>)
    ensures a + (b + c) == (a + b) + c
  {
  }

  // Parser::removeComments.
  method RemoveComments(stream: LineStream) returns (strings: seq<string>)
    modifies stream
    ensures strings == StripAt(stream.lines, old(stream.pos))
    ensures stream.AtEnd()
  {
    ghost var L := stream.lines;
    ghost var p0 := stream.pos;
    var line := stream.ReadLine();
    strings := [];
    while !stream.AtEnd()
      invariant strings + StripFrom(L, stream.pos, line) == StripAt(L, p0)
      decreases |L| - stream.pos
    {
      ghost var k := stream.pos;
      ghost var line0 := line;
      line := ProcessCurrentLine(stream, line);
      ghost var k1 := stream.pos;
      var emitted := if line != "" then [line] else [];
      ghost var before := strings;
      strings := strings + emitted;
      line := stream.ReadLine();
      StripStep(L, k, line0, emitted, k1, line, stream.pos);
      AppendAssoc(before, emitted, StripFrom(L, stream.pos, line));
    }
  }

  // ---------------------------------------------------------------------------
  // Properties of removeComments.
  // ---------------------------------------------------------------------------

  // The lines of `xs` that are not empty, in order.
  function NonEmpty(xs: seq<string>): seq<string>
  {
    if xs == [] then [] else (if xs[0] != "" then [xs[0]] else []) + NonEmpty(xs[1..])
  }

  // Every line of `xs` with its `//` comment cut off.
  function CutAll(xs: seq<string>): seq<string>
  {
    if xs == [] then [] else [CutLineComment(xs[0])] + CutAll(xs[1..])
  }

  // Without block comments, the output is every line but the last, `//` comments
  // cut off, empty results dropped, in input order: the last line is read by
  // the final readLine() and never processed.
  lemma {:induction false} NoBlockCommentsFrom(L: seq<string>, k: nat)
    requires 1 <= k <= |L|
    requires forall i :: 0 <= i < |L| ==> !Contains(CutLineComment(L[i]), "/*")
    ensures StripFrom(L, k, L[k - 1]) == NonEmpty(CutAll(L[k - 1..|L| - 1]))
    decreases |L| - k
  {
    if k == |L| {
      assert L[k - 1..|L| - 1] == [];
    } else {
      assert ProcessLine(L, k, L[k - 1]) == (CutLineComment(L[k - 1]), k);
      NoBlockCommentsFrom(L, k + 1);
      var xs := L[k - 1..|L| - 1];
      assert xs[0] == L[k - 1] && xs[1..] == L[k..|L| - 1];
      assert CutAll(xs) == [CutLineComment(L[k - 1])] + CutAll(L[k..|L| - 1]);
    }
  }

  lemma NoBlockComments(L: seq<string>)
    requires |L| >= 1
    requires forall i :: 0 <= i < |L| ==> !Contains(CutLineComment(L[i]), "/*")
    ensures StripComments(L) == NonEmpty(CutAll(L[..|L| - 1]))
  {
    NoBlockCommentsFrom(L, 1);
    assert L[0..|L| - 1] == L[..|L| - 1];
  }

  // A line with `//` keeps exactly what precedes its first `//`, unless that
  // holds nothing but spaces (tabs count as content), in which case nothing is
  // kept; what is kept holds no `//`.
  lemma LineCommentCut(line: string)
    requires Contains(line, "//")
    ensures var cut := CutLineComment(line);
      cut == "" <==> ReplaceAll(line[..IndexOf(line, "//")], " ", "") == ""
    ensures var cut := CutLineComment(line);
      cut != "" ==> cut == line[..IndexOf(line, "//")]
    ensures !Contains(CutLineComment(line), "//")
  {
    var i := IndexOf(line, "//");
    assert Chop(line, |line| - i) == line[..i];
    PrefixBeforeFirstOccurrence(line, "//", i);
    if CutLineComment(line) == "" {
      assert !OccursAt("", "//", 0);
    }
  }

  // A `/*` closed by a later `*/` on the same line loses the text from the
  // first `/*` through the first `*/`.
  lemma InlineBlockRemoved(cut: string)
    requires 0 <= IndexOf(cut, "/*") < IndexOf(cut, "*/")
    ensures var s := IndexOf(cut, "/*"); var e := IndexOf(cut, "*/");
      RemoveInlineBlock(cut) == ClearIfBlank(cut[..s] + cut[e + 2..])
  {
    var s := IndexOf(cut, "/*");
    var e := IndexOf(cut, "*/");
    FoundWithin(cut, "*/", 0);
    RemoveSpan(cut, s, e + 2);
  }

  // Removing the span from `s` up to `t` leaves what lies on either side.
  lemma RemoveSpan(cut: string, s: nat, t: nat)
    requires s < t <= |cut|
    ensures Remove(cut, s, t - s) == cut[..s] + cut[t..]
  {
    if t == |cut| {
      assert cut[t..] == [];
    }
  }

  // When the first `*/` comes before the first `/*`, the removal length is not
  // positive or is one: a line such as `a */ b /* c */` is kept whole (the
  // comment stays in the output), and in `*/*` only the `/` of the `/*` goes.
  lemma InlineBlockOutOfOrder(cut: string)
    requires 0 <= IndexOf(cut, "*/") < IndexOf(cut, "/*")
    ensures var s := IndexOf(cut, "/*"); var e := IndexOf(cut, "*/");
      && (e + 2 <= s ==> RemoveInlineBlock(cut) == ClearIfBlank(cut))
      && (e + 1 == s ==> RemoveInlineBlock(cut) == ClearIfBlank(cut[..s] + cut[s + 1..]))
  {
    var s := IndexOf(cut, "/*");
    assert OccursAt(cut, "/*", s);
  }

  // A `/*` left open on its line discards every following line up to the first
  // one holding `*/`; only the text after that `*/` survives, and only when it
  // is not blank.
  lemma {:induction false} BlockCommentSpansLines(L: seq<string>, k: nat, line: string, j: nat)
    requires !Contains(line, "*/")
    requires k <= j < |L|
    requires forall m :: k <= m < j ==> !Contains(L[m], "*/")
    requires Contains(L[j], "*/")
    ensures SkipToClose(L, k, line) == (L[j], j + 1)
    decreases j - k
  {
    if k < j {
      BlockCommentSpansLines(L, k + 1, L[k], j);
    }
  }

  lemma BlockCommentOutput(L: seq<string>, k: nat, line: string, j: nat)
    requires !Contains(line, "//") && Contains(line, "/*") && !Contains(line, "*/")
    requires k <= j < |L|
    requires forall m :: k <= m < j ==> !Contains(L[m], "*/")
    requires Contains(L[j], "*/")
    ensures ProcessLine(L, k, line) == (ClearIfBlank(L[j][IndexOf(L[j], "*/") + 2..]), j + 1)
  {
    assert CutLineComment(line) == line;
    BlockCommentSpansLines(L, k, line, j);
    var idx := IndexOf(L[j], "*/");
    assert OccursAt(L[j], "*/", idx);
    assert Remove(L[j], 0, idx + 2) == L[j][idx + 2..];
  }

  // The exception to "the last line is never emitted": a `/*` that no later line
  // closes makes the inner loop read up to the last line, which is then emitted
  // as it is.
  lemma {:induction false} UnclosedCommentReachesEnd(L: seq<string>, k: nat, line: string)
    requires !Contains(line, "*/")
    requires k < |L|
    requires forall m :: k <= m < |L| ==> !Contains(L[m], "*/")
    ensures SkipToClose(L, k, line) == (L[|L| - 1], |L|)
    decreases |L| - k
  {
    if k + 1 < |L| {
      UnclosedCommentReachesEnd(L, k + 1, L[k]);
    }
  }

  lemma UnclosedCommentEmitsLastLine(L: seq<string>, k: nat, line: string)
    requires !Contains(line, "//") && Contains(line, "/*") && !Contains(line, "*/")
    requires k < |L|
    requires forall m :: k <= m < |L| ==> !Contains(L[m], "*/")
    ensures StripFrom(L, k, line) == NonEmpty([L[|L| - 1]])
  {
    assert CutLineComment(line) == line;
    UnclosedCommentReachesEnd(L, k, line);
    assert AfterClose(L[|L| - 1]) == L[|L| - 1];
    assert ProcessLine(L, k, line) == (L[|L| - 1], |L|);
  }
}
