/** Python's readlines() on text that was read in text mode: the text is cut
    after every newline, each line keeps its newline, and a last line without
    one is kept as it is. */
module LineSplit {
  import opened TextUtil

  /** str.split("\n"): the pieces between newlines, always at least one. */
  function Chunks(t: string): (r: seq<string>)
    ensures |r| >= 1
    ensures forall k :: 0 <= k < |r| ==> '\n' !in r[k]
    decreases |t|
  {
    if t == [] then [""]
    else if t[0] == '\n' then [""] + Chunks(t[1..])
    else
      var rest := Chunks(t[1..]);
      [[t[0]] + rest[0]] + rest[1..]
  }

  /** Joining the pieces with newlines gives the text back. */
  lemma {:induction false} ChunksJoin(t: string)
    ensures Join("\n", Chunks(t)) == t
    decreases |t|
  {
    if t == [] {
    } else if t[0] == '\n' {
      ChunksJoin(t[1..]);
      assert Chunks(t)[1..] == Chunks(t[1..]);
    } else {
      var rest := Chunks(t[1..]);
      ChunksJoin(t[1..]);
      if |rest| > 1 {
        assert Chunks(t)[1..] == rest[1..];
      }
    }
  }

  /** A line as readlines() returns it: not empty, and a newline only at its end. */
  predicate IsLine(l: string) {
    l != [] && '\n' !in l[..|l| - 1]
  }

  predicate EndsWithNewline(s: string) {
    s != [] && s[|s| - 1] == '\n'
  }

  /** What readlines() can return: lines, all but the last newline-terminated. */
  predicate WellFormed(lines: seq<string>) {
    && (forall k :: 0 <= k < |lines| ==> IsLine(lines[k]))
    && (forall k :: 0 <= k < |lines| - 1 ==> EndsWithNewline(lines[k]))
  }

  /** Lines that all end with a newline. */
  predicate AllTerminated(lines: seq<string>) {
    forall k :: 0 <= k < |lines| ==> IsLine(lines[k]) && EndsWithNewline(lines[k])
  }

  /** Every piece but the last with its newline, then the last piece unless it is empty. */
  function LinesOf(cs: seq<string>): seq<string>
    requires |cs| >= 1
  {
    Terminated(cs[..|cs| - 1]) + (if cs[|cs| - 1] == "" then [] else [cs[|cs| - 1]])
  }

  /** readlines() */
  function SplitLines(t: string): seq<string> {
    LinesOf(Chunks(t))
  }

  /** readlines() returns lines, and joining them gives the text back. */
  lemma SplitLinesJoin(t: string)
    ensures WellFormed(SplitLines(t))
    ensures Concat(SplitLines(t)) == t
  {
    LinesOfFacts(Chunks(t));
    ChunksJoin(t);
  }

  lemma {:induction false} LinesOfFacts(cs: seq<string>)
    requires |cs| >= 1
    requires forall k :: 0 <= k < |cs| ==> '\n' !in cs[k]
    ensures WellFormed(LinesOf(cs))
    ensures Concat(LinesOf(cs)) == Join("\n", cs)
    decreases |cs|
  {
    var r := LinesOf(cs);
    TerminatedAt(cs[..|cs| - 1]);
    forall k | 0 <= k < |r| ensures IsLine(r[k]) {
      if k < |cs| - 1 {
        assert r[k] == cs[k] + "\n";
        assert r[k][..|r[k]| - 1] == cs[k];
      } else {
        var l := cs[|cs| - 1];
        assert r[k] == l;
        assert forall c :: c in l[..|l| - 1] ==> c in l;
      }
    }
    if |cs| > 1 {
      LinesOfFacts(cs[1..]);
      assert cs[1..][..|cs| - 2] == cs[1..|cs| - 1];
      assert cs[..|cs| - 1] == [cs[0]] + cs[1..|cs| - 1];
      assert Terminated(cs[..|cs| - 1]) == [cs[0] + "\n"] + Terminated(cs[1..|cs| - 1]);
      assert r == [cs[0] + "\n"] + LinesOf(cs[1..]);
      assert r[1..] == LinesOf(cs[1..]);
    }
  }

  /** A newline-free text is one piece. */
  lemma {:induction false} ChunksNoNewline(w: string)
    requires '\n' !in w
    ensures Chunks(w) == [w]
    decreases |w|
  {
    if w != [] {
      assert w[0] in w;
      assert forall c :: c in w[1..] ==> c in w;
      ChunksNoNewline(w[1..]);
      assert [w[0]] + w[1..] == w;
    }
  }

  /** Text that starts with one newline-terminated line splits after it. */
  lemma {:induction false} ChunksAfterLine(w: string, rest: string)
    requires '\n' !in w
    ensures Chunks(w + "\n" + rest) == [w] + Chunks(rest)
    decreases |w|
  {
    if w == [] {
      assert (w + "\n" + rest)[1..] == rest;
    } else {
      assert w[0] in w;
      assert forall c :: c in w[1..] ==> c in w;
      assert (w + "\n" + rest)[1..] == w[1..] + "\n" + rest;
      ChunksAfterLine(w[1..], rest);
      assert [w[0]] + w[1..] == w;
    }
  }

  /** readlines() on one newline-terminated line followed by more text returns
      that line and then the lines of the rest. */
  lemma SplitAfterLine(l: string, tail: string)
    requires IsLine(l) && EndsWithNewline(l)
    ensures SplitLines(l + tail) == [l] + SplitLines(tail)
  {
    var w := l[..|l| - 1];
    assert l == w + "\n";
    assert '\n' !in w;
    ChunksAfterLine(w, tail);
    LinesOfCons(w, Chunks(tail));
  }

  /** readlines() on newline-terminated lines followed by more text returns those
      lines and then the lines of the rest. */
  lemma {:induction false} SplitAfterLines(lines: seq<string>, rest: string)
    requires AllTerminated(lines)
    ensures SplitLines(Concat(lines) + rest) == lines + SplitLines(rest)
    decreases |lines|
  {
    if lines == [] {
      assert Concat(lines) + rest == rest;
    } else {
      var l, more := lines[0], lines[1..];
      var tail := Concat(more) + rest;
      assert Concat(lines) + rest == l + tail;
      SplitAfterLine(l, tail);
      SplitAfterLines(more, rest);
      assert lines == [l] + more;
    }
  }

  lemma LinesOfCons(w: string, cs: seq<string>)
    requires |cs| >= 1
    ensures LinesOf([w] + cs) == [w + "\n"] + LinesOf(cs)
  {
    assert ([w] + cs)[..|cs|] == [w] + cs[..|cs| - 1];
    assert ([w] + cs)[|cs|] == cs[|cs| - 1];
    assert Terminated([w] + cs[..|cs| - 1]) == [w + "\n"] + Terminated(cs[..|cs| - 1]);
  }

  /** readlines() undoes ''.join() on what readlines() can return. */
  lemma {:induction false} SplitConcat(lines: seq<string>)
    requires WellFormed(lines)
    ensures SplitLines(Concat(lines)) == lines
  {
    if lines != [] {
      var n := |lines| - 1;
      var last := lines[n];
      assert AllTerminated(lines[..n]);
      assert lines == lines[..n] + [last];
      ConcatAppend(lines[..n], [last]);
      assert Concat([last]) == last;
      SplitAfterLines(lines[..n], last);
      if EndsWithNewline(last) {
        assert AllTerminated([last]);
        SplitAfterLines([last], "");
        assert Concat([last]) + "" == last;
        assert [last] + SplitLines("") == [last];
      } else {
        assert last == last[..|last| - 1] + [last[|last| - 1]];
        assert '\n' !in last;
        ChunksNoNewline(last);
        assert SplitLines(last) == LinesOf([last]) == [last];
      }
    } else {
      assert SplitLines("") == [];
    }
  }

  /** Text that ends with a newline splits into newline-terminated lines. */
  lemma SplitTerminated(t: string)
    requires t == [] || EndsWithNewline(t)
    ensures AllTerminated(SplitLines(t))
  {
    var r := SplitLines(t);
    SplitLinesJoin(t);
    if r != [] {
      var last := r[|r| - 1];
      assert r == r[..|r| - 1] + [last];
      ConcatAppend(r[..|r| - 1], [last]);
      assert Concat([last]) == last;
      assert t == Concat(r[..|r| - 1]) + last;
      assert t[|t| - 1] == last[|last| - 1];
    }
  }

  /** Cutting text after a newline cuts its lines there too. */
  lemma SplitLinesAppend(x: string, y: string)
    requires x == [] || EndsWithNewline(x)
    ensures SplitLines(x + y) == SplitLines(x) + SplitLines(y)
  {
    SplitTerminated(x);
    SplitLinesJoin(x);
    SplitAfterLines(SplitLines(x), y);
  }

  /** Each line is a piece with its newline, or the non-empty last piece. */
  lemma LineIsChunk(t: string, k: nat)
    requires k < |SplitLines(t)|
    ensures var l := SplitLines(t)[k];
      || (k < |Chunks(t)| - 1 && l == Chunks(t)[k] + "\n")
      || (k == |Chunks(t)| - 1 && l == Chunks(t)[k])
  {
    var cs := Chunks(t);
    assert SplitLines(t) == LinesOf(cs);
    TerminatedAt(cs[..|cs| - 1]);
  }

  /** Each piece but the last, with its newline, is a line; the last piece is
      a line unless it is empty. */
  lemma ChunkIsLine(t: string, k: nat)
    requires k < |Chunks(t)|
    ensures k < |Chunks(t)| - 1 ==> k < |SplitLines(t)| && SplitLines(t)[k] == Chunks(t)[k] + "\n"
    ensures k == |Chunks(t)| - 1 && Chunks(t)[k] != "" ==> k < |SplitLines(t)| && SplitLines(t)[k] == Chunks(t)[k]
  {
    var cs := Chunks(t);
    assert SplitLines(t) == LinesOf(cs);
    TerminatedAt(cs[..|cs| - 1]);
  }
}
