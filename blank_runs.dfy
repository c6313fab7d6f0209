/** The normalisation step of main() in hardware/route_pcb.py:
    re.sub(r'\n\n\n+', '\n\n', content). The regular expression is matched
    from the left, greedily and without overlap, so every maximal run of three
    or more newlines becomes exactly two and nothing else changes. */
module BlankRuns {
  import opened TextUtil
  import opened LineSplit

  const TRIPLE := "\n\n\n"

  /** The length of the run of newlines s starts with. */
  function LeadingNewlines(s: string): (n: nat)
    ensures n <= |s|
    ensures forall i :: 0 <= i < n ==> s[i] == '\n'
    ensures n < |s| ==> s[n] != '\n'
    decreases |s|
  {
    if s != [] && s[0] == '\n' then 1 + LeadingNewlines(s[1..]) else 0
  }

  /** The pattern \n\n\n+ matches at the start of s. */
  predicate StartsWithRun(s: string) {
    |s| >= 3 && s[0] == '\n' && s[1] == '\n' && s[2] == '\n'
  }

  /** The pattern matches at the start exactly when the text starts with three newlines. */
  lemma RunIsTriple(s: string)
    ensures StartsWithRun(s) <==> StartsWith(s, TRIPLE)
  {
    if |s| >= 3 {
      assert s[..3][0] == s[0] && s[..3][1] == s[1] && s[..3][2] == s[2];
    }
  }

  /** Three newlines: a newline followed by a run of at least two. */
  lemma RunByLeading(s: string)
    ensures StartsWithRun(s) <==> s != [] && s[0] == '\n' && LeadingNewlines(s[1..]) >= 2
  {
    if |s| >= 2 && s[1] == '\n' {
      assert s[1..][0] == '\n';
      if |s| >= 3 {
        assert s[1..][1..][0] == s[2];
      }
    }
  }

  /** re.sub(r'\n\n\n+', '\n\n', s) */
  function Collapse(s: string): string
    decreases |s|
  {
    if StartsWithRun(s) then "\n\n" + Collapse(s[LeadingNewlines(s)..])
    else if s == [] then []
    else [s[0]] + Collapse(s[1..])
  }

  function Min(a: nat, b: nat): nat {
    if a <= b then a else b
  }

  /** A text that does not start with a newline keeps its first character. */
  lemma CollapseFirst(s: string)
    requires s != [] && s[0] != '\n'
    ensures Collapse(s) != [] && Collapse(s)[0] == s[0]
  {
  }

  /** A leading run of newlines is cut down to at most two. */
  lemma {:induction false} CollapseLeading(s: string)
    ensures LeadingNewlines(Collapse(s)) == Min(LeadingNewlines(s), 2)
    decreases |s|
  {
    var r := Collapse(s);
    if StartsWithRun(s) {
      var t := s[LeadingNewlines(s)..];
      if t != [] {
        CollapseFirst(t);
      }
      assert r[2..] == Collapse(t);
      assert LeadingNewlines(r) == 2 + LeadingNewlines(Collapse(t)) by {
        assert r[1..][1..] == Collapse(t);
      }
    } else if s != [] && s[0] == '\n' {
      CollapseLeading(s[1..]);
      assert r[1..] == Collapse(s[1..]);
    }
  }

  /** After the substitution no three newlines follow each other. */
  lemma {:induction false} CollapseNoTriple(s: string)
    ensures !Contains(Collapse(s), TRIPLE)
    decreases |s|
  {
    var r := Collapse(s);
    if StartsWithRun(s) {
      var t := s[LeadingNewlines(s)..];
      CollapseNoTriple(t);
      if t != [] {
        CollapseFirst(t);
      }
      assert r[1..][1..] == Collapse(t);
      assert !StartsWith(r, TRIPLE) && !StartsWith(r[1..], TRIPLE);
    } else if s != [] {
      CollapseNoTriple(s[1..]);
      CollapseLeading(s[1..]);
      assert r[1..] == Collapse(s[1..]);
      RunByLeading(s);
      RunByLeading(r);
      RunIsTriple(r);
      assert r[0] == s[0];
    }
  }

  /** The substitution never makes the text longer. */
  lemma {:induction false} CollapseShorter(s: string)
    ensures |Collapse(s)| <= |s|
    decreases |s|
  {
    if StartsWithRun(s) {
      CollapseShorter(s[LeadingNewlines(s)..]);
    } else if s != [] {
      CollapseShorter(s[1..]);
    }
  }

  /** Text without three newlines in a row is left as it is. */
  lemma {:induction false} CollapseNoTripleIdentity(s: string)
    requires !Contains(s, TRIPLE)
    ensures Collapse(s) == s
    decreases |s|
  {
    if s != [] {
      RunIsTriple(s);
      CollapseNoTripleIdentity(s[1..]);
    }
  }

  /** Applying the substitution a second time changes nothing. */
  lemma CollapseIdempotent(s: string)
    ensures Collapse(Collapse(s)) == Collapse(s)
  {
    CollapseNoTriple(s);
    CollapseNoTripleIdentity(Collapse(s));
  }

  /** The text with every newline taken out. */
  function NonNewlines(s: string): string
    decreases |s|
  {
    if s == [] then [] else (if s[0] == '\n' then [] else [s[0]]) + NonNewlines(s[1..])
  }

  lemma {:induction false} NonNewlinesSkip(s: string, k: nat)
    requires k <= LeadingNewlines(s)
    ensures NonNewlines(s[k..]) == NonNewlines(s)
    decreases k
  {
    if k > 0 {
      NonNewlinesSkip(s, k - 1);
      assert s[k - 1..][1..] == s[k..];
    }
  }

  /** Only newlines are removed: every other character is kept, in order. */
  lemma {:induction false} CollapseKeepsText(s: string)
    ensures NonNewlines(Collapse(s)) == NonNewlines(s)
    decreases |s|
  {
    var r := Collapse(s);
    if StartsWithRun(s) {
      var t := s[LeadingNewlines(s)..];
      CollapseKeepsText(t);
      NonNewlinesSkip(s, LeadingNewlines(s));
      assert r[1..][1..] == Collapse(t);
    } else if s != [] {
      CollapseKeepsText(s[1..]);
      assert r[1..] == Collapse(s[1..]);
    }
  }

  /** Newlines at the front only add empty pieces in front. */
  lemma {:induction false} ChunksSkipNewlines(s: string, k: nat, x: seq<string>)
    requires k <= LeadingNewlines(s)
    requires IsSubseq(x, Chunks(s[k..]))
    ensures IsSubseq(x, Chunks(s))
    decreases k
  {
    if k > 0 {
      var u := s[k - 1..];
      assert u[0] == '\n' && u[1..] == s[k..];
      assert Chunks(u)[1..] == Chunks(s[k..]);
      SubseqOfSuffix(x, Chunks(u), 1);
      ChunksSkipNewlines(s, k - 1, x);
    }
  }

  /** Splitting the result on newlines gives the pieces of the input with some
      empty pieces (blank lines) left out: the first piece is the same, and the
      others are a subsequence of the others. */
  lemma {:induction false} CollapseChunks(s: string)
    ensures Chunks(Collapse(s))[0] == Chunks(s)[0]
    ensures IsSubseq(Chunks(Collapse(s)), Chunks(s))
    decreases |s|
  {
    var r := Collapse(s);
    if StartsWithRun(s) {
      var n := LeadingNewlines(s);
      var t := s[n..];
      CollapseChunks(t);
      // the pieces of r are "", "" and then those of Collapse(t)
      assert r[0] == '\n' && r[1..][0] == '\n' && r[1..][1..] == Collapse(t);
      assert Chunks(r) == [""] + Chunks(r[1..]);
      assert Chunks(r[1..]) == [""] + Chunks(Collapse(t));
      // the pieces of s are "", "" and then those of s[2..]
      assert s[1..][0] == '\n' && s[1..][1..] == s[2..];
      assert Chunks(s) == [""] + Chunks(s[1..]);
      assert Chunks(s[1..]) == [""] + Chunks(s[2..]);
      assert s[2..][n - 2..] == t;
      ChunksSkipNewlines(s[2..], n - 2, Chunks(Collapse(t)));
      assert IsSubseq(Chunks(r[1..]), Chunks(s[1..]));
    } else if s != [] {
      CollapseChunks(s[1..]);
      assert r[1..] == Collapse(s[1..]);
      if s[0] != '\n' {
        assert Chunks(r)[1..] == Chunks(Collapse(s[1..]))[1..];
        assert Chunks(s)[1..] == Chunks(s[1..])[1..];
        var a := Chunks(Collapse(s[1..]));
        var b := Chunks(s[1..]);
        assert IsSubseq(a[1..], b[1..]) by {
          SubseqTail(a, b);
        }
      }
    } else {
      SubseqRefl(Chunks(s));
    }
  }

  /** The pieces that are not empty, in order: the lines that are not blank. */
  function NonEmpty(cs: seq<string>): seq<string>
    decreases |cs|
  {
    if cs == [] then [] else (if cs[0] == "" then [] else [cs[0]]) + NonEmpty(cs[1..])
  }

  /** Newlines at the front add only empty pieces. */
  lemma {:induction false} NonEmptySkipNewlines(s: string, k: nat)
    requires k <= LeadingNewlines(s)
    ensures NonEmpty(Chunks(s[k..])) == NonEmpty(Chunks(s))
    decreases k
  {
    if k > 0 {
      var u := s[k - 1..];
      assert u[0] == '\n' && u[1..] == s[k..];
      assert Chunks(u) == [""] + Chunks(s[k..]);
      assert ([""] + Chunks(s[k..]))[1..] == Chunks(s[k..]);
      NonEmptySkipNewlines(s, k - 1);
    }
  }

  /** Two piece lists with the same first piece and the same non-empty
      pieces have the same non-empty pieces after the first. */
  lemma NonEmptyTail(a: seq<string>, b: seq<string>)
    requires a != [] && b != [] && a[0] == b[0] && NonEmpty(a) == NonEmpty(b)
    ensures NonEmpty(a[1..]) == NonEmpty(b[1..])
  {
    var x := a[0];
    var head: seq<string> := if x == "" then [] else [x];
    assert NonEmpty(a) == head + NonEmpty(a[1..]);
    assert NonEmpty(b) == head + NonEmpty(b[1..]);
    assert (head + NonEmpty(a[1..]))[|head|..] == NonEmpty(a[1..]);
    assert (head + NonEmpty(b[1..]))[|head|..] == NonEmpty(b[1..]);
  }

  /** The rewrite drops only blank lines: the lines that are not empty are
      exactly those of the input, in the same order. */
  lemma {:induction false} CollapseKeepsLines(s: string)
    ensures NonEmpty(Chunks(Collapse(s))) == NonEmpty(Chunks(s))
    decreases |s|
  {
    var r := Collapse(s);
    if StartsWithRun(s) {
      var n := LeadingNewlines(s);
      var t := s[n..];
      CollapseKeepsLines(t);
      assert r[0] == '\n' && r[1..][0] == '\n' && r[1..][1..] == Collapse(t);
      assert Chunks(r) == [""] + Chunks(r[1..]);
      assert Chunks(r[1..]) == [""] + Chunks(Collapse(t));
      assert NonEmpty(Chunks(r)) == NonEmpty(Chunks(r[1..]));
      assert NonEmpty(Chunks(r[1..])) == NonEmpty(Chunks(Collapse(t)));
      NonEmptySkipNewlines(s, n);
    } else if s != [] {
      CollapseKeepsLines(s[1..]);
      assert r[0] == s[0] && r[1..] == Collapse(s[1..]);
      var a := Chunks(Collapse(s[1..]));
      var b := Chunks(s[1..]);
      if s[0] == '\n' {
        assert Chunks(r) == [""] + a;
        assert Chunks(s) == [""] + b;
        assert NonEmpty(Chunks(r)) == NonEmpty(a);
      } else {
        CollapseChunks(s[1..]);
        NonEmptyTail(a, b);
        assert Chunks(r) == [[s[0]] + a[0]] + a[1..];
        assert Chunks(s) == [[s[0]] + b[0]] + b[1..];
        assert NonEmpty(Chunks(r)) == [[s[0]] + a[0]] + NonEmpty(a[1..]);
        assert NonEmpty(Chunks(s)) == [[s[0]] + b[0]] + NonEmpty(b[1..]);
      }
    }
  }

  /** Two subsequences with the same first element: the rests are subsequences too. */
  lemma SubseqTail<T>(a: seq<T>, b: seq<T>)
    requires a != [] && b != [] && a[0] == b[0] && IsSubseq(a, b)
    ensures IsSubseq(a[1..], b[1..])
  {
    if !(IsSubseq(a[1..], b[1..])) {
      assert IsSubseq(a, b[1..]);
      SubseqDropFirst(a, b[1..]);
    }
  }

  /** Dropping the first element of a subsequence keeps it a subsequence. */
  lemma {:induction false} SubseqDropFirst<T>(a: seq<T>, b: seq<T>)
    requires a != [] && IsSubseq(a, b)
    ensures IsSubseq(a[1..], b)
    decreases |b|
  {
    assert b != [];
    if a[0] == b[0] && IsSubseq(a[1..], b[1..]) {
      SubseqOfSuffix(a[1..], b, 1);
    } else {
      SubseqDropFirst(a, b[1..]);
      SubseqOfSuffix(a[1..], b, 1);
    }
  }

  /** k newline characters. */
  function Newlines(k: nat): (r: string)
    ensures |r| == k && forall i :: 0 <= i < k ==> r[i] == '\n'
  {
    seq(k, _ => '\n')
  }

  /** Text that is empty or ends in another character than a newline. */
  predicate EndsOutsideRun(s: string) {
    s == [] || s[|s| - 1] != '\n'
  }

  /** The text without its trailing newlines. */
  function DropTrailingNewlines(s: string): (r: string)
    ensures EndsOutsideRun(r) && |r| <= |s|
    ensures s == r + Newlines(|s| - |r|)
    decreases |s|
  {
    if s != [] && s[|s| - 1] == '\n' then
      var r := DropTrailingNewlines(s[..|s| - 1]);
      assert s == s[..|s| - 1] + ['\n'];
      assert Newlines(|s| - 1 - |r|) + ['\n'] == Newlines(|s| - |r|);
      r
    else s
  }

  /** A run of newlines that ends inside x is not lengthened by what follows. */
  lemma {:induction false} LeadingNewlinesAppend(x: string, y: string)
    requires LeadingNewlines(x) < |x|
    ensures LeadingNewlines(x + y) == LeadingNewlines(x)
    decreases |x|
  {
    if x[0] == '\n' {
      assert (x + y)[1..] == x[1..] + y;
      LeadingNewlinesAppend(x[1..], y);
    }
  }

  /** Text that does not end in a newline can be cut off: the substitution
      works on each side by itself. */
  lemma {:induction false} CollapseAppend(x: string, y: string)
    requires EndsOutsideRun(x)
    ensures Collapse(x + y) == Collapse(x) + Collapse(y)
    decreases |x|
  {
    if x == [] {
      assert x + y == y;
    } else if StartsWithRun(x) {
      var n := LeadingNewlines(x);
      LeadingNewlinesAppend(x, y);
      assert StartsWithRun(x + y);
      assert (x + y)[n..] == x[n..] + y;
      CollapseAppend(x[n..], y);
      Assoc("\n\n", Collapse(x[n..]), Collapse(y));
    } else {
      NoRunAppend(x, y);
      assert (x + y)[0] == x[0] && (x + y)[1..] == x[1..] + y;
      CollapseAppend(x[1..], y);
      Assoc([x[0]], Collapse(x[1..]), Collapse(y));
    }
  }

  lemma Assoc<T>(a: seq<T>, b: seq<T>, c: seq<T>)
    ensures (a + b) + c == a + (b + c)
  {
  }

  /** Text that does not start with a run and does not end in a newline does
      not start with a run whatever follows it. */
  lemma NoRunAppend(x: string, y: string)
    requires x != [] && EndsOutsideRun(x) && !StartsWithRun(x)
    ensures !StartsWithRun(x + y)
  {
    var s := x + y;
    if |x| >= 3 {
      assert s[0] == x[0] && s[1] == x[1] && s[2] == x[2];
    } else {
      assert s[|x| - 1] == x[|x| - 1];
    }
  }

  lemma {:induction false} LeadingNewlinesRun(k: nat, y: string)
    requires y == [] || y[0] != '\n'
    ensures LeadingNewlines(Newlines(k) + y) == k
    decreases k
  {
    if k > 0 {
      assert (Newlines(k) + y)[1..] == Newlines(k - 1) + y;
      LeadingNewlinesRun(k - 1, y);
    } else {
      assert Newlines(k) + y == y;
    }
  }

  /** A run of three or more newlines in front of other text becomes two. */
  lemma CollapseRun(k: nat, y: string)
    requires k >= 3 && (y == [] || y[0] != '\n')
    ensures Collapse(Newlines(k) + y) == "\n\n" + Collapse(y)
  {
    LeadingNewlinesRun(k, y);
    var s := Newlines(k) + y;
    assert StartsWithRun(s);
    assert s[k..] == y;
  }
}
