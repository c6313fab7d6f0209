/** The last step of main() in hardware/route_pcb.py: find the last occurrence
    of the closing anchor of the board file and insert the routing block in
    front of it; without the anchor nothing is written. */
module Splicing {
  import opened TextUtil

  /** The end of a KiCad board: the embedded-fonts flag and the closing
      parenthesis of the board expression. */
  const ANCHOR := "\n\t(embedded_fonts no)\n)"

  /** The last index at most `from` at which p occurs in s. */
  function RFindFrom(s: string, p: string, from: nat): (r: Option<nat>)
    ensures r.Some? ==> r.value <= from && OccursAt(s, p, r.value)
    ensures r.Some? ==> forall j: nat :: r.value < j <= from ==> !OccursAt(s, p, j)
    ensures r.None? ==> forall j: nat :: j <= from ==> !OccursAt(s, p, j)
    decreases from
  {
    if OccursAt(s, p, from) then Some(from)
    else if from == 0 then None
    else RFindFrom(s, p, from - 1)
  }

  /** str.rfind(p), with None where Python returns -1. */
  function RFind(s: string, p: string): Option<nat> {
    RFindFrom(s, p, |s|)
  }

  /** rfind finds the last occurrence, and finds nothing exactly when p does
      not occur. */
  lemma RFindLast(s: string, p: string)
    ensures RFind(s, p).Some? ==>
      OccursAt(s, p, RFind(s, p).value) && forall j: nat :: j > RFind(s, p).value ==> !OccursAt(s, p, j)
    ensures RFind(s, p).None? <==> !Contains(s, p)
  {
    ContainsOccurs(s, p);
  }

  /** An index i is what rfind returns exactly when p occurs at i and at no
      later index. */
  lemma RFindIs(s: string, p: string, i: nat)
    ensures RFind(s, p) == Some(i) <==> OccursAt(s, p, i) && forall j: nat :: j > i ==> !OccursAt(s, p, j)
  {
    RFindLast(s, p);
    if OccursAt(s, p, i) && forall j: nat :: j > i ==> !OccursAt(s, p, j) {
      assert RFind(s, p).Some?;
    }
  }

  /** An occurrence in y is an occurrence in x + y, |x| further on. */
  lemma OccursShift(x: string, y: string, p: string, i: nat)
    ensures OccursAt(x + y, p, |x| + i) <==> OccursAt(y, p, i)
  {
    if i + |p| <= |y| {
      assert (x + y)[|x| + i..|x| + i + |p|] == y[i..i + |p|];
    }
  }

  /** What main() writes between content[:p] and content[p:]. */
  function Middle(block: seq<string>): string {
    "\n" + Join("\n", block) + "\n"
  }

  /** The new file content, or None where main() prints an error and returns. */
  function Splice(content: string, block: seq<string>): Option<string> {
    match RFind(content, ANCHOR)
    case None => None
    case Some(p) => Some(content[..p] + Middle(block) + content[p..])
  }

  /** Nothing is written exactly when the content holds no anchor. */
  lemma SpliceNone(content: string, block: seq<string>)
    ensures Splice(content, block).None? <==> !Contains(content, ANCHOR)
  {
    RFindLast(content, ANCHOR);
  }

  /** When the anchor last occurs at p, the block is inserted at p: the content
      before p and from p on is kept as it was, and taking the inserted text
      out gives back the content exactly. */
  lemma SpliceKeeps(content: string, block: seq<string>, p: nat)
    requires RFind(content, ANCHOR) == Some(p)
    ensures Splice(content, block).Some?
    ensures var out := Splice(content, block).value; var m := |Middle(block)|;
      && |out| == |content| + m
      && out[..p] == content[..p]
      && out[p..p + m] == Middle(block)
      && out[p + m..] == content[p..]
      && out[..p] + out[p + m..] == content
  {
    RFindLast(content, ANCHOR);
    var out := Splice(content, block).value;
    var m := |Middle(block)|;
    assert out == content[..p] + Middle(block) + content[p..];
    assert content[..p] + content[p..] == content;
  }

  /** After the insertion the anchor still last occurs right after the inserted
      text: a later run finds the same place. */
  lemma SpliceLastAnchor(content: string, block: seq<string>, p: nat)
    requires RFind(content, ANCHOR) == Some(p)
    ensures Splice(content, block).Some?
    ensures RFind(Splice(content, block).value, ANCHOR) == Some(p + |Middle(block)|)
  {
    RFindLast(content, ANCHOR);
    var out := Splice(content, block).value;
    var x := content[..p] + Middle(block);
    var y := content[p..];
    assert out == x + y;
    assert |x| == p + |Middle(block)|;
    assert y == content[0 + p..];
    OccursShift(content[..p], content[p..], ANCHOR, 0);
    assert content[..p] + content[p..] == content;
    OccursShift(x, y, ANCHOR, 0);
    forall j: nat | j > |x|
      ensures !OccursAt(out, ANCHOR, j)
    {
      OccursShift(x, y, ANCHOR, j - |x|);
      OccursShift(content[..p], content[p..], ANCHOR, j - |x|);
    }
    RFindIs(out, ANCHOR, |x|);
  }

  /** A line of the block that cannot help form an anchor: it holds no newline
      and does not start with the anchor's closing parenthesis. */
  predicate PlainLine(line: string) {
    '\n' !in line && (line != [] ==> line[0] != ')')
  }

  /** No newline in s is directly followed by a closing parenthesis, as the
      anchor's last newline is. */
  predicate NoCloseAfterNewline(s: string) {
    forall k :: 0 <= k < |s| - 1 && s[k] == '\n' ==> s[k + 1] != ')'
  }

  lemma NoCloseAppend(a: string, b: string)
    requires NoCloseAfterNewline(a) && NoCloseAfterNewline(b)
    requires a != [] && b != [] && a[|a| - 1] == '\n' ==> b[0] != ')'
    ensures NoCloseAfterNewline(a + b)
  {
    var s := a + b;
    forall k | 0 <= k < |s| - 1 && s[k] == '\n'
      ensures s[k + 1] != ')'
    {
      if k + 1 < |a| {
        assert s[k] == a[k] && s[k + 1] == a[k + 1];
      } else if k + 1 == |a| {
        assert s[k] == a[|a| - 1] && s[k + 1] == b[0];
      } else {
        assert s[k] == b[k - |a|] && s[k + 1] == b[k - |a| + 1];
      }
    }
  }

  /** Plain lines joined by newlines put no closing parenthesis after a
      newline, and do not start with one. */
  lemma {:induction false} JoinNoClose(parts: seq<string>)
    requires forall k :: 0 <= k < |parts| ==> PlainLine(parts[k])
    ensures var j := Join("\n", parts);
      NoCloseAfterNewline(j) && (j != [] ==> j[0] != ')')
    decreases |parts|
  {
    if |parts| == 1 {
      assert Join("\n", parts) == parts[0];
    } else if |parts| > 1 {
      var a := parts[0] + "\n";
      var rest := Join("\n", parts[1..]);
      JoinNoClose(parts[1..]);
      assert PlainLine(parts[0]);
      forall k | 0 <= k < |a| - 1
        ensures a[k] != '\n'
      {
        assert a[k] == parts[0][k];
      }
      NoCloseAppend(a, rest);
      assert Join("\n", parts) == a + rest;
      assert (a + rest)[0] == a[0];
    }
  }

  /** The inserted text starts with a newline that is not followed by a
      closing parenthesis, and puts none after any other newline. */
  lemma MiddleNoClose(block: seq<string>)
    requires forall k :: 0 <= k < |block| ==> PlainLine(block[k])
    ensures var m := Middle(block);
      |m| >= 2 && m[0] == '\n' && m[1] != ')' && m[|m| - 1] == '\n' && NoCloseAfterNewline(m)
  {
    var j := Join("\n", block);
    JoinNoClose(block);
    NoCloseAppend("\n", j);
    NoCloseAppend("\n" + j, "\n");
    if j != [] {
      assert ("\n" + j + "\n")[1] == j[0];
    }
  }

  /** The anchor does not overlap itself: no shift of 1 to 21 characters puts
      its leading newline and tab on a newline and tab of its own. */
  lemma AnchorShift(d: nat)
    requires 1 <= d <= 21
    ensures |ANCHOR| == 23 && !(ANCHOR[d] == '\n' && ANCHOR[d + 1] == '\t')
  {
  }

  /** When the content held exactly one anchor and no line of the block holds
      a newline or starts with a closing parenthesis, the written content holds
      exactly one anchor too, right after the inserted text. */
  lemma SpliceSingleAnchor(content: string, block: seq<string>, p: nat)
    requires RFind(content, ANCHOR) == Some(p)
    requires forall j: nat :: OccursAt(content, ANCHOR, j) ==> j == p
    requires forall k :: 0 <= k < |block| ==> PlainLine(block[k])
    ensures Splice(content, block).Some?
    ensures forall j: nat :: OccursAt(Splice(content, block).value, ANCHOR, j) <==> j == p + |Middle(block)|
  {
    SpliceLastAnchor(content, block, p);
    var out := Splice(content, block).value;
    RFindLast(out, ANCHOR);
    MiddleNoClose(block);
    forall j: nat | j < p + |Middle(block)|
      ensures !OccursAt(out, ANCHOR, j)
    {
      NotEarlier(content, block, p, j);
    }
  }

  /** Text that differs from the anchor at one of its positions does not hold it there. */
  lemma DiffersAt(s: string, j: nat, i: nat)
    requires i < |ANCHOR| && j + i < |s| && s[j + i] != ANCHOR[i]
    ensures !OccursAt(s, ANCHOR, j)
  {
    if j + |ANCHOR| <= |s| {
      assert s[j..j + |ANCHOR|][i] == s[j + i];
    }
  }

  /** No anchor starts in front of the end of the inserted text. */
  lemma NotEarlier(content: string, block: seq<string>, p: nat, j: nat)
    requires RFind(content, ANCHOR) == Some(p)
    requires forall j: nat :: OccursAt(content, ANCHOR, j) ==> j == p
    requires var m := Middle(block);
      |m| >= 2 && m[0] == '\n' && m[1] != ')' && m[|m| - 1] == '\n' && NoCloseAfterNewline(m)
    requires j < p + |Middle(block)|
    ensures !OccursAt(content[..p] + Middle(block) + content[p..], ANCHOR, j)
  {
    RFindLast(content, ANCHOR);
    if j + |ANCHOR| <= p {
      assert !OccursAt(content, ANCHOR, j);
      EarlyInContent(content, Middle(block), p, j);
    } else {
      assert content[p..][..|ANCHOR|] == content[p..p + |ANCHOR|];
      LateOccurrence(content[..p], Middle(block), content[p..], j);
    }
  }

  /** An anchor that would end before p lies in the content itself. */
  lemma EarlyInContent(content: string, m: string, p: nat, j: nat)
    requires p <= |content| && j + |ANCHOR| <= p && !OccursAt(content, ANCHOR, j)
    ensures !OccursAt(content[..p] + m + content[p..], ANCHOR, j)
  {
    var out := content[..p] + m + content[p..];
    assert out[j..j + |ANCHOR|] == content[..p][j..j + |ANCHOR|] == content[j..j + |ANCHOR|];
  }

  /** An anchor that would end after the text in front of the inserted text
      and start before the anchor that follows it. */
  lemma LateOccurrence(a: string, m: string, y: string, j: nat)
    requires |m| >= 2 && m[0] == '\n' && m[1] != ')' && m[|m| - 1] == '\n' && NoCloseAfterNewline(m)
    requires |y| >= |ANCHOR| && y[..|ANCHOR|] == ANCHOR
    requires |a| < j + |ANCHOR| && j < |a| + |m|
    ensures !OccursAt(a + m + y, ANCHOR, j)
  {
    var out := a + m + y;
    var x := |a| + |m|;
    assert |ANCHOR| == 23 && ANCHOR[21] == '\n' && ANCHOR[22] == ')';
    var e := j + 21;
    if e < x {
      CloseInMiddle(a, m, y, e);
      if out[e] != '\n' {
        DiffersAt(out, j, 21);
      } else {
        DiffersAt(out, j, 22);
      }
    } else {
      assert out[x] == y[0] == ANCHOR[0] == '\n' && out[x + 1] == y[1] == ANCHOR[1] == '\t';
      AnchorShift(x - j);
      if out[x] != ANCHOR[x - j] {
        DiffersAt(out, j, x - j);
      } else {
        DiffersAt(out, j, x - j + 1);
      }
    }
  }

  /** A newline from the end of the text before the inserted text to the end
      of the inserted text is not followed by a closing parenthesis. */
  lemma CloseInMiddle(a: string, m: string, y: string, e: nat)
    requires |m| >= 2 && m[0] == '\n' && m[1] != ')' && m[|m| - 1] == '\n' && NoCloseAfterNewline(m)
    requires y != [] && y[0] == '\n'
    requires |a| <= e + 1 && e < |a| + |m|
    ensures var out := a + m + y; !(out[e] == '\n' && out[e + 1] == ')')
  {
    var out := a + m + y;
    if e + 1 == |a| {
      assert out[e + 1] == m[0];
    } else if e + 1 < |a| + |m| {
      assert out[e] == m[e - |a|] && out[e + 1] == m[e - |a| + 1];
    } else {
      assert out[e + 1] == y[0];
    }
  }
}
