/** What happens when hardware/route_pcb.py is run again on the board file it
    wrote. Each run is a fresh process, so its counter starts at 0 and it draws
    the same identifiers. The strip pass removes the records the previous run
    inserted, the collapse merges the blank lines around them, and the block
    is inserted again at the same anchor. Unless the anchor already follows an
    empty line, the first re-run leaves one more blank line in front of the
    block than the first run did; from then on every run writes exactly what
    it read. */
module Rerun {
  import opened TextUtil
  import opened LineSplit
  import opened Identifiers
  import opened Board
  import opened StripPass
  import opened BlankRuns
  import opened Serializer
  import opened Splicing
  import opened Patcher

  /** One run of the script on the text of the board file. */
  function Run(text: string, segs: seq<Segment>, vias: seq<Via>, hash: string -> HexDigest): Option<string> {
    Patched(SplitLines(text), segs, vias, hash, 0)
  }

  /** A newline at the end of a line does not change whether the strip pass keeps it. */
  lemma KeptNewline(c: string)
    ensures Kept(c + "\n") <==> Kept(c)
  {
    StripTrailingNewline(c);
    ContainsTrailingNewline(c, SEGMENT_RECORD);
    ContainsTrailingNewline(c, VIA_RECORD);
  }

  /** Every piece between newlines is a line the strip pass keeps. */
  predicate ChunksKept(t: string) {
    forall k :: 0 <= k < |Chunks(t)| ==> Kept(Chunks(t)[k])
  }

  /** Content as a run leaves it before the splice. */
  predicate Clean(t: string) {
    !Contains(t, TRIPLE) && ChunksKept(t)
  }

  /** The strip pass keeps every line of a text exactly when it keeps every
      piece between its newlines. */
  lemma ChunksKeptLines(t: string)
    ensures ChunksKept(t) <==> AllKept(SplitLines(t))
  {
    var cs := Chunks(t);
    var ls := SplitLines(t);
    if ChunksKept(t) {
      forall k | 0 <= k < |ls| ensures Kept(ls[k]) {
        LineIsChunk(t, k);
        KeptNewline(cs[k]);
      }
    }
    if AllKept(ls) {
      forall k | 0 <= k < |cs| ensures Kept(cs[k]) {
        ChunkIsLine(t, k);
        KeptNewline(cs[k]);
        if cs[k] == "" {
          assert !Contains("", SEGMENT_RECORD) && !Contains("", VIA_RECORD);
        }
      }
    }
  }

  /** What a run splices into is clean: no three newlines in a row and no line
      the strip pass would remove. */
  lemma CleanedClean(lines: seq<string>)
    requires WellFormed(lines)
    ensures Clean(Cleaned(lines))
  {
    var s := Stripped(lines);
    var x := Concat(s);
    StrippedAllKept(lines);
    StrippedWellFormed(lines);
    SplitConcat(s);
    ChunksKeptLines(x);
    CollapseNoTriple(x);
    CollapseChunks(x);
    var cx := Chunks(Collapse(x));
    SubseqElements(cx, Chunks(x));
    forall k | 0 <= k < |cx| ensures Kept(cx[k]) {
      assert cx[k] in Chunks(x);
    }
  }

  /** Stripping and collapsing content that was already stripped and
      collapsed changes nothing. */
  lemma CleanedIdempotent(lines: seq<string>)
    requires WellFormed(lines)
    ensures Cleaned(SplitLines(Cleaned(lines))) == Cleaned(lines)
  {
    var c := Cleaned(lines);
    CleanedClean(lines);
    ChunksKeptLines(c);
    StrippedAllKeptIdentity(SplitLines(c));
    SplitLinesJoin(c);
    CollapseNoTripleIdentity(c);
  }

  /** Cutting clean content after a newline leaves two clean halves. */
  lemma CleanHalves(c: string, q: nat)
    requires Clean(c) && q < |c| && c[q] == '\n'
    ensures var a, b := c[..q + 1], c[q + 1..];
      && c == a + b && EndsWithNewline(a)
      && AllKept(SplitLines(a)) && AllKept(SplitLines(b))
      && !Contains(a, TRIPLE) && !Contains(b, TRIPLE)
  {
    var a, b := c[..q + 1], c[q + 1..];
    assert c == a + b;
    ChunksKeptLines(c);
    SplitLinesAppend(a, b);
    var la, lb := SplitLines(a), SplitLines(b);
    assert forall k :: 0 <= k < |la| ==> la[k] == SplitLines(c)[k];
    assert forall k :: 0 <= k < |lb| ==> lb[k] == SplitLines(c)[|la| + k];
    ContainsInPrefix(c, TRIPLE, q + 1);
    ContainsInSuffix(c, TRIPLE, q + 1);
  }

  /** The content after the previous run's block is settled: its trailing
      newlines before the anchor merge with the blank lines around the removed
      block into one empty line. */
  function Settle(c: string, p: nat): string
    requires p < |c|
  {
    DropTrailingNewlines(c[..p]) + "\n\n" + c[p + 1..]
  }

  /** The inserted text is a newline and then the block's lines, each with its newline. */
  lemma MiddleLines(block: seq<string>)
    requires block != []
    ensures Middle(block) == "\n" + Concat(Terminated(block))
  {
    JoinNewline(block);
  }

  /** Records stay records, and openers stay openers, with a newline appended. */
  lemma TerminatedRecords(s: seq<string>)
    requires forall k :: 0 <= k < |s| ==> IsInlineRecord(s[k]) && !IsOpener(s[k])
    ensures forall k :: 0 <= k < |Terminated(s)| ==>
      IsInlineRecord(Terminated(s)[k]) && !IsOpener(Terminated(s)[k])
  {
    TerminatedAt(s);
    forall k | 0 <= k < |s|
      ensures IsInlineRecord(s[k] + "\n") && !IsOpener(s[k] + "\n")
    {
      StripTrailingNewline(s[k]);
      ContainsTrailingNewline(s[k], SEGMENT_RECORD);
      ContainsTrailingNewline(s[k], VIA_RECORD);
    }
  }

  /** Newline-free parts with their newlines, and one more newline, are
      lines as readlines() returns them. */
  lemma TerminatedLines(r: seq<string>)
    requires forall k :: 0 <= k < |r| ==> '\n' !in r[k]
    ensures AllTerminated(Terminated(r) + ["\n"])
  {
    TerminatedAt(r);
    var l := Terminated(r) + ["\n"];
    forall k | 0 <= k < |l| ensures IsLine(l[k]) && EndsWithNewline(l[k]) {
      if k < |r| {
        assert l[k] == r[k] + "\n" && l[k][..|l[k]| - 1] == r[k];
      }
    }
  }

  /** The routing block with its newlines: a lone newline, the segment records,
      a lone newline, the via records. */
  lemma BlockTerminated(s1: seq<string>, s2: seq<string>)
    ensures Terminated([""] + s1 + [""] + s2) == ["\n"] + Terminated(s1) + ["\n"] + Terminated(s2)
  {
    TerminatedAppend([""] + s1 + [""], s2);
    TerminatedAppend([""] + s1, [""]);
    TerminatedAppend([""], s1);
    assert [""][1..] == [];
    var none: seq<string> := [];
    assert Terminated(none) == none;
    assert "" + "\n" == "\n";
    assert Terminated([""]) == ["" + "\n"] + Terminated(none) == ["\n"];
  }

  /** An empty line, with or without its newline, is kept. */
  lemma KeptBlank()
    ensures Kept("") && Kept("\n")
  {
    assert !Contains("", SEGMENT_RECORD) && !Contains("", VIA_RECORD);
    KeptNewline("");
    assert "" + "\n" == "\n";
  }

  /** The anchor starts with a newline followed by a tab. */
  lemma AnchorAt(c: string, p: nat)
    requires RFind(c, ANCHOR) == Some(p)
    ensures p + |ANCHOR| <= |c| && c[p] == '\n' && c[p + 1] == '\t'
    ensures forall j: nat :: j > p ==> !OccursAt(c, ANCHOR, j)
  {
    RFindLast(c, ANCHOR);
    assert c[p..p + |ANCHOR|][0] == c[p] && c[p..p + |ANCHOR|][1] == c[p + 1];
  }

  /** The inserted text, cut after the anchor's newline instead of before it:
      the block's lines with their newlines, then one more newline. */
  lemma SpliceText(c: string, p: nat, block: seq<string>, out: string)
    requires p < |c| && c[p] == '\n' && block != []
    requires out == c[..p] + Middle(block) + c[p..]
    ensures out == c[..p + 1] + (Concat(Terminated(block) + ["\n"]) + c[p + 1..])
  {
    var mid := Concat(Terminated(block));
    MiddleLines(block);
    ConcatAppend(Terminated(block), ["\n"]);
    assert Concat(["\n"]) == "\n";
    assert c[..p] + ['\n'] == c[..p + 1] && c[p..] == ['\n'] + c[p + 1..];
    SpliceRegroup(c[..p], '\n', mid, c[p + 1..]);
  }

  /** A run's output split into lines: the lines up to the anchor's newline,
      a blank line, the segment records, a blank line, the via records, a blank
      line, and the lines from the anchor on. */
  lemma RerunLines(c: string, p: nat, s1: seq<string>, s2: seq<string>, out: string)
    requires p + 1 < |c| && c[p] == '\n'
    requires forall k :: 0 <= k < |s1| ==> '\n' !in s1[k]
    requires forall k :: 0 <= k < |s2| ==> '\n' !in s2[k]
    requires out == c[..p] + Middle([""] + s1 + [""] + s2) + c[p..]
    ensures SplitLines(out)
         == SplitLines(c[..p + 1]) + (["\n"] + Terminated(s1) + ["\n"] + Terminated(s2) + ["\n"])
            + SplitLines(c[p + 1..])
  {
    var block := [""] + s1 + [""] + s2;
    var a, b := c[..p + 1], c[p + 1..];
    var l := Terminated(block) + ["\n"];
    SpliceText(c, p, block, out);
    assert AllTerminated(l) by {
      forall k | 0 <= k < |block| ensures '\n' !in block[k] {
        if 1 <= k < 1 + |s1| {
          assert block[k] == s1[k - 1];
        } else if 2 + |s1| <= k {
          assert block[k] == s2[k - 2 - |s1|];
        }
      }
      TerminatedLines(block);
    }
    assert SplitLines(out) == SplitLines(a) + (l + SplitLines(b)) by {
      SplitLinesAppend(a, Concat(l) + b);
      SplitAfterLines(l, b);
    }
    BlockTerminated(s1, s2);
  }

  /** The strip pass on kept lines around the block's lines keeps the kept
      lines and the blank lines, and drops every record. */
  lemma StrippedAround(la: seq<string>, lb: seq<string>, t1: seq<string>, t2: seq<string>, blank: string)
    requires AllKept(la) && AllKept(lb) && Kept(blank)
    requires forall k :: 0 <= k < |t1| ==> IsInlineRecord(t1[k]) && !IsOpener(t1[k])
    requires forall k :: 0 <= k < |t2| ==> IsInlineRecord(t2[k]) && !IsOpener(t2[k])
    ensures Stripped(la + ([blank] + t1 + [blank] + t2 + [blank]) + lb) == la + [blank, blank, blank] + lb
  {
    var rest := t1 + ([blank] + (t2 + ([blank] + lb)));
    Ungroup(la, t1, t2, lb, blank);
    assert Stripped((la + [blank]) + rest) == (la + [blank]) + Stripped(rest) by {
      KeptAppend(la, blank);
      StrippedKeptPrefix(la + [blank], rest);
    }
    StrippedTail(t1, t2, lb, blank);
    Regroup(la, lb, blank);
  }

  /** After the kept lines: the records are dropped, the blank lines and
      the kept lines stay. */
  lemma StrippedTail(t1: seq<string>, t2: seq<string>, lb: seq<string>, blank: string)
    requires AllKept(lb) && Kept(blank)
    requires forall k :: 0 <= k < |t1| ==> IsInlineRecord(t1[k]) && !IsOpener(t1[k])
    requires forall k :: 0 <= k < |t2| ==> IsInlineRecord(t2[k]) && !IsOpener(t2[k])
    ensures Stripped(t1 + ([blank] + (t2 + ([blank] + lb)))) == [blank, blank] + lb
  {
    var tail := [blank] + lb;
    assert AllKept([blank]) by {
      assert [blank][0] == blank;
    }
    assert Stripped(tail) == tail by {
      StrippedKeptPrefix([blank], lb);
      StrippedAllKeptIdentity(lb);
    }
    assert Stripped([blank] + (t2 + tail)) == [blank] + tail by {
      StrippedKeptPrefix([blank], t2 + tail);
      StrippedDropsRecords(t2, tail);
    }
    StrippedDropsRecords(t1, [blank] + (t2 + tail));
    PairFront(blank, lb);
  }

  lemma PairFront<T>(x: T, b: seq<T>)
    ensures [x] + ([x] + b) == [x, x] + b
  {
  }

  lemma SpliceRegroup<T>(pre: seq<T>, x: T, mid: seq<T>, b: seq<T>)
    ensures pre + ([x] + mid) + ([x] + b) == (pre + [x]) + ((mid + [x]) + b)
  {
  }

  lemma Regroup<T>(a: seq<T>, b: seq<T>, x: T)
    ensures (a + [x]) + ([x, x] + b) == a + [x, x, x] + b
  {
  }

  lemma Ungroup<T>(a: seq<T>, t1: seq<T>, t2: seq<T>, b: seq<T>, x: T)
    ensures a + ([x] + t1 + [x] + t2 + [x]) + b == (a + [x]) + (t1 + ([x] + (t2 + ([x] + b))))
  {
  }

  /** The three blank lines merge with the newlines before them into one
      empty line. */
  lemma CollapseSettle(c: string, p: nat)
    requires Clean(c) && p + 1 < |c| && c[p] == '\n' && c[p + 1] != '\n'
    ensures Collapse(c[..p + 1] + "\n\n\n" + c[p + 1..]) == Settle(c, p)
  {
    var head := DropTrailingNewlines(c[..p]);
    var m := p - |head|;
    var b := c[p + 1..];
    SettleSplit(c, p);
    CleanAroundRun(c, p);
    CollapseRun(m + 4, b);
    CollapseAppend(head, Newlines(m + 4) + b);
    Assoc(head, "\n\n", b);
  }

  /** The text with three more newlines after the anchor's newline: the part
      before the newlines, the run of newlines, and the rest. */
  lemma SettleSplit(c: string, p: nat)
    requires p + 1 < |c| && c[p] == '\n'
    ensures var head := DropTrailingNewlines(c[..p]);
      c[..p + 1] + "\n\n\n" + c[p + 1..] == head + (Newlines(p - |head| + 4) + c[p + 1..])
  {
    var head := DropTrailingNewlines(c[..p]);
    var m := p - |head|;
    var b := c[p + 1..];
    assert c[..p] == head + Newlines(m);
    assert c[..p + 1] == c[..p] + "\n";
    assert Newlines(m) + "\n" + "\n\n\n" == Newlines(m + 4);
    assert c[..p + 1] + "\n\n\n" == head + Newlines(m + 4);
    Assoc(head, Newlines(m + 4), b);
  }

  /** The parts of clean text before the run and after it are left alone by the rewrite. */
  lemma CleanAroundRun(c: string, p: nat)
    requires Clean(c) && p + 1 < |c|
    ensures Collapse(DropTrailingNewlines(c[..p])) == DropTrailingNewlines(c[..p])
    ensures Collapse(c[p + 1..]) == c[p + 1..]
  {
    var head := DropTrailingNewlines(c[..p]);
    assert c[..|head|] == head by {
      assert c[..p] == head + Newlines(p - |head|);
      assert c[..p][..|head|] == head;
    }
    ContainsInPrefix(c, TRIPLE, |head|);
    CollapseNoTripleIdentity(head);
    ContainsInSuffix(c, TRIPLE, p + 1);
    CollapseNoTripleIdentity(c[p + 1..]);
  }

  /** What the next run splices into is the settled content. */
  lemma RerunCleaned(c: string, p: nat, s1: seq<string>, s2: seq<string>)
    requires Clean(c) && RFind(c, ANCHOR) == Some(p)
    requires forall k :: 0 <= k < |s1| ==> '\n' !in s1[k] && IsInlineRecord(s1[k]) && !IsOpener(s1[k])
    requires forall k :: 0 <= k < |s2| ==> '\n' !in s2[k] && IsInlineRecord(s2[k]) && !IsOpener(s2[k])
    ensures Splice(c, [""] + s1 + [""] + s2).Some?
    ensures p < |c| && Cleaned(SplitLines(Splice(c, [""] + s1 + [""] + s2).value)) == Settle(c, p)
  {
    var block := [""] + s1 + [""] + s2;
    AnchorAt(c, p);
    SpliceKeeps(c, block, p);
    var out := Splice(c, block).value;
    var a, b := c[..p + 1], c[p + 1..];
    var la, lb := SplitLines(a), SplitLines(b);
    var three := ["\n", "\n", "\n"];
    assert Stripped(SplitLines(out)) == la + three + lb by {
      assert out == c[..p] + Middle(block) + c[p..];
      RerunLines(c, p, s1, s2, out);
      CleanHalves(c, p);
      TerminatedRecords(s1);
      TerminatedRecords(s2);
      KeptBlank();
      StrippedAround(la, lb, Terminated(s1), Terminated(s2), "\n");
    }
    assert Concat(la + three + lb) == a + "\n\n\n" + b by {
      ConcatAppend(la + three, lb);
      ConcatAppend(la, three);
      assert Concat(three) == "\n\n\n";
      SplitLinesJoin(a);
      SplitLinesJoin(b);
    }
    CollapseSettle(c, p);
  }

  /** In the settled content the anchor last occurs right after the one empty
      line, and settling it again changes nothing. */
  lemma SettleAnchor(c: string, p: nat)
    requires RFind(c, ANCHOR) == Some(p)
    ensures p < |c|
    ensures var head := DropTrailingNewlines(c[..p]);
      && RFind(Settle(c, p), ANCHOR) == Some(|head| + 1)
      && Settle(Settle(c, p), |head| + 1) == Settle(c, p)
  {
    AnchorAt(c, p);
    var head := DropTrailingNewlines(c[..p]);
    var x := head + "\n";
    assert Settle(c, p) == x + c[p..] by {
      assert c[p..] == "\n" + c[p + 1..];
    }
    SettleLastAnchor(c, p, x);
    SettleTwice(head, c[p + 1..]);
  }

  /** Text that keeps the part of c from the anchor on, after any prefix x,
      has its last anchor right after x. */
  lemma SettleLastAnchor(c: string, p: nat, x: string)
    requires RFind(c, ANCHOR) == Some(p)
    ensures p <= |c| && RFind(x + c[p..], ANCHOR) == Some(|x|)
  {
    AnchorAt(c, p);
    var y := c[p..];
    var s := x + y;
    assert c[..p] + y == c;
    OccursShift(c[..p], y, ANCHOR, 0);
    OccursShift(x, y, ANCHOR, 0);
    forall j: nat | j > |x|
      ensures !OccursAt(s, ANCHOR, j)
    {
      OccursShift(x, y, ANCHOR, j - |x|);
      OccursShift(c[..p], y, ANCHOR, j - |x|);
    }
    RFindIs(s, ANCHOR, |x|);
  }

  /** Settling settled content changes nothing. */
  lemma SettleTwice(head: string, b: string)
    requires EndsOutsideRun(head)
    ensures var s := head + "\n\n" + b;
      |head| + 1 < |s| && Settle(s, |head| + 1) == s
  {
    var s := head + "\n\n" + b;
    assert s[..|head| + 1] == head + ['\n'];
    assert s[|head| + 2..] == b;
    DropOneNewline(head);
  }

  /** Taking the trailing newline off text that had just one gives it back. */
  lemma DropOneNewline(head: string)
    requires EndsOutsideRun(head)
    ensures DropTrailingNewlines(head + ['\n']) == head
  {
    var x := head + ['\n'];
    assert x[..|x| - 1] == head;
    assert DropTrailingNewlines(head) == head;
  }

  /** Running the script on what its previous run wrote: the next run writes
      the settled content with the same block at the same anchor. */
  lemma RerunSettles(text: string, segs: seq<Segment>, vias: seq<Via>, hash: string -> HexDigest)
    requires Run(text, segs, vias, hash).Some?
    ensures var c := Cleaned(SplitLines(text));
      && RFind(c, ANCHOR).Some? && RFind(c, ANCHOR).value < |c|
      && Cleaned(SplitLines(Run(text, segs, vias, hash).value)) == Settle(c, RFind(c, ANCHOR).value)
      && Run(Run(text, segs, vias, hash).value, segs, vias, hash)
         == Splice(Settle(c, RFind(c, ANCHOR).value), Block(segs, vias, hash, 0))
  {
    var c := Cleaned(SplitLines(text));
    SplitLinesJoin(text);
    CleanedClean(SplitLines(text));
    var block := Block(segs, vias, hash, 0);
    var p := RFind(c, ANCHOR).value;
    BlockParts(segs, vias, hash, 0);
    var ids := Drawn(hash, 0, |segs| + |vias|);
    RerunCleaned(c, p, SegmentLines(segs, ids[..|segs|]), ViaLines(vias, ids[|segs|..]));
  }

  /** The two parts of the block meet what the re-run lemmas ask of them. */
  lemma BlockParts(segs: seq<Segment>, vias: seq<Via>, hash: string -> HexDigest, start: nat)
    ensures var ids := Drawn(hash, start, |segs| + |vias|);
      var s1, s2 := SegmentLines(segs, ids[..|segs|]), ViaLines(vias, ids[|segs|..]);
      && Block(segs, vias, hash, start) == [""] + s1 + [""] + s2
      && (forall k :: 0 <= k < |s1| ==> '\n' !in s1[k] && IsInlineRecord(s1[k]) && !IsOpener(s1[k]))
      && (forall k :: 0 <= k < |s2| ==> '\n' !in s2[k] && IsInlineRecord(s2[k]) && !IsOpener(s2[k]))
  {
    var ids := Drawn(hash, start, |segs| + |vias|);
    DrawnUuids(hash, start, |segs| + |vias|);
    var i1, i2 := ids[..|segs|], ids[|segs|..];
    assert forall k :: 0 <= k < |i1| ==> IsUuidText(i1[k]);
    assert forall k :: 0 <= k < |i2| ==> IsUuidText(i2[k]) by {
      forall k | 0 <= k < |i2| ensures IsUuidText(i2[k]) {
        assert i2[k] == ids[|segs| + k];
      }
    }
    SegmentLinesDropped(segs, i1);
    ViaLinesDropped(vias, i2);
  }


  /** From the third run on (once the second run has written the board), the
      script writes exactly the text it read. */
  lemma RerunStable(text: string, segs: seq<Segment>, vias: seq<Via>, hash: string -> HexDigest)
    requires Run(text, segs, vias, hash).Some?
    ensures var once := Run(text, segs, vias, hash).value;
      && Run(once, segs, vias, hash).Some?
      && Run(Run(once, segs, vias, hash).value, segs, vias, hash) == Run(once, segs, vias, hash)
  {
    var once := Run(text, segs, vias, hash).value;
    var c := Cleaned(SplitLines(text));
    var p := RFind(c, ANCHOR).value;
    RerunSettles(text, segs, vias, hash);
    var settled := Settle(c, p);
    SettleAnchor(c, p);
    var block := Block(segs, vias, hash, 0);
    var twice := Splice(settled, block).value;
    assert Run(once, segs, vias, hash) == Some(twice);
    // the settled content is what the second run cleaned, so it is clean
    SplitLinesJoin(once);
    CleanedClean(SplitLines(once));
    var q := |DropTrailingNewlines(c[..p])| + 1;
    BlockParts(segs, vias, hash, 0);
    var ids := Drawn(hash, 0, |segs| + |vias|);
    RerunCleaned(settled, q, SegmentLines(segs, ids[..|segs|]), ViaLines(vias, ids[|segs|..]));
    assert Cleaned(SplitLines(twice)) == settled;
  }

  /** When the anchor already follows an empty line, the first re-run writes
      exactly the text the first run wrote. */
  lemma FirstRerunStable(text: string, segs: seq<Segment>, vias: seq<Via>, hash: string -> HexDigest)
    requires Run(text, segs, vias, hash).Some?
    requires var c := Cleaned(SplitLines(text));
      RFind(c, ANCHOR).Some? && 0 < RFind(c, ANCHOR).value <= |c| && c[RFind(c, ANCHOR).value - 1] == '\n'
    ensures Run(Run(text, segs, vias, hash).value, segs, vias, hash) == Run(text, segs, vias, hash)
  {
    var c := Cleaned(SplitLines(text));
    var p := RFind(c, ANCHOR).value;
    RerunSettles(text, segs, vias, hash);
    SplitLinesJoin(text);
    CleanedClean(SplitLines(text));
    AnchorAt(c, p);
    SettleFixed(c, p);
  }

  /** Clean content whose newline at p follows an empty line is already settled. */
  lemma SettleFixed(c: string, p: nat)
    requires Clean(c) && 0 < p < |c| && c[p] == '\n' && c[p - 1] == '\n'
    ensures Settle(c, p) == c
  {
    var head := DropTrailingNewlines(c[..p]);
    var m := p - |head|;
    if p >= 2 {
      ContainsOccurs(c, TRIPLE);
      assert !OccursAt(c, TRIPLE, p - 2);
      assert c[p - 2..p + 1] == [c[p - 2], c[p - 1], c[p]];
      assert c[..p][p - 2] == c[p - 2] != '\n';
    }
    assert c[..p][p - 1] == '\n';
    assert m == 1;
    assert c == c[..p] + "\n" + c[p + 1..];
    assert c[..p] == head + "\n";
  }

  /** No line of the block holds a newline or starts with a closing parenthesis. */
  lemma BlockPlain(segs: seq<Segment>, vias: seq<Via>, hash: string -> HexDigest, start: nat)
    ensures var b := Block(segs, vias, hash, start);
      forall k :: 0 <= k < |b| ==> PlainLine(b[k])
  {
    var ids := Drawn(hash, start, |segs| + |vias|);
    var b := Block(segs, vias, hash, start);
    DrawnUuids(hash, start, |segs| + |vias|);
    RoutingBlockLayout(segs, vias, ids);
    forall k | 0 <= k < |b|
      ensures PlainLine(b[k])
    {
      if 1 <= k < 1 + |segs| {
        SegmentLineDropped(segs[k - 1], ids[k - 1]);
      } else if 2 + |segs| <= k {
        ViaLineDropped(vias[k - 2 - |segs|], ids[k - 2]);
      }
    }
  }

  /** A run on content that holds the anchor exactly once writes content that
      holds it exactly once, right after the inserted block. */
  lemma PatchedSingleAnchor(lines: seq<string>, segs: seq<Segment>, vias: seq<Via>, hash: string -> HexDigest, start: nat)
    requires Contains(Cleaned(lines), ANCHOR)
    requires forall i: nat, j: nat :: OccursAt(Cleaned(lines), ANCHOR, i) && OccursAt(Cleaned(lines), ANCHOR, j) ==> i == j
    ensures Patched(lines, segs, vias, hash, start).Some?
    ensures var out := Patched(lines, segs, vias, hash, start).value;
      && Contains(out, ANCHOR)
      && forall i: nat, j: nat :: OccursAt(out, ANCHOR, i) && OccursAt(out, ANCHOR, j) ==> i == j
  {
    var c := Cleaned(lines);
    var block := Block(segs, vias, hash, start);
    RFindLast(c, ANCHOR);
    var p := RFind(c, ANCHOR).value;
    BlockPlain(segs, vias, hash, start);
    SpliceSingleAnchor(c, block, p);
    var out := Splice(c, block).value;
    ContainsOccurs(out, ANCHOR);
    assert OccursAt(out, ANCHOR, p + |Middle(block)|);
  }

  /** The records in the written file are exactly those of the block: one
      per segment in table order, then one per via in table order, each with
      its newline. Every record the input held has been removed. */
  lemma PatchedRecords(lines: seq<string>, segs: seq<Segment>, vias: seq<Via>, hash: string -> HexDigest, start: nat)
    requires WellFormed(lines)
    requires Patched(lines, segs, vias, hash, start).Some?
    ensures var ids := Drawn(hash, start, |segs| + |vias|);
      Records(SplitLines(Patched(lines, segs, vias, hash, start).value))
        == Terminated(SegmentLines(segs, ids[..|segs|])) + Terminated(ViaLines(vias, ids[|segs|..]))
    ensures |Records(SplitLines(Patched(lines, segs, vias, hash, start).value))| == |segs| + |vias|
  {
    var c := Cleaned(lines);
    CleanedClean(lines);
    var p := RFind(c, ANCHOR).value;
    AnchorAt(c, p);
    BlockParts(segs, vias, hash, start);
    var ids := Drawn(hash, start, |segs| + |vias|);
    var s1, s2 := SegmentLines(segs, ids[..|segs|]), ViaLines(vias, ids[|segs|..]);
    var out := Patched(lines, segs, vias, hash, start).value;
    assert out == c[..p] + Middle([""] + s1 + [""] + s2) + c[p..];
    RerunLines(c, p, s1, s2, out);
    CleanHalves(c, p);
    TerminatedRecords(s1);
    TerminatedRecords(s2);
    KeptBlank();
    RecordsAround(SplitLines(c[..p + 1]), SplitLines(c[p + 1..]), Terminated(s1), Terminated(s2), "\n");
    TerminatedAt(s1);
    TerminatedAt(s2);
  }

  /** Around kept lines and blank lines, only the records count. */
  lemma RecordsAround(la: seq<string>, lb: seq<string>, t1: seq<string>, t2: seq<string>, blank: string)
    requires AllKept(la) && AllKept(lb) && Kept(blank)
    requires forall k :: 0 <= k < |t1| ==> IsInlineRecord(t1[k])
    requires forall k :: 0 <= k < |t2| ==> IsInlineRecord(t2[k])
    ensures Records(la + ([blank] + t1 + [blank] + t2 + [blank]) + lb) == t1 + t2
  {
    var r1 := t1 + ([blank] + (t2 + ([blank] + lb)));
    Ungroup(la, t1, t2, lb, blank);
    assert Records((la + [blank]) + r1) == Records(r1) by {
      KeptAppend(la, blank);
      RecordsKeptPrefix(la + [blank], r1);
    }
    RecordsTail(t1, t2, lb, blank);
  }

  lemma KeptAppend(a: seq<string>, x: string)
    requires AllKept(a) && Kept(x)
    ensures AllKept(a + [x])
  {
    forall k | 0 <= k < |a| + 1 ensures Kept((a + [x])[k]) {
      if k < |a| {
        assert (a + [x])[k] == a[k];
      }
    }
  }

  /** After the kept lines: records, a blank line, records, a blank line, kept lines. */
  lemma RecordsTail(t1: seq<string>, t2: seq<string>, lb: seq<string>, blank: string)
    requires AllKept(lb) && Kept(blank)
    requires forall k :: 0 <= k < |t1| ==> IsInlineRecord(t1[k])
    requires forall k :: 0 <= k < |t2| ==> IsInlineRecord(t2[k])
    ensures Records(t1 + ([blank] + (t2 + ([blank] + lb)))) == t1 + t2
  {
    var r4 := [blank] + lb;
    assert Records(r4) == [] by {
      assert AllKept([blank]);
      RecordsKeptPrefix([blank], lb);
      RecordsOfKept(lb);
    }
    assert Records(t2 + r4) == t2 by {
      RecordsOfRecordsPrefix(t2, r4);
      assert t2 + [] == t2;
    }
    assert Records([blank] + (t2 + r4)) == t2 by {
      assert AllKept([blank]);
      RecordsKeptPrefix([blank], t2 + r4);
    }
    RecordsOfRecordsPrefix(t1, [blank] + (t2 + r4));
  }
}
