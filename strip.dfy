/** The first pass of main() in hardware/route_pcb.py: a line-by-line state
    machine that removes every segment and via in the file, whoever added
    them; it goes by the form of a line, not by who wrote it. A line whose
    stripped text is "(segment" or "(via" opens a multi-line block that is
    dropped up to and including the next line whose stripped text starts with
    ")"; a line holding a one-line segment or via record is dropped by itself;
    every other line is copied through. */
module StripPass {
  import opened TextUtil
  import opened LineSplit

  const SEGMENT_OPENER := "(segment"
  const VIA_OPENER := "(via"
  const SEGMENT_RECORD := "\t(segment (start"
  const VIA_RECORD := "\t(via (at"

  /** line.strip() == '(segment' or line.strip() == '(via' */
  predicate IsOpener(line: string) {
    Strip(line) == SEGMENT_OPENER || Strip(line) == VIA_OPENER
  }

  /** line.strip().startswith(')') */
  predicate IsTerminator(line: string) {
    StartsWith(Strip(line), ")")
  }

  /** '\t(segment (start' in line or '\t(via (at' in line */
  predicate IsInlineRecord(line: string) {
    Contains(line, SEGMENT_RECORD) || Contains(line, VIA_RECORD)
  }

  /** A line the pass copies through when it meets it outside a block. */
  predicate Kept(line: string) {
    !IsOpener(line) && !IsInlineRecord(line)
  }

  predicate AllKept(lines: seq<string>) {
    forall k :: 0 <= k < |lines| ==> Kept(lines[k])
  }

  /** The index of the first terminator line, or |lines| when there is none. */
  function FirstTerminator(lines: seq<string>): (j: nat)
    ensures j <= |lines|
    ensures j < |lines| ==> IsTerminator(lines[j])
    ensures forall k :: 0 <= k < j ==> !IsTerminator(lines[k])
    decreases |lines|
  {
    if lines == [] || IsTerminator(lines[0]) then 0 else 1 + FirstTerminator(lines[1..])
  }

  /** What the pass leaves of `lines`. */
  function Stripped(lines: seq<string>): seq<string>
    decreases |lines|
  {
    if lines == [] then []
    else if IsOpener(lines[0]) then
      var j := 1 + FirstTerminator(lines[1..]);
      if j == |lines| then [] else Stripped(lines[j + 1..])
    else if IsInlineRecord(lines[0]) then Stripped(lines[1..])
    else [lines[0]] + Stripped(lines[1..])
  }

  /** What the pass leaves of the lines from index i on (nothing once i is past the end). */
  function StripFrom(lines: seq<string>, i: nat): seq<string> {
    if i < |lines| then Stripped(lines[i..]) else []
  }

  /** The loop of route_pcb.py lines 178-193, with its indices i and j. */
  method StripGenerated(lines: seq<string>) returns (kept: seq<string>)
    ensures kept == Stripped(lines)
  {
    kept := [];
    var i := 0;
    StripStart(lines);
    while i < |lines|
      invariant 0 <= i <= |lines| + 1
      invariant kept + StripFrom(lines, i) == Stripped(lines)
      decreases |lines| + 1 - i
    {
      kept, i := StripStep(lines, kept, i);
    }
    StripEnd(lines, kept, i);
  }

  /** One turn of the loop: a block is skipped up to and including its
      terminator, a one-line record is skipped, any other line is kept. */
  method StripStep(lines: seq<string>, kept: seq<string>, i: nat) returns (kept': seq<string>, i': nat)
    requires i < |lines|
    ensures IsOpener(lines[i]) ==> kept' == kept && i' == i + 2 + FirstTerminator(lines[i + 1..])
    ensures !IsOpener(lines[i]) && IsInlineRecord(lines[i]) ==> kept' == kept && i' == i + 1
    ensures Kept(lines[i]) ==> kept' == kept + [lines[i]] && i' == i + 1
    ensures i < i' <= |lines| + 1
    ensures kept' + StripFrom(lines, i') == kept + StripFrom(lines, i)
  {
    var opener, record := IsOpener(lines[i]), IsInlineRecord(lines[i]);
    if opener {
      var j := SkipBlock(lines, i);
      BlockSkipped(lines, i, j);
      kept', i' := kept, j + 1;
    } else if record {
      RecordSkipped(lines, i);
      kept', i' := kept, i + 1;
    } else {
      LineKept(lines, kept, i);
      kept', i' := kept + [lines[i]], i + 1;
    }
  }

  lemma StripStart(lines: seq<string>)
    ensures [] + StripFrom(lines, 0) == Stripped(lines)
  {
    assert lines[0..] == lines;
  }

  lemma StripEnd(lines: seq<string>, kept: seq<string>, i: nat)
    requires i >= |lines|
    requires kept + StripFrom(lines, i) == Stripped(lines)
    ensures kept == Stripped(lines)
  {
    assert kept + [] == kept;
  }

  /** The inner loop of the pass: from the line after an opener, the index of
      the first terminator line, or the end of the lines. */
  method SkipBlock(lines: seq<string>, i: nat) returns (j: nat)
    requires i < |lines|
    ensures j == i + 1 + FirstTerminator(lines[i + 1..])
  {
    j := i + 1;
    while j < |lines| && !IsTerminator(lines[j])
      invariant i + 1 <= j <= |lines|
      invariant j + FirstTerminator(lines[j..]) == i + 1 + FirstTerminator(lines[i + 1..])
    {
      FirstTerminatorStep(lines, j);
      j := j + 1;
    }
    FirstTerminatorStop(lines, j);
  }

  lemma FirstTerminatorStep(lines: seq<string>, j: nat)
    requires j < |lines| && !IsTerminator(lines[j])
    ensures FirstTerminator(lines[j..]) == 1 + FirstTerminator(lines[j + 1..])
  {
    assert lines[j..][1..] == lines[j + 1..];
  }

  lemma FirstTerminatorStop(lines: seq<string>, j: nat)
    requires j <= |lines| && (j == |lines| || IsTerminator(lines[j]))
    ensures FirstTerminator(lines[j..]) == 0
  {
  }

  lemma BlockSkipped(lines: seq<string>, i: nat, j: nat)
    requires i < |lines| && IsOpener(lines[i])
    requires j == i + 1 + FirstTerminator(lines[i + 1..])
    ensures StripFrom(lines, i) == StripFrom(lines, j + 1)
  {
    var s := lines[i..];
    assert s[0] == lines[i] && s[1..] == lines[i + 1..];
    assert Stripped(s) == if j - i == |s| then [] else Stripped(s[j - i + 1..]);
    if j < |lines| {
      assert s[j - i + 1..] == lines[j + 1..];
      if j + 1 == |lines| {
        assert lines[j + 1..] == [];
      }
    }
  }

  lemma RecordSkipped(lines: seq<string>, i: nat)
    requires i < |lines| && !IsOpener(lines[i]) && IsInlineRecord(lines[i])
    ensures StripFrom(lines, i) == StripFrom(lines, i + 1)
  {
    assert lines[i..][0] == lines[i] && lines[i..][1..] == lines[i + 1..];
  }

  lemma LineKept(lines: seq<string>, kept: seq<string>, i: nat)
    requires i < |lines| && Kept(lines[i])
    ensures (kept + [lines[i]]) + StripFrom(lines, i + 1) == kept + StripFrom(lines, i)
  {
    assert lines[i..][1..] == lines[i + 1..];
    assert StripFrom(lines, i) == [lines[i]] + StripFrom(lines, i + 1);
  }

  /** The lines holding a one-line segment or via record, in order. */
  function Records(lines: seq<string>): seq<string>
    decreases |lines|
  {
    if lines == [] then []
    else (if IsInlineRecord(lines[0]) then [lines[0]] else []) + Records(lines[1..])
  }

  /** Lines the pass keeps in front add no record. */
  lemma {:induction false} RecordsKeptPrefix(pre: seq<string>, rest: seq<string>)
    requires AllKept(pre)
    ensures Records(pre + rest) == Records(rest)
    decreases |pre|
  {
    if pre == [] {
      assert pre + rest == rest;
    } else {
      assert (pre + rest)[0] == pre[0] && (pre + rest)[1..] == pre[1..] + rest;
      RecordsKeptPrefix(pre[1..], rest);
    }
  }

  /** Records in front are counted, in order, ahead of those that follow. */
  lemma {:induction false} RecordsOfRecordsPrefix(t: seq<string>, rest: seq<string>)
    requires forall k :: 0 <= k < |t| ==> IsInlineRecord(t[k])
    ensures Records(t + rest) == t + Records(rest)
    decreases |t|
  {
    if t == [] {
      assert t + rest == rest;
    } else {
      assert (t + rest)[0] == t[0] && (t + rest)[1..] == t[1..] + rest;
      RecordsOfRecordsPrefix(t[1..], rest);
      assert [t[0]] + (t[1..] + Records(rest)) == t + Records(rest);
    }
  }

  /** Lines the pass keeps hold no record. */
  lemma {:induction false} RecordsOfKept(lines: seq<string>)
    requires AllKept(lines)
    ensures Records(lines) == []
    decreases |lines|
  {
    if lines != [] {
      RecordsOfKept(lines[1..]);
    }
  }

  /** The pass keeps lines in order and adds none. */
  lemma {:induction false} StrippedSubseq(lines: seq<string>)
    ensures IsSubseq(Stripped(lines), lines)
    ensures |Stripped(lines)| <= |lines|
    decreases |lines|
  {
    if lines != [] {
      var r := Stripped(lines);
      if IsOpener(lines[0]) {
        var j := 1 + FirstTerminator(lines[1..]);
        if j < |lines| {
          StrippedSubseq(lines[j + 1..]);
          SubseqOfSuffix(r, lines, j + 1);
        }
      } else if IsInlineRecord(lines[0]) {
        StrippedSubseq(lines[1..]);
        SubseqOfSuffix(r, lines, 1);
      } else {
        StrippedSubseq(lines[1..]);
        assert r[1..] == Stripped(lines[1..]);
      }
    }
    SubseqElements(Stripped(lines), lines);
  }

  /** No line the pass leaves meets either removal condition. */
  lemma {:induction false} StrippedAllKept(lines: seq<string>)
    ensures AllKept(Stripped(lines))
    decreases |lines|
  {
    if lines != [] {
      if IsOpener(lines[0]) {
        var j := 1 + FirstTerminator(lines[1..]);
        if j < |lines| {
          StrippedAllKept(lines[j + 1..]);
        }
      } else {
        StrippedAllKept(lines[1..]);
      }
    }
  }

  /** Lines that all pass the test are copied through unchanged. */
  lemma {:induction false} StrippedKeptPrefix(pre: seq<string>, rest: seq<string>)
    requires AllKept(pre)
    ensures Stripped(pre + rest) == pre + Stripped(rest)
    decreases |pre|
  {
    if pre == [] {
      assert pre + rest == rest;
    } else {
      assert (pre + rest)[0] == pre[0];
      assert (pre + rest)[1..] == pre[1..] + rest;
      StrippedKeptPrefix(pre[1..], rest);
    }
  }

  /** On lines that all pass the test the pass changes nothing. */
  lemma StrippedAllKeptIdentity(lines: seq<string>)
    requires AllKept(lines)
    ensures Stripped(lines) == lines
  {
    StrippedKeptPrefix(lines, []);
    assert lines + [] == lines;
  }

  /** Running the pass a second time changes nothing. */
  lemma StripIdempotent(lines: seq<string>)
    ensures Stripped(Stripped(lines)) == Stripped(lines)
  {
    StrippedAllKept(lines);
    StrippedAllKeptIdentity(Stripped(lines));
  }

  /** One-line records, outside a block, are dropped one by one. */
  lemma {:induction false} StrippedDropsRecords(records: seq<string>, rest: seq<string>)
    requires forall k :: 0 <= k < |records| ==> IsInlineRecord(records[k]) && !IsOpener(records[k])
    ensures Stripped(records + rest) == Stripped(rest)
    decreases |records|
  {
    if records == [] {
      assert records + rest == rest;
    } else {
      assert (records + rest)[0] == records[0];
      assert (records + rest)[1..] == records[1..] + rest;
      StrippedDropsRecords(records[1..], rest);
    }
  }

  /** A block: the opener, every line up to the first terminator, and the
      terminator itself are dropped; scanning resumes after the terminator. */
  lemma StrippedClosedBlock(pre: seq<string>, opener: string, body: seq<string>, closer: string, rest: seq<string>)
    requires AllKept(pre) && IsOpener(opener) && IsTerminator(closer)
    requires forall k :: 0 <= k < |body| ==> !IsTerminator(body[k])
    ensures Stripped(pre + [opener] + body + [closer] + rest) == pre + Stripped(rest)
  {
    var block := [opener] + body + [closer] + rest;
    assert pre + [opener] + body + [closer] + rest == pre + block;
    StrippedKeptPrefix(pre, block);
    StrippedBlock(opener, body, closer, rest);
  }

  lemma StrippedBlock(opener: string, body: seq<string>, closer: string, rest: seq<string>)
    requires IsOpener(opener) && IsTerminator(closer)
    requires forall k :: 0 <= k < |body| ==> !IsTerminator(body[k])
    ensures Stripped([opener] + body + [closer] + rest) == Stripped(rest)
  {
    var block := [opener] + body + [closer] + rest;
    assert block[0] == opener;
    assert block[1..] == body + [closer] + rest;
    FirstTerminatorAfter(body, closer, rest);
    assert block[|body| + 2..] == rest;
  }

  /** A block without a terminator swallows the opener and everything after it. */
  lemma StrippedOpenBlock(pre: seq<string>, opener: string, body: seq<string>)
    requires AllKept(pre) && IsOpener(opener)
    requires forall k :: 0 <= k < |body| ==> !IsTerminator(body[k])
    ensures Stripped(pre + [opener] + body) == pre
  {
    var block := [opener] + body;
    assert pre + [opener] + body == pre + block;
    StrippedKeptPrefix(pre, block);
    assert block[1..] == body;
    assert pre + [] == pre;
  }

  lemma FirstTerminatorAfter(body: seq<string>, closer: string, rest: seq<string>)
    requires IsTerminator(closer)
    requires forall k :: 0 <= k < |body| ==> !IsTerminator(body[k])
    ensures FirstTerminator(body + [closer] + rest) == |body|
  {
    var s := body + [closer] + rest;
    var j := FirstTerminator(s);
    assert s[|body|] == closer;
  }

  /** The pass keeps what readlines() can return in that shape. */
  lemma {:induction false} StrippedWellFormed(lines: seq<string>)
    requires WellFormed(lines)
    ensures WellFormed(Stripped(lines))
    decreases |lines|
  {
    if lines != [] {
      if IsOpener(lines[0]) {
        var j := 1 + FirstTerminator(lines[1..]);
        if j < |lines| {
          StrippedWellFormed(lines[j + 1..]);
        }
      } else {
        StrippedWellFormed(lines[1..]);
        var r := Stripped(lines);
        if !IsInlineRecord(lines[0]) {
          assert r[1..] == Stripped(lines[1..]);
          StrippedSubseq(lines[1..]);
          if |r| > 1 {
            assert |lines| > 1;
          }
        }
      }
    }
  }
}
