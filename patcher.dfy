/** main() of hardware/route_pcb.py as a transform of the board text: strip
    earlier routing, collapse blank runs, build the routing block and splice it
    in before the last closing anchor. Reading and writing the file is left to
    the caller. */
module Patcher {
  import opened TextUtil
  import opened Identifiers
  import opened Board
  import opened StripPass
  import opened BlankRuns
  import opened Serializer
  import opened Splicing

  /** The content main() splices into: the lines the strip pass keeps, joined,
      with every run of three or more newlines cut to two (one empty line).
      Lines holding only spaces or tabs are not blank to this rewrite and stay. */
  function Cleaned(lines: seq<string>): string {
    Collapse(Concat(Stripped(lines)))
  }

  /** The routing block main() builds when the counter stands at `start`. */
  function Block(segs: seq<Segment>, vias: seq<Via>, hash: string -> HexDigest, start: nat): seq<string> {
    RoutingBlock(segs, vias, Drawn(hash, start, |segs| + |vias|))
  }

  /** What main() writes for the lines readlines() returned, or None when it
      prints an error and writes nothing. */
  function Patched(lines: seq<string>, segs: seq<Segment>, vias: seq<Via>, hash: string -> HexDigest, start: nat): Option<string> {
    Splice(Cleaned(lines), Block(segs, vias, hash, start))
  }

  /** The cleaned content has no three newlines in a row, is no longer than the
      input, and is written only when it holds the anchor. */
  lemma PatchedFacts(lines: seq<string>, segs: seq<Segment>, vias: seq<Via>, hash: string -> HexDigest, start: nat)
    ensures !Contains(Cleaned(lines), BlankRuns.TRIPLE)
    ensures |Cleaned(lines)| <= |Concat(lines)|
    ensures Patched(lines, segs, vias, hash, start).None? <==> !Contains(Cleaned(lines), ANCHOR)
  {
    CollapseNoTriple(Concat(Stripped(lines)));
    CollapseShorter(Concat(Stripped(lines)));
    StrippedSubseq(lines);
    ConcatSubseq(Stripped(lines), lines);
    SpliceNone(Cleaned(lines), Block(segs, vias, hash, start));
  }

  /** Joining a subsequence of the lines gives no more text than joining all. */
  lemma {:induction false} ConcatSubseq(a: seq<string>, b: seq<string>)
    requires IsSubseq(a, b)
    ensures |Concat(a)| <= |Concat(b)|
    decreases |b|
  {
    if a != [] {
      if a[0] == b[0] && IsSubseq(a[1..], b[1..]) {
        ConcatSubseq(a[1..], b[1..]);
      } else {
        ConcatSubseq(a, b[1..]);
      }
    }
  }

  /** main(), with the lines of the board file given and the new content
      returned instead of written. The routing lines are built, and the
      counter advanced, before the anchor is looked for, so the counter
      advances even when nothing is written. */
  method RoutePcb(lines: seq<string>, table: RouteTable, gen: UuidGenerator) returns (out: Option<string>)
    modifies gen
    ensures gen.counter == old(gen.counter) + |table.segments| + |table.vias|
    ensures out == Patched(lines, table.segments, table.vias, gen.hash, old(gen.counter))
  {
    ghost var start := gen.counter;
    var kept := StripGenerated(lines);
    var content := Concat(kept);
    content := Collapse(content);
    var routing := BuildRoutingLines(table, gen);
    assert routing == Block(table.segments, table.vias, gen.hash, start);
    assert content == Cleaned(lines);
    var lastPos := RFind(content, ANCHOR);
    if lastPos.None? {
      return None;
    }
    var p := lastPos.value;
    out := Some(content[..p] + "\n" + Join("\n", routing) + "\n" + content[p..]);
    assert content[..p] + "\n" + Join("\n", routing) + "\n" + content[p..]
        == content[..p] + Middle(routing) + content[p..];
    assert out == Splice(content, routing);
  }
}
