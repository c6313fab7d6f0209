/** format_segment(), format_via() and the loops of main() in
    hardware/route_pcb.py that turn the routing table into KiCad records, one
    line per segment and per via, each with the next identifier. */
module Serializer {
  import opened TextUtil
  import opened Identifiers
  import opened Board
  import opened StripPass

  /** Python's str(n) for an integer net number. */
  function NetText(n: int): (r: string)
    ensures r != [] && '\n' !in r
  {
    if n < 0 then "-" + Decimal(-n) else Decimal(n)
  }

  /** A parenthesised field "(name value)". */
  function Field(name: string, value: string): string {
    "(" + name + " " + value + ")"
  }

  /** A value in double quotes. */
  function Quoted(t: string): string {
    "\"" + t + "\""
  }

  /** A one-line record: a tab, then "(kind" and its fields separated by single
      spaces, then ")". */
  function Record(kind: string, fields: seq<string>): string {
    "\t(" + kind + " " + Join(" ", fields) + ")"
  }

  /** The fields format_segment() writes, in order. */
  function SegmentFields(s: Segment, uuid: string): seq<string> {
    [ Field("start", s.x1 + " " + s.y1), Field("end", s.x2 + " " + s.y2),
      Field("width", s.width), Field("layer", Quoted(LayerName(s.layer))),
      Field("net", NetText(s.net)), Field("uuid", Quoted(uuid)) ]
  }

  /** The text format_segment() returns once its identifier is known. */
  function SegmentLine(s: Segment, uuid: string): string {
    Record("segment", SegmentFields(s, uuid))
  }

  /** The fields format_via() writes, in order; size, drill and layers are the
      same for every via. */
  function ViaFields(v: Via, uuid: string): seq<string> {
    [ Field("at", v.x + " " + v.y), Field("size", VIA_SIZE), Field("drill", VIA_DRILL),
      Field("layers", Quoted(LayerName(FCu)) + " " + Quoted(LayerName(BCu))),
      Field("net", NetText(v.net)), Field("uuid", Quoted(uuid)) ]
  }

  /** The text format_via() returns once its identifier is known. */
  function ViaLine(v: Via, uuid: string): string {
    Record("via", ViaFields(v, uuid))
  }

  /** An identifier never holds a newline. */
  lemma UuidNoNewline(u: string)
    requires IsUuidText(u)
    ensures '\n' !in u
  {
    forall i | 0 <= i < |u|
      ensures u[i] != '\n'
    {
      assert i in {8, 13, 18, 23} || IsHexDigit(u[i]);
    }
  }

  /** Parts without newlines joined by a space have none either. */
  lemma {:induction false} JoinNoNewline(parts: seq<string>)
    requires forall k :: 0 <= k < |parts| ==> '\n' !in parts[k]
    ensures '\n' !in Join(" ", parts)
    decreases |parts|
  {
    if |parts| > 1 {
      JoinNoNewline(parts[1..]);
    }
  }

  /** Join starts with its first part. */
  lemma JoinFirst(parts: seq<string>)
    requires parts != []
    ensures StartsWith(Join(" ", parts), parts[0])
  {
    if |parts| > 1 {
      var j := Join(" ", parts);
      assert j == parts[0] + (" " + Join(" ", parts[1..]));
      assert j[..|parts[0]|] == parts[0];
    }
  }

  /** A record whose first field is "(name ...)" starts with "\t(kind (name". */
  lemma RecordStartsWith(kind: string, fields: seq<string>, name: string, value: string)
    requires fields != [] && fields[0] == Field(name, value)
    ensures StartsWith(Record(kind, fields), "\t(" + kind + " (" + name)
  {
    var pre := "\t(" + kind + " (" + name;
    JoinFirst(fields);
    var j := Join(" ", fields);
    assert j == fields[0] + j[|fields[0]|..];
    var r := Record(kind, fields);
    assert r == pre + (" " + value + ")" + j[|fields[0]|..] + ")");
    assert r[..|pre|] == pre;
  }

  /** A record is one line, and strip() leaves all of it but the tab, which is
      longer than either block opener. */
  lemma RecordIsLine(kind: string, fields: seq<string>)
    requires '\n' !in kind && |kind| >= 3
    requires forall k :: 0 <= k < |fields| ==> '\n' !in fields[k]
    ensures '\n' !in Record(kind, fields) && !IsOpener(Record(kind, fields))
  {
    JoinNoNewline(fields);
    var body := "(" + kind + " " + Join(" ", fields) + ")";
    assert Record(kind, fields) == [ '\t' ] + body;
    StripLeadingSpace('\t', body);
    StripUntrimmed(body);
  }

  /** A segment line is one line holding the single-line segment record, so the
      strip pass of a later run drops it and it does not open a block. */
  lemma SegmentLineDropped(s: Segment, uuid: string)
    requires IsUuidText(uuid)
    ensures var l := SegmentLine(s, uuid);
      IsInlineRecord(l) && !IsOpener(l) && '\n' !in l && l != [] && l[0] == '\t'
  {
    var fs := SegmentFields(s, uuid);
    RecordStartsWith("segment", fs, "start", s.x1 + " " + s.y1);
    assert "\t(" + "segment" + " (" + "start" == SEGMENT_RECORD;
    ContainsPrefix(SegmentLine(s, uuid), SEGMENT_RECORD);
    UuidNoNewline(uuid);
    RecordIsLine("segment", fs);
  }

  /** A via line is one line holding the single-line via record, so the strip
      pass of a later run drops it and it does not open a block. */
  lemma ViaLineDropped(v: Via, uuid: string)
    requires IsUuidText(uuid)
    ensures var l := ViaLine(v, uuid);
      IsInlineRecord(l) && !IsOpener(l) && '\n' !in l && l != [] && l[0] == '\t'
  {
    var fs := ViaFields(v, uuid);
    RecordStartsWith("via", fs, "at", v.x + " " + v.y);
    assert "\t(" + "via" + " (" + "at" == VIA_RECORD;
    ContainsPrefix(ViaLine(v, uuid), VIA_RECORD);
    UuidNoNewline(uuid);
    RecordIsLine("via", fs);
  }

  /** format_segment(*s): takes the next identifier, then formats the record. */
  method FormatSegment(s: Segment, gen: UuidGenerator) returns (line: string)
    modifies gen
    ensures gen.counter == old(gen.counter) + 1
    ensures line == SegmentLine(s, UuidFor(gen.hash, gen.counter))
  {
    var uuid := gen.Next();
    line := SegmentLine(s, uuid);
  }

  /** format_via(*v): takes the next identifier, then formats the record. */
  method FormatVia(v: Via, gen: UuidGenerator) returns (line: string)
    modifies gen
    ensures gen.counter == old(gen.counter) + 1
    ensures line == ViaLine(v, UuidFor(gen.hash, gen.counter))
  {
    var uuid := gen.Next();
    line := ViaLine(v, uuid);
  }

  /** One line per segment, in table order, the k-th with identifier ids[k]. */
  function SegmentLines(segs: seq<Segment>, ids: seq<string>): (r: seq<string>)
    requires |ids| == |segs|
    ensures |r| == |segs|
  {
    seq(|segs|, k requires 0 <= k < |segs| => SegmentLine(segs[k], ids[k]))
  }

  /** One line per via, in table order, the k-th with identifier ids[k]. */
  function ViaLines(vias: seq<Via>, ids: seq<string>): (r: seq<string>)
    requires |ids| == |vias|
    ensures |r| == |vias|
  {
    seq(|vias|, k requires 0 <= k < |vias| => ViaLine(vias[k], ids[k]))
  }

  lemma SegmentLinesStep(segs: seq<Segment>, ids: seq<string>, k: nat)
    requires k < |segs| && |ids| == k + 1
    ensures SegmentLines(segs[..k + 1], ids) == SegmentLines(segs[..k], ids[..k]) + [SegmentLine(segs[k], ids[k])]
  {
    var a := SegmentLines(segs[..k + 1], ids);
    var b := SegmentLines(segs[..k], ids[..k]) + [SegmentLine(segs[k], ids[k])];
    forall i | 0 <= i < |a| ensures a[i] == b[i] {
      assert segs[..k + 1][i] == segs[i];
    }
  }

  lemma ViaLinesStep(vias: seq<Via>, ids: seq<string>, k: nat)
    requires k < |vias| && |ids| == k + 1
    ensures ViaLines(vias[..k + 1], ids) == ViaLines(vias[..k], ids[..k]) + [ViaLine(vias[k], ids[k])]
  {
    var a := ViaLines(vias[..k + 1], ids);
    var b := ViaLines(vias[..k], ids[..k]) + [ViaLine(vias[k], ids[k])];
    forall i | 0 <= i < |a| ensures a[i] == b[i] {
      assert vias[..k + 1][i] == vias[i];
    }
  }

  /** routing_lines: an empty line, the segments in table order, an empty line,
      the vias in table order; the identifiers are used in the order drawn. */
  function RoutingBlock(segs: seq<Segment>, vias: seq<Via>, ids: seq<string>): seq<string>
    requires |ids| == |segs| + |vias|
  {
    [""] + SegmentLines(segs, ids[..|segs|]) + [""] + ViaLines(vias, ids[|segs|..])
  }

  /** The block has 2 + |segments| + |vias| lines: an empty line, line 1 + k is
      segment k with the k-th identifier, an empty line, and line
      2 + |segments| + k is via k with identifier |segments| + k. */
  lemma RoutingBlockLayout(segs: seq<Segment>, vias: seq<Via>, ids: seq<string>)
    requires |ids| == |segs| + |vias|
    ensures var r := RoutingBlock(segs, vias, ids);
      && |r| == 2 + |segs| + |vias|
      && r[0] == "" && r[1 + |segs|] == ""
      && (forall k :: 0 <= k < |segs| ==> r[1 + k] == SegmentLine(segs[k], ids[k]))
      && (forall k :: 0 <= k < |vias| ==> r[2 + |segs| + k] == ViaLine(vias[k], ids[|segs| + k]))
  {
    var r := RoutingBlock(segs, vias, ids);
    var s1, s2 := SegmentLines(segs, ids[..|segs|]), ViaLines(vias, ids[|segs|..]);
    assert r == [""] + s1 + [""] + s2;
    forall k | 0 <= k < |segs|
      ensures r[1 + k] == SegmentLine(segs[k], ids[k])
    {
      assert r[1 + k] == s1[k];
    }
    forall k | 0 <= k < |vias|
      ensures r[2 + |segs| + k] == ViaLine(vias[k], ids[|segs| + k])
    {
      assert r[2 + |segs| + k] == s2[k];
    }
  }

  /** Every line of the block is one line; exactly the two separators are
      empty, and every other line is a record the strip pass drops. */
  lemma RoutingBlockDropped(segs: seq<Segment>, vias: seq<Via>, ids: seq<string>)
    requires |ids| == |segs| + |vias|
    requires forall k :: 0 <= k < |ids| ==> IsUuidText(ids[k])
    ensures var r := RoutingBlock(segs, vias, ids);
      forall k :: 0 <= k < |r| ==>
        '\n' !in r[k] && (r[k] == "" <==> k == 0 || k == 1 + |segs|)
        && (r[k] != "" ==> IsInlineRecord(r[k]) && !IsOpener(r[k]))
  {
    var r := RoutingBlock(segs, vias, ids);
    var s1, s2 := SegmentLines(segs, ids[..|segs|]), ViaLines(vias, ids[|segs|..]);
    SegmentLinesDropped(segs, ids[..|segs|]);
    ViaLinesDropped(vias, ids[|segs|..]);
    assert r == [""] + s1 + [""] + s2;
    forall k | 0 <= k < |r|
      ensures '\n' !in r[k] && (r[k] == "" <==> k == 0 || k == 1 + |segs|)
      ensures r[k] != "" ==> IsInlineRecord(r[k]) && !IsOpener(r[k])
    {
      if 1 <= k < 1 + |segs| {
        assert r[k] == s1[k - 1];
      } else if 2 + |segs| <= k {
        assert r[k] == s2[k - 2 - |segs|];
      }
    }
  }

  /** Every segment line is a non-empty one-line record the strip pass drops. */
  lemma SegmentLinesDropped(segs: seq<Segment>, ids: seq<string>)
    requires |ids| == |segs|
    requires forall k :: 0 <= k < |ids| ==> IsUuidText(ids[k])
    ensures var s := SegmentLines(segs, ids);
      forall k :: 0 <= k < |s| ==> s[k] != "" && '\n' !in s[k] && IsInlineRecord(s[k]) && !IsOpener(s[k])
  {
    var s := SegmentLines(segs, ids);
    forall k | 0 <= k < |s|
      ensures s[k] != "" && '\n' !in s[k] && IsInlineRecord(s[k]) && !IsOpener(s[k])
    {
      SegmentLineDropped(segs[k], ids[k]);
    }
  }

  /** Every via line is a non-empty one-line record the strip pass drops. */
  lemma ViaLinesDropped(vias: seq<Via>, ids: seq<string>)
    requires |ids| == |vias|
    requires forall k :: 0 <= k < |ids| ==> IsUuidText(ids[k])
    ensures var s := ViaLines(vias, ids);
      forall k :: 0 <= k < |s| ==> s[k] != "" && '\n' !in s[k] && IsInlineRecord(s[k]) && !IsOpener(s[k])
  {
    var s := ViaLines(vias, ids);
    forall k | 0 <= k < |s|
      ensures s[k] != "" && '\n' !in s[k] && IsInlineRecord(s[k]) && !IsOpener(s[k])
    {
      ViaLineDropped(vias[k], ids[k]);
    }
  }

  /** The first loop of main() over the segments: one line each, drawing one
      identifier per segment. */
  method FormatSegments(segs: seq<Segment>, gen: UuidGenerator) returns (lines: seq<string>)
    modifies gen
    ensures gen.counter == old(gen.counter) + |segs|
    ensures lines == SegmentLines(segs, Drawn(gen.hash, old(gen.counter), |segs|))
  {
    var start := gen.counter;
    lines := [];
    for k := 0 to |segs|
      invariant gen.counter == start + k
      invariant lines == SegmentLines(segs[..k], Drawn(gen.hash, start, k))
    {
      var line := FormatSegment(segs[k], gen);
      DrawnStep(gen.hash, start, k);
      SegmentLinesStep(segs, Drawn(gen.hash, start, k + 1), k);
      assert Drawn(gen.hash, start, k + 1)[..k] == Drawn(gen.hash, start, k);
      lines := lines + [line];
    }
    assert segs[..|segs|] == segs;
  }

  /** The second loop of main() over the vias: one line each, drawing one
      identifier per via. */
  method FormatVias(vias: seq<Via>, gen: UuidGenerator) returns (lines: seq<string>)
    modifies gen
    ensures gen.counter == old(gen.counter) + |vias|
    ensures lines == ViaLines(vias, Drawn(gen.hash, old(gen.counter), |vias|))
  {
    var start := gen.counter;
    lines := [];
    for k := 0 to |vias|
      invariant gen.counter == start + k
      invariant lines == ViaLines(vias[..k], Drawn(gen.hash, start, k))
    {
      var line := FormatVia(vias[k], gen);
      DrawnStep(gen.hash, start, k);
      ViaLinesStep(vias, Drawn(gen.hash, start, k + 1), k);
      assert Drawn(gen.hash, start, k + 1)[..k] == Drawn(gen.hash, start, k);
      lines := lines + [line];
    }
    assert vias[..|vias|] == vias;
  }

  /** The lines main() builds into routing_lines from the module-level tables:
      an empty line, the segments, an empty line, the vias. */
  method BuildRoutingLines(table: RouteTable, gen: UuidGenerator) returns (lines: seq<string>)
    modifies gen
    ensures gen.counter == old(gen.counter) + |table.segments| + |table.vias|
    ensures lines == RoutingBlock(table.segments, table.vias,
      Drawn(gen.hash, old(gen.counter), |table.segments| + |table.vias|))
  {
    var segs := table.segments;
    var vias := table.vias;
    ghost var start := gen.counter;
    var segLines := FormatSegments(segs, gen);
    ghost var mid := gen.counter;
    var viaLines := FormatVias(vias, gen);
    RoutingBlockDrawn(segs, vias, gen.hash, start, mid, segLines, viaLines);
    lines := [""] + segLines + [""] + viaLines;
  }

  /** The block over the identifiers drawn from `start` on is the segment
      lines over the first |segs| of them and the via lines over the rest. */
  lemma RoutingBlockDrawn(segs: seq<Segment>, vias: seq<Via>, hash: string -> HexDigest, start: nat, mid: nat,
                          segLines: seq<string>, viaLines: seq<string>)
    requires mid == start + |segs|
    requires segLines == SegmentLines(segs, Drawn(hash, start, |segs|))
    requires viaLines == ViaLines(vias, Drawn(hash, mid, |vias|))
    ensures [""] + segLines + [""] + viaLines == RoutingBlock(segs, vias, Drawn(hash, start, |segs| + |vias|))
  {
    var ids := Drawn(hash, start, |segs| + |vias|);
    DrawnSplit(hash, start, |segs|, |vias|);
    assert ids[..|segs|] == Drawn(hash, start, |segs|);
    assert ids[|segs|..] == Drawn(hash, mid, |vias|);
  }
}
