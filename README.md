# route_pcb: a verified model of the board-file patcher

`hardware/route_pcb.py` writes hand-placed copper routing into a KiCad
board file (`.kicad_pcb`). Module-level calls to `seg` and `via` fill two
tables of traces and vias. `main` then:

1. reads the board file line by line and drops every segment and via in
   it, whoever added them — the multi-line `(segment` / `(via` blocks KiCad
   writes, up to their closing `)` line, and the one-line
   `\t(segment (start …` / `\t(via (at …` records an earlier run wrote. The
   test is the form of a line, not who wrote it;
2. joins the remaining lines and cuts every run of three or more newlines
   down to two;
3. formats every table entry as a one-line s-expression record, each with
   an identifier derived from an MD5 hash of a per-process counter;
4. inserts the block, framed by empty lines, in front of the last
   occurrence of the closing anchor `"\n\t(embedded_fonts no)\n)"`, or
   writes nothing when that anchor is missing.

The model follows that structure, one Dafny module per stage:

- `TextUtil` (text.dfy) defines Python's `str.strip`, substring search,
  `''.join` and `"\n".join`.
- `LineSplit` (lines.dfy) defines `readlines` as `SplitLines`. Each line
  keeps its newline.
- `Identifiers` (identifiers.dfy) has the counter key `pcb-%08d`, the
  8-4-4-4-12 layout, and the `UuidGenerator` class that holds the counter.
- `Board` (board.dfy) has the `Segment`/`Via` values and the `RouteTable`
  class, whose methods model `seg` and `via`.
- `Serializer` (serializer.dfy) covers `format_segment`, `format_via` and
  the two loops that build `routing_lines`.
- `StripPass` (strip.dfy) specifies the strip loop as `Stripped` and
  implements it as the `StripGenerated` method.
- `BlankRuns` (blank_runs.dfy) defines the `\n\n\n+ → \n\n` rewrite as
  `Collapse`.
- `Splicing` (splicing.dfy) covers `rfind` and the slice-and-concatenate
  splice.
- `Patcher` (patcher.dfy) composes `main` as the `Patched` function and the
  `RoutePcb` method.
- `Rerun` (rerun.dfy) proves what happens when the script runs again on its
  own output.

State the source changes in place stays imperative in the model:

- `RouteTable` holds the two global lists.
- `UuidGenerator` holds `_uuid_counter`.
- The strip loop and the routing loops are `while`/`for` loops.
- Each method is proved against the function that specifies it.

Two behaviours of the code a user might not expect:

- After insertion the anchor is not guaranteed to occur exactly once. The
  code guarantees only that its last occurrence comes right after the new
  block (`Splicing.SpliceLastAnchor`). Any earlier occurrence stays where it
  was. When the content held the anchor exactly once, the output holds it
  exactly once too: the anchor cannot overlap itself, and no block line can
  help form it (`Rerun.PatchedSingleAnchor`).
- Re-running is not byte-stable from the first re-run, unless the anchor
  already follows an empty line. The strip pass removes the previous block,
  and the collapse merges the newlines around it into one empty line. So
  the second run writes the board with one more blank line in front of the
  block than the first run did (`Rerun.RerunSettles`). When the anchor
  already follows an empty line, that line is the merged one and the first
  re-run writes the same text (`Rerun.FirstRerunStable`). From the third
  run on (once the second run has written the board), every run writes
  exactly the text it read (`Rerun.RerunStable`).

## Model

| member | source | states |
|---|---|---|
| Board.RouteTable.AddSegment | hardware/route_pcb.py:28-29 | `seg` appends exactly one segment (with the default layer F.Cu and width 0.25) to the end of the segment list and leaves the via list unchanged |
| Board.RouteTable.AddVia | hardware/route_pcb.py:32-33 | `via` appends exactly one via to the end of the via list and leaves the segment list unchanged |
| Identifiers.UuidGenerator.Next | hardware/route_pcb.py:36-40 | each call raises the counter by exactly 1 and returns the identifier for the new counter value, which is 36 characters of hex digits grouped 8-4-4-4-12 with hyphens |
| Identifiers.Decimal | hardware/route_pcb.py:39 | the digits of `str(n)`: never empty, all decimal digits, and with no leading zero unless n is 0 |
| Identifiers.Padded8 | hardware/route_pcb.py:39 | the `08d` field: decimal digits, exactly eight characters when `str(n)` is shorter, otherwise exactly as long as `str(n)` |
| Identifiers.HashKey | hardware/route_pcb.py:39 | the hashed key is `pcb-` followed by at least eight decimal digits |
| Identifiers.FormatUuid | hardware/route_pcb.py:40 | the identifier is 36 characters: hyphens at positions 8, 13, 18 and 23, hex digits everywhere else |
| Identifiers.HashKeyRoundTrip | hardware/route_pcb.py:39 | the hashed key `pcb-` + counter zero-padded to 8 digits reads back as the counter, for every counter including ones wider than 8 digits |
| Identifiers.HashKeyInjective | hardware/route_pcb.py:39 | different counter values give different hash keys |
| Identifiers.DecimalRoundTrip | hardware/route_pcb.py:39 | the decimal rendering inside the key reads back as the number |
| Identifiers.FormatUuidRoundTrip | hardware/route_pcb.py:40 | removing the four hyphens from the formatted identifier gives back the 32-digit hex digest |
| Identifiers.UuidForDistinctKeys | hardware/route_pcb.py:36-40 | two counter values give the same identifier only if they are equal or the hash collides on their two distinct keys |
| Identifiers.DrawnUuids | hardware/route_pcb.py:36-40 | every identifier drawn in a row of calls has the 8-4-4-4-12 hex form |
| Identifiers.DrawnSplit | hardware/route_pcb.py:198-203 | drawing m + n identifiers in a row is drawing m and then n more from where the counter stopped |
| Serializer.SegmentLineDropped | hardware/route_pcb.py:157-162 | a formatted segment record is one line that starts with a tab, contains the one-line segment pattern and is not a block opener, so the strip pass at line 188 drops it |
| Serializer.ViaLineDropped | hardware/route_pcb.py:165-170 | a formatted via record is one line that starts with a tab, contains the one-line via pattern and is not a block opener, so the strip pass drops it |
| Serializer.FormatSegment | hardware/route_pcb.py:157-162 | formatting a segment draws exactly one identifier and returns the segment record carrying the identifier for the new counter value |
| Serializer.FormatVia | hardware/route_pcb.py:165-170 | formatting a via draws exactly one identifier and returns the via record carrying the identifier for the new counter value |
| Serializer.FormatSegments | hardware/route_pcb.py:199-200 | the segment loop emits one record per segment in table order, the k-th with the k-th identifier drawn, and advances the counter by the number of segments |
| Serializer.FormatVias | hardware/route_pcb.py:202-203 | the via loop emits one record per via in table order, the k-th with the k-th identifier drawn, and advances the counter by the number of vias |
| Serializer.BuildRoutingLines | hardware/route_pcb.py:198-203 | `routing_lines` is an empty line, the segment records, an empty line, the via records, with identifiers drawn consecutively from the counter; the counter advances by the number of records |
| Serializer.RoutingBlockLayout | hardware/route_pcb.py:198-203 | the block has 2 + segments + vias lines: line 0 and line 1 + segments are empty, line 1 + k is segment k with identifier k, and line 2 + segments + k is via k with identifier segments + k |
| Serializer.RoutingBlockDropped | hardware/route_pcb.py:198-203 | every block line is one line; it is empty exactly at the two separator positions, and every other line is a record the strip pass drops |
| StripPass.StripGenerated | hardware/route_pcb.py:178-193 | the loop over `i` (with its inner loop over `j`) returns exactly the lines the specification `Stripped` keeps |
| StripPass.SkipBlock | hardware/route_pcb.py:183-185 | the inner loop stops at the first line after the opener whose stripped text starts with `)`, or at the end of the lines |
| StripPass.StripStep | hardware/route_pcb.py:181-193 | one turn of the outer loop: on an opener it keeps nothing and resumes right after the first terminator (or past the end); on another line holding a one-line record pattern it keeps nothing and moves one line on; on any other line it keeps that line and moves one line on; in every case the lines kept so far plus what remains to be stripped stay unchanged |
| StripPass.StrippedSubseq | hardware/route_pcb.py:178-193 | the pass keeps lines in their input order and adds none: its output is a subsequence of its input |
| StripPass.StrippedAllKept | hardware/route_pcb.py:182-192 | no line the pass keeps is an opener or holds a one-line record pattern |
| StripPass.StrippedKeptPrefix | hardware/route_pcb.py:191-193 | lines that meet neither removal condition are copied through unchanged, ahead of whatever the rest of the input strips to |
| StripPass.StrippedAllKeptIdentity | hardware/route_pcb.py:191-193 | on lines that all meet neither removal condition the pass is the identity |
| StripPass.StripIdempotent | hardware/route_pcb.py:178-193 | running the strip pass on its own output changes nothing |
| StripPass.StrippedDropsRecords | hardware/route_pcb.py:188-190 | one-line records met outside a block are dropped one by one |
| StripPass.StrippedClosedBlock | hardware/route_pcb.py:182-187 | an opener, every line up to the first terminator and the terminator itself are dropped, and scanning resumes after the terminator |
| StripPass.StrippedOpenBlock | hardware/route_pcb.py:182-187 | an opener with no later terminator drops itself and every following line |
| StripPass.StrippedWellFormed | hardware/route_pcb.py:176-193 | lines of the shape `readlines` returns (only the last may lack its newline) keep that shape after the pass |
| BlankRuns.CollapseNoTriple | hardware/route_pcb.py:196 | after the rewrite the content holds no three newlines in a row |
| BlankRuns.CollapseShorter | hardware/route_pcb.py:196 | the rewrite never makes the content longer |
| BlankRuns.CollapseNoTripleIdentity | hardware/route_pcb.py:196 | content without three newlines in a row is left unchanged |
| BlankRuns.CollapseIdempotent | hardware/route_pcb.py:196 | applying the rewrite a second time changes nothing |
| BlankRuns.CollapseKeepsText | hardware/route_pcb.py:196 | the rewrite removes only newlines: every other character is kept, in order |
| BlankRuns.CollapseLeading | hardware/route_pcb.py:196 | a leading run of n newlines becomes min(n, 2) newlines |
| BlankRuns.CollapseChunks | hardware/route_pcb.py:196 | the pieces between newlines of the result are a subsequence of the input's pieces, and the first piece is unchanged |
| BlankRuns.CollapseKeepsLines | hardware/route_pcb.py:196 | the rewrite only drops empty lines: the pieces between newlines that are not empty are exactly those of the input, in the same order |
| BlankRuns.CollapseAppend | hardware/route_pcb.py:196 | text that does not end in a newline can be rewritten separately from what follows it |
| BlankRuns.CollapseRun | hardware/route_pcb.py:196 | a run of three or more newlines followed by a non-newline becomes exactly two newlines |
| LineSplit.SplitLinesJoin | hardware/route_pcb.py:176 | `readlines` returns lines that each end in a newline (except possibly the last) and join back to the text |
| LineSplit.SplitConcat | hardware/route_pcb.py:195 | splitting joined well-formed lines gives back the lines |
| Splicing.RFindLast | hardware/route_pcb.py:206 | `rfind` returns an occurrence of the anchor with no later occurrence, and finds nothing exactly when the anchor does not occur |
| Splicing.RFindIs | hardware/route_pcb.py:206 | `rfind` returns index i exactly when the anchor occurs at i and at no later index |
| Splicing.SpliceNone | hardware/route_pcb.py:205-209 | nothing is written exactly when the cleaned content holds no anchor |
| Splicing.SpliceKeeps | hardware/route_pcb.py:211 | the content before the anchor and from the anchor on are kept as they were, the inserted text is a newline, the block joined by newlines and a newline, and deleting it gives back the content exactly |
| Splicing.SpliceLastAnchor | hardware/route_pcb.py:206-211 | after insertion the anchor still last occurs right after the inserted block |
| Splicing.SpliceSingleAnchor | hardware/route_pcb.py:206-211 | when the content holds the anchor exactly once and no block line holds a newline or starts with `)`, the written content holds it exactly once, right after the inserted text |
| Patcher.RoutePcb | hardware/route_pcb.py:178-211 | `main` computes exactly the specification `Patched`: strip, join, collapse, then splice the block built from the counter's starting value; the counter advances by the number of records even when nothing is written |
| Patcher.PatchedFacts | hardware/route_pcb.py:195-209 | the content that is spliced into has no three newlines in a row and is no longer than the input, and the run writes nothing exactly when that content lacks the anchor |
| Rerun.CleanedClean | hardware/route_pcb.py:178-196 | the content spliced into has no three newlines in a row and holds no line the strip pass would remove |
| Rerun.CleanedIdempotent | hardware/route_pcb.py:178-196 | stripping and collapsing a second time, after splitting the content back into lines, changes nothing |
| Rerun.BlockPlain | hardware/route_pcb.py:198-203 | no line of the routing block holds a newline or starts with `)`: the blank separators are empty and every record starts with a tab |
| Rerun.PatchedSingleAnchor | hardware/route_pcb.py:205-211 | a run on content holding the anchor exactly once writes content holding it exactly once |
| Rerun.RerunCleaned | hardware/route_pcb.py:178-211 | stripping and collapsing the output of a run removes the inserted block, and the blank lines around it merge into one empty line in front of the anchor |
| Rerun.SettleAnchor | hardware/route_pcb.py:206 | in that settled content the anchor last occurs right after the empty line, and settling it again changes nothing |
| Rerun.RerunSettles | hardware/route_pcb.py:173-216 | running the script on what it wrote inserts the same block at the same anchor of the settled content |
| Rerun.RerunStable | hardware/route_pcb.py:173-216 | from the third run on (once the second run has written the board), running the script on its own output writes exactly the text it read |
| Rerun.FirstRerunStable | hardware/route_pcb.py:173-216 | when the anchor in the content the first run spliced into already follows an empty line, the first re-run writes exactly what the first run wrote |
| Rerun.SettleFixed | hardware/route_pcb.py:196 | clean content whose anchor newline follows an empty line is already settled: the merge of blank lines changes nothing |
| Rerun.PatchedRecords | hardware/route_pcb.py:198-211 | the one-line records in the written file are exactly the block's: one per segment in table order, then one per via in table order, each with its newline; their number is the number of table entries, so every record the input held is gone |

## Left out

- File I/O and the hard-coded path (hardware/route_pcb.py:174-176, 213-214):
  the model takes the file's text or lines and returns the new content.
- The console messages (hardware/route_pcb.py:208, 216). A missing anchor is
  modelled as `None`.
- MD5 (hardware/route_pcb.py:39) is an arbitrary function parameter from the
  key to a 32-digit lower-case hex digest. Only the key built before it and
  the slicing after it are modelled. Properties that would need MD5 to be
  injective are not proved.
- Python's float rendering of coordinates, widths and via sizes
  (hardware/route_pcb.py:159-161, 167-169): numbers are opaque strings
  without a newline. Net numbers are rendered as Python renders an int.
- The literal trace table and its keepout comments
  (hardware/route_pcb.py:52-154): constants with no computation behind them.
  Callers fill the tables through `RouteTable.AddSegment` and `AddVia`.
- The layer argument of `seg` (hardware/route_pcb.py:28-30) takes any string in
  the source; the model narrows it to the two copper layers `F.Cu` and `B.Cu`,
  the only ones the trace table uses.
- General regular expressions: only the one rewrite `\n\n\n+ → \n\n` is
  modelled, as the recursive `BlankRuns.Collapse`.
- Text-mode newline translation on reading and writing: the model works on
  the text after every `\r\n` and every lone `\r` has become `\n`.
- Identifiers.DrawnUuids: distinctness of the identifiers drawn in one run is
  not stated, because it holds only if MD5 has no collisions on the keys;
  `Identifiers.UuidForDistinctKeys` states the condition.
