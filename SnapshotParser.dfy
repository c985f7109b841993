/**
  * The query tool's reader for a day's log: `parse_snapshots` cuts the text
  * into blocks, one per banner line, and `snapshot_from_lines` reads each
  * block's timestamp from its banner.
  */
module SnapshotParser {
  import opened Text

  /** One block of the log: its timestamp ("" when the banner is malformed) and all its lines. */
  datatype Snapshot = Snapshot(timestamp: string, lines: seq<string>)

  const BANNER_PREFIX: string := "=== "
  const BANNER_SUFFIX: string := " ==="

  /** The banner line the logger writes for a capture taken at `timestamp`. */
  function Banner(timestamp: string): string {
    BANNER_PREFIX + timestamp + BANNER_SUFFIX
  }

  /** A line that opens a new block. */
  predicate StartsBlock(line: string) {
    StartsWith(line, BANNER_PREFIX)
  }

  /** Both banner markers present, without overlapping. */
  predicate HasBannerShape(line: string) {
    |line| >= |BANNER_PREFIX| + |BANNER_SUFFIX| && StartsWith(line, BANNER_PREFIX) && EndsWith(line, BANNER_SUFFIX)
  }

  /**
    * The banner with its prefix and then its suffix stripped; "" when either
    * is missing.
    */
  function BannerTimestamp(line: string): (t: string)
    ensures HasBannerShape(line) ==> line == Banner(t)
    ensures !HasBannerShape(line) ==> t == ""
  {
    if StartsWith(line, BANNER_PREFIX) && EndsWith(line[4..], BANNER_SUFFIX) then
      assert line == line[..4] + line[4..|line| - 4] + line[|line| - 4..];
      line[4..|line| - 4]
    else
      ""
  }

  /** Reading the timestamp back from a banner gives the timestamp written into it. */
  lemma BannerRoundTrip(timestamp: string)
    ensures BannerTimestamp(Banner(timestamp)) == timestamp
  {
    var line := Banner(timestamp);
    assert line[..4] == BANNER_PREFIX;
    assert line[4..][|line[4..]| - 4..] == BANNER_SUFFIX;
    assert line[4..|line| - 4] == timestamp;
  }

  /** `snapshot_from_lines`: the block's lines, and the timestamp of its first line. */
  function SnapshotFromLines(lines: seq<string>): (s: Snapshot)
    ensures s.lines == lines
    ensures lines != [] && HasBannerShape(lines[0]) ==> lines[0] == Banner(s.timestamp)
    ensures lines == [] || !HasBannerShape(lines[0]) ==> s.timestamp == ""
  {
    Snapshot(if lines == [] then "" else BannerTimestamp(lines[0]), lines)
  }

  /** The lines of the blocks, one block after the other. */
  function Flatten(blocks: seq<seq<string>>): seq<string> {
    if blocks == [] then [] else Flatten(blocks[..|blocks| - 1]) + blocks[|blocks| - 1]
  }

  /** No block is empty. */
  ghost predicate BlocksNonEmpty(blocks: seq<seq<string>>) {
    forall b :: 0 <= b < |blocks| ==> blocks[b] != []
  }

  /** Every block but the first starts with a banner. */
  ghost predicate BannersLead(blocks: seq<seq<string>>) {
    forall b :: 0 < b < |blocks| && blocks[b] != [] ==> StartsBlock(blocks[b][0])
  }

  /** No banner stands anywhere but at the head of a block. */
  ghost predicate BannersOnlyLead(blocks: seq<seq<string>>) {
    forall b, m :: 0 <= b < |blocks| && 0 < m < |blocks[b]| ==> !StartsBlock(blocks[b][m])
  }

  /**
    * `blocks` cut `lines` as the parser does: together they are exactly the
    * lines, in order; no block is empty; every block but the first starts
    * with a banner; and no banner stands anywhere but at the head of a block.
    */
  ghost predicate IsBlockSplit(blocks: seq<seq<string>>, lines: seq<string>) {
    Flatten(blocks) == lines && BlocksNonEmpty(blocks) && BannersLead(blocks) && BannersOnlyLead(blocks)
  }

  /** The blocks `parse_snapshots` builds, line by line: a banner after the first line opens a new block. */
  function SplitBlocks(lines: seq<string>): seq<seq<string>> {
    if lines == [] then []
    else
      var init := SplitBlocks(lines[..|lines| - 1]);
      var line := lines[|lines| - 1];
      if init == [] || StartsBlock(line) then init + [[line]]
      else init[..|init| - 1] + [init[|init| - 1] + [line]]
  }

  /** One more line either opens a new block or extends the last one. */
  lemma SplitBlocksSnoc(prefix: seq<string>, line: string)
    ensures SplitBlocks(prefix + [line])
            == (var init := SplitBlocks(prefix);
                if init == [] || StartsBlock(line) then init + [[line]]
                else init[..|init| - 1] + [init[|init| - 1] + [line]])
  {
    assert (prefix + [line])[..|prefix|] == prefix;
  }

  lemma FlattenSnoc(blocks: seq<seq<string>>, block: seq<string>)
    ensures Flatten(blocks + [block]) == Flatten(blocks) + block
  {
    assert (blocks + [block])[..|blocks|] == blocks;
  }

  lemma {:induction false} SplitBlocksCovers(lines: seq<string>)
    ensures Flatten(SplitBlocks(lines)) == lines
  {
    if lines != [] {
      var init := SplitBlocks(lines[..|lines| - 1]);
      var line := lines[|lines| - 1];
      SplitBlocksCovers(lines[..|lines| - 1]);
      assert lines == lines[..|lines| - 1] + [line];
      if init == [] || StartsBlock(line) {
        FlattenSnoc(init, [line]);
      } else {
        var k := |init| - 1;
        assert init == init[..k] + [init[k]];
        FlattenSnoc(init[..k], init[k]);
        FlattenSnoc(init[..k], init[k] + [line]);
      }
    }
  }

  lemma {:induction false} SplitBlocksNonEmpty(lines: seq<string>)
    ensures BlocksNonEmpty(SplitBlocks(lines))
    ensures SplitBlocks(lines) == [] <==> lines == []
  {
    if lines != [] {
      var prefix, line := lines[..|lines| - 1], lines[|lines| - 1];
      var init := SplitBlocks(prefix);
      SplitBlocksNonEmpty(prefix);
      SplitBlocksSnoc(prefix, line);
      assert lines == prefix + [line];
      if init == [] || StartsBlock(line) {
        NewBlockNonEmpty(init, line);
      } else {
        ExtendLastNonEmpty(init, line);
      }
    }
  }

  lemma NewBlockNonEmpty(init: seq<seq<string>>, line: string)
    requires BlocksNonEmpty(init)
    ensures BlocksNonEmpty(init + [[line]])
  {
    var r := init + [[line]];
    assert forall b :: 0 <= b < |init| ==> r[b] == init[b];
  }

  lemma ExtendLastNonEmpty(init: seq<seq<string>>, line: string)
    requires init != [] && BlocksNonEmpty(init)
    ensures BlocksNonEmpty(init[..|init| - 1] + [init[|init| - 1] + [line]])
  {
    var k := |init| - 1;
    var r := init[..k] + [init[k] + [line]];
    assert forall b :: 0 <= b < k ==> r[b] == init[b];
  }

  lemma NewBlockLead(init: seq<seq<string>>, line: string)
    requires BannersLead(init)
    requires init == [] || StartsBlock(line)
    ensures BannersLead(init + [[line]])
  {
    var r := init + [[line]];
    assert forall b :: 0 <= b < |init| ==> r[b] == init[b];
  }

  lemma ExtendLastLead(init: seq<seq<string>>, line: string)
    requires init != [] && BannersLead(init) && BlocksNonEmpty(init)
    ensures BannersLead(init[..|init| - 1] + [init[|init| - 1] + [line]])
  {
    var k := |init| - 1;
    var r := init[..k] + [init[k] + [line]];
    assert forall b :: 0 <= b < k ==> r[b] == init[b];
    assert r[k][0] == init[k][0];
  }

  lemma NewBlockOnlyLead(init: seq<seq<string>>, line: string)
    requires BannersOnlyLead(init)
    ensures BannersOnlyLead(init + [[line]])
  {
    var r := init + [[line]];
    assert forall b :: 0 <= b < |init| ==> r[b] == init[b];
  }

  lemma ExtendLastOnlyLead(init: seq<seq<string>>, line: string)
    requires init != [] && BannersOnlyLead(init) && !StartsBlock(line)
    ensures BannersOnlyLead(init[..|init| - 1] + [init[|init| - 1] + [line]])
  {
    var k := |init| - 1;
    var r := init[..k] + [init[k] + [line]];
    assert forall b :: 0 <= b < k ==> r[b] == init[b];
    assert forall m :: 0 < m < |init[k]| ==> r[k][m] == init[k][m];
  }

  lemma {:induction false} SplitBlocksBannersLead(lines: seq<string>)
    ensures BannersLead(SplitBlocks(lines))
  {
    if lines != [] {
      var prefix, line := lines[..|lines| - 1], lines[|lines| - 1];
      var init := SplitBlocks(prefix);
      SplitBlocksBannersLead(prefix);
      SplitBlocksNonEmpty(prefix);
      SplitBlocksSnoc(prefix, line);
      assert lines == prefix + [line];
      if init == [] || StartsBlock(line) {
        NewBlockLead(init, line);
      } else {
        ExtendLastLead(init, line);
      }
    }
  }

  lemma {:induction false} SplitBlocksBannersOnlyLead(lines: seq<string>)
    ensures BannersOnlyLead(SplitBlocks(lines))
  {
    if lines != [] {
      var prefix, line := lines[..|lines| - 1], lines[|lines| - 1];
      var init := SplitBlocks(prefix);
      SplitBlocksBannersOnlyLead(prefix);
      SplitBlocksSnoc(prefix, line);
      assert lines == prefix + [line];
      if init == [] || StartsBlock(line) {
        NewBlockOnlyLead(init, line);
      } else {
        ExtendLastOnlyLead(init, line);
      }
    }
  }

  lemma SplitBlocksShape(lines: seq<string>)
    ensures BlocksNonEmpty(SplitBlocks(lines))
    ensures BannersLead(SplitBlocks(lines))
    ensures BannersOnlyLead(SplitBlocks(lines))
    ensures SplitBlocks(lines) == [] <==> lines == []
  {
    SplitBlocksNonEmpty(lines);
    SplitBlocksBannersLead(lines);
    SplitBlocksBannersOnlyLead(lines);
  }

  /** `SplitBlocks` cuts the lines as `IsBlockSplit` describes. */
  lemma SplitBlocksIsSplit(lines: seq<string>)
    ensures IsBlockSplit(SplitBlocks(lines), lines)
  {
    SplitBlocksCovers(lines);
    SplitBlocksShape(lines);
  }

  /** Each block read as a snapshot. */
  function ToSnapshots(blocks: seq<seq<string>>): seq<Snapshot> {
    if blocks == [] then [] else ToSnapshots(blocks[..|blocks| - 1]) + [SnapshotFromLines(blocks[|blocks| - 1])]
  }

  lemma ToSnapshotsSnoc(blocks: seq<seq<string>>, block: seq<string>)
    ensures ToSnapshots(blocks + [block]) == ToSnapshots(blocks) + [SnapshotFromLines(block)]
  {
    assert (blocks + [block])[..|blocks|] == blocks;
  }

  /** What `parse_snapshots` returns for the text of a log file. */
  function ParsedLog(content: string): seq<Snapshot> {
    ToSnapshots(SplitBlocks(Lines(content)))
  }

  /** How one more line changes the blocks: the loop step of `parse_snapshots`. */
  lemma ParseStep(lines: seq<string>, i: nat, done: seq<seq<string>>, current: seq<string>)
    requires i < |lines|
    requires SplitBlocks(lines[..i]) == done + (if current == [] then [] else [current])
    requires current == [] ==> i == 0 && done == []
    ensures StartsBlock(lines[i]) && current != [] ==> SplitBlocks(lines[..i + 1]) == (done + [current]) + [[lines[i]]]
    ensures !(StartsBlock(lines[i]) && current != []) ==> SplitBlocks(lines[..i + 1]) == done + [current + [lines[i]]]
  {
    var line := lines[i];
    assert lines[..i + 1] == lines[..i] + [line];
    SplitBlocksSnoc(lines[..i], line);
    var init := SplitBlocks(lines[..i]);
    if current != [] {
      assert init[..|init| - 1] == done && init[|init| - 1] == current;
    } else {
      assert lines[..i] == [] && init == [];
    }
  }

  /** `parse_snapshots`: one pass over the lines, closing the current block at each banner. */
  method ParseSnapshots(content: string) returns (snapshots: seq<Snapshot>)
    ensures snapshots == ParsedLog(content)
  {
    var lines := Lines(content);
    snapshots := [];
    var current: seq<string> := [];
    ghost var done: seq<seq<string>> := [];
    for i := 0 to |lines|
      invariant SplitBlocks(lines[..i]) == done + (if current == [] then [] else [current])
      invariant current == [] ==> i == 0 && done == []
      invariant snapshots == ToSnapshots(done)
    {
      var line := lines[i];
      ParseStep(lines, i, done, current);
      if StartsBlock(line) && current != [] {
        ToSnapshotsSnoc(done, current);
        snapshots := snapshots + [SnapshotFromLines(current)];
        done := done + [current];
        current := [];
        assert current + [line] == [line];
      }
      current := current + [line];
    }
    assert lines[..|lines|] == lines;
    if current != [] {
      ToSnapshotsSnoc(done, current);
      snapshots := snapshots + [SnapshotFromLines(current)];
      done := done + [current];
    }
  }

  /** An empty log has no blocks. */
  lemma EmptyLogHasNoBlocks()
    ensures ParsedLog("") == []
  {
  }

  /** Lines without any banner form exactly one block. */
  lemma {:induction false} NoBannerOneBlock(lines: seq<string>)
    requires lines != []
    requires forall k :: 0 <= k < |lines| ==> !StartsBlock(lines[k])
    ensures SplitBlocks(lines) == [lines]
  {
    var init := lines[..|lines| - 1];
    if init != [] {
      NoBannerOneBlock(init);
      assert SplitBlocks(lines) == [init][..0] + [init + [lines[|lines| - 1]]];
      assert init + [lines[|lines| - 1]] == lines;
    } else {
      assert lines == [lines[0]];
    }
  }

  /** Lines whose only banner, if any, is the first one form exactly one block. */
  lemma {:induction false} OneBlock(block: seq<string>)
    requires block != []
    requires forall m :: 0 < m < |block| ==> !StartsBlock(block[m])
    ensures SplitBlocks(block) == [block]
  {
    var init := block[..|block| - 1];
    if init != [] {
      OneBlock(init);
      assert !StartsBlock(block[|block| - 1]);
      assert SplitBlocks(block) == [init][..0] + [init + [block[|block| - 1]]];
      assert init + [block[|block| - 1]] == block;
    } else {
      assert block == [block[0]];
    }
  }

  /** A block that opens with a banner, appended to non-empty text, becomes one more block. */
  lemma {:induction false} SplitBlocksAppend(lines: seq<string>, block: seq<string>)
    requires lines != [] && block != [] && StartsBlock(block[0])
    requires forall m :: 0 < m < |block| ==> !StartsBlock(block[m])
    ensures SplitBlocks(lines + block) == SplitBlocks(lines) + [block]
    decreases |block|
  {
    var front, last := block[..|block| - 1], block[|block| - 1];
    if |block| == 1 {
      assert block == [last];
      OpenBlock(lines, last);
    } else {
      SplitBlocksAppend(lines, front);
      assert !StartsBlock(last);
      ExtendLastBlock(lines + front, SplitBlocks(lines), front, last);
      assert (lines + front) + [last] == lines + block;
      assert front + [last] == block;
    }
  }

  /** After non-empty text, a banner opens a new block. */
  lemma OpenBlock(lines: seq<string>, line: string)
    requires lines != [] && StartsBlock(line)
    ensures SplitBlocks(lines + [line]) == SplitBlocks(lines) + [[line]]
  {
    SplitBlocksSnoc(lines, line);
    SplitBlocksNonEmpty(lines);
  }

  /** A line that is not a banner joins the last block. */
  lemma ExtendLastBlock(lines: seq<string>, blocks: seq<seq<string>>, last: seq<string>, line: string)
    requires SplitBlocks(lines) == blocks + [last] && !StartsBlock(line)
    ensures SplitBlocks(lines + [line]) == blocks + [last + [line]]
  {
    SplitBlocksSnoc(lines, line);
    var init := blocks + [last];
    assert init[..|init| - 1] == blocks;
  }

  /** The split is unique: any cut with the parser's properties is the parser's. */
  lemma {:induction false} SplitBlocksUnique(blocks: seq<seq<string>>, lines: seq<string>)
    requires IsBlockSplit(blocks, lines)
    ensures SplitBlocks(lines) == blocks
  {
    if blocks != [] {
      var k := |blocks| - 1;
      var init := blocks[..k];
      assert forall b :: 0 <= b < k ==> init[b] == blocks[b];
      assert IsBlockSplit(init, Flatten(init));
      if k == 0 {
        OneBlock(blocks[0]);
        assert Flatten(blocks) == blocks[0];
      } else {
        SplitBlocksUnique(init, Flatten(init));
        assert Flatten(init) != [] by {
          assert Flatten(init) == Flatten(init[..k - 1]) + init[k - 1];
        }
        SplitBlocksAppend(Flatten(init), blocks[k]);
        assert init + [blocks[k]] == blocks;
      }
    }
  }
}
