/** Cutting a log file down to its last bytes by an overlapping copy inside the file. */
module LogTruncation {
  import opened Wrappers

  const COPY_BLOCK_SIZE := 8192

  function Last(content: seq<char>, keep: int): seq<char>
    requires keep <= |content|
  {
    content[|content| - Max(keep, 0)..]
  }

  /** The first sequence is the second one with some of its elements left out. */
  ghost predicate Subsequence(a: seq<char>, b: seq<char>) {
    if b == [] then a == []
    else
      var m := |b| - 1;
      Subsequence(a, b[..m]) || (a != [] && a[|a| - 1] == b[m] && Subsequence(a[..|a| - 1], b[..m]))
  }

  lemma {:induction false} MoreLeftOut(a: seq<char>, b: seq<char>, x: seq<char>)
    requires Subsequence(a, b)
    ensures Subsequence(a, b + x)
  {
    if x == [] {
      assert b + x == b;
    } else {
      var m := |x| - 1;
      MoreLeftOut(a, b, x[..m]);
      assert (b + x)[..|b + x| - 1] == b + x[..m];
    }
  }

  lemma {:induction false} MoreKept(a: seq<char>, b: seq<char>, x: seq<char>)
    requires Subsequence(a, b)
    ensures Subsequence(a + x, b + x)
  {
    if x == [] {
      assert a + x == a && b + x == b;
    } else {
      var m := |x| - 1;
      MoreKept(a, b, x[..m]);
      assert (a + x)[..|a + x| - 1] == a + x[..m] && (b + x)[..|b + x| - 1] == b + x[..m];
    }
  }

  /** Unread bytes are still the original ones, and the copied bytes are in place, but for those no write took. */
  ghost predicate Copying(content: seq<char>, original: seq<char>, keep: nat, readOffset: int, writeOffset: int) {
    && keep < |original| == |content|
    && 0 <= writeOffset <= readOffset - (|original| - keep) && readOffset <= |original|
    && content[readOffset..] == original[readOffset..]
    && Subsequence(content[..writeOffset], original[|original| - keep..readOffset])
  }

  /** No byte read is missing. */
  ghost predicate Whole(content: seq<char>, original: seq<char>, keep: nat, readOffset: int, writeOffset: int)
    requires Copying(content, original, keep, readOffset, writeOffset)
  {
    content[..writeOffset] == original[|original| - keep..readOffset]
  }

  lemma CopyStep(content: seq<char>, original: seq<char>, block: seq<char>, written: nat, keep: nat, r: nat, w: nat)
    requires Copying(content, original, keep, r, w) && written <= |block|
    requires r + |block| <= |content| && block == content[r..r + |block|]
    ensures
      var after := content[..w] + block[..written] + content[w + written..];
      && Copying(after, original, keep, r + |block|, w + written)
      && (Whole(content, original, keep, r, w) && written == |block| ==>
            Whole(after, original, keep, r + |block|, w + written))
  {
    var after := content[..w] + block[..written] + content[w + written..];
    var from := |original| - keep;
    var kept, lost := block[..written], block[written..];
    assert after[..w + written] == content[..w] + kept;
    assert block == content[r..][..|block|] == original[r..r + |block|] == kept + lost;
    assert original[from..r] + kept + lost == original[from..r + |block|];
    MoreKept(content[..w], original[from..r], kept);
    MoreLeftOut(content[..w] + kept, original[from..r] + kept, lost);
    assert after[r + |block|..] == content[r..][|block|..] == original[r + |block|..];
  }

  lemma CopyEnds(content: seq<char>, original: seq<char>, keep: nat, r: nat, w: nat)
    requires Copying(content, original, keep, r, w)
    ensures Subsequence(content[..w], Last(original, keep))
    ensures Whole(content, original, keep, r, w) ==>
              content[..w] <= Last(original, keep) && (r == |original| ==> content[..w] == Last(original, keep))
  {
    var from := |original| - keep;
    MoreLeftOut(content[..w], original[from..r], original[r..]);
    assert Last(original, keep) == original[from..r] + original[r..];
  }

  class LogFile {
    var content: seq<char>

    constructor (content: seq<char>)
      ensures this.content == content
    {
      this.content := content;
    }

    /** Reads at most `count` bytes, possibly fewer, nothing only at the end of the file; -1 is `None`. */
    method Pread(count: nat, offset: nat, fails: bool) returns (bytes: Option<seq<char>>)
      requires count > 0
      ensures bytes.None? <==> fails
      ensures bytes.Some? ==>
                && |bytes.value| <= count && offset + |bytes.value| <= Max(|content|, offset)
                && (|bytes.value| > 0 ==> bytes.value == content[offset..offset + |bytes.value|])
                && (|bytes.value| == 0 <==> |content| <= offset)
    {
      if fails {
        return None;
      }
      if |content| <= offset {
        return Some([]);
      }
      var n: nat :| 0 < n <= count && offset + n <= |content|;
      return Some(content[offset..offset + n]);
    }

    /** Writes the bytes, possibly only the first of them; -1 is `None`. */
    method Pwrite(bytes: seq<char>, offset: nat, fails: bool) returns (written: Option<nat>)
      requires offset + |bytes| <= |content|
      modifies this
      ensures written.None? <==> fails
      ensures written.None? ==> content == old(content)
      ensures written.Some? ==>
                && written.value <= |bytes|
                && content == old(content[..offset]) + bytes[..written.value] + old(content[offset + written.value..])
    {
      if fails {
        return None;
      }
      var n: nat :| n <= |bytes|;
      content := content[..offset] + bytes[..n] + content[offset + n..];
      return Some(n);
    }

    method Ftruncate(size: nat)
      requires size <= |content|
      modifies this
      ensures content == old(content[..size])
    {
      content := content[..size];
    }

    /** Writes one block over earlier bytes of the file. */
    method CopyBlock(block: seq<char>, readOffset: nat, writeOffset: nat, fails: bool, ghost original: seq<char>,
                     ghost keep: nat) returns (written: Option<nat>)
      requires Copying(content, original, keep, readOffset, writeOffset)
      requires readOffset + |block| <= |content| && block == content[readOffset..readOffset + |block|]
      modifies this
      ensures written.None? <==> fails
      ensures written.None? ==> content == old(content)
      ensures written.Some? ==>
                && written.value <= |block|
                && Copying(content, original, keep, readOffset + |block|, writeOffset + written.value)
                && (old(Whole(content, original, keep, readOffset, writeOffset)) && written.value == |block| ==>
                      Whole(content, original, keep, readOffset + |block|, writeOffset + written.value))
    {
      ghost var before := content;
      written := Pwrite(block, writeOffset, fails);
      if written.Some? {
        CopyStep(before, original, block, written.value, keep, readOffset, writeOffset);
      }
    }

    /** Copies the last bytes to the front, as far as the system lets it. */
    method CopyTail(keep: nat, readFailsAt: Option<nat>, writeFailsAt: Option<nat>)
        returns (writeOffset: nat, failed: bool, short: bool)
      requires keep < |content|
      modifies this
      ensures writeOffset <= |content|
      ensures Subsequence(content[..writeOffset], Last(old(content), keep))
      ensures !short ==> content[..writeOffset] <= Last(old(content), keep)
      ensures !short && !failed ==> content[..writeOffset] == Last(old(content), keep)
      ensures failed ==> readFailsAt.Some? || writeFailsAt.Some?
    {
      failed, short := false, false;
      ghost var original := content;
      var readOffset, turn := |content| - keep, 0;
      writeOffset := 0;
      assert Copying(content, original, keep, readOffset, writeOffset);
      var block := Pread(COPY_BLOCK_SIZE, readOffset, readFailsAt == Some(turn));
      while block.Some? && |block.value| > 0
        invariant Copying(content, original, keep, readOffset, writeOffset)
        invariant !short ==> Whole(content, original, keep, readOffset, writeOffset)
        invariant !failed && (block.None? ==> readFailsAt.Some?)
        invariant block.Some? ==>
                    && readOffset + |block.value| <= |content|
                    && block.value == content[readOffset..readOffset + |block.value|]
                    && (|block.value| == 0 <==> |content| == readOffset)
        decreases |original| - readOffset
      {
        var written := CopyBlock(block.value, readOffset, writeOffset, writeFailsAt == Some(turn), original, keep);
        if written.None? {
          failed := true;
          break;
        }
        short := short || written.value != |block.value|;
        readOffset := readOffset + |block.value|;
        writeOffset := writeOffset + written.value;
        turn := turn + 1;
        block := Pread(COPY_BLOCK_SIZE, readOffset, readFailsAt == Some(turn));
      }
      failed := failed || block.None?;
      CopyEnds(content, original, keep, readOffset, writeOffset);
    }

    /**
     * Small files are left alone. Any other keeps exactly its last `keep` bytes if every call does what it should.
     * After a read or a write that fails it keeps the first of them, and a write that takes only some of its bytes
     * leaves the others out. A turn of the loop at which the system fails may be given.
     */
    method TruncateLogFile(limit: int, keep: int, readFailsAt: Option<nat>, writeFailsAt: Option<nat>)
        returns (failed: bool, short: bool)
      modifies this
      ensures old(|content|) <= limit || old(|content|) <= keep ==> content == old(content) && !failed && !short
      ensures old(|content|) > limit && old(|content|) > keep ==>
                && Subsequence(content, Last(old(content), keep))
                && (!short ==> content <= Last(old(content), keep))
                && (!short && !failed ==> content == Last(old(content), keep))
      ensures failed ==> readFailsAt.Some? || writeFailsAt.Some?
    {
      failed, short := false, false;
      if |content| <= limit { return; }
      if |content| <= keep { return; }
      var writeOffset := 0;
      if keep < 0 {
        // The first read is behind the end of the file.
        var block := Pread(COPY_BLOCK_SIZE, |content| - keep, readFailsAt == Some(0));
        failed := block.None?;
        assert Last(content, keep) == [];
      } else {
        writeOffset, failed, short := CopyTail(keep, readFailsAt, writeFailsAt);
      }
      Ftruncate(writeOffset);
    }
  }
}
