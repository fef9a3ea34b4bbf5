/**
 A reader that buffers what it reads ahead and can be moved: behind the buffer it behaves like
 a plain position in the file.
 */
module Seeker {
  import opened Options

  datatype Whence = Start | Current | End

  class BufferedSeeker<T> {
    const file: seq<T>
    const bufferSize: nat
    /** Where the underlying reader stands. */
    var rsPos: nat
    /** What has been read ahead and not been asked for. */
    var buffer: seq<T>

    ghost predicate Valid()
      reads this
    {
      |buffer| <= rsPos && (buffer != [] ==> rsPos <= |file| && file[rsPos - |buffer|..rsPos] == buffer)
    }

    /** Where a reader without a buffer would stand. */
    ghost function Position(): nat
      reads this
      requires Valid()
    {
      rsPos - |buffer|
    }

    constructor (file: seq<T>, bufferSize: nat)
      ensures Valid() && Position() == 0 && this.file == file && this.bufferSize == bufferSize
    {
      this.file, this.bufferSize := file, bufferSize;
      rsPos, buffer := 0, [];
    }

    /**
     Reads up to n elements: from the buffer if there is something in it; a large read of an
     empty buffer goes past it. `got` is how much the underlying reader gives at once.
     */
    method Read(n: nat, got: nat) returns (p: seq<T>)
      requires Valid() && bufferSize > 0 && got > 0
      modifies this
      ensures Valid() && |p| <= n
      ensures old(Position()) + |p| == Position()
      ensures p != [] ==> Position() <= |file| && p == file[old(Position())..Position()]
      ensures n > 0 && old(Position()) < |file| ==> p != []
    {
      if n == 0 {
        return [];
      }
      if buffer == [] {
        if n >= bufferSize {
          p := ReadThrough(n, got);
          return;
        }
        buffer := ReadThrough(bufferSize, got);
      }
      var k := if n <= |buffer| then n else |buffer|;
      p := buffer[..k];
      assert buffer == buffer[..k] + buffer[k..];
      buffer := buffer[k..];
    }

    method ReadThrough(n: nat, got: nat) returns (p: seq<T>)
      requires buffer == [] && n > 0 && got > 0
      modifies this`rsPos
      ensures |p| <= n && rsPos == old(rsPos) + |p|
      ensures p != [] ==> rsPos <= |file| && p == file[old(rsPos)..rsPos]
      ensures old(rsPos) < |file| ==> p != []
    {
      if rsPos >= |file| {
        return [];
      }
      var k := if n <= got then n else got;
      var end := if rsPos + k <= |file| then rsPos + k else |file|;
      p := file[rsPos..end];
      rsPos := end;
    }

    /**
     `io.ReadFull`: reads until there are n elements or the file ends, however little each read
     gives; `gots` says how much the underlying reader gives at a position.
     */
    method ReadFull(n: nat, gots: nat -> nat) returns (r: Option<seq<T>>)
      requires Valid() && bufferSize > 0 && Position() <= |file|
      modifies this
      ensures Valid() && Position() <= |file|
      ensures if old(Position()) + n <= |file|
        then r == Some(file[old(Position())..old(Position()) + n]) && Position() == old(Position()) + n
        else r == None
    {
      var p: seq<T> := [];
      while |p| < n
        invariant Valid() && |p| <= n && Position() == old(Position()) + |p| <= |file|
        invariant p == file[old(Position())..Position()]
        decreases n - |p|
      {
        var more := Read(n - |p|, gots(rsPos) + 1);
        if more == [] {
          return None;
        }
        p := p + more;
      }
      r := Some(p);
    }

    /** Moves as if there were no buffer; a move to a negative position fails and moves nothing. */
    method Seek(offset: int, whence: Whence) returns (n: Option<nat>)
      requires Valid()
      modifies this
      ensures Valid()
      ensures var target := offset + match whence case Start => 0 case Current => old(Position()) case End => |file|;
        if target >= 0 then n == Some(target) && Position() == target else n == None && Position() == old(Position())
    {
      var o := offset;
      if whence == Current {
        o := o - |buffer|;
      }
      var target := o + match whence case Start => 0 case Current => rsPos case End => |file|;
      if target < 0 {
        return None;
      }
      rsPos := target;
      buffer := [];
      n := Some(target);
    }
  }
}
