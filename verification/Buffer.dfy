/** `Buffer`: a contiguous read/write buffer with two cursors that compacts or grows on demand. */
module Buffers {
  import opened Options
  import opened Text

  class Buffer {
    var buf: array<char>
    var readIdx: nat
    var writeIdx: nat

    ghost predicate Valid()
      reads this
    {
      readIdx <= writeIdx <= buf.Length <= SIZE_MAX
    }

    /** The readable bytes. */
    ghost function Contents(): seq<char>
      reads this, buf
      requires Valid()
    {
      buf[readIdx..writeIdx]
    }

    function Readable(): nat
      reads this
      requires Valid()
    {
      writeIdx - readIdx
    }

    function Writable(): nat
      reads this
      requires Valid()
    {
      buf.Length - writeIdx
    }

    constructor (initial: nat)
      requires initial <= SIZE_MAX
      ensures Valid() && fresh(buf) && Contents() == [] && buf.Length == if initial == 0 then 1 else initial
      ensures readIdx == writeIdx == 0
    {
      buf := new char[if initial == 0 then 1 else initial](_ => '\0');
      readIdx, writeIdx := 0, 0;
    }

    /** The kernel's side of a `recv` into `write_ptr()`: bytes land behind the write cursor. */
    method Fill(data: seq<char>)
      requires Valid() && |data| <= Writable()
      modifies buf
      ensures Valid() && Contents() == old(Contents())
      ensures buf[writeIdx..writeIdx + |data|] == data
    {
      forall i | 0 <= i < |data| {
        buf[writeIdx + i] := data[i];
      }
    }

    /** Commits `n` bytes written behind the cursor; refused, without change, when they cannot
        all have fitted. */
    method HasWritten(n: nat) returns (ok: bool)
      requires Valid()
      modifies this`writeIdx
      ensures Valid() && ok == (n <= old(Writable()))
      ensures ok ==> Contents() == old(Contents()) + old(buf[writeIdx..writeIdx + n])
      ensures !ok ==> Contents() == old(Contents())
    {
      ok := n <= Writable();
      if ok {
        writeIdx := writeIdx + n;
      }
    }

    method Append(data: seq<char>) returns (ok: bool)
      requires Valid()
      modifies this, buf
      ensures Valid() && (buf == old(buf) || fresh(buf))
      ensures ok == (|data| == 0 || |data| <= old(Writable()) || |data| <= old(readIdx + Writable())
                     || old(writeIdx) + |data| <= SIZE_MAX)
      ensures Contents() == if ok then old(Contents()) + data else old(Contents())
    {
      if |data| == 0 {
        return true;
      }
      ok := EnsureWritable(|data|);
      if ok {
        Fill(data);
        var committed := HasWritten(|data|);
        assert committed;
      }
    }

    /** Advances the read cursor; an emptied buffer starts over at the front. */
    method Consume(n: nat) returns (ok: bool)
      requires Valid()
      modifies this`readIdx, this`writeIdx
      ensures Valid() && ok == (n <= old(Readable()))
      ensures Contents() == if ok then old(Contents())[n..] else old(Contents())
      ensures ok && readIdx == writeIdx ==> readIdx == 0
    {
      ok := n <= Readable();
      if ok {
        readIdx := readIdx + n;
        if readIdx == writeIdx {
          readIdx, writeIdx := 0, 0;
        }
      }
    }

    /** A copy of the first `n` readable bytes. */
    method Peek(n: nat) returns (s: seq<char>)
      requires Valid() && n <= Readable()
      ensures s == Contents()[..n]
    {
      s := buf[readIdx..readIdx + n];
    }

    /** The position of the first line end among the readable bytes. */
    method FindCrlf() returns (r: Option<nat>)
      requires Valid()
      ensures r == Text.FindCrlf(Contents())
    {
      var size := Readable();
      var i := 0;
      while i + 1 < size
        invariant 0 <= i
        invariant i <= size
        invariant Text.FindCrlf(Contents()) == FindCrlfFrom(Contents(), i)
      {
        if buf[readIdx + i] == '\r' && buf[readIdx + i + 1] == '\n' {
          return Some(i);
        }
        i := i + 1;
      }
      return None;
    }

    /** Makes room for `len` bytes: nothing to do, move the readable bytes to the front, or grow.
        The readable bytes stay the same. Growth leaves fewer than twice `len` bytes beyond them. */
    method EnsureWritable(len: nat) returns (ok: bool)
      requires Valid()
      modifies this, buf
      ensures Valid() && (buf == old(buf) || fresh(buf))
      ensures Contents() == old(Contents())
      ensures ok ==> Writable() >= len
      ensures ok == (len <= old(Writable()) || len <= old(readIdx + Writable()) || old(writeIdx) + len <= SIZE_MAX)
      ensures buf.Length == old(buf.Length) || buf.Length < |Contents()| + 2 * len
      ensures buf.Length >= old(buf.Length)
    {
      ok := true;
      if Writable() >= len {
        return;
      }
      if readIdx + Writable() >= len {
        var size := Readable();
        forall i | 0 <= i < size {
          buf[i] := buf[readIdx + i];
        }
        readIdx := 0;
        writeIdx := size;
      } else if len > SIZE_MAX - writeIdx {
        ok := false;
      } else {
        var grown := new char[writeIdx + len](_ => '\0');
        forall i | 0 <= i < buf.Length {
          grown[i] := buf[i];
        }
        buf := grown;
      }
    }
  }
}
