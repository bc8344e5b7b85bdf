/** The output file as a sequence of bytes and the file object that writes it. */
module FileBytes {

  newtype byte = x: int | 0 <= x < 256

  function Max(a: nat, b: nat): nat { if a < b then b else a }

  /** `n` zero bytes: what the operating system reads back from a gap left by a seek past the end. */
  function Zeros(n: nat): (z: seq<byte>)
    ensures |z| == n
  {
    seq(n, _ => 0)
  }

  /** The file after seeking to `offset` and writing `data` on a handle opened for
      writing (not appending). A seek alone never changes the file, so writing no
      bytes leaves it as it was, even past its end. */
  function WriteAt(file: seq<byte>, offset: nat, data: seq<byte>): (r: seq<byte>)
    ensures |r| == if data == [] then |file| else Max(|file|, offset + |data|)
  {
    if data == [] then file
    else if offset <= |file| then
      file[..offset] + data + (if offset + |data| <= |file| then file[offset + |data|..] else [])
    else
      file + Zeros(offset - |file|) + data
  }

  /** What a seek-and-write does to the file: the written range holds `data`, bytes
      before the old end that lie outside it keep their values, a gap between the old
      end and `offset` reads as zeros when bytes were written, and an empty write
      changes nothing. */
  lemma WriteAtSpec(file: seq<byte>, offset: nat, data: seq<byte>)
    ensures var r := WriteAt(file, offset, data);
            && (data != [] ==> r[offset..offset + |data|] == data)
            && (forall i :: 0 <= i < |file| && !(offset <= i < offset + |data|) ==> r[i] == file[i])
            && (data != [] ==> forall i :: |file| <= i < offset ==> r[i] == 0)
            && (data == [] ==> r == file)
  {
  }

  /** Writing exactly at the end of the file appends. */
  lemma WriteAtEnd(file: seq<byte>, data: seq<byte>)
    ensures WriteAt(file, |file|, data) == file + data
  {
  }

  /** Writing bytes past the end of the file fills the gap with zeros. */
  lemma WriteAtGap(file: seq<byte>, offset: nat, data: seq<byte>)
    requires |file| <= offset && data != []
    ensures WriteAt(file, offset, data) == file + Zeros(offset - |file|) + data
  {
  }

  /** Writing at `start` onto a file that is empty or ends exactly at `start`: no bytes
      leave the file as it is, and otherwise the bytes land after the file, or after
      `start` zeros when the file is empty. */
  lemma WriteAtOnto(file: seq<byte>, start: nat, data: seq<byte>)
    requires file == [] || |file| == start
    ensures WriteAt(file, start, data) == if data == [] then file else (if file == [] then Zeros(start) else file) + data
  {
  }

  /** On an empty file, writing `a` at `start` and then `b` right after it gives the
      same file as writing `a + b` at `start`. */
  lemma WriteAtConsecutive(start: nat, a: seq<byte>, b: seq<byte>)
    ensures WriteAt(WriteAt([], start, a), start + |a|, b) == WriteAt([], start, a + b)
  {
    if a == [] {
      assert a + b == b;
    } else {
      WriteAtAfterFirst(start, a, b);
    }
  }

  /** The case of `WriteAtConsecutive` where `a` holds bytes: the file is `start` zeros
      and `a`, and `b` is appended at its end. */
  lemma WriteAtAfterFirst(start: nat, a: seq<byte>, b: seq<byte>)
    requires a != []
    ensures WriteAt(WriteAt([], start, a), start + |a|, b) == WriteAt([], start, a + b)
  {
    var f := WriteAt([], start, a);
    assert f == Zeros(start) + a by { WriteAtOnto([], start, a); }
    assert WriteAt(f, start + |a|, b) == f + b by { WriteAtEnd(f, b); }
    assert WriteAt([], start, a + b) == Zeros(start) + (a + b) by { WriteAtOnto([], start, a + b); }
    assert f + b == Zeros(start) + (a + b);
  }

  /** Writing bytes that fit inside the file at offset 0 replaces that prefix and
      keeps the rest. */
  lemma WriteAtStart(file: seq<byte>, data: seq<byte>)
    requires |data| <= |file|
    ensures WriteAt(file, 0, data) == data + file[|data|..]
  {
  }

  /** An open Python file object: its contents, its position, whether it was opened
      in append mode, and whether it has been closed. */
  class Handle {
    var contents: seq<byte>
    var position: nat
    const appending: bool
    var closed: bool

    /** `open(path, mode)`: `initial` is what the file holds once opened (empty after
        the truncation of 'wb', the existing bytes for 'a'); an append handle starts at
        the end. */
    constructor (initial: seq<byte>, appending: bool)
      ensures contents == initial && this.appending == appending && !closed
      ensures position == if appending then |initial| else 0
    {
      contents := initial;
      this.appending := appending;
      position := if appending then |initial| else 0;
      closed := false;
    }

    /** `seek(offset)`: moves the position and changes no byte. */
    method Seek(offset: nat)
      requires !closed
      modifies this
      ensures position == offset
      ensures contents == old(contents) && closed == old(closed)
    {
      position := offset;
    }

    /** `write(data)`: in append mode the bytes go to the end whatever the position;
        otherwise they overwrite from the position on. */
    method Write(data: seq<byte>)
      requires !closed
      modifies this
      ensures closed == old(closed)
      ensures appending ==> contents == old(contents) + data && position == |contents|
      ensures !appending ==> contents == WriteAt(old(contents), old(position), data)
                             && position == old(position) + |data|
    {
      if appending {
        contents := contents + data;
        position := |contents|;
      } else {
        contents := WriteAt(contents, position, data);
        position := position + |data|;
      }
    }

    /** `close()`: the bytes stay as written; closing twice is harmless. */
    method Close()
      modifies this
      ensures closed && contents == old(contents) && position == old(position)
    {
      closed := true;
    }
  }
}
