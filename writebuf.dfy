/** The writable buffers of `c/writebuf.cc`: a growable in-memory buffer that
    hands out write positions and is filled chunk by chunk, a file buffer that
    writes as it goes, and the choice between them. */
module WriteBuf {
  import opened Results

  type byte = bv8

  datatype Strategy = Auto | Mmap | Write

  /** The kind of buffer `create_target` builds, with what it is built from. */
  datatype Target = MemoryTarget(size: nat) | FileTarget(path: string) | MmapTarget(path: string, size: nat)

  /** `Auto` means `Write` on macOS (no sparse files there) and `Mmap` elsewhere. */
  function ResolveStrategy(s: Strategy, onMacOS: bool): (r: Strategy)
    ensures r != Auto
    ensures s != Auto ==> r == s
    ensures s == Auto ==> (r == Write <==> onMacOS)
  {
    if s != Auto then s else if onMacOS then Write else Mmap
  }

  /** `WritableBuffer::create_target`: memory for an empty path, otherwise a
      file written either by `write()` calls or through a memory map. */
  function CreateTarget(path: string, size: nat, strategy: Strategy, onMacOS: bool): (t: Target)
    ensures t.MemoryTarget? <==> path == ""
    ensures t.MemoryTarget? ==> t.size == size
    ensures t.FileTarget? <==> path != "" && ResolveStrategy(strategy, onMacOS) == Write
    ensures t.FileTarget? ==> t.path == path
    ensures t.MmapTarget? ==> t == MmapTarget(path, size)
  {
    if path == "" then MemoryTarget(size)
    else match ResolveStrategy(strategy, onMacOS)
      case Write => FileTarget(path)
      case _ => MmapTarget(path, size)
  }

  datatype WriteError =
    | OutOfBounds(pos: nat, n: nat, allocsize: nat)
    | CannotWrite(bytesWritten: nat)
    | Truncated(written: int, size: nat)

  function MinNat(a: nat, b: nat): nat { if a <= b then a else b }

  /** `MemoryWritableBuffer` together with what it inherits from
      `ThreadsafeWritableBuffer` and `WritableBuffer`. */
  class MemoryWritableBuffer {
    var bytesWritten: nat
    var allocsize: nat
    /** null before the first allocation and after `get_cptr`. */
    var buffer: array?<byte>

    ghost predicate Valid()
      reads this
    {
      (buffer == null ==> allocsize == 0) &&
      (buffer != null ==> buffer.Length == allocsize)
    }

    /** The allocated bytes. */
    function Contents(): (s: seq<byte>)
      reads this, buffer
      requires Valid()
      ensures |s| == allocsize
    {
      if buffer == null then [] else buffer[..]
    }

    /** `MemoryWritableBuffer(size)`: nothing written, `size` bytes allocated. */
    constructor (size: nat)
      ensures Valid() && fresh(buffer)
      ensures bytesWritten == 0 && allocsize == size
    {
      bytesWritten, allocsize, buffer := 0, 0, null;
      new;
      Realloc(size);
    }

    /** `realloc(newsize)`: a new allocation of exactly `newsize` bytes whose
        first min(old, new) bytes are the old ones. */
    method Realloc(newsize: nat)
      requires Valid()
      modifies this
      ensures Valid() && buffer != null && fresh(buffer)
      ensures allocsize == newsize && bytesWritten == old(bytesWritten)
      ensures Contents()[..MinNat(old(allocsize), newsize)] ==
              old(Contents())[..MinNat(old(allocsize), newsize)]
    {
      var grown := new byte[newsize];
      var keep := MinNat(allocsize, newsize);
      if buffer != null {
        forall i | 0 <= i < keep {
          grown[i] := buffer[i];
        }
      }
      buffer, allocsize := grown, newsize;
    }

    /** `prep_write(n)`: reserve n bytes after everything reserved so far and
        return where they start, doubling past the new end when the allocation
        is too small. Nothing already stored moves. */
    method PrepWrite(n: nat) returns (pos: nat)
      requires Valid()
      modifies this
      ensures Valid()
      ensures pos == old(bytesWritten) && bytesWritten == old(bytesWritten) + n
      ensures allocsize == if old(bytesWritten) + n > old(allocsize)
                           then 2 * (old(bytesWritten) + n) else old(allocsize)
      ensures bytesWritten <= allocsize
      ensures old(allocsize) <= allocsize
      ensures Contents()[..old(allocsize)] == old(Contents())
      ensures buffer == old(buffer) || fresh(buffer)
    {
      pos := bytesWritten;
      var nbw := pos + n;
      if nbw > allocsize {
        Realloc(nbw * 2);
      }
      bytesWritten := nbw;
    }

    /** `write_at(pos, n, src)`: copy the first n bytes of src to [pos, pos+n),
        or fail, changing nothing, when that range is not allocated. */
    method WriteAt(pos: nat, n: nat, src: seq<byte>) returns (r: Result<(), WriteError>)
      requires Valid()
      requires n <= |src|
      modifies buffer
      ensures Valid()
      ensures r.Err? <==> pos + n > allocsize
      ensures r.Err? ==> r.error == OutOfBounds(pos, n, allocsize) && Contents() == old(Contents())
      ensures r.Ok? ==> Contents() == old(Contents())[..pos] + src[..n] + old(Contents())[pos + n..]
    {
      if pos + n > allocsize {
        return Err(OutOfBounds(pos, n, allocsize));
      }
      if n > 0 {
        forall i | pos <= i < pos + n {
          buffer[i] := src[i - pos];
        }
        assert Contents() == old(Contents())[..pos] + src[..n] + old(Contents())[pos + n..];
      }
      r := Ok(());
    }

    /** `finalize()`: shrink the allocation to exactly the bytes reserved. */
    method Finalize()
      requires Valid()
      modifies this
      ensures Valid() && fresh(buffer)
      ensures allocsize == bytesWritten && bytesWritten == old(bytesWritten)
      ensures bytesWritten <= old(allocsize) ==> Contents() == old(Contents())[..bytesWritten]
    {
      Realloc(bytesWritten);
    }

    /** `get_cptr()`: hand the allocation over to the caller and forget it. */
    method GetCptr() returns (buf: array?<byte>)
      requires Valid()
      modifies this
      ensures Valid()
      ensures buf == old(buffer) && buffer == null && allocsize == 0
      ensures bytesWritten == old(bytesWritten)
    {
      buf := buffer;
      buffer, allocsize := null, 0;
    }

    /** `get_mbuf()`: the allocation with its size, taken over as by `get_cptr`. */
    method GetMbuf() returns (buf: array?<byte>, size: nat)
      requires Valid()
      modifies this
      ensures Valid()
      ensures buf == old(buffer) && size == old(allocsize)
      ensures buffer == null && allocsize == 0 && bytesWritten == old(bytesWritten)
    {
      size := allocsize;
      buf := GetCptr();
    }

    /** `get_string()`: a copy of all `allocsize` bytes; the buffer stays. */
    method GetString() returns (s: seq<byte>)
      requires Valid()
      ensures s == Contents() && |s| == allocsize
    {
      s := if buffer == null then [] else buffer[..];
    }
  }

  /** The way a writer fills a memory target: reserve every chunk first (each
      reservation returns a position after the previous one), copy the chunks
      to their positions, finalize, read the bytes back. The result is the
      chunks concatenated in reservation order, with no gap and no extra byte. */
  method WriteTwoChunks(a: seq<byte>, b: seq<byte>, initial: nat) returns (s: seq<byte>)
    ensures s == a + b
  {
    var buf := new MemoryWritableBuffer(initial);
    var p := buf.PrepWrite(|a|);
    var q := buf.PrepWrite(|b|);
    assert p == 0 && q == |a| && q + |b| <= buf.allocsize;
    var r1 := buf.WriteAt(p, |a|, a);
    ghost var afterA := buf.Contents();
    assert afterA[..|a|] == a;
    var r2 := buf.WriteAt(q, |b|, b);
    assert buf.Contents()[..|a| + |b|] == a + b;
    buf.Finalize();
    s := buf.GetString();
  }

  /** `FileWritableBuffer`: every `prep_write` writes its bytes to the file at
      once, so `write_at` has nothing left to do. */
  class FileWritableBuffer {
    var bytesWritten: nat
    /** `file != nullptr`: the file is open until `finalize`. */
    var isOpen: bool

    /** `FileWritableBuffer(path)`: opens (and truncates) the file. */
    constructor (path: string)
      ensures bytesWritten == 0 && isOpen
    {
      bytesWritten, isOpen := 0, true;
    }

    /** `prep_write(size, src)`. `written` is what `::write` returned for the
        `size` bytes: -1 is an error, less than `size` a truncated write; in
        both cases nothing is counted. Otherwise the old position is returned
        and the counter advances by `size`. */
    method PrepWrite(size: nat, written: int) returns (r: Result<nat, WriteError>)
      requires isOpen
      modifies this
      ensures isOpen
      ensures written == -1 ==> r == Err(CannotWrite(old(bytesWritten)))
      ensures written != -1 && written < size ==> r == Err(Truncated(written, size))
      ensures r.Err? ==> bytesWritten == old(bytesWritten)
      ensures r.Ok? <==> written != -1 && written >= size
      ensures r.Ok? ==> r.value == old(bytesWritten) && bytesWritten == old(bytesWritten) + size
    {
      var pos := bytesWritten;
      if written == -1 {
        return Err(CannotWrite(bytesWritten));
      }
      if written < size {
        return Err(Truncated(written, size));
      }
      bytesWritten := bytesWritten + size;
      r := Ok(pos);
    }

    /** `write_at`: deliberately does nothing. */
    method WriteAt(pos: nat, n: nat, src: seq<byte>)
      ensures bytesWritten == old(bytesWritten) && isOpen == old(isOpen)
    {
    }

    /** `finalize()`: closes the file. */
    method Finalize()
      modifies this
      ensures !isOpen && bytesWritten == old(bytesWritten)
    {
      isOpen := false;
    }
  }
}
