/** SO_FILE and the so_* operations of win/so_stdio.c, as a class over two
    fixed 4096-byte arrays whose methods update the fields in place.  Each
    method is proved to change the stream and the host exactly as the
    matching function of StreamSpec says. */
module SoStdio {
  import opened Syscalls
  import opened StreamSpec

  /** Writing c at position |copied| of copied + o[|copied|..] extends the
      copied prefix by c. */
  lemma SpliceStep(copied: seq<Byte>, o: seq<Byte>, c: Byte)
    requires |copied| < |o|
    ensures (copied + o[|copied|..])[|copied| := c] == (copied + [c]) + o[|copied| + 1..]
  {
  }

  class SoFile {
    const readBuf: array<Byte>
    const writeBuf: array<Byte>
    var bytesRead: int
    var bytesWrite: int
    var isEofOrError: int
    /** The host handle, and the host it belongs to. */
    const fd: int
    const os: Os
    /** Cursors into the buffers. */
    var readCrs: int
    var writeCrs: int
    /** Offsets into the file, one per direction. */
    var readCursorFile: int
    var writeCursorFile: int
    /** 1 when the stream was opened read-only. */
    const isRead: int
    /** The last operation: BranchRead or BranchWrite. */
    var branch: int

    /** The stream's fields as a StreamSpec value. */
    ghost function Snapshot(): Stream
      reads this, readBuf, writeBuf
    {
      Stream(readBuf[..], writeBuf[..], bytesRead, bytesWrite, isEofOrError, fd,
             readCrs, writeCrs, readCursorFile, writeCursorFile, isRead, branch)
    }

    ghost function World(): World
      reads this, readBuf, writeBuf, os
    {
      StreamSpec.World(Snapshot(), os.kernel)
    }

    ghost predicate Valid()
      reads this, readBuf, writeBuf
    {
      readBuf != writeBuf && Inv(Snapshot())
    }

    constructor (os: Os, fd: int, isRead: int)
      requires 0 <= isRead <= 1
      ensures Valid() && fresh(readBuf) && fresh(writeBuf)
      ensures this.os == os && Snapshot() == Fresh(fd, isRead)
    {
      readBuf := new Byte[Cap](_ => 0);
      writeBuf := new Byte[Cap](_ => 0);
      bytesRead, bytesWrite, isEofOrError := 0, 0, 0;
      this.fd, this.os := fd, os;
      readCrs, writeCrs, readCursorFile, writeCursorFile := 0, 0, 0, 0;
      this.isRead := isRead;
      branch := BranchRead;
      new;
      assert readBuf[..] == seq(Cap, _ => 0);
      assert writeBuf[..] == seq(Cap, _ => 0);
    }

    /** so_fopen: null for an unknown mode (the host untouched) or when the
        host refuses the open; otherwise a fresh, zeroed stream. */
    static method Fopen(os: Os, path: string, mode: string, platform: Platform) returns (fp: SoFile?)
      modifies os
      ensures var r := StreamSpec.Open(old(os.kernel), path, mode, platform);
        os.kernel == r.0 && (fp == null <==> r.1.None?) &&
        (fp != null ==> fp.Valid() && fresh(fp) && fresh(fp.readBuf) && fresh(fp.writeBuf) &&
                        fp.os == os && fp.Snapshot() == r.1.value)
    {
      var m := ModeOf(mode);
      if m.None? {
        return null;
      }
      var fd := os.Open(path, mode);
      if fd == -1 {
        return null;
      }
      fp := new SoFile(os, fd, if m.value == R && platform == Linux then 1 else 0);
    }

    /** so_fileno. */
    function Fileno(): (r: int)
      reads this, readBuf, writeBuf
      ensures r == Snapshot().fd
    {
      fd
    }

    /** so_ftell. */
    function Ftell(): (r: int)
      reads this, readBuf, writeBuf
      ensures r == Tell(Snapshot())
    {
      if isRead == 1 then readCursorFile else writeCursorFile
    }

    /** so_feof. */
    function SoFeof(): (r: int)
      reads this, readBuf, writeBuf
      ensures r == Feof(Snapshot())
    {
      if isEofOrError == 0 then 0 else -1
    }

    /** so_ferror. */
    function SoFerror(): (r: int)
      reads this, readBuf, writeBuf
      ensures r == Ferror(Snapshot())
    {
      var status := SoFeof();
      if status == -1 || isEofOrError == -1 then -1 else 0
    }

    /** so_fgetc. */
    method Fgetc() returns (r: int)
      requires Valid()
      modifies this, readBuf, os
      ensures Valid()
      ensures Outcome(World(), r) == Getc(old(World()))
    {
      if bytesRead == 0 {
        var count := os.Read(Fileno(), readBuf, Cap);
        if count <= 0 {
          isEofOrError := 1;
          return Eof;
        }
        bytesRead := count;
        readCrs := 0;
      }
      readCrs := readCrs + 1;
      readCursorFile := readCursorFile + 1;
      bytesRead := bytesRead - 1;
      branch := BranchRead;
      r := readBuf[readCrs - 1];
    }

    /** The write retry loop of so_fputc and so_fflush over the first `size`
        bytes of the write buffer; on failure it sets the terminal flag. */
    method Drain(size: nat) returns (ok: bool)
      requires Valid() && size <= Cap
      modifies this, os
      ensures Valid()
      ensures var d := DrainRun(old(os.kernel), fd, writeBuf[..], size);
        os.kernel == d.kernel && ok == d.ok &&
        Snapshot() == if ok then old(Snapshot()) else old(Snapshot()).(isEofOrError := 1)
    {
      var chunk := 0;
      while size - chunk > 0
        invariant 0 <= chunk <= size
        invariant Snapshot() == old(Snapshot())
        invariant DrainRun(os.kernel, fd, writeBuf[..], size - chunk) == DrainRun(old(os.kernel), fd, writeBuf[..], size)
        decreases size - chunk
      {
        var status := os.Write(Fileno(), writeBuf, size - chunk);
        if status <= 0 {
          isEofOrError := 1;
          return false;
        }
        chunk := chunk + status;
      }
      return true;
    }

    /** so_fputc. */
    method Fputc(c: int) returns (r: int)
      requires Valid()
      modifies this, writeBuf, os
      ensures Valid()
      ensures Outcome(World(), r) == Putc(old(World()), c)
    {
      if bytesWrite == Cap {
        var ok := Drain(Cap);
        if !ok {
          return Eof;
        }
        writeCrs := 0;
        bytesWrite := 0;
      }
      writeBuf[writeCrs] := LowByte(c);
      bytesWrite := bytesWrite + 1;
      writeCrs := writeCrs + 1;
      writeCursorFile := writeCursorFile + 1;
      branch := BranchWrite;
      r := writeBuf[writeCrs - 1];
    }

    /** so_fflush. */
    method Fflush() returns (r: int)
      requires Valid()
      modifies this, os
      ensures Valid()
      ensures Outcome(World(), r) == Flush(old(World()))
    {
      if bytesWrite != 0 {
        var ok := Drain(bytesWrite);
        if !ok {
          return Eof;
        }
        readCrs := 0;
        readCursorFile := 0;
        writeCrs := 0;
        writeCursorFile := 0;
        bytesWrite := 0;
        return 0;
      }
      return 0;
    }

    /** so_fseek. */
    method Fseek(offset: int, whence: int) returns (r: int)
      requires Valid()
      modifies this, os
      ensures Valid()
      ensures Outcome(World(), r) == Seek(old(World()), offset, whence)
    {
      if bytesWrite != 0 {
        var _ := Fflush();
      }
      if branch == BranchRead {
        bytesRead := 0;
      }
      var status := os.Seek(Fileno(), offset, whence);
      if status == -1 {
        return -1;
      }
      readCursorFile := status;
      writeCursorFile := status;
      return 0;
    }

    /** so_fclose: the host after the call and the value returned (the
        stream is not to be used again). */
    method Fclose() returns (r: int)
      requires Valid()
      modifies this, os
      ensures CloseOutcome(os.kernel, r) == Close(old(World()))
    {
      var status := 0;
      if bytesWrite != 0 {
        status := Fflush();
      }
      var closed := os.Close(Fileno());
      if closed < 0 || status != 0 {
        return Eof;
      }
      return 0;
    }

    /** One turn of the so_fread loop: one so_fgetc and, when it delivers a
        byte, that byte copied to dest[n].  The ghost parameters carry the
        loop's account: `whole` is the loop from its start, `copied` the
        bytes copied so far, `d0` dest before the loop. */
    method FetchInto(dest: array<Byte>, n: nat, ghost whole: Transfer, ghost copied: seq<Byte>,
                     ghost d0: seq<Byte>, ghost m: nat)
      returns (got: bool, ghost next: seq<Byte>)
      requires Valid() && dest != readBuf && dest != writeBuf && n < dest.Length
      requires m > 0 && |copied| == n && |d0| == dest.Length
      requires dest[..] == copied + d0[n..]
      requires whole == Prepend(copied, ReadBytes(World(), m))
      modifies this, readBuf, os, dest
      ensures Valid()
      ensures got ==> |next| == n + 1 && dest[..] == next + d0[n + 1..] &&
                      whole == Prepend(next, ReadBytes(World(), m - 1))
      ensures !got ==> next == copied && dest[..] == copied + d0[n..] &&
                       whole == Transfer(World(), copied, true)
    {
      ghost var g := Getc(World());
      ReadBytesStep(whole, copied, World(), m);
      var c := Fgetc();
      if c == Eof {
        return false, copied;
      }
      dest[n] := readBuf[readCrs - 1];
      SpliceStep(copied, d0, g.result);
      return true, copied + [g.result];
    }

    /** The byte loop of so_fread: up to `demanded` so_fgetc calls, each
        byte obtained copied to the next place of dest. */
    method ReadLoop(dest: array<Byte>, demanded: nat) returns (n: nat, eof: bool)
      requires Valid() && dest != readBuf && dest != writeBuf && demanded <= dest.Length
      modifies this, readBuf, os, dest
      ensures n <= demanded && (eof ==> n < demanded)
      ensures Valid()
      ensures var t := ReadBytes(old(World()), demanded);
        World() == t.world && n == |t.bytes| && eof == t.stopped &&
        dest[..] == t.bytes + old(dest[..])[n..]
    {
      n, eof := 0, false;
      ghost var d0 := dest[..];
      ghost var whole := ReadBytes(World(), demanded);
      ghost var copied: seq<Byte> := [];
      PrependNothing(whole);
      while n < demanded && !eof
        invariant Valid() && 0 <= n <= demanded && |copied| == n
        invariant dest[..] == copied + d0[n..]
        invariant eof ==> whole == Transfer(World(), copied, true)
        invariant !eof ==> whole == Prepend(copied, ReadBytes(World(), demanded - n))
        decreases demanded - n, !eof
      {
        var got;
        got, copied := FetchInto(dest, n, whole, copied, d0, demanded - n);
        if got {
          n := n + 1;
        } else {
          eof := true;
        }
      }
      assert !eof ==> copied + [] == copied;
    }

    /** so_fread: copies each byte so_fgetc hands out into dest. */
    method Fread(dest: array<Byte>, size: nat, nmemb: nat) returns (r: nat)
      requires Valid() && dest != readBuf && dest != writeBuf
      requires size * nmemb <= dest.Length
      modifies this, readBuf, os, dest
      ensures Valid()
      ensures var b := StreamSpec.Fread(old(World()), size, nmemb);
        World() == b.world && r == b.count &&
        dest[..|b.bytes|] == b.bytes && dest[|b.bytes|..] == old(dest[|b.bytes|..])
    {
      var demanded := size * nmemb;
      assert size == 0 ==> demanded == 0;
      var n, eof := ReadLoop(dest, demanded);
      ghost var t := ReadBytes(old(World()), demanded);
      ghost var b := StreamSpec.Fread(old(World()), size, nmemb);
      assert b.bytes == t.bytes;
      assert n == |t.bytes|;
      assert b.count == Elements(n, size);
      if n > 0 {
        assert b.world == t.world;
        return n / size;
      } else if eof {
        isEofOrError := 1;
        return n / size;
      } else {
        return 0;
      }
    }

    /** One turn of the so_fwrite loop: so_fputc on src[n].  The ghost
        parameters carry the loop's account: `whole` is the loop from its
        start and `bytes` the contents of src. */
    method PutNext(src: array<Byte>, n: nat, ghost whole: Transfer, ghost bytes: seq<Byte>, ghost m: nat)
      returns (put: bool)
      requires Valid() && src != writeBuf && src[..] == bytes
      requires m > 0 && n + m <= |bytes|
      requires whole == Prepend(bytes[..n], WriteBytes(World(), bytes[n..], m))
      modifies this, writeBuf, os
      ensures Valid()
      ensures put ==> whole == Prepend(bytes[..n + 1], WriteBytes(World(), bytes[n + 1..], m - 1))
      ensures !put ==> whole == Transfer(World(), bytes[..n], true)
    {
      WriteBytesStep(whole, bytes, n, World(), m);
      var c := Fputc(src[n]);
      return c != Eof;
    }

    /** The byte loop of so_fwrite: up to `demanded` so_fputc calls on the
        bytes of src in order. */
    method WriteLoop(src: array<Byte>, demanded: nat) returns (n: nat, eof: bool)
      requires Valid() && src != writeBuf && demanded <= src.Length
      modifies this, writeBuf, os
      ensures n <= demanded && (eof ==> n < demanded)
      ensures Valid()
      ensures var t := WriteBytes(old(World()), old(src[..]), demanded);
        World() == t.world && n == |t.bytes| && eof == t.stopped
    {
      n, eof := 0, false;
      ghost var bytes := src[..];
      ghost var whole := WriteBytes(World(), bytes, demanded);
      assert bytes[..0] == [] && bytes[0..] == bytes;
      PrependNothing(whole);
      while n < demanded && !eof
        invariant Valid() && 0 <= n <= demanded && src[..] == bytes && |bytes| == src.Length
        invariant eof ==> whole == Transfer(World(), bytes[..n], true)
        invariant !eof ==> whole == Prepend(bytes[..n], WriteBytes(World(), bytes[n..], demanded - n))
        decreases demanded - n, !eof
      {
        var put := PutNext(src, n, whole, bytes, demanded - n);
        if put {
          n := n + 1;
        } else {
          eof := true;
        }
      }
      assert !eof ==> bytes[..n] + [] == bytes[..n];
    }

    /** so_fwrite: hands each byte of src to so_fputc. */
    method Fwrite(src: array<Byte>, size: nat, nmemb: nat) returns (r: nat)
      requires Valid() && src != writeBuf
      requires size * nmemb <= src.Length
      modifies this, writeBuf, os
      ensures Valid()
      ensures var b := StreamSpec.Fwrite(old(World()), old(src[..]), size, nmemb);
        World() == b.world && r == b.count
    {
      var demanded := size * nmemb;
      assert size == 0 ==> demanded == 0;
      var n, eof := WriteLoop(src, demanded);
      ghost var t := WriteBytes(old(World()), old(src[..]), demanded);
      ghost var b := StreamSpec.Fwrite(old(World()), old(src[..]), size, nmemb);
      assert b.bytes == t.bytes;
      assert n == |t.bytes|;
      assert b.count == Elements(n, size);
      if n > 0 {
        assert b.world == t.world;
        return n / size;
      } else if eof {
        isEofOrError := 1;
        return n / size;
      } else {
        return 0;
      }
    }
  }
}
