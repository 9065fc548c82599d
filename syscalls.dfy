/** The host's raw file primitives (open, read, write, lseek, close), seen
    from the buffered stream as an abstract collaborator.

    The host is modelled as a script of replies, one script per primitive,
    consumed in call order, plus a log of every call made together with the
    reply it got.  A reply is clipped to the count the caller asked for, so
    a read or write never reports more bytes than requested; an exhausted
    script answers every further call with a failure. */
module Syscalls {

  /** A byte as C's `unsigned char` sees it. */
  type Byte = x: int | 0 <= x < 256

  /** What the host answers to one read: a failure, or the bytes that are
      available (none at all means end of file). */
  datatype ReadReply = ReadFailed | ReadData(data: seq<Byte>)

  /** One call made to the host, with the value the call returned. */
  datatype Call =
    | OpenCall(path: string, mode: string, fd: int)
    | ReadCall(fd: int, count: int, result: int)
    | WriteCall(fd: int, bytes: seq<Byte>, result: int)
    | SeekCall(fd: int, offset: int, whence: int, result: int)
    | CloseCall(fd: int, result: int)

  /** The host's state: the replies it will give, and the calls made so far. */
  datatype Kernel = Kernel(
    openReplies: seq<int>,
    readReplies: seq<ReadReply>,
    writeReplies: seq<int>,
    seekReplies: seq<int>,
    closeReplies: seq<int>,
    log: seq<Call>)

  /** A reply script after its first reply was used. */
  function Rest<T>(s: seq<T>): seq<T> {
    if s == [] then [] else s[1..]
  }

  datatype OpenResult = OpenResult(kernel: Kernel, fd: int)
  datatype ReadResult = ReadResult(kernel: Kernel, count: int, bytes: seq<Byte>)
  datatype StatusResult = StatusResult(kernel: Kernel, status: int)

  /** open(path, mode): a handle, or -1. */
  function OpenOn(k: Kernel, path: string, mode: string): (r: OpenResult)
    ensures r.kernel.log == k.log + [OpenCall(path, mode, r.fd)]
    ensures r.kernel == k.(openReplies := Rest(k.openReplies), log := r.kernel.log)
    ensures k.openReplies == [] ==> r.fd == -1
  {
    var fd := if k.openReplies == [] then -1 else k.openReplies[0];
    OpenResult(k.(openReplies := Rest(k.openReplies), log := k.log + [OpenCall(path, mode, fd)]), fd)
  }

  /** read(fd, buf, n): the count obtained (at most n; 0 at end of file,
      -1 on failure) and the bytes that land at the start of buf. */
  function ReadOn(k: Kernel, fd: int, n: nat): (r: ReadResult)
    ensures r.count <= n
    ensures |r.bytes| == (if r.count > 0 then r.count else 0)
    ensures r.kernel.log == k.log + [ReadCall(fd, n, r.count)]
    ensures r.kernel == k.(readReplies := Rest(k.readReplies), log := r.kernel.log)
  {
    var reply := if k.readReplies == [] then ReadFailed else k.readReplies[0];
    var k' := k.(readReplies := Rest(k.readReplies));
    match reply
    case ReadFailed =>
      ReadResult(k'.(log := k.log + [ReadCall(fd, n, -1)]), -1, [])
    case ReadData(data) =>
      var m := if |data| < n then |data| else n;
      ReadResult(k'.(log := k.log + [ReadCall(fd, n, m)]), m, data[..m])
  }

  /** write(fd, bytes, |bytes|): the count the host accepted (at most
      |bytes|), or a value <= 0 on failure. */
  function WriteOn(k: Kernel, fd: int, bytes: seq<Byte>): (r: StatusResult)
    ensures r.status <= |bytes|
    ensures r.kernel.log == k.log + [WriteCall(fd, bytes, r.status)]
    ensures r.kernel == k.(writeReplies := Rest(k.writeReplies), log := r.kernel.log)
  {
    var reply := if k.writeReplies == [] then -1 else k.writeReplies[0];
    var status := if reply > |bytes| then |bytes| else reply;
    StatusResult(k.(writeReplies := Rest(k.writeReplies), log := k.log + [WriteCall(fd, bytes, status)]), status)
  }

  /** lseek(fd, offset, whence): the new absolute position, or -1. */
  function SeekOn(k: Kernel, fd: int, offset: int, whence: int): (r: StatusResult)
    ensures r.kernel.log == k.log + [SeekCall(fd, offset, whence, r.status)]
    ensures r.kernel == k.(seekReplies := Rest(k.seekReplies), log := r.kernel.log)
    ensures k.seekReplies == [] ==> r.status == -1
  {
    var pos := if k.seekReplies == [] then -1 else k.seekReplies[0];
    StatusResult(k.(seekReplies := Rest(k.seekReplies), log := k.log + [SeekCall(fd, offset, whence, pos)]), pos)
  }

  /** close(fd): a negative value on failure. */
  function CloseOn(k: Kernel, fd: int): (r: StatusResult)
    ensures r.kernel.log == k.log + [CloseCall(fd, r.status)]
    ensures r.kernel == k.(closeReplies := Rest(k.closeReplies), log := r.kernel.log)
    ensures k.closeReplies == [] ==> r.status < 0
  {
    var status := if k.closeReplies == [] then -1 else k.closeReplies[0];
    StatusResult(k.(closeReplies := Rest(k.closeReplies), log := k.log + [CloseCall(fd, status)]), status)
  }

  /** `buf` after a read has put `bytes` at its start. */
  function Fill(buf: seq<Byte>, bytes: seq<Byte>): (r: seq<Byte>)
    requires |bytes| <= |buf|
    ensures |r| == |buf|
    ensures r[..|bytes|] == bytes && r[|bytes|..] == buf[|bytes|..]
  {
    bytes + buf[|bytes|..]
  }

  /** The host, as the one mutable object every stream talks to. */
  class Os {
    var kernel: Kernel

    constructor (k: Kernel)
      ensures kernel == k
    {
      kernel := k;
    }

    method Open(path: string, mode: string) returns (fd: int)
      modifies this
      ensures OpenResult(kernel, fd) == OpenOn(old(kernel), path, mode)
    {
      var r := OpenOn(kernel, path, mode);
      kernel, fd := r.kernel, r.fd;
    }

    /** Reads at most n bytes into the start of buf. */
    method Read(fd: int, buf: array<Byte>, n: nat) returns (count: int)
      requires n <= buf.Length
      modifies this, buf
      ensures var r := ReadOn(old(kernel), fd, n);
        kernel == r.kernel && count == r.count && buf[..] == Fill(old(buf[..]), r.bytes)
    {
      var r := ReadOn(kernel, fd, n);
      ghost var before := buf[..];
      forall i | 0 <= i < |r.bytes| {
        buf[i] := r.bytes[i];
      }
      assert buf[..] == Fill(before, r.bytes);
      kernel, count := r.kernel, r.count;
    }

    /** Hands the first n bytes of buf to the host. */
    method Write(fd: int, buf: array<Byte>, n: nat) returns (status: int)
      requires n <= buf.Length
      modifies this
      ensures StatusResult(kernel, status) == WriteOn(old(kernel), fd, buf[..n])
    {
      var r := WriteOn(kernel, fd, buf[..n]);
      kernel, status := r.kernel, r.status;
    }

    method Seek(fd: int, offset: int, whence: int) returns (pos: int)
      modifies this
      ensures StatusResult(kernel, pos) == SeekOn(old(kernel), fd, offset, whence)
    {
      var r := SeekOn(kernel, fd, offset, whence);
      kernel, pos := r.kernel, r.status;
    }

    method Close(fd: int) returns (status: int)
      modifies this
      ensures StatusResult(kernel, status) == CloseOn(old(kernel), fd)
    {
      var r := CloseOn(kernel, fd);
      kernel, status := r.kernel, r.status;
    }
  }
}
