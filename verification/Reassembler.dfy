/** The receive side: frames are cut out of a reused buffer in place, and a partial frame is
    carried over to the next completion. */
module Reassembler {
  import opened Bytes
  import opened Wire
  import opened Jobs
  import CharPool

  const RECV: int := 1
  const RECV_MORE: int := 3

  /** The per-receive record. The 16-bit bodySize is kept as its two bytes, since a lone
      header byte overwrites only the first of them. */
  class PerIoData {
    const buffer: array<Byte>
    var serverMode: int
    var recvByte: int
    var totByte: int
    var sizeLo: Byte
    var sizeHi: Byte
    var recvBuffer: array<Byte>

    constructor ()
      ensures buffer.Length == BUF_SIZE && serverMode == RECV && recvByte == 0 && fresh(buffer)
    {
      buffer := new Byte[BUF_SIZE];
      serverMode, recvByte, totByte, sizeLo, sizeHi := RECV, 0, 0, 0, 0;
      recvBuffer := new Byte[0];
    }

    function BodySize(): int
      reads this
    {
      Short(sizeLo, sizeHi)
    }

    /** The saved beginning of a frame: one byte in bodySize, or `recvByte` bytes in recvBuffer. */
    ghost function Saved(): seq<Byte>
      reads this, recvBuffer
      requires recvByte >= 2 ==> recvByte <= recvBuffer.Length
    {
      if recvByte < 2 then [sizeLo] else recvBuffer[..recvByte]
    }

    /** The frame that has just been completed; its size prefix lives in bodySize. */
    ghost function Frame(): seq<Byte>
      reads this, recvBuffer
      requires 2 <= BodySize() <= recvBuffer.Length
    {
      [sizeLo, sizeHi] + recvBuffer[2..BodySize()]
    }

    /** What earlier completions left behind. */
    ghost function Pending(): seq<Byte>
      reads this, recvBuffer
      requires serverMode == RECV_MORE && recvByte >= 2 ==> recvByte <= recvBuffer.Length
    {
      if serverMode == RECV_MORE then Saved() else []
    }
  }

  /** `limit` bounds the frame sizes so that a frame fits the buffer and a pool block has room
      to spare for the ten bytes DataCopy reads past the end. */
  ghost predicate Ready(io: PerIoData, pool: CharPool.Pool, limit: int)
    reads io, pool, io.recvBuffer
  {
    && pool.Valid()
    && io as object !in pool.Repr && io.buffer as object !in pool.Repr
    && io.buffer.Length == BUF_SIZE
    && HEADER_SIZE <= limit < BUF_SIZE && limit + 10 <= pool.blockSize
    && (io.serverMode == RECV || io.serverMode == RECV_MORE)
    && (io.serverMode == RECV_MORE ==> io.recvByte >= 1)
    && (io.serverMode == RECV_MORE && io.recvByte >= 2 ==>
      && io.recvBuffer in pool.Lent
      && io.recvByte < io.BodySize() && HEADER_SIZE <= io.BodySize() <= limit
      && io.recvBuffer[0] == io.sizeLo && io.recvBuffer[1] == io.sizeHi)
  }

  /** The blocks a record between two completions still holds. */
  ghost function Held(io: PerIoData): set<array<Byte>>
    reads io
  {
    if io.serverMode == RECV_MORE && io.recvByte >= 2 then {io.recvBuffer} else {}
  }

  /** A forward copy, element by element, which is safe for overlapping left shifts. */
  method CopyForward(src: array<Byte>, first: int, last: int, dst: array<Byte>, at: int)
    requires 0 <= first <= last <= src.Length && 0 <= at && at + (last - first) <= dst.Length
    requires src == dst ==> at <= first
    modifies dst
    ensures forall k :: 0 <= k < dst.Length ==>
              dst[k] == if at <= k < at + (last - first) then old(src[first + (k - at)]) else old(dst[k])
  {
    var i := 0;
    while i < last - first
      invariant 0 <= i <= last - first
      invariant forall k :: 0 <= k < at ==> dst[k] == old(dst[k])
      invariant forall k :: at <= k < at + i ==> dst[k] == old(src[first + (k - at)])
      invariant forall k :: at + i <= k < dst.Length ==> dst[k] == old(dst[k])
    {
      dst[at + i] := src[first + i];
      i := i + 1;
    }
  }

  method Copy(src: array<Byte>, first: int, last: int, dst: array<Byte>, at: int)
    requires 0 <= first <= last <= src.Length && 0 <= at && at + (last - first) <= dst.Length
    requires src == dst ==> at <= first
    modifies dst
    ensures dst[..at] == old(dst[..at])
    ensures dst[at..at + (last - first)] == old(src[first..last])
    ensures dst[at + (last - first)..] == old(dst[at + (last - first)..])
  {
    CopyForward(src, first, last, dst, at);
  }

  /** Everything a call of PacketReading leaves behind: the completed frame and the bytes
      still to be read, or the saved beginning of a frame. */
  ghost function Left(io: PerIoData, remain: int): seq<Byte>
    reads io, io.buffer, io.recvBuffer
    requires remain >= 0 ==> 2 <= io.BodySize() <= io.recvBuffer.Length && remain <= io.buffer.Length
    requires remain < 0 && io.recvByte >= 2 ==> io.recvByte <= io.recvBuffer.Length
  {
    if remain >= 0 then io.Frame() + io.buffer[..remain] else io.Saved()
  }

  /** The state in which a call of PacketReading that returned `remain` leaves the record. */
  ghost predicate Advanced(io: PerIoData, pool: CharPool.Pool, limit: int, remain: int)
    reads io, pool, io.recvBuffer
  {
    && Ready(io, pool, limit) && io.serverMode == RECV
    && (remain >= 0 ==>
      io.recvBuffer in pool.Lent && HEADER_SIZE <= io.BodySize() <= limit)
    && (remain < 0 ==>
      && io.recvByte >= 1
      && (io.recvByte >= 2 ==>
        && io.recvBuffer in pool.Lent
        && io.recvByte < io.BodySize() && HEADER_SIZE <= io.BodySize() <= limit
        && io.recvBuffer[0] == io.sizeLo && io.recvBuffer[1] == io.sizeHi))
  }

  /** Moves the frame at the front of the buffer into `block` and shifts what follows it to
      the front. */
  method TakeFrame(buffer: array<Byte>, n: int, block: array<Byte>, b: int)
    requires buffer != block && 0 <= b <= n <= buffer.Length && b <= block.Length
    modifies buffer, block
    ensures block[..b] == old(buffer[..b])
    ensures buffer[..n - b] == old(buffer[b..n])
  {
    Copy(buffer, 0, b, block, 0);
    if n - b > 0 {
      Copy(buffer, b, n, buffer, 0);
    }
  }

  lemma FrameIsPrefix(io: PerIoData)
    requires 2 <= io.BodySize() <= io.recvBuffer.Length
    requires io.recvBuffer[0] == io.sizeLo && io.recvBuffer[1] == io.sizeHi
    ensures io.Frame() == io.recvBuffer[..io.BodySize()]
  {
  }

  lemma WholeFrameLeft(io: PerIoData, remain: int, chunk: seq<Byte>)
    requires 2 <= io.BodySize() <= |chunk| && io.BodySize() <= io.recvBuffer.Length
    requires 0 <= remain <= io.buffer.Length && io.sizeLo == chunk[0] && io.sizeHi == chunk[1]
    requires io.recvBuffer[..io.BodySize()] == chunk[..io.BodySize()] && io.buffer[..remain] == chunk[io.BodySize()..]
    ensures io.recvBuffer[0] == io.sizeLo && io.recvBuffer[1] == io.sizeHi && Left(io, remain) == chunk
  {
    var b := io.BodySize();
    assert io.recvBuffer[..b][0] == chunk[0] && io.recvBuffer[..b][1] == chunk[1];
    FrameIsPrefix(io);
    assert chunk == chunk[..b] + chunk[b..];
  }

  /** A read at a frame boundary of at least a size prefix. */
  method ReadFrame(io: PerIoData, pool: CharPool.Pool, n: int, ghost limit: int) returns (remain: int)
    requires Ready(io, pool, limit) && io.serverMode == RECV && 2 <= n <= BUF_SIZE
    requires HEADER_SIZE <= SizeOf(io.buffer[..n]) <= limit
    modifies io, io.buffer, pool, pool.Repr
    ensures old(pool.Repr) <= pool.Repr && fresh(pool.Repr - old(pool.Repr))
    ensures Advanced(io, pool, limit, remain)
    ensures remain == n - io.BodySize() == n - Short(old(io.buffer[0]), old(io.buffer[1])) && remain < n
    ensures Left(io, remain) == old(io.buffer[..n])
    ensures pool.Lent == old(pool.Lent) + {io.recvBuffer} && io.recvBuffer !in old(pool.Lent)
    ensures remain < 0 ==> io.recvByte == n
  {
    ghost var chunk := io.buffer[..n];
    io.sizeLo, io.sizeHi := io.buffer[0], io.buffer[1];
    io.recvBuffer := pool.Malloc();
    var b := io.BodySize();
    remain := n - b;
    if remain >= 0 {
      TakeFrame(io.buffer, n, io.recvBuffer, b);
      assert io.recvBuffer[..b] == chunk[..b] && io.buffer[..remain] == chunk[b..];
      WholeFrameLeft(io, remain, chunk);
    } else {
      Copy(io.buffer, 0, n, io.recvBuffer, 0);
      assert io.recvBuffer[..n][0] == chunk[0] && io.recvBuffer[..n][1] == chunk[1];
      io.recvByte := n;
    }
  }

  /** A read at a frame boundary. */
  method ReadFirst(io: PerIoData, pool: CharPool.Pool, n: int, ghost limit: int) returns (remain: int)
    requires Ready(io, pool, limit) && io.serverMode == RECV && 1 <= n <= BUF_SIZE
    requires n >= 2 ==> HEADER_SIZE <= SizeOf(io.buffer[..n]) <= limit
    modifies io, io.buffer, pool, pool.Repr
    ensures old(pool.Repr) <= pool.Repr && fresh(pool.Repr - old(pool.Repr))
    ensures Advanced(io, pool, limit, remain)
    ensures remain < n && Left(io, remain) == old(io.buffer[..n])
    ensures pool.Lent == old(pool.Lent) + if n >= 2 then {io.recvBuffer} else {}
    ensures n >= 2 ==> io.recvBuffer !in old(pool.Lent)
    ensures n >= 2 ==> remain == n - io.BodySize() == n - Short(old(io.buffer[0]), old(io.buffer[1]))
    ensures remain < 0 ==> io.recvByte == n
  {
    if n >= 2 {
      remain := ReadFrame(io, pool, n, limit);
    } else {
      io.sizeLo := io.buffer[0];
      io.recvByte, io.totByte := n, 0;
      remain := -1;
    }
  }

  /** Copies the frame behind its size prefix, and two bytes more, into the block, and brings
      what follows the frame to the front when the chunk is longer than the frame. */
  method FillHeader(buffer: array<Byte>, n: int, block: array<Byte>, b: int)
    requires buffer != block && 1 <= n <= buffer.Length && 2 <= b < buffer.Length && b + 2 <= block.Length
    modifies buffer, block
    ensures block[2..b] == old(buffer[1..b - 1])
    ensures n > b ==> buffer[..n - (b - 1)] == old(buffer[b - 1..n])
  {
    Copy(buffer, 1, b + 1, block, 2);
    assert block[2..b] == block[2..2 + b][..b - 2];
    assert old(buffer[1..b - 1]) == old(buffer[1..b + 1])[..b - 2];
    if n - b > 0 {
      Copy(buffer, b - 1, n, buffer, 0);
      assert buffer[..n - (b - 1)] == buffer[0..0 + (n - (b - 1))];
    }
  }

  /** The branches for one saved header byte, on values. */
  lemma HeaderLeaves(lo: Byte, buffer: seq<Byte>, n: int, rest: seq<Byte>)
    requires Readable([lo], buffer, n)
    requires var b := Short(lo, buffer[0]); rest == if n > b then buffer[b - 1..n] else []
    ensures [lo, buffer[0]] + buffer[1..Short(lo, buffer[0]) - 1] + rest == Leaves([lo], buffer, n)
  {
    var b := Short(lo, buffer[0]);
    assert SizeOf([lo] + buffer) == b;
    assert [lo, buffer[0]] + buffer[1..b - 1] == [lo] + buffer[..b - 1];
  }

  /** A read with one header byte saved. */
  method ReadMoreHeader(io: PerIoData, pool: CharPool.Pool, n: int, ghost limit: int) returns (remain: int)
    requires Ready(io, pool, limit) && io.serverMode == RECV_MORE && io.recvByte < 2 && 1 <= n <= BUF_SIZE
    requires HEADER_SIZE <= Short(io.sizeLo, io.buffer[0]) <= limit
    requires Readable(io.Pending(), io.buffer[..], n)
    modifies io, io.buffer, pool, pool.Repr
    ensures old(pool.Repr) <= pool.Repr && fresh(pool.Repr - old(pool.Repr))
    ensures Advanced(io, pool, limit, remain) && 0 <= remain < n
    ensures pool.Lent == old(pool.Lent) + {io.recvBuffer} && io.recvBuffer !in old(pool.Lent)
    ensures io.BodySize() == Short(old(io.sizeLo), old(io.buffer[0]))
    ensures Left(io, remain) == Leaves(old(io.Pending()), old(io.buffer[..]), n)
  {
    ghost var buffer, lo := io.buffer[..], io.sizeLo;
    io.serverMode := RECV;
    io.sizeHi := io.buffer[0];
    io.recvBuffer := pool.Malloc();
    var b := io.BodySize();
    FillHeader(io.buffer, n, io.recvBuffer, b);
    remain := if n - b > 0 then n - (b - 1) else 0;
    HeaderLeaves(lo, buffer, n, io.buffer[..remain]);
  }

  /** Shifts the first `n` bytes left by two; the last two stay behind as well. */
  method ShiftByTwo(buffer: array<Byte>, n: int)
    requires 2 <= n <= buffer.Length
    modifies buffer
    ensures buffer[..n] == ShiftedByTwo(old(buffer[..n]))
  {
    Copy(buffer, 2, n, buffer, 0);
    assert buffer[..n] == buffer[..n - 2] + buffer[n - 2..][..2];
    assert old(buffer[..n])[n - 2..] == old(buffer[n - 2..])[..2];
    assert old(buffer[..n])[2..] == old(buffer[2..n]);
  }

  /** Appends the missing bytes to the block and moves the buffer as the three branches do. */
  method FillBody(buffer: array<Byte>, n: int, block: array<Byte>, r: int, b: int)
    requires buffer != block && 2 <= n <= buffer.Length && 0 <= r < b <= block.Length && b <= buffer.Length
    modifies buffer, block
    ensures block[..b] == old(block[..r]) + old(buffer[..b - r])
    ensures n > b ==> buffer[..n - (b - r)] == old(buffer[b - r..n])
    ensures n < b ==> buffer[..n] == ShiftedByTwo(old(buffer[..n]))
  {
    Copy(buffer, 0, b - r, block, r);
    assert block[..b] == block[..r] + block[r..r + (b - r)];
    if n - b > 0 {
      Copy(buffer, b - r, n, buffer, 0);
    } else if n - b < 0 {
      ShiftByTwo(buffer, n);
    }
  }

  /** What a record with a completed frame leaves, as the block and the buffer hold it. */
  lemma LeftInBuffer(io: PerIoData, remain: int)
    requires 2 <= io.BodySize() <= io.recvBuffer.Length && 0 <= remain <= io.buffer.Length
    requires io.recvBuffer[0] == io.sizeLo && io.recvBuffer[1] == io.sizeHi
    ensures Left(io, remain) == io.recvBuffer[..io.BodySize()] + io.buffer[..remain]
  {
    FrameIsPrefix(io);
  }

  /** The branches for a saved header: the frame is in the record's block, and what was moved in
      its buffer, which held `buffer` before. */
  lemma BodyLeaves(io: PerIoData, n: int, remain: int, pending: seq<Byte>, buffer: seq<Byte>)
    requires Readable(pending, buffer, n) && |pending| >= 2 && SizeOf(pending) == io.BodySize()
    requires io.BodySize() <= io.recvBuffer.Length && io.buffer.Length == |buffer|
    requires io.recvBuffer[0] == io.sizeLo && io.recvBuffer[1] == io.sizeHi
    requires var b, r := io.BodySize(), |pending|;
             && io.recvBuffer[..b] == pending + buffer[..b - r]
             && (n > b ==> remain == n - (b - r) && io.buffer[..remain] == buffer[b - r..n])
             && (n == b ==> remain == 0)
             && (n < b ==> remain == 2 * n - b && io.buffer[..n] == ShiftedByTwo(buffer[..n]) && io.recvByte == n)
    ensures Left(io, remain) == Leaves(pending, buffer, n)
  {
    var b := io.BodySize();
    assert SizeOf(pending + buffer) == b;
    if remain < 0 {
      assert io.recvBuffer[..n] == io.recvBuffer[..b][..n];
    } else {
      LeftInBuffer(io, remain);
      if n < b {
        assert io.buffer[..remain] == io.buffer[..n][..remain];
      }
    }
  }

  /** A read with at least the header of a frame saved. */
  method ReadMoreBody(io: PerIoData, pool: CharPool.Pool, n: int, ghost limit: int) returns (remain: int)
    requires Ready(io, pool, limit) && io.serverMode == RECV_MORE && 2 <= io.recvByte && 2 <= n <= BUF_SIZE
    requires Readable(io.Pending(), io.buffer[..], n)
    modifies io, io.buffer, io.recvBuffer
    ensures Advanced(io, pool, limit, remain) && remain < n
    ensures io.recvBuffer == old(io.recvBuffer) && io.BodySize() == old(io.BodySize())
    ensures remain < 0 ==> io.recvByte == n
    ensures Left(io, remain) == Leaves(old(io.Pending()), old(io.buffer[..]), n)
  {
    ghost var buffer, pending := io.buffer[..], io.Pending();
    var b, r := io.BodySize(), io.recvByte;
    io.serverMode := RECV;
    FillBody(io.buffer, n, io.recvBuffer, r, b);
    if n - b > 0 {
      remain := n - (b - r);
    } else if n - b == 0 {
      remain := 0;
    } else {
      io.recvByte := n;
      remain := n - (b - io.recvByte);
    }
    ghost var frame := io.recvBuffer[..b];
    assert frame[0] == pending[0] && frame[1] == pending[1];
    BodyLeaves(io, n, remain, pending, buffer);
  }

  /** `n` bytes have arrived, and the frame they begin or go on with is of admissible size. */
  ghost predicate CanRead(io: PerIoData, pool: CharPool.Pool, n: int, limit: int)
    reads io, pool, io.buffer, io.recvBuffer
  {
    && Ready(io, pool, limit) && 1 <= n <= BUF_SIZE
    && (io.serverMode == RECV_MORE && io.recvByte >= 2 ==> 2 <= n)
    && var todo := io.Pending() + io.buffer[..n]; |todo| >= 2 ==> HEADER_SIZE <= SizeOf(todo) <= limit
  }

  lemma CanReadIsReadable(io: PerIoData, pool: CharPool.Pool, n: int, limit: int)
    requires CanRead(io, pool, n, limit)
    ensures Readable(io.Pending(), io.buffer[..], n)
  {
    var pending := io.Pending();
    if pending != [] {
      assert SizeOf(pending + io.buffer[..]) == SizeOf(pending + io.buffer[..n]);
      assert |pending| >= 2 ==> SizeOf(pending + io.buffer[..]) == io.BodySize();
    }
  }

  lemma ReadableSizes(io: PerIoData, pool: CharPool.Pool, n: int, limit: int)
    requires CanRead(io, pool, n, limit)
    ensures io.serverMode == RECV && n >= 2 ==> HEADER_SIZE <= SizeOf(io.buffer[..n]) <= limit
    ensures io.serverMode == RECV_MORE && io.recvByte < 2 ==> HEADER_SIZE <= Short(io.sizeLo, io.buffer[0]) <= limit
  {
    var todo := io.Pending() + io.buffer[..n];
    if io.serverMode == RECV {
      assert todo == io.buffer[..n];
    } else if io.recvByte < 2 {
      assert todo[0] == io.sizeLo && todo[1] == io.buffer[0];
    }
  }

  /** The branches of PacketReading for a positive count. */
  method ReadArrived(io: PerIoData, pool: CharPool.Pool, n: int, ghost limit: int) returns (remain: int)
    requires CanRead(io, pool, n, limit) && Readable(io.Pending(), io.buffer[..], n)
    modifies io, io.buffer, pool, pool.Repr
    ensures old(pool.Repr) <= pool.Repr && fresh(pool.Repr - old(pool.Repr))
    ensures Advanced(io, pool, limit, remain) && remain < n
    ensures Left(io, remain) == Leaves(old(io.Pending()), old(io.buffer[..]), n)
    ensures n >= 2 && old(io.serverMode) == RECV ==> remain == n - Short(old(io.buffer[0]), old(io.buffer[1]))
    ensures pool.Lent == old(pool.Lent - Held(io)) + if remain >= 0 || io.recvByte >= 2 then {io.recvBuffer} else {}
    ensures remain >= 0 || io.recvByte >= 2 ==> io.recvBuffer !in old(pool.Lent - Held(io))
  {
    ReadableSizes(io, pool, n, limit);
    if io.serverMode == RECV {
      assert io.buffer[..n] == io.buffer[..][..n];
      remain := ReadFirst(io, pool, n, limit);
    } else if io.recvByte < 2 {
      remain := ReadMoreHeader(io, pool, n, limit);
    } else {
      remain := ReadMoreBody(io, pool, n, limit);
    }
  }

  /** Reads one frame, or saves the beginning of one. A count that is not positive changes
      nothing. Otherwise the call leaves what the branches say, and that is the saved and the new
      bytes, no more and no less, if and only if the chunk is one it can resume with; at a frame
      boundary it always is, and what remains is the count less the frame's size, whose low byte
      comes first: nothing, when the bytes are one frame. */
  method PacketReading(io: PerIoData, pool: CharPool.Pool, n: int, ghost limit: int) returns (remain: int)
    requires if n >= 1 then CanRead(io, pool, n, limit) else Ready(io, pool, limit) && io.serverMode == RECV
    modifies io, io.buffer, pool, pool.Repr
    ensures old(pool.Repr) <= pool.Repr && fresh(pool.Repr - old(pool.Repr))
    ensures n <= 0 ==> remain == 0 && unchanged(io) && unchanged(io.buffer) && pool.Lent == old(pool.Lent)
    ensures n >= 1 ==> Advanced(io, pool, limit, remain) && remain < n
    ensures n >= 1 ==>
      && Readable(old(io.Pending()), old(io.buffer[..]), n)
      && Left(io, remain) == Leaves(old(io.Pending()), old(io.buffer[..]), n)
    ensures n >= 1 ==>
      (Left(io, remain) == old(io.Pending()) + old(io.buffer[..n])
       <==> Resumes(old(io.Pending()), old(io.buffer[..n])))
    ensures n >= 2 && old(io.serverMode) == RECV ==>
      remain == n - (old(io.buffer[0]) as int + 256 * old(io.buffer[1]) as int)
    ensures n >= 1 ==>
      pool.Lent == old(pool.Lent - Held(io)) + if remain >= 0 || io.recvByte >= 2 then {io.recvBuffer} else {}
    ensures n >= 1 && (remain >= 0 || io.recvByte >= 2) ==> io.recvBuffer !in old(pool.Lent - Held(io))
  {
    if n <= 0 {
      return 0;
    }
    CanReadIsReadable(io, pool, n, limit);
    LeavesIff(io.Pending(), io.buffer[..], n);
    assert io.buffer[..][..n] == io.buffer[..n];
    if n >= 2 && io.serverMode == RECV {
      ReadableSizes(io, pool, n, limit);
      ShortPositive(io.buffer[0], io.buffer[1]);
    }
    remain := ReadArrived(io, pool, n, limit);
  }

  /** Copies `len` bytes from behind the header; the first `size` of them are what counts. */
  method CopyMessage(block: array<Byte>, len: int, copy: array<Byte>, ghost size: int)
    requires block != copy && 0 <= size <= len <= copy.Length && HEADER_SIZE + len <= block.Length
    modifies copy
    ensures copy[..size] == block[HEADER_SIZE..HEADER_SIZE + size]
  {
    Copy(block, HEADER_SIZE, HEADER_SIZE + len, copy, 0);
    assert copy[..size] == copy[0..0 + len][..size];
    assert block[HEADER_SIZE..HEADER_SIZE + size] == block[HEADER_SIZE..HEADER_SIZE + len][..size];
  }

  /** Copies a completed frame out and gives its block back. */
  method DataCopy(io: PerIoData, pool: CharPool.Pool, ghost limit: int)
    returns (status: int, direction: int, msg: seq<Byte>)
    requires Advanced(io, pool, limit, 0)
    modifies pool, pool.Repr
    ensures pool.Valid() && old(pool.Repr) <= pool.Repr && fresh(pool.Repr - old(pool.Repr))
    ensures pool.Lent == old(pool.Lent) - {io.recvBuffer}
    ensures status == Int32(old(io.Frame())[2..6]) && direction == Int32(old(io.Frame())[6..10])
    ensures status == Decode(old(io.Frame())).status && direction == Decode(old(io.Frame())).direction
    ensures 0 in old(io.Frame())[10..] ==> msg == Decode(old(io.Frame())).msg
    ensures 0 !in old(io.Frame())[10..] ==> old(io.Frame())[10..] <= msg
  {
    var b := io.BodySize();
    ghost var frame := io.Frame();
    FrameParts(io);
    status := Int32(io.recvBuffer[2..6]);
    direction := Int32(io.recvBuffer[6..10]);
    var copy := pool.Malloc();
    CopyMessage(io.recvBuffer, if b < BUF_SIZE then b else BUF_SIZE, copy, b - HEADER_SIZE);
    pool.Free(io.recvBuffer);
    msg := CString(copy[..]);
    if 0 in frame[10..] {
      CStringPrefix(frame[10..], copy[..]);
    } else {
      CStringUnterminated(frame[10..], copy[..]);
    }
    pool.Free(copy);
  }

  lemma FrameParts(io: PerIoData)
    requires HEADER_SIZE <= io.BodySize() <= io.recvBuffer.Length
    ensures var f := io.Frame();
            && f[2..6] == io.recvBuffer[2..6] && f[6..10] == io.recvBuffer[6..10]
            && f[10..] == io.recvBuffer[10..io.BodySize()]
  {
  }

  /** Asks for the rest of a frame into the same record. */
  method RecvMore(io: PerIoData)
    modifies io, io.buffer
    ensures io.serverMode == RECV_MORE && forall i :: 0 <= i < io.buffer.Length ==> io.buffer[i] == 0
    ensures io.recvByte == old(io.recvByte) && io.recvBuffer == old(io.recvBuffer)
    ensures io.sizeLo == old(io.sizeLo) && io.sizeHi == old(io.sizeHi)
  {
    forall i | 0 <= i < io.buffer.Length {
      io.buffer[i] := 0;
    }
    io.serverMode := RECV_MORE;
  }

  /** Starts over with a record that has nothing saved. */
  method Recv(io: PerIoData)
    modifies io
    ensures io.serverMode == RECV && io.recvBuffer == old(io.recvBuffer)
    ensures io.recvByte == 0 && io.totByte == 0 && io.BodySize() == 0 && io.Pending() == []
  {
    io.serverMode, io.recvByte, io.totByte, io.sizeLo, io.sizeHi := RECV, 0, 0, 0, 0;
  }

  ghost predicate JobOf(job: JobData, frame: seq<Byte>, sock: nat) {
    && |frame| >= HEADER_SIZE
    && job.socket == sock
    && job.nowStatus == Decode(frame).status && job.direction == Decode(frame).direction
    && (0 in frame[10..] ==> job.msg == Text(Decode(frame).msg))
  }

  ghost predicate JobsOf(jobs: seq<JobData>, frames: seq<seq<Byte>>, sock: nat) {
    |jobs| == |frames| && forall i :: 0 <= i < |jobs| ==> JobOf(jobs[i], frames[i], sock)
  }

  /** What is still to be parsed in the middle of a completion. */
  ghost function Todo(io: PerIoData, remain: int): seq<Byte>
    reads io, io.buffer, io.recvBuffer
    requires io.serverMode == RECV_MORE && io.recvByte >= 2 ==> io.recvByte <= io.recvBuffer.Length
    requires 0 <= remain <= io.buffer.Length
  {
    io.Pending() + io.buffer[..remain]
  }

  lemma JobsOfAppend(a: seq<JobData>, b: seq<JobData>, f: seq<seq<Byte>>, g: seq<seq<Byte>>, sock: nat)
    requires JobsOf(a, f, sock) && JobsOf(b, g, sock)
    ensures JobsOf(a + b, f + g, sock)
  {
  }

  /** What the next read of `n` bytes will leave. */
  ghost function Coming(io: PerIoData, pool: CharPool.Pool, n: int, limit: int): seq<Byte>
    reads io, pool, io.buffer, io.recvBuffer
    requires CanRead(io, pool, n, limit)
  {
    CanReadIsReadable(io, pool, n, limit);
    Leaves(io.Pending(), io.buffer[..], n)
  }

  lemma ComingIff(io: PerIoData, pool: CharPool.Pool, n: int, limit: int)
    requires CanRead(io, pool, n, limit)
    ensures Coming(io, pool, n, limit) == Todo(io, n) <==> Resumes(io.Pending(), io.buffer[..n])
  {
    CanReadIsReadable(io, pool, n, limit);
    LeavesIff(io.Pending(), io.buffer[..], n);
    assert io.buffer[..][..n] == io.buffer[..n];
  }

  lemma ComingAtBoundary(io: PerIoData, pool: CharPool.Pool, n: int, limit: int)
    requires Ready(io, pool, limit) && io.serverMode == RECV && 1 <= n <= BUF_SIZE && WellFramed(io.buffer[..n], limit)
    ensures CanRead(io, pool, n, limit) && Coming(io, pool, n, limit) == io.buffer[..n]
  {
    assert [] + io.buffer[..n] == io.buffer[..n];
    assert io.buffer[..][..n] == io.buffer[..n];
  }

  /** A chunk to resume with can be read. */
  lemma ResumingCanRead(io: PerIoData, pool: CharPool.Pool, n: int, limit: int)
    requires Ready(io, pool, limit) && 1 <= n <= BUF_SIZE
    requires WellFramed(Todo(io, n), limit) && Resumes(io.Pending(), io.buffer[..n])
    ensures CanRead(io, pool, n, limit) && Coming(io, pool, n, limit) == Todo(io, n)
  {
    if io.serverMode == RECV_MORE && io.recvByte >= 2 {
      assert PendingSize(io.Pending(), io.buffer[..n]) == io.BodySize();
    }
    ComingIff(io, pool, n, limit);
  }

  /** Makes a job of the frame that has just been completed. */
  method TakeJob(io: PerIoData, pool: CharPool.Pool, sock: nat, ghost limit: int)
    returns (job: JobData, ghost frame: seq<Byte>)
    requires Advanced(io, pool, limit, 0)
    modifies pool, pool.Repr
    ensures old(pool.Repr) <= pool.Repr && fresh(pool.Repr - old(pool.Repr))
    ensures Ready(io, pool, limit) && pool.Lent == old(pool.Lent) - {io.recvBuffer}
    ensures frame == old(io.Frame()) && |frame| >= 2 && SizeOf(frame) == |frame| && JobOf(job, frame, sock)
  {
    frame := io.Frame();
    var status, direction, msg := DataCopy(io, pool, limit);
    job := JobData(sock, direction, status, Text(msg));
  }

  lemma SavedIsPartial(io: PerIoData, pool: CharPool.Pool, limit: int, remain: int)
    requires Advanced(io, pool, limit, remain) && remain < 0
    ensures !StartsWithFrame(io.Saved())
  {
    assert io.recvByte >= 2 ==> SizeOf(io.Saved()) == io.BodySize();
  }

  /** The loop's call of PacketReading. */
  method ReadNext(io: PerIoData, pool: CharPool.Pool, n: int, ghost limit: int) returns (remain: int)
    requires CanRead(io, pool, n, limit)
    modifies io, io.buffer, pool, pool.Repr
    ensures old(pool.Repr) <= pool.Repr && fresh(pool.Repr - old(pool.Repr))
    ensures Advanced(io, pool, limit, remain) && remain < n
    ensures Left(io, remain) == old(Coming(io, pool, n, limit))
    ensures pool.Lent == old(pool.Lent - Held(io)) + if remain >= 0 || io.recvByte >= 2 then {io.recvBuffer} else {}
    ensures remain >= 0 || io.recvByte >= 2 ==> io.recvBuffer !in old(pool.Lent - Held(io))
  {
    remain := PacketReading(io, pool, n, limit);
  }

  /** One round of the receive loop: a frame is read and copied out, or its beginning saved. */
  method ReceiveOne(io: PerIoData, pool: CharPool.Pool, sock: nat, n: int, ghost limit: int)
    returns (remain: int, job: JobData, ghost frame: seq<Byte>, ghost rest: seq<Byte>)
    requires CanRead(io, pool, n, limit)
    modifies io, io.buffer, pool, pool.Repr
    ensures old(pool.Repr) <= pool.Repr && fresh(pool.Repr - old(pool.Repr))
    ensures Ready(io, pool, limit) && io.serverMode == RECV && remain < n
    ensures remain >= 0 ==>
      && |frame| >= 2 && SizeOf(frame) == |frame| && JobOf(job, frame, sock)
      && frame + rest == old(Coming(io, pool, n, limit)) && rest == io.buffer[..remain]
    ensures remain < 0 ==>
      && Advanced(io, pool, limit, remain)
      && io.Saved() == rest == old(Coming(io, pool, n, limit)) && !StartsWithFrame(rest)
    ensures pool.Lent - Kept(io, remain) == old(pool.Lent - Held(io))
  {
    remain := ReadNext(io, pool, n, limit);
    job, frame, rest := JobData(sock, 0, 0, []), [], [];
    if remain >= 0 {
      rest := io.buffer[..remain];
      job, frame := TakeJob(io, pool, sock, limit);
    } else {
      rest := io.Saved();
      SavedIsPartial(io, pool, limit, remain);
    }
  }

  /** The blocks a record in the middle of a completion still holds. */
  ghost function Kept(io: PerIoData, remain: int): set<array<Byte>>
    reads io
  {
    if remain > 0 then Held(io) else if remain < 0 && io.recvByte >= 2 then {io.recvBuffer} else {}
  }

  /** The state of the receive loop: `frames` have been cut off `total`, and what is left is
      in the buffer, or saved, or nothing. */
  ghost predicate Midway(io: PerIoData, pool: CharPool.Pool, limit: int,
                         total: seq<Byte>, frames: seq<seq<Byte>>, remain: int)
    reads io, io.buffer, io.recvBuffer, pool
  {
    && Ready(io, pool, limit) && remain <= BUF_SIZE
    && (remain > 0 ==>
      CanRead(io, pool, remain, limit) && Halfway(total, frames, Coming(io, pool, remain, limit), limit))
    && (remain == 0 ==> Halfway(total, frames, [], limit))
    && (remain < 0 ==>
      && Advanced(io, pool, limit, remain)
      && Halfway(total, frames, io.Saved(), limit) && !StartsWithFrame(io.Saved()))
  }

  /** One round of the loop, with the job it yields if it yields one. */
  method ReceiveStep(io: PerIoData, pool: CharPool.Pool, sock: nat, n: int, ghost limit: int,
                     ghost total: seq<Byte>, ghost frames: seq<seq<Byte>>)
    returns (remain: int, packets: seq<JobData>, ghost cut: seq<seq<Byte>>)
    requires Midway(io, pool, limit, total, frames, n) && n > 0
    modifies io, io.buffer, pool, pool.Repr
    ensures old(pool.Repr) <= pool.Repr && fresh(pool.Repr - old(pool.Repr))
    ensures Midway(io, pool, limit, total, frames + cut, remain) && remain < n
    ensures JobsOf(packets, cut, sock)
    ensures pool.Lent - Kept(io, remain) == old(pool.Lent - Held(io))
  {
    var job;
    ghost var frame, rest;
    remain, job, frame, rest := ReceiveOne(io, pool, sock, n, limit);
    if remain >= 0 {
      HalfwayStep(total, frames, frame, rest, limit);
      packets, cut := [job], [frame];
      if remain > 0 {
        ComingAtBoundary(io, pool, remain, limit);
      }
    } else {
      packets, cut := [], [];
      assert frames + cut == frames;
    }
  }

  /** The end of a completion: the rest of a frame is asked for, or a fresh start made. */
  method Conclude(io: PerIoData, pool: CharPool.Pool, remain: int, ghost limit: int,
                  ghost total: seq<Byte>, ghost frames: seq<seq<Byte>>)
    returns (recvMore: bool)
    requires Midway(io, pool, limit, total, frames, remain) && remain <= 0
    modifies io, io.buffer
    ensures Ready(io, pool, limit) && (recvMore <==> remain < 0) && (recvMore <==> io.Pending() != [])
    ensures Parse(total) == Parsed(frames, io.Pending())
    ensures Held(io) == old(Kept(io, remain))
  {
    recvMore := remain < 0;
    if remain == 0 {
      HalfwayEnd(total, frames, [], limit);
      Recv(io);
    } else {
      HalfwayEnd(total, frames, io.Saved(), limit);
      RecvMore(io);
    }
  }

  /** One completion of `n` bytes. Every frame that is whole by now is turned into a job, in
      order, and what is left over is saved, exactly as the pure parse says of what the first read
      leaves; and that is the parse of the saved and the new bytes if and only if the chunk is one
      to resume with. One pool block stays lent out exactly when at least two bytes were saved. */
  method Receive(io: PerIoData, pool: CharPool.Pool, sock: nat, n: int, ghost limit: int)
    returns (packetQueue: seq<JobData>, recvMore: bool, ghost frames: seq<seq<Byte>>)
    requires CanRead(io, pool, n, limit) && WellFramed(Coming(io, pool, n, limit), limit)
    modifies io, io.buffer, pool, pool.Repr
    ensures old(pool.Repr) <= pool.Repr && fresh(pool.Repr - old(pool.Repr))
    ensures Ready(io, pool, limit)
    ensures Parsed(frames, io.Pending()) == Parse(old(Coming(io, pool, n, limit)))
    ensures Parsed(frames, io.Pending()) == Parse(old(Todo(io, n))) <==> old(Resumes(io.Pending(), io.buffer[..n]))
    ensures JobsOf(packetQueue, frames, sock)
    ensures recvMore <==> io.Pending() != []
    ensures pool.Lent - Held(io) == old(pool.Lent - Held(io))
  {
    ghost var total := Coming(io, pool, n, limit);
    ComingIff(io, pool, n, limit);
    ParseDetermines(total, Todo(io, n));
    packetQueue, recvMore, frames := ReceiveLoop(io, pool, sock, n, limit, total);
  }

  /** The loop over what a completion brought, until nothing is left or a beginning is saved. */
  method ReceiveLoop(io: PerIoData, pool: CharPool.Pool, sock: nat, n: int, ghost limit: int, ghost total: seq<Byte>)
    returns (packetQueue: seq<JobData>, recvMore: bool, ghost frames: seq<seq<Byte>>)
    requires CanRead(io, pool, n, limit) && Coming(io, pool, n, limit) == total && WellFramed(total, limit)
    modifies io, io.buffer, pool, pool.Repr
    ensures old(pool.Repr) <= pool.Repr && fresh(pool.Repr - old(pool.Repr))
    ensures Ready(io, pool, limit)
    ensures Parsed(frames, io.Pending()) == Parse(total)
    ensures JobsOf(packetQueue, frames, sock)
    ensures recvMore <==> io.Pending() != []
    ensures pool.Lent - Held(io) == old(pool.Lent - Held(io))
  {
    ghost var lent := pool.Lent - Held(io);
    var remainByte := n;
    packetQueue, frames := [], [];
    HalfwayStart(total, limit);
    while remainByte > 0
      invariant old(pool.Repr) <= pool.Repr && fresh(pool.Repr - old(pool.Repr))
      invariant Midway(io, pool, limit, total, frames, remainByte)
      invariant JobsOf(packetQueue, frames, sock)
      invariant pool.Lent - Kept(io, remainByte) == lent
      decreases remainByte
    {
      var packets;
      ghost var cut;
      remainByte, packets, cut := ReceiveStep(io, pool, sock, remainByte, limit, total, frames);
      JobsOfAppend(packetQueue, packets, frames, cut, sock);
      packetQueue, frames := packetQueue + packets, frames + cut;
    }
    recvMore := Conclude(io, pool, remainByte, limit, total, frames);
  }

  /** The operating system's part of a completion. */
  method Arrive(io: PerIoData, chunk: seq<Byte>)
    requires |chunk| <= io.buffer.Length
    modifies io.buffer
    ensures io.buffer[..|chunk|] == chunk
  {
    forall i | 0 <= i < |chunk| {
      io.buffer[i] := chunk[i];
    }
  }

  lemma PendingIsIncomplete(io: PerIoData, pool: CharPool.Pool, limit: int)
    requires Ready(io, pool, limit)
    ensures Parse(io.Pending()) == Parsed([], io.Pending())
  {
    if io.serverMode == RECV_MORE && io.recvByte >= 2 {
      assert SizeOf(io.Pending()) == io.BodySize();
    }
  }

  /** The law of reassembly for one read of one completion: what the call leaves parses into the
      frames and the tail that the saved and the new bytes parse into exactly if the chunk is one
      to resume with. */
  method ReadChunk(io: PerIoData, pool: CharPool.Pool, chunk: seq<Byte>, ghost limit: int) returns (remain: int)
    requires Ready(io, pool, limit) && 1 <= |chunk| <= BUF_SIZE
    requires io.serverMode == RECV_MORE && io.recvByte >= 2 ==> 2 <= |chunk|
    requires var todo := io.Pending() + chunk; |todo| >= 2 ==> HEADER_SIZE <= SizeOf(todo) <= limit
    modifies io, io.buffer, pool, pool.Repr
    ensures Advanced(io, pool, limit, remain) && remain < |chunk|
    ensures Left(io, remain) == old(io.Pending()) + chunk <==> Resumes(old(io.Pending()), chunk)
    ensures Parse(Left(io, remain)) == Parse(old(io.Pending()) + chunk) <==> Resumes(old(io.Pending()), chunk)
  {
    ghost var pending := io.Pending();
    Arrive(io, chunk);
    assert io.Pending() == pending;
    remain := PacketReading(io, pool, |chunk|, limit);
    ParseDetermines(Left(io, remain), pending + chunk);
  }

  lemma LoneFrame(frame: seq<Byte>)
    requires |frame| >= 2 && SizeOf(frame) == |frame|
    ensures Parse(frame) == Parsed([frame], [])
  {
    ParseFrame(frame, []);
    assert frame + [] == frame;
  }

  /** Saves the first piece of a frame. */
  method ReadFirstPiece(io: PerIoData, pool: CharPool.Pool, frame: seq<Byte>, k: int, ghost limit: int)
    requires Ready(io, pool, limit) && io.serverMode == RECV
    requires HEADER_SIZE <= |frame| == SizeOf(frame) <= limit && 1 <= k < |frame|
    modifies io, io.buffer, pool, pool.Repr
    ensures old(pool.Repr) <= pool.Repr && fresh(pool.Repr - old(pool.Repr))
    ensures Ready(io, pool, limit) && io.serverMode == RECV_MORE && io.Pending() == frame[..k]
    ensures io.recvByte >= 2 ==> k >= 2
  {
    Arrive(io, frame[..k]);
    assert k >= 2 ==> SizeOf(io.buffer[..k]) == |frame|;
    var remain := ReadFirst(io, pool, k, limit);
    RecvMore(io);
  }

  /** A lone frame that arrives in two pieces comes out exactly if the first piece is one byte or
      half of the frame. */
  method ReadInTwoPieces(io: PerIoData, pool: CharPool.Pool, frame: seq<Byte>, k: int, ghost limit: int)
    returns (remain: int)
    requires Ready(io, pool, limit) && io.serverMode == RECV
    requires HEADER_SIZE <= |frame| == SizeOf(frame) <= limit
    requires 1 <= k < |frame| && (k == 1 || k <= |frame| - 2)
    modifies io, io.buffer, pool, pool.Repr
    ensures Advanced(io, pool, limit, remain) && remain < |frame|
    ensures Left(io, remain) == frame <==> k == 1 || 2 * k == |frame|
    ensures Parse(Left(io, remain)) == Parsed([frame], []) <==> k == 1 || 2 * k == |frame|
  {
    assert frame[..k] + frame[k..] == frame;
    FrameInTwoPieces(frame, k);
    LoneFrame(frame);
    ReadFirstPiece(io, pool, frame, k, limit);
    remain := ReadChunk(io, pool, frame[k..], limit);
  }

  /** A completion that brings `chunk`. */
  method ReceiveChunk(io: PerIoData, pool: CharPool.Pool, sock: nat, chunk: seq<Byte>, ghost limit: int)
    returns (packetQueue: seq<JobData>, recvMore: bool, ghost frames: seq<seq<Byte>>)
    requires Ready(io, pool, limit) && 1 <= |chunk| <= BUF_SIZE
    requires WellFramed(io.Pending() + chunk, limit) && Resumes(io.Pending(), chunk)
    modifies io, io.buffer, pool, pool.Repr
    ensures old(pool.Repr) <= pool.Repr && fresh(pool.Repr - old(pool.Repr))
    ensures Ready(io, pool, limit)
    ensures Parsed(frames, io.Pending()) == Parse(old(io.Pending()) + chunk)
    ensures JobsOf(packetQueue, frames, sock)
    ensures pool.Lent - Held(io) == old(pool.Lent - Held(io))
  {
    ghost var pending := io.Pending();
    Arrive(io, chunk);
    assert io.Pending() == pending;
    ResumingCanRead(io, pool, |chunk|, limit);
    packetQueue, recvMore, frames := Receive(io, pool, sock, |chunk|, limit);
  }

  /** The record can go through all of `chunks`. */
  ghost predicate CanReceive(io: PerIoData, pool: CharPool.Pool, limit: int, chunks: seq<seq<Byte>>)
    reads io, pool, io.recvBuffer
  {
    && Ready(io, pool, limit)
    && ResumesAll(io.Pending(), chunks)
    && WellFramed(io.Pending() + Flatten(chunks), limit)
  }

  /** The next completion of a run of which `all` is to be the outcome. */
  method ReceiveNext(io: PerIoData, pool: CharPool.Pool, sock: nat, chunks: seq<seq<Byte>>, ghost limit: int,
                     ghost all: Parsed, ghost done: seq<seq<Byte>>)
    returns (packetQueue: seq<JobData>, ghost frames: seq<seq<Byte>>)
    requires chunks != [] && CanReceive(io, pool, limit, chunks) && Underway(all, done, io.Pending(), chunks)
    modifies io, io.buffer, pool, pool.Repr
    ensures old(pool.Repr) <= pool.Repr && fresh(pool.Repr - old(pool.Repr))
    ensures CanReceive(io, pool, limit, chunks[1..]) && Underway(all, done + frames, io.Pending(), chunks[1..])
    ensures JobsOf(packetQueue, frames, sock)
    ensures pool.Lent - Held(io) == old(pool.Lent - Held(io))
  {
    WellFramedNextChunk(io.Pending(), chunks, limit);
    UnderwayStep(all, done, io.Pending(), chunks);
    var recvMore;
    packetQueue, recvMore, frames := ReceiveChunk(io, pool, sock, chunks[0], limit);
  }

  /** The completions of one connection, one after the other. */
  method ReceiveEach(io: PerIoData, pool: CharPool.Pool, sock: nat, chunks: seq<seq<Byte>>, ghost limit: int)
    returns (jobs: seq<JobData>, ghost frames: seq<seq<Byte>>)
    requires CanReceive(io, pool, limit, chunks)
    modifies io, io.buffer, pool, pool.Repr
    ensures Ready(io, pool, limit)
    ensures Parsed(frames, io.Pending()) == Reassemble(old(io.Pending()), chunks)
    ensures JobsOf(jobs, frames, sock)
    ensures pool.Lent - Held(io) == old(pool.Lent - Held(io))
  {
    ghost var all, lent := Reassemble(io.Pending(), chunks), pool.Lent - Held(io);
    UnderwayStart(io.Pending(), chunks);
    jobs, frames := [], [];
    var todo := chunks;
    while todo != []
      invariant old(pool.Repr) <= pool.Repr && fresh(pool.Repr - old(pool.Repr))
      invariant CanReceive(io, pool, limit, todo) && Underway(all, frames, io.Pending(), todo)
      invariant JobsOf(jobs, frames, sock) && pool.Lent - Held(io) == lent
      decreases todo
    {
      var packetQueue;
      ghost var cut;
      packetQueue, cut := ReceiveNext(io, pool, sock, todo, limit, all, frames);
      JobsOfAppend(jobs, packetQueue, frames, cut, sock);
      jobs, frames, todo := jobs + packetQueue, frames + cut, todo[1..];
    }
    UnderwayEnd(all, frames, io.Pending());
  }

  /** A whole run of completions on one connection: the frames handed on and the tail still
      saved are the simple parse of everything that arrived, and of the pool's blocks only the
      one that keeps the tail is still out. */
  method ReceiveAll(io: PerIoData, pool: CharPool.Pool, sock: nat, chunks: seq<seq<Byte>>, ghost limit: int)
    returns (jobs: seq<JobData>, ghost frames: seq<seq<Byte>>)
    requires CanReceive(io, pool, limit, chunks)
    modifies io, io.buffer, pool, pool.Repr
    ensures Ready(io, pool, limit)
    ensures Parsed(frames, io.Pending()) == Parse(old(io.Pending()) + Flatten(chunks))
    ensures JobsOf(jobs, frames, sock)
    ensures pool.Lent == old(pool.Lent - Held(io)) + Held(io)
  {
    PendingIsIncomplete(io, pool, limit);
    ReassembleIsParse(io.Pending(), chunks);
    jobs, frames := ReceiveEach(io, pool, sock, chunks, limit);
  }

  lemma JobsOfEncoded(ps: seq<Packet>, frames: seq<seq<Byte>>, jobs: seq<JobData>, sock: nat)
    requires forall p <- ps :: Sendable(p, 32767)
    requires frames == EncodeAll(ps) && JobsOf(jobs, frames, sock)
    ensures |jobs| == |ps|
    ensures forall i :: 0 <= i < |ps| ==> jobs[i] == JobData(sock, ps[i].direction, ps[i].status, Text(ps[i].msg))
  {
    forall i | 0 <= i < |ps|
      ensures jobs[i] == JobData(sock, ps[i].direction, ps[i].status, Text(ps[i].msg))
    {
      var f := Encode(ps[i]);
      DecodeEncode(ps[i]);
      EncodeShape(ps[i]);
      assert f[10..][|ps[i].msg|] == 0;
      assert JobOf(jobs[i], frames[i], sock);
    }
  }

  lemma NothingHeld(io: PerIoData, pool: CharPool.Pool, limit: int)
    requires Ready(io, pool, limit) && io.Pending() == []
    ensures Held(io) == {}
  {
    assert io.serverMode == RECV;
  }

  lemma PacketsCanBeReceived(io: PerIoData, pool: CharPool.Pool, limit: int, chunks: seq<seq<Byte>>, ps: seq<Packet>)
    requires Ready(io, pool, limit) && io.Pending() == []
    requires forall p <- ps :: Sendable(p, 32767) && |p.msg| + 11 <= limit
    requires Flatten(chunks) == Flatten(EncodeAll(ps)) && ResumesAll([], chunks)
    ensures CanReceive(io, pool, limit, chunks) && Held(io) == {}
    ensures Parse(io.Pending() + Flatten(chunks)) == Parsed(EncodeAll(ps), [])
  {
    ParseEncoded(ps, limit);
    assert [] + Flatten(chunks) == Flatten(chunks);
    NothingHeld(io, pool, limit);
  }

  /** From a sender's packets to the receiver's jobs: the packets are laid out end to end and
      arrive in chunks that the receiver can resume with. Then nothing is left over, every packet
      has become a job with its status, direction and text, in order, and all blocks are back. */
  method ReceivePackets(io: PerIoData, pool: CharPool.Pool, sock: nat, chunks: seq<seq<Byte>>,
                        ghost limit: int, ghost ps: seq<Packet>)
    returns (jobs: seq<JobData>)
    requires Ready(io, pool, limit) && io.Pending() == []
    requires forall p <- ps :: Sendable(p, 32767) && |p.msg| + 11 <= limit
    requires Flatten(chunks) == Flatten(EncodeAll(ps)) && ResumesAll([], chunks)
    modifies io, io.buffer, pool, pool.Repr
    ensures Ready(io, pool, limit) && io.Pending() == [] && pool.Lent == old(pool.Lent)
    ensures |jobs| == |ps|
    ensures forall i :: 0 <= i < |ps| ==> jobs[i] == JobData(sock, ps[i].direction, ps[i].status, Text(ps[i].msg))
  {
    PacketsCanBeReceived(io, pool, limit, chunks, ps);
    ghost var frames;
    jobs, frames := ReceiveAll(io, pool, sock, chunks, limit);
    NothingHeld(io, pool, limit);
    JobsOfEncoded(ps, frames, jobs, sock);
  }
}
