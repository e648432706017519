/** The stream of length-prefixed frames as a pure parse, and the frame layout. */
module Wire {
  import opened Bytes

  const BUF_SIZE: int := 4096

  /** The frame length includes its own two-byte prefix, so a frame is at least this long. */
  const HEADER_SIZE: int := 10

  type Frame = seq<Byte>

  datatype Parsed = Parsed(frames: seq<Frame>, tail: seq<Byte>)

  function SizeOf(s: seq<Byte>): int
    requires |s| >= 2
  {
    Short(s[0], s[1])
  }

  predicate StartsWithFrame(s: seq<Byte>) {
    |s| >= 2 && 2 <= SizeOf(s) <= |s|
  }

  /** Cuts a byte stream into whole frames and the proper-prefix tail that is left. */
  function Parse(s: seq<Byte>): Parsed {
    if !StartsWithFrame(s) then
      Parsed([], s)
    else
      var rest := Parse(s[SizeOf(s)..]);
      Parsed([s[..SizeOf(s)]] + rest.frames, rest.tail)
  }

  /** Every size prefix the parse reads is at least a header and at most `limit`. */
  predicate WellFramed(s: seq<Byte>, limit: int) {
    |s| < 2 ||
    (HEADER_SIZE <= SizeOf(s) <= limit && (|s| < SizeOf(s) || WellFramed(s[SizeOf(s)..], limit)))
  }

  /** A whole frame in front is cut off first. */
  lemma ParseFrame(f: Frame, rest: seq<Byte>)
    requires |f| >= 2 && SizeOf(f) == |f|
    ensures StartsWithFrame(f + rest) && SizeOf(f + rest) == |f|
    ensures Parse(f + rest) == Parsed([f] + Parse(rest).frames, Parse(rest).tail)
  {
    var s := f + rest;
    assert SizeOf(s) == |f|;
    assert s[..|f|] == f && s[|f|..] == rest;
  }

  lemma SplitFrame(s: seq<Byte>) returns (f: Frame, rest: seq<Byte>)
    requires StartsWithFrame(s)
    ensures s == f + rest && |f| >= 2 && SizeOf(f) == |f| == SizeOf(s) && |rest| < |s|
  {
    f, rest := s[..SizeOf(s)], s[SizeOf(s)..];
  }

  lemma {:induction false} ParseConserves(s: seq<Byte>)
    ensures Flatten(Parse(s).frames) + Parse(s).tail == s
    decreases |s|
  {
    if !StartsWithFrame(s) {
    } else {
      var f, rest := SplitFrame(s);
      ParseConserves(rest);
      ParseFrame(f, rest);
      FlattenCons(f, Parse(rest).frames);
      Assoc(f, Flatten(Parse(rest).frames), Parse(rest).tail);
    }
  }

  /** Different bytes parse differently. */
  lemma ParseDetermines(a: seq<Byte>, b: seq<Byte>)
    ensures Parse(a) == Parse(b) <==> a == b
  {
    ParseConserves(a);
    ParseConserves(b);
  }

  lemma {:induction false} ParseTail(s: seq<Byte>)
    ensures Parse(Parse(s).tail) == Parsed([], Parse(s).tail)
  {
    if !StartsWithFrame(s) {
    } else {
      ParseTail(s[SizeOf(s)..]);
    }
  }

  /** Parsing can stop anywhere and resume from the tail. */
  lemma {:induction false} ParseAppend(a: seq<Byte>, b: seq<Byte>)
    ensures var p := Parse(a); var q := Parse(p.tail + b);
            Parse(a + b) == Parsed(p.frames + q.frames, q.tail)
    decreases |a|
  {
    if StartsWithFrame(a) {
      var f, rest := SplitFrame(a);
      ParseAppend(rest, b);
      ParseFrame(f, rest);
      Assoc(f, rest, b);
      ParseFrame(f, rest + b);
      var p := Parse(rest);
      Assoc([f], p.frames, Parse(p.tail + b).frames);
    } else {
      NoFrames(Parse(a + b));
    }
  }

  lemma NoFrames(p: Parsed)
    ensures [] + p.frames == p.frames && p.frames + [] == p.frames
  {
  }

  lemma {:induction false} WellFramedAppend(a: seq<Byte>, b: seq<Byte>, limit: int)
    requires WellFramed(a + b, limit)
    ensures WellFramed(a, limit) && WellFramed(Parse(a).tail + b, limit)
  {
    if |a| >= 2 {
      var n := SizeOf(a);
      assert SizeOf(a + b) == n;
      if |a| >= n {
        assert (a + b)[n..] == a[n..] + b;
        WellFramedAppend(a[n..], b, limit);
      }
    }
  }

  /** `frames` have been cut off the front of `total` and `rest` is still to be parsed. */
  ghost predicate Halfway(total: seq<Byte>, frames: seq<Frame>, rest: seq<Byte>, limit: int) {
    WellFramed(rest, limit) && Parse(total) == Parsed(frames + Parse(rest).frames, Parse(rest).tail)
  }

  lemma HalfwayStart(total: seq<Byte>, limit: int)
    requires WellFramed(total, limit)
    ensures Halfway(total, [], total, limit)
  {
    assert [] + Parse(total).frames == Parse(total).frames;
  }

  /** One frame is cut off the front of what is left. */
  lemma HalfwayStep(total: seq<Byte>, frames: seq<Frame>, frame: Frame, rest: seq<Byte>, limit: int)
    requires |frame| >= 2 && SizeOf(frame) == |frame|
    requires Halfway(total, frames, frame + rest, limit)
    ensures Halfway(total, frames + [frame], rest, limit)
  {
    ParseFrame(frame, rest);
    assert (frame + rest)[|frame|..] == rest;
    Assoc(frames, [frame], Parse(rest).frames);
  }

  lemma HalfwayEnd(total: seq<Byte>, frames: seq<Frame>, rest: seq<Byte>, limit: int)
    requires Halfway(total, frames, rest, limit) && !StartsWithFrame(rest)
    ensures Parse(total) == Parsed(frames, rest)
  {
    assert frames + [] == frames;
  }

  // ---- completions ----

  /** What a receiver that saves exactly the unparsed tail does with a list of chunks. */
  function Reassemble(pending: seq<Byte>, chunks: seq<seq<Byte>>): Parsed
    decreases chunks
  {
    if chunks == [] then
      Parsed([], pending)
    else
      var p := Parse(pending + chunks[0]);
      var q := Reassemble(p.tail, chunks[1..]);
      Parsed(p.frames + q.frames, q.tail)
  }

  lemma {:induction false} ReassembleIsParse(pending: seq<Byte>, chunks: seq<seq<Byte>>)
    requires Parse(pending) == Parsed([], pending)
    ensures Reassemble(pending, chunks) == Parse(pending + Flatten(chunks))
    decreases chunks
  {
    if chunks == [] {
      assert pending + [] == pending;
    } else {
      ReassembleRest(pending, chunks[0], chunks[1..]);
      ReassembleIsParse(Parse(pending + chunks[0]).tail, chunks[1..]);
    }
  }

  lemma ReassembleRest(pending: seq<Byte>, chunk: seq<Byte>, chunks: seq<seq<Byte>>)
    ensures var p := Parse(pending + chunk);
            var q := Parse(p.tail + Flatten(chunks));
            && Parse(p.tail) == Parsed([], p.tail)
            && Parse(pending + (chunk + Flatten(chunks))) == Parsed(p.frames + q.frames, q.tail)
  {
    ParseTail(pending + chunk);
    ParseAppend(pending + chunk, Flatten(chunks));
    Assoc(pending, chunk, Flatten(chunks));
  }

  /** `frames` have been emitted and `tail` saved; `chunks` are still to come. */
  ghost predicate Underway(all: Parsed, frames: seq<Frame>, tail: seq<Byte>, chunks: seq<seq<Byte>>) {
    var rest := Reassemble(tail, chunks);
    all == Parsed(frames + rest.frames, rest.tail)
  }

  lemma UnderwayStart(pending: seq<Byte>, chunks: seq<seq<Byte>>)
    ensures Underway(Reassemble(pending, chunks), [], pending, chunks)
  {
    var frames := Reassemble(pending, chunks).frames;
    assert [] + frames == frames;
  }

  lemma UnderwayEnd(all: Parsed, frames: seq<Frame>, tail: seq<Byte>)
    requires Underway(all, frames, tail, [])
    ensures all == Parsed(frames, tail)
  {
    assert frames + [] == frames;
  }

  lemma UnderwayStep(all: Parsed, frames: seq<Frame>, tail: seq<Byte>, chunks: seq<seq<Byte>>)
    requires chunks != [] && Underway(all, frames, tail, chunks)
    ensures var p := Parse(tail + chunks[0]); Underway(all, frames + p.frames, p.tail, chunks[1..])
  {
    var p := Parse(tail + chunks[0]);
    Assoc(frames, p.frames, Reassemble(p.tail, chunks[1..]).frames);
  }

  lemma WellFramedNextChunk(pending: seq<Byte>, chunks: seq<seq<Byte>>, limit: int)
    requires chunks != [] && WellFramed(pending + Flatten(chunks), limit)
    ensures WellFramed(pending + chunks[0], limit)
    ensures WellFramed(Parse(pending + chunks[0]).tail + Flatten(chunks[1..]), limit)
  {
    Assoc(pending, chunks[0], Flatten(chunks[1..]));
    WellFramedAppend(pending + chunks[0], Flatten(chunks[1..]), limit);
  }

  /** The size prefix of a frame of which `pending` was saved and `chunk` has arrived. */
  function PendingSize(pending: seq<Byte>, chunk: seq<Byte>): int
    requires pending != [] && chunk != []
  {
    SizeOf(pending + chunk)
  }

  /** The buffer after the branch that shifts a too-short chunk left by two. */
  function ShiftedByTwo(chunk: seq<Byte>): seq<Byte>
    requires |chunk| >= 2
  {
    chunk[2..] + chunk[|chunk| - 2..]
  }

  /** Exactly the chunks that the resuming branches of PacketReading carry on from without
      losing, repeating or inventing bytes. The first disjunct is the intended use; the
      others are the lengths at which comparing the chunk with the size of the whole frame,
      and not with what is missing, happens to do no harm. */
  predicate Resumes(pending: seq<Byte>, chunk: seq<Byte>)
    requires chunk != []
  {
    pending == [] ||
    (var b, r, n := PendingSize(pending, chunk), |pending|, |chunk|;
     || n > b
     || (r == 1 && n == b - 1)
     || (r >= 2 && n == r && n < b <= 2 * n && ShiftedByTwo(chunk)[..2 * n - b] == chunk[b - n..]))
  }

  /** `n` bytes have arrived at the front of the buffer, and what was saved begins a frame. */
  predicate Readable(pending: seq<Byte>, buffer: seq<Byte>, n: int) {
    && 1 <= n <= |buffer|
    && (pending != [] ==>
         var b, r := SizeOf(pending + buffer), |pending|;
         HEADER_SIZE <= b < |buffer| && r < b && (r >= 2 ==> n >= 2))
  }

  /** The bytes one read of PacketReading leaves, branch by branch: the frame it completes and what
      it leaves in the buffer, or what it saves. A chunk that is too short is filled up with what
      the buffer held behind it. */
  function Leaves(pending: seq<Byte>, buffer: seq<Byte>, n: int): seq<Byte>
    requires Readable(pending, buffer, n)
  {
    if pending == [] then
      buffer[..n]
    else
      var b, r := SizeOf(pending + buffer), |pending|;
      var frame := pending + buffer[..b - r];
      if n > b then frame + buffer[b - r..n]
      else if r == 1 || n == b then frame
      else if b <= 2 * n then frame + ShiftedByTwo(buffer[..n])[..2 * n - b]
      else frame[..n]
  }

  lemma LeavesAll(pending: seq<Byte>, buffer: seq<Byte>, n: int, m: int)
    requires 0 <= m <= n <= |buffer|
    ensures pending + buffer[..m] + buffer[m..n] == pending + buffer[..n]
  {
  }

  /** A chunk as long as what was saved, which the last branch shifts by two. */
  lemma HalfLeaves(pending: seq<Byte>, buffer: seq<Byte>, n: int)
    requires Readable(pending, buffer, n) && |pending| >= 2
    requires n < SizeOf(pending + buffer) <= 2 * n
    ensures Leaves(pending, buffer, n) == pending + buffer[..n] <==> Resumes(pending, buffer[..n])
  {
    var b, r, chunk := SizeOf(pending + buffer), |pending|, buffer[..n];
    assert PendingSize(pending, chunk) == b;
    var left := Leaves(pending, buffer, n);
    if n == r {
      assert left[..b] == (pending + chunk)[..b];
      assert left[b..] == ShiftedByTwo(chunk)[..2 * n - b] && (pending + chunk)[b..] == chunk[b - n..];
      assert left == left[..b] + left[b..];
      assert pending + chunk == (pending + chunk)[..b] + (pending + chunk)[b..];
    } else {
      assert |left| == 2 * n != |pending + chunk|;
    }
  }

  /** Where the byte at `i` comes from when `n` bytes are shifted left by two in place. */
  function FromTwoOn(i: int, n: int): int {
    if i < n - 2 then i + 2 else i
  }

  lemma ShiftedAt(chunk: seq<Byte>, i: int)
    requires |chunk| >= 2 && 0 <= i < |chunk|
    ensures ShiftedByTwo(chunk)[i] == chunk[FromTwoOn(i, |chunk|)]
  {
  }

  /** Such a chunk is one to resume with exactly if it is as long as what was saved and each byte
      that the shift by two leaves in the buffer is the one that should be there. */
  lemma HalfResumes(pending: seq<Byte>, chunk: seq<Byte>)
    requires |pending| >= 2 && |chunk| >= 2
    requires var b := SizeOf(pending); |pending| < b && |chunk| < b <= 2 * |chunk|
    ensures var b, n := SizeOf(pending), |chunk|;
            Resumes(pending, chunk) <==>
              && n == |pending|
              && forall j :: b - n <= j < n ==> chunk[j] == chunk[FromTwoOn(j - (b - n), n)]
  {
    var b, n := SizeOf(pending), |chunk|;
    assert PendingSize(pending, chunk) == b;
    if n == |pending| {
      var left, due := ShiftedByTwo(chunk)[..2 * n - b], chunk[b - n..];
      forall i | 0 <= i < |due| ensures left[i] == chunk[FromTwoOn(i, n)] && due[i] == chunk[i + (b - n)] {
        ShiftedAt(chunk, i);
      }
      if left == due {
      } else {
        var i :| 0 <= i < |due| && left[i] != due[i];
        assert chunk[i + (b - n)] != chunk[FromTwoOn(i + (b - n) - (b - n), n)];
      }
    }
  }

  /** One read leaves exactly the bytes that it was given if and only if it can resume. */
  lemma LeavesIff(pending: seq<Byte>, buffer: seq<Byte>, n: int)
    requires Readable(pending, buffer, n)
    ensures Leaves(pending, buffer, n) == pending + buffer[..n] <==> Resumes(pending, buffer[..n])
  {
    var chunk, left := buffer[..n], Leaves(pending, buffer, n);
    if pending == [] {
      assert [] + chunk == chunk;
    } else {
      var b, r := SizeOf(pending + buffer), |pending|;
      assert PendingSize(pending, chunk) == b;
      if n > b || n == b - r == b - 1 {
        LeavesAll(pending, buffer, n, b - r);
      } else if r == 1 || n == b || 2 * n < b {
        assert |left| != |pending + chunk|;
      } else {
        HalfLeaves(pending, buffer, n);
      }
    }
  }

  /** Every chunk of the run is one the receiver can resume with. */
  predicate ResumesAll(pending: seq<Byte>, chunks: seq<seq<Byte>>)
    decreases chunks
  {
    chunks == [] ||
    (chunks[0] != [] && |chunks[0]| <= BUF_SIZE && Resumes(pending, chunks[0]) &&
     ResumesAll(Parse(pending + chunks[0]).tail, chunks[1..]))
  }

  /** A chunk that brings exactly the missing bytes of a frame is mishandled, unless it
      happens to be as long as what was saved: the plainest split of a frame in two. */
  lemma ExactRemainder(pending: seq<Byte>, chunk: seq<Byte>)
    requires |pending| >= 2 && chunk != [] && SizeOf(pending) == |pending| + |chunk|
    ensures Resumes(pending, chunk) <==> |chunk| == |pending|
  {
    var b, n := SizeOf(pending), |chunk|;
    assert PendingSize(pending, chunk) == b;
    if n == |pending| {
      assert 2 * n - b == 0;
      assert ShiftedByTwo(chunk)[..0] == chunk[b - n..];
    }
  }

  /** The second piece of a frame cut in two is one to resume with exactly when the first piece
      is a single byte or half of the frame. */
  lemma FrameInTwoPieces(frame: Frame, k: int)
    requires 1 <= k < |frame| <= BUF_SIZE && |frame| >= HEADER_SIZE && SizeOf(frame) == |frame|
    ensures Resumes(frame[..k], frame[k..]) <==> k == 1 || 2 * k == |frame|
    ensures ResumesAll([], [frame[..k], frame[k..]]) <==> k == 1 || 2 * k == |frame|
  {
    var p, c := frame[..k], frame[k..];
    assert [] + p == p && p + c == frame;
    assert k >= 2 ==> SizeOf(p) == SizeOf(frame);
    assert Parse([] + p).tail == p;
    var chunks := [p, c];
    assert chunks[1..] == [c] && [c][1..] == [];
    assert ResumesAll([], chunks) == ResumesAll(p, [c]) == Resumes(p, c);
    if k >= 2 {
      ExactRemainder(p, c);
    }
  }

  // ---- the frame layout ----

  datatype Packet = Packet(status: int, direction: int, msg: seq<Byte>)

  predicate Sendable(p: Packet, limit: int) {
    IsInt32(p.status) && IsInt32(p.direction) && 0 !in p.msg && |p.msg| + 11 <= limit < 32768
  }

  function Encode(p: Packet): Frame
    requires Sendable(p, 32767)
  {
    ShortBytes(|p.msg| + 11) + Int32Bytes(p.status) + Int32Bytes(p.direction) + p.msg + [0]
  }

  function Decode(f: Frame): Packet
    requires |f| >= HEADER_SIZE
  {
    Packet(Int32(f[2..6]), Int32(f[6..10]), CString(f[10..]))
  }

  lemma EncodeShape(p: Packet)
    requires Sendable(p, 32767)
    ensures var f := Encode(p);
            && |f| == |p.msg| + 11 == SizeOf(f)
            && f[2..6] == Int32Bytes(p.status)
            && f[6..10] == Int32Bytes(p.direction)
            && f[10..] == p.msg + [0]
  {
    var f, size := Encode(p), ShortBytes(|p.msg| + 11);
    var status, direction, text := Int32Bytes(p.status), Int32Bytes(p.direction), p.msg + [0];
    assert f == size + (status + (direction + text));
    assert f[0] == size[0] && f[1] == size[1];
    assert f[2..] == status + (direction + text);
    assert f[6..] == direction + text;
    assert f[2..6] == f[2..][..4] && f[6..10] == f[6..][..4];
  }

  lemma DecodeEncode(p: Packet)
    requires Sendable(p, 32767)
    ensures |Encode(p)| >= HEADER_SIZE && Decode(Encode(p)) == p
  {
    EncodeShape(p);
    CStringTerminated(p.msg);
  }

  function EncodeAll(ps: seq<Packet>): (fs: seq<Frame>)
    requires forall p <- ps :: Sendable(p, 32767)
    ensures |fs| == |ps| && forall i :: 0 <= i < |ps| ==> fs[i] == Encode(ps[i])
  {
    if ps == [] then [] else [Encode(ps[0])] + EncodeAll(ps[1..])
  }

  lemma {:induction false} ParseEncoded(ps: seq<Packet>, limit: int)
    requires forall p <- ps :: Sendable(p, 32767) && |p.msg| + 11 <= limit
    ensures Parse(Flatten(EncodeAll(ps))) == Parsed(EncodeAll(ps), [])
    ensures WellFramed(Flatten(EncodeAll(ps)), limit)
  {
    if ps == [] {
    } else {
      var f, rest := Encode(ps[0]), Flatten(EncodeAll(ps[1..]));
      EncodeShape(ps[0]);
      ParseEncoded(ps[1..], limit);
      assert EncodeAll(ps)[1..] == EncodeAll(ps[1..]);
      assert Flatten(EncodeAll(ps)) == f + rest;
      assert SizeOf(f + rest) == |f|;
      assert (f + rest)[..|f|] == f && (f + rest)[|f|..] == rest;
    }
  }
}
