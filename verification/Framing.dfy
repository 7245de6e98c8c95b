/** Cutting a byte stream into frames: a tag byte, then a big-endian 32-bit length that counts itself and
    the body (section 55.7, Message Formats, of the PostgreSQL 16 documentation). */
module Framing {
  import opened Basics

  datatype Frame = Frame(tag: Byte, body: seq<Byte>)

  datatype Cut = NeedMore | Malformed | Got(frame: Frame, size: nat)

  const U32_LIMIT := 0x1_0000_0000

  function U32(b: seq<Byte>): nat
    requires |b| == 4
  {
    b[0] as int * 0x100_0000 + b[1] as int * 0x1_0000 + b[2] as int * 256 + b[3] as int
  }

  function U32Bytes(n: nat): (b: seq<Byte>)
    requires n < U32_LIMIT
    ensures |b| == 4 && U32(b) == n
  {
    assert n / 0x1_0000 == n / 256 / 256 && n / 0x100_0000 == n / 0x1_0000 / 256;
    [n / 0x100_0000, n / 0x1_0000 % 256, n / 256 % 256, n % 256]
  }

  /** The frame at the front of `bytes`, as `Message::parse` finds it. */
  function CutFrame(bytes: seq<Byte>): Cut {
    if |bytes| < 5 then NeedMore
    else
      var length := U32(bytes[1..5]);
      if length < 4 then Malformed
      else if |bytes| < length + 1 then NeedMore
      else Got(Frame(bytes[0], bytes[5..length + 1]), length + 1)
  }

  /** Once decided, a cut does not depend on what follows. */
  lemma CutIsStable(bytes: seq<Byte>, more: seq<Byte>)
    requires !CutFrame(bytes).NeedMore?
    ensures CutFrame(bytes + more) == CutFrame(bytes)
  {
    assert (bytes + more)[1..5] == bytes[1..5];
    var length := U32(bytes[1..5]);
    if 4 <= length <= |bytes| - 1 {
      assert (bytes + more)[5..length + 1] == bytes[5..length + 1];
    }
  }

  /** All frames of a stream, the bytes left over, and whether they start a malformed frame. */
  function Frames(bytes: seq<Byte>): (seq<Frame>, seq<Byte>, bool)
    decreases |bytes|
  {
    match CutFrame(bytes)
    case NeedMore => ([], bytes, false)
    case Malformed => ([], bytes, true)
    case Got(frame, size) =>
      var (frames, rest, bad) := Frames(bytes[size..]);
      ([frame] + frames, rest, bad)
  }

  function Encode(f: Frame): seq<Byte>
    requires |f.body| + 4 < U32_LIMIT
  {
    [f.tag] + U32Bytes(|f.body| + 4) + f.body
  }

  predicate Encodable(frames: seq<Frame>) {
    forall i | 0 <= i < |frames| :: |frames[i].body| + 4 < U32_LIMIT
  }

  function EncodeAll(frames: seq<Frame>): seq<Byte>
    requires Encodable(frames)
  {
    if frames == [] then [] else Encode(frames[0]) + EncodeAll(frames[1..])
  }

  lemma CutEncoded(f: Frame, more: seq<Byte>)
    requires |f.body| + 4 < U32_LIMIT
    ensures CutFrame(Encode(f) + more) == Got(f, |Encode(f)|)
  {
    var bytes := Encode(f);
    assert bytes[1..5] == U32Bytes(|f.body| + 4);
    assert bytes[5..|f.body| + 5] == f.body;
    CutIsStable(bytes, more);
  }

  /** The length comes most significant byte first, and counts itself and the body but not the tag. */
  lemma FrameAsPrescribed(tag: Byte, body: seq<Byte>, more: seq<Byte>, n: nat)
    requires n == |body| + 4 < U32_LIMIT
    ensures CutFrame([tag, n / 0x100_0000, n / 0x1_0000 % 256, n / 256 % 256, n % 256] + body + more)
         == Got(Frame(tag, body), n + 1)
  {
    CutEncoded(Frame(tag, body), more);
    assert Encode(Frame(tag, body))
        == [tag, n / 0x100_0000, n / 0x1_0000 % 256, n / 256 % 256, n % 256] + body;
  }

  /** Cutting inverts encoding, whatever incomplete bytes follow. */
  lemma {:induction false} FramesOfEncoded(frames: seq<Frame>, tail: seq<Byte>)
    requires Encodable(frames) && CutFrame(tail).NeedMore?
    ensures Frames(EncodeAll(frames) + tail) == (frames, tail, false)
  {
    if frames == [] {
      assert EncodeAll(frames) + tail == tail;
    } else {
      var f, rest := frames[0], EncodeAll(frames[1..]) + tail;
      assert EncodeAll(frames) + tail == Encode(f) + rest;
      CutEncoded(f, rest);
      assert (Encode(f) + rest)[|Encode(f)|..] == rest;
      FramesOfEncoded(frames[1..], tail);
      assert [f] + frames[1..] == frames;
    }
  }
}

/** The buffered transport and the codec above it: a compacting, growing read buffer under an incremental
    framer, proved to deliver exactly the frames of the inner byte stream. */
module Transport {
  import opened Basics
  import opened Framing

  const WRITE_BUFFER_FLUSH_THRESHOLD: nat := 8192
  const DEFAULT_READ_CAPACITY: nat := 8192
  const CODEC_CHUNK: nat := 4096

  function Max(a: nat, b: nat): nat { if a < b then b else a }
  function Min(a: nat, b: nat): nat { if a < b then a else b }

  /** The peer: bytes it has still to send, and bytes it was sent. Reads may be arbitrarily short. */
  class Inner {
    var incoming: seq<Byte>
    var written: seq<Byte>

    constructor (incoming: seq<Byte>)
      ensures this.incoming == incoming && written == []
    {
      this.incoming, written := incoming, [];
    }

    method Read(room: nat) returns (chunk: seq<Byte>)
      modifies this`incoming
      ensures |chunk| <= room && old(incoming) == chunk + incoming
      ensures chunk == [] <==> room == 0 || old(incoming) == []
    {
      var n: nat := 0;
      if room > 0 && incoming != [] {
        n :| 1 <= n <= room && n <= |incoming|;
      }
      chunk, incoming := incoming[..n], incoming[n..];
    }

    method WriteAll(data: seq<Byte>)
      modifies this`written
      ensures written == old(written) + data
    {
      written := written + data;
    }
  }

  class BufferedTransport {
    const inner: Inner
    var readBuf: array<Byte>
    var readPos: nat
    var readLen: nat
    var writeBuf: seq<Byte>

    ghost predicate Valid()
      reads this
    {
      readPos <= readLen <= readBuf.Length
    }

    ghost function Buffered(): seq<Byte>
      requires Valid()
      reads this, readBuf
    {
      readBuf[readPos..readLen]
    }

    /** The bytes not yet handed to the caller. */
    ghost function Pending(): seq<Byte>
      requires Valid()
      reads this, readBuf, inner
    {
      Buffered() + inner.incoming
    }

    constructor (inner: Inner, readCapacity: nat)
      ensures Valid() && fresh(readBuf) && this.inner == inner && readBuf.Length == readCapacity
      ensures Pending() == inner.incoming && writeBuf == []
    {
      this.inner := inner;
      readBuf := new Byte[readCapacity](_ => 0);
      readPos, readLen, writeBuf := 0, 0, [];
    }

    /** Move the unconsumed bytes to the front, in place. */
    method CompactRead()
      requires Valid()
      modifies this`readPos, this`readLen, readBuf
      ensures Valid() && readPos == 0 && Buffered() == old(Buffered())
    {
      if readPos > 0 {
        var n := readLen - readPos;
        ghost var was := readBuf[..];
        var i := 0;
        while i < n
          invariant 0 <= i <= n && readPos == old(readPos) && readLen == old(readLen)
          invariant readBuf[..i] == was[readPos..readPos + i]
          invariant readBuf[i..] == was[i..]
        {
          assert readBuf[readPos + i] == readBuf[i..][readPos] == was[readPos + i];
          readBuf[i] := readBuf[readPos + i];
          i := i + 1;
          assert readBuf[..i] == readBuf[..i - 1] + [readBuf[i - 1]];
        }
        readLen, readPos := n, 0;
      }
    }

    method EnsureReadCapacity(minRemaining: nat)
      requires Valid()
      modifies this`readBuf
      ensures Valid() && Buffered() == old(Buffered()) && (readBuf == old(readBuf) || fresh(readBuf))
      ensures readBuf.Length - readLen >= minRemaining
      ensures readBuf.Length == if old(readBuf.Length) - readLen < minRemaining
                                then Max(2 * old(readBuf.Length), readLen + minRemaining) else old(readBuf.Length)
    {
      var remaining := readBuf.Length - readLen;
      if remaining < minRemaining {
        var was := readBuf;
        var newLen := Max(2 * was.Length, readLen + minRemaining);
        readBuf := new Byte[newLen](i requires 0 <= i reads was => if i < was.Length then was[i] else 0);
      }
    }

    /** Copy up to `room` buffered bytes out. */
    method Consume(room: nat) returns (out: seq<Byte>)
      requires Valid()
      modifies this`readPos
      ensures Valid() && old(Buffered()) == out + Buffered() && |out| == Min(room, old(readLen - readPos))
    {
      var n := Min(room, readLen - readPos);
      out := readBuf[readPos..readPos + n];
      readPos := readPos + n;
    }

    /** Refill an exhausted buffer from the inner transport; false at end of stream. */
    method Refill(room: nat) returns (more: bool)
      requires Valid() && readPos == readLen && room > 0
      modifies this`readBuf, this`readPos, this`readLen, readBuf, inner`incoming
      ensures Valid() && (readBuf == old(readBuf) || fresh(readBuf)) && Pending() == old(Pending())
      ensures more <==> old(Pending()) != []
      ensures more ==> readPos < readLen
      ensures !more ==> readPos == readLen
      ensures |inner.incoming| <= |old(inner.incoming)| && (more ==> |inner.incoming| < |old(inner.incoming)|)
      ensures readBuf.Length <= Max(old(readBuf.Length), 2 * room)
    {
      CompactRead();
      EnsureReadCapacity(room);
      var chunk := inner.Read(readBuf.Length - readLen);
      more := chunk != [];
      forall i | 0 <= i < |chunk| {
        readBuf[readLen + i] := chunk[i];
      }
      readLen := readLen + |chunk|;
      assert readBuf[readPos..readLen] == chunk;
    }

    method Read(room: nat) returns (out: seq<Byte>)
      requires Valid()
      modifies this`readBuf, this`readPos, this`readLen, readBuf, inner`incoming
      ensures Valid() && (readBuf == old(readBuf) || fresh(readBuf))
      ensures |out| <= room && old(Pending()) == out + Pending()
      ensures out == [] <==> room == 0 || old(Pending()) == []
      ensures readBuf.Length <= Max(old(readBuf.Length), 2 * DEFAULT_READ_CAPACITY)
    {
      if readPos < readLen {
        out := Consume(room);
        if readPos > readBuf.Length / 2 {
          CompactRead();
        }
        return;
      }
      var more := Refill(DEFAULT_READ_CAPACITY);
      if !more {
        return [];
      }
      out := Consume(room);
    }

    /** Fill the caller's buffer of `n` bytes; false when the stream ends first. */
    method ReadExact(n: nat) returns (ok: bool, out: seq<Byte>)
      requires Valid()
      modifies this`readBuf, this`readPos, this`readLen, readBuf, inner`incoming
      ensures Valid() && (readBuf == old(readBuf) || fresh(readBuf))
      ensures ok <==> n <= |old(Pending())|
      ensures ok ==> |out| == n && old(Pending()) == out + Pending()
      ensures !ok ==> out == old(Pending()) && Pending() == []
      ensures readBuf.Length <= Max(old(readBuf.Length), 2 * n)
    {
      ghost var stream := Pending();
      out := [];
      while |out| < n
        invariant Valid() && (readBuf == old(readBuf) || fresh(readBuf)) && |out| <= n
        invariant out + Pending() == stream
        invariant readBuf.Length <= Max(old(readBuf.Length), 2 * n)
        decreases n - |out|, |inner.incoming|
      {
        if readPos < readLen {
          ghost var rest := Pending();
          var taken := Consume(n - |out|);
          assert rest == taken + Pending();
          out := out + taken;
        } else {
          var more := Refill(n - |out|);
          if !more {
            assert out + Pending() == out;
            return false, out;
          }
        }
      }
      if readPos > readBuf.Length / 2 {
        CompactRead();
      }
      ok := true;
    }

    /** Everything written by callers, in order: what the peer has and what is still buffered. */
    ghost function Outgoing(): seq<Byte>
      reads this, inner
    {
      inner.written + writeBuf
    }

    method FlushWrite()
      modifies this`writeBuf, inner`written
      ensures writeBuf == [] && inner.written == old(Outgoing())
    {
      if writeBuf != [] {
        inner.WriteAll(writeBuf);
        writeBuf := [];
      }
    }

    /** `write` and `write_all`. */
    method Write(data: seq<Byte>)
      modifies this`writeBuf, inner`written
      ensures Outgoing() == old(Outgoing()) + data
      ensures |writeBuf| < WRITE_BUFFER_FLUSH_THRESHOLD
      ensures old(|writeBuf|) + |data| < WRITE_BUFFER_FLUSH_THRESHOLD ==> inner.written == old(inner.written)
    {
      writeBuf := writeBuf + data;
      if |writeBuf| >= WRITE_BUFFER_FLUSH_THRESHOLD {
        FlushWrite();
      }
    }
  }

  /** The bytes the codec may have to hold to see what a stream starts with: one chunk is read beyond the
      last byte that leaves it undecided. */
  function Needs(stream: seq<Byte>): nat {
    match CutFrame(stream)
    case Got(_, size) => size - 1 + CODEC_CHUNK
    case Malformed => 4 + CODEC_CHUNK
    case NeedMore => |stream|
  }

  /** No frame of the stream, nor what is behind the last, needs more than `limit`. */
  predicate FitsWithin(stream: seq<Byte>, limit: nat)
    decreases |stream|
  {
    Needs(stream) <= limit && (CutFrame(stream).Got? ==> FitsWithin(stream[CutFrame(stream).size..], limit))
  }

  /** A prefix that is not yet decided is shorter than what decides it. */
  lemma IncompleteIsShort(bytes: seq<Byte>, more: seq<Byte>)
    requires CutFrame(bytes).NeedMore?
    ensures match CutFrame(bytes + more)
            case Got(_, size) => |bytes| < size
            case Malformed => |bytes| < 5
            case NeedMore => true
  {
    if |bytes| >= 5 {
      assert (bytes + more)[1..5] == bytes[1..5];
    }
  }

  datatype ReadResult = Message(frame: Frame) | BadFrame | EndOfStream | BufferLimitExceeded

  class Codec {
    var readBuf: seq<Byte>
    const maxBufferedBytes: nat

    constructor (maxBufferedBytes: nat)
      ensures readBuf == [] && this.maxBufferedBytes == maxBufferedBytes
    {
      readBuf, this.maxBufferedBytes := [], maxBufferedBytes;
    }

    method TryExtend(data: seq<Byte>) returns (ok: bool)
      modifies this
      ensures ok <==> |old(readBuf)| + |data| <= maxBufferedBytes
      ensures readBuf == if ok then old(readBuf) + data else old(readBuf)
    {
      ok := |readBuf| + |data| <= maxBufferedBytes;
      if ok {
        readBuf := readBuf + data;
      }
    }

    /** None when more bytes are needed. */
    method NextMessage() returns (r: Option<ReadResult>)
      modifies this
      ensures |old(readBuf)| > maxBufferedBytes ==> r == Some(BufferLimitExceeded) && readBuf == old(readBuf)
      ensures |old(readBuf)| <= maxBufferedBytes ==>
                match CutFrame(old(readBuf))
                case NeedMore => r == None && readBuf == old(readBuf)
                case Malformed => r == Some(BadFrame) && readBuf == old(readBuf)
                case Got(frame, size) => r == Some(Message(frame)) && readBuf == old(readBuf)[size..]
    {
      if |readBuf| > maxBufferedBytes {
        return Some(BufferLimitExceeded);
      }
      match CutFrame(readBuf)
      case NeedMore => r := None;
      case Malformed => r := Some(BadFrame);
      case Got(frame, size) =>
        r := Some(Message(frame));
        readBuf := readBuf[size..];
    }

    /** The next frame of everything not yet framed, whatever the chunking of reads. The buffer limit is
        reported only if the buffer already was over the limit or what comes next needs more than it. */
    method ReadMessage(t: BufferedTransport) returns (r: ReadResult)
      requires t.Valid()
      modifies this, t`readBuf, t`readPos, t`readLen, t.readBuf, t.inner`incoming
      ensures t.Valid() && (t.readBuf == old(t.readBuf) || fresh(t.readBuf))
      ensures t.readBuf.Length <= Max(old(t.readBuf.Length), 2 * DEFAULT_READ_CAPACITY)
      ensures var stream := old(readBuf) + old(t.Pending());
              match r
              case Message(frame) =>
                && CutFrame(stream).Got? && CutFrame(stream).frame == frame
                && readBuf + t.Pending() == stream[CutFrame(stream).size..]
              case BadFrame => CutFrame(stream).Malformed? && readBuf + t.Pending() == stream
              case EndOfStream => CutFrame(stream).NeedMore? && readBuf + t.Pending() == stream
              case BufferLimitExceeded =>
                |old(readBuf)| > maxBufferedBytes || Needs(stream) > maxBufferedBytes
      ensures old(|readBuf|) <= maxBufferedBytes ==> |readBuf| <= maxBufferedBytes
    {
      ghost var stream := readBuf + t.Pending();
      while true
        invariant t.Valid() && (t.readBuf == old(t.readBuf) || fresh(t.readBuf))
        invariant t.readBuf.Length <= Max(old(t.readBuf.Length), 2 * DEFAULT_READ_CAPACITY)
        invariant readBuf + t.Pending() == stream
        invariant |readBuf| <= maxBufferedBytes || readBuf == old(readBuf)
        decreases |t.Pending()|
      {
        ghost var before := readBuf;
        assert stream == before + t.Pending();
        var next := NextMessage();
        if next.Some? {
          if |before| <= maxBufferedBytes {
            CutIsStable(before, t.Pending());
          }
          return next.value;
        }
        var chunk := t.Read(CODEC_CHUNK);
        if chunk == [] {
          assert stream == readBuf;
          return EndOfStream;
        }
        ghost var after := t.Pending();
        assert (readBuf + chunk) + after == stream;
        var ok := TryExtend(chunk);
        if !ok {
          Assoc(before, chunk, after);
          IncompleteIsShort(before, chunk + after);
          return BufferLimitExceeded;
        }
      }
    }

    /** Read until something other than a message comes: the frames of the stream, in order. The limit stays
        out of it when every frame is at most limit - 4095 bytes and the bytes behind the last fit too. */
    method ReadAll(t: BufferedTransport) returns (frames: seq<Frame>, end: ReadResult)
      requires t.Valid()
      modifies this, t`readBuf, t`readPos, t`readLen, t.readBuf, t.inner`incoming
      ensures t.Valid()
      ensures var (all, rest, bad) := Frames(old(readBuf) + old(t.Pending()));
              match end
              case EndOfStream => frames == all && !bad && readBuf + t.Pending() == rest
              case BadFrame => frames == all && bad && readBuf + t.Pending() == rest
              case BufferLimitExceeded => frames <= all
              case Message(_) => false
      ensures |old(readBuf)| <= maxBufferedBytes && FitsWithin(old(readBuf) + old(t.Pending()), maxBufferedBytes) ==>
                !end.BufferLimitExceeded?
    {
      frames := [];
      ghost var stream := readBuf + t.Pending();
      ghost var ahead := Frames(stream).0;
      while true
        invariant t.Valid() && (t.readBuf == old(t.readBuf) || fresh(t.readBuf))
        invariant Frames(readBuf + t.Pending()) == (ahead, Frames(stream).1, Frames(stream).2)
        invariant frames + ahead == Frames(stream).0
        invariant |old(readBuf)| <= maxBufferedBytes ==> |readBuf| <= maxBufferedBytes
        invariant FitsWithin(stream, maxBufferedBytes) ==> FitsWithin(readBuf + t.Pending(), maxBufferedBytes)
        decreases |ahead|
      {
        end := ReadMessage(t);
        match end
        case Message(frame) =>
          frames := frames + [frame];
          ahead := ahead[1..];
        case _ => return;
      }
    }
  }
}
