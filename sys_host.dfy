// Model of src/sys_host.h: the shared-memory byte ring between mod-host and
// mod-system-control. One channel is a buffer of N bytes with a head (next byte to write)
// and a tail (next byte to read). A frame is the event type, then page and subpage when
// written by the client, then the message bytes and a NUL. The process side (the build's
// SERVER_MODE) is a parameter; shm_open, mmap and the semaphore are left out.

module SysHost {

  newtype byte = x: int | 0 <= x < 256

  /** SYS_SERIAL_SHM_DATA_SIZE: 8192 minus a 32-byte sem_t and the two uint32 indices. */
  const N: nat := 8192 - 32 - 8

  const NUL: byte := 0

  /** Event types sent by the client, accepted by a server-side read: 0x80 plus one of
      's', 'x', 'l', 'h', 'n', 'v', 'u', 'i', 'p'. */
  const CLIENT_TYPES: set<byte> := {0xF3, 0xF8, 0xEC, 0xE8, 0xEE, 0xF6, 0xF5, 0xE9, 0xF0}

  /** Event types sent by the server, accepted by a client-side read: 0x80 plus one of
      'm', 'r', 'c', 'd', 't', 'g'. */
  const SERVER_TYPES: set<byte> := {0xED, 0xF2, 0xE3, 0xE4, 0xF4, 0xE7}

  /** Which way the header was compiled: SERVER_MODE or not. */
  datatype Side = Server | Client

  function Peer(side: Side): Side
  {
    if side == Server then Client else Server
  }

  /** The types a read on `side` accepts: those the peer sends. */
  predicate Accepts(side: Side, b: byte)
  {
    if side == Server then b in CLIENT_TYPES else b in SERVER_TYPES
  }

  /** A C string's bytes. */
  predicate NulFree(msg: seq<byte>)
  {
    forall j :: 0 <= j < |msg| ==> msg[j] != NUL
  }

  /** The bytes a write on `side` puts into the ring. */
  function Framed(side: Side, etype: byte, page: byte, subpage: byte, msg: seq<byte>): seq<byte>
  {
    [etype] + (if side == Client then [page, subpage] else []) + msg + [NUL]
  }

  /** The cell `j` bytes after `p`, wrapping at N. */
  function Pos(p: nat, j: nat): (r: nat)
    requires p < N && j <= N
    ensures r < N
  {
    if p + j < N then p + j else p + j - N
  }

  /** How many bytes lie between tail and head. */
  function Used(head: nat, tail: nat): (r: nat)
    requires head < N && tail < N
    ensures r < N
  {
    Offset(tail, head)
  }

  /** `len` bytes of the ring starting at `from`, wrapping at N. */
  function Ring(buf: seq<byte>, from: nat, len: nat): (r: seq<byte>)
    requires |buf| == N && from < N && len <= N
    ensures |r| == len && forall k :: 0 <= k < len ==> r[k] == buf[Pos(from, k)]
  {
    seq(len, k requires 0 <= k < len => buf[Pos(from, k)])
  }

  /** The room the space test of sys_serial_write computes. */
  function Room(head: nat, tail: nat): int
  {
    (if tail > head then 0 else N) + tail - head
  }

  /** The distance from `h` to `k` going forward around the ring. */
  function Offset(h: nat, k: nat): (r: nat)
    requires h < N && k < N
    ensures r < N
  {
    if k >= h then k - h else k - h + N
  }

  /** `buf` with `frame` laid down from `h` on, wrapping at N. */
  function Overlay(buf: seq<byte>, h: nat, frame: seq<byte>): (r: seq<byte>)
    requires |buf| == N && h < N
    ensures |r| == N
  {
    seq(N, k requires 0 <= k < N => if Offset(h, k) < |frame| then frame[Offset(h, k)] else buf[k])
  }

  datatype WriteResult = WriteResult(ok: bool, buf: seq<byte>, head: nat)

  /** sys_serial_write on the channel's bytes and indices. */
  function WriteSpec(side: Side, buf: seq<byte>, head: nat, tail: nat,
                     etype: byte, page: byte, subpage: byte, msg: seq<byte>): (r: WriteResult)
    requires |buf| == N && head < N && tail < N
    ensures var frame := Framed(side, etype, page, subpage, msg);
            r.ok <==> !(side == Server && |msg| == 0) && |msg| < N && |frame| < N - Used(head, tail)
    ensures !r.ok ==> r.buf == buf && r.head == head
    ensures r.ok ==> r.head < N && |r.buf| == N &&
                     Used(r.head, tail) == Used(head, tail) + |Framed(side, etype, page, subpage, msg)|
  {
    var frame := Framed(side, etype, page, subpage, msg);
    RoomIsFree(head, tail);
    if (side == Server && |msg| == 0) || |msg| >= N || |frame| >= Room(head, tail) then
      WriteResult(false, buf, head)
    else
      WriteResult(true, Overlay(buf, head, frame), Pos(head, |frame|))
  }

  /** The space test measures exactly the free bytes, so a write always leaves one byte
      free and head == tail only ever means empty. */
  lemma RoomIsFree(head: nat, tail: nat)
    requires head < N && tail < N
    ensures Room(head, tail) == N - Used(head, tail)
  {
  }

  /** A write appends its frame to the bytes waiting between tail and head. */
  lemma WriteAppends(side: Side, buf: seq<byte>, head: nat, tail: nat,
                     etype: byte, page: byte, subpage: byte, msg: seq<byte>)
    requires |buf| == N && head < N && tail < N
    requires WriteSpec(side, buf, head, tail, etype, page, subpage, msg).ok
    ensures var w := WriteSpec(side, buf, head, tail, etype, page, subpage, msg);
            var frame := Framed(side, etype, page, subpage, msg);
            Ring(w.buf, tail, Used(w.head, tail)) == Ring(buf, tail, Used(head, tail)) + frame
  {
    var w := WriteSpec(side, buf, head, tail, etype, page, subpage, msg);
    var frame := Framed(side, etype, page, subpage, msg);
    var u := Used(head, tail);
    var a := Ring(w.buf, tail, Used(w.head, tail));
    var b := Ring(buf, tail, u) + frame;
    forall k | 0 <= k < |a|
      ensures a[k] == b[k]
    {
      var p := Pos(tail, k);
      if k < u {
        assert Offset(head, p) == N - u + k;
      } else {
        assert Offset(head, p) == k - u;
      }
    }
  }

  /** What the scan loop of sys_serial_read finds from `p0` on. */
  datatype Scan = Found(len: nat) | HitHead | Exhausted

  /** The loop examines position Pos(p0, k) for k = 0, 1, ..: a NUL ends the message;
      otherwise, if that position is head, the read fails. N steps without either fail
      too. The byte at head is examined before head is compared. */
  function ScanFrom(buf: seq<byte>, head: nat, p0: nat, k: nat): (r: Scan)
    requires |buf| == N && p0 < N && k <= N
    ensures r.Found? ==> k <= r.len < N && buf[Pos(p0, r.len)] == NUL
    ensures r.Found? ==> forall j :: k <= j < r.len ==> buf[Pos(p0, j)] != NUL && Pos(p0, j) != head
    decreases N - k
  {
    if k == N then Exhausted
    else
      var p := Pos(p0, k);
      if buf[p] == NUL then Found(k)
      else if p == head then HitHead
      else ScanFrom(buf, head, p0, k + 1)
  }

  datatype ReadResult = ReadResult(ok: bool, etype: byte, page: byte, subpage: byte, msg: seq<byte>, tail: nat)

  /** Where tail goes after an unaccepted first byte: one further on, wrapped at N. */
  function SkipInvalid(tail: nat): (r: nat)
    requires tail < N
    ensures r < N && Offset(tail, r) == 1
  {
    if tail + 1 == N then 0 else tail + 1
  }

  /** The same step as sys_serial_read writes it (line 200): no wrap-around. */
  function SkipInvalidAsWritten(tail: nat): nat
  {
    tail + 1
  }

  /** The unwrapped step leaves the buffer: after an unaccepted byte in the last cell the
      tail is N, and the next read takes its first byte from buffer[N]. */
  lemma SkipInvalidAsWrittenLeavesBuffer()
    ensures SkipInvalidAsWritten(N - 1) == N
    ensures SkipInvalid(N - 1) == 0
  {
  }

  /** sys_serial_read on the channel's bytes and indices; the invalid-byte step wraps. */
  function ReadSpec(side: Side, buf: seq<byte>, head: nat, tail: nat): (r: ReadResult)
    requires |buf| == N && head < N && tail < N
    ensures r.tail < N
    ensures head == tail ==> !r.ok && r.tail == tail
    ensures head != tail && !Accepts(side, buf[tail]) ==> !r.ok && r.tail == SkipInvalid(tail)
    ensures r.ok ==> Accepts(side, r.etype) && r.etype == buf[tail] && NulFree(r.msg)
  {
    if head == tail then ReadResult(false, 0, 0, 0, [], tail)
    else if !Accepts(side, buf[tail]) then ReadResult(false, 0, 0, 0, [], SkipInvalid(tail))
    else
      var page := if side == Server then buf[Pos(tail, 1)] else 0;
      var subpage := if side == Server then buf[Pos(tail, 2)] else 0;
      var p0 := ScanStart(side, tail);
      match ScanFrom(buf, head, p0, 0)
      case Found(len) =>
        ReadResult(true, buf[tail], page, subpage, Ring(buf, p0, len), Pos(p0, len + 1))
      case _ => ReadResult(false, 0, 0, 0, [], head)
  }

  /** A frame written by the reader's peer and waiting at tail is read back whole. */
  lemma ReadFrame(reader: Side, buf: seq<byte>, head: nat, tail: nat,
                  etype: byte, page: byte, subpage: byte, msg: seq<byte>)
    requires |buf| == N && head < N && tail < N
    requires Accepts(reader, etype) && NulFree(msg)
    requires var frame := Framed(Peer(reader), etype, page, subpage, msg);
             |frame| <= Used(head, tail) && Ring(buf, tail, |frame|) == frame
    ensures var r := ReadSpec(reader, buf, head, tail);
            var frame := Framed(Peer(reader), etype, page, subpage, msg);
            r.ok && r.etype == etype && r.msg == msg && r.tail == Pos(tail, |frame|) &&
            (reader == Server ==> r.page == page && r.subpage == subpage)
  {
    var p0 := ScanStart(reader, tail);
    FrameLayout(reader, buf, head, tail, etype, page, subpage, msg);
    ScanFinds(buf, head, p0, |msg|, 0);
    ReadSpecFound(reader, buf, head, tail, |msg|);
    assert Ring(buf, p0, |msg|) == msg;
  }

  /** Where the bytes of a frame at tail lie. */
  lemma FrameLayout(reader: Side, buf: seq<byte>, head: nat, tail: nat,
                    etype: byte, page: byte, subpage: byte, msg: seq<byte>)
    requires |buf| == N && head < N && tail < N
    requires var frame := Framed(Peer(reader), etype, page, subpage, msg);
             |frame| <= Used(head, tail) && Ring(buf, tail, |frame|) == frame
    ensures head != tail && buf[tail] == etype
    ensures reader == Server ==> buf[Pos(tail, 1)] == page && buf[Pos(tail, 2)] == subpage
    ensures var p0 := ScanStart(reader, tail);
            buf[Pos(p0, |msg|)] == NUL &&
            (forall j :: 0 <= j < |msg| ==> buf[Pos(p0, j)] == msg[j] && Pos(p0, j) != head) &&
            Pos(p0, |msg| + 1) == Pos(tail, |Framed(Peer(reader), etype, page, subpage, msg)|)
  {
    var frame := Framed(Peer(reader), etype, page, subpage, msg);
    var base := if reader == Server then 3 else 1;
    var p0 := ScanStart(reader, tail);
    assert frame[0] == etype;
    assert frame[base + |msg|] == NUL;
    forall j | 0 <= j < |msg|
      ensures buf[Pos(p0, j)] == msg[j] && Pos(p0, j) != head
    {
      assert frame[base + j] == msg[j];
    }
    if reader == Server {
      assert frame[1] == page && frame[2] == subpage;
    }
  }

  /** Where the scan starts: past the type, and past page and subpage on the server. */
  function ScanStart(side: Side, tail: nat): (r: nat)
    requires tail < N
    ensures r < N
  {
    if side == Server then Pos(tail, 3) else Pos(tail, 1)
  }

  /** ReadSpec when the scan finds a NUL. */
  lemma ReadSpecFound(side: Side, buf: seq<byte>, head: nat, tail: nat, len: nat)
    requires |buf| == N && head < N && tail < N && head != tail && Accepts(side, buf[tail])
    requires ScanFrom(buf, head, ScanStart(side, tail), 0) == Found(len)
    ensures var p0 := ScanStart(side, tail);
            ReadSpec(side, buf, head, tail) ==
            ReadResult(true, buf[tail], if side == Server then buf[Pos(tail, 1)] else 0,
                       if side == Server then buf[Pos(tail, 2)] else 0,
                       Ring(buf, p0, len), Pos(p0, len + 1))
  {
  }

  /** The scan stops at the first NUL when no earlier position is head. */
  lemma {:induction false} ScanFinds(buf: seq<byte>, head: nat, p0: nat, len: nat, k: nat)
    requires |buf| == N && p0 < N && k <= len < N
    requires buf[Pos(p0, len)] == NUL
    requires forall j :: k <= j < len ==> buf[Pos(p0, j)] != NUL && Pos(p0, j) != head
    ensures ScanFrom(buf, head, p0, k) == Found(len)
    decreases len - k
  {
    if k < len {
      ScanFinds(buf, head, p0, len, k + 1);
    }
  }

  /** Round trip: on an empty channel, a frame one side writes is read by the other side
      as the same event type, page, subpage and message, and the channel is empty again. */
  lemma WriteThenRead(writer: Side, buf: seq<byte>, head: nat, etype: byte, page: byte, subpage: byte, msg: seq<byte>)
    requires |buf| == N && head < N && NulFree(msg)
    requires Accepts(Peer(writer), etype)
    requires WriteSpec(writer, buf, head, head, etype, page, subpage, msg).ok
    ensures var w := WriteSpec(writer, buf, head, head, etype, page, subpage, msg);
            var r := ReadSpec(Peer(writer), w.buf, w.head, head);
            r.ok && r.etype == etype && r.msg == msg && r.tail == w.head &&
            (writer == Client ==> r.page == page && r.subpage == subpage)
  {
    var w := WriteSpec(writer, buf, head, head, etype, page, subpage, msg);
    var frame := Framed(writer, etype, page, subpage, msg);
    WriteAppends(writer, buf, head, head, etype, page, subpage, msg);
    assert Ring(buf, head, Used(head, head)) == [];
    assert Peer(Peer(writer)) == writer;
    ReadFrame(Peer(writer), w.buf, w.head, head, etype, page, subpage, msg);
  }

  /** Every cell of `b` is that of `Overlay(old, h, frame)` as far as the first `w` bytes
      of the frame go, and that of `old` elsewhere. */
  ghost predicate WrittenUpTo(old_: seq<byte>, b: seq<byte>, h: nat, frame: seq<byte>, w: nat)
    requires |old_| == N && |b| == N && h < N && w <= |frame|
  {
    forall k :: 0 <= k < N ==> b[k] == if Offset(h, k) < w then frame[Offset(h, k)] else old_[k]
  }

  lemma WriteRun(old_: seq<byte>, b1: seq<byte>, b2: seq<byte>, h: nat, frame: seq<byte>, w: nat, at: nat, n: nat)
    requires |old_| == N && |b1| == N && |b2| == N && h < N && |frame| < N && w + n <= |frame|
    requires WrittenUpTo(old_, b1, h, frame, w)
    requires at == Pos(h, w) && at + n <= N
    requires forall k :: 0 <= k < N ==> b2[k] == if at <= k < at + n then frame[w + k - at] else b1[k]
    ensures WrittenUpTo(old_, b2, h, frame, w + n)
  {
    forall k | 0 <= k < N
      ensures b2[k] == if Offset(h, k) < w + n then frame[Offset(h, k)] else old_[k]
    {
      if at <= k < at + n {
        assert Offset(h, k) == w + k - at;
      } else {
        assert Offset(h, k) < w || Offset(h, k) >= w + n;
      }
    }
  }

  /** memcpy of `src` to `buf` at `at`. */
  method CopyBytes(buf: array<byte>, at: nat, src: seq<byte>)
    requires at + |src| <= buf.Length
    modifies buf
    ensures forall k :: 0 <= k < buf.Length ==>
              buf[k] == if at <= k < at + |src| then src[k - at] else old(buf[k])
  {
    var i := 0;
    while i < |src|
      invariant 0 <= i <= |src|
      invariant forall k :: 0 <= k < buf.Length ==>
                  buf[k] == if at <= k < at + i then src[k - at] else old(buf[k])
    {
      buf[at + i] := src[i];
      i := i + 1;
    }
  }

  /** The copy loop of sys_serial_read, from `nexttail` (N standing for 0) on. */
  method ScanMessage(buffer: array<byte>, head: nat, nexttail: nat) returns (found: bool, msg: seq<byte>, next: nat)
    requires buffer.Length == N && head < N && nexttail <= N
    ensures var p0 := if nexttail == N then 0 else nexttail;
            var s := ScanFrom(buffer[..], head, p0, 0);
            found == s.Found? && (found ==> msg == Ring(buffer[..], p0, s.len) && next == Pos(p0, s.len + 1))
  {
    var p0 := if nexttail == N then 0 else nexttail;
    ghost var buf := buffer[..];
    var pos := nexttail;
    var i := 0;
    msg := [];
    found := false;
    next := 0;
    while i < N
      invariant 0 <= i <= N && pos <= N && (if pos == N then 0 else pos) == Pos(p0, i)
      invariant ScanFrom(buf, head, p0, 0) == ScanFrom(buf, head, p0, i)
      invariant |msg| == i && forall k :: 0 <= k < i ==> msg[k] == buf[Pos(p0, k)]
    {
      if pos == N {
        pos := 0;
      }
      var b := buffer[pos];
      assert b == buf[Pos(p0, i)];
      if b == NUL {
        pos := pos + 1;
        if pos == N {
          pos := 0;
        }
        found := true;
        next := pos;
        break;
      }
      if pos == head {
        break;
      }
      msg := msg + [b];
      i := i + 1;
      pos := pos + 1;
    }
    if found {
      assert msg == Ring(buf, p0, i);
    }
  }

  /** The type byte, and page and subpage on the client. */
  function HeaderSize(side: Side): nat
  {
    if side == Client then 3 else 1
  }

  /** The first stores of sys_serial_write: the type at head, then on the client page
      and subpage, each one cell on, wrapping at N. Returns the cell of the last. */
  method WriteHeader(buffer: array<byte>, h0: nat, side: Side, etype: byte, page: byte, subpage: byte,
                     ghost frame: seq<byte>) returns (h: nat)
    requires buffer.Length == N && h0 < N && HeaderSize(side) <= |frame| < N
    requires frame[0] == etype && (side == Client ==> frame[1] == page && frame[2] == subpage)
    modifies buffer
    ensures h == Pos(h0, HeaderSize(side) - 1)
    ensures WrittenUpTo(old(buffer[..]), buffer[..], h0, frame, HeaderSize(side))
  {
    ghost var b0 := buffer[..];
    h := h0;
    buffer[h] := etype;
    WriteRun(b0, b0, buffer[..], h0, frame, 0, h, 1);
    if side == Client {
      h := h + 1;
      if h == N {
        h := 0;
      }
      ghost var b1 := buffer[..];
      buffer[h] := page;
      WriteRun(b0, b1, buffer[..], h0, frame, 1, h, 1);
      h := h + 1;
      if h == N {
        h := 0;
      }
      b1 := buffer[..];
      buffer[h] := subpage;
      WriteRun(b0, b1, buffer[..], h0, frame, 2, h, 1);
    }
  }

  /** The memcpy part of sys_serial_write: `size` - 1 bytes (the message and its NUL)
      after cell `h`, split in two when they run past the end. Returns the new head. */
  method WritePayload(buffer: array<byte>, h: nat, size: nat, src: seq<byte>,
                      ghost b0: seq<byte>, ghost h0: nat, ghost frame: seq<byte>, ghost w: nat)
    returns (nexthead: nat)
    requires buffer.Length == N && |b0| == N && h0 < N && 1 <= w < |frame| < N
    requires h == Pos(h0, w - 1) && size == |frame| - w + 1 && src == frame[w..]
    requires WrittenUpTo(b0, buffer[..], h0, frame, w)
    modifies buffer
    ensures WrittenUpTo(b0, buffer[..], h0, frame, |frame|) && nexthead == Pos(h0, |frame|)
  {
    nexthead := h + size;
    if nexthead > N {
      nexthead := nexthead - N;
      var firstpart := N - h - 1;
      if firstpart != 0 {
        ghost var b1 := buffer[..];
        CopyBytes(buffer, h + 1, src[..firstpart]);
        WriteRun(b0, b1, buffer[..], h0, frame, w, h + 1, firstpart);
      }
      ghost var b2 := buffer[..];
      CopyBytes(buffer, 0, src[firstpart..firstpart + nexthead]);
      WriteRun(b0, b2, buffer[..], h0, frame, w + firstpart, 0, nexthead);
    } else {
      if nexthead == N {
        nexthead := 0;
      }
      ghost var b1 := buffer[..];
      CopyBytes(buffer, h + 1, src[..size - 1]);
      WriteRun(b0, b1, buffer[..], h0, frame, w, h + 1, size - 1);
    }
  }

  lemma WrittenAll(b0: seq<byte>, b: seq<byte>, h0: nat, frame: seq<byte>)
    requires |b0| == N && |b| == N && h0 < N && WrittenUpTo(b0, b, h0, frame, |frame|)
    ensures b == Overlay(b0, h0, frame)
  {
  }

  /** sys_serial_shm_data_channel. */
  class Channel {
    var buffer: array<byte>
    var head: nat
    var tail: nat

    ghost predicate Valid()
      reads this
    {
      buffer.Length == N && head < N && tail < N
    }

    /** The bytes waiting to be read. */
    ghost function Contents(): seq<byte>
      reads this, buffer
      requires Valid()
    {
      Ring(buffer[..], tail, Used(head, tail))
    }

    /** The state the server's memset leaves: all zero, head == tail == 0. */
    constructor ()
      ensures Valid() && fresh(buffer) && head == 0 && tail == 0 && Contents() == []
      ensures forall k :: 0 <= k < N ==> buffer[k] == 0
    {
      buffer := new byte[N](_ => 0);
      head := 0;
      tail := 0;
    }

    /** sys_serial_write. `msg` is the string's bytes before its NUL. */
    method Write(side: Side, etype: byte, page: byte, subpage: byte, msg: seq<byte>) returns (ok: bool)
      requires Valid() && NulFree(msg)
      modifies this`head, buffer
      ensures Valid() && tail == old(tail)
      ensures var w := WriteSpec(side, old(buffer[..]), old(head), tail, etype, page, subpage, msg);
              ok == w.ok && buffer[..] == w.buf && head == w.head
    {
      ghost var b0 := buffer[..];
      ghost var h0 := head;
      ghost var frame := Framed(side, etype, page, subpage, msg);
      ghost var spec := WriteSpec(side, b0, h0, tail, etype, page, subpage, msg);
      var size := |msg|;
      if side == Server && size == 0 {
        return false;
      }
      if size >= N {
        return false;
      }
      size := size + 2;
      if side == Client {
        size := size + 2;
      }
      var h := head;
      var t := tail;
      var wrap := if t > h then 0 else N;
      if size >= wrap + t - h {
        return false;
      }
      assert spec.ok && |frame| == size < N;
      h := WriteHeader(buffer, h, side, etype, page, subpage, frame);
      if side == Client {
        size := size - 2;
      }
      var nexthead := WritePayload(buffer, h, size, msg + [NUL], b0, h0, frame, HeaderSize(side));
      head := nexthead;
      WrittenAll(b0, buffer[..], h0, frame);
      ok := true;
    }

    /** sys_serial_read. `page` and `subpage` are read on the server side only; the
        event type, page, subpage and message mean something only when `ok`. */
    method Read(side: Side) returns (ok: bool, etype: byte, page: byte, subpage: byte, msg: seq<byte>)
      requires Valid()
      modifies this`tail
      ensures Valid() && head == old(head) && buffer[..] == old(buffer[..])
      ensures var r := ReadSpec(side, buffer[..], head, old(tail));
              ok == r.ok && tail == r.tail &&
              (ok ==> etype == r.etype && msg == r.msg && page == r.page && subpage == r.subpage)
    {
      ghost var spec := ReadSpec(side, buffer[..], head, tail);
      etype, page, subpage, msg := 0, 0, 0, [];
      if head == tail {
        return false, 0, 0, 0, [];
      }
      var h := head;
      var t := tail;
      var firstbyte := buffer[t];
      if !Accepts(side, firstbyte) {
        tail := SkipInvalid(t);
        return false, 0, 0, 0, [];
      }
      var nexttail := t + 1;
      if side == Server {
        if nexttail == N {
          nexttail := 0;
        }
        page := buffer[nexttail];
        nexttail := nexttail + 1;
        if nexttail == N {
          nexttail := 0;
        }
        subpage := buffer[nexttail];
        nexttail := nexttail + 1;
      }
      assert (if nexttail == N then 0 else nexttail) == ScanStart(side, t) && nexttail <= N;
      var found;
      found, msg, nexttail := ScanMessage(buffer, h, nexttail);
      if !found {
        tail := h;
        return false, 0, 0, 0, [];
      }
      etype := firstbyte;
      tail := nexttail;
      ok := true;
    }
  }
}
