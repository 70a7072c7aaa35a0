/** Messages of any length over acknowledged characteristic writes (jpp_ble_msg.c). */
module BleMsg {
  import opened Bytes
  import opened Crc
  import CrcStrength

  const CHUNK_MAX: nat := 400
  const BEGIN: byte := 0x01
  const DATA: byte := 0x02

  // ---- Sender ----

  function BeginFrame(len: nat, crc: nat): seq<byte>
    requires len < 0x1_0000_0000 && crc < 0x1_0000_0000
  {
    [BEGIN] + Le32(len) + Le32(crc)
  }

  function DataFrame(seqNo: nat, chunk: seq<byte>): seq<byte>
    requires seqNo < 0x1_0000
  {
    [DATA] + Le16(seqNo) + chunk
  }

  /** The data frames from byte `off` on; the 16-bit sequence number wraps. */
  function DataFrames(data: seq<byte>, off: nat, seqNo: nat): seq<seq<byte>>
    requires off <= |data| && seqNo < 0x1_0000
    decreases |data| - off
  {
    if off == |data| then []
    else
      var n := Min(|data| - off, CHUNK_MAX);
      [DataFrame(seqNo, data[off..off + n])] + DataFrames(data, off + n, (seqNo + 1) % 0x1_0000)
  }

  function Frames(data: seq<byte>): seq<seq<byte>>
    requires |data| < 0x1_0000_0000
  {
    [BeginFrame(|data|, Crc32(data))] + DataFrames(data, 0, 0)
  }

  /** jpp_ble_msg_send; the peer accepts the first `willing` writes. */
  method Send(data: seq<byte>, willing: nat) returns (ok: bool, written: seq<seq<byte>>)
    requires |data| < 0x1_0000_0000
    ensures ok <==> |Frames(data)| <= willing
    ensures written == Frames(data)[..Min(willing, |Frames(data)|)]
  {
    hide Crc32;
    var crc := BleCrc32Buf(data);
    written := [];
    if willing == 0 {
      return false, [];
    }
    written := [BeginFrame(|data|, crc as nat)];
    var off: nat, seqNo: nat := 0, 0;
    while off < |data|
      invariant off <= |data| && seqNo < 0x1_0000 && |written| <= willing
      invariant Frames(data) == written + DataFrames(data, off, seqNo)
    {
      var n := |data| - off;
      if n > CHUNK_MAX {
        n := CHUNK_MAX;
      }
      var frame := DataFrame(seqNo, data[off..off + n]);
      if |written| == willing {
        return false, written;
      }
      assert written + DataFrames(data, off, seqNo)
          == (written + [frame]) + DataFrames(data, off + n, (seqNo + 1) % 0x1_0000);
      written := written + [frame];
      off := off + n;
      seqNo := (seqNo + 1) % 0x1_0000;
    }
    ok := true;
  }

  lemma NumberOf(seqNo: nat, k: nat)
    requires k > 0
    ensures ((seqNo + 1) % 0x1_0000 + (k - 1)) % 0x1_0000 == (seqNo + k) % 0x1_0000
  {
  }

  lemma {:induction false} DataFrameAt(data: seq<byte>, off: nat, seqNo: nat, k: nat)
    requires off <= |data| && seqNo < 0x1_0000
    ensures |DataFrames(data, off, seqNo)| == (|data| - off + 399) / 400
    ensures off + 400 * k < |data| ==>
              k < |DataFrames(data, off, seqNo)| &&
              DataFrames(data, off, seqNo)[k] == DataFrame((seqNo + k) % 0x1_0000, data[off + 400 * k..Min(off + 400 * k + 400, |data|)])
    decreases |data| - off
  {
    hide DataFrame;
    if off < |data| {
      var n := Min(|data| - off, CHUNK_MAX);
      DataFrameAt(data, off + n, (seqNo + 1) % 0x1_0000, if k == 0 then 0 else k - 1);
      if k > 0 {
        NumberOf(seqNo, k);
      }
    }
  }

  lemma BeginOnAir(n: nat, crc: nat)
    requires n < 0x1_0000_0000 && crc < 0x1_0000_0000
    ensures BeginFrame(n, crc) == [1, n % 256, n / 256 % 256, n / 0x1_0000 % 256, n / 0x100_0000,
                                   crc % 256, crc / 256 % 256, crc / 0x1_0000 % 256, crc / 0x100_0000]
  {
    Digits256(n);
    Digits256(crc);
    hide Le32;
  }

  lemma DataOnAir(k: nat, chunk: seq<byte>)
    ensures DataFrame(k % 0x1_0000, chunk) == [2, k % 256, k / 256 % 256] + chunk
  {
    var s := k % 0x1_0000;
    assert s % 256 == k % 256 && s / 256 == k / 256 % 256;
  }

  /** The writes on the air, byte by byte: one frame with type 1, length and checksum, then
      the data in order, 400 bytes to a frame, with type 2 and the number of the frame. */
  lemma FramesOnAir(data: seq<byte>, k: nat)
    requires |data| < 0x1_0000_0000
    ensures var fs, n, crc := Frames(data), |data|, Crc32(data);
            && |fs| == 1 + (n + 399) / 400
            && fs[0] == [1, n % 256, n / 256 % 256, n / 0x1_0000 % 256, n / 0x100_0000,
                         crc % 256, crc / 256 % 256, crc / 0x1_0000 % 256, crc / 0x100_0000]
            && (400 * k < n ==>
                  fs[k + 1] == [2, k % 256, k / 256 % 256] + data[400 * k..Min(400 * k + 400, n)])
  {
    hide Crc32, DataFrames, BeginFrame, DataFrame;
    DataFrameAt(data, 0, 0, k);
    BeginOnAir(|data|, Crc32(data));
    if 400 * k < |data| {
      DataOnAir(k, data[400 * k..Min(400 * k + 400, |data|)]);
    }
  }

  // ---- Receiver ----

  datatype Outcome = Received(msg: seq<byte>) | Timeout | Protocol | TooBig | BadCrc

  /** have_begin, total, want_crc, the bytes stored so far, next_seq. */
  datatype State = State(haveBegin: bool, total: nat, wantCrc: nat, got: seq<byte>, nextSeq: nat)

  const Fresh := State(false, 0, 0, [], 0)

  /** What one frame does: wait for more, or finish. */
  datatype Next = More(st: State) | Finish(out: Outcome)

  function Take(st: State, f: seq<byte>, cap: nat): Next {
    if |f| < 1 then More(st)
    else if f[0] == BEGIN then
      if |f| < 9 then Finish(Protocol)
      else
        var total, wantCrc := FromLe32(f[1..5]), FromLe32(f[5..9]);
        if total > cap then Finish(TooBig)
        else if total == 0 then Finish(if Crc32([]) == wantCrc then Received([]) else BadCrc)
        else More(State(true, total, wantCrc, [], 0))
    else if f[0] == DATA then
      if !st.haveBegin then More(st)
      else if |f| < 3 then Finish(Protocol)
      else if FromLe16(f[1], f[2]) != st.nextSeq then Finish(Protocol)
      else if |st.got| + |f| - 3 > st.total then Finish(Protocol)
      else
        var got := st.got + f[3..];
        if |got| < st.total then More(st.(got := got, nextSeq := (st.nextSeq + 1) % 0x1_0000))
        else Finish(if Crc32(got) == st.wantCrc then Received(got) else BadCrc)
    else if !st.haveBegin then More(st)
    else Finish(Protocol)
  }

  /** The frames delivered from now on; after the last one the wait times out. */
  function Receive(st: State, frames: seq<seq<byte>>, cap: nat): Outcome
    decreases |frames|
  {
    if frames == [] then Timeout
    else
      match Take(st, frames[0], cap)
      case More(st') => Receive(st', frames[1..], cap)
      case Finish(out) => out
  }

  /** jpp_ble_msg_host_recv into a caller's buffer. No write passes `cap`. */
  method HostRecv(frames: seq<seq<byte>>, outBuf: array<byte>, cap: nat) returns (out: Outcome, outLen: nat)
    requires cap <= outBuf.Length
    modifies outBuf
    ensures out == Receive(Fresh, frames, cap)
    ensures out.Received? ==> outLen == |out.msg| <= cap && outBuf[..outLen] == out.msg
    ensures outBuf[cap..] == old(outBuf[cap..])
  {
    hide Crc32, Take, Receive;
    outLen := 0;
    var haveBegin := false;
    var total: nat, wantCrc: nat, off: nat, nextSeq: nat := 0, 0, 0, 0;
    var i: nat := 0;
    assert frames[0..] == frames;
    while i < |frames|
      invariant i <= |frames| && off <= total <= cap
      invariant Receive(Fresh, frames, cap)
             == Receive(State(haveBegin, total, wantCrc, outBuf[..off], nextSeq), frames[i..], cap)
      invariant outBuf[cap..] == old(outBuf[cap..])
    {
      ghost var st := State(haveBegin, total, wantCrc, outBuf[..off], nextSeq);
      var rx := frames[i];
      ReceiveStep(st, frames[i..], cap);
      TakeIs(st, rx, cap);
      assert frames[i..][1..] == frames[i + 1..] && frames[i..][0] == rx;
      i := i + 1;
      if |rx| < 1 {
        continue;
      }
      if rx[0] == BEGIN {
        if |rx| < 9 {
          return Protocol, 0;
        }
        total, wantCrc := FromLe32(rx[1..5]), FromLe32(rx[5..9]);
        if total > cap {
          return TooBig, 0;
        }
        off, nextSeq, haveBegin := 0, 0, true;
        if total == 0 {
          var crc := BleCrc32Buf([]);
          assert outBuf[..0] == [];
          return if crc as nat == wantCrc then Received([]) else BadCrc, 0;
        }
        assert outBuf[..off] == [];
      } else if rx[0] == DATA {
        if !haveBegin {
          continue;
        }
        if |rx| < 3 || FromLe16(rx[1], rx[2]) != nextSeq {
          return Protocol, 0;
        }
        var n := |rx| - 3;
        if off + n > total {
          return Protocol, 0;
        }
        StoreAt(outBuf, off, rx[3..]);
        off := off + n;
        nextSeq := (nextSeq + 1) % 0x1_0000;
        if off == total {
          var crc := BleCrc32Buf(outBuf[..total]);
          if crc as nat != wantCrc {
            return BadCrc, 0;
          }
          return Received(outBuf[..total]), total;
        }
      } else if !haveBegin {
        continue;
      } else {
        return Protocol, 0;
      }
    }
    EndOfFrames(State(haveBegin, total, wantCrc, outBuf[..off], nextSeq), cap);
    assert frames[i..] == [];
    return Timeout, 0;
  }

  /** memcpy(out + off, data, len). */
  method StoreAt(buf: array<byte>, off: nat, data: seq<byte>)
    requires off + |data| <= buf.Length
    modifies buf
    ensures buf[..off + |data|] == old(buf[..off]) + data
    ensures buf[off + |data|..] == old(buf[off + |data|..])
  {
    for k := 0 to |data|
      invariant buf[..off] == old(buf[..off])
      invariant buf[off..off + k] == data[..k]
      invariant buf[off + |data|..] == old(buf[off + |data|..])
    {
      buf[off + k] := data[k];
      assert buf[off..off + k + 1] == buf[off..off + k] + [data[k]];
    }
    assert buf[..off + |data|] == buf[..off] + buf[off..off + |data|];
  }

  lemma EndOfFrames(st: State, cap: nat)
    ensures Receive(st, [], cap) == Timeout
  {
  }

  lemma TakeIs(st: State, f: seq<byte>, cap: nat)
    ensures Take(st, f, cap) ==
      if |f| < 1 then More(st)
      else if f[0] == BEGIN then
        if |f| < 9 then Finish(Protocol)
        else if FromLe32(f[1..5]) > cap then Finish(TooBig)
        else if FromLe32(f[1..5]) == 0 then Finish(if Crc32([]) == FromLe32(f[5..9]) then Received([]) else BadCrc)
        else More(State(true, FromLe32(f[1..5]), FromLe32(f[5..9]), [], 0))
      else if f[0] != DATA then if st.haveBegin then Finish(Protocol) else More(st)
      else if !st.haveBegin then More(st)
      else if |f| < 3 || FromLe16(f[1], f[2]) != st.nextSeq || |st.got| + |f| - 3 > st.total then Finish(Protocol)
      else if |st.got + f[3..]| < st.total then More(st.(got := st.got + f[3..], nextSeq := (st.nextSeq + 1) % 0x1_0000))
      else Finish(if Crc32(st.got + f[3..]) == st.wantCrc then Received(st.got + f[3..]) else BadCrc)
  {
    hide Crc32;
  }

  lemma ReceiveStep(st: State, frames: seq<seq<byte>>, cap: nat)
    requires frames != []
    ensures var t := Take(st, frames[0], cap);
            Receive(st, frames, cap) == if t.More? then Receive(t.st, frames[1..], cap) else t.out
  {
  }

  // ---- Round trip ----

  lemma TakeData(st: State, chunk: seq<byte>, cap: nat)
    requires st.haveBegin && st.nextSeq < 0x1_0000 && |st.got| + |chunk| <= st.total
    ensures var got := st.got + chunk;
            Take(st, DataFrame(st.nextSeq, chunk), cap)
            == if |got| < st.total then More(st.(got := got, nextSeq := (st.nextSeq + 1) % 0x1_0000))
               else Finish(if Crc32(got) == st.wantCrc then Received(got) else BadCrc)
  {
    hide Crc32;
    var f := DataFrame(st.nextSeq, chunk);
    assert f[1] == Le16(st.nextSeq)[0] && f[2] == Le16(st.nextSeq)[1];
    assert f[3..] == chunk;
  }

  lemma TakeBegin(st: State, len: nat, crc: nat, cap: nat)
    requires len < 0x1_0000_0000 && crc < 0x1_0000_0000 && len <= cap
    ensures Take(st, BeginFrame(len, crc), cap)
         == if len == 0 then Finish(if Crc32([]) == crc then Received([]) else BadCrc)
            else More(State(true, len, crc, [], 0))
  {
    hide Crc32;
    var f := BeginFrame(len, crc);
    assert f[1..5] == Le32(len) && f[5..9] == Le32(crc);
    Le32RoundTrip(len);
    Le32RoundTrip(crc);
  }

  /** Data frames in order complete the message, whatever the sequence number wraps to. */
  lemma {:induction false} DataCompletes(data: seq<byte>, off: nat, st: State, tail: seq<seq<byte>>, cap: nat)
    requires off < |data| && st == State(true, |data|, st.wantCrc, data[..off], st.nextSeq) && st.nextSeq < 0x1_0000
    ensures Receive(st, DataFrames(data, off, st.nextSeq) + tail, cap)
         == if Crc32(data) == st.wantCrc then Received(data) else BadCrc
    decreases |data| - off
  {
    hide Crc32, Take, DataFrame;
    var n := Min(|data| - off, CHUNK_MAX);
    var frames := DataFrames(data, off, st.nextSeq) + tail;
    var chunk := data[off..off + n];
    assert frames[0] == DataFrame(st.nextSeq, chunk);
    assert frames[1..] == DataFrames(data, off + n, (st.nextSeq + 1) % 0x1_0000) + tail;
    assert data[..off] + chunk == data[..off + n];
    TakeData(st, chunk, cap);
    ReceiveStep(st, frames, cap);
    if off + n < |data| {
      DataCompletes(data, off + n, st.(got := data[..off + n], nextSeq := (st.nextSeq + 1) % 0x1_0000), tail, cap);
    } else {
      assert data[..off + n] == data;
    }
  }

  /** From any receiver state a complete transfer delivers its message. */
  lemma TransferDelivers(st: State, data: seq<byte>, tail: seq<seq<byte>>, cap: nat)
    requires |data| <= cap && |data| < 0x1_0000_0000
    ensures Receive(st, Frames(data) + tail, cap) == Received(data)
  {
    hide Crc32, Take, BeginFrame;
    var frames := Frames(data) + tail;
    assert frames[0] == BeginFrame(|data|, Crc32(data));
    assert frames[1..] == DataFrames(data, 0, 0) + tail;
    TakeBegin(st, |data|, Crc32(data), cap);
    ReceiveStep(st, frames, cap);
    if data != [] {
      DataCompletes(data, 0, State(true, |data|, Crc32(data), [], 0), tail, cap);
    }
  }

  lemma {:induction false} StraySkipped(stray: seq<seq<byte>>, rest: seq<seq<byte>>, cap: nat)
    requires forall f | f in stray :: f == [] || f[0] != BEGIN
    ensures Receive(Fresh, stray + rest, cap) == Receive(Fresh, rest, cap)
  {
    if stray == [] {
      assert stray + rest == rest;
    } else {
      assert stray[0] in stray;
      assert (stray + rest)[1..] == stray[1..] + rest;
      StraySkipped(stray[1..], rest, cap);
    }
  }

  /** The first k data frames of a transfer leave the receiver waiting. */
  lemma {:induction false} PartialWaits(data: seq<byte>, off: nat, st: State, k: nat, rest: seq<seq<byte>>, cap: nat)
    requires off < |data| && st == State(true, |data|, st.wantCrc, data[..off], st.nextSeq) && st.nextSeq < 0x1_0000
    requires k < |DataFrames(data, off, st.nextSeq)|
    ensures exists st' :: Receive(st, DataFrames(data, off, st.nextSeq)[..k] + rest, cap) == Receive(st', rest, cap)
    decreases |data| - off
  {
    hide Crc32, Take, DataFrame;
    var all := DataFrames(data, off, st.nextSeq);
    if k == 0 {
      assert all[..k] + rest == rest;
      assert Receive(st, all[..k] + rest, cap) == Receive(st, rest, cap);
    } else {
      var n := Min(|data| - off, CHUNK_MAX);
      var chunk := data[off..off + n];
      var more := DataFrames(data, off + n, (st.nextSeq + 1) % 0x1_0000);
      assert all == [DataFrame(st.nextSeq, chunk)] + more;
      var frames := all[..k] + rest;
      assert frames[0] == DataFrame(st.nextSeq, chunk) && frames[1..] == more[..k - 1] + rest;
      assert off + n < |data|;
      assert data[..off] + chunk == data[..off + n];
      TakeData(st, chunk, cap);
      ReceiveStep(st, frames, cap);
      PartialWaits(data, off + n, st.(got := data[..off + n], nextSeq := (st.nextSeq + 1) % 0x1_0000), k - 1, rest, cap);
    }
  }

  /** A transfer that stopped short: a proper prefix of a message's frames. */
  datatype Abandoned = Abandoned(data: seq<byte>, frames: nat)

  predicate Fits(a: Abandoned, cap: nat) {
    0 < |a.data| <= cap && |a.data| < 0x1_0000_0000 && a.frames < |Frames(a.data)|
  }

  function Leftovers(olds: seq<Abandoned>, cap: nat): seq<seq<byte>>
    requires forall i | 0 <= i < |olds| :: Fits(olds[i], cap)
  {
    if olds == [] then []
    else
      assert Fits(olds[0], cap);
      Frames(olds[0].data)[..olds[0].frames] + Leftovers(olds[1..], cap)
  }

  lemma AbandonedWaits(a: Abandoned, st: State, rest: seq<seq<byte>>, cap: nat)
    requires Fits(a, cap)
    ensures exists st' :: Receive(st, Frames(a.data)[..a.frames] + rest, cap) == Receive(st', rest, cap)
  {
    hide Crc32, Take, BeginFrame;
    var all := Frames(a.data);
    if a.frames == 0 {
      assert all[..0] + rest == rest;
      assert Receive(st, all[..0] + rest, cap) == Receive(st, rest, cap);
    } else {
      var frames := all[..a.frames] + rest;
      var st1 := State(true, |a.data|, Crc32(a.data), [], 0);
      assert frames[0] == BeginFrame(|a.data|, Crc32(a.data));
      assert frames[1..] == DataFrames(a.data, 0, 0)[..a.frames - 1] + rest;
      TakeBegin(st, |a.data|, Crc32(a.data), cap);
      ReceiveStep(st, frames, cap);
      PartialWaits(a.data, 0, st1, a.frames - 1, rest, cap);
    }
  }

  lemma {:induction false} LeftoversThenTransfer(olds: seq<Abandoned>, st: State, data: seq<byte>,
                                                 tail: seq<seq<byte>>, cap: nat)
    requires forall i | 0 <= i < |olds| :: Fits(olds[i], cap)
    requires |data| <= cap && |data| < 0x1_0000_0000
    ensures Receive(st, Leftovers(olds, cap) + Frames(data) + tail, cap) == Received(data)
    decreases |olds|
  {
    hide Frames, Receive, Fits;
    if olds == [] {
      assert Leftovers(olds, cap) + Frames(data) + tail == Frames(data) + tail;
      TransferDelivers(st, data, tail, cap);
    } else {
      var a := olds[0];
      var rest := Leftovers(olds[1..], cap) + Frames(data) + tail;
      AbandonedBounds(a, cap);
      assert Leftovers(olds, cap) + Frames(data) + tail == Frames(a.data)[..a.frames] + rest;
      AbandonedWaits(a, st, rest, cap);
      var st' :| Receive(st, Frames(a.data)[..a.frames] + rest, cap) == Receive(st', rest, cap);
      LeftoversThenTransfer(olds[1..], st', data, tail, cap);
    }
  }

  lemma AbandonedBounds(a: Abandoned, cap: nat)
    requires Fits(a, cap)
    ensures |a.data| < 0x1_0000_0000 && a.frames < |Frames(a.data)|
  {
  }

  /** The sender's writes, delivered once and in order, give back exactly the message,
      after any stray frames before the first transfer and any number of transfers
      abandoned half-way. */
  lemma MessageRoundTrip(stray: seq<seq<byte>>, olds: seq<Abandoned>, data: seq<byte>, tail: seq<seq<byte>>, cap: nat)
    requires forall f | f in stray :: f == [] || f[0] != BEGIN
    requires forall i | 0 <= i < |olds| :: Fits(olds[i], cap)
    requires |data| <= cap && |data| < 0x1_0000_0000
    ensures Receive(Fresh, stray + (Leftovers(olds, cap) + Frames(data) + tail), cap) == Received(data)
  {
    hide Frames, Receive, Fits;
    StraySkipped(stray, Leftovers(olds, cap) + Frames(data) + tail, cap);
    LeftoversThenTransfer(olds, Fresh, data, tail, cap);
  }

  /** Bytes changed within four adjacent positions on the way are always noticed. */
  lemma CorruptionNoticed(st: State, pre: seq<byte>, x: seq<byte>, y: seq<byte>, post: seq<byte>,
                          tail: seq<seq<byte>>, cap: nat)
    requires |x| == |y| <= 4 && x != y
    requires |pre + x + post| <= cap && |pre + x + post| < 0x1_0000_0000
    ensures var sent, got := pre + x + post, pre + y + post;
            Receive(st, [BeginFrame(|sent|, Crc32(sent))] + DataFrames(got, 0, 0) + tail, cap) == BadCrc
  {
    hide Crc32, Take, BeginFrame;
    var sent, got := pre + x + post, pre + y + post;
    CrcStrength.BurstDetected32(pre, x, y, post);
    var frames := [BeginFrame(|sent|, Crc32(sent))] + DataFrames(got, 0, 0) + tail;
    assert frames[1..] == DataFrames(got, 0, 0) + tail;
    TakeBegin(st, |sent|, Crc32(sent), cap);
    ReceiveStep(st, frames, cap);
    DataCompletes(got, 0, State(true, |got|, Crc32(sent), [], 0), tail, cap);
  }

  // ---- Arbitrary frame streams ----

  predicate IsBegin(f: seq<byte>) { |f| >= 9 && f[0] == BEGIN }

  /** The payloads of the data frames of a stream, joined. */
  function Payloads(frames: seq<seq<byte>>): seq<byte> {
    if frames == [] then []
    else
      var f := frames[|frames| - 1];
      Payloads(frames[..|frames| - 1]) + if |f| >= 3 && f[0] == DATA then f[3..] else []
  }

  /** `msg` is what was sent after the last BEGIN among `past`, under that BEGIN. */
  ghost predicate SinceLastBegin(past: seq<seq<byte>>, i: nat, total: nat, crc: nat, msg: seq<byte>) {
    && i < |past| && IsBegin(past[i]) && FromLe32(past[i][1..5]) == total && FromLe32(past[i][5..9]) == crc
    && (forall j :: i < j < |past| ==> !IsBegin(past[j]))
    && Payloads(past[i + 1..]) == msg
  }

  ghost predicate Explains(st: State, past: seq<seq<byte>>, cap: nat) {
    st.haveBegin ==>
      && |st.got| < st.total <= cap
      && exists i :: SinceLastBegin(past, i, st.total, st.wantCrc, st.got)
  }

  /** An accepted message: sent since the last BEGIN, of the announced length and checksum. */
  ghost predicate Justified(msg: seq<byte>, past: seq<seq<byte>>, cap: nat) {
    && |msg| <= cap
    && exists i :: SinceLastBegin(past, i, |msg|, Crc32(msg), msg)
  }

  lemma SinceExtends(past: seq<seq<byte>>, i: nat, total: nat, crc: nat, msg: seq<byte>, f: seq<byte>)
    requires SinceLastBegin(past, i, total, crc, msg) && !IsBegin(f)
    ensures SinceLastBegin(past + [f], i, total, crc, msg + if |f| >= 3 && f[0] == DATA then f[3..] else [])
  {
    assert (past + [f])[i + 1..] == past[i + 1..] + [f];
    assert (past[i + 1..] + [f])[..|past[i + 1..]|] == past[i + 1..];
  }

  lemma TakeExplained(st: State, past: seq<seq<byte>>, f: seq<byte>, cap: nat)
    requires Explains(st, past, cap)
    ensures var t := Take(st, f, cap);
            && (t.More? ==> Explains(t.st, past + [f], cap))
            && (t.Finish? && t.out.Received? ==> Justified(t.out.msg, past + [f], cap))
  {
    hide Crc32;
    if IsBegin(f) {
      assert SinceLastBegin(past + [f], |past|, FromLe32(f[1..5]), FromLe32(f[5..9]), []) by {
        assert (past + [f])[|past| + 1..] == [];
      }
    } else if st.haveBegin {
      var i :| SinceLastBegin(past, i, st.total, st.wantCrc, st.got);
      SinceExtends(past, i, st.total, st.wantCrc, st.got, f);
      assert st.got + [] == st.got;
    }
    hide SinceLastBegin;
  }

  /** Whatever frames arrive, an accepted message is the concatenation of the data sent
      since the last BEGIN, with the length and CRC-32 that BEGIN announced, and fits. */
  lemma {:induction false} AcceptedIsJustified(st: State, past: seq<seq<byte>>, frames: seq<seq<byte>>,
                                               cap: nat, msg: seq<byte>) returns (n: nat)
    requires Explains(st, past, cap) && Receive(st, frames, cap) == Received(msg)
    ensures n <= |frames| && Justified(msg, past + frames[..n], cap)
    decreases |frames|
  {
    hide Take, Explains, Justified;
    TakeExplained(st, past, frames[0], cap);
    ReceiveStep(st, frames, cap);
    hide Receive;
    var t := Take(st, frames[0], cap);
    if t.Finish? {
      assert frames[..1] == [frames[0]];
      n := 1;
    } else {
      n := AcceptedIsJustified(t.st, past + [frames[0]], frames[1..], cap, msg);
      assert past + [frames[0]] + frames[1..][..n] == past + frames[..n + 1];
      n := n + 1;
    }
  }

  lemma AcceptedFromStart(frames: seq<seq<byte>>, cap: nat, msg: seq<byte>)
    ensures Receive(Fresh, frames, cap) == Received(msg) ==>
            exists n: nat :: n <= |frames| && Justified(msg, frames[..n], cap)
  {
    hide Receive, Justified;
    if Receive(Fresh, frames, cap) == Received(msg) {
      var n := AcceptedIsJustified(Fresh, [], frames, cap, msg);
      assert [] + frames[..n] == frames[..n];
    }
  }
}
