/** jppd_upload.py's _SMPSession as it is written, with its sequence counter, attempt
    loop and read loop, proved to follow the host of module Upload step by step. */
module HostSession {
  import opened Bytes
  import opened SerialDevice
  import opened Upload
  import Crc

  /** One call of _read_frame: a checked frame, or a RuntimeError. */
  datatype Input = Frame(reply: seq<byte>) | Nothing

  function React(job: Job, h: Host, i: Input): HostOut {
    match i
    case Frame(reply) => HostReceives(job, h, reply)
    case Nothing => HostTimesOut(job, h)
  }

  /** The host machine over a whole sequence of inputs. */
  function HostRun(job: Job, start: HostOut, ins: seq<Input>): HostOut {
    if ins == [] then start
    else
      var o := HostRun(job, start, ins[..|ins| - 1]);
      var r := React(job, o.host, ins[|ins| - 1]);
      HostOut(r.host, o.sent + r.sent)
  }

  lemma HostRunOne(job: Job, start: HostOut, ins: seq<Input>, i: Input)
    ensures var o := HostRun(job, start, ins); var r := React(job, o.host, i);
            HostRun(job, start, ins + [i]) == HostOut(r.host, o.sent + r.sent)
  {
    hide React;
    assert (ins + [i])[..|ins + [i]| - 1] == ins;
  }

  /** The serial port: frames written, inputs delivered so far, inputs still to come.
      A read with nothing left to come times out. */
  class Port {
    var sent: seq<seq<byte>>
    var taken: seq<Input>
    var coming: seq<Input>

    constructor (coming: seq<Input>)
      ensures sent == [] && taken == [] && this.coming == coming
    {
      sent, taken, this.coming := [], [], coming;
    }

    method Write(payload: seq<byte>)
      modifies this`sent
      ensures sent == old(sent) + [payload]
    {
      sent := sent + [payload];
    }

    /** Forget the history; a new upload is about to begin. */
    method Mark()
      modifies this`sent, this`taken
      ensures sent == [] && taken == []
    {
      sent, taken := [], [];
    }

    method Read() returns (i: Input)
      modifies this`taken, this`coming
      ensures taken == old(taken) + [i]
      ensures if old(coming) == [] then i == Nothing && coming == [] else i == old(coming)[0] && coming == old(coming)[1..]
    {
      if coming == [] {
        i := Nothing;
      } else {
        i := coming[0];
        coming := coming[1..];
      }
      taken := taken + [i];
    }
  }

  /** The host machine stands exactly one unsent frame ahead of the program. */
  ghost predicate AboutToSend(job: Job, o: HostOut, written: seq<seq<byte>>, phase: Phase, attempt: nat,
                              xferId: byte, seqNo: byte) {
    && Packs(job, phase)
    && o.host == Host(NextSeq(seqNo), phase, attempt, seqNo, xferId, false)
    && o.sent == written + [Payload(job, phase, xferId, seqNo)]
  }

  /** upload_file has raised, and everything the machine sent was written. */
  ghost predicate GaveUp(job: Job, o: HostOut, written: seq<seq<byte>>) {
    o.host.failed && o.sent == written
  }

  /** The last input was the response to the attempt just sent. */
  ghost predicate Matched(job: Job, start: HostOut, taken: seq<Input>, written: seq<seq<byte>>,
                           phase: Phase, xferId: byte, r: Response, seqNo: byte)
    requires r.Response?
  {
    && r.seqNo != SEQ_EVENT && taken != []
    && taken[|taken| - 1] == Frame([r.seqNo, r.status] + r.body)
    && var p := HostRun(job, start, taken[..|taken| - 1]);
       p.sent == written && !p.host.failed && p.host.phase == phase && p.host.xferId == xferId
       && p.host.cur == r.seqNo && p.host.nextSeq == seqNo
  }

  /** What the machine does with the response _cmd returned. */
  lemma AfterResponse(job: Job, start: HostOut, taken: seq<Input>, written: seq<seq<byte>>,
                      phase: Phase, xferId: byte, r: Response, seqNo: byte)
    requires r.Response? && !phase.Done? && Matched(job, start, taken, written, phase, xferId, r, seqNo)
    ensures var o := HostRun(job, start, taken);
            var next := After(job, phase);
            var good := r.status == OK && (phase.Begin? ==> r.body != []);
            && (!good || !Packs(job, next) ==> GaveUp(job, o, written))
            && (good && next.Done? ==> o.host.phase.Done? && o.sent == written && o.host.nextSeq == seqNo)
            && (good && !next.Done? && Packs(job, next) ==>
                  AboutToSend(job, o, written, next, 0, if phase.Begin? then r.body[0] else xferId, seqNo))
  {
    hide Payload, Packs, After, Chunks, HostReceives;
    var before := taken[..|taken| - 1];
    var p := HostRun(job, start, before);
    HostRunOne(job, start, before, Frame([r.seqNo, r.status] + r.body));
    assert taken == before + [Frame([r.seqNo, r.status] + r.body)];
    MatchReceived(job, p.host, r, written);
    hide HostRun, AboutToSend, GaveUp;
  }

  lemma MatchReceived(job: Job, h: Host, r: Response, written: seq<seq<byte>>)
    requires r.Response? && !h.failed && !h.phase.Done? && r.seqNo != SEQ_EVENT && r.seqNo == h.cur
    ensures var a := HostReceives(job, h, [r.seqNo, r.status] + r.body);
            var o := HostOut(a.host, written + a.sent);
            var next := After(job, h.phase);
            var good := r.status == OK && (h.phase.Begin? ==> r.body != []);
            && (!good || !Packs(job, next) ==> GaveUp(job, o, written))
            && (good && next.Done? ==> o.host.phase.Done? && o.sent == written && o.host.nextSeq == h.nextSeq)
            && (good && !next.Done? && Packs(job, next) ==>
                  AboutToSend(job, o, written, next, 0, if h.phase.Begin? then r.body[0] else h.xferId, h.nextSeq))
  {
    var reply := [r.seqNo, r.status] + r.body;
    assert |reply| == 2 + |r.body| && (r.body != [] ==> reply[2] == r.body[0]);
    assert written + [] == written;
    DonePacks(job);
    hide Payload, Packs, After, Chunks;
  }

  lemma DonePacks(job: Job)
    ensures Packs(job, Done)
  {
  }

  lemma PayloadIs(job: Job, phase: Phase, xferId: byte, s: byte)
    requires Packs(job, phase)
    ensures Payload(job, phase, xferId, s) == [s, CommandOf(phase), 0] + BodyOf(job, phase, xferId)
  {
  }

  lemma StaleSkipped(job: Job, h: Host, reply: seq<byte>)
    requires |reply| < 2 || reply[0] == SEQ_EVENT || reply[0] != h.cur
    ensures HostReceives(job, h, reply) == HostOut(h, [])
  {
  }

  /** A timeout either raises or puts the machine one frame ahead again. */
  lemma TimeoutOutcome(job: Job, h: Host, o: HostOut, written: seq<seq<byte>>)
    requires !h.failed && !h.phase.Done? && Packs(job, h.phase) && h.attempt <= Retries(h.phase)
    requires o == HostOut(HostTimesOut(job, h).host, written + HostTimesOut(job, h).sent)
    ensures h.attempt < Retries(h.phase) ==>
              AboutToSend(job, o, written, h.phase, h.attempt + 1, h.xferId, h.nextSeq)
    ensures h.attempt == Retries(h.phase) ==> GaveUp(job, o, written)
  {
    hide Payload, Packs;
  }

  datatype Response = Response(seqNo: byte, status: byte, body: seq<byte>) | Raised

  class SmpSession {
    var seqNo: byte
    const port: Port

    constructor (port: Port)
      ensures this.port == port && seqNo == 0
    {
      this.port := port;
      seqNo := 0;
    }

    /** _next_seq. */
    method NextSeqNo() returns (s: byte)
      modifies this`seqNo
      ensures s == old(seqNo) && seqNo == NextSeq(s)
    {
      s := seqNo;
      seqNo := (seqNo + 1) % 256;
      if seqNo == SEQ_EVENT {
        seqNo := 0;
      }
    }

    /** _cmd's read loop: skip events and stale responses until a match or a timeout. */
    method Await(s: byte, ghost job: Job, ghost start: HostOut, ghost h: Host) returns (r: Response)
      requires s == h.cur && s != SEQ_EVENT && !h.failed && h.nextSeq == seqNo
      requires HostRun(job, start, port.taken) == HostOut(h, port.sent)
      modifies port`taken, port`coming
      ensures old(port.taken) <= port.taken
      ensures r.Raised? ==> var t := HostTimesOut(job, h);
                            HostRun(job, start, port.taken) == HostOut(t.host, port.sent + t.sent)
      ensures r.Response? ==> Matched(job, start, port.taken, port.sent, h.phase, h.xferId, r, seqNo)
    {
      hide HostRun, HostReceives, HostTimesOut;
      while true
        invariant old(port.taken) <= port.taken
        invariant HostRun(job, start, port.taken) == HostOut(h, port.sent)
        decreases |port.coming|
      {
        ghost var before := port.taken;
        var i := port.Read();
        HostRunOne(job, start, before, i);
        if i.Nothing? {
          return Raised;
        }
        if |i.reply| >= 2 && i.reply[0] != SEQ_EVENT && i.reply[0] == s {
          assert port.taken[..|port.taken| - 1] == before;
          assert i.reply == [s, i.reply[1]] + i.reply[2..];
          return Response(s, i.reply[1], i.reply[2..]);
        }
        StaleSkipped(job, h, i.reply);
        assert port.sent + [] == port.sent;
      }
    }

    /** _cmd: send, read until the matching response, re-send on a timeout. The ghost
        arguments place the call in the run of the host machine that began in `start`. */
    method Cmd(cmd: byte, body: seq<byte>, retries: nat,
               ghost job: Job, ghost start: HostOut, ghost phase: Phase, ghost xferId: byte)
      returns (r: Response)
      requires !phase.Done? && seqNo != SEQ_EVENT
      requires AboutToSend(job, HostRun(job, start, port.taken), port.sent, phase, 0, xferId, seqNo)
      requires cmd == CommandOf(phase) && body == BodyOf(job, phase, xferId) && retries == Retries(phase)
      modifies this`seqNo, port
      ensures old(port.taken) <= port.taken && seqNo != SEQ_EVENT
      ensures r.Raised? ==> GaveUp(job, HostRun(job, start, port.taken), port.sent)
      ensures r.Response? ==> Matched(job, start, port.taken, port.sent, phase, xferId, r, seqNo)
    {
      var attempt := 0;
      hide HostRun, Send, Payload;
      while attempt < retries + 1
        invariant attempt <= retries + 1 && old(port.taken) <= port.taken && seqNo != SEQ_EVENT
        invariant attempt <= retries ==>
                    AboutToSend(job, HostRun(job, start, port.taken), port.sent, phase, attempt, xferId, seqNo)
        invariant attempt == retries + 1 ==> GaveUp(job, HostRun(job, start, port.taken), port.sent)
        decreases retries + 1 - attempt
      {
        var s := NextSeqNo();
        port.Write([s, cmd, 0] + body);
        PayloadIs(job, phase, xferId, s);
        r := Await(s, job, start, Host(seqNo, phase, attempt, s, xferId, false));
        if r.Response? {
          return;
        }
        TimeoutOutcome(job, Host(seqNo, phase, attempt, s, xferId, false), HostRun(job, start, port.taken), port.sent);
        attempt := attempt + 1;
      }
      r := Raised;
    }

    /** upload_file: BEGIN, the chunks in order, END; false stands for an exception. Its
        frames and its outcome are those of the host machine on the inputs it read. */
    method UploadFile(data: seq<byte>, remote: seq<byte>) returns (ok: bool)
      requires seqNo != SEQ_EVENT
      modifies this`seqNo, port
      ensures seqNo != SEQ_EVENT
      ensures var job := Job(data, remote);
              var o := HostRun(job, Launch(job, old(seqNo)), port.taken);
              && port.sent == o.sent
              && (ok ==> o.host.phase.Done? && o.host.nextSeq == seqNo)
              && (!ok ==> o.host.failed)
    {
      ghost var job := Job(data, remote);
      ghost var start := Launch(job, seqNo);
      port.Mark();
      hide HostRun, Payload, Chunks, ChunkData, Matched;
      StartsAhead(job, seqNo);
      if |data| >= 0x1_0000_0000 || 3 + 4 + |remote| + 1 > 0xFFFF {
        return false;
      }
      var fileSize := |data|;
      var fileCrc32 := Crc.Crc32(data);
      var nChunks := if fileSize > 0 then (fileSize + CHUNK_SIZE - 1) / CHUNK_SIZE else 0;
      ChunkCountIs(job);
      var r := Cmd(UPLOAD_BEGIN, Le32(fileSize) + (remote + [0]), 0, job, start, Begin, 0);
      if r.Raised? {
        return false;
      }
      AfterResponse(job, start, port.taken, port.sent, Begin, 0, r, seqNo);
      if r.status != OK || r.body == [] {
        return false;
      }
      var xferId := r.body[0];
      for idx := 0 to nChunks
        invariant seqNo != SEQ_EVENT
        invariant var phase := if idx < nChunks then Chunk(idx) else End;
                  if Packs(job, phase) then
                    AboutToSend(job, HostRun(job, start, port.taken), port.sent, phase, 0, xferId, seqNo)
                  else GaveUp(job, HostRun(job, start, port.taken), port.sent)
      {
        if idx > 0xFFFF {
          return false;
        }
        ChunkSlice(job, idx);
        var chunk := data[idx * CHUNK_SIZE..Min((idx + 1) * CHUNK_SIZE, |data|)];
        var r := Cmd(UPLOAD_CHUNK, [xferId] + Le16(idx) + chunk, 4, job, start, Chunk(idx), xferId);
        if r.Raised? {
          return false;
        }
        AfterResponse(job, start, port.taken, port.sent, Chunk(idx), xferId, r, seqNo);
        if r.status != OK {
          return false;
        }
      }
      r := Cmd(UPLOAD_END, [xferId] + Le32(fileCrc32), 0, job, start, End, xferId);
      if r.Raised? {
        return false;
      }
      AfterResponse(job, start, port.taken, port.sent, End, xferId, r, seqNo);
      return r.status == OK;
    }
  }

  lemma StartsAhead(job: Job, seqNo: byte)
    ensures HostRun(job, Launch(job, seqNo), []) == Launch(job, seqNo)
    ensures Packs(job, Begin) ==> AboutToSend(job, Launch(job, seqNo), [], Begin, 0, 0, seqNo)
    ensures !Packs(job, Begin) ==> GaveUp(job, Launch(job, seqNo), [])
  {
    hide Payload;
  }

  lemma ChunkCountIs(job: Job)
    ensures Chunks(job) == if |job.data| > 0 then (|job.data| + CHUNK_SIZE - 1) / CHUNK_SIZE else 0
  {
  }

  lemma ChunkSlice(job: Job, idx: nat)
    requires idx < Chunks(job)
    ensures idx * CHUNK_SIZE < |job.data|
    ensures ChunkData(job, idx) == job.data[idx * CHUNK_SIZE..Min((idx + 1) * CHUNK_SIZE, |job.data|)]
  {
  }
}
