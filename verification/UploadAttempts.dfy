/** One attempt of an upload command against the clock: heard, lost, or refused by a device
    whose session timer has expired or whose chunk counter has wrapped. */
module UploadAttempts {
  import opened Bytes
  import opened Crc
  import opened SerialDevice
  import opened Upload
  import Framing
  import Commands

  /** SMP_SESSION_TIMEOUT_MS */
  const SESSION_MS: nat := 30000

  // Below, `q` is how long ago the session timer was armed; from SESSION_MS on it has
  // expired and nothing a client can send arms it again.

  /** What happens on the device while it hears nothing. */
  function TimerRuns(q: nat, dt: nat): seq<Step> {
    if q < SESSION_MS <= q + dt then [TimerExpires] else []
  }

  /** A command arrives: it arms the timer in a session. */
  function Heard(q: nat): nat {
    if q < SESSION_MS then 0 else q
  }

  // ---- Steps that need not be possible ----

  /** Steps played out: nothing happens any more once the host has raised, nor what is not
      possible. */
  function Play(job: Job, s: System, steps: seq<Step>): System
    decreases |steps|
  {
    if steps == [] then s else Play(job, Happen(job, s, steps[0]), steps[1..])
  }

  function Happen(job: Job, s: System, step: Step): System {
    if !s.host.failed && Enabled(s, step) then Do(job, s, step) else s
  }

  /** The steps of it that do happen. */
  function Taken(job: Job, s: System, steps: seq<Step>): seq<Step>
    decreases |steps|
  {
    if steps == [] then []
    else
      (if !s.host.failed && Enabled(s, steps[0]) then [steps[0]] else []) + Taken(job, Happen(job, s, steps[0]), steps[1..])
  }

  lemma {:induction false} PlayIsRun(job: Job, s: System, steps: seq<Step>)
    ensures Possible(job, s, Taken(job, s, steps)) && Run(job, s, Taken(job, s, steps)) == Play(job, s, steps)
    decreases |steps|
  {
    hide Do, Enabled;
    if steps != [] {
      PlayIsRun(job, Happen(job, s, steps[0]), steps[1..]);
      var rest := Taken(job, Happen(job, s, steps[0]), steps[1..]);
      assert [steps[0]] + rest != [] && ([steps[0]] + rest)[1..] == rest;
      assert [] + rest == rest;
    }
  }

  lemma {:induction false} PlayAppend(job: Job, s: System, a: seq<Step>, b: seq<Step>)
    ensures Play(job, s, a + b) == Play(job, Play(job, s, a), b)
    decreases |a|
  {
    hide Happen;
    if a == [] {
      assert a + b == b;
    } else {
      assert (a + b)[1..] == a[1..] + b;
      PlayAppend(job, Happen(job, s, a[0]), a[1..], b);
    }
  }

  lemma {:induction false} PlayRaised(job: Job, s: System, steps: seq<Step>)
    requires s.host.failed
    ensures Play(job, s, steps) == s
    decreases |steps|
  {
    hide Do, Enabled;
    if steps != [] {
      PlayRaised(job, s, steps[1..]);
    }
  }

  lemma PlayOne(job: Job, s: System, a: Step)
    ensures Play(job, s, [a]) == Happen(job, s, a)
  {
    hide Happen;
    assert [a][1..] == [];
    assert Play(job, Happen(job, s, a), []) == Happen(job, s, a);
  }

  lemma PlayTwo(job: Job, s: System, a: Step, b: Step)
    ensures Play(job, s, [a, b]) == Happen(job, Happen(job, s, a), b)
  {
    hide Happen, Play;
    PlayOne(job, s, a);
    PlayOne(job, Happen(job, s, a), b);
    PlayAppend(job, s, [a], [b]);
    assert [a] + [b] == [a, b];
  }

  lemma PlayThree(job: Job, s: System, a: Step, b: Step, c: Step)
    ensures Play(job, s, [a, b, c]) == Happen(job, Happen(job, Happen(job, s, a), b), c)
  {
    hide Happen, Play;
    PlayOne(job, s, a);
    PlayTwo(job, Happen(job, s, a), b, c);
    PlayAppend(job, s, [a], [b, c]);
    assert [a] + [b, c] == [a, b, c];
  }

  /** The device can take the upload: a session without a transfer, a path on the card, and
      a begin command no longer than a device frame. */
  predicate MayBegin(job: Job, d: Device) {
    && d.session && !d.xfer.active && Commands.OnCard(DevicePath(job))
    && |job.remote| + 8 <= Framing.DEVICE_MAX
  }

  ghost predicate Ideal(env: Env) {
    env.openOk && CHUNK_SIZE <= env.writable
  }

  // ---- States between two attempts ----

  /** An attempt is about to be made and no harm is done so far; the device may be a chunk
      ahead, if the last reply was lost. */
  ghost predicate Smooth(job: Job, s: System) {
    && Inv(job, s, s.dev.files) && !s.host.failed && s.dev.session && s.dev.timerArmed
    && s.toHost == []
    && (!s.host.phase.Done? ==> s.toDev == [Payload(job, s.host.phase, s.host.xferId, s.host.cur)])
    && SdPrefixOk(DevicePath(job)) && |job.remote| + 8 <= Framing.DEVICE_MAX
    && (s.host.phase.Done? || (s.host.phase.Begin? <==> !s.dev.xfer.active))
    && (s.host.phase.Chunk? ==> Expects(s.dev, s.host.phase.idx))
  }

  predicate Expects(d: Device, idx: nat) {
    d.xfer.nextChunk == idx || (d.xfer.nextChunk == idx + 1 && idx < 0xFFFF)
  }

  /** An attempt is about to be made, and the device will refuse this and any other attempt:
      its session is over, or its chunk counter has wrapped. */
  ghost predicate Stuck(job: Job, s: System, q: nat) {
    && Inv(job, s, s.dev.files) && !s.host.failed && !s.host.phase.Done?
    && s.toHost == [] && s.toDev == [Payload(job, s.host.phase, s.host.xferId, s.host.cur)]
    && |job.remote| + 8 <= Framing.DEVICE_MAX
    && (s.dev.session <==> q < SESSION_MS) && (s.dev.timerArmed <==> q < SESSION_MS)
    && (s.dev.session ==> Wrapped(s.host, s.dev))
  }

  predicate Wrapped(h: Host, d: Device) {
    h.phase == Chunk(0xFFFF) && (!d.xfer.active || d.xfer.nextChunk == 0)
  }

  /** The attempt about to be made will be accepted if it is heard in time, or not at all. */
  ghost predicate Awaiting(job: Job, s: System, q: nat, ok: bool) {
    if ok then Smooth(job, s) && !s.host.phase.Done? && q < SESSION_MS else Stuck(job, s, q)
  }

  /** The device accepts the pending command of a smooth state. */
  ghost predicate Accepted(job: Job, h: Host, d: Device, o: Outcome) {
    && |o.sent| == 1 && Accepts(h, o.sent[0])
    && o.dev.session && (!h.phase.End? ==> o.dev.xfer.active)
    && (h.phase.Chunk? ==> o.dev.xfer.nextChunk == (h.phase.idx + 1) % 0x1_0000)
    && (h.phase.Begin? ==> o.dev.xfer.nextChunk == 0)
  }

  lemma BeginAccepted(job: Job, h: Host, d: Device, env: Env)
    requires d.rx.Ready? && h.phase.Begin? && !h.failed && Packs(job, Begin) && h.cur < SEQ_EVENT
    requires d.session && !d.xfer.active && SdPrefixOk(DevicePath(job)) && Ideal(env)
    ensures Accepted(job, h, d, Dispatch(d, Payload(job, Begin, h.xferId, h.cur), env))
  {
    DeviceBegins(job, d, h.xferId, h.cur, env);
    hide Dispatch, Payload, SameOthers, Prefix, Feed32, SdPrefixOk, DevicePath;
  }

  lemma ChunkIsAccepted(job: Job, h: Host, d: Device, env: Env)
    requires d.rx.Ready? && h.phase.Chunk? && !h.failed && h.cur < SEQ_EVENT && h.xferId == 0
    requires h.phase.idx < Chunks(job) && h.phase.idx < 0x1_0000
    requires Ours(job, d, h.phase.idx) || Ours(job, d, h.phase.idx + 1)
    requires d.session && d.xfer.active && Expects(d, h.phase.idx) && Ideal(env)
    ensures Accepted(job, h, d, Dispatch(d, Payload(job, h.phase, h.xferId, h.cur), env))
  {
    hide Dispatch, Payload, SameOthers, Prefix, Feed32, DevicePath, Chunks, Ours, BodyOf;
    var idx := h.phase.idx;
    if d.xfer.nextChunk == idx {
      DeviceTakesChunk(job, d, h.cur, idx, env);
      OursCount(job, Dispatch(d, Payload(job, h.phase, h.xferId, h.cur), env).dev, idx + 1);
    } else {
      OursNext(job, d, idx);
      DuplicateAcked(job, d, h.cur, idx, env);
    }
  }

  /** A chunk the device has already: acknowledged again, nothing else. */
  lemma DuplicateAcked(job: Job, d: Device, seqNo: byte, idx: nat, env: Env)
    requires d.rx.Ready? && d.session && d.xfer.active
    requires idx < Chunks(job) && idx < 0xFFFF && Ours(job, d, idx + 1)
    ensures Dispatch(d, Payload(job, Chunk(idx), 0, seqNo), env)
         == Outcome(d.(timerArmed := true), [Reply(seqNo, OK, Le16(idx))])
  {
    hide Dispatch, Payload, BodyOf, UploadChunk, Ours, Chunks, AcceptChunk, Append, ChunkData;
    RetransmitPayload(job, seqNo, idx);
    DispatchTransfer(d, seqNo, UPLOAD_CHUNK, BodyOf(job, Chunk(idx), 0), env);
    var d1 := d.(timerArmed := true);
    SameTransfer(job, d, d1, idx + 1);
    ChunkForms(job, d1, seqNo, idx, env);
    OursNext(job, d1, idx);
    OursCount(job, d1, idx + 1);
  }

  lemma SameTransfer(job: Job, d: Device, d1: Device, c: nat)
    requires d1.xfer == d.xfer && d1.files == d.files
    ensures Ours(job, d1, c) == Ours(job, d, c)
  {
  }

  lemma EndAccepted(job: Job, h: Host, d: Device, env: Env)
    requires d.rx.Ready? && h.phase.End? && !h.failed && h.cur < SEQ_EVENT && h.xferId == 0
    requires d.session && d.xfer.active && Ours(job, d, Chunks(job))
    ensures Accepted(job, h, d, Dispatch(d, Payload(job, End, h.xferId, h.cur), env))
  {
    DeviceEnds(job, d, h.cur, env);
    SessionKeptByEnd(d, Crc32(job.data), h.cur, env);
    hide Dispatch, Ours, Complete, Crc32, Le32;
  }

  lemma SessionKeptByEnd(d: Device, crc: nat, seqNo: byte, env: Env)
    requires d.rx.Ready? && d.session && crc < 0x1_0000_0000
    ensures Dispatch(d, [seqNo, UPLOAD_END, 0] + ([0] + Le32(crc)), env).dev.session
  {
    DispatchTransfer(d, seqNo, UPLOAD_END, [0] + Le32(crc), env);
    hide Dispatch;
  }

  lemma SmoothAnswer(job: Job, s: System, env: Env)
    requires Smooth(job, s) && !s.host.phase.Done? && Ideal(env)
    ensures Accepted(job, s.host, s.dev, Dispatch(s.dev, s.toDev[0], env))
  {
    hide InFlight, Dispatch, Payload, Accepted, Ours, SdPrefixOk, DevicePath, Chunks, SomeOk;
    var h := s.host;
    match h.phase
    case Begin => BeginAccepted(job, h, s.dev, env);
    case Chunk(idx) => ChunkIsAccepted(job, h, s.dev, env);
    case End => EndAccepted(job, h, s.dev, env);
  }

  /** The host acts on an accepting response with nothing else on the links. */
  lemma HostAdvances(job: Job, h: Host, r: seq<byte>)
    requires Accepts(h, r) && (After(job, h.phase).Done? || Packs(job, After(job, h.phase)))
    ensures var o := HostReceives(job, h, r);
            && !o.host.failed && o.host.phase == After(job, h.phase) && o.host.attempt == 0
            && (!o.host.phase.Done? ==> o.sent == [Payload(job, o.host.phase, o.host.xferId, o.host.cur)])
  {
    hide Payload, Packs;
  }

  /** The 16-bit index of the next chunk cannot be packed: upload_file raises. */
  lemma HostCannotSend(job: Job, h: Host, r: seq<byte>)
    requires Accepts(h, r) && !Packs(job, After(job, h.phase))
    ensures HostReceives(job, h, r).host.failed
  {
  }

  lemma NextPacks(job: Job, p: Phase)
    requires !p.Done?
    ensures Packs(job, After(job, p)) <==> (After(job, p).Chunk? ==> After(job, p).idx < 0x1_0000)
    ensures !After(job, p).Begin?
    ensures !After(job, p).Done? ==> !p.End?
    ensures p.Chunk? && After(job, p).Chunk? ==> After(job, p).idx == p.idx + 1
    ensures p.Begin? && After(job, p).Chunk? ==> After(job, p).idx == 0
  {
    hide Chunks;
  }

  lemma RoundDevice(job: Job, s: System, env: Env)
    requires Smooth(job, s) && !s.host.phase.Done? && Ideal(env)
    ensures Enabled(s, DeviceTakes(env))
    ensures var s1 := Do(job, s, DeviceTakes(env));
            && s1.toDev == [] && s1.host == s.host && |s1.toHost| == 1
            && Inv(job, s1, s.dev.files) && Accepts(s.host, s1.toHost[0])
            && s1.dev.session && s1.dev.timerArmed && (!s.host.phase.End? ==> s1.dev.xfer.active)
            && (s.host.phase.Chunk? ==> s1.dev.xfer.nextChunk == (s.host.phase.idx + 1) % 0x1_0000)
            && (s.host.phase.Begin? ==> s1.dev.xfer.nextChunk == 0)
  {
    hide Dispatch, Inv, Payload, SdPrefixOk, DevicePath, Chunks, Accepts, Smooth, Do, Enabled;
    SmoothAnswer(job, s, env);
    SmoothInv(job, s);
    SmoothFits(job, s);
    DeviceTakesOne(job, s, env);
    SessionKept(job, s.host.phase, s.host.xferId, s.host.cur, s.dev, env);
    DeviceKeepsInv(job, s, env, s.dev.files);
  }

  /** No command of an upload but the first depends on the path, and none is longer than a
      device frame unless that is. */
  lemma PayloadFits(job: Job, p: Phase, x: byte, q: byte)
    requires Packs(job, p)
    ensures p.Begin? ==> |Payload(job, p, x, q)| == |job.remote| + 8
    ensures !p.Begin? ==> |Payload(job, p, x, q)| <= Framing.DEVICE_MAX
  {
  }

  lemma SmoothFits(job: Job, s: System)
    requires Smooth(job, s) && !s.host.phase.Done?
    ensures Packs(job, s.host.phase) && s.dev.session
    ensures s.toDev == [Payload(job, s.host.phase, s.host.xferId, s.host.cur)] && |s.toDev[0]| <= Framing.DEVICE_MAX
  {
    hide InFlight, PhaseInv, Payload, Packs, SdPrefixOk, DevicePath, Chunks;
    PayloadFits(job, s.host.phase, s.host.xferId, s.host.cur);
  }

  /** No command of an upload opens or ends a session, and in one it arms the timer. */
  lemma SessionKept(job: Job, p: Phase, x: byte, q: byte, d: Device, env: Env)
    requires d.rx.Ready? && Packs(job, p)
    ensures var o := Dispatch(d, Payload(job, p, x, q), env);
            && o.dev.session == d.session && (d.session ==> o.dev.timerArmed)
            && (!d.session ==> o == Err(d, q, NO_SESSION))
  {
    hide Dispatch, UploadBegin, UploadChunk, UploadEnd, BodyOf;
    DispatchTransfer(d, q, CommandOf(p), BodyOf(job, p, x), env);
  }

  lemma DeviceTakesOne(job: Job, s: System, env: Env)
    requires s.dev.rx.Ready? && |s.toDev| == 1 && s.toHost == [] && |s.toDev[0]| <= Framing.DEVICE_MAX
    ensures Enabled(s, DeviceTakes(env))
    ensures var o := Dispatch(s.dev, s.toDev[0], env);
            Do(job, s, DeviceTakes(env)) == s.(dev := o.dev, toDev := [], toHost := o.sent)
  {
    hide Dispatch;
  }

  lemma SmoothInv(job: Job, s: System)
    requires Smooth(job, s)
    ensures s.dev.rx.Ready? && Inv(job, s, s.dev.files) && s.toHost == []
    ensures !s.host.phase.Done? ==> |s.toDev| == 1
  {
  }

  lemma RoundHost(job: Job, s1: System, files: map<Path, seq<byte>>)
    requires Inv(job, s1, files) && s1.toDev == [] && |s1.toHost| == 1 && Accepts(s1.host, s1.toHost[0])
    requires SdPrefixOk(DevicePath(job)) && |job.remote| + 8 <= Framing.DEVICE_MAX
    requires s1.dev.session && s1.dev.timerArmed
    requires !s1.host.phase.End? ==> s1.dev.xfer.active
    requires s1.host.phase.Chunk? ==> s1.dev.xfer.nextChunk == (s1.host.phase.idx + 1) % 0x1_0000
    requires s1.host.phase.Begin? ==> s1.dev.xfer.nextChunk == 0
    ensures var s2 := Do(job, s1, HostTakes);
            if Packs(job, After(job, s1.host.phase))
            then Smooth(job, s2) && s2.host.phase == After(job, s1.host.phase) && s2.host.attempt == 0
            else s2.host.failed
  {
    hide Inv, Payload, Packs, After, SdPrefixOk, DevicePath, Chunks, Do, Accepts, Smooth, Enabled;
    var p := s1.host.phase;
    HostCanTake(s1);
    var s2 := Do(job, s1, HostTakes);
    if !Packs(job, After(job, p)) {
      HostTakesError(job, s1);
      return;
    }
    ReceiptKeepsInv(job, s1, files);
    HostTakesLast(job, s1);
    AcceptedIsOpen(s1.host, s1.toHost[0]);
    NextPacks(job, p);
    OwnHistory(job, s2, files);
    SmoothNext(job, s2, p);
  }

  lemma HostTakesError(job: Job, s1: System)
    requires |s1.toHost| == 1 && Accepts(s1.host, s1.toHost[0]) && !Packs(job, After(job, s1.host.phase))
    ensures Do(job, s1, HostTakes).host.failed
  {
    hide Packs, After, Accepts, HostReceives;
    HostCannotSend(job, s1.host, s1.toHost[0]);
  }

  lemma HostCanTake(s: System)
    requires s.toHost != []
    ensures Enabled(s, HostTakes)
  {
  }

  lemma AcceptedIsOpen(h: Host, r: seq<byte>)
    requires Accepts(h, r)
    ensures !h.phase.Done?
  {
  }

  lemma SmoothNext(job: Job, u: System, p: Phase)
    requires Inv(job, u, u.dev.files) && !u.host.failed && u.dev.session && u.dev.timerArmed && u.toHost == []
    requires !u.host.phase.Done? ==> u.toDev == [Payload(job, u.host.phase, u.host.xferId, u.host.cur)]
    requires SdPrefixOk(DevicePath(job)) && |job.remote| + 8 <= Framing.DEVICE_MAX
    requires !u.host.phase.Begin? && (!u.host.phase.Done? ==> u.dev.xfer.active)
    requires u.host.phase.Chunk? ==> u.dev.xfer.nextChunk == u.host.phase.idx
    ensures Smooth(job, u)
  {
    hide Inv, Payload, SdPrefixOk, DevicePath, Chunks;
  }

  lemma HostTakesLast(job: Job, s1: System)
    requires s1.toDev == [] && |s1.toHost| == 1 && Accepts(s1.host, s1.toHost[0])
    requires Packs(job, After(job, s1.host.phase))
    ensures var s2 := Do(job, s1, HostTakes);
            && s2.dev == s1.dev && s2.toHost == [] && !s2.host.failed && s2.host.phase == After(job, s1.host.phase)
            && s2.host.attempt == 0
            && (!s2.host.phase.Done? ==> s2.toDev == [Payload(job, s2.host.phase, s2.host.xferId, s2.host.cur)])
  {
    assert !s1.host.phase.Done?;
    NextPacks(job, s1.host.phase);
    HostAdvances(job, s1.host, s1.toHost[0]);
    hide Payload, Packs, After, Chunks, HostReceives, Accepts;
  }

  lemma RoundAdvances(job: Job, s: System, env: Env)
    requires Smooth(job, s) && !s.host.phase.Done? && Ideal(env)
    ensures Enabled(s, DeviceTakes(env)) && Enabled(Do(job, s, DeviceTakes(env)), HostTakes)
    ensures var s2 := Do(job, Do(job, s, DeviceTakes(env)), HostTakes);
            if Packs(job, After(job, s.host.phase))
            then Smooth(job, s2) && s2.host.phase == After(job, s.host.phase) && s2.host.attempt == 0
            else s2.host.failed
  {
    hide Inv, Payload, Packs, After, SdPrefixOk, DevicePath, Chunks, Accepts, Do;
    RoundDevice(job, s, env);
    RoundHost(job, Do(job, s, DeviceTakes(env)), s.dev.files);
  }

  lemma OwnHistory(job: Job, s: System, files: map<Path, seq<byte>>)
    requires Inv(job, s, files)
    ensures Inv(job, s, s.dev.files)
  {
  }

  lemma AfterLostCommand(job: Job, s: System, files: map<Path, seq<byte>>) returns (s1: System)
    requires Inv(job, s, files) && |s.toDev| == 1
    ensures Enabled(s, LoseCommand(0)) && s1 == Do(job, s, LoseCommand(0))
    ensures Inv(job, s1, files) && s1.toDev == [] && s1.toHost == s.toHost && s1.dev == s.dev && s1.host == s.host
  {
    hide Inv;
    s1 := Do(job, s, LoseCommand(0));
    LossKeepsInv(job, s, LoseCommand(0), files);
    OutboxEmpties(s.toDev);
  }

  lemma OutboxEmpties<T>(q: seq<T>)
    requires |q| == 1
    ensures Without(q, 0) == []
  {
  }

  /** With nothing else in flight a timeout puts the next attempt on the link. */
  lemma TimeoutResends(job: Job, s: System, files: map<Path, seq<byte>>)
    requires Inv(job, s, files) && !s.host.failed && s.host.phase.Chunk? && s.host.attempt < 4 && s.toDev == []
    ensures var u := Do(job, s, TimesOut);
            && u.dev == s.dev && u.toHost == s.toHost && !u.host.failed && u.host.phase == s.host.phase
            && u.host.attempt == s.host.attempt + 1
            && u.toDev == [Payload(job, u.host.phase, u.host.xferId, u.host.cur)]
  {
    hide Payload, InFlight, PhaseInv, OthersKept, Packs;
  }

  lemma SmoothFacts(job: Job, s: System)
    requires Smooth(job, s)
    ensures !s.host.failed && SdPrefixOk(DevicePath(job)) && |job.remote| + 8 <= Framing.DEVICE_MAX
  {
  }

  lemma SmoothAhead(job: Job, u: System)
    requires Inv(job, u, u.dev.files) && !u.host.failed && u.dev.session && u.dev.timerArmed && u.toHost == []
    requires u.host.phase.Chunk? && u.toDev == [Payload(job, u.host.phase, u.host.xferId, u.host.cur)]
    requires SdPrefixOk(DevicePath(job)) && |job.remote| + 8 <= Framing.DEVICE_MAX
    requires u.dev.xfer.active && u.host.phase.idx < 0xFFFF && u.dev.xfer.nextChunk == u.host.phase.idx + 1
    ensures Smooth(job, u)
  {
    hide Inv, Payload, SdPrefixOk, DevicePath, Chunks;
  }

  lemma AfterLostReply(job: Job, s1: System, files: map<Path, seq<byte>>) returns (s2: System)
    requires Inv(job, s1, files) && s1.toDev == [] && |s1.toHost| == 1
    ensures Enabled(s1, LoseReply(0)) && s2 == Do(job, s1, LoseReply(0))
    ensures Inv(job, s2, files) && s2.toDev == [] && s2.toHost == [] && s2.dev == s1.dev && s2.host == s1.host
  {
    hide Inv;
    s2 := Do(job, s1, LoseReply(0));
    LossKeepsInv(job, s1, LoseReply(0), files);
    OutboxEmpties(s1.toHost);
  }

  lemma LastTimeout(job: Job, s: System)
    requires !s.host.failed && !s.host.phase.Done? && s.host.attempt == Retries(s.host.phase)
    ensures Do(job, s, TimesOut).host.failed
  {
  }

  /** The timer is armed again by whatever a session receives. */
  lemma DispatchArms(job: Job, d: Device, seqNo: byte, env: Env)
    requires d.rx.Ready? && d.session
    ensures Dispatch(d, Payload(job, Chunk(0xFFFF), 0, seqNo), env)
         == Dispatch(d.(timerArmed := true), Payload(job, Chunk(0xFFFF), 0, seqNo), env)
  {
    hide Dispatch, Payload, UploadChunk, BodyOf;
    RetransmitPayload(job, seqNo, 0xFFFF);
    DispatchTransfer(d, seqNo, UPLOAD_CHUNK, BodyOf(job, Chunk(0xFFFF), 0), env);
    DispatchTransfer(d.(timerArmed := true), seqNo, UPLOAD_CHUNK, BodyOf(job, Chunk(0xFFFF), 0), env);
    assert d.(timerArmed := true).(timerArmed := true) == d.(timerArmed := true);
  }

  lemma ErrorRaises(job: Job, s: System)
    requires |s.toHost| == 1 && |s.toHost[0]| >= 2 && s.toHost[0][0] == s.host.cur && s.toHost[0][1] != OK
    requires s.host.cur < SEQ_EVENT
    requires !s.host.failed && !s.host.phase.Done?
    ensures Enabled(s, HostTakes) && Do(job, s, HostTakes).host.failed
  {
  }

  lemma Starts(job: Job, s: System)
    requires Initial(job, s) && s.toHost == [] && Packs(job, Begin)
    requires MayBegin(job, s.dev) && s.dev.timerArmed
    ensures Smooth(job, s) && s.host.attempt == 0 && s.host.phase.Begin?
  {
    InitialInv(job, s);
    Commands.OnCardIff(DevicePath(job));
    hide Inv, Payload, Chunks, SdPrefixOk, DevicePath;
  }

  lemma CannotStart(job: Job, s: System)
    requires Initial(job, s) && !Packs(job, Begin)
    ensures s.host.failed
  {
  }

  lemma BeginPacks(job: Job)
    requires |job.remote| + 8 <= Framing.DEVICE_MAX && !Packs(job, Begin)
    ensures Chunks(job) > 0x1_0000
  {
  }

  // ---- One attempt ----

  lemma AwaitingFacts(job: Job, s: System, q: nat, ok: bool)
    requires Awaiting(job, s, q, ok)
    ensures Inv(job, s, s.dev.files) && s.dev.rx.Ready? && !s.host.failed && !s.host.phase.Done? && s.toHost == []
    ensures Packs(job, s.host.phase) && s.host.cur < SEQ_EVENT && s.host.attempt <= Retries(s.host.phase)
    ensures s.toDev == [Payload(job, s.host.phase, s.host.xferId, s.host.cur)] && |s.toDev[0]| <= Framing.DEVICE_MAX
    ensures |job.remote| + 8 <= Framing.DEVICE_MAX
    ensures (s.dev.session <==> q < SESSION_MS) && (s.dev.timerArmed <==> q < SESSION_MS)
    ensures !ok ==> (s.dev.session ==> Wrapped(s.host, s.dev))
  {
    hide InFlight, PhaseInv, Payload, Packs, SdPrefixOk, DevicePath, Chunks, Wrapped;
    PayloadFits(job, s.host.phase, s.host.xferId, s.host.cur);
  }

  /** While the device hears nothing its timer runs on, and out. */
  lemma TimerKeeps(job: Job, s: System, q: nat, ok: bool, dt: nat)
    requires Awaiting(job, s, q, ok)
    ensures var u := Play(job, s, TimerRuns(q, dt));
            Awaiting(job, u, q + dt, ok && q + dt < SESSION_MS) && u.host == s.host
  {
    hide Inv, Payload, SdPrefixOk, DevicePath, Chunks, Do, Enabled, Play;
    AwaitingFacts(job, s, q, ok);
    if q < SESSION_MS <= q + dt {
      Expires(job, s, s.dev.files);
      PlayOne(job, s, TimerExpires);
    } else {
      PlayNothing(job, s);
    }
  }

  lemma PlayNothing(job: Job, s: System)
    ensures Play(job, s, []) == s
  {
  }

  lemma Expires(job: Job, s: System, files: map<Path, seq<byte>>)
    requires Inv(job, s, files) && s.dev.timerArmed
    ensures Enabled(s, TimerExpires)
    ensures var u := Do(job, s, TimerExpires);
            && Inv(job, u, u.dev.files) && u.host == s.host && u.toDev == s.toDev && u.toHost == s.toHost
            && !u.dev.session && !u.dev.timerArmed
  {
    hide Inv;
    EnvironmentKeepsInv(job, s, TimerExpires, files);
    OwnHistory(job, Do(job, s, TimerExpires), files);
  }

  /** A host with retries left puts the next attempt on the link, one without raises. */
  lemma GivesUpOrResends(job: Job, s: System, files: map<Path, seq<byte>>)
    requires Inv(job, s, files) && !s.host.failed && !s.host.phase.Done? && s.toDev == [] && s.toHost == []
    ensures var u := Happen(job, s, TimesOut);
            if s.host.attempt == Retries(s.host.phase) then u.host.failed
            else
              && Inv(job, u, u.dev.files) && u.dev == s.dev && u.toHost == [] && !u.host.failed
              && u.host.phase == s.host.phase && u.host.attempt == s.host.attempt + 1
              && u.toDev == [Payload(job, u.host.phase, u.host.xferId, u.host.cur)]
  {
    hide Inv, Do, Enabled, Payload;
    AlwaysTimesOut(s);
    AttemptBound(job, s, files);
    if s.host.attempt == Retries(s.host.phase) {
      LastTimeout(job, s);
    } else {
      TimeoutKeepsInv(job, s, files);
      TimeoutResends(job, s, files);
      OwnHistory(job, Do(job, s, TimesOut), files);
    }
  }

  lemma AlwaysTimesOut(s: System)
    ensures Enabled(s, TimesOut)
  {
  }

  lemma AttemptBound(job: Job, s: System, files: map<Path, seq<byte>>)
    requires Inv(job, s, files)
    ensures s.host.attempt <= Retries(s.host.phase)
    ensures !s.host.phase.Chunk? ==> Retries(s.host.phase) == 0
    ensures s.host.phase.Chunk? ==> Retries(s.host.phase) == 4
  {
    hide InFlight, PhaseInv, OthersKept;
  }

  /** What an attempt that fails leaves behind. */
  ghost predicate Failed(job: Job, s: System, u: System, q: nat, ok: bool) {
    if s.host.attempt == Retries(s.host.phase) then u.host.failed
    else Awaiting(job, u, q, ok) && u.host.phase == s.host.phase && u.host.attempt == s.host.attempt + 1
  }

  /** A lost command costs an attempt and nothing else. */
  lemma CommandLost(job: Job, s: System, q: nat, ok: bool)
    requires Awaiting(job, s, q, ok)
    ensures Failed(job, s, Play(job, s, [LoseCommand(0), TimesOut]), q, ok)
  {
    hide Inv, Payload, SdPrefixOk, DevicePath, Chunks, Do, Enabled, Play, Happen, Packs;
    AwaitingFacts(job, s, q, ok);
    PlayTwo(job, s, LoseCommand(0), TimesOut);
    var s1 := AfterLostCommand(job, s, s.dev.files);
    Happens(job, s, LoseCommand(0));
    GivesUpOrResends(job, s1, s.dev.files);
  }

  lemma Happens(job: Job, s: System, step: Step)
    requires !s.host.failed && Enabled(s, step)
    ensures Happen(job, s, step) == Do(job, s, step)
  {
  }

  /** A lost reply leaves the device a chunk ahead, where the next attempt finds it, unless
      that was chunk 65535. */
  lemma ReplyLost(job: Job, s: System, q: nat, env: Env)
    requires Awaiting(job, s, q, true) && Ideal(env)
    ensures Failed(job, s, Play(job, s, [DeviceTakes(env), LoseReply(0), TimesOut]), 0, s.host.phase != Chunk(0xFFFF))
  {
    hide Inv, Payload, SdPrefixOk, DevicePath, Chunks, Packs, Do, Accepts, Smooth, Enabled, Play, Happen;
    RoundDevice(job, s, env);
    SmoothFacts(job, s);
    var s1 := Do(job, s, DeviceTakes(env));
    var s2 := AfterLostReply(job, s1, s.dev.files);
    PlayThree(job, s, DeviceTakes(env), LoseReply(0), TimesOut);
    Happens(job, s, DeviceTakes(env));
    Happens(job, s1, LoseReply(0));
    GivesUpOrResends(job, s2, s.dev.files);
    AttemptBound(job, s2, s.dev.files);
    var u := Happen(job, s2, TimesOut);
    if s.host.attempt != Retries(s.host.phase) {
      ChunkBelow(job, s2, s.dev.files);
      if s.host.phase.idx < 0xFFFF {
        SmoothAhead(job, u);
      }
    }
  }

  lemma ChunkBelow(job: Job, s: System, files: map<Path, seq<byte>>)
    requires Inv(job, s, files) && !s.host.failed && s.host.phase.Chunk?
    ensures s.host.phase.idx < 0x1_0000
  {
    hide InFlight, PhaseInv, OthersKept;
  }

  // ---- An attempt that is refused ----

  /** The device answers an error, and will do so again. */
  ghost predicate Refusal(h: Host, d: Device, o: Outcome) {
    && |o.sent| == 1 && |o.sent[0]| >= 2 && o.sent[0][0] == h.cur && o.sent[0][1] != OK
    && o.dev.session == d.session && (d.session ==> o.dev.timerArmed) && (!d.session ==> o.dev == d)
    && (d.session ==> Wrapped(h, o.dev))
  }

  lemma Refused(job: Job, h: Host, d: Device, toHost: seq<seq<byte>>, env: Env)
    requires d.rx.Ready? && !h.phase.Done? && Packs(job, h.phase) && h.cur < SEQ_EVENT
    requires PhaseInv(job, h, d, toHost) && (d.session ==> Wrapped(h, d))
    ensures Refusal(h, d, Dispatch(d, Payload(job, h.phase, h.xferId, h.cur), env))
  {
    hide Dispatch, Payload, Ours, Chunks, SomeOk, Packs;
    SessionKept(job, h.phase, h.xferId, h.cur, d, env);
    if d.session {
      DispatchArms(job, d, h.cur, env);
      var armed := d.(timerArmed := true);
      if d.xfer.active {
        OursCount(job, d, 0xFFFF);
        SameTransfer(job, d, armed, 0x1_0000);
        RetransmitHarmlessIff(job, armed, h.cur, 0xFFFF, env);
      } else {
        NoTransferRefused(job, armed, h.cur, env);
        hide Payload;
      }
    }
  }

  lemma NoTransferRefused(job: Job, d: Device, q: byte, env: Env)
    requires d.rx.Ready? && d.session && d.timerArmed && !d.xfer.active
    ensures Dispatch(d, Payload(job, Chunk(0xFFFF), 0, q), env) == Err(d, q, TRANSFER)
  {
    hide Dispatch, Payload, BodyOf;
    RetransmitPayload(job, q, 0xFFFF);
    DispatchTransfer(d, q, UPLOAD_CHUNK, BodyOf(job, Chunk(0xFFFF), 0), env);
    assert d.(timerArmed := true) == d;
  }

  lemma RefusedDevice(job: Job, s: System, q: nat, env: Env)
    requires Stuck(job, s, q)
    ensures Enabled(s, DeviceTakes(env))
    ensures var s1 := Do(job, s, DeviceTakes(env));
            && s1.toDev == [] && s1.host == s.host && Inv(job, s1, s.dev.files)
            && |s1.toHost| == 1 && |s1.toHost[0]| >= 2 && s1.toHost[0][0] == s.host.cur && s1.toHost[0][1] != OK
            && (s1.dev.session <==> q < SESSION_MS) && (s1.dev.timerArmed <==> q < SESSION_MS)
            && (s1.dev.session ==> Wrapped(s.host, s1.dev))
  {
    hide Dispatch, Inv, Payload, SdPrefixOk, DevicePath, Chunks, Do, Enabled, Wrapped, Stuck;
    AwaitingFacts(job, s, q, false);
    PhaseOf(job, s);
    Refused(job, s.host, s.dev, [], env);
    DeviceTakesOne(job, s, env);
    DeviceKeepsInv(job, s, env, s.dev.files);
  }

  lemma PhaseOf(job: Job, s: System)
    requires Inv(job, s, s.dev.files)
    ensures PhaseInv(job, s.host, s.dev, s.toHost)
  {
    hide PhaseInv, InFlight, HostInv;
  }

  lemma RefusalLost(job: Job, s: System, q: nat, env: Env)
    requires Stuck(job, s, q)
    ensures Failed(job, s, Play(job, s, [DeviceTakes(env), LoseReply(0), TimesOut]), Heard(q), false)
  {
    hide Inv, Payload, SdPrefixOk, DevicePath, Chunks, Packs, Do, Enabled, Play, Happen, Stuck;
    AwaitingFacts(job, s, q, false);
    RefusedDevice(job, s, q, env);
    var s1 := Do(job, s, DeviceTakes(env));
    var s2 := AfterLostReply(job, s1, s.dev.files);
    PlayThree(job, s, DeviceTakes(env), LoseReply(0), TimesOut);
    Happens(job, s, DeviceTakes(env));
    Happens(job, s1, LoseReply(0));
    GivesUpOrResends(job, s2, s.dev.files);
    if s.host.attempt != Retries(s.host.phase) {
      StuckAgain(job, Happen(job, s2, TimesOut), Heard(q));
    }
  }

  lemma StuckAgain(job: Job, u: System, q: nat)
    requires |job.remote| + 8 <= Framing.DEVICE_MAX && (u.dev.session <==> q < SESSION_MS) && (u.dev.timerArmed <==> q < SESSION_MS)
    requires u.dev.session ==> Wrapped(u.host, u.dev)
    requires u.toHost == [] && !u.host.phase.Done? && Inv(job, u, u.dev.files) && !u.host.failed
    requires u.toDev == [Payload(job, u.host.phase, u.host.xferId, u.host.cur)]
    ensures Stuck(job, u, q)
  {
    hide Inv, Payload, Wrapped;
  }

  lemma RefusalRaises(job: Job, s: System, q: nat, env: Env)
    requires Stuck(job, s, q)
    ensures Play(job, s, [DeviceTakes(env), HostTakes]).host.failed
  {
    hide Inv, Payload, Do, Enabled, Play, Happen, Stuck;
    AwaitingFacts(job, s, q, false);
    RefusedDevice(job, s, q, env);
    var s1 := Do(job, s, DeviceTakes(env));
    PlayTwo(job, s, DeviceTakes(env), HostTakes);
    Happens(job, s, DeviceTakes(env));
    ErrorRaises(job, s1);
    Happens(job, s1, HostTakes);
  }
}
