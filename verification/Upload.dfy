/** Stop-and-wait upload over two lossy first-in first-out links: the host of
    jppd_upload.py, the device of jpp_serial_mgr.c, and every schedule of losses,
    delays, timeouts, timer expiry and keys between them. */
module Upload {
  import opened Bytes
  import opened Crc
  import opened SerialDevice
  import Framing

  // ---- The host ----

  /** upload_file's arguments: the local bytes and the remote path. */
  datatype Job = Job(data: seq<byte>, remote: seq<byte>)

  datatype Phase = Begin | Chunk(idx: nat) | End | Done

  /** `attempt` counts re-sends of the current command, `cur` is the sequence number of
      the last one; `failed` means upload_file has raised. */
  datatype Host = Host(nextSeq: byte, phase: Phase, attempt: nat, cur: byte, xferId: byte, failed: bool)

  function Chunks(job: Job): nat {
    (|job.data| + CHUNK_SIZE - 1) / CHUNK_SIZE
  }

  function Prefix(job: Job, c: nat): seq<byte> {
    job.data[..Min(c * CHUNK_SIZE, |job.data|)]
  }

  function ChunkData(job: Job, idx: nat): seq<byte> {
    job.data[Min(idx * CHUNK_SIZE, |job.data|)..Min((idx + 1) * CHUNK_SIZE, |job.data|)]
  }

  function DevicePath(job: Job): Path {
    CStr(job.remote)
  }

  function Retries(p: Phase): nat {
    if p.Chunk? then 4 else 0
  }

  function CommandOf(p: Phase): byte {
    match p
    case Begin => UPLOAD_BEGIN
    case Chunk(_) => UPLOAD_CHUNK
    case _ => UPLOAD_END
  }

  /** struct.pack accepts the numbers of this phase's command and its frame length. */
  predicate Packs(job: Job, p: Phase) {
    match p
    case Begin => |job.data| < 0x1_0000_0000 && 3 + 4 + |job.remote| + 1 <= 0xFFFF
    case Chunk(idx) => idx < 0x1_0000
    case _ => true
  }

  function BodyOf(job: Job, p: Phase, xferId: byte): seq<byte>
    requires Packs(job, p)
  {
    match p
    case Begin => Le32(|job.data|) + (job.remote + [0])
    case Chunk(idx) => [xferId] + Le16(idx) + ChunkData(job, idx)
    case _ => [xferId] + Le32(Crc32(job.data))
  }

  function Payload(job: Job, p: Phase, xferId: byte, seqNo: byte): seq<byte>
    requires Packs(job, p)
  {
    [seqNo, CommandOf(p), 0] + BodyOf(job, p, xferId)
  }

  /** _next_seq: the counter after handing out s. */
  function NextSeq(s: byte): byte {
    var t := (s + 1) % 256;
    if t == SEQ_EVENT then 0 else t
  }

  datatype HostOut = HostOut(host: Host, sent: seq<seq<byte>>)

  /** Send the current command once more under a fresh sequence number. */
  function Send(job: Job, h: Host): HostOut {
    if !Packs(job, h.phase) then HostOut(h.(failed := true), [])
    else HostOut(h.(cur := h.nextSeq, nextSeq := NextSeq(h.nextSeq)), [Payload(job, h.phase, h.xferId, h.nextSeq)])
  }

  /** upload_file begins. */
  function Launch(job: Job, seqNo: byte): HostOut {
    Send(job, Host(seqNo, Begin, 0, 0, 0, false))
  }

  function After(job: Job, p: Phase): Phase {
    match p
    case Begin => if Chunks(job) == 0 then End else Chunk(0)
    case Chunk(idx) => if idx + 1 < Chunks(job) then Chunk(idx + 1) else End
    case _ => Done
  }

  /** A response frame arrives: events and stale sequence numbers are skipped. */
  function HostReceives(job: Job, h: Host, reply: seq<byte>): HostOut {
    if h.failed || h.phase.Done? || |reply| < 2 then HostOut(h, [])
    else if reply[0] == SEQ_EVENT then HostOut(h, [])
    else if reply[0] != h.cur then HostOut(h, [])
    else if reply[1] != OK || (h.phase.Begin? && |reply| < 3) then HostOut(h.(failed := true), [])
    else
      var h1 := h.(phase := After(job, h.phase), attempt := 0,
                   xferId := if h.phase.Begin? then reply[2] else h.xferId);
      if h1.phase.Done? then HostOut(h1, []) else Send(job, h1)
  }

  /** No matching response in time, or a frame that fails its CRC. */
  function HostTimesOut(job: Job, h: Host): HostOut {
    if h.failed || h.phase.Done? then HostOut(h, [])
    else if h.attempt < Retries(h.phase) then Send(job, h.(attempt := h.attempt + 1))
    else HostOut(h.(failed := true), [])
  }

  // ---- The whole system ----

  datatype System = System(dev: Device, toDev: seq<seq<byte>>, toHost: seq<seq<byte>>, host: Host)

  datatype Step =
    | DeviceTakes(env: Env)
    | HostTakes
    | TimesOut
    | LoseCommand(at: nat)
    | LoseReply(at: nat)
    | TimerExpires
    | KeyPressed(key: Key)

  predicate Enabled(s: System, step: Step) {
    match step
    case DeviceTakes(_) => s.toDev != [] && s.dev.rx.Ready?
    case HostTakes => s.toHost != []
    case LoseCommand(at) => at < |s.toDev|
    case LoseReply(at) => at < |s.toHost|
    case TimerExpires => s.dev.timerArmed
    case _ => true
  }

  function Without<T>(q: seq<T>, at: nat): seq<T>
    requires at < |q|
  {
    q[..at] + q[at + 1..]
  }

  /** What the receive task makes of a payload: one longer than a device frame may be is
      dropped (Framing.OversizedSkipped), any other is dispatched. */
  function Deliver(d: Device, payload: seq<byte>, env: Env): Outcome
    requires d.rx.Ready?
  {
    if |payload| > Framing.DEVICE_MAX then Outcome(d, []) else Dispatch(d, payload, env)
  }

  function Do(job: Job, s: System, step: Step): System
    requires Enabled(s, step)
  {
    match step
    case DeviceTakes(env) =>
      var o := Deliver(s.dev, s.toDev[0], env);
      s.(dev := o.dev, toDev := s.toDev[1..], toHost := s.toHost + o.sent)
    case HostTakes =>
      var o := HostReceives(job, s.host, s.toHost[0]);
      s.(host := o.host, toHost := s.toHost[1..], toDev := s.toDev + o.sent)
    case TimesOut =>
      var o := HostTimesOut(job, s.host);
      s.(host := o.host, toDev := s.toDev + o.sent)
    case LoseCommand(at) => s.(toDev := Without(s.toDev, at))
    case LoseReply(at) => s.(toHost := Without(s.toHost, at))
    case TimerExpires => s.(dev := TimerFires(s.dev))
    case KeyPressed(key) =>
      var o := Press(s.dev, key);
      s.(dev := o.dev, toHost := s.toHost + o.sent)
  }

  predicate Possible(job: Job, s: System, steps: seq<Step>)
    decreases |steps|
  {
    steps == [] || (Enabled(s, steps[0]) && Possible(job, Do(job, s, steps[0]), steps[1..]))
  }

  function Run(job: Job, s: System, steps: seq<Step>): System
    requires Possible(job, s, steps)
    decreases |steps|
  {
    if steps == [] then s else Run(job, Do(job, s, steps[0]), steps[1..])
  }

  predicate IsEvent(reply: seq<byte>) {
    |reply| >= 2 && reply[0] == SEQ_EVENT
  }

  /** upload_file starts: no command is under way, only events may still be unread. The
      device may be in any state in which its receive task is ready. */
  predicate Initial(job: Job, s: System) {
    && s.dev.rx.Ready?
    && (forall i :: 0 <= i < |s.toHost| ==> IsEvent(s.toHost[i]))
    && exists seqNo: byte :: seqNo < SEQ_EVENT && Launch(job, seqNo) == HostOut(s.host, s.toDev)
  }

  // ---- Sequence numbers: which attempt a frame belongs to ----

  /** Attempts of the current command count up from its first sequence number, modulo 255. */
  function Tag(h: Host, seqNo: byte): nat {
    (seqNo - (h.cur - h.attempt)) % 255
  }

  lemma NextSeqCycle(s: byte)
    requires s < SEQ_EVENT
    ensures NextSeq(s) == (s + 1) % 255 && NextSeq(s) < SEQ_EVENT
  {
  }

  /** Within 255 attempts a sequence number names one attempt only. */
  lemma TagIsCurrent(h: Host, seqNo: byte)
    requires seqNo < SEQ_EVENT && h.cur < SEQ_EVENT && h.attempt < 255
    ensures Tag(h, seqNo) == h.attempt <==> seqNo == h.cur
  {
  }

  // ---- Invariant ----

  ghost predicate InFlight(job: Job, h: Host, toDev: seq<seq<byte>>, toHost: seq<seq<byte>>) {
    && (forall i :: 0 <= i < |toHost| ==> |toHost[i]| >= 2 && (IsEvent(toHost[i]) || Tag(h, toHost[i][0]) <= h.attempt))
    && (forall i, j :: 0 <= i < j < |toHost| && !IsEvent(toHost[i]) && !IsEvent(toHost[j]) ==>
          Tag(h, toHost[i][0]) < Tag(h, toHost[j][0]))
    && (forall i :: 0 <= i < |toDev| ==> IsAttempt(job, h, toDev[i]))
    && (forall i, j :: 0 <= i < j < |toDev| ==> Tag(h, toDev[i][0]) < Tag(h, toDev[j][0]))
    && (forall i, j :: 0 <= i < |toHost| && 0 <= j < |toDev| && !IsEvent(toHost[i]) ==>
          Tag(h, toHost[i][0]) < Tag(h, toDev[j][0]))
  }

  ghost predicate IsAttempt(job: Job, h: Host, c: seq<byte>) {
    && |c| >= 3 && c[0] < SEQ_EVENT && !h.phase.Done? && Packs(job, h.phase)
    && c == Payload(job, h.phase, h.xferId, c[0])
    && Tag(h, c[0]) <= h.attempt
  }

  ghost predicate IsOk(r: seq<byte>) {
    |r| >= 2 && r[0] != SEQ_EVENT && r[1] == OK
  }

  ghost predicate SomeOk(toHost: seq<seq<byte>>) {
    exists i :: 0 <= i < |toHost| && IsOk(toHost[i])
  }

  /** The device's transfer is this job's, with exactly c chunks in the file. */
  ghost predicate Ours(job: Job, d: Device, c: nat) {
    && d.xfer.fp == Some(DevicePath(job)) && d.xfer.isUpload && d.xfer.id == 0
    && d.xfer.nextChunk == c % 0x1_0000
    && DevicePath(job) in d.files && d.files[DevicePath(job)] == Prefix(job, c)
    && d.xfer.crc == Feed32(0xFFFF_FFFF, Prefix(job, c))
  }

  ghost predicate Complete(job: Job, d: Device) {
    DevicePath(job) in d.files && d.files[DevicePath(job)] == job.data
  }

  ghost predicate PhaseInv(job: Job, h: Host, d: Device, toHost: seq<seq<byte>>) {
    match h.phase
    case Begin =>
      && (forall i :: 0 <= i < |toHost| && IsOk(toHost[i]) ==> |toHost[i]| >= 3 && toHost[i][2] == 0)
      && (SomeOk(toHost) && d.xfer.active ==> Ours(job, d, 0))
    case Chunk(idx) =>
      && idx < Chunks(job) && h.xferId == 0
      && (d.xfer.active ==> Ours(job, d, idx) || Ours(job, d, idx + 1))
      && (SomeOk(toHost) && d.xfer.active ==> Ours(job, d, idx + 1))
    case End =>
      && h.xferId == 0 && Chunks(job) <= 0x1_0000
      && (d.xfer.active ==> Ours(job, d, Chunks(job)))
      && (SomeOk(toHost) ==> Complete(job, d))
    case Done =>
      && Complete(job, d) && Chunks(job) <= 0x1_0000
      && (forall i :: 0 <= i < |toHost| ==> IsEvent(toHost[i]))
  }

  ghost predicate HostInv(job: Job, h: Host) {
    && h.cur < SEQ_EVENT && h.nextSeq < SEQ_EVENT && h.attempt <= Retries(h.phase)
    && (!h.failed ==> h.nextSeq == (h.cur + 1) % 255)
    && (h.phase.Done? ==> !h.failed)
    && (!h.failed ==> Packs(job, h.phase))
  }

  /** The rest of the card is as it was. */
  ghost predicate OthersKept(job: Job, d: Device, files: map<Path, seq<byte>>) {
    d.files - {DevicePath(job)} == files - {DevicePath(job)}
  }

  ghost predicate Inv(job: Job, s: System, files: map<Path, seq<byte>>) {
    && s.dev.rx.Ready?
    && HostInv(job, s.host)
    && InFlight(job, s.host, s.toDev, s.toHost)
    && PhaseInv(job, s.host, s.dev, s.toHost)
    && OthersKept(job, s.dev, files)
  }

  // ---- Chunks ----

  lemma PrefixGrows(job: Job, idx: nat)
    ensures Prefix(job, idx + 1) == Prefix(job, idx) + ChunkData(job, idx)
    ensures Prefix(job, 0) == []
    ensures Prefix(job, Chunks(job)) == job.data
    ensures idx < Chunks(job) ==> 0 < |ChunkData(job, idx)| <= CHUNK_SIZE
  {
  }

  // ---- What the device does with each command of an upload ----

  ghost predicate SameOthers(job: Job, d: Device, d': Device) {
    d'.files - {DevicePath(job)} == d.files - {DevicePath(job)}
  }

  lemma SetOwnFile(job: Job, d: Device, d': Device, content: seq<byte>)
    requires d'.files == d.files[DevicePath(job) := content]
    ensures SameOthers(job, d, d')
  {
  }

  lemma CStrOfRemote(job: Job)
    ensures CStr(job.remote + [0]) == DevicePath(job) && |DevicePath(job)| < |job.remote + [0]|
  {
    var r := CStr(job.remote);
    CStrTerminated(r, if |r| < |job.remote| then job.remote[|r| + 1..] + [0] else []);
    if |r| < |job.remote| {
      assert job.remote == r + [0] + job.remote[|r| + 1..];
      assert job.remote + [0] == r + [0] + (job.remote[|r| + 1..] + [0]);
    } else {
      assert job.remote + [0] == r + [0] + [];
    }
  }

  /** A transfer command in a session reaches its handler with its own body. */
  lemma DispatchTransfer(d: Device, seqNo: byte, cmd: byte, body: seq<byte>, env: Env)
    requires d.rx.Ready? && (cmd == UPLOAD_BEGIN || cmd == UPLOAD_CHUNK || cmd == UPLOAD_END)
    ensures var o := Dispatch(d, [seqNo, cmd, 0] + body, env);
            var d1 := d.(timerArmed := true);
            && (!d.session ==> o == Err(d, seqNo, NO_SESSION))
            && (d.session && cmd == UPLOAD_BEGIN ==> o == UploadBegin(d1, seqNo, body, env))
            && (d.session && cmd == UPLOAD_CHUNK ==> o == UploadChunk(d1, seqNo, body, env))
            && (d.session && cmd == UPLOAD_END ==> o == UploadEnd(d1, seqNo, body))
  {
    hide UploadBegin, UploadChunk, UploadEnd;
    assert ([seqNo, cmd, 0] + body)[3..] == body;
  }

  lemma DeviceBegins(job: Job, d: Device, x: byte, seqNo: byte, env: Env)
    requires d.rx.Ready? && Packs(job, Begin)
    ensures var o := Dispatch(d, Payload(job, Begin, x, seqNo), env);
            && o.dev.rx.Ready? && SameOthers(job, d, o.dev)
            && |o.sent| == 1 && |o.sent[0]| >= 2 && o.sent[0][0] == seqNo
            && (o.sent[0][1] == OK ==> |o.sent[0]| >= 3 && o.sent[0][2] == 0 && Ours(job, o.dev, 0))
            && (o.sent[0][1] != OK ==> o.dev.xfer == d.xfer && o.dev.files == d.files)
            && (o.sent[0][1] == OK ==> d.session && !d.xfer.active && SdPrefixOk(DevicePath(job)))
            && (d.session && !d.xfer.active && SdPrefixOk(DevicePath(job)) && env.openOk
                ==> o.sent[0][1] == OK && o.dev.session && o.dev.xfer.active)
  {
    hide Dispatch, BodyOf, CStr, SdPrefixOk, FromLe32, ChunkCount, DevicePath, Ours, SameOthers;
    var body := BodyOf(job, Begin, x);
    DispatchTransfer(d, seqNo, UPLOAD_BEGIN, body, env);
    BeginBody(job, x);
    CStrOfRemote(job);
    var d1 := d.(timerArmed := true);
    Truncated(job, d1, FromLe32(body[..4]));
    hide Truncate;
    OthersIgnoreTimer(job, d, d1, Truncate(d1, DevicePath(job), FromLe32(body[..4])));
    OthersReflexive(job, d);
    OthersReflexive(job, d1);
  }

  lemma BeginBody(job: Job, x: byte)
    requires Packs(job, Begin)
    ensures var body := BodyOf(job, Begin, x); |body| >= 4 && body[4..] == job.remote + [0]
  {
  }

  lemma OthersReflexive(job: Job, d: Device)
    ensures forall d': Device :: d'.files == d.files ==> SameOthers(job, d, d')
  {
  }

  lemma OthersIgnoreTimer(job: Job, d: Device, d1: Device, d': Device)
    requires d1.files == d.files
    ensures SameOthers(job, d1, d') == SameOthers(job, d, d')
  {
  }

  /** The freshly opened file holds no chunk yet. */
  lemma Truncated(job: Job, d: Device, fileSize: nat)
    ensures Ours(job, Truncate(d, DevicePath(job), fileSize), 0)
    ensures SameOthers(job, d, Truncate(d, DevicePath(job), fileSize))
  {
    PrefixGrows(job, 0);
    hide Prefix, DevicePath, ChunkCount;
    SetOwnFile(job, d, Truncate(d, DevicePath(job), fileSize), []);
  }

  lemma DeviceTakesChunk(job: Job, d: Device, seqNo: byte, idx: nat, env: Env)
    requires d.rx.Ready? && idx < Chunks(job) && idx < 0x1_0000
    requires d.xfer.active ==> Ours(job, d, idx) || Ours(job, d, idx + 1)
    ensures var o := Dispatch(d, Payload(job, Chunk(idx), 0, seqNo), env);
            && o.dev.rx.Ready? && SameOthers(job, d, o.dev)
            && |o.sent| == 1 && |o.sent[0]| >= 2 && o.sent[0][0] == seqNo
            && (o.dev.xfer.active ==> d.xfer.active && (Ours(job, o.dev, idx) || Ours(job, o.dev, idx + 1)))
            && (o.sent[0][1] == OK ==> Ours(job, o.dev, idx + 1))
            && (o.dev.xfer.active && Ours(job, d, idx + 1) ==> Ours(job, o.dev, idx + 1))
            && (d.session && d.xfer.active && d.xfer.nextChunk == idx && CHUNK_SIZE <= env.writable
                ==> o.sent[0][1] == OK && o.dev.session && o.dev.xfer.active)
  {
    var body := BodyOf(job, Chunk(idx), 0);
    DispatchTransfer(d, seqNo, UPLOAD_CHUNK, body, env);
    hide Dispatch;
    PrefixGrows(job, idx);
    ChunkBody(job, idx);
    if d.session && d.xfer.active {
      ChunkHandled(job, d.(timerArmed := true), seqNo, idx, env);
    }
  }

  lemma ChunkBody(job: Job, idx: nat)
    requires idx < 0x1_0000
    ensures var body := BodyOf(job, Chunk(idx), 0);
            |body| == 3 + |ChunkData(job, idx)| && body[0] == 0 && FromLe16(body[1], body[2]) == idx
            && body[3..] == ChunkData(job, idx)
  {
  }

  lemma ChunkHandled(job: Job, d: Device, seqNo: byte, idx: nat, env: Env)
    requires d.xfer.active && idx < Chunks(job) && idx < 0x1_0000
    requires Ours(job, d, idx) || Ours(job, d, idx + 1)
    ensures var o := UploadChunk(d, seqNo, BodyOf(job, Chunk(idx), 0), env);
            && SameOthers(job, d, o.dev)
            && |o.sent| == 1 && |o.sent[0]| >= 2 && o.sent[0][0] == seqNo
            && (o.dev.xfer.active ==> d.xfer.active && (Ours(job, o.dev, idx) || Ours(job, o.dev, idx + 1)))
            && (o.sent[0][1] == OK ==> Ours(job, o.dev, idx + 1))
            && (o.dev.xfer.active && Ours(job, d, idx + 1) ==> Ours(job, o.dev, idx + 1))
            && (d.session && d.xfer.nextChunk == idx && CHUNK_SIZE <= env.writable
                ==> o.sent[0][1] == OK && o.dev.session && o.dev.xfer.active)
  {
    ChunkForms(job, d, seqNo, idx, env);
    OursNext(job, d, idx);
    PrefixGrows(job, idx);
    hide BodyOf, Ours, UploadChunk, ChunkData, Chunks;
    var data := ChunkData(job, idx);
    if d.xfer.nextChunk == idx {
      if env.writable < |data| {
        SetOwnFile(job, d, Append(d, data[..env.writable]), d.files[DevicePath(job)] + data[..env.writable]);
      } else {
        ChunkAccepted(job, d, idx);
      }
      hide AcceptChunk;
    }
  }

  /** The branches of the chunk handler on a chunk of this job. */
  lemma ChunkForms(job: Job, d: Device, seqNo: byte, idx: nat, env: Env)
    requires d.xfer.active && idx < Chunks(job) && idx < 0x1_0000
    requires Ours(job, d, idx) || Ours(job, d, idx + 1)
    ensures var data := ChunkData(job, idx);
            UploadChunk(d, seqNo, BodyOf(job, Chunk(idx), 0), env)
            == if d.xfer.nextChunk != idx then
                 if idx + 1 == d.xfer.nextChunk then Outcome(d, [Reply(seqNo, OK, Le16(idx))])
                 else Err(AbortTransfer(d), seqNo, TRANSFER)
               else if env.writable < |data| then
                 Err(AbortTransfer(Append(d, data[..env.writable])), seqNo, IO)
               else Outcome(AcceptChunk(d, data), [Reply(seqNo, OK, Le16(idx))])
  {
    ChunkBody(job, idx);
    OursNext(job, d, idx);
    PrefixGrows(job, idx);
    assert BodyOf(job, Chunk(idx), 0)[1..3] == Le16(idx);
    hide BodyOf, Ours, ChunkData, Chunks, AcceptChunk, Append;
  }

  lemma OursNext(job: Job, d: Device, idx: nat)
    requires idx < 0x1_0000 && (Ours(job, d, idx) || Ours(job, d, idx + 1))
    ensures d.xfer.fp == Some(DevicePath(job)) && DevicePath(job) in d.files && d.xfer.isUpload && d.xfer.id == 0
    ensures d.xfer.nextChunk == idx <==> Ours(job, d, idx)
    ensures Ours(job, d, idx + 1) ==> d.xfer.nextChunk == (idx + 1) % 0x1_0000
  {
    hide Prefix, Feed32, DevicePath;
  }

  /** An accepted chunk is appended to the file and to the running checksum, once. */
  lemma ChunkAccepted(job: Job, d: Device, idx: nat)
    requires Ours(job, d, idx) && idx < 0x1_0000
    ensures Ours(job, AcceptChunk(d, ChunkData(job, idx)), idx + 1)
    ensures SameOthers(job, d, AcceptChunk(d, ChunkData(job, idx)))
    ensures var d' := AcceptChunk(d, ChunkData(job, idx));
            d'.rx == d.rx && d'.session == d.session && d'.xfer.active == d.xfer.active
  {
    PrefixGrows(job, idx);
    hide Prefix, ChunkData, Feed32, DevicePath;
    var data := ChunkData(job, idx);
    Feed32Append(0xFFFF_FFFF, Prefix(job, idx), data);
    SetOwnFile(job, d, AcceptChunk(d, data), d.files[DevicePath(job)] + data);
  }

  lemma DeviceEnds(job: Job, d: Device, seqNo: byte, env: Env)
    requires d.rx.Ready?
    requires d.xfer.active ==> Ours(job, d, Chunks(job))
    ensures var o := Dispatch(d, Payload(job, End, 0, seqNo), env);
            && o.dev.rx.Ready? && o.dev.files == d.files
            && |o.sent| == 1 && |o.sent[0]| >= 2 && o.sent[0][0] == seqNo
            && (o.dev.xfer.active ==> Ours(job, o.dev, Chunks(job)))
            && (o.sent[0][1] == OK ==> Complete(job, o.dev))
            && (d.session && d.xfer.active ==> o.sent[0][1] == OK)
  {
    var body := BodyOf(job, End, 0);
    DispatchTransfer(d, seqNo, UPLOAD_END, body, env);
    hide Dispatch;
    PrefixGrows(job, 0);
    Le32RoundTrip(Crc32(job.data));
    assert body[1..5] == Le32(Crc32(job.data));
    hide Feed32, Final32;
    assert Crc32(job.data) == Final32(Feed32(0xFFFF_FFFF, job.data));
    hide Crc32;
  }

  // ---- Every step keeps the invariant ----

  lemma InFlightShrinks(job: Job, h: Host, toDev: seq<seq<byte>>, toHost: seq<seq<byte>>,
                        toDev': seq<seq<byte>>, toHost': seq<seq<byte>>)
    requires InFlight(job, h, toDev, toHost)
    requires toDev' == toDev || exists at :: 0 <= at < |toDev| && toDev' == Without(toDev, at)
    requires toHost' == toHost || exists at :: 0 <= at < |toHost| && toHost' == Without(toHost, at)
    ensures InFlight(job, h, toDev', toHost')
  {
    hide IsAttempt, Tag, IsEvent;
  }

  lemma SomeOkShrinks(toHost: seq<seq<byte>>, at: nat)
    requires at < |toHost|
    ensures SomeOk(Without(toHost, at)) ==> SomeOk(toHost)
    ensures forall i :: 0 <= i < |Without(toHost, at)| ==> Without(toHost, at)[i] == toHost[if i < at then i else i + 1]
  {
    hide IsOk;
    var q := Without(toHost, at);
    if SomeOk(q) {
      var i :| 0 <= i < |q| && IsOk(q[i]);
      assert IsOk(toHost[if i < at then i else i + 1]);
    }
  }

  lemma LossKeepsInv(job: Job, s: System, step: Step, files: map<Path, seq<byte>>)
    requires Inv(job, s, files) && Enabled(s, step) && (step.LoseCommand? || step.LoseReply?)
    ensures Inv(job, Do(job, s, step), files)
  {
    var s' := Do(job, s, step);
    InFlightShrinks(job, s.host, s.toDev, s.toHost, s'.toDev, s'.toHost);
    hide InFlight, Ours, Complete, IsOk;
    if step.LoseReply? {
      SomeOkShrinks(s.toHost, step.at);
    }
  }

  /** An event joins the replies and changes no judgement about them. */
  lemma EventKeepsInv(job: Job, h: Host, d: Device, toDev: seq<seq<byte>>, toHost: seq<seq<byte>>, e: seq<byte>)
    requires InFlight(job, h, toDev, toHost) && PhaseInv(job, h, d, toHost) && IsEvent(e)
    ensures InFlight(job, h, toDev, toHost + [e]) && PhaseInv(job, h, d, toHost + [e])
  {
    hide IsAttempt, Tag, Ours, Complete;
    if SomeOk(toHost + [e]) {
      var i :| 0 <= i < |toHost + [e]| && IsOk((toHost + [e])[i]);
      assert IsOk(toHost[i]);
    }
  }

  /** Closing the session leaves files alone and makes the transfer inactive. */
  lemma CloseKeepsPhase(job: Job, h: Host, d: Device, d': Device, toHost: seq<seq<byte>>)
    requires PhaseInv(job, h, d, toHost) && d'.files == d.files
    requires d'.xfer == d.xfer || !d'.xfer.active
    ensures PhaseInv(job, h, d', toHost)
  {
    hide SomeOk, IsEvent;
  }

  /** Timer and keys: no file changes, the transfer survives or ends, at most an event is sent. */
  lemma EnvironmentStep(job: Job, s: System, step: Step)
    requires Enabled(s, step) && (step.TimerExpires? || step.KeyPressed?)
    ensures var s' := Do(job, s, step);
            && s'.host == s.host && s'.toDev == s.toDev
            && s'.dev.files == s.dev.files && s'.dev.rx == s.dev.rx
            && (s'.dev.xfer == s.dev.xfer || !s'.dev.xfer.active)
            && (s'.toHost == s.toHost || s'.toHost == s.toHost + [Reply(SEQ_EVENT, SESSION_ENDED, [])])
  {
    hide Dispatch, HostReceives, HostTimesOut, Without;
    assert s.toHost + [] == s.toHost;
  }

  lemma EnvironmentKeepsInv(job: Job, s: System, step: Step, files: map<Path, seq<byte>>)
    requires Inv(job, s, files) && Enabled(s, step) && (step.TimerExpires? || step.KeyPressed?)
    ensures Inv(job, Do(job, s, step), files)
  {
    hide InFlight, PhaseInv, HostInv, Do, Enabled;
    EnvironmentStep(job, s, step);
    var s' := Do(job, s, step);
    CloseKeepsPhase(job, s.host, s.dev, s'.dev, s.toHost);
    var e := Reply(SEQ_EVENT, SESSION_ENDED, []);
    EventKeepsInv(job, s.host, s'.dev, s.toDev, s.toHost, e);
  }

  /** The device answers the oldest command in flight. */
  lemma InFlightAnswered(job: Job, h: Host, toDev: seq<seq<byte>>, toHost: seq<seq<byte>>, r: seq<byte>)
    requires InFlight(job, h, toDev, toHost) && toDev != []
    requires |r| >= 2 && r[0] == toDev[0][0]
    ensures InFlight(job, h, toDev[1..], toHost + [r])
  {
    assert IsAttempt(job, h, toDev[0]);
    assert Tag(h, toDev[0][0]) <= h.attempt && !IsEvent(r);
    hide IsAttempt, Tag, IsEvent;
  }

  lemma SomeOkAppend(toHost: seq<seq<byte>>, r: seq<byte>)
    ensures SomeOk(toHost + [r]) <==> SomeOk(toHost) || IsOk(r)
  {
    hide IsOk;
    if SomeOk(toHost) {
      var i :| 0 <= i < |toHost| && IsOk(toHost[i]);
      assert IsOk((toHost + [r])[i]);
    }
    if IsOk(r) {
      assert IsOk((toHost + [r])[|toHost|]);
    }
  }

  ghost predicate Answered(job: Job, h: Host, d: Device, o: Outcome, q: byte, toHost: seq<seq<byte>>) {
    && o.dev.rx.Ready? && SameOthers(job, d, o.dev)
    && |o.sent| == 1 && |o.sent[0]| >= 2 && o.sent[0][0] == q
    && PhaseInv(job, h, o.dev, toHost + [o.sent[0]])
  }

  lemma PhaseAnswered(job: Job, h: Host, d: Device, toHost: seq<seq<byte>>, env: Env, c: seq<byte>)
    requires d.rx.Ready? && PhaseInv(job, h, d, toHost) && IsAttempt(job, h, c)
    ensures Answered(job, h, d, Dispatch(d, c, env), c[0], toHost)
  {
    hide PhaseInv, Answered, Dispatch, Payload;
    match h.phase
    case Begin => BeginAnswered(job, h, d, toHost, env, c[0]);
    case Chunk(idx) => ChunkAnswered(job, h, d, toHost, env, c[0]);
    case End => EndAnswered(job, h, d, toHost, env, c[0]);
  }

  lemma OursKept(job: Job, d: Device, d': Device, c: nat)
    requires d'.xfer == d.xfer && d'.files == d.files
    ensures Ours(job, d', c) <==> Ours(job, d, c)
  {
    hide Prefix, Feed32, DevicePath;
  }

  lemma BeginAnswered(job: Job, h: Host, d: Device, toHost: seq<seq<byte>>, env: Env, q: byte)
    requires d.rx.Ready? && PhaseInv(job, h, d, toHost) && h.phase.Begin? && Packs(job, Begin) && q < SEQ_EVENT
    ensures Answered(job, h, d, Dispatch(d, Payload(job, Begin, h.xferId, q), env), q, toHost)
  {
    hide Dispatch, Payload, Ours, SameOthers, SomeOk, Chunks, Packs;
    DeviceBegins(job, d, h.xferId, q, env);
    var o := Dispatch(d, Payload(job, Begin, h.xferId, q), env);
    SomeOkAppend(toHost, o.sent[0]);
    if o.sent[0][1] != OK && SomeOk(toHost) && d.xfer.active {
      OursKept(job, d, o.dev, 0);
    }
  }

  lemma ChunkAnswered(job: Job, h: Host, d: Device, toHost: seq<seq<byte>>, env: Env, q: byte)
    requires d.rx.Ready? && PhaseInv(job, h, d, toHost) && h.phase.Chunk? && Packs(job, h.phase) && q < SEQ_EVENT
    ensures Answered(job, h, d, Dispatch(d, Payload(job, h.phase, h.xferId, q), env), q, toHost)
  {
    hide Dispatch, Payload, Ours, SameOthers, SomeOk, Chunks;
    DeviceTakesChunk(job, d, q, h.phase.idx, env);
    var o := Dispatch(d, Payload(job, h.phase, h.xferId, q), env);
    SomeOkAppend(toHost, o.sent[0]);
  }

  lemma EndAnswered(job: Job, h: Host, d: Device, toHost: seq<seq<byte>>, env: Env, q: byte)
    requires d.rx.Ready? && PhaseInv(job, h, d, toHost) && h.phase.End? && q < SEQ_EVENT
    ensures Answered(job, h, d, Dispatch(d, Payload(job, End, h.xferId, q), env), q, toHost)
  {
    hide Dispatch, Payload, Ours, SomeOk, Chunks;
    DeviceEnds(job, d, q, env);
    var o := Dispatch(d, Payload(job, End, h.xferId, q), env);
    SomeOkAppend(toHost, o.sent[0]);
  }

  lemma DeviceKeepsInv(job: Job, s: System, env: Env, files: map<Path, seq<byte>>)
    requires Inv(job, s, files) && Enabled(s, DeviceTakes(env))
    ensures Inv(job, Do(job, s, DeviceTakes(env)), files)
  {
    hide InFlight, PhaseInv, HostInv, OthersKept, IsAttempt, Dispatch, Inv;
    if |s.toDev[0]| > Framing.DEVICE_MAX {
      DropIsLoss(job, s, env);
      LossKeepsInv(job, s, LoseCommand(0), files);
    } else {
      AnswerKeepsInv(job, s, env, files);
    }
  }

  /** An oversized command is a lost one. */
  lemma DropIsLoss(job: Job, s: System, env: Env)
    requires s.toDev != [] && s.dev.rx.Ready? && |s.toDev[0]| > Framing.DEVICE_MAX
    ensures Do(job, s, DeviceTakes(env)) == Do(job, s, LoseCommand(0)) && Enabled(s, LoseCommand(0))
  {
    assert Without(s.toDev, 0) == s.toDev[1..];
    assert s.toHost + [] == s.toHost;
  }

  lemma AnswerKeepsInv(job: Job, s: System, env: Env, files: map<Path, seq<byte>>)
    requires Inv(job, s, files) && Enabled(s, DeviceTakes(env)) && |s.toDev[0]| <= Framing.DEVICE_MAX
    ensures Inv(job, Do(job, s, DeviceTakes(env)), files)
  {
    assert IsAttempt(job, s.host, s.toDev[0]);
    PhaseAnswered(job, s.host, s.dev, s.toHost, env, s.toDev[0]);
    hide Dispatch, PhaseInv, IsAttempt;
    var o := Dispatch(s.dev, s.toDev[0], env);
    assert o.sent == [o.sent[0]];
    InFlightAnswered(job, s.host, s.toDev, s.toHost, o.sent[0]);
    hide InFlight;
  }

  lemma TagsKept(h: Host, h': Host)
    requires (h'.cur - h'.attempt) % 255 == (h.cur - h.attempt) % 255
    ensures forall x :: Tag(h', x) == Tag(h, x)
  {
    forall x: byte ensures Tag(h', x) == Tag(h, x) {
      SameRemainder(x, h'.cur - h'.attempt, h.cur - h.attempt);
    }
  }

  lemma SameRemainder(x: int, a: int, b: int)
    requires a % 255 == b % 255
    ensures (x - a) % 255 == (x - b) % 255
  {
  }

  /** A re-send gets the next tag, above everything in flight. */
  lemma ResendKeepsInFlight(job: Job, h: Host, toDev: seq<seq<byte>>, toHost: seq<seq<byte>>)
    requires HostInv(job, h) && !h.failed && !h.phase.Done? && h.attempt < Retries(h.phase)
    requires InFlight(job, h, toDev, toHost)
    ensures var o := Send(job, h.(attempt := h.attempt + 1));
            HostInv(job, o.host) && InFlight(job, o.host, toDev + o.sent, toHost)
  {
    var o := Send(job, h.(attempt := h.attempt + 1));
    NextSeqCycle(h.nextSeq);
    TagsKept(h, o.host);
    TagIsCurrent(o.host, o.host.cur);
    var p := Payload(job, h.phase, h.xferId, o.host.cur);
    assert o.sent == [p] && IsAttempt(job, o.host, p);
    forall c | IsAttempt(job, h, c) ensures IsAttempt(job, o.host, c) {
    }
    hide IsAttempt, Tag, IsEvent, Payload;
  }

  /** Only these host fields matter to what is in flight and to the phase. */
  lemma HostFieldsMatter(job: Job, h: Host, h': Host, d: Device, toDev: seq<seq<byte>>, toHost: seq<seq<byte>>)
    requires h'.phase == h.phase && h'.xferId == h.xferId
    ensures PhaseInv(job, h, d, toHost) ==> PhaseInv(job, h', d, toHost)
    ensures h'.cur == h.cur && h'.attempt == h.attempt && InFlight(job, h, toDev, toHost)
            ==> InFlight(job, h', toDev, toHost)
  {
    hide Payload, Ours, Complete, SomeOk, IsEvent, Packs, IsOk, Chunks;
    assert h'.cur == h.cur && h'.attempt == h.attempt ==> forall x :: Tag(h', x) == Tag(h, x);
    assert h'.cur == h.cur && h'.attempt == h.attempt ==> forall c :: IsAttempt(job, h', c) == IsAttempt(job, h, c);
    hide Tag, IsAttempt;
  }

  lemma TimeoutKeepsInv(job: Job, s: System, files: map<Path, seq<byte>>)
    requires Inv(job, s, files)
    ensures Inv(job, Do(job, s, TimesOut), files)
  {
    var h := s.host;
    var h' := HostTimesOut(job, h).host;
    HostFieldsMatter(job, h, h', s.dev, s.toDev, s.toHost);
    if !h.failed && !h.phase.Done? && h.attempt < Retries(h.phase) {
      ResendKeepsInFlight(job, h, s.toDev, s.toHost);
    } else {
      assert s.toDev + [] == s.toDev;
    }
    hide InFlight, PhaseInv, Send, Packs, OthersKept;
  }

  /** A matching response is the answer to the last attempt, and nothing else is left
      in flight behind it but events. */
  lemma MatchDrains(job: Job, h: Host, toDev: seq<seq<byte>>, toHost: seq<seq<byte>>)
    requires HostInv(job, h) && InFlight(job, h, toDev, toHost)
    requires toHost != [] && !IsEvent(toHost[0]) && toHost[0][0] == h.cur
    ensures toDev == []
    ensures forall i :: 1 <= i < |toHost| ==> IsEvent(toHost[i])
  {
    TagIsCurrent(h, h.cur);
    assert toDev != [] ==> IsAttempt(job, h, toDev[0]);
    hide Payload;
  }

  /** With only events unread, the first attempt of any command starts clean. */
  lemma SendStartsClean(job: Job, h: Host, toHost: seq<seq<byte>>)
    requires !h.failed && !h.phase.Done? && h.attempt == 0 && h.cur < SEQ_EVENT
    requires h.nextSeq == (h.cur + 1) % 255 || h.cur == 0
    requires h.nextSeq < SEQ_EVENT
    requires forall i :: 0 <= i < |toHost| ==> IsEvent(toHost[i])
    ensures var o := Send(job, h);
            && HostInv(job, o.host) && InFlight(job, o.host, o.sent, toHost)
            && o.host.phase == h.phase && o.host.xferId == h.xferId
  {
    NextSeqCycle(h.nextSeq);
    var o := Send(job, h);
    if Packs(job, h.phase) {
      var p := Payload(job, h.phase, h.xferId, h.nextSeq);
      assert Tag(o.host, h.nextSeq) == 0;
      assert IsAttempt(job, o.host, p);
    }
    hide IsAttempt, Tag, Payload;
  }

  /** An OK to the current command means the device is ready for the next one. */
  lemma AcceptKeepsPhase(job: Job, h: Host, h': Host, d: Device, toHost: seq<seq<byte>>)
    requires PhaseInv(job, h, d, toHost) && !h.phase.Done?
    requires toHost != [] && IsOk(toHost[0])
    requires forall i :: 1 <= i < |toHost| ==> IsEvent(toHost[i])
    requires Packs(job, h.phase) && h'.phase == After(job, h.phase)
    requires h'.xferId == if h.phase.Begin? && |toHost[0]| >= 3 then toHost[0][2] else h.xferId
    ensures PhaseInv(job, h', d, toHost[1..])
  {
    assert SomeOk(toHost);
    assert !SomeOk(toHost[1..]) by {
      assert forall i :: 0 <= i < |toHost[1..]| ==> IsEvent(toHost[1..][i]);
    }
    hide Ours, Complete;
  }

  /** The response moves the host on. */
  predicate Accepts(h: Host, r: seq<byte>) {
    && !h.failed && !h.phase.Done? && |r| >= 2
    && r[0] != SEQ_EVENT && r[0] == h.cur && r[1] == OK && !(h.phase.Begin? && |r| < 3)
  }

  lemma ReceiptKeepsInv(job: Job, s: System, files: map<Path, seq<byte>>)
    requires Inv(job, s, files) && Enabled(s, HostTakes)
    ensures Inv(job, Do(job, s, HostTakes), files)
  {
    hide Inv, Do, Accepts;
    if Accepts(s.host, s.toHost[0]) {
      AcceptKeepsInv(job, s, files);
    } else {
      SkipKeepsInv(job, s, files);
    }
  }

  /** A response that does not move the host on sends nothing and fails it at most. */
  lemma Skipped(job: Job, h: Host, r: seq<byte>)
    requires !Accepts(h, r)
    ensures var o := HostReceives(job, h, r);
            o.sent == [] && (o.host == h || (o.host == h.(failed := true) && !h.failed && !h.phase.Done?))
  {
    hide Send, After;
  }

  /** An event, and a response to any other attempt than the last, is passed over; a response
      to it that is not OK raises. */
  lemma OthersPassedOver(job: Job, h: Host, r: seq<byte>)
    requires |r| >= 2 && h.cur < SEQ_EVENT
    ensures r[0] == 0xFF || r[0] != h.cur ==> HostReceives(job, h, r) == HostOut(h, [])
    ensures r[0] == h.cur && r[1] != 0 && !h.phase.Done? ==>
              HostReceives(job, h, r) == HostOut(h.(failed := true), [])
  {
    hide Send, After;
  }

  lemma SkipKeepsInv(job: Job, s: System, files: map<Path, seq<byte>>)
    requires Inv(job, s, files) && s.toHost != [] && !Accepts(s.host, s.toHost[0])
    ensures Inv(job, Do(job, s, HostTakes), files)
  {
    hide InFlight, PhaseInv, Send, OthersKept, Packs, Accepts, HostReceives;
    var h := s.host;
    Skipped(job, h, s.toHost[0]);
    var h' := HostReceives(job, h, s.toHost[0]).host;
    assert Without(s.toHost, 0) == s.toHost[1..];
    InFlightShrinks(job, h, s.toDev, s.toHost, s.toDev, s.toHost[1..]);
    PhaseShrinks(job, h, s.dev, s.toHost);
    HostFieldsMatter(job, h, h', s.dev, s.toDev, s.toHost[1..]);
    assert s.toDev + [] == s.toDev;
  }

  /** The host as an accepted response leaves it, before it sends its next command. */
  function Moved(job: Job, h: Host, r: seq<byte>): Host
    requires Accepts(h, r)
  {
    h.(phase := After(job, h.phase), attempt := 0, xferId := if h.phase.Begin? then r[2] else h.xferId)
  }

  lemma MovesOn(job: Job, h: Host, r: seq<byte>)
    requires HostInv(job, h) && Accepts(h, r)
    ensures var h1 := Moved(job, h, r);
            && HostReceives(job, h, r) == (if h1.phase.Done? then HostOut(h1, []) else Send(job, h1))
            && !h1.failed && h1.attempt == 0 && h1.cur < SEQ_EVENT && h1.nextSeq < SEQ_EVENT
            && h1.nextSeq == (h1.cur + 1) % 255 && Packs(job, h.phase)
            && (h1.phase.Done? ==> HostInv(job, h1))
  {
    hide Send, After;
  }

  lemma AcceptKeepsInv(job: Job, s: System, files: map<Path, seq<byte>>)
    requires Inv(job, s, files) && s.toHost != [] && Accepts(s.host, s.toHost[0])
    ensures Inv(job, Do(job, s, HostTakes), files)
  {
    hide PhaseInv, OthersKept, InFlight, HostInv, HostReceives, Send, After, Packs;
    var h := s.host;
    var r := s.toHost[0];
    MatchDrains(job, h, s.toDev, s.toHost);
    MovesOn(job, h, r);
    var o := HostReceives(job, h, r);
    var h1 := Moved(job, h, r);
    AcceptKeepsPhase(job, h, h1, s.dev, s.toHost);
    if h1.phase.Done? {
      DoneClean(job, h1, s.toHost[1..]);
    } else {
      SendStartsClean(job, h1, s.toHost[1..]);
      HostFieldsMatter(job, h1, o.host, s.dev, o.sent, s.toHost[1..]);
    }
    assert s.toDev + o.sent == o.sent;
  }

  lemma DoneClean(job: Job, h: Host, toHost: seq<seq<byte>>)
    requires forall i :: 0 <= i < |toHost| ==> IsEvent(toHost[i])
    ensures InFlight(job, h, [], toHost)
  {
  }

  lemma PhaseShrinks(job: Job, h: Host, d: Device, toHost: seq<seq<byte>>)
    requires PhaseInv(job, h, d, toHost) && toHost != []
    ensures PhaseInv(job, h, d, toHost[1..])
  {
    assert Without(toHost, 0) == toHost[1..];
    SomeOkShrinks(toHost, 0);
    hide Ours, Complete, SomeOk, IsOk, IsEvent;
  }

  lemma StepKeepsInv(job: Job, s: System, step: Step, files: map<Path, seq<byte>>)
    requires Inv(job, s, files) && Enabled(s, step)
    ensures Inv(job, Do(job, s, step), files)
  {
    hide Inv, Do;
    match step
    case DeviceTakes(env) => DeviceKeepsInv(job, s, env, files);
    case HostTakes => ReceiptKeepsInv(job, s, files);
    case TimesOut => TimeoutKeepsInv(job, s, files);
    case LoseCommand(_) => LossKeepsInv(job, s, step, files);
    case LoseReply(_) => LossKeepsInv(job, s, step, files);
    case TimerExpires => EnvironmentKeepsInv(job, s, step, files);
    case KeyPressed(_) => EnvironmentKeepsInv(job, s, step, files);
  }

  lemma {:induction false} RunKeepsInv(job: Job, s: System, steps: seq<Step>, files: map<Path, seq<byte>>)
    requires Inv(job, s, files) && Possible(job, s, steps)
    ensures Inv(job, Run(job, s, steps), files)
    decreases |steps|
  {
    hide Inv, Do;
    if steps != [] {
      StepKeepsInv(job, s, steps[0], files);
      RunKeepsInv(job, Do(job, s, steps[0]), steps[1..], files);
    }
  }

  lemma InitialInv(job: Job, s: System)
    requires Initial(job, s)
    ensures Inv(job, s, s.dev.files)
  {
    var seqNo: byte :| seqNo < SEQ_EVENT && Launch(job, seqNo) == HostOut(s.host, s.toDev);
    SendStartsClean(job, Host(seqNo, Begin, 0, 0, 0, false), s.toHost);
    assert !SomeOk(s.toHost);
    hide InFlight;
  }

  // ---- What every run of an upload guarantees ----

  /** If upload_file returns normally, the device file is the local bytes, whatever was
      lost, delayed or retransmitted; the links are drained for the next upload; and in
      every state of every run no other file has changed. */
  lemma UploadIsExact(job: Job, s: System, steps: seq<Step>)
    requires Initial(job, s) && Possible(job, s, steps)
    ensures var u := Run(job, s, steps);
            && (u.host.phase.Done? ==>
                  && Chunks(job) <= 0x1_0000
                  && DevicePath(job) in u.dev.files && u.dev.files[DevicePath(job)] == job.data
                  && u.toDev == [] && forall i :: 0 <= i < |u.toHost| ==> IsEvent(u.toHost[i]))
            && u.dev.files - {DevicePath(job)} == s.dev.files - {DevicePath(job)}
  {
    InitialInv(job, s);
    RunKeepsInv(job, s, steps, s.dev.files);
    var u := Run(job, s, steps);
    assert u.toDev != [] ==> IsAttempt(job, u.host, u.toDev[0]);
    hide Run;
  }

  /** At every moment between two chunks the open file holds each chunk before the
      current one exactly once, in order, and the current one at most once. */
  lemma EachChunkOnce(job: Job, s: System, steps: seq<Step>)
    requires Initial(job, s) && Possible(job, s, steps)
    requires var u := Run(job, s, steps); u.host.phase.Chunk? && u.dev.xfer.active
    ensures var u := Run(job, s, steps);
            && DevicePath(job) in u.dev.files
            && u.dev.files[DevicePath(job)] in {Prefix(job, u.host.phase.idx), Prefix(job, u.host.phase.idx + 1)}
  {
    hide Inv, Initial, Run, Possible;
    InitialInv(job, s);
    RunKeepsInv(job, s, steps, s.dev.files);
    ChunksOpen(job, Run(job, s, steps), s.dev.files);
  }

  lemma ChunksOpen(job: Job, u: System, files: map<Path, seq<byte>>)
    requires Inv(job, u, files) && u.host.phase.Chunk? && u.dev.xfer.active
    ensures DevicePath(job) in u.dev.files
    ensures u.dev.files[DevicePath(job)] in {Prefix(job, u.host.phase.idx), Prefix(job, u.host.phase.idx + 1)}
  {
    hide InFlight, OthersKept, HostInv, Prefix, DevicePath, Feed32, SomeOk, Complete, Chunks;
  }

  // ---- A retransmitted chunk ----

  /** A retransmit of the chunk just written is acknowledged again and changes nothing,
      except for chunk 65535: the 16-bit counter has wrapped to zero behind it, and the
      retransmit aborts the transfer. */
  lemma RetransmitHarmlessIff(job: Job, d: Device, seqNo: byte, idx: nat, env: Env)
    requires d.rx.Ready? && d.session && d.timerArmed && d.xfer.active
    requires idx < Chunks(job) && idx < 0x1_0000 && Ours(job, d, idx + 1)
    ensures Dispatch(d, Payload(job, Chunk(idx), 0, seqNo), env)
         == if idx != 0xFFFF then Outcome(d, [Reply(seqNo, OK, Le16(idx))])
            else Err(AbortTransfer(d), seqNo, TRANSFER)
    ensures Dispatch(d, Payload(job, Chunk(idx), 0, seqNo), env).dev == d <==> idx != 0xFFFF
  {
    hide Dispatch, Payload, BodyOf, UploadChunk, Ours, Chunks, AcceptChunk, Append, ChunkData;
    RetransmitPayload(job, seqNo, idx);
    DispatchTransfer(d, seqNo, UPLOAD_CHUNK, BodyOf(job, Chunk(idx), 0), env);
    assert d.(timerArmed := true) == d;
    ChunkForms(job, d, seqNo, idx, env);
    OursNext(job, d, idx);
    OursCount(job, d, idx + 1);
  }

  lemma RetransmitPayload(job: Job, seqNo: byte, idx: nat)
    requires idx < 0x1_0000
    ensures Payload(job, Chunk(idx), 0, seqNo) == [seqNo, UPLOAD_CHUNK, 0] + BodyOf(job, Chunk(idx), 0)
  {
    hide BodyOf;
  }

  lemma OursCount(job: Job, d: Device, c: nat)
    ensures Ours(job, d, c) ==> d.xfer.nextChunk == c % 0x1_0000
  {
  }
}
