/** The device side of JPPD-SMP as state transitions: command handlers, the
    inactivity timer, the consent dialog and the keypad. */
module SerialDevice {
  import opened Bytes
  import opened Crc
  import opened Registers

  type Path = seq<byte>

  // Commands and status codes on the wire.
  const SESSION_START: byte := 0x00
  const SESSION_END: byte := 0x01
  const KEEPALIVE: byte := 0x05
  const UPLOAD_BEGIN: byte := 0x14
  const UPLOAD_CHUNK: byte := 0x15
  const UPLOAD_END: byte := 0x16
  const DL_BEGIN: byte := 0x17
  const DL_CHUNK: byte := 0x18
  const DL_END: byte := 0x19
  const APPLY_BACKUP: byte := 0x1A

  const OK: byte := 0x00
  const DENIED: byte := 0x01
  const NOT_FOUND: byte := 0x02
  const IO: byte := 0x03
  const INVALID: byte := 0x05
  const BUSY: byte := 0x06
  const NO_SESSION: byte := 0x07
  const TRANSFER: byte := 0x08
  const APP_RUNNING: byte := 0x0A

  const SEQ_EVENT: byte := 0xFF
  const SESSION_ENDED: byte := 0x01

  const CHUNK_SIZE: nat := 1024

  // ---- State ----

  /** smp_transfer_t. `fp` is the path of the open file, if a file is open. */
  datatype Transfer = Transfer(fp: Option<Path>, fileSize: nat, crc: bv32, chunkCount: nat,
                               nextChunk: nat, id: byte, isUpload: bool, active: bool)

  datatype Consent = Idle | Pending | BackupPending

  /** The receive task: ready for a command, or blocked on the dialog numbered `dialog`.
      The numbers and their counter `dialogs` only name dialogs; no branch reads them. */
  datatype Rx = Ready | AwaitSession(seqNo: byte, dialog: nat) | AwaitBackup(seqNo: byte, dialog: nat)

  datatype Device = Device(session: bool, timerArmed: bool, xfer: Transfer, files: map<Path, seq<byte>>,
                           consent: Consent, cursor: nat, allowed: bool, token: bool,
                           rx: Rx, dialogs: nat)

  const NoTransfer := Transfer(None, 0, 0, 0, 0, 0, false, false)

  /** Power-on state with the given SD card. */
  function Boot(files: map<Path, seq<byte>>): Device {
    Device(false, false, NoTransfer, files, Idle, 1, false, false, Ready, 0)
  }

  /** What code outside this model decides during one command: whether an app is
      running, whether fopen and fseek succeed, how many bytes fwrite takes and fread
      gives, what the backup check and its application return, and other commands' status. */
  datatype Env = Env(appRunning: bool, openOk: bool, writable: nat, seekOk: bool, readable: nat,
                     backupStatus: byte, applyOk: bool, otherStatus: byte)

  /** The new state and the response payloads sent. */
  datatype Outcome = Outcome(dev: Device, sent: seq<seq<byte>>)

  function Reply(seqNo: byte, status: byte, body: seq<byte>): seq<byte> {
    [seqNo, status] + body
  }

  function Err(d: Device, seqNo: byte, status: byte): Outcome {
    Outcome(d, [Reply(seqNo, status, [])])
  }

  // ---- Session and timer ----

  /** close_session and session_timeout_cb: both leave the one-shot timer stopped. */
  function Close(d: Device): Device {
    var x := if d.xfer.active && d.xfer.fp.Some? then d.xfer.(fp := None) else d.xfer;
    d.(xfer := x.(active := false), session := false, timerArmed := false)
  }

  function TimerFires(d: Device): Device
    requires d.timerArmed
  {
    Close(d)
  }

  // ---- Paths ----

  function SdPrefixOk(p: Path): bool {
    |p| >= 3 && p[..3] == [0x2F, 0x73, 0x64] && (|p| == 3 || p[3] == 0x2F)
  }

  // ---- Upload ----

  /** A transfer command touches the transfer and the files only, and opens or closes
      the file together with the transfer. */
  ghost predicate TransferStep(d: Device, d': Device) {
    && d' == d.(xfer := d'.xfer, files := d'.files)
    && ((d.xfer.active <==> d.xfer.fp.Some?) ==> (d'.xfer.active <==> d'.xfer.fp.Some?))
  }

  function AbortTransfer(d: Device): Device {
    d.(xfer := d.xfer.(fp := None, active := false))
  }

  /** Chunks in a file: 32-bit arithmetic, stored in 16 bits. */
  function ChunkCount(fileSize: nat): nat {
    ((fileSize + CHUNK_SIZE - 1) % 0x1_0000_0000 / CHUNK_SIZE) % 0x1_0000
  }

  function UploadBegin(d: Device, seqNo: byte, body: seq<byte>, env: Env): (r: Outcome)
    ensures TransferStep(d, r.dev)
  {
    if d.xfer.active then Err(d, seqNo, TRANSFER)
    else if |body| < 5 then Err(d, seqNo, INVALID)
    else
      var fileSize := FromLe32(body[..4]);
      var path := CStr(body[4..]);
      if |path| >= |body| - 4 || !SdPrefixOk(path) then Err(d, seqNo, INVALID)
      else if !env.openOk then Err(d, seqNo, IO)
      else
        Outcome(Truncate(d, path, fileSize), [Reply(seqNo, OK, [0])])
  }

  /** fopen(path, "wb") and a fresh transfer for it. */
  function Truncate(d: Device, path: Path, fileSize: nat): Device {
    d.(xfer := Transfer(Some(path), fileSize, 0xFFFF_FFFF, ChunkCount(fileSize), 0, 0, true, true),
       files := d.files[path := []])
  }

  /** Append to the open file. */
  function Append(d: Device, data: seq<byte>): Device {
    if d.xfer.fp.None? then d
    else
      var p := d.xfer.fp.value;
      d.(files := d.files[p := (if p in d.files then d.files[p] else []) + data])
  }

  function AcceptChunk(d: Device, data: seq<byte>): (d': Device)
    ensures TransferStep(d, d')
  {
    var d1 := Append(d, data);
    d1.(xfer := d1.xfer.(crc := Feed32(d.xfer.crc, data), nextChunk := (d.xfer.nextChunk + 1) % 0x1_0000))
  }

  function UploadChunk(d: Device, seqNo: byte, body: seq<byte>, env: Env): (r: Outcome)
    ensures TransferStep(d, r.dev)
  {
    if !d.xfer.active || !d.xfer.isUpload then Err(d, seqNo, TRANSFER)
    else if |body| < 4 then Err(d, seqNo, INVALID)
    else if body[0] != d.xfer.id then Err(d, seqNo, TRANSFER)
    else
      var idx := FromLe16(body[1], body[2]);
      if idx != d.xfer.nextChunk then
        if d.xfer.nextChunk > 0 && idx == d.xfer.nextChunk - 1 then
          Outcome(d, [Reply(seqNo, OK, body[1..3])])
        else Err(AbortTransfer(d), seqNo, TRANSFER)
      else
        var data := body[3..];
        if env.writable < |data| then
          Err(AbortTransfer(Append(d, data[..env.writable])), seqNo, IO)
        else
          Outcome(AcceptChunk(d, data), [Reply(seqNo, OK, body[1..3])])
  }

  function UploadEnd(d: Device, seqNo: byte, body: seq<byte>): (r: Outcome)
    ensures TransferStep(d, r.dev)
  {
    if !d.xfer.active || !d.xfer.isUpload then Err(d, seqNo, TRANSFER)
    else if |body| < 5 then Err(d, seqNo, INVALID)
    else if body[0] != d.xfer.id then Err(d, seqNo, TRANSFER)
    else
      var d1 := AbortTransfer(d);
      if FromLe32(body[1..5]) != Final32(d.xfer.crc) then Err(d1, seqNo, INVALID)
      else Err(d1, seqNo, OK)
  }

  // ---- Download ----

  function PathOf(body: seq<byte>): Option<Path> {
    if |body| == 0 || body[|body| - 1] != 0 then None
    else if SdPrefixOk(CStr(body)) then Some(CStr(body)) else None
  }

  function DlBegin(d: Device, seqNo: byte, body: seq<byte>, env: Env): (r: Outcome)
    ensures TransferStep(d, r.dev)
  {
    if d.xfer.active then Err(d, seqNo, TRANSFER)
    else
      var path := PathOf(body);
      if path.None? then Err(d, seqNo, INVALID)
      else if path.value !in d.files then Err(d, seqNo, NOT_FOUND)
      else if !env.openOk then Err(d, seqNo, IO)
      else
        var file := d.files[path.value];
        var size := |file| % 0x1_0000_0000;
        var x := Transfer(Some(path.value), size, Xor32(Feed32(0xFFFF_FFFF, file), 0xFFFF_FFFF), ChunkCount(size), 0, 0, false, true);
        Outcome(d.(xfer := x),
                [Reply(seqNo, OK, [0] + Le32(size) + Le16(ChunkCount(size)) + Le32(Crc32(file)))])
  }

  function DlChunk(d: Device, seqNo: byte, body: seq<byte>, env: Env): (r: Outcome)
    ensures TransferStep(d, r.dev)
  {
    if !d.xfer.active || d.xfer.isUpload then Err(d, seqNo, TRANSFER)
    else if |body| < 3 then Err(d, seqNo, INVALID)
    else if body[0] != d.xfer.id then Err(d, seqNo, TRANSFER)
    else
      var idx := FromLe16(body[1], body[2]);
      if idx >= d.xfer.chunkCount then Err(d, seqNo, INVALID)
      else if !env.seekOk then Err(d, seqNo, IO)
      else
        var data := FileChunk(d, idx)[..Min(env.readable, |FileChunk(d, idx)|)];
        if data == [] && FileChunk(d, idx) != [] then Err(d, seqNo, IO)
        else Outcome(d, [Reply(seqNo, OK, body[..3] + data)])
  }

  /** fread at chunk idx of the open file. */
  function FileChunk(d: Device, idx: nat): seq<byte> {
    var file := if d.xfer.fp.Some? && d.xfer.fp.value in d.files then d.files[d.xfer.fp.value] else [];
    file[Min(idx * CHUNK_SIZE, |file|)..Min((idx + 1) * CHUNK_SIZE, |file|)]
  }

  function DlEnd(d: Device, seqNo: byte, body: seq<byte>): (r: Outcome)
    ensures TransferStep(d, r.dev)
  {
    if !d.xfer.active || d.xfer.isUpload then Err(d, seqNo, TRANSFER)
    else if |body| < 1 || body[0] != d.xfer.id then Err(d, seqNo, TRANSFER)
    else Err(AbortTransfer(d), seqNo, OK)
  }

  // ---- Commands that wait for the user ----

  function StartSession(d: Device, seqNo: byte, body: seq<byte>, env: Env): Outcome {
    if d.session then Err(d, seqNo, BUSY)
    else if env.appRunning then Err(d, seqNo, APP_RUNNING)
    else if |body| < 1 || body[0] != 1 then Err(d, seqNo, INVALID)
    else Outcome(d.(cursor := 1, consent := Pending, rx := AwaitSession(seqNo, d.dialogs), dialogs := d.dialogs + 1), [])
  }

  function StartBackup(d: Device, seqNo: byte, body: seq<byte>, env: Env): Outcome {
    if PathOf(body).None? then Err(d, seqNo, INVALID)
    else if env.backupStatus != OK then Err(d, seqNo, env.backupStatus)
    else Outcome(d.(cursor := 0, consent := BackupPending, rx := AwaitBackup(seqNo, d.dialogs), dialogs := d.dialogs + 1), [])
  }

  /** The receive task takes the semaphore and runs to the end of the handler. */
  function Resume(d: Device, env: Env): Outcome
    requires !d.rx.Ready? && d.token
  {
    var d1 := d.(token := false, rx := Ready);
    match d.rx
    case AwaitSession(seqNo, _) =>
      if !d.allowed then Err(d1, seqNo, DENIED)
      else Outcome(d1.(session := true, timerArmed := true), [Reply(seqNo, OK, [1])])
    case AwaitBackup(seqNo, _) =>
      if !d.allowed then Err(d1, seqNo, DENIED)
      else if !env.applyOk then Err(d1, seqNo, IO)
      else Outcome(Boot(d.files).(dialogs := d.dialogs), [Reply(seqNo, OK, [])])
  }

  // ---- Dispatch ----

  function Dispatch(d: Device, payload: seq<byte>, env: Env): Outcome
    requires d.rx.Ready?
  {
    if |payload| < 3 then Outcome(d, [])
    else
      var seqNo, cmd, body := payload[0], payload[1], payload[3..];
      if !d.session && cmd != SESSION_START then Err(d, seqNo, NO_SESSION)
      else
        var d1 := if d.session then d.(timerArmed := true) else d;
        if cmd == SESSION_START then StartSession(d1, seqNo, body, env)
        else if cmd == SESSION_END then Err(Close(d1), seqNo, OK)
        else if cmd == UPLOAD_BEGIN then UploadBegin(d1, seqNo, body, env)
        else if cmd == UPLOAD_CHUNK then UploadChunk(d1, seqNo, body, env)
        else if cmd == UPLOAD_END then UploadEnd(d1, seqNo, body)
        else if cmd == DL_BEGIN then DlBegin(d1, seqNo, body, env)
        else if cmd == DL_CHUNK then DlChunk(d1, seqNo, body, env)
        else if cmd == DL_END then DlEnd(d1, seqNo, body)
        else if cmd == APPLY_BACKUP then StartBackup(d1, seqNo, body, env)
        else if cmd == KEEPALIVE then Err(d1, seqNo, OK)
        else if OtherKnown(cmd) then Err(d1, seqNo, env.otherStatus)
        else Err(d1, seqNo, INVALID)
  }

  /** GET_INFO, GET_LRV_DATA, SET_TIME, LIST_DIR, MKDIR, REMOVE, RENAME. */
  function OtherKnown(cmd: byte): bool {
    cmd == 0x02 || cmd == 0x03 || cmd == 0x04 || cmd == 0x10 || cmd == 0x11 || cmd == 0x12 || cmd == 0x13
  }

  // ---- Keypad ----

  datatype Key = Left | Right | Confirm | Back | Other

  /** jpp_serial_mgr_handle_action, including the event sent before a user-ended session closes. */
  function Press(d: Device, key: Key): Outcome {
    if d.consent != Idle then
      match key
      case Left => Outcome(d.(cursor := 0), [])
      case Right => Outcome(d.(cursor := 1), [])
      case Confirm => Outcome(d.(allowed := d.cursor == 1, consent := Idle, token := true), [])
      case _ => Outcome(d, [])
    else if d.session && key == Back then
      Outcome(Close(d), [Reply(SEQ_EVENT, SESSION_ENDED, [])])
    else Outcome(d, [])
  }
}
