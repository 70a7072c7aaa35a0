/** jpp_serial_mgr.c as it is written: handlers that update module state one field at a
    time, over streams of the C library. Each is proved to be the transition of module
    SerialDevice and to use, leave and lose no stream but the one of the transfer. */
module SerialManager {
  import opened Bytes
  import opened Crc
  import opened Registers
  import opened SerialDevice
  import Session

  /** The card and the streams open on it. Every operation on a stream demands that it is
      open, so none is used or closed after it was closed. */
  class Card {
    var files: map<Path, seq<byte>>
    var open: map<nat, Path>
    var next: nat

    ghost predicate Valid()
      reads this
    {
      forall h :: h in open ==> h < next
    }

    constructor (content: map<Path, seq<byte>>)
      ensures Valid() && files == content && open == map[]
    {
      files, open, next := content, map[], 0;
    }

    /** fopen: "wb" empties the file, "rb" leaves it. */
    method Open(path: Path, writing: bool) returns (h: nat)
      requires Valid()
      modifies this
      ensures Valid() && h !in old(open) && open == old(open)[h := path]
      ensures files == if writing then old(files)[path := []] else old(files)
    {
      h := next;
      next := next + 1;
      open := open[h := path];
      if writing {
        files := files[path := []];
      }
    }

    method Close(h: nat)
      requires Valid() && h in open
      modifies this`open
      ensures Valid() && open == old(open) - {h}
    {
      open := open - {h};
    }

    /** fwrite: as many bytes as the card takes, at the end of the file. */
    method Write(h: nat, data: seq<byte>, takes: nat) returns (n: nat)
      requires h in open
      modifies this`files
      ensures n == Min(takes, |data|)
      ensures var p := open[h]; files == old(files)[p := (if p in old(files) then old(files[p]) else []) + data[..n]]
    {
      n := if takes < |data| then takes else |data|;
      var p := open[h];
      files := files[p := (if p in files then files[p] else []) + data[..n]];
    }

    /** fread behind an fseek: what the file holds there, as far as the card gives it. */
    method Read(h: nat, at: nat, size: nat, gives: nat) returns (data: seq<byte>, failed: bool)
      requires h in open
      ensures var file := if open[h] in files then files[open[h]] else [];
              var there := file[Min(at, |file|)..Min(at + size, |file|)];
              data == there[..Min(gives, |there|)] && (failed <==> gives < |there|)
    {
      var file := if open[h] in files then files[open[h]] else [];
      var there := file[Min(at, |file|)..Min(at + size, |file|)];
      data, failed := there[..Min(gives, |there|)], gives < |there|;
    }

    /** A restart: the streams are gone, the files are not. */
    method Restart()
      modifies this`open
      ensures Valid() && open == map[]
    {
      open := map[];
    }
  }

  class Manager {
    const card: Card
    var session: bool
    var timerArmed: bool
    /** s_xfer; the stream behind xfer.fp is `stream`. */
    var xfer: Transfer
    var stream: nat
    var consent: Consent
    var cursor: nat
    var allowed: bool
    var token: bool
    var rx: Rx
    var dialogs: nat
    /** Response and event payloads handed to the transmitter. */
    var sent: seq<seq<byte>>

    /** A transfer is active exactly when it has a stream; that stream is open on its path,
        and no other is. */
    ghost predicate Valid()
      reads `xfer, `stream, card
    {
      && card.Valid() && (xfer.active <==> xfer.fp.Some?)
      && card.open == if xfer.fp.Some? then map[stream := xfer.fp.value] else map[]
    }

    ghost function State(): Device
      reads this, card
    {
      Device(session, timerArmed, xfer, card.files, consent, cursor, allowed, token, rx, dialogs)
    }

    /** The method performed exactly this transition, sent exactly its payloads and left no
        stream dangling. */
    twostate predicate Performed(o: Outcome)
      reads this, card
    {
      Valid() && State() == o.dev && sent == old(sent) + o.sent
    }

    constructor (content: map<Path, seq<byte>>)
      ensures Valid() && fresh(card) && State() == Boot(content) && Session.DeviceInv(State()) && sent == []
    {
      card := new Card(content);
      session, timerArmed, xfer, stream := false, false, NoTransfer, 0;
      consent, cursor, allowed, token, rx, dialogs := Idle, 1, false, false, Ready, 0;
      sent := [];
    }

    method SendResponse(seqNo: byte, status: byte, body: seq<byte>)
      modifies this`sent
      ensures sent == old(sent) + [Reply(seqNo, status, body)]
    {
      sent := sent + [Reply(seqNo, status, body)];
    }

    // ---- Session ----

    /** session_timeout_cb; the one-shot timer has fired. */
    method SessionTimeout()
      requires Valid() && timerArmed
      modifies this, card
      ensures Performed(Outcome(TimerFires(old(State())), []))
      ensures old(Session.DeviceInv(State())) ==> Session.DeviceInv(State())
    {
      hide Session.DeviceInv;
      timerArmed := false;
      if xfer.active && xfer.fp.Some? {
        card.Close(stream);
        xfer := xfer.(fp := None);
      }
      xfer := xfer.(active := false);
      session := false;
      TimerKeepsInv(old(State()));
    }

    /** close_session: the same, with the timer stopped first. */
    method CloseSession()
      requires Valid()
      modifies this, card
      ensures Performed(Outcome(Close(old(State())), []))
    {
      timerArmed := false;
      if xfer.active && xfer.fp.Some? {
        card.Close(stream);
        xfer := xfer.(fp := None);
      }
      xfer := xfer.(active := false);
      session := false;
    }

    /** fclose, forget the handle, deactivate. */
    method DropTransfer()
      requires Valid() && xfer.active
      modifies this`xfer, card`open
      ensures Valid() && State() == AbortTransfer(old(State()))
    {
      card.Close(stream);
      xfer := xfer.(fp := None);
      xfer := xfer.(active := false);
    }

    /** fopen, and a fresh transfer for the stream. */
    method OpenTransfer(x: Transfer, writing: bool)
      requires Valid() && !xfer.active && x.active && x.fp.Some?
      modifies this`xfer, this`stream, card
      ensures Valid() && xfer == x
      ensures card.files == if writing then old(card.files)[x.fp.value := []] else old(card.files)
    {
      stream := card.Open(x.fp.value, writing);
      xfer := x;
    }

    // ---- Upload ----

    method HandleUploadBegin(seqNo: byte, body: seq<byte>, env: Env)
      requires Valid()
      modifies this, card
      ensures Performed(UploadBegin(old(State()), seqNo, body, env))
    {
      if xfer.active {
        SendResponse(seqNo, TRANSFER, []);
        return;
      }
      if |body| < 5 {
        SendResponse(seqNo, INVALID, []);
        return;
      }
      var fileSize := FromLe32(body[..4]);
      var path := CStr(body[4..]);
      if |path| >= |body| - 4 || !SdPrefixOk(path) {
        SendResponse(seqNo, INVALID, []);
        return;
      }
      if !env.openOk {
        SendResponse(seqNo, IO, []);
        return;
      }
      OpenTransfer(Transfer(Some(path), fileSize, 0xFFFF_FFFF, ChunkCount(fileSize), 0, 0, true, true), true);
      SendResponse(seqNo, OK, [0]);
    }

    method HandleUploadChunk(seqNo: byte, body: seq<byte>, env: Env)
      requires Valid()
      modifies this, card
      ensures Performed(UploadChunk(old(State()), seqNo, body, env))
    {
      if !xfer.active || !xfer.isUpload {
        SendResponse(seqNo, TRANSFER, []);
        return;
      }
      if |body| < 4 {
        SendResponse(seqNo, INVALID, []);
        return;
      }
      if body[0] != xfer.id {
        SendResponse(seqNo, TRANSFER, []);
        return;
      }
      var idx := FromLe16(body[1], body[2]);
      if idx != xfer.nextChunk {
        if xfer.nextChunk > 0 && idx == xfer.nextChunk - 1 {
          SendResponse(seqNo, OK, body[1..3]);
          return;
        }
        DropTransfer();
        SendResponse(seqNo, TRANSFER, []);
        return;
      }
      StoreChunk(seqNo, body, env);
      hide Append, AcceptChunk, AbortTransfer, Valid;
    }

    /** fwrite to the transfer's stream. */
    method WriteStream(data: seq<byte>, takes: nat) returns (n: nat)
      requires Valid() && xfer.active
      modifies card`files
      ensures Valid() && n == Min(takes, |data|) && State() == Append(old(State()), data[..n])
    {
      n := card.Write(stream, data, takes);
    }

    /** The expected chunk: written, added to the checksum, counted and acknowledged. */
    method StoreChunk(seqNo: byte, body: seq<byte>, env: Env)
      requires Valid() && xfer.active && |body| >= 4
      modifies this, card
      ensures var d, data := old(State()), body[3..];
              Performed(if env.writable < |data| then Err(AbortTransfer(Append(d, data[..env.writable])), seqNo, IO)
                        else Outcome(AcceptChunk(d, data), [Reply(seqNo, OK, body[1..3])]))
    {
      hide Append;
      var data := body[3..];
      var n := WriteStream(data, env.writable);
      assert data[..|data|] == data;
      if n != |data| {
        DropTransfer();
        SendResponse(seqNo, IO, []);
        return;
      }
      var crc := SerialCrc32Buf(xfer.crc, data);
      xfer := xfer.(crc := crc);
      xfer := xfer.(nextChunk := (xfer.nextChunk + 1) % 0x1_0000);
      SendResponse(seqNo, OK, body[1..3]);
    }

    method HandleUploadEnd(seqNo: byte, body: seq<byte>)
      requires Valid()
      modifies this, card
      ensures Performed(UploadEnd(old(State()), seqNo, body))
    {
      if !xfer.active || !xfer.isUpload {
        SendResponse(seqNo, TRANSFER, []);
        return;
      }
      if |body| < 5 {
        SendResponse(seqNo, INVALID, []);
        return;
      }
      if body[0] != xfer.id {
        SendResponse(seqNo, TRANSFER, []);
        return;
      }
      var hostCrc := FromLe32(body[1..5]);
      DropTransfer();
      var finalCrc := Final32(xfer.crc);
      if hostCrc != finalCrc {
        SendResponse(seqNo, INVALID, []);
        return;
      }
      SendResponse(seqNo, OK, []);
    }

    // ---- Download ----

    method HandleDlBegin(seqNo: byte, body: seq<byte>, env: Env)
      requires Valid()
      modifies this, card
      ensures Performed(DlBegin(old(State()), seqNo, body, env))
    {
      if xfer.active {
        SendResponse(seqNo, TRANSFER, []);
        return;
      }
      var path := PathOf(body);
      if path.None? {
        SendResponse(seqNo, INVALID, []);
        return;
      }
      if path.value !in card.files {
        SendResponse(seqNo, NOT_FOUND, []);
        return;
      }
      if !env.openOk {
        SendResponse(seqNo, IO, []);
        return;
      }
      OpenDownload(seqNo, path.value);
    }

    /** The stream, the size, the checksum and the header of the answer. */
    method OpenDownload(seqNo: byte, path: Path)
      requires Valid() && !xfer.active && path in card.files
      modifies this, card
      ensures var d, size := old(State()), |old(card.files[path])| % 0x1_0000_0000;
              var crc := Feed32(0xFFFF_FFFF, old(card.files[path]));
              Performed(Outcome(d.(xfer := Transfer(Some(path), size, Xor32(crc, 0xFFFF_FFFF), ChunkCount(size), 0, 0, false, true)),
                                [Reply(seqNo, OK, [0] + Le32(size) + Le16(ChunkCount(size)) + Le32(Final32(crc)))]))
    {
      hide Le16, Le32, Final32, Feed32, Xor32;
      var size := |card.files[path]| % 0x1_0000_0000;
      OpenTransfer(Transfer(Some(path), size, 0, ChunkCount(size), 0, 0, false, true), false);
      var digest := DigestFile();
      xfer := xfer.(crc := Xor32(digest, 0xFFFF_FFFF));
      SendResponse(seqNo, OK, [0] + Le32(size) + Le16(ChunkCount(size)) + Le32(Final32(digest)));
    }

    /** The whole file is digested in 256-byte reads. */
    method DigestFile() returns (digest: bv32)
      requires Valid() && xfer.active && xfer.fp.value in card.files
      ensures digest == Feed32(0xFFFF_FFFF, card.files[xfer.fp.value])
    {
      hide Feed32;
      ghost var file := card.files[xfer.fp.value];
      digest := 0xFFFF_FFFF;
      var pos := 0;
      assert file[..0] == [];
      FeedNothing(0xFFFF_FFFF);
      while true
        invariant pos <= |file| && digest == Feed32(0xFFFF_FFFF, file[..pos])
        decreases |file| - pos
      {
        var block, failed := card.Read(stream, pos, 256, 256);
        Block(file, pos, block);
        if |block| == 0 {
          break;
        }
        Feed32Append(0xFFFF_FFFF, file[..pos], block);
        digest := SerialCrc32Buf(digest, block);
        pos := pos + |block|;
      }
      assert file[..|file|] == file;
    }

    method HandleDlChunk(seqNo: byte, body: seq<byte>, env: Env)
      requires Valid()
      modifies this`sent
      ensures Performed(DlChunk(old(State()), seqNo, body, env))
    {
      if !xfer.active || xfer.isUpload {
        SendResponse(seqNo, TRANSFER, []);
        return;
      }
      if |body| < 3 {
        SendResponse(seqNo, INVALID, []);
        return;
      }
      if body[0] != xfer.id {
        SendResponse(seqNo, TRANSFER, []);
        return;
      }
      var idx := FromLe16(body[1], body[2]);
      if idx >= xfer.chunkCount {
        SendResponse(seqNo, INVALID, []);
        return;
      }
      if !env.seekOk {
        SendResponse(seqNo, IO, []);
        return;
      }
      var data, failed := card.Read(stream, idx * CHUNK_SIZE, CHUNK_SIZE, env.readable);
      if |data| == 0 && failed {
        SendResponse(seqNo, IO, []);
        return;
      }
      SendResponse(seqNo, OK, body[..3] + data);
    }

    method HandleDlEnd(seqNo: byte, body: seq<byte>)
      requires Valid()
      modifies this, card
      ensures Performed(DlEnd(old(State()), seqNo, body))
    {
      if !xfer.active || xfer.isUpload {
        SendResponse(seqNo, TRANSFER, []);
        return;
      }
      if |body| < 1 || body[0] != xfer.id {
        SendResponse(seqNo, TRANSFER, []);
        return;
      }
      DropTransfer();
      SendResponse(seqNo, OK, []);
    }

    // ---- Commands that wait for the user: up to the wait, and after it ----

    method HandleSessionStart(seqNo: byte, body: seq<byte>, env: Env)
      requires Valid()
      modifies this, card
      ensures Performed(StartSession(old(State()), seqNo, body, env))
    {
      if session {
        SendResponse(seqNo, BUSY, []);
        return;
      }
      if env.appRunning {
        SendResponse(seqNo, APP_RUNNING, []);
        return;
      }
      if |body| < 1 || body[0] != 1 {
        SendResponse(seqNo, INVALID, []);
        return;
      }
      cursor := 1;
      consent := Pending;
      rx, dialogs := AwaitSession(seqNo, dialogs), dialogs + 1;
      assert sent + [] == sent;
    }

    method HandleApplyBackup(seqNo: byte, body: seq<byte>, env: Env)
      requires Valid()
      modifies this, card
      ensures Performed(StartBackup(old(State()), seqNo, body, env))
    {
      if PathOf(body).None? {
        SendResponse(seqNo, INVALID, []);
        return;
      }
      if env.backupStatus != OK {
        SendResponse(seqNo, env.backupStatus, []);
        return;
      }
      cursor := 0;
      consent := BackupPending;
      rx, dialogs := AwaitBackup(seqNo, dialogs), dialogs + 1;
      assert sent + [] == sent;
    }

    /** xSemaphoreTake returns. */
    method Wake(env: Env)
      requires Valid() && !rx.Ready? && token
      modifies this, card
      ensures Performed(Resume(old(State()), env))
      ensures old(Session.DeviceInv(State())) ==> Session.DeviceInv(State())
    {
      hide Session.DeviceInv;
      WakeKeepsInv(State(), env);
      var waited := rx;
      token, rx := false, Ready;
      match waited
      case AwaitSession(seqNo, _) =>
        if !allowed {
          SendResponse(seqNo, DENIED, []);
          return;
        }
        session := true;
        timerArmed := true;
        SendResponse(seqNo, OK, [1]);
      case AwaitBackup(seqNo, _) =>
        if !allowed {
          SendResponse(seqNo, DENIED, []);
          return;
        }
        if !env.applyOk {
          SendResponse(seqNo, IO, []);
          return;
        }
        SendResponse(seqNo, OK, []);
        Restart();
    }

    /** esp_restart: RAM is lost, the card is not. */
    method Restart()
      modifies this, card
      ensures Valid() && State() == Boot(old(card.files)).(dialogs := old(dialogs)) && sent == old(sent)
    {
      card.Restart();
      session, timerArmed, xfer, stream := false, false, NoTransfer, 0;
      consent, cursor, allowed, token, rx := Idle, 1, false, false, Ready;
    }

    // ---- Dispatcher and keypad ----

    method DispatchCommand(payload: seq<byte>, env: Env)
      requires Valid() && rx.Ready?
      modifies this, card
      ensures Performed(Dispatch(old(State()), payload, env))
      ensures old(Session.DeviceInv(State())) ==> Session.DeviceInv(State())
    {
      CommandKeepsInv(State(), payload, env);
      HandleCommand(payload, env);
      hide *;
    }

    /** The guard and the switch of dispatch_command. */
    method HandleCommand(payload: seq<byte>, env: Env)
      requires Valid() && rx.Ready?
      modifies this, card
      ensures Performed(Dispatch(old(State()), payload, env))
    {
      hide UploadBegin, UploadChunk, UploadEnd, DlBegin, DlChunk, DlEnd, StartSession, StartBackup, Close, Valid;
      if |payload| < 3 {
        assert sent + [] == sent;
        return;
      }
      var seqNo, cmd, body := payload[0], payload[1], payload[3..];
      if !session && cmd != SESSION_START {
        SendResponse(seqNo, NO_SESSION, []);
        return;
      }
      if session {
        timerArmed := true;
      }
      if cmd == SESSION_START {
        HandleSessionStart(seqNo, body, env);
      } else if cmd == SESSION_END {
        CloseSession();
        SendResponse(seqNo, OK, []);
      } else if cmd == UPLOAD_BEGIN {
        HandleUploadBegin(seqNo, body, env);
      } else if cmd == UPLOAD_CHUNK {
        HandleUploadChunk(seqNo, body, env);
      } else if cmd == UPLOAD_END {
        HandleUploadEnd(seqNo, body);
      } else if cmd == DL_BEGIN {
        HandleDlBegin(seqNo, body, env);
      } else if cmd == DL_CHUNK {
        HandleDlChunk(seqNo, body, env);
      } else if cmd == DL_END {
        HandleDlEnd(seqNo, body);
      } else if cmd == APPLY_BACKUP {
        HandleApplyBackup(seqNo, body, env);
      } else if cmd == KEEPALIVE {
        SendResponse(seqNo, OK, []);
      } else if OtherKnown(cmd) {
        SendResponse(seqNo, env.otherStatus, []);
      } else {
        SendResponse(seqNo, INVALID, []);
      }
    }

    /** jpp_serial_mgr_handle_action. */
    method HandleAction(key: Key)
      requires Valid()
      modifies this, card
      ensures Performed(Press(old(State()), key))
      ensures old(Session.DeviceInv(State())) ==> Session.DeviceInv(State())
    {
      hide Session.DeviceInv;
      PressKeepsInv(State(), key);
      if consent == Pending || consent == BackupPending {
        match key
        case Left => cursor := 0;
        case Right => cursor := 1;
        case Confirm =>
          allowed := cursor == 1;
          consent := Idle;
          token := true;
        case _ =>
      } else if session {
        if key == Back {
          SendResponse(SEQ_EVENT, SESSION_ENDED, []);
          CloseSession();
          return;
        }
      }
      assert sent + [] == sent;
    }
  }

  // What every entry from outside keeps: the device invariant of module Session.

  lemma TimerKeepsInv(d: Device)
    requires d.timerArmed
    ensures Session.DeviceInv(d) ==> Session.DeviceInv(TimerFires(d))
  {
    if Session.DeviceInv(d) {
      Session.AdvanceKeepsInv(d, Session.Timer);
    }
  }

  lemma WakeKeepsInv(d: Device, env: Env)
    requires !d.rx.Ready? && d.token
    ensures Session.DeviceInv(d) ==> Session.DeviceInv(Resume(d, env).dev)
  {
    if Session.DeviceInv(d) {
      Session.AdvanceKeepsInv(d, Session.Wake(env));
    }
  }

  lemma CommandKeepsInv(d: Device, payload: seq<byte>, env: Env)
    requires d.rx.Ready?
    ensures Session.DeviceInv(d) ==> Session.DeviceInv(Dispatch(d, payload, env).dev)
  {
    if Session.DeviceInv(d) {
      Session.DispatchKeepsInv(d, payload, env);
    }
  }

  lemma PressKeepsInv(d: Device, key: Key)
    ensures Session.DeviceInv(d) ==> Session.DeviceInv(Press(d, key).dev)
  {
    if Session.DeviceInv(d) {
      Session.AdvanceKeepsInv(d, Session.Press(key));
    }
  }

  lemma Block(file: seq<byte>, pos: nat, block: seq<byte>)
    requires pos <= |file|
    requires var there := file[Min(pos, |file|)..Min(pos + 256, |file|)]; block == there[..Min(256, |there|)]
    ensures pos + |block| <= |file| && file[..pos + |block|] == file[..pos] + block
    ensures |block| == 0 ==> pos == |file|
  {
    assert block == file[pos..pos + |block|];
  }

  lemma FeedNothing(c: bv32)
    ensures Feed32(c, []) == c
  {
  }
}
