/** The command set byte by byte: what the device answers to each command as it stands on
    the wire, with command numbers, offsets and status codes written out. */
module Commands {
  import opened Bytes
  import opened Crc
  import opened SerialDevice

  /** "/sd" itself or a path below it. */
  predicate OnCard(p: Path) {
    p == [0x2F, 0x73, 0x64] || [0x2F, 0x73, 0x64, 0x2F] <= p
  }

  lemma OnCardIff(p: Path)
    ensures SdPrefixOk(p) <==> OnCard(p)
  {
    if |p| >= 3 {
      assert p[..3] == [p[0], p[1], p[2]];
      assert |p| == 3 ==> p == p[..3];
    }
  }

  /** A command reaches its handler with the bytes behind its three header bytes. */
  lemma Header(q: byte, cmd: byte, body: seq<byte>)
    ensures var c := [q, cmd, 0] + body; c[0] == q && c[1] == cmd && c[3..] == body
    ensures forall status: byte :: Reply(q, status, []) == [q, status]
  {
  }

  lemma PathParses(p: Path)
    requires 0 !in p
    ensures PathOf(p + [0]) == if OnCard(p) then Some(p) else None
    ensures CStr(p + [0]) == p
  {
    CStrTerminated(p, []);
    assert p + [0] + [] == p + [0];
    OnCardIff(p);
  }

  lemma UploadPath(n: nat, p: Path)
    requires n < 0x1_0000_0000
    ensures var body := Le32(n) + (p + [0]); |body| == |p| + 5 && body[..4] == Le32(n) && body[4..] == p + [0]
  {
  }

  /** FS_UPLOAD_BEGIN: a file is opened, emptied and acknowledged exactly for a path on the
      card, outside any transfer and if the card opens it. */
  lemma UploadBeginIff(d: Device, q: byte, n: nat, p: Path, env: Env)
    requires d.rx.Ready? && d.session && 0 !in p && n < 0x1_0000_0000
    ensures var o := Dispatch(d, [q, 0x14, 0] + (Le32(n) + (p + [0])), env);
            && (o.sent == [[q, 0, 0]] <==> !d.xfer.active && OnCard(p) && env.openOk)
            && (o.sent == [[q, 0, 0]] ==> o.dev.files == d.files[p := []] && o.dev.xfer.active && o.dev.xfer.isUpload)
            && (o.sent == [[q, 0, 0]] ==> o.dev.xfer.fp == Some(p) && o.dev.xfer.nextChunk == 0 && o.dev.xfer.id == 0)
            && (o.sent != [[q, 0, 0]] ==> o.dev == d.(timerArmed := true))
            && (o.sent == [[q, 8]] <==> d.xfer.active)
            && (o.sent == [[q, 5]] <==> !d.xfer.active && !OnCard(p))
            && (o.sent == [[q, 3]] <==> !d.xfer.active && OnCard(p) && !env.openOk)
  {
    hide SdPrefixOk, OnCard, CStr, FromLe32, Le32;
    var body := Le32(n) + (p + [0]);
    Header(q, 0x14, body);
    UploadPath(n, p);
    PathParses(p);
    OnCardIff(p);
    assert Reply(q, OK, [0]) == [q, 0, 0];
  }

  /** FS_DL_BEGIN: a path that is not on the card, a file that is not there, a card that
      does not open it. */
  lemma DownloadBeginIff(d: Device, q: byte, p: Path, env: Env)
    requires d.rx.Ready? && d.session && 0 !in p
    ensures var o := Dispatch(d, [q, 0x17, 0] + (p + [0]), env);
            && |o.sent| == 1 && |o.sent[0]| >= 2 && o.sent[0][0] == q
            && (o.sent[0][1] == 0 <==> !d.xfer.active && OnCard(p) && p in d.files && env.openOk)
            && (o.sent[0][1] == 0 ==> o.dev.xfer.active && !o.dev.xfer.isUpload && o.dev.xfer.fp == Some(p))
            && (o.sent[0][1] != 0 ==> o.dev == d.(timerArmed := true))
            && (o.sent == [[q, 8]] <==> d.xfer.active)
            && (o.sent == [[q, 5]] <==> !d.xfer.active && !OnCard(p))
            && (o.sent == [[q, 2]] <==> !d.xfer.active && OnCard(p) && p !in d.files)
            && (o.sent == [[q, 3]] <==> !d.xfer.active && OnCard(p) && p in d.files && !env.openOk)
            && o.dev.files == d.files
  {
    hide PathOf, OnCard, Le32, Le16, Crc32, Feed32, CStr;
    Header(q, 0x17, p + [0]);
    PathParses(p);
  }

  /** APPLY_BACKUP: a dialog comes up exactly for a path on the card and a backup that
      passes its check. */
  lemma BackupAskedIff(d: Device, q: byte, p: Path, env: Env)
    requires d.rx.Ready? && d.session && 0 !in p
    ensures var o := Dispatch(d, [q, 0x1A, 0] + (p + [0]), env);
            && (o.dev.rx == AwaitBackup(q, d.dialogs) <==> OnCard(p) && env.backupStatus == 0)
            && (!o.dev.rx.Ready? ==> o.sent == [] && o.dev.consent == BackupPending)
            && (o.dev.rx.Ready? ==> o.sent == [[q, if OnCard(p) then env.backupStatus else 5]] && o.dev == d.(timerArmed := true))
            && o.dev.files == d.files && o.dev.xfer == d.xfer
  {
    hide PathOf, OnCard, CStr;
    Header(q, 0x1A, p + [0]);
    PathParses(p);
  }

  /** A path without its NUL is refused whatever it says. */
  lemma UnterminatedRefused(d: Device, q: byte, cmd: byte, body: seq<byte>, env: Env)
    requires d.rx.Ready? && d.session && !d.xfer.active && (body == [] || body[|body| - 1] != 0)
    requires cmd == 0x17 || cmd == 0x1A
    ensures Dispatch(d, [q, cmd, 0] + body, env) == Outcome(d.(timerArmed := true), [[q, 5]])
  {
    hide CStr, SdPrefixOk;
    Header(q, cmd, body);
  }

  /** The session is over: no session, no transfer, no open file, no armed timer. */
  predicate Closed(d: Device) {
    !d.session && !d.xfer.active && !d.timerArmed
  }

  /** Without a session every command but SESSION_START is answered NO_SESSION and changes
      nothing. */
  lemma ClosedRefuses(d: Device, payload: seq<byte>, env: Env)
    requires d.rx.Ready? && !d.session && |payload| >= 3 && payload[1] != 0x00
    ensures Dispatch(d, payload, env) == Outcome(d, [[payload[0], 7]])
  {
    Header(payload[0], payload[1], []);
  }

  /** SESSION_END closes the session, and the next command finds none. */
  lemma SessionEndCloses(d: Device, q: byte, body: seq<byte>, env: Env, next: seq<byte>, later: Env)
    requires d.rx.Ready? && d.session && |next| >= 3 && next[1] != 0x00
    ensures var o := Dispatch(d, [q, 0x01, 0] + body, env);
            && o.sent == [[q, 0]] && Closed(o.dev) && o.dev.files == d.files && o.dev.rx.Ready?
            && (d.xfer.active ==> o.dev.xfer.fp.None?)
            && Dispatch(o.dev, next, later) == Outcome(o.dev, [[next[0], 7]])
  {
    Header(q, 0x01, body);
    Header(next[0], next[1], []);
    hide UploadBegin, UploadChunk, UploadEnd, DlBegin, DlChunk, DlEnd, StartSession, StartBackup;
  }

  /** The timer closes it in the same way, and so does Back outside a dialog, which tells
      the host with event 1 first; no other key does anything there. */
  lemma TimerOrBackCloses(d: Device, key: Key)
    requires d.session && d.timerArmed && d.consent == Idle
    ensures Closed(TimerFires(d)) && TimerFires(d).files == d.files
    ensures var o := Press(d, key);
            if key == Back then o.sent == [[0xFF, 1]] && Closed(o.dev) && o.dev.files == d.files
            else o == Outcome(d, [])
  {
    Header(0xFF, 0, []);
  }

  /** SESSION_START, in the order of its refusals; protocol version 1 is asked for. */
  lemma SessionAskedIff(d: Device, q: byte, body: seq<byte>, env: Env)
    requires d.rx.Ready?
    ensures var o := Dispatch(d, [q, 0x00, 0] + body, env);
            && (o.dev.rx == AwaitSession(q, d.dialogs) <==> !d.session && !env.appRunning && body != [] && body[0] == 1)
            && (!o.dev.rx.Ready? ==> o.sent == [] && o.dev.consent == Pending)
            && (o.sent == [[q, 6]] <==> d.session)
            && (o.sent == [[q, 10]] <==> !d.session && env.appRunning)
            && (o.sent == [[q, 5]] <==> !d.session && !env.appRunning && (body == [] || body[0] != 1))
            && o.dev.session == d.session && o.dev.files == d.files && o.dev.xfer == d.xfer
  {
    Header(q, 0x00, body);
    hide UploadBegin, UploadChunk, UploadEnd, DlBegin, DlChunk, DlEnd, StartBackup;
  }

  /** KEEPALIVE only arms the timer; a number that names no command is refused. */
  lemma KeepaliveOrUnknown(d: Device, q: byte, cmd: byte, body: seq<byte>, env: Env)
    requires d.rx.Ready? && d.session && (cmd == 0x05 || 0x06 <= cmd < 0x10 || cmd > 0x1A)
    ensures Dispatch(d, [q, cmd, 0] + body, env) == Outcome(d.(timerArmed := true), [[q, if cmd == 0x05 then 0 else 5]])
  {
    Header(q, cmd, body);
    hide UploadBegin, UploadChunk, UploadEnd, DlBegin, DlChunk, DlEnd, StartSession, StartBackup;
  }

  // ---- Transfers ----

  lemma Routed(d: Device, q: byte, cmd: byte, body: seq<byte>, env: Env)
    requires d.rx.Ready? && d.session
    ensures var o, d1 := Dispatch(d, [q, cmd, 0] + body, env), d.(timerArmed := true);
            && (cmd == 0x15 ==> o == UploadChunk(d1, q, body, env)) && (cmd == 0x16 ==> o == UploadEnd(d1, q, body))
            && (cmd == 0x18 ==> o == DlChunk(d1, q, body, env)) && (cmd == 0x19 ==> o == DlEnd(d1, q, body))
  {
    hide UploadBegin, UploadChunk, UploadEnd, DlBegin, DlChunk, DlEnd, StartSession, StartBackup;
    Header(q, cmd, body);
  }

  /** FS_UPLOAD_CHUNK for any transfer, own or not: the next chunk is appended, the last one
      acknowledged again, any other ends the transfer; a full card keeps what fitted. */
  lemma ChunkAnswered(d: Device, q: byte, id: byte, idx: nat, data: seq<byte>, env: Env, p: Path)
    requires d.rx.Ready? && d.session && idx < 0x1_0000 && d.xfer.nextChunk < 0x1_0000
    requires d.xfer.active ==> d.xfer.fp == Some(p) && p in d.files
    ensures var o := Dispatch(d, [q, 0x15, 0] + ([id, idx % 256, idx / 256] + data), env);
            var ours := d.xfer.active && d.xfer.isUpload && data != [] && id == d.xfer.id;
            var fits := |data| <= env.writable;
            var astray := idx != d.xfer.nextChunk && idx + 1 != d.xfer.nextChunk;
            && (o.sent == [[q, 0, idx % 256, idx / 256]] <==>
                  ours && ((idx == d.xfer.nextChunk && fits) || idx + 1 == d.xfer.nextChunk))
            && (o.sent == [[q, 5]] <==> d.xfer.active && d.xfer.isUpload && data == [])
            && (o.sent == [[q, 3]] <==> ours && idx == d.xfer.nextChunk && !fits)
            && (o.sent == [[q, 8]] <==> !(d.xfer.active && d.xfer.isUpload) || (data != [] && (id != d.xfer.id || astray)))
            && o.dev.files == (if ours && idx == d.xfer.nextChunk
                               then d.files[p := d.files[p] + data[..Min(env.writable, |data|)]] else d.files)
            && (o.dev.xfer.active <==> d.xfer.active && (ours ==> o.sent[0][1] == 0))
  {
    var body := [id, idx % 256, idx / 256] + data;
    Routed(d, q, 0x15, body, env);
    Header(q, 0x15, body);
    hide Dispatch, Feed32;
    assert body[0] == id && body[1] == idx % 256 && body[2] == idx / 256 && body[3..] == data;
    assert body[1..3] == [idx % 256, idx / 256];
    assert Reply(q, OK, [idx % 256, idx / 256]) == [q, 0, idx % 256, idx / 256];
    assert data[..|data|] == data;
  }

  /** FS_UPLOAD_END: the checksum is compared; the file stays and the transfer ends. */
  lemma EndAnswered(d: Device, q: byte, id: byte, crc: nat, env: Env)
    requires d.rx.Ready? && d.session && crc < 0x1_0000_0000
    ensures var o := Dispatch(d, [q, 0x16, 0] + ([id] + Le32(crc)), env);
            var ours := d.xfer.active && d.xfer.isUpload && id == d.xfer.id;
            && (o.sent == [[q, 0]] <==> ours && crc == Final32(d.xfer.crc))
            && (o.sent == [[q, 5]] <==> ours && crc != Final32(d.xfer.crc))
            && (o.sent == [[q, 8]] <==> !ours)
            && o.dev.files == d.files && (o.dev.xfer.active <==> d.xfer.active && !ours)
  {
    var body := [id] + Le32(crc);
    Routed(d, q, 0x16, body, env);
    Header(q, 0x16, body);
    hide Dispatch, Final32, FromLe32, Le32;
    assert body[1..5] == Le32(crc) && body[0] == id;
    Le32RoundTrip(crc);
  }

  /** FS_DL_CHUNK and FS_DL_END outside what a download serves. */
  lemma DownloadRefusals(d: Device, q: byte, id: byte, idx: nat, env: Env)
    requires d.rx.Ready? && d.session && idx < 0x1_0000
    ensures var chunk := Dispatch(d, [q, 0x18, 0] + [id, idx % 256, idx / 256], env);
            var end := Dispatch(d, [q, 0x19, 0] + [id], env);
            var ours := d.xfer.active && !d.xfer.isUpload && id == d.xfer.id;
            && (chunk.sent == [[q, 8]] <==> !ours) && (chunk.sent == [[q, 5]] <==> ours && idx >= d.xfer.chunkCount)
            && chunk.dev == d.(timerArmed := true)
            && (end.sent == [[q, 0]] <==> ours) && (end.sent == [[q, 8]] <==> !ours)
            && (end.dev.xfer.active <==> d.xfer.active && !ours) && end.dev.files == d.files
  {
    var body := [id, idx % 256, idx / 256];
    Routed(d, q, 0x18, body, env);
    Routed(d, q, 0x19, [id], env);
    Header(q, 0x18, body);
    hide Dispatch, FileChunk;
  }
}
