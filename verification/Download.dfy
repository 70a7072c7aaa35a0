/** What a client that asks for every announced chunk of a download receives. */
module Download {
  import opened Bytes
  import opened Crc
  import opened SerialDevice
  import Commands

  /** The data parts of the responses to chunks 0 to n - 1, joined. */
  function Joined(d: Device, n: nat): seq<byte> {
    if n == 0 then [] else Joined(d, n - 1) + FileChunk(d, n - 1)
  }

  lemma {:induction false} JoinedIsPrefix(d: Device, path: Path, n: nat)
    requires d.xfer.fp == Some(path) && path in d.files
    ensures Joined(d, n) == d.files[path][..Min(n * CHUNK_SIZE, |d.files[path]|)]
  {
    if n > 0 {
      JoinedIsPrefix(d, path, n - 1);
      var file := d.files[path];
      var a, b := Min((n - 1) * CHUNK_SIZE, |file|), Min(n * CHUNK_SIZE, |file|);
      assert file[..b] == file[..a] + file[a..b];
    }
  }

  /** A request for an announced chunk leaves the device as it was, and is answered with
      that chunk's index and all its bytes exactly when the card can be positioned and read
      that far; a card that gives only some of the bytes is not noticed. */
  lemma ChunkServedIff(d: Device, seqNo: byte, idx: nat, env: Env)
    requires d.xfer.active && !d.xfer.isUpload && d.xfer.id == 0 && idx < d.xfer.chunkCount <= 0xFFFF
    ensures var o := DlChunk(d, seqNo, [0] + Le16(idx), env);
            && o.dev == d && |o.sent| == 1
            && (o.sent[0] == Reply(seqNo, OK, [0] + Le16(idx) + FileChunk(d, idx))
                <==> env.seekOk && |FileChunk(d, idx)| <= env.readable)
            && (o.sent[0][1] == OK <==> env.seekOk && (env.readable > 0 || FileChunk(d, idx) == []))
  {
    var body := [0] + Le16(idx);
    assert body[..3] == body;
    assert body[1] == Le16(idx)[0] && body[2] == Le16(idx)[1];
    var whole := FileChunk(d, idx);
    var data := whole[..Min(env.readable, |whole|)];
    hide FileChunk, Le16;
    assert |Reply(seqNo, OK, body + data)| == |body| + |data| + 2;
    assert |Reply(seqNo, OK, body + whole)| == |body| + |whole| + 2;
    assert |data| == |whole| ==> data == whole;
  }

  /** After a successful FS_DOWNLOAD_BEGIN the announced chunks make up the whole file if
      and only if it is at most 65535 * 1024 bytes long: the chunk count is 16 bits wide. */
  lemma DownloadCompleteIff(d: Device, seqNo: byte, body: seq<byte>, env: Env)
    requires DlBegin(d, seqNo, body, env).sent[0][1] == OK
    ensures var d' := DlBegin(d, seqNo, body, env).dev;
            && PathOf(body).Some? && PathOf(body).value in d.files
            && (Joined(d', d'.xfer.chunkCount) == d.files[PathOf(body).value]
                <==> |d.files[PathOf(body).value]| <= 0xFFFF * CHUNK_SIZE)
  {
    var d' := DlBegin(d, seqNo, body, env).dev;
    var path := PathOf(body).value;
    var size := |d.files[path]|;
    CountBound(size % 0x1_0000_0000);
    JoinedIsPrefix(d', path, d'.xfer.chunkCount);
    if size <= 0xFFFF * CHUNK_SIZE {
      CountExact(size);
    }
  }

  /** The answer to FS_DL_BEGIN, read at its offsets: the file's length, how many chunks make
      it up, and the checksum of those chunks joined. */
  lemma DownloadAnnounced(d: Device, q: byte, p: Path, env: Env)
    requires d.rx.Ready? && d.session && !d.xfer.active && 0 !in p && Commands.OnCard(p) && env.openOk
    requires p in d.files && |d.files[p]| <= 0xFFFF * CHUNK_SIZE
    ensures var o, n := Dispatch(d, [q, 0x17, 0] + (p + [0]), env), |d.files[p]|;
            && |o.sent| == 1 && |o.sent[0]| == 13 && o.sent[0][..3] == [q, 0, 0]
            && FromLe32(o.sent[0][3..7]) == n
            && var chunks := FromLe16(o.sent[0][7], o.sent[0][8]);
               && chunks * CHUNK_SIZE - CHUNK_SIZE < n <= chunks * CHUNK_SIZE
               && chunks == o.dev.xfer.chunkCount && Joined(o.dev, chunks) == d.files[p]
               && FromLe32(o.sent[0][9..13]) == Crc32(Joined(o.dev, chunks))
  {
    hide Dispatch, Joined, Crc32, Feed32, PathOf, CStr, DlBegin;
    Commands.Header(q, 0x17, p + [0]);
    Commands.PathParses(p);
    var d1 := d.(timerArmed := true);
    BeginRouted(d, q, p + [0], env);
    var o := DlBegin(d1, q, p + [0], env);
    BeginIs(d1, q, p, env);
    var n := |d.files[p]|;
    CountExact(n);
    CountBound(n);
    JoinedIsPrefix(o.dev, p, ChunkCount(n));
    AnswerParses(q, n, ChunkCount(n), Crc32(d.files[p]));
  }

  lemma BeginRouted(d: Device, q: byte, body: seq<byte>, env: Env)
    requires d.rx.Ready? && d.session
    ensures Dispatch(d, [q, 0x17, 0] + body, env) == DlBegin(d.(timerArmed := true), q, body, env)
  {
    hide UploadBegin, UploadChunk, UploadEnd, DlBegin, DlChunk, DlEnd, StartSession, StartBackup;
    Commands.Header(q, 0x17, body);
  }

  lemma BeginIs(d: Device, q: byte, p: Path, env: Env)
    requires !d.xfer.active && env.openOk && PathOf(p + [0]) == Some(p) && p in d.files && |d.files[p]| <= 0xFFFF * CHUNK_SIZE
    ensures var o, n := DlBegin(d, q, p + [0], env), |d.files[p]|;
            && o.dev.xfer.fp == Some(p) && o.dev.files == d.files && o.dev.xfer.chunkCount == ChunkCount(n)
            && o.sent == [Reply(q, OK, [0] + Le32(n) + Le16(ChunkCount(n)) + Le32(Crc32(d.files[p])))]
  {
    hide PathOf, Crc32, Feed32, ChunkCount, Le32, Le16;
    assert |d.files[p]| % 0x1_0000_0000 == |d.files[p]|;
  }

  lemma AnswerParses(q: byte, n: nat, c: nat, crc: nat)
    requires n < 0x1_0000_0000 && c < 0x1_0000 && crc < 0x1_0000_0000
    ensures var r := Reply(q, OK, [0] + Le32(n) + Le16(c) + Le32(crc));
            && |r| == 13 && r[..3] == [q, 0, 0] && FromLe32(r[3..7]) == n && FromLe16(r[7], r[8]) == c
            && FromLe32(r[9..13]) == crc
  {
    var r := Reply(q, OK, [0] + Le32(n) + Le16(c) + Le32(crc));
    Le32RoundTrip(n);
    Le32RoundTrip(crc);
    hide Le32, FromLe32;
    assert r[3..7] == Le32(n) && r[9..13] == Le32(crc);
    assert r[7..9] == Le16(c) && r[7] == r[7..9][0] && r[8] == r[7..9][1];
  }

  lemma CountBound(n: nat)
    requires n < 0x1_0000_0000
    ensures ChunkCount(n) <= 0xFFFF
  {
  }

  lemma CountExact(n: nat)
    requires n <= 0xFFFF * CHUNK_SIZE
    ensures n % 0x1_0000_0000 == n && n <= ChunkCount(n) * CHUNK_SIZE < n + CHUNK_SIZE
  {
  }
}
