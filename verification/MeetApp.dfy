/** MeetApp: the proof text every participant must rebuild, the round-1.5 payload that
    carries its ingredients, and the advertisement that carries the session nonce. */
module MeetApp {
  import opened Bytes
  import BleMsg

  const NICK_MAX: nat := 16
  const COMMENT_MAX: nat := 100
  const TS_FIELD: nat := 20
  const NICK_FIELD: nat := NICK_MAX + 1
  const COMMENT_FIELD: nat := COMMENT_MAX + 1
  const MAX_TOTAL: nat := 20
  const MSG_MAX: nat := 2048
  const RX_MAX: nat := 4096
  const ROUND15: byte := 0x01

  datatype Participant = Participant(pubkey: seq<byte>, nick: seq<byte>)

  // ---- The proof text ----

  function Ascii(s: string): (r: seq<byte>)
    ensures |r| == |s|
  {
    seq(|s|, i requires 0 <= i < |s| => s[i] as int % 256)
  }

  function HexDigit(n: nat): byte
    requires n < 16
  {
    if n < 10 then 0x30 + n else 0x61 + n - 10
  }

  /** "%02x" for each byte. */
  function Hex(s: seq<byte>): (r: seq<byte>)
    ensures |r| == 2 * |s|
  {
    if s == [] then [] else Hex(s[..|s| - 1]) + [HexDigit(s[|s| - 1] / 16), HexDigit(s[|s| - 1] % 16)]
  }

  /** "%zu". */
  function Decimal(n: nat): seq<byte> {
    if n < 10 then [0x30 + n] else Decimal(n / 10) + [0x30 + n % 10]
  }

  /** "%-16s". */
  function Padded(nick: seq<byte>): seq<byte> {
    nick + seq(if |nick| < NICK_MAX then NICK_MAX - |nick| else 0, _ => 0x20)
  }

  function Line(p: Participant): seq<byte> {
    Padded(p.nick) + [0x20] + Hex(p.pubkey) + [0x0A]
  }

  function Lines(ps: seq<Participant>): seq<byte> {
    if ps == [] then [] else Lines(ps[..|ps| - 1]) + Line(ps[|ps| - 1])
  }

  function Title(): seq<byte> {
    Ascii("J++DEVICE PROOF OF MEETUP\n-----BEGIN MESSAGE-----\n")
  }

  function CommentPart(comment: seq<byte>): seq<byte> {
    if comment == [] then [] else Ascii("Comment: ") + comment + Ascii("\n\n")
  }

  function Statement(n: nat, nonce: seq<byte>, timestamp: seq<byte>): seq<byte> {
    Ascii("This verifies that ") + Decimal(n) + Ascii(" devices' holders have met up in person on ") + timestamp
    + Ascii(". Message is signed by participants' J++Devices using MuSig2 algorithm.\nSession nonce: ")
    + Hex(nonce) + Ascii("\n\nParticipants and their public keys:\n")
  }

  /** The whole text, before any limit on its length. */
  function Text(ps: seq<Participant>, nonce: seq<byte>, timestamp: seq<byte>, comment: seq<byte>): seq<byte> {
    Title() + CommentPart(comment) + Statement(|ps|, nonce, timestamp) + Lines(ps)
  }

  /** The text that is hashed and signed: cut to the buffer if it is longer. */
  function Message(ps: seq<Participant>, nonce: seq<byte>, timestamp: seq<byte>, comment: seq<byte>, size: nat): seq<byte>
    requires size >= 1
  {
    Cut(Text(ps, nonce, timestamp, comment), size)
  }

  function Cut(t: seq<byte>, size: nat): seq<byte>
    requires size >= 1
  {
    t[..Min(|t|, size - 1)]
  }

  /** snprintf(buf + off, size - off, "%s", text): returns the untruncated length. */
  method Snprintf(buf: array<byte>, off: nat, text: seq<byte>) returns (n: nat)
    requires off < buf.Length
    modifies buf
    ensures n == |text|
    ensures buf[..off] == old(buf[..off])
    ensures buf[off..Min(off + |text|, buf.Length - 1)] == text[..Min(off + |text|, buf.Length - 1) - off]
  {
    var w := Min(|text|, buf.Length - 1 - off);
    for k := 0 to w
      invariant buf[..off] == old(buf[..off])
      invariant buf[off..off + k] == text[..k]
    {
      buf[off + k] := text[k];
      assert buf[off..off + k + 1] == buf[off..off + k] + [text[k]];
    }
    buf[off + w] := 0;
    n := |text|;
  }

  /** What the running offset means: `t` is the text so far, as much of it as fits is in
      the buffer, and the offset is its length unless it no longer fits. */
  ghost predicate Holds(buf: array<byte>, off: nat, t: seq<byte>)
    requires buf.Length >= 1
    reads buf
  {
    && (off < buf.Length <==> |t| < buf.Length) && (off < buf.Length ==> off == |t|)
    && buf[..Min(|t|, buf.Length - 1)] == t[..Min(|t|, buf.Length - 1)]
  }

  /** `if (off < size) off += snprintf(...)`. */
  method Extend(buf: array<byte>, off: nat, text: seq<byte>, ghost t: seq<byte>) returns (off': nat)
    requires buf.Length >= 1 && Holds(buf, off, t)
    modifies buf
    ensures Holds(buf, off', t + text)
  {
    off' := off;
    if off < buf.Length {
      var n := Snprintf(buf, off, text);
      off' := off + n;
      var m := Min(off', buf.Length - 1);
      assert buf[..m] == buf[..off] + buf[off..m];
      assert (t + text)[..m] == t + text[..m - off];
    }
  }

  /** meetapp_proof_build_message, up to the hash. */
  method BuildMessage(ps: seq<Participant>, nonce: seq<byte>, timestamp: seq<byte>, comment: Option<seq<byte>>,
                      outMsg: array<byte>) returns (len: nat)
    requires outMsg.Length >= 1
    modifies outMsg
    ensures len < outMsg.Length && outMsg[len] == 0
    ensures outMsg[..len] == Message(ps, nonce, timestamp, if comment.Some? then comment.value else [], outMsg.Length)
  {
    hide Title, CommentPart, Statement, Line;
    ghost var c := if comment.Some? then comment.value else [];
    ghost var t: seq<byte> := [];
    var off: nat := Extend(outMsg, 0, Title(), t);
    t := t + Title();
    CommentEmpty();
    if comment.Some? && comment.value != [] {
      off := Extend(outMsg, off, CommentPart(comment.value), t);
    } else {
      assert t + CommentPart(c) == t;
    }
    t := t + CommentPart(c);
    off := Extend(outMsg, off, Statement(|ps|, nonce, timestamp), t);
    t := t + Statement(|ps|, nonce, timestamp);
    assert t == Title() + CommentPart(c) + Statement(|ps|, nonce, timestamp);
    assert t + Lines(ps[..0]) == t;
    for i := 0 to |ps|
      invariant Holds(outMsg, off, t + Lines(ps[..i]))
    {
      off := Extend(outMsg, off, Line(ps[i]), t + Lines(ps[..i]));
      assert ps[..i + 1][..i] == ps[..i];
      assert t + Lines(ps[..i]) + Line(ps[i]) == t + Lines(ps[..i + 1]);
    }
    assert ps[..|ps|] == ps;
    if off >= outMsg.Length {
      off := outMsg.Length - 1;
    }
    len := off;
    ghost var shown := outMsg[..len];
    outMsg[off] := 0;
    assert outMsg[..len] == shown;
  }

  lemma CommentEmpty()
    ensures CommentPart([]) == []
  {
  }

  // ---- How long the text is ----

  lemma {:induction false} LinesLength(ps: seq<Participant>)
    requires forall i :: 0 <= i < |ps| ==> |ps[i].nick| <= NICK_MAX && |ps[i].pubkey| == 32
    ensures |Lines(ps)| == 82 * |ps|
  {
    if ps != [] {
      LinesLength(ps[..|ps| - 1]);
    }
  }

  /** A proof of at most 20 in-bounds participants is at most 2025 bytes long, so the
      2048-byte buffer never cuts it and every participant's line is signed. */
  lemma MessageNeverCut(ps: seq<Participant>, nonce: seq<byte>, timestamp: seq<byte>, comment: seq<byte>)
    requires |ps| <= MAX_TOTAL && |nonce| == 8 && |timestamp| <= TS_FIELD - 1 && |comment| <= COMMENT_MAX
    requires forall i :: 0 <= i < |ps| ==> |ps[i].nick| <= NICK_MAX && |ps[i].pubkey| == 32
    ensures |Text(ps, nonce, timestamp, comment)| <= 2025
    ensures Message(ps, nonce, timestamp, comment, MSG_MAX) == Text(ps, nonce, timestamp, comment)
  {
    hide Title, CommentPart, Statement, Lines;
    LinesLength(ps);
    TitleLength();
    CommentLength(comment);
    StatementLength(|ps|, nonce, timestamp);
    Uncut(Text(ps, nonce, timestamp, comment), MSG_MAX);
  }

  lemma Uncut(t: seq<byte>, size: nat)
    requires |t| < size
    ensures Cut(t, size) == t
  {
  }

  lemma TitleLength()
    ensures |Title()| == 50
  {
  }

  lemma CommentLength(comment: seq<byte>)
    ensures |CommentPart(comment)| <= |comment| + 11
  {
  }

  lemma StatementLength(n: nat, nonce: seq<byte>, timestamp: seq<byte>)
    requires n < 100
    ensures |Statement(n, nonce, timestamp)| <= 189 + |timestamp| + 2 * |nonce|
  {
    hide Ascii, Hex, Decimal;
    AtMostTwoDigits(n);
  }

  lemma AtMostTwoDigits(n: nat)
    requires n < 100
    ensures |Decimal(n)| <= 2
  {
  }

  // ---- The signed text binds the keys ----

  lemma {:induction false} HexInjective(a: seq<byte>, b: seq<byte>)
    requires |a| == |b| && Hex(a) == Hex(b)
    ensures a == b
  {
    hide Hex;
    if a != [] {
      var n := |a| - 1;
      HexLast(a);
      HexLast(b);
      HexInjective(a[..n], b[..n]);
      DigitsBind(a[n], b[n]);
      assert a == a[..n] + [a[n]] && b == b[..n] + [b[n]];
    }
  }

  lemma HexLast(s: seq<byte>)
    requires s != []
    ensures var n, x := |s| - 1, Hex(s);
            x[..2 * n] == Hex(s[..n]) && x[2 * n] == HexDigit(s[n] / 16) && x[2 * n + 1] == HexDigit(s[n] % 16)
  {
    hide HexDigit;
    var front := Hex(s[..|s| - 1]);
    assert (front + [HexDigit(s[|s| - 1] / 16), HexDigit(s[|s| - 1] % 16)])[..|front|] == front;
  }

  lemma DigitsBind(x: byte, y: byte)
    ensures HexDigit(x / 16) == HexDigit(y / 16) && HexDigit(x % 16) == HexDigit(y % 16) ==> x == y
  {
  }

  ghost predicate InBounds(ps: seq<Participant>) {
    forall i :: 0 <= i < |ps| ==> 0 !in ps[i].nick && |ps[i].nick| <= NICK_MAX && |ps[i].pubkey| == 32
  }

  lemma LineBinds(p: Participant, q: Participant)
    requires |p.nick| <= NICK_MAX && |q.nick| <= NICK_MAX && |p.pubkey| == 32 && |q.pubkey| == 32
    requires Line(p) == Line(q)
    ensures p.pubkey == q.pubkey && Padded(p.nick) == Padded(q.nick)
  {
    assert Line(p)[..16] == Padded(p.nick) && Line(q)[..16] == Padded(q.nick);
    assert Line(p)[17..81] == Hex(p.pubkey) && Line(q)[17..81] == Hex(q.pubkey);
    HexInjective(p.pubkey, q.pubkey);
  }

  lemma LinesSplit(ps: seq<Participant>)
    requires ps != []
    ensures var front := Lines(ps[..|ps| - 1]);
            && |front| <= |Lines(ps)| && Lines(ps)[..|front|] == front && Lines(ps)[|front|..] == Line(ps[|ps| - 1])
  {
  }

  /** Proofs that agree in everything but the participants and have the same text list the
      same keys in the same order, under nicknames equal up to trailing blanks. */
  lemma {:induction false} LinesBind(ps: seq<Participant>, qs: seq<Participant>)
    requires |ps| == |qs| && InBounds(ps) && InBounds(qs) && Lines(ps) == Lines(qs)
    ensures forall i :: 0 <= i < |ps| ==> ps[i].pubkey == qs[i].pubkey && Padded(ps[i].nick) == Padded(qs[i].nick)
  {
    if ps != [] {
      hide Line, Lines, Padded;
      var n := |ps| - 1;
      LinesLength(ps[..n]);
      LinesLength(qs[..n]);
      LinesSplit(ps);
      LinesSplit(qs);
      LineBinds(ps[n], qs[n]);
      LinesBind(ps[..n], qs[..n]);
    }
  }

  // ---- The round-1.5 payload ----

  /** memset to zero, then strncpy of at most size - 1 bytes. */
  function Field(text: seq<byte>, size: nat): (f: seq<byte>)
    requires size >= 1
    ensures |f| == size
  {
    text[..Min(|text|, size - 1)] + Zeros(size - Min(|text|, size - 1))
  }

  function NickFields(ps: seq<Participant>): (f: seq<byte>)
    ensures |f| == |ps| * NICK_FIELD
  {
    if ps == [] then [] else NickFields(ps[..|ps| - 1]) + Field(ps[|ps| - 1].nick, NICK_FIELD)
  }

  function Keys(ps: seq<Participant>): seq<byte> {
    if ps == [] then [] else Keys(ps[..|ps| - 1]) + ps[|ps| - 1].pubkey
  }

  function Pack(hash: seq<byte>, aggNonce: seq<byte>, ps: seq<Participant>, timestamp: seq<byte>, comment: seq<byte>): seq<byte>
    requires |ps| <= MAX_TOTAL
  {
    Head(hash, aggNonce, |ps|) + Keys(ps) + Field(timestamp, TS_FIELD) + NickFields(ps) + Field(comment, COMMENT_FIELD)
  }

  function Head(hash: seq<byte>, aggNonce: seq<byte>, n: byte): seq<byte> {
    [ROUND15] + hash + aggNonce + [n]
  }

  /** What a participant takes out of a received payload. */
  datatype Round15 = Round15(hash: seq<byte>, aggNonce: seq<byte>, ps: seq<Participant>, timestamp: seq<byte>, comment: seq<byte>)

  /** memcpy of a field, last byte forced to NUL, read as a C string. */
  function ReadField(f: seq<byte>): seq<byte>
    requires |f| >= 1
  {
    CStr(f[..|f| - 1] + [0])
  }

  function ReadPeers(keys: seq<byte>, nicks: seq<byte>, n: nat): (ps: seq<Participant>)
    requires |keys| == 32 * n && |nicks| == NICK_FIELD * n
    ensures |ps| == n
  {
    if n == 0 then []
    else ReadPeers(keys[..32 * (n - 1)], nicks[..NICK_FIELD * (n - 1)], n - 1)
         + [Participant(keys[32 * (n - 1)..], ReadField(nicks[NICK_FIELD * (n - 1)..]))]
  }

  /** meetapp_ble_wait_round15 on the reassembled message. */
  function Unpack(rx: seq<byte>): Option<Round15> {
    if |rx| < 130 || rx[0] != ROUND15 then None
    else
      var n := rx[129];
      if n == 0 || n > MAX_TOTAL then None
      else
        var tsStart := 130 + 32 * n;
        var nickStart := tsStart + TS_FIELD;
        var commentStart := nickStart + NICK_FIELD * n;
        if |rx| < commentStart + COMMENT_FIELD then None
        else Some(Round15(rx[1..65], rx[65..129], ReadPeers(rx[130..tsStart], rx[nickStart..commentStart], n),
                          ReadField(rx[tsStart..nickStart]), ReadField(rx[commentStart..commentStart + COMMENT_FIELD])))
  }

  lemma FieldRoundTrip(text: seq<byte>, size: nat)
    requires size >= 1 && |text| <= size - 1 && 0 !in text
    ensures ReadField(Field(text, size)) == text
  {
    var f := Field(text, size);
    var g := f[..size - 1] + [0];
    assert g == text + [0] + Zeros(size - 1 - |text|);
    CStrTerminated(text, Zeros(size - 1 - |text|));
  }

  lemma {:induction false} KeysLength(ps: seq<Participant>)
    requires InBounds(ps)
    ensures |Keys(ps)| == 32 * |ps|
  {
    if ps != [] {
      KeysLength(ps[..|ps| - 1]);
    }
  }

  lemma ReadPeersMore(keys: seq<byte>, nicks: seq<byte>, n: nat, key: seq<byte>, field: seq<byte>)
    requires |keys| == 32 * n && |nicks| == NICK_FIELD * n && |key| == 32 && |field| == NICK_FIELD
    ensures ReadPeers(keys + key, nicks + field, n + 1) == ReadPeers(keys, nicks, n) + [Participant(key, ReadField(field))]
  {
    hide ReadField;
    assert (keys + key)[..32 * n] == keys && (keys + key)[32 * n..] == key;
    assert (nicks + field)[..NICK_FIELD * n] == nicks && (nicks + field)[NICK_FIELD * n..] == field;
  }

  lemma {:induction false} PeersRoundTrip(ps: seq<Participant>)
    requires InBounds(ps)
    ensures |Keys(ps)| == 32 * |ps| && ReadPeers(Keys(ps), NickFields(ps), |ps|) == ps
  {
    KeysLength(ps);
    if ps != [] {
      var n := |ps| - 1;
      KeysLength(ps[..n]);
      PeersRoundTrip(ps[..n]);
      FieldRoundTrip(ps[n].nick, NICK_FIELD);
      hide Field, ReadField, ReadPeers;
      ReadPeersMore(Keys(ps[..n]), NickFields(ps[..n]), n, ps[n].pubkey, Field(ps[n].nick, NICK_FIELD));
      assert ps == ps[..n] + [ps[n]];
    }
  }

  lemma HeadParts(hash: seq<byte>, aggNonce: seq<byte>, n: byte, rest: seq<byte>)
    requires |hash| == 64 && |aggNonce| == 64
    ensures var rx := Head(hash, aggNonce, n) + rest;
            |Head(hash, aggNonce, n)| == 130 && rx[0] == ROUND15 && rx[1..65] == hash && rx[65..129] == aggNonce && rx[129] == n
  {
    var h := Head(hash, aggNonce, n);
    assert h[1..65] == hash && h[65..129] == aggNonce && h[129] == n;
    assert (h + rest)[1..65] == h[1..65] && (h + rest)[65..129] == h[65..129];
  }

  /** Five consecutive parts of a payload. */
  lemma FiveParts(rx: seq<byte>, h: seq<byte>, k: seq<byte>, t: seq<byte>, m: seq<byte>, c: seq<byte>,
                  a: nat, b: nat, d: nat, e: nat)
    requires rx == h + k + t + m + c
    requires a == |h| + |k| && b == a + |t| && d == b + |m| && e == d + |c|
    ensures |rx| == e && rx[|h|..a] == k && rx[a..b] == t && rx[b..d] == m && rx[d..e] == c
    ensures rx == h + (k + t + m + c)
  {
  }

  lemma UnpackSlices(rx: seq<byte>, hash: seq<byte>, aggNonce: seq<byte>, n: byte, k: seq<byte>, t: seq<byte>, m: seq<byte>, c: seq<byte>)
    requires 1 <= n <= MAX_TOTAL && |k| == 32 * n && |t| == TS_FIELD && |m| == NICK_FIELD * n && |c| == COMMENT_FIELD
    requires |rx| == 130 + 49 * n + TS_FIELD + COMMENT_FIELD && rx[0] == ROUND15 && rx[129] == n
    requires rx[1..65] == hash && rx[65..129] == aggNonce && rx[130..130 + 32 * n] == k
    requires rx[130 + 32 * n..150 + 32 * n] == t && rx[150 + 32 * n..150 + 49 * n] == m && rx[150 + 49 * n..251 + 49 * n] == c
    ensures Unpack(rx) == Some(Round15(hash, aggNonce, ReadPeers(k, m, n), ReadField(t), ReadField(c)))
  {
    hide ReadField, ReadPeers;
  }

  lemma UnpackParts(rx: seq<byte>, hash: seq<byte>, aggNonce: seq<byte>, n: byte, k: seq<byte>, t: seq<byte>, m: seq<byte>, c: seq<byte>)
    requires |hash| == 64 && |aggNonce| == 64 && 1 <= n <= MAX_TOTAL
    requires |k| == 32 * n && |t| == TS_FIELD && |m| == NICK_FIELD * n && |c| == COMMENT_FIELD
    requires rx == Head(hash, aggNonce, n) + k + t + m + c
    ensures Unpack(rx) == Some(Round15(hash, aggNonce, ReadPeers(k, m, n), ReadField(t), ReadField(c)))
    ensures |rx| == 251 + 49 * n
  {
    hide Head, ReadField, ReadPeers, Unpack;
    HeadParts(hash, aggNonce, n, k + t + m + c);
    FiveParts(rx, Head(hash, aggNonce, n), k, t, m, c, 130 + 32 * n, 150 + 32 * n, 150 + 49 * n, 251 + 49 * n);
    UnpackSlices(rx, hash, aggNonce, n, k, t, m, c);
  }

  /** Everything the leader packed comes out again, field by field. */
  lemma PayloadRoundTrip(hash: seq<byte>, aggNonce: seq<byte>, ps: seq<Participant>, timestamp: seq<byte>, comment: seq<byte>)
    requires |hash| == 64 && |aggNonce| == 64 && 1 <= |ps| <= MAX_TOTAL && InBounds(ps)
    requires 0 !in timestamp && |timestamp| <= TS_FIELD - 1 && 0 !in comment && |comment| <= COMMENT_MAX
    ensures Unpack(Pack(hash, aggNonce, ps, timestamp, comment)) == Some(Round15(hash, aggNonce, ps, timestamp, comment))
    ensures |Pack(hash, aggNonce, ps, timestamp, comment)| == 251 + 49 * |ps|
  {
    PeersRoundTrip(ps);
    FieldRoundTrip(timestamp, TS_FIELD);
    FieldRoundTrip(comment, COMMENT_FIELD);
    hide Field, ReadField, Keys, NickFields, ReadPeers, Head, Unpack;
    UnpackParts(Pack(hash, aggNonce, ps, timestamp, comment), hash, aggNonce, |ps|,
                Keys(ps), Field(timestamp, TS_FIELD), NickFields(ps), Field(comment, COMMENT_FIELD));
  }

  lemma {:induction false} KeyAt(ps: seq<Participant>, i: nat)
    requires i < |ps| && InBounds(ps)
    ensures |Keys(ps)| == 32 * |ps| && Keys(ps)[32 * i..32 * i + 32] == ps[i].pubkey
  {
    KeysLength(ps);
    var n := |ps| - 1;
    KeysLength(ps[..n]);
    if i < n {
      KeyAt(ps[..n], i);
      Front(Keys(ps[..n]), ps[n].pubkey, 32 * i, 32 * i + 32);
    }
  }

  lemma {:induction false} NickAt(ps: seq<Participant>, i: nat)
    requires i < |ps| && InBounds(ps)
    ensures NickFields(ps)[17 * i..17 * i + |ps[i].nick|] == ps[i].nick
  {
    hide Field;
    var n := |ps| - 1;
    var front, last := NickFields(ps[..n]), Field(ps[n].nick, NICK_FIELD);
    if i < n {
      NickAt(ps[..n], i);
      Front(front, last, 17 * i, 17 * i + |ps[i].nick|);
    } else {
      FieldStarts(ps[n].nick, NICK_FIELD);
      Behind(front, last, |ps[n].nick|);
    }
  }

  lemma Behind(a: seq<byte>, b: seq<byte>, m: nat)
    requires m <= |b|
    ensures (a + b)[|a|..|a| + m] == b[..m]
  {
  }

  lemma Front(a: seq<byte>, b: seq<byte>, i: nat, j: nat)
    requires i <= j <= |a|
    ensures (a + b)[i..j] == a[i..j]
  {
  }

  /** The payload byte by byte: where the hash, the nonce, the count and the i-th key,
      the time, the i-th nickname and the comment lie. */
  lemma PayloadOnAir(hash: seq<byte>, aggNonce: seq<byte>, ps: seq<Participant>, timestamp: seq<byte>, comment: seq<byte>, i: nat)
    requires |hash| == 64 && |aggNonce| == 64 && i < |ps| <= MAX_TOTAL && InBounds(ps)
    requires |timestamp| <= TS_FIELD - 1 && |comment| <= COMMENT_MAX
    ensures var p, n := Pack(hash, aggNonce, ps, timestamp, comment), |ps|;
            && |p| == 251 + 49 * n && p[0] == 1 && p[1..65] == hash && p[65..129] == aggNonce && p[129] == n
            && p[130..130 + 32 * n] == Keys(ps) && Keys(ps)[32 * i..32 * i + 32] == ps[i].pubkey
            && p[130 + 32 * n..130 + 32 * n + |timestamp|] == timestamp
            && p[150 + 32 * n..150 + 49 * n] == NickFields(ps)
            && NickFields(ps)[17 * i..17 * i + |ps[i].nick|] == ps[i].nick
            && p[150 + 49 * n..150 + 49 * n + |comment|] == comment
  {
    hide Keys, NickFields, Field, Head;
    KeyAt(ps, i);
    NickAt(ps, i);
    FieldStarts(timestamp, TS_FIELD);
    FieldStarts(comment, COMMENT_FIELD);
    HeadLength(hash, aggNonce, |ps|);
    var t, c := Field(timestamp, TS_FIELD), Field(comment, COMMENT_FIELD);
    FiveInOrder(Head(hash, aggNonce, |ps|), Keys(ps), t, NickFields(ps), c, |timestamp|, |comment|);
    var p := Pack(hash, aggNonce, ps, timestamp, comment);
    HeadOnAir(p, hash, aggNonce, |ps|);
  }

  /** What is taken for a payload at all. */
  lemma UnpacksIff(rx: seq<byte>)
    ensures Unpack(rx).Some? <==>
            |rx| >= 130 && rx[0] == 1 && 1 <= rx[129] <= 20 && var n: int := rx[129]; |rx| >= 251 + 49 * n
  {
    hide ReadPeers, ReadField;
  }

  lemma FieldStarts(text: seq<byte>, size: nat)
    requires |text| < size
    ensures Field(text, size)[..|text|] == text
  {
  }

  lemma HeadLength(hash: seq<byte>, aggNonce: seq<byte>, n: byte)
    ensures |Head(hash, aggNonce, n)| == |hash| + |aggNonce| + 2
  {
  }

  lemma HeadOnAir(p: seq<byte>, hash: seq<byte>, aggNonce: seq<byte>, n: byte)
    requires |hash| == 64 && |aggNonce| == 64 && |p| >= 130 && p[..130] == Head(hash, aggNonce, n)
    ensures p[0] == 1 && p[1..65] == hash && p[65..129] == aggNonce && p[129] == n
  {
    var h := Head(hash, aggNonce, n);
    assert p[..130][1..65] == p[1..65] && p[..130][65..129] == p[65..129];
    assert h[1..65] == hash && h[65..129] == aggNonce;
    assert p[..130][0] == p[0] && p[..130][129] == p[129];
  }

  lemma FiveInOrder(a: seq<byte>, k: seq<byte>, t: seq<byte>, f: seq<byte>, c: seq<byte>, m: nat, n: nat)
    requires m <= |t| && n <= |c|
    ensures var p := a + k + t + f + c; var x := |a| + |k|; var y := x + |t| + |f|;
            && p[..|a|] == a && p[|a|..x] == k && p[x..x + m] == t[..m] && p[x + |t|..y] == f && p[y..y + n] == c[..n]
  {
    var s1 := a + k;
    var s2 := s1 + t;
    var s3 := s2 + f;
    var x, w := |a| + |k|, |a| + |k| + |t|;
    Front(a, k, 0, |a|);
    Behind(a, k, |k|);
    Front(s1, t, 0, |a|);
    Front(s1, t, |a|, x);
    Behind(s1, t, m);
    Front(s2, f, 0, |a|);
    Front(s2, f, |a|, x);
    Front(s2, f, x, x + m);
    Behind(s2, f, |f|);
    Front(s3, c, 0, |a|);
    Front(s3, c, |a|, x);
    Front(s3, c, x, x + m);
    Front(s3, c, w, w + |f|);
    Behind(s3, c, n);
  }

  /** Packing, chunked transfer over a link with leftovers, unpacking and building the
      message: every participant rebuilds the leader's text byte for byte. */
  lemma ParticipantRebuildsText(hash: seq<byte>, aggNonce: seq<byte>, ps: seq<Participant>, timestamp: seq<byte>,
                                comment: seq<byte>, nonce: seq<byte>,
                                stray: seq<seq<byte>>, olds: seq<BleMsg.Abandoned>, tail: seq<seq<byte>>)
    requires |hash| == 64 && |aggNonce| == 64 && 1 <= |ps| <= MAX_TOTAL && InBounds(ps)
    requires 0 !in timestamp && |timestamp| <= TS_FIELD - 1 && 0 !in comment && |comment| <= COMMENT_MAX
    requires forall f | f in stray :: f == [] || f[0] != BleMsg.BEGIN
    requires forall i | 0 <= i < |olds| :: BleMsg.Fits(olds[i], RX_MAX)
    ensures |Pack(hash, aggNonce, ps, timestamp, comment)| <= 1231
    ensures var frames := stray + (BleMsg.Leftovers(olds, RX_MAX) + BleMsg.Frames(Pack(hash, aggNonce, ps, timestamp, comment)) + tail);
            var out := BleMsg.Receive(BleMsg.Fresh, frames, RX_MAX);
            && out.Received? && Unpack(out.msg).Some?
            && var r := Unpack(out.msg).value;
               && r.hash == hash && r.aggNonce == aggNonce && r.ps == ps
               && Message(r.ps, nonce, r.timestamp, r.comment, MSG_MAX) == Message(ps, nonce, timestamp, comment, MSG_MAX)
  {
    PayloadRoundTrip(hash, aggNonce, ps, timestamp, comment);
    hide Pack, Unpack, Message, BleMsg.Receive, BleMsg.Leftovers, BleMsg.Frames, BleMsg.Fits;
    BleMsg.MessageRoundTrip(stray, olds, Pack(hash, aggNonce, ps, timestamp, comment), tail, RX_MAX);
  }

  // ---- The leader's packing, through a moving offset ----

  /** memset(&buf[off], 0, size) and strncpy(&buf[off], text, size - 1). */
  method PutField(buf: array<byte>, off: nat, text: seq<byte>, size: nat)
    requires size >= 1 && off + size <= buf.Length
    modifies buf
    ensures buf[..off + size] == old(buf[..off]) + Field(text, size)
  {
    PutZeros(buf, off, size);
    ghost var zeros := buf[off..off + size];
    var w := Min(|text|, size - 1);
    assert buf[off + w..][..size - w] == zeros[w..];
    PutBytes(buf, off, text[..w]);
    assert buf[off + w..off + size] == buf[off + w..][..size - w];
    assert buf[..off + size] == buf[..off + w] + buf[off + w..off + size];
    assert buf[off + w..off + size] == zeros[w..] == Zeros(size - w);
  }

  method PutZeros(buf: array<byte>, off: nat, size: nat)
    requires off + size <= buf.Length
    modifies buf
    ensures buf[..off] == old(buf[..off]) && buf[off..off + size] == Zeros(size)
  {
    for k := 0 to size
      invariant buf[..off] == old(buf[..off])
      invariant forall i :: off <= i < off + k ==> buf[i] == 0
    {
      buf[off + k] := 0;
    }
  }

  /** memcpy(&buf[off], data, len). */
  method PutBytes(buf: array<byte>, off: nat, data: seq<byte>)
    requires off + |data| <= buf.Length
    modifies buf
    ensures buf[..off + |data|] == old(buf[..off]) + data
    ensures buf[off + |data|..] == old(buf[off + |data|..])
  {
    for k := 0 to |data|
      invariant buf[..off + k] == old(buf[..off]) + data[..k]
      invariant buf[off + |data|..] == old(buf[off + |data|..])
    {
      buf[off + k] := data[k];
      assert buf[..off + k + 1] == buf[..off + k] + [data[k]];
    }
  }

  /** The packing part of meetapp_ble_exchange_sigs. */
  method PackRound15(hash: seq<byte>, aggNonce: seq<byte>, ps: seq<Participant>, timestamp: seq<byte>,
                     comment: seq<byte>, buf: array<byte>) returns (len: nat)
    requires |hash| == 64 && |aggNonce| == 64 && |ps| <= MAX_TOTAL && InBounds(ps) && buf.Length >= 1231
    modifies buf
    ensures len <= buf.Length && buf[..len] == Pack(hash, aggNonce, ps, timestamp, comment)
  {
    hide Field, Keys, NickFields, Head;
    KeysLength(ps);
    PutHead(hash, aggNonce, |ps|, buf);
    PutBytes(buf, 130, Keys(ps));
    var off: nat := 130 + |ps| * 32;
    PutField(buf, off, timestamp, TS_FIELD);
    off := PutNicks(buf, off + TS_FIELD, ps);
    PutField(buf, off, comment, COMMENT_FIELD);
    len := off + COMMENT_FIELD;
  }

  /** The nickname loop. */
  method PutNicks(buf: array<byte>, start: nat, ps: seq<Participant>) returns (off: nat)
    requires start + |ps| * NICK_FIELD <= buf.Length
    modifies buf
    ensures off == start + |ps| * NICK_FIELD
    ensures buf[..off] == old(buf[..start]) + NickFields(ps)
  {
    hide Field, NickFields;
    off := start;
    NicksMore(ps, 0);
    assert buf[..off] == old(buf[..start]) + [];
    for i := 0 to |ps|
      invariant off == start + i * NICK_FIELD
      invariant buf[..off] == old(buf[..start]) + NickFields(ps[..i])
    {
      PutField(buf, off, ps[i].nick, NICK_FIELD);
      NicksMore(ps, i);
      Joined(old(buf[..start]), NickFields(ps[..i]), Field(ps[i].nick, NICK_FIELD));
      off := off + NICK_FIELD;
    }
    assert ps[..|ps|] == ps;
  }

  lemma Joined(a: seq<byte>, b: seq<byte>, c: seq<byte>)
    ensures a + b + c == a + (b + c)
  {
  }

  lemma NicksMore(ps: seq<Participant>, i: nat)
    requires i <= |ps|
    ensures i < |ps| ==> NickFields(ps[..i + 1]) == NickFields(ps[..i]) + Field(ps[i].nick, NICK_FIELD)
    ensures NickFields(ps[..0]) == []
  {
    if i < |ps| {
      assert ps[..i + 1][..i] == ps[..i];
    }
  }

  method PutHead(hash: seq<byte>, aggNonce: seq<byte>, n: byte, buf: array<byte>)
    requires |hash| == 64 && |aggNonce| == 64 && buf.Length >= 130
    modifies buf
    ensures buf[..130] == Head(hash, aggNonce, n)
  {
    buf[0] := ROUND15;
    assert buf[..1] == [ROUND15];
    PutBytes(buf, 1, hash);
    PutBytes(buf, 65, aggNonce);
    buf[129] := n;
    assert buf[..130] == buf[..129] + [n];
  }

  // ---- The participant's unpacking ----

  /** The unpacking part of meetapp_ble_wait_round15. */
  method UnpackRound15(rx: seq<byte>) returns (r: Option<Round15>)
    ensures r == Unpack(rx)
  {
    if |rx| < 130 || rx[0] != ROUND15 {
      return None;
    }
    var n := rx[129];
    if n == 0 || n > MAX_TOTAL {
      return None;
    }
    var pkEnd := 130 + n * 32;
    var nickStart := pkEnd + TS_FIELD;
    var commentStart := nickStart + n * NICK_FIELD;
    if |rx| < commentStart + COMMENT_FIELD {
      return None;
    }
    var peers := CopyPeers(rx[130..pkEnd], rx[nickStart..commentStart], n);
    r := Some(Round15(rx[1..65], rx[65..129], peers, ReadField(rx[pkEnd..nickStart]),
                      ReadField(rx[commentStart..commentStart + COMMENT_FIELD])));
    hide ReadPeers, ReadField;
  }

  method CopyPeers(keys: seq<byte>, nicks: seq<byte>, n: nat) returns (peers: seq<Participant>)
    requires |keys| == 32 * n && |nicks| == NICK_FIELD * n
    ensures peers == ReadPeers(keys, nicks, n)
  {
    hide ReadPeers, ReadField;
    peers := [];
    NoPeers();
    assert keys[..0] == [] && nicks[..0] == [];
    for i := 0 to n
      invariant peers == ReadPeers(keys[..32 * i], nicks[..NICK_FIELD * i], i)
    {
      var key := keys[i * 32..(i + 1) * 32];
      var src := nicks[i * NICK_FIELD..(i + 1) * NICK_FIELD];
      ReadPeersMore(keys[..32 * i], nicks[..NICK_FIELD * i], i, key, src);
      assert keys[..32 * (i + 1)] == keys[..32 * i] + key;
      assert nicks[..NICK_FIELD * (i + 1)] == nicks[..NICK_FIELD * i] + src;
      peers := peers + [Participant(key, ReadField(src))];
    }
    assert keys[..32 * n] == keys && nicks[..NICK_FIELD * n] == nicks;
  }

  lemma NoPeers()
    ensures ReadPeers([], [], 0) == []
  {
  }
}
