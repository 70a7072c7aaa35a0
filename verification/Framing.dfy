/** JPPD-SMP frames on a byte stream shared with log text: the sender of each side,
    the byte-by-byte scanner, and both receivers. */
module Framing {
  import opened Bytes
  import opened Crc
  import CrcStrength

  const SOF: seq<byte> := [0x01, 0x4A, 0x50, 0x50]

  /** Largest payload the device accepts (SMP_MAX_PAYLOAD_BYTES). */
  const DEVICE_MAX: nat := 1280
  const HOST_MAX: nat := 0xFFFF

  /** SOF, length, payload, CRC-16 over length and payload. */
  function Frame(payload: seq<byte>): (f: seq<byte>)
    requires |payload| < 0x1_0000
    ensures |f| == |payload| + 8
  {
    SOF + Le16(|payload|) + payload + Le16(Crc16(Le16(|payload|) + payload))
  }

  // ---- Where a frame starts ----

  ghost predicate SofAt(s: seq<byte>, i: int) {
    0 <= i && i + 4 <= |s| && s[i] == 0x01 && s[i + 1] == 0x4A && s[i + 2] == 0x50 && s[i + 3] == 0x50
  }

  ghost predicate NoSof(s: seq<byte>) {
    forall i :: !SofAt(s, i)
  }

  /** The first occurrence of the preamble. */
  function SofIndex(s: seq<byte>): (r: Option<nat>)
    ensures r.None? ==> NoSof(s)
    ensures r.Some? ==> SofAt(s, r.value) && forall j :: j < r.value ==> !SofAt(s, j)
  {
    if |s| < 4 then None
    else if s[..4] == SOF then Some(0)
    else
      var t := SofIndex(s[1..]);
      assert forall j :: 1 <= j ==> SofAt(s, j) == SofAt(s[1..], j - 1);
      if t.None? then None else Some(t.value + 1)
  }

  lemma SofIndexUnique(s: seq<byte>, i: nat)
    requires SofAt(s, i) && forall j :: j < i ==> !SofAt(s, j)
    ensures SofIndex(s) == Some(i)
  {
    assert SofIndex(s).Some? ==> SofIndex(s).value <= i;
  }

  /** No proper prefix of the preamble is also a suffix of it, so log text in front
      of a frame cannot complete an earlier match. */
  lemma NoiseThenSof(noise: seq<byte>, rest: seq<byte>)
    requires NoSof(noise)
    ensures SofIndex(noise + SOF + rest) == Some(|noise|)
  {
    var s := noise + SOF + rest;
    assert SofAt(s, |noise|);
    assert s[|noise|] == 0x01;
    forall j | j < |noise| ensures !SofAt(s, j) {
      assert j + 4 <= |noise| ==> (SofAt(s, j) <==> SofAt(noise, j));
    }
    SofIndexUnique(s, |noise|);
  }

  // ---- The scanner ----

  /** The bytes read so far end in the first k bytes of the preamble. */
  ghost predicate EndsWith(r: seq<byte>, k: nat) {
    && k <= 4 && k <= |r|
    && (k >= 1 ==> r[|r| - k] == 0x01)
    && (k >= 2 ==> r[|r| - k + 1] == 0x4A)
    && (k >= 3 ==> r[|r| - k + 2] == 0x50)
    && (k >= 4 ==> r[|r| - 1] == 0x50)
  }

  /** What sof_idx means: the longest partial match, and no complete one before it. */
  ghost predicate Tracks(r: seq<byte>, k: nat) {
    && k <= 4
    && EndsWith(r, k)
    && (forall j | k < j <= 4 :: !EndsWith(r, j))
    && (forall i :: SofAt(r, i) ==> k == 4 && i == |r| - 4)
  }

  function NextIndex(k: nat, b: byte): nat
    requires k < 4
  {
    if b == SOF[k] then k + 1 else if b == SOF[0] then 1 else 0
  }

  lemma TracksStep(r: seq<byte>, k: nat, b: byte)
    requires k < 4 && Tracks(r, k)
    ensures Tracks(r + [b], NextIndex(k, b))
  {
    var r' := r + [b];
    assert forall j :: 0 <= j < |r| ==> r'[j] == r[j];
    assert r'[|r|] == b;
    assert EndsWith(r, 1) <==> k == 1;
    assert EndsWith(r, 2) <==> k == 2;
    assert EndsWith(r, 3) <==> k == 3;
    forall i | SofAt(r', i) ensures NextIndex(k, b) == 4 && i == |r'| - 4 {
      assert i + 4 <= |r| ==> SofAt(r, i);
      assert i == |r'| - 4;
      assert EndsWith(r, 3);
    }
  }

  /** Both receivers scan this way; the result is the position after the preamble. */
  method ScanSof(stream: seq<byte>, from: nat) returns (found: bool, pos: nat)
    requires from <= |stream|
    ensures found == SofIndex(stream[from..]).Some?
    ensures found ==> pos == from + SofIndex(stream[from..]).value + 4 <= |stream|
  {
    var sofIdx := 0;
    pos := from;
    assert stream[from..pos] == [];
    while sofIdx < 4 && pos < |stream|
      invariant from <= pos <= |stream|
      invariant Tracks(stream[from..pos], sofIdx)
      decreases |stream| - pos
    {
      TracksStep(stream[from..pos], sofIdx, stream[pos]);
      assert stream[from..pos + 1] == stream[from..pos] + [stream[pos]];
      if stream[pos] == SOF[sofIdx] {
        sofIdx := sofIdx + 1;
      } else if stream[pos] == SOF[0] {
        sofIdx := 1;
      } else {
        sofIdx := 0;
      }
      pos := pos + 1;
    }
    found := sofIdx == 4;
    ghost var r, s := stream[from..pos], stream[from..];
    assert forall i | i + 4 <= |r| :: SofAt(s, i) == SofAt(r, i);
    if found {
      assert SofAt(r, |r| - 4);
      SofIndexUnique(s, |r| - 4);
    } else {
      assert r == s;
    }
  }

  // ---- One frame, or the reason there is none ----

  /** Got: a checked payload. Bad: a frame with an illegal length or a wrong CRC.
      Starved: the stream ended first. `next` is the position to scan from again. */
  datatype Read = Got(payload: seq<byte>, next: nat) | Bad(next: nat) | Starved

  /** What follows a preamble. */
  datatype Body = Short | Illegal | Checked(payload: seq<byte>, intact: bool)

  function ReadBody(t: seq<byte>, lo: nat, hi: nat): (r: Body)
    ensures r.Illegal? ==> |t| >= 2
    ensures r.Checked? ==> lo <= |r.payload| <= hi && |r.payload| + 4 <= |t|
  {
    if |t| < 2 then Short
    else
      var n := FromLe16(t[0], t[1]);
      if n < lo || n > hi then Illegal
      else if |t| < n + 4 then Short
      else Checked(t[2..n + 2], Crc16(t[..2] + t[2..n + 2]) == FromLe16(t[n + 2], t[n + 3]))
  }

  function ReadFrame(s: seq<byte>, lo: nat, hi: nat): (r: Read)
    ensures r.Got? || r.Bad? ==> 4 < r.next <= |s|
    ensures r.Got? ==> lo <= |r.payload| <= hi
  {
    var at := SofIndex(s);
    if at.None? then Starved
    else
      var p := at.value + 4;
      match ReadBody(s[p..], lo, hi)
      case Short => Starved
      case Illegal => Bad(p + 2)
      case Checked(payload, intact) =>
        if intact then Got(payload, p + |payload| + 4) else Bad(p + |payload| + 4)
  }

  /** Every payload a receiver hands on from a whole stream, in order. */
  function Received(s: seq<byte>, lo: nat, hi: nat): seq<seq<byte>>
    decreases |s|
  {
    match ReadFrame(s, lo, hi)
    case Got(payload, next) => [payload] + Received(s[next..], lo, hi)
    case Bad(next) => Received(s[next..], lo, hi)
    case Starved => []
  }

  lemma ReceivedStep(s: seq<byte>, lo: nat, hi: nat)
    ensures var r := ReadFrame(s, lo, hi);
            Received(s, lo, hi) == if r.Got? then [r.payload] + Received(s[r.next..], lo, hi)
                                   else if r.Bad? then Received(s[r.next..], lo, hi)
                                   else []
  {
  }

  /** How much of s a receiver sees before it gives up, when `cut` bytes arrive before its
      deadline. The device scans without one and only then starts to wait (`patient`). */
  function Window(s: seq<byte>, cut: Option<nat>, patient: bool): (c: nat)
    ensures c <= |s|
    ensures cut.None? ==> c == |s|
  {
    var at := SofIndex(s);
    if cut.None? || (patient && at.None?) then |s|
    else Min(|s|, if patient && cut.value < at.value + 4 then at.value + 4 else cut.value)
  }

  /** One frame out of what arrives in time; a receiver that gives up starts to scan again
      right behind the last byte it took. */
  function ReadTimed(s: seq<byte>, lo: nat, hi: nat, cut: Option<nat>, patient: bool): (r: Read)
    ensures r.Got? || r.Bad? ==> r.next <= |s| && (patient ==> 0 < r.next)
  {
    var c := Window(s, cut, patient);
    var r := ReadFrame(s[..c], lo, hi);
    if r.Starved? && cut.Some? && (patient ==> SofIndex(s).Some?) then Bad(c) else r
  }

  /** Every payload the device hands on when its waits end as `cuts` says, one entry for
      each preamble it meets. */
  function ReceivedTimed(s: seq<byte>, lo: nat, hi: nat, cuts: seq<Option<nat>>): seq<seq<byte>>
    decreases |s|
  {
    var r := ReadTimed(s, lo, hi, if cuts == [] then None else cuts[0], true);
    var rest := if cuts == [] then [] else cuts[1..];
    if r.Got? then [r.payload] + ReceivedTimed(s[r.next..], lo, hi, rest)
    else if r.Bad? then ReceivedTimed(s[r.next..], lo, hi, rest)
    else []
  }

  lemma ReceivedTimedStep(s: seq<byte>, lo: nat, hi: nat, cuts: seq<Option<nat>>)
    ensures var r := ReadTimed(s, lo, hi, if cuts == [] then None else cuts[0], true);
            var rest := if cuts == [] then [] else cuts[1..];
            ReceivedTimed(s, lo, hi, cuts) == if r.Got? then [r.payload] + ReceivedTimed(s[r.next..], lo, hi, rest)
                                              else if r.Bad? then ReceivedTimed(s[r.next..], lo, hi, rest)
                                              else []
  {
  }

  /** Without timeouts this is the plain reading of the stream. */
  lemma {:induction false} NoTimeouts(s: seq<byte>, lo: nat, hi: nat)
    ensures ReadTimed(s, lo, hi, None, true) == ReadFrame(s, lo, hi)
    ensures ReceivedTimed(s, lo, hi, []) == Received(s, lo, hi)
    decreases |s|
  {
    hide ReadFrame, ReceivedTimed, Received;
    assert s[..|s|] == s;
    ReceivedStep(s, lo, hi);
    ReceivedTimedStep(s, lo, hi, []);
    var r := ReadFrame(s, lo, hi);
    if r.Got? || r.Bad? {
      NoTimeouts(s[r.next..], lo, hi);
    }
  }

  /** The device's receive task: bad and late frames are dropped and scanning resumes. */
  method DeviceRxTask(stream: seq<byte>, cuts: seq<Option<nat>>) returns (delivered: seq<seq<byte>>)
    ensures delivered == ReceivedTimed(stream, 1, DEVICE_MAX, cuts)
  {
    hide ReadTimed, ReceivedTimed;
    delivered := [];
    var pos := 0;
    var waits := cuts;
    var starved := false;
    assert stream[0..] == stream;
    while !starved
      invariant pos <= |stream|
      invariant ReceivedTimed(stream, 1, DEVICE_MAX, cuts)
             == delivered + if starved then [] else ReceivedTimed(stream[pos..], 1, DEVICE_MAX, waits)
      decreases !starved, |stream| - pos
    {
      ReceivedTimedStep(stream[pos..], 1, DEVICE_MAX, waits);
      var r := DeviceReadFrame(stream, pos, if waits == [] then None else waits[0]);
      waits := if waits == [] then [] else waits[1..];
      assert r.Got? || r.Bad? ==> stream[pos..][r.next..] == stream[pos + r.next..];
      match r
      case Got(payload, next) =>
        delivered := delivered + [payload];
        pos := pos + next;
      case Bad(next) =>
        pos := pos + next;
      case Starved =>
        starved := true;
    }
  }

  /** One pass of the receive loop: scan, length, payload, CRC in two calls, each of the
      three reads with a deadline. */
  method DeviceReadFrame(stream: seq<byte>, from: nat, cut: Option<nat>) returns (r: Read)
    requires from <= |stream|
    ensures r == ReadTimed(stream[from..], 1, DEVICE_MAX, cut, true)
  {
    hide Crc16;
    var found, p := ScanSof(stream, from);
    if !found {
      NothingToRead(stream[from..], 1, DEVICE_MAX, cut);
      return Starved;
    }
    var end := if cut.None? then |stream| else Min(|stream|, if from + cut.value < p then p else from + cut.value);
    InTime(stream, from, p, end, 1, DEVICE_MAX, cut);
    hide ReadTimed, ReadBody;
    var b := DeviceReadBody(stream[p..end]);
    if b.Short? {
      return Missed(cut, end - from);
    }
    if b.Illegal? {
      return Bad(p + 2 - from);
    }
    if !b.intact {
      return Bad(p + |b.payload| + 4 - from);
    }
    return Got(b.payload, p + |b.payload| + 4 - from);
  }

  /** Length, payload and checksum out of the bytes in time. */
  method DeviceReadBody(t: seq<byte>) returns (b: Body)
    ensures b == ReadBody(t, 1, DEVICE_MAX)
  {
    hide Crc16;
    if |t| < 2 {
      return Short;
    }
    var plen := FromLe16(t[0], t[1]);
    if plen == 0 || plen > DEVICE_MAX {
      return Illegal;
    }
    if |t| < plen + 4 {
      return Short;
    }
    var calcCrc := TwoPartCrc(t[..2], t[2..plen + 2]);
    return Checked(t[2..plen + 2], calcCrc == FromLe16(t[plen + 2], t[plen + 3]));
  }

  /** A read that came back short: the deadline passed, or nothing more will come. */
  function Missed(cut: Option<nat>, next: nat): Read {
    if cut.Some? then Bad(next) else Starved
  }

  lemma NothingToRead(s: seq<byte>, lo: nat, hi: nat, cut: Option<nat>)
    requires SofIndex(s).None?
    ensures ReadTimed(s, lo, hi, cut, true).Starved?
  {
    assert s[..|s|] == s;
  }

  /** Behind the preamble the result depends on the bytes in time alone. */
  lemma InTime(stream: seq<byte>, from: nat, p: nat, end: nat, lo: nat, hi: nat, cut: Option<nat>)
    requires from <= |stream| && SofIndex(stream[from..]).Some? && p == from + SofIndex(stream[from..]).value + 4
    requires p <= |stream|
    requires end == if cut.None? then |stream| else Min(|stream|, if from + cut.value < p then p else from + cut.value)
    ensures ReadTimed(stream[from..], lo, hi, cut, true) ==
            var b := ReadBody(stream[p..end], lo, hi);
            if b.Short? then Missed(cut, end - from)
            else if b.Illegal? then Bad(p + 2 - from)
            else if b.intact then Got(b.payload, p + |b.payload| + 4 - from)
            else Bad(p + |b.payload| + 4 - from)
  {
    hide ReadBody, SofIndex;
    var s := stream[from..];
    var c := end - from;
    SofInPrefix(s, c);
    Slices(stream, from, p, end);
  }

  lemma Slices(stream: seq<byte>, from: nat, p: nat, end: nat)
    requires from <= p <= end <= |stream|
    ensures |stream[from..]| == |stream| - from
    ensures stream[from..][..end - from] == stream[from..end]
    ensures stream[from..][..end - from][p - from..] == stream[p..end]
  {
    assert stream[from..end][p - from..] == stream[p..end];
  }

  /** A preamble that lies within a prefix is the first of the prefix too. */
  lemma SofInPrefix(s: seq<byte>, c: nat)
    requires c <= |s| && SofIndex(s).Some? && SofIndex(s).value + 4 <= c
    ensures SofIndex(s[..c]) == SofIndex(s)
  {
    forall j | SofAt(s[..c], j)
      ensures SofAt(s, j)
    {
    }
    SofIndexUnique(s[..c], SofIndex(s).value);
  }

  /** The device accumulates the checksum over the header, then over the body if any. */
  method TwoPartCrc(head: seq<byte>, body: seq<byte>) returns (crc: nat)
    ensures crc == Crc16(head + body)
  {
    hide Step16;
    var reg := SerialCrc16Buf(0xFFFF, head);
    if |body| > 0 {
      reg := SerialCrc16Buf(reg, body);
    }
    Feed16Append(0xFFFF, head, body);
    crc := reg as nat;
  }

  /** The host's _read_frame: one call reads one frame or fails; its scan has a deadline
      too. */
  method HostReadFrame(stream: seq<byte>, from: nat, cut: Option<nat>) returns (r: Read)
    requires from <= |stream|
    ensures r == ReadTimed(stream[from..], 2, HOST_MAX, cut, false)
  {
    hide ReadTimed, ReadBody, ReadFrame, SofIndex, Window;
    var end := if cut.None? then |stream| else Min(|stream|, from + cut.value);
    var seen := stream[from..end];
    HostSees(stream, from, end, 2, HOST_MAX, cut);
    assert seen[0..] == seen;
    var found, p := ScanSof(seen, 0);
    if !found {
      return Missed(cut, end - from);
    }
    var b := HostReadBody(seen[p..]);
    if b.Short? {
      return Missed(cut, end - from);
    }
    if b.Illegal? {
      return Bad(p + 2);
    }
    if !b.intact {
      return Bad(p + |b.payload| + 4);
    }
    return Got(b.payload, p + |b.payload| + 4);
  }

  method HostReadBody(t: seq<byte>) returns (b: Body)
    ensures b == ReadBody(t, 2, HOST_MAX)
  {
    hide Crc16;
    if |t| < 2 {
      return Short;
    }
    var plen := FromLe16(t[0], t[1]);
    if plen < 2 {
      return Illegal;
    }
    if |t| - 2 < plen || |t| - 2 - plen < 2 {
      return Short;
    }
    var calcCrc := HostChecksum(t[..2] + t[2..plen + 2]);
    return Checked(t[2..plen + 2], calcCrc == FromLe16(t[plen + 2], t[plen + 3]));
  }

  method HostChecksum(covered: seq<byte>) returns (crc: nat)
    ensures crc == Crc16(covered)
  {
    var reg := HostCrc16(covered);
    crc := reg as nat;
  }

  /** The host judges what came before its deadline. */
  lemma HostSees(stream: seq<byte>, from: nat, end: nat, lo: nat, hi: nat, cut: Option<nat>)
    requires from <= |stream| && end == if cut.None? then |stream| else Min(|stream|, from + cut.value)
    ensures var v := stream[from..end];
            ReadTimed(stream[from..], lo, hi, cut, false) ==
            if SofIndex(v).None? then Missed(cut, end - from)
            else
              var p := SofIndex(v).value + 4;
              var b := ReadBody(v[p..], lo, hi);
              if b.Short? then Missed(cut, end - from)
              else if b.Illegal? then Bad(p + 2)
              else if b.intact then Got(b.payload, p + |b.payload| + 4)
              else Bad(p + |b.payload| + 4)
  {
    hide ReadBody, SofIndex;
    Slices(stream, from, from, end);
  }

  // ---- The senders ----

  /** Device response payload; events use the same shape with sequence number 0xFF. */
  function Response(seqNo: byte, status: byte, body: seq<byte>): seq<byte> {
    [seqNo, status] + body
  }

  /** send_response: header, body and CRC written in three pieces. */
  method SendResponse(seqNo: byte, status: byte, body: seq<byte>) returns (wire: seq<byte>)
    requires |body| <= 0xFFFF - 2
    ensures wire == Frame(Response(seqNo, status, body))
  {
    hide Crc16;
    var plen := 2 + |body|;
    var covered := Le16(plen) + [seqNo, status];
    wire := SOF + covered;
    if |body| > 0 {
      wire := wire + body;
    }
    var crc := TwoPartCrc(covered, body);
    wire := wire + Le16(crc);
    ghost var p := Response(seqNo, status, body);
    assert covered + body == Le16(plen) + p;
    assert wire == SOF + (covered + body) + Le16(crc);
    assert wire == SOF + Le16(plen) + p + Le16(crc);
  }

  // ---- Round trip over noise ----

  /** Log text and frames alternate on the wire. */
  function Wire(noise: seq<seq<byte>>, payloads: seq<seq<byte>>): seq<byte>
    requires |noise| == |payloads| + 1
    requires forall p | p in payloads :: |p| < 0x1_0000
  {
    if payloads == [] then noise[0]
    else noise[0] + Frame(payloads[0]) + Wire(noise[1..], payloads[1..])
  }

  lemma BodyParses(body: seq<byte>, crc: nat, rest: seq<byte>, lo: nat, hi: nat)
    requires lo <= |body| <= hi && |body| < 0x1_0000 && crc < 0x1_0000
    ensures var t := Le16(|body|) + body + Le16(crc) + rest;
            ReadBody(t, lo, hi) == Checked(body, Crc16(Le16(|body|) + body) == crc)
            && t[|body| + 4..] == rest
  {
    hide Crc16;
    var n := |body|;
    var t := Le16(n) + body + Le16(crc) + rest;
    assert t[..2] == Le16(n) && t[2..n + 2] == body;
    assert t[0] == Le16(n)[0] && t[1] == Le16(n)[1];
    assert t[n + 2] == Le16(crc)[0] && t[n + 3] == Le16(crc)[1];
  }

  /** A stream that starts with log text and a body under a legal length field is
      judged on its CRC alone. */
  lemma ReadAfterNoise(noise: seq<byte>, body: seq<byte>, crc: nat, rest: seq<byte>, lo: nat, hi: nat)
    requires NoSof(noise) && lo <= |body| <= hi && |body| < 0x1_0000 && crc < 0x1_0000
    ensures var s := noise + SOF + (Le16(|body|) + body + Le16(crc) + rest);
            var next := |noise| + |body| + 8;
            && next <= |s| && s[next..] == rest
            && ReadFrame(s, lo, hi)
               == if Crc16(Le16(|body|) + body) == crc then Got(body, next) else Bad(next)
  {
    hide Crc16, ReadBody;
    var t := Le16(|body|) + body + Le16(crc) + rest;
    var s := noise + SOF + t;
    NoiseThenSof(noise, t);
    BodyParses(body, crc, rest, lo, hi);
    assert s[|noise| + 4..] == t;
    assert s[|noise| + |body| + 8..] == t[|body| + 4..];
  }

  lemma ReceivedFirst(noise: seq<byte>, p: seq<byte>, rest: seq<byte>, lo: nat, hi: nat)
    requires NoSof(noise) && lo <= |p| <= hi < 0x1_0000
    ensures Received(noise + Frame(p) + rest, lo, hi) == [p] + Received(rest, lo, hi)
  {
    hide Crc16, NoSof, ReadFrame, Received;
    var crc := Crc16(Le16(|p|) + p);
    var s := noise + SOF + (Le16(|p|) + p + Le16(crc) + rest);
    assert noise + Frame(p) + rest == s;
    ReadAfterNoise(noise, p, crc, rest, lo, hi);
    ReceivedStep(s, lo, hi);
  }

  /** Each receiver decodes exactly the frames sent, in order, whatever log text
      surrounds them. */
  lemma {:induction false} FramesSurviveNoise(noise: seq<seq<byte>>, payloads: seq<seq<byte>>, lo: nat, hi: nat)
    requires |noise| == |payloads| + 1
    requires hi < 0x1_0000
    requires forall t | t in noise :: NoSof(t)
    requires forall p | p in payloads :: lo <= |p| <= hi
    ensures Received(Wire(noise, payloads), lo, hi) == payloads
  {
    hide Frame, NoSof, Received;
    if payloads == [] {
      assert noise[0] in noise;
      NoFrame(noise[0], lo, hi);
    } else {
      var p := payloads[0];
      assert p in payloads && noise[0] in noise;
      ReceivedFirst(noise[0], p, Wire(noise[1..], payloads[1..]), lo, hi);
      FramesSurviveNoise(noise[1..], payloads[1..], lo, hi);
      assert payloads == [p] + payloads[1..];
    }
  }

  lemma NoFrame(noise: seq<byte>, lo: nat, hi: nat)
    requires NoSof(noise)
    ensures Received(noise, lo, hi) == []
  {
    assert SofIndex(noise).None?;
  }

  /** A frame whose payload was changed within two adjacent bytes is dropped, and the
      receiver is in step for whatever follows it. */
  lemma TamperedFrameDropped(noise: seq<byte>, pre: seq<byte>, x: seq<byte>, y: seq<byte>,
                             post: seq<byte>, rest: seq<byte>, lo: nat, hi: nat)
    requires NoSof(noise)
    requires |x| == |y| <= 2 && x != y
    requires lo <= |pre + x + post| <= hi && hi < 0x1_0000
    ensures var sent, got := pre + x + post, pre + y + post;
            var crc := Crc16(Le16(|sent|) + sent);
            Received(noise + SOF + (Le16(|sent|) + got + Le16(crc) + rest), lo, hi) == Received(rest, lo, hi)
  {
    hide Crc16, NoSof;
    var sent, got := pre + x + post, pre + y + post;
    var head := Le16(|sent|);
    var crc := Crc16(head + sent);
    assert Crc16(head + got) != crc by {
      CrcStrength.BurstDetected16(head + pre, x, y, post);
      assert head + pre + x + post == head + sent;
      assert head + pre + y + post == head + got;
    }
    assert head == Le16(|got|);
    ReceivedBad(noise, got, crc, rest, lo, hi);
  }

  lemma ReceivedBad(noise: seq<byte>, got: seq<byte>, crc: nat, rest: seq<byte>, lo: nat, hi: nat)
    requires NoSof(noise) && lo <= |got| <= hi < 0x1_0000 && crc < 0x1_0000
    requires Crc16(Le16(|got|) + got) != crc
    ensures Received(noise + SOF + (Le16(|got|) + got + Le16(crc) + rest), lo, hi) == Received(rest, lo, hi)
  {
    hide *;
    ReadAfterNoise(noise, got, crc, rest, lo, hi);
    ReceivedStep(noise + SOF + (Le16(|got|) + got + Le16(crc) + rest), lo, hi);
  }

  /** A frame longer than the receiver takes is abandoned at its length: the bytes behind
      that are scanned like log text, so without a preamble in them nothing is received. */
  lemma OversizedSkipped(noise: seq<byte>, p: seq<byte>, rest: seq<byte>, lo: nat, hi: nat)
    requires NoSof(noise) && hi < |p| < 0x1_0000
    ensures Received(noise + Frame(p) + rest, lo, hi) == Received(p + Le16(Crc16(Le16(|p|) + p)) + rest, lo, hi)
  {
    hide Crc16, NoSof, Received, ReadBody, SofIndex;
    var behind := p + Le16(Crc16(Le16(|p|) + p)) + rest;
    var s := noise + SOF + (Le16(|p|) + behind);
    assert noise + Frame(p) + rest == s;
    NoiseThenSof(noise, Le16(|p|) + behind);
    LengthRefused(Le16(|p|) + behind, |p|, lo, hi);
    assert s[|noise| + 4..] == Le16(|p|) + behind;
    assert s[|noise| + 6..] == behind;
    ReceivedStep(s, lo, hi);
  }

  /** A frame that announces less than the least length costs its preamble and its length
      and nothing else: what stands behind those six bytes is received as if alone. */
  lemma UndersizedSkipped(noise: seq<byte>, n: nat, rest: seq<byte>, lo: nat, hi: nat)
    requires NoSof(noise) && n < lo && n < 0x1_0000
    ensures Received(noise + SOF + Le16(n) + rest, lo, hi) == Received(rest, lo, hi)
  {
    hide Crc16, NoSof, Received, ReadBody, SofIndex;
    var s := noise + SOF + (Le16(n) + rest);
    assert noise + SOF + Le16(n) + rest == s;
    NoiseThenSof(noise, Le16(n) + rest);
    LengthRefused(Le16(n) + rest, n, lo, hi);
    assert s[|noise| + 4..] == Le16(n) + rest;
    assert s[|noise| + 6..] == rest;
    ReceivedStep(s, lo, hi);
  }

  lemma LengthRefused(t: seq<byte>, n: nat, lo: nat, hi: nat)
    requires (n < lo || hi < n) && n < 0x1_0000 && |t| >= 2 && t[..2] == Le16(n)
    ensures ReadBody(t, lo, hi) == Illegal
  {
    hide Crc16;
    assert t[0] == Le16(n)[0] && t[1] == Le16(n)[1];
  }

  // ---- Frames that never finish ----

  /** Log text, then a whole frame or one whose sender stopped behind `part`. */
  datatype Item = Whole(noise: seq<byte>, payload: seq<byte>) | Broken(noise: seq<byte>, part: seq<byte>)

  ghost predicate ProperItem(i: Item, lo: nat, hi: nat) {
    && NoSof(i.noise)
    && (i.Whole? ==> lo <= |i.payload| <= hi)
    && (i.Broken? ==> ReadBody(i.part, lo, hi).Short?)
  }

  predicate ItemsFit(items: seq<Item>) {
    forall i :: 0 <= i < |items| ==> items[i].Whole? ==> |items[i].payload| < 0x1_0000
  }

  function ItemsWire(items: seq<Item>): seq<byte>
    requires ItemsFit(items)
  {
    if items == [] then []
    else
      items[0].noise + (if items[0].Whole? then Frame(items[0].payload) else SOF + items[0].part) + ItemsWire(items[1..])
  }

  /** The waits: none is cut short on a whole frame, the one on a broken frame ends where
      its bytes end. */
  function Waits(items: seq<Item>): seq<Option<nat>> {
    if items == [] then []
    else [if items[0].Whole? then None else Some(|items[0].noise| + 4 + |items[0].part|)] + Waits(items[1..])
  }

  function Payloads(items: seq<Item>): seq<seq<byte>> {
    if items == [] then []
    else (if items[0].Whole? then [items[0].payload] else []) + Payloads(items[1..])
  }

  /** A frame that stops short costs its own bytes and nothing else: scanning resumes right
      behind them. */
  lemma BrokenSkipped(noise: seq<byte>, part: seq<byte>, rest: seq<byte>, lo: nat, hi: nat, waits: seq<Option<nat>>)
    requires NoSof(noise) && ReadBody(part, lo, hi).Short?
    ensures ReceivedTimed(noise + SOF + part + rest, lo, hi, [Some(|noise| + 4 + |part|)] + waits)
         == ReceivedTimed(rest, lo, hi, waits)
  {
    hide ReadBody, ReceivedTimed, NoSof, ReadTimed, SofIndex;
    NoiseThenSof(noise, part + rest);
    assert noise + SOF + part + rest == noise + SOF + (part + rest);
    BrokenAt(noise + SOF + part + rest, noise, SOF, part, rest, lo, hi, waits);
  }

  lemma BrokenAt(s: seq<byte>, noise: seq<byte>, sof: seq<byte>, part: seq<byte>, rest: seq<byte>,
                 lo: nat, hi: nat, waits: seq<Option<nat>>)
    requires s == noise + sof + part + rest && |sof| == 4
    requires SofIndex(s) == Some(|noise|) && ReadBody(part, lo, hi).Short?
    ensures ReceivedTimed(s, lo, hi, [Some(|noise| + 4 + |part|)] + waits) == ReceivedTimed(rest, lo, hi, waits)
  {
    hide ReadBody, ReceivedTimed, ReadTimed, SofIndex;
    var n := |noise| + 4 + |part|;
    assert s[0..] == s && s[|noise| + 4..n] == part && s[n..] == rest;
    InTime(s, 0, |noise| + 4, n, lo, hi, Some(n));
    ReceivedTimedStep(s, lo, hi, [Some(n)] + waits);
    assert ([Some(n)] + waits)[1..] == waits;
  }

  lemma WholeReceived(noise: seq<byte>, p: seq<byte>, rest: seq<byte>, lo: nat, hi: nat, waits: seq<Option<nat>>)
    requires NoSof(noise) && lo <= |p| <= hi < 0x1_0000
    ensures ReceivedTimed(noise + Frame(p) + rest, lo, hi, [None] + waits) == [p] + ReceivedTimed(rest, lo, hi, waits)
  {
    hide Crc16, NoSof, ReadFrame, ReceivedTimed, ReadTimed;
    var crc := Crc16(Le16(|p|) + p);
    var s := noise + SOF + (Le16(|p|) + p + Le16(crc) + rest);
    assert noise + Frame(p) + rest == s;
    ReadAfterNoise(noise, p, crc, rest, lo, hi);
    NoTimeouts(s, lo, hi);
    ReceivedTimedStep(s, lo, hi, [None] + waits);
  }

  /** The device decodes exactly the whole frames, in order, between log text and frames
      broken off at any byte before their end. */
  lemma {:induction false} WholeFramesSurvive(items: seq<Item>, lo: nat, hi: nat)
    requires hi < 0x1_0000 && ItemsFit(items) && forall i :: 0 <= i < |items| ==> ProperItem(items[i], lo, hi)
    ensures ReceivedTimed(ItemsWire(items), lo, hi, Waits(items)) == Payloads(items)
    decreases |items|
  {
    hide ReceivedTimed, Frame, ReadBody, NoSof;
    if items == [] {
      NoFrameTimed(lo, hi);
    } else {
      var i, rest := items[0], ItemsWire(items[1..]);
      assert ProperItem(i, lo, hi);
      WholeFramesSurvive(items[1..], lo, hi);
      if i.Whole? {
        WholeReceived(i.noise, i.payload, rest, lo, hi, Waits(items[1..]));
      } else {
        assert i.noise + (SOF + i.part) + rest == i.noise + SOF + i.part + rest;
        BrokenSkipped(i.noise, i.part, rest, lo, hi, Waits(items[1..]));
      }
    }
  }

  lemma NoFrameTimed(lo: nat, hi: nat)
    ensures ReceivedTimed([], lo, hi, []) == []
  {
  }
}
