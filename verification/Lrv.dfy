/** The write-once identity record of the device: printed by the manufacturing script,
    stored on the EEPROM by the firmware and parsed at every boot. */
module Lrv {
  import opened Bytes
  import opened Crc
  import CrcStrength

  const HEADER: nat := 8
  const MAGIC: seq<byte> := [0x4A, 0x4C, 0x52, 0x56]
  const RC_MIN: nat := 189
  const RC_MAX: nat := 380
  const CERT_MAX: nat := 192
  const CHIP_SIZE: nat := 4096
  const PAGE: nat := 32

  datatype Data = Data(serial: nat, pubkey: seq<byte>, seckey: seq<byte>, certSig: seq<byte>,
                       hwid: seq<byte>, cert: seq<byte>)

  /** serialise_record; None stands for the errors it raises. The key fields are taken as
      they come. */
  function SerialiseRecord(serial: nat, pubkey: seq<byte>, seckey: seq<byte>, certSig: seq<byte>,
                           hwid: seq<byte>, cert: seq<byte>): Option<seq<byte>> {
    var certBytes := cert + [0];
    if |certBytes| > 191 || serial >= 0x1_0000 then None
    else
      var cut := hwid[..Min(|hwid|, 23)];
      Some(Le16(serial) + pubkey + seckey + certSig + (cut + Zeros(24 - |cut|)) + Le16(|certBytes|) + certBytes)
  }

  /** deserialise; the two texts as the C strings later readers see. */
  function Deserialise(buf: seq<byte>): (d: Option<Data>) {
    if |buf| < RC_MIN then None
    else
      var certLen := FromLe16(buf[186], buf[187]);
      if certLen == 0 || |buf| < 188 + certLen then None
      else
        var copy := if certLen < CERT_MAX then certLen else CERT_MAX - 1;
        Some(Data(FromLe16(buf[0], buf[1]), buf[2..34], buf[34..98], buf[98..162],
                  CStr(buf[162..162 + 23]), CStr(buf[188..188 + copy] + [0])))
  }

  /** The script refuses a certificate of more than 190 bytes and a serial beyond 16 bits. */
  lemma SerialisesIff(serial: nat, pubkey: seq<byte>, seckey: seq<byte>, certSig: seq<byte>, hwid: seq<byte>, cert: seq<byte>)
    ensures SerialiseRecord(serial, pubkey, seckey, certSig, hwid, cert).Some? <==> |cert| <= 190 && serial <= 0xFFFF
  {
  }

  /** A record is one as soon as it is long enough for the certificate it announces. */
  lemma IsRecordIff(buf: seq<byte>)
    ensures Deserialise(buf).Some? <==>
            |buf| >= 189 && 1 <= FromLe16(buf[186], buf[187]) <= |buf| - 188
  {
    hide CStr;
  }

  lemma PartsOfRecord(a: seq<byte>, b: seq<byte>, c: seq<byte>, d: seq<byte>, h: seq<byte>, n: seq<byte>, t: seq<byte>)
    requires |a| == 2 && |b| == 32 && |c| == 64 && |d| == 64 && |h| == 24 && |n| == 2
    ensures var r := a + b + c + d + h + n + t;
            && r[0] == a[0] && r[1] == a[1] && r[2..34] == b && r[34..98] == c && r[98..162] == d
            && r[162..185] == h[..23] && r[186] == n[0] && r[187] == n[1] && r[188..] == t && |r| == 188 + |t|
  {
  }

  /** The firmware reads back what the script wrote: every field, the hardware id cut to
      23 bytes. */
  lemma RecordRoundTrip(serial: nat, pubkey: seq<byte>, seckey: seq<byte>, certSig: seq<byte>,
                        hwid: seq<byte>, cert: seq<byte>)
    requires serial < 0x1_0000 && |pubkey| == 32 && |seckey| == 64 && |certSig| == 64
    requires |cert| <= 190 && 0 !in cert && 0 !in hwid
    ensures var r := SerialiseRecord(serial, pubkey, seckey, certSig, hwid, cert);
            && r.Some? && RC_MIN <= |r.value| <= RC_MAX
            && r.value[0] == serial % 256 && r.value[1] == serial / 256 && r.value[2..34] == pubkey
            && r.value[34..98] == seckey && r.value[98..162] == certSig && r.value[188..] == cert + [0]
            && Deserialise(r.value) == Some(Data(serial, pubkey, seckey, certSig, hwid[..Min(|hwid|, 23)], cert))
  {
    hide CStr, Deserialise;
    var cut := hwid[..Min(|hwid|, 23)];
    var t := cert + [0];
    PartsOfRecord(Le16(serial), pubkey, seckey, certSig, cut + Zeros(24 - |cut|), Le16(|t|), t);
    HwidField(cut);
    var r := SerialiseRecord(serial, pubkey, seckey, certSig, hwid, cert).value;
    LengthsRead(r, serial, |t|);
    RecordReads(r, serial, pubkey, seckey, certSig, cut, cert);
  }

  lemma LengthsRead(r: seq<byte>, serial: nat, n: nat)
    requires |r| > 187 && serial < 0x1_0000 && n < 0x1_0000
    requires r[0] == Le16(serial)[0] && r[1] == Le16(serial)[1] && r[186] == Le16(n)[0] && r[187] == Le16(n)[1]
    ensures FromLe16(r[0], r[1]) == serial && FromLe16(r[186], r[187]) == n
  {
  }

  lemma RecordReads(r: seq<byte>, serial: nat, pubkey: seq<byte>, seckey: seq<byte>, certSig: seq<byte>,
                    hwid: seq<byte>, cert: seq<byte>)
    requires |r| == 189 + |cert| && |cert| <= 190 && 0 !in cert && r[188..] == cert + [0]
    requires FromLe16(r[0], r[1]) == serial && FromLe16(r[186], r[187]) == |cert| + 1
    requires r[2..34] == pubkey && r[34..98] == seckey && r[98..162] == certSig && CStr(r[162..185]) == hwid
    ensures Deserialise(r) == Some(Data(serial, pubkey, seckey, certSig, hwid, cert))
  {
    hide CStr, FromLe16;
    assert r[188..188 + (|cert| + 1)] == r[188..];
    CStrTerminated(cert, [0]);
    assert cert + [0] + [0] == r[188..] + [0];
  }

  lemma HwidField(cut: seq<byte>)
    requires |cut| <= 23 && 0 !in cut
    ensures CStr((cut + Zeros(24 - |cut|))[..23]) == cut
  {
    if |cut| < 23 {
      assert (cut + Zeros(24 - |cut|))[..23] == cut + [0] + Zeros(22 - |cut|);
      CStrTerminated(cut, Zeros(22 - |cut|));
    } else {
      assert (cut + Zeros(1))[..23] == cut;
      CStrWhole(cut);
    }
  }

  /** The length the header gives, when the magic is there and the length possible. */
  function HeaderLength(cells: seq<byte>): (r: Option<nat>)
    requires |cells| == CHIP_SIZE
    ensures r.Some? ==> RC_MIN <= r.value <= RC_MAX
  {
    if cells[..4] != MAGIC then None
    else
      var len := FromLe16(cells[4], cells[5]);
      if RC_MIN <= len <= RC_MAX then Some(len) else None
  }

  /** identity_read_record with working reads. */
  function ReadRecord(cells: seq<byte>): Option<seq<byte>>
    requires |cells| == CHIP_SIZE
  {
    var len := HeaderLength(cells);
    if len.None? then None
    else
      var record := cells[HEADER..HEADER + len.value];
      if Crc16(record) == FromLe16(cells[6], cells[7]) then Some(record) else None
  }

  /** identity_present with a working read: the header alone decides. */
  predicate IdentityPresent(cells: seq<byte>)
    requires |cells| == CHIP_SIZE
  {
    HeaderLength(cells).Some?
  }

  /** The header in numbers: "JLRV", the length, the checksum. */
  lemma LoadsIff(cells: seq<byte>)
    requires |cells| == CHIP_SIZE
    ensures var lo, hi := cells[4] as int, cells[6] as int;
            var len := lo + 256 * (cells[5] as int);
            var header := cells[..4] == [0x4A, 0x4C, 0x52, 0x56] && 189 <= len <= 380;
            && (IdentityPresent(cells) <==> header)
            && ReadRecord(cells) ==
               if header && Crc16(cells[8..8 + len]) == hi + 256 * (cells[7] as int) then Some(cells[8..8 + len]) else None
  {
    hide Crc16;
  }

  function HeaderFor(record: seq<byte>): (h: seq<byte>)
    requires |record| < 0x1_0000
    ensures |h| == HEADER
  {
    MAGIC + Le16(|record|) + Le16(Crc16(record))
  }

  function Patch(cells: seq<byte>, at: nat, data: seq<byte>): (r: seq<byte>)
    requires at + |data| <= |cells|
    ensures |r| == |cells|
  {
    cells[..at] + data + cells[at + |data|..]
  }

  /** The chip once n bytes of a store have been programmed: the record, then the header. */
  function Torn(cells: seq<byte>, record: seq<byte>, n: nat): (r: seq<byte>)
    requires |cells| == CHIP_SIZE && |record| <= RC_MAX && n <= |record| + HEADER
    ensures |r| == CHIP_SIZE
  {
    if n <= |record| then Patch(cells, HEADER, record[..n])
    else Patch(Patch(cells, HEADER, record), 0, HeaderFor(record)[..n - |record|])
  }

  predicate Erased(cells: seq<byte>) {
    |cells| == CHIP_SIZE && forall i :: 0 <= i < CHIP_SIZE ==> cells[i] == 0xFF
  }

  lemma TornCells(cells: seq<byte>, record: seq<byte>, n: nat)
    requires |cells| == CHIP_SIZE && |record| <= RC_MAX && n <= |record| + HEADER
    ensures var t := Torn(cells, record, n); var h := if n <= |record| then 0 else n - |record|;
            && (forall i :: 0 <= i < HEADER ==> t[i] == if i < h then HeaderFor(record)[i] else cells[i])
            && (n >= |record| ==> t[HEADER..HEADER + |record|] == record)
  {
    hide HeaderFor;
    var p := Patch(cells, HEADER, record);
    assert p[HEADER..HEADER + |record|] == record;
    var t := Torn(cells, record, n);
    if n > |record| {
      assert t[HEADER..] == p[HEADER..];
      assert t[HEADER..HEADER + |record|] == p[HEADER..HEADER + |record|];
    } else if n == |record| {
      assert record[..n] == record;
    }
  }

  lemma HeaderBytes(record: seq<byte>)
    requires |record| < 0x1_0000
    ensures var h := HeaderFor(record);
            && h[..4] == MAGIC && h[4] == |record| % 256 && h[5] == |record| / 256
            && h[6] == Crc16(record) % 256 && h[7] == Crc16(record) / 256
            && FromLe16(h[4], h[5]) == |record| && FromLe16(h[6], h[7]) == Crc16(record)
  {
    hide Crc16;
    var h := HeaderFor(record);
    assert h[..4] == MAGIC && h[4..6] == Le16(|record|) && h[6..8] == Le16(Crc16(record));
    assert h[4] == h[4..6][0] && h[5] == h[4..6][1] && h[6] == h[6..8][0] && h[7] == h[6..8][1];
  }

  /** Power lost after any number of bytes of a store on an erased chip: the next boot
      reads no identity or exactly the intended record, and which of the two is decided by
      the bytes of the header that made it; the guard against a second store already holds
      from the sixth header byte on. */
  lemma TornStore(cells: seq<byte>, record: seq<byte>, n: nat)
    requires Erased(cells) && RC_MIN <= |record| <= RC_MAX && n <= |record| + HEADER
    ensures var t := Torn(cells, record, n); var crc := Crc16(record);
            var whole := n == |record| + 8 || (n == |record| + 7 && crc / 256 == 0xFF) || (n == |record| + 6 && crc == 0xFFFF);
            && ReadRecord(t) == (if whole then Some(record) else None)
            && (IdentityPresent(t) <==> n >= |record| + 6)
  {
    Blank(cells);
    hide Crc16, Torn, HeaderFor, Erased;
    var t := Torn(cells, record, n);
    TornCells(cells, record, n);
    HeaderBytes(record);
    TornHeader(t, record, if n <= |record| then 0 else n - |record|);
  }

  lemma Blank(cells: seq<byte>)
    requires Erased(cells)
    ensures |cells| == CHIP_SIZE && forall i :: 0 <= i < HEADER ==> cells[i] == 0xFF
  {
  }

  lemma TornHeader(t: seq<byte>, record: seq<byte>, h: nat)
    requires |t| == CHIP_SIZE && RC_MIN <= |record| <= RC_MAX && h <= HEADER
    requires forall i :: 0 <= i < HEADER ==> t[i] == if i < h then HeaderFor(record)[i] else 0xFF
    requires h > 0 ==> t[HEADER..HEADER + |record|] == record
    ensures IdentityPresent(t) <==> h >= 6
    ensures ReadRecord(t) ==
            if h == 8 || (h == 7 && Crc16(record) / 256 == 0xFF) || (h == 6 && Crc16(record) == 0xFFFF)
            then Some(record) else None
  {
    hide Crc16, HeaderFor;
    HeaderBytes(record);
    var f := HeaderFor(record);
    assert f[0] == f[..4][0] && f[1] == f[..4][1] && f[2] == f[..4][2] && f[3] == f[..4][3];
    if h < 4 {
      assert t[..4][3] == 0xFF;
    } else {
      assert t[..4] == MAGIC;
      assert h < 6 ==> t[5] == 0xFF;
    }
  }

  /** Bytes 5 to 7 of the header, the last to be programmed, are still erased. */
  predicate Unsealed(cells: seq<byte>) {
    |cells| == CHIP_SIZE && cells[5] == 0xFF && cells[6] == 0xFF && cells[7] == 0xFF
  }

  /** The same on a chip on which stores were cut before: up to five header bytes leave it
      as unprovisioned as it was, and from six on it loads nothing or exactly that record. */
  lemma TornAgain(cells: seq<byte>, record: seq<byte>, n: nat)
    requires Unsealed(cells) && RC_MIN <= |record| <= RC_MAX && n <= |record| + HEADER
    ensures var t := Torn(cells, record, n);
            && (n <= |record| + 5 ==> Unsealed(t) && !IdentityPresent(t) && ReadRecord(t).None?)
            && (n >= |record| + 6 ==> IdentityPresent(t) && ReadRecord(t) == if Seals(record, n) then Some(record) else None)
  {
    hide Crc16, Torn, HeaderFor, ReadRecord, IdentityPresent;
    var t := Torn(cells, record, n);
    TornCells(cells, record, n);
    HeaderBytes(record);
    var f := HeaderFor(record);
    assert forall i :: 0 <= i < 4 ==> f[i] == f[..4][i];
    if n <= |record| + 5 {
      UnsealedReadsNothing(t);
    } else {
      NewHeader(t, record, FromLe16(t[6], t[7]));
      HeaderIsThere(t, record);
    }
  }

  /** The header bytes that made it complete the record's checksum. */
  predicate Seals(record: seq<byte>, n: nat) {
    var crc := Crc16(record);
    n == |record| + 8 || (n == |record| + 7 && crc / 256 == 0xFF) || (n == |record| + 6 && crc == 0xFFFF)
  }

  lemma UnsealedReadsNothing(cells: seq<byte>)
    requires Unsealed(cells)
    ensures !IdentityPresent(cells) && ReadRecord(cells).None?
  {
    hide Crc16;
  }

  lemma HeaderIsThere(t: seq<byte>, record: seq<byte>)
    requires |t| == CHIP_SIZE && RC_MIN <= |record| <= RC_MAX
    requires (forall i :: 0 <= i < 4 ==> t[i] == MAGIC[i]) && FromLe16(t[4], t[5]) == |record|
    ensures IdentityPresent(t)
  {
    hide FromLe16;
    assert t[..4] == MAGIC;
  }

  /** A store with a working guard read that could program `budget` bytes. */
  datatype Attempt = Attempt(record: seq<byte>, budget: nat)

  function AfterStores(cells: seq<byte>, stores: seq<Attempt>): (r: seq<byte>)
    requires |cells| == CHIP_SIZE
    ensures |r| == CHIP_SIZE
    decreases |stores|
  {
    if stores == [] then cells
    else
      var before := AfterStores(cells, stores[..|stores| - 1]);
      var a := stores[|stores| - 1];
      Written(before, true, a.record, true, a.budget)
  }

  /** The store that set the sixth header byte: it was accepted on an unsealed chip, its
      cells are still the ones there, and the next boot loads its record or nothing. */
  predicate Sealed(cells: seq<byte>, stores: seq<Attempt>, k: nat)
    requires |cells| == CHIP_SIZE
  {
    && k < |stores| && RC_MIN <= |stores[k].record| <= RC_MAX && stores[k].budget >= |stores[k].record| + 6
    && var n := Min(stores[k].budget, |stores[k].record| + HEADER);
       && Unsealed(AfterStores(cells, stores[..k]))
       && AfterStores(cells, stores) == Torn(AfterStores(cells, stores[..k]), stores[k].record, n)
       && IdentityPresent(AfterStores(cells, stores))
       && ReadRecord(AfterStores(cells, stores)) == if Seals(stores[k].record, n) then Some(stores[k].record) else None
  }

  /** Over any run of stores, each cut anywhere: the chip loads no identity and takes the
      next store, or one of them sealed it, no later one changes it, and only that record
      can ever be loaded. */
  lemma {:induction false} RunOfStores(cells: seq<byte>, stores: seq<Attempt>)
    requires Unsealed(cells)
    ensures var c := AfterStores(cells, stores);
            || (Unsealed(c) && !IdentityPresent(c) && ReadRecord(c).None?)
            || exists k: nat :: Sealed(cells, stores, k)
    decreases |stores|
  {
    hide Sealed, ReadRecord, IdentityPresent, Torn, Deserialise, Seals;
    if stores == [] {
      UnsealedReadsNothing(cells);
    } else {
      var front := stores[..|stores| - 1];
      RunOfStores(cells, front);
      if k: nat :| Sealed(cells, front, k) {
        StaysSealed(cells, stores, k);
      } else {
        OneStore(cells, stores);
      }
    }
  }

  lemma StaysSealed(cells: seq<byte>, stores: seq<Attempt>, k: nat)
    requires |cells| == CHIP_SIZE && stores != [] && Sealed(cells, stores[..|stores| - 1], k)
    ensures Sealed(cells, stores, k)
  {
    hide Unsealed, ReadRecord, IdentityPresent, Torn, Deserialise, Seals;
    assert stores[..|stores| - 1][..k] == stores[..k];
  }

  lemma OneStore(cells: seq<byte>, stores: seq<Attempt>)
    requires |cells| == CHIP_SIZE && stores != [] && Unsealed(AfterStores(cells, stores[..|stores| - 1]))
    ensures var c := AfterStores(cells, stores);
            || (Unsealed(c) && !IdentityPresent(c) && ReadRecord(c).None?)
            || Sealed(cells, stores, |stores| - 1)
  {
    hide Unsealed, ReadRecord, IdentityPresent, Torn, Written, Seals, AfterStores;
    var a := stores[|stores| - 1];
    LastStore(cells, stores);
    WrittenOnce(AfterStores(cells, stores[..|stores| - 1]), a.record, a.budget);
  }

  lemma LastStore(cells: seq<byte>, stores: seq<Attempt>)
    requires |cells| == CHIP_SIZE && stores != []
    ensures var a := stores[|stores| - 1];
            AfterStores(cells, stores) == Written(AfterStores(cells, stores[..|stores| - 1]), true, a.record, true, a.budget)
  {
    hide Written;
  }

  /** One store on an unsealed chip leaves it so, or seals it. */
  lemma WrittenOnce(before: seq<byte>, record: seq<byte>, budget: nat)
    requires |before| == CHIP_SIZE && Unsealed(before)
    ensures var c := Written(before, true, record, true, budget);
            || (Unsealed(c) && !IdentityPresent(c) && ReadRecord(c).None?)
            || (RC_MIN <= |record| <= RC_MAX && budget >= |record| + 6
                && var n := Min(budget, |record| + HEADER);
                   c == Torn(before, record, n) && IdentityPresent(c)
                   && ReadRecord(c) == if Seals(record, n) then Some(record) else None)
  {
    hide Unsealed, ReadRecord, IdentityPresent, Torn, Accepted, Seals;
    UnsealedReadsNothing(before);
    if Accepted(before, true, record, true) {
      AcceptedLength(before, record);
      TornAgain(before, record, Min(budget, |record| + HEADER));
    }
  }

  lemma AcceptedLength(cells: seq<byte>, record: seq<byte>)
    requires |cells| == CHIP_SIZE && Accepted(cells, true, record, true)
    ensures RC_MIN <= |record| <= RC_MAX
  {
  }

  lemma ErasedIsUnsealed(cells: seq<byte>)
    requires Erased(cells)
    ensures Unsealed(cells)
  {
  }

  /** A cut the firmware cannot repair: the chip counts as provisioned, so every later
      store is refused, but no boot loads an identity. It happens exactly when six or seven
      header bytes were programmed and erased cells do not happen to complete the checksum. */
  lemma StrandedIff(cells: seq<byte>, record: seq<byte>, n: nat)
    requires Erased(cells) && RC_MIN <= |record| <= RC_MAX && n <= |record| + HEADER
    ensures var t := Torn(cells, record, n);
            (IdentityPresent(t) && ReadRecord(t).None?) <==>
            (n == |record| + 6 && Crc16(record) != 0xFFFF) || (n == |record| + 7 && Crc16(record) / 256 != 0xFF)
  {
    TornStore(cells, record, n);
    hide Crc16, Torn, ReadRecord, IdentityPresent;
  }

  /** A finished store reads back, whatever the chip held before. */
  lemma WholeStore(cells: seq<byte>, record: seq<byte>)
    requires |cells| == CHIP_SIZE && RC_MIN <= |record| <= RC_MAX
    ensures ReadRecord(Torn(cells, record, |record| + HEADER)) == Some(record)
  {
    hide Crc16, Torn, HeaderFor;
    TornCells(cells, record, |record| + HEADER);
    TornHeader(Torn(cells, record, |record| + HEADER), record, HEADER);
  }

  datatype Outcome = Stored | NotFound | Corrupt | Exists | Internal

  /** Would a store of this record get as far as writing? */
  predicate Accepted(cells: seq<byte>, fitted: bool, record: seq<byte>, guardReads: bool)
    requires |cells| == CHIP_SIZE
  {
    && RC_MIN <= |record| <= RC_MAX && fitted && Deserialise(record).Some?
    && !(guardReads && IdentityPresent(cells))
  }

  /** The chip after a store that can program at most `budget` bytes. */
  function Written(cells: seq<byte>, fitted: bool, record: seq<byte>, guardReads: bool, budget: nat): (r: seq<byte>)
    requires |cells| == CHIP_SIZE
    ensures |r| == CHIP_SIZE
  {
    if Accepted(cells, fitted, record, guardReads) then Torn(cells, record, Min(budget, |record| + HEADER)) else cells
  }

  /** What a store reports: the refusals in order, then whether it could write and check. */
  function StoreResult(cells: seq<byte>, fitted: bool, record: seq<byte>, guardReads: bool, budget: nat,
                       verifyReads: bool): (r: Outcome)
    requires |cells| == CHIP_SIZE
    ensures r.Stored? <==> Accepted(cells, fitted, record, guardReads) && budget >= |record| + HEADER && verifyReads
    ensures r.NotFound? <==> RC_MIN <= |record| <= RC_MAX && !fitted
    ensures r.Exists? <==> RC_MIN <= |record| <= RC_MAX && fitted && Deserialise(record).Some? && guardReads && IdentityPresent(cells)
    ensures r.Corrupt? <==> |record| > 0 && (!(RC_MIN <= |record| <= RC_MAX) || (fitted && Deserialise(record).None?))
  {
    if |record| == 0 then Internal
    else if |record| < RC_MIN || |record| > RC_MAX then Corrupt
    else if !fitted then NotFound
    else if Deserialise(record).None? then Corrupt
    else if guardReads && IdentityPresent(cells) then Exists
    else if budget < |record| + HEADER || !verifyReads then Internal
    else Stored
  }

  /** crc16_ccitt, as the number that goes into the header. */
  method Checksum(data: seq<byte>) returns (crc: nat)
    ensures crc == Crc16(data)
  {
    var reg := LrvCrc16(data);
    crc := reg as int;
  }

  lemma HeaderSlice(cells: seq<byte>, h: seq<byte>)
    requires |cells| == CHIP_SIZE && h == cells[..HEADER]
    ensures h[..4] == cells[..4] && h[4] == cells[4] && h[5] == cells[5] && h[6] == cells[6] && h[7] == cells[7]
  {
  }

  /** The reading with the header at hand. */
  lemma ReadsFrom(cells: seq<byte>, h: seq<byte>)
    requires |cells| == CHIP_SIZE && h == cells[..HEADER]
    ensures ReadRecord(cells) ==
            var len := FromLe16(h[4], h[5]);
            if h[..4] != MAGIC || len < RC_MIN || len > RC_MAX then None
            else if Crc16(cells[HEADER..HEADER + len]) == FromLe16(h[6], h[7]) then Some(cells[HEADER..HEADER + len])
            else None
  {
    hide Crc16, FromLe16;
    HeaderSlice(cells, h);
  }

  class Identity {
    const chip: array<byte>
    const fitted: bool
    var data: Option<Data>

    ghost predicate Valid()
      reads this
    {
      chip.Length == CHIP_SIZE
    }

    /** jpp_lrv_init; the reads of header and record may fail. */
    constructor (eeprom: array<byte>, there: bool, headerReads: bool, recordReads: bool)
      requires eeprom.Length == CHIP_SIZE
      ensures Valid() && chip == eeprom && fitted == there
      ensures data == if there && headerReads && recordReads && ReadRecord(eeprom[..]).Some? then Deserialise(ReadRecord(eeprom[..]).value) else None
    {
      chip := eeprom;
      fitted := there;
      data := None;
      new;
      if there {
        var record := ReadBack(headerReads, recordReads);
        if record.Some? {
          data := Deserialise(record.value);
        }
      }
    }

    /** identity_read_record */
    method ReadBack(headerReads: bool, recordReads: bool) returns (r: Option<seq<byte>>)
      requires Valid()
      ensures r == if headerReads && recordReads then ReadRecord(chip[..]) else None
    {
      hide Crc16, ReadRecord, FromLe16;
      if !headerReads {
        return None;
      }
      var header := chip[..HEADER];
      assert header == chip[..][..HEADER];
      ReadsFrom(chip[..], header);
      if header[..4] != MAGIC {
        return None;
      }
      var len := FromLe16(header[4], header[5]);
      var stored := FromLe16(header[6], header[7]);
      if len < RC_MIN || len > RC_MAX {
        return None;
      }
      if !recordReads {
        return None;
      }
      var record := chip[HEADER..HEADER + len];
      assert record == chip[..][HEADER..HEADER + len];
      var crc := Checksum(record);
      if crc != stored {
        return None;
      }
      r := Some(record);
    }

    /** write_page: the chip keeps the address within its page, so a write that ran over the
        end would come back at the start. Stops after `budget` bytes. */
    method WritePage(addr: nat, bytes: seq<byte>, budget: nat) returns (done: nat)
      requires Valid() && addr % PAGE + |bytes| <= PAGE && addr + |bytes| <= CHIP_SIZE
      modifies chip
      ensures done == Min(budget, |bytes|) && chip[..] == Patch(old(chip[..]), addr, bytes[..done])
    {
      done := 0;
      while done < |bytes| && done < budget
        invariant done <= |bytes| && done <= budget
        invariant chip[..] == Patch(old(chip[..]), addr, bytes[..done])
      {
        var cell := addr / PAGE * PAGE + (addr % PAGE + done) % PAGE;
        assert cell == addr + done;
        PatchOneMore(old(chip[..]), addr, bytes, done);
        chip[cell] := bytes[done];
        done := done + 1;
      }
    }

    /** jpp_eeprom_write: page by page. */
    method Write(addr: nat, bytes: seq<byte>, budget: nat) returns (done: nat)
      requires Valid() && addr + |bytes| <= CHIP_SIZE
      modifies chip
      ensures done == Min(budget, |bytes|) && chip[..] == Patch(old(chip[..]), addr, bytes[..done])
    {
      hide Patch;
      done := 0;
      PatchNothing(chip[..], addr, bytes);
      while done < |bytes|
        invariant done <= |bytes| && done <= budget
        invariant chip[..] == Patch(old(chip[..]), addr, bytes[..done])
      {
        var chunk := Min(|bytes| - done, PAGE - (addr + done) % PAGE);
        var some := WritePage(addr + done, bytes[done..done + chunk], budget - done);
        PatchTwice(old(chip[..]), addr, bytes, done, chunk, some);
        done := done + some;
        if some < chunk {
          return;
        }
      }
    }

    /** jpp_lrv_store_identity: `guardReads` and `verifyReads` say whether those two reads of
        the chip succeed, `budget` how many bytes are programmed before a write fails. */
    method Store(record: seq<byte>, guardReads: bool, budget: nat, verifyReads: bool) returns (r: Outcome)
      requires Valid()
      modifies this`data, chip
      ensures chip[..] == Written(old(chip[..]), fitted, record, guardReads, budget)
      ensures data == if r.Stored? then Deserialise(record) else old(data)
      ensures r == StoreResult(old(chip[..]), fitted, record, guardReads, budget, verifyReads)
    {
      if |record| == 0 {
        return Internal;
      }
      if |record| < RC_MIN || |record| > RC_MAX {
        return Corrupt;
      }
      if !fitted {
        return NotFound;
      }
      var parsed := Deserialise(record);
      hide Deserialise, Crc16, ReadRecord;
      if parsed.None? {
        return Corrupt;
      }
      if guardReads {
        var there := Guard();
        if there {
          return Exists;
        }
      }
      var ok := WriteIdentity(record, budget, verifyReads);
      hide Torn;
      if !ok {
        return Internal;
      }
      data := parsed;
      r := Stored;
    }

    /** Record first, header last, then the read-back. */
    method WriteIdentity(record: seq<byte>, budget: nat, verifyReads: bool) returns (ok: bool)
      requires Valid() && RC_MIN <= |record| <= RC_MAX
      modifies chip
      ensures chip[..] == Torn(old(chip[..]), record, Min(budget, |record| + HEADER))
      ensures ok <==> budget >= |record| + HEADER && verifyReads
    {
      hide Crc16, ReadRecord, Patch;
      var crc := Checksum(record);
      var header := MAGIC + Le16(|record|) + Le16(crc);
      ghost var was := chip[..];
      var n := Write(HEADER, record, budget);
      if n < |record| {
        return false;
      }
      assert record[..n] == record;
      var h := Write(0, header, budget - n);
      TornIs(was, record, n + h);
      if h < |header| {
        return false;
      }
      WholeStore(was, record);
      hide Torn;
      var back := ReadBack(verifyReads, verifyReads);
      ok := back == Some(record);
    }

    /** identity_present */
    method Guard() returns (there: bool)
      requires Valid()
      ensures there == IdentityPresent(chip[..])
    {
      var header := chip[..HEADER];
      HeaderSlice(chip[..], header);
      if header[..4] != MAGIC {
        return false;
      }
      var len := FromLe16(header[4], header[5]);
      there := len >= RC_MIN && len <= RC_MAX;
    }
  }

  lemma PatchOneMore(cells: seq<byte>, at: nat, data: seq<byte>, n: nat)
    requires at + |data| <= |cells| && n < |data|
    ensures Patch(cells, at, data[..n])[at + n := data[n]] == Patch(cells, at, data[..n + 1])
  {
  }

  lemma PatchNothing(cells: seq<byte>, at: nat, data: seq<byte>)
    requires at <= |cells|
    ensures Patch(cells, at, data[..0]) == cells
  {
  }

  /** The first m bytes of the next chunk behind the n bytes already there. */
  lemma PatchTwice(cells: seq<byte>, at: nat, data: seq<byte>, n: nat, chunk: nat, m: nat)
    requires at + |data| <= |cells| && n + chunk <= |data| && m <= chunk
    ensures Patch(Patch(cells, at, data[..n]), at + n, data[n..n + chunk][..m]) == Patch(cells, at, data[..n + m])
  {
    assert data[n..n + chunk][..m] == data[n..n + m];
    assert data[..n + m] == data[..n] + data[n..n + m];
  }

  lemma TornIs(cells: seq<byte>, record: seq<byte>, n: nat)
    requires |cells| == CHIP_SIZE && RC_MIN <= |record| <= RC_MAX && |record| <= n <= |record| + HEADER
    ensures Torn(cells, record, n) == Patch(Patch(cells, HEADER, record), 0, HeaderFor(record)[..n - |record|])
  {
    if n == |record| {
      var p := Patch(cells, HEADER, record);
      assert record[..n] == record;
      assert Patch(p, 0, []) == p;
    }
  }

  /** What a finished store leaves: the next boot loads that record, and from then on a
      store changes the chip exactly when its guard could not be read and it brings a
      record other than the one there. */
  lemma WriteOnceIff(cells: seq<byte>, record: seq<byte>, other: seq<byte>, guardReads: bool, budget: nat)
    requires |cells| == CHIP_SIZE && RC_MIN <= |record| <= RC_MAX
    requires RC_MIN <= |other| <= RC_MAX && Deserialise(other).Some? && budget >= |other| + HEADER
    ensures var after := Torn(cells, record, |record| + HEADER);
            && ReadRecord(after) == Some(record)
            && (Written(after, true, other, guardReads, budget) != after <==> !guardReads && other != record)
  {
    hide Torn, Deserialise, Crc16, ReadRecord;
    var after := Torn(cells, record, |record| + HEADER);
    WholeStore(cells, record);
    ReadableIsPresent(after);
    if !guardReads {
      WholeStore(after, other);
      if other == record {
        SameAgain(after, record);
      }
    }
  }

  lemma ReadableIsPresent(cells: seq<byte>)
    requires |cells| == CHIP_SIZE && ReadRecord(cells).Some?
    ensures IdentityPresent(cells)
  {
  }

  lemma SameAgain(cells: seq<byte>, record: seq<byte>)
    requires |cells| == CHIP_SIZE && RC_MIN <= |record| <= RC_MAX && ReadRecord(cells) == Some(record)
    ensures Torn(cells, record, |record| + HEADER) == cells
  {
    hide Crc16;
    TornIs(cells, record, |record| + HEADER);
    HeaderBytes(record);
    assert Patch(cells, HEADER, record) == cells;
    var f := HeaderFor(record);
    assert f[..4] == cells[..4];
    assert f == f[..4] + [f[4], f[5], f[6], f[7]];
    assert cells[..8] == cells[..4] + [cells[4], cells[5], cells[6], cells[7]];
    assert f[..8] == f;
    hide HeaderFor;
    assert Patch(cells, 0, f) == cells;
  }

  /** The record bytes left when a store of `other` over a stored `record` is cut after n
      bytes, read with the old length. */
  function Mixture(record: seq<byte>, other: seq<byte>, n: nat): (m: seq<byte>)
    ensures |m| == |record|
  {
    var k := Min(Min(n, |other|), |record|);
    other[..k] + record[k..]
  }

  /** A store whose guard read failed, cut short over an existing identity. As long as the
      header still says what it said, the next boot loads a mixture of the two records
      exactly when the mixture has the old checksum, and nothing otherwise. */
  lemma CutOverwriteIff(cells: seq<byte>, record: seq<byte>, other: seq<byte>, n: nat)
    requires |cells| == CHIP_SIZE && RC_MIN <= |record| <= RC_MAX && RC_MIN <= |other| <= RC_MAX
    requires n <= |other| + if |other| == |record| then 6 else 4
    ensures var cut := Torn(Torn(cells, record, |record| + HEADER), other, n);
            ReadRecord(cut) == if Crc16(Mixture(record, other, n)) == Crc16(record)
                               then Some(Mixture(record, other, n)) else None
  {
    hide Crc16, Torn, HeaderFor, ReadRecord, Mixture;
    var before := Torn(cells, record, |record| + HEADER);
    TornCells(cells, record, |record| + HEADER);
    TornCells(before, other, n);
    HeaderBytes(record);
    HeaderBytes(other);
    var cut := Torn(before, other, n);
    MixtureIsThere(before, record, other, n);
    SameHeader(before, cut, record, other, if n <= |other| then 0 else n - |other|);
    OldHeader(cut, record, Mixture(record, other, n));
  }

  lemma SameHeader(before: seq<byte>, cut: seq<byte>, record: seq<byte>, other: seq<byte>, h: nat)
    requires |before| == CHIP_SIZE && |cut| == CHIP_SIZE && |record| <= RC_MAX && |other| <= RC_MAX
    requires h <= if |other| == |record| then 6 else 4
    requires forall i :: 0 <= i < HEADER ==> before[i] == HeaderFor(record)[i]
    requires forall i :: 0 <= i < HEADER ==> cut[i] == if i < h then HeaderFor(other)[i] else before[i]
    ensures forall i :: 0 <= i < HEADER ==> cut[i] == HeaderFor(record)[i]
  {
    hide Crc16;
    HeaderBytes(record);
    HeaderBytes(other);
    var f, g := HeaderFor(record), HeaderFor(other);
    hide HeaderFor;
    assert forall i :: 0 <= i < 4 ==> f[i] == f[..4][i] && g[i] == g[..4][i];
  }

  lemma MixtureIsThere(before: seq<byte>, record: seq<byte>, other: seq<byte>, n: nat)
    requires |before| == CHIP_SIZE && RC_MIN <= |record| <= RC_MAX && |other| <= RC_MAX && n <= |other| + HEADER
    requires before[HEADER..HEADER + |record|] == record
    ensures Torn(before, other, n)[HEADER..HEADER + |record|] == Mixture(record, other, n)
  {
    hide Torn;
    var t, m := Torn(before, other, n), Mixture(record, other, n);
    forall j | 0 <= j < |record|
      ensures t[HEADER..HEADER + |record|][j] == m[j]
    {
      TornAt(before, other, n, HEADER + j);
      assert before[HEADER..HEADER + |record|][j] == before[HEADER + j];
    }
  }

  lemma TornAt(cells: seq<byte>, record: seq<byte>, n: nat, i: nat)
    requires |cells| == CHIP_SIZE && |record| <= RC_MAX && n <= |record| + HEADER && HEADER <= i < CHIP_SIZE
    ensures Torn(cells, record, n)[i] == if i - HEADER < Min(n, |record|) then record[i - HEADER] else cells[i]
  {
    hide HeaderFor, Patch;
    if n <= |record| {
      PatchAt(cells, HEADER, record[..n], i);
    } else {
      PatchAt(cells, HEADER, record, i);
      PatchAt(Patch(cells, HEADER, record), 0, HeaderFor(record)[..n - |record|], i);
    }
  }

  lemma PatchAt(cells: seq<byte>, at: nat, data: seq<byte>, i: nat)
    requires at + |data| <= |cells| && i < |cells|
    ensures Patch(cells, at, data)[i] == if at <= i < at + |data| then data[i - at] else cells[i]
  {
  }

  lemma OldHeader(t: seq<byte>, record: seq<byte>, body: seq<byte>)
    requires |t| == CHIP_SIZE && RC_MIN <= |record| <= RC_MAX && |body| == |record|
    requires forall i :: 0 <= i < HEADER ==> t[i] == HeaderFor(record)[i]
    requires t[HEADER..HEADER + |record|] == body
    ensures ReadRecord(t) == if Crc16(body) == Crc16(record) then Some(body) else None
  {
    hide Crc16;
    HeaderBytes(record);
    var f := HeaderFor(record);
    hide HeaderFor;
    assert forall i :: 0 <= i < 4 ==> f[i] == f[..4][i];
    assert t[..4] == f[..4];
  }

  /** The checksum in the header once h bytes of the new one are there. */
  function MixedCrc(record: seq<byte>, other: seq<byte>, h: nat): nat {
    (if h > 6 then Crc16(other) else Crc16(record)) % 256 + (if h > 7 then Crc16(other) else Crc16(record)) / 256 * 256
  }

  /** Cut later, with the low byte of the new length in place or more: the next boot loads
      the new record exactly when its length is complete and the checksum bytes in the
      header happen to be its own, and nothing otherwise. A length mixed of two that differ
      in the high byte is never one a record may have. */
  lemma CutHeaderIff(cells: seq<byte>, record: seq<byte>, other: seq<byte>, h: nat)
    requires |cells| == CHIP_SIZE && RC_MIN <= |record| <= RC_MAX && RC_MIN <= |other| <= RC_MAX
    requires 5 <= h <= HEADER
    ensures var cut := Torn(Torn(cells, record, |record| + HEADER), other, |other| + h);
            ReadRecord(cut) == if (h == 5 ==> |other| / 256 == |record| / 256) && Crc16(other) == MixedCrc(record, other, h)
                               then Some(other) else None
  {
    hide Crc16, Torn, HeaderFor, ReadRecord;
    var before := Torn(cells, record, |record| + HEADER);
    TornCells(cells, record, |record| + HEADER);
    TornCells(before, other, |other| + h);
    HeaderBytes(record);
    HeaderBytes(other);
    var f, g := HeaderFor(record), HeaderFor(other);
    assert forall i :: 0 <= i < 4 ==> f[i] == f[..4][i] && g[i] == g[..4][i];
    var cut := Torn(before, other, |other| + h);
    if h == 5 && |other| / 256 != |record| / 256 {
      MixedLength(cut, |record|, |other|);
    } else {
      NewHeader(cut, other, MixedCrc(record, other, h));
    }
  }

  lemma MixedLength(t: seq<byte>, m: nat, n: nat)
    requires |t| == CHIP_SIZE && RC_MIN <= m <= RC_MAX && RC_MIN <= n <= RC_MAX && m / 256 != n / 256
    requires t[4] == n % 256 && t[5] == m / 256
    ensures ReadRecord(t).None?
  {
    hide Crc16;
  }

  lemma NewHeader(t: seq<byte>, other: seq<byte>, crc: nat)
    requires |t| == CHIP_SIZE && RC_MIN <= |other| <= RC_MAX && t[HEADER..HEADER + |other|] == other
    requires forall i :: 0 <= i < 4 ==> t[i] == MAGIC[i]
    requires FromLe16(t[4], t[5]) == |other| && FromLe16(t[6], t[7]) == crc
    ensures ReadRecord(t) == if Crc16(other) == crc then Some(other) else None
  {
    hide Crc16, FromLe16;
    assert t[..4] == MAGIC;
  }

  /** The checksum is no accident as long as the cut leaves only two adjacent bytes
      different from the old record: then nothing is loaded. */
  lemma NearCutLoadsNothing(cells: seq<byte>, record: seq<byte>, other: seq<byte>, n: nat,
                            pre: seq<byte>, x: seq<byte>, y: seq<byte>, post: seq<byte>)
    requires |cells| == CHIP_SIZE && RC_MIN <= |record| <= RC_MAX && RC_MIN <= |other| <= RC_MAX && n <= |other|
    requires record == pre + x + post && Mixture(record, other, n) == pre + y + post && |x| == |y| <= 2 && x != y
    ensures ReadRecord(Torn(Torn(cells, record, |record| + HEADER), other, n)).None?
  {
    hide Crc16, Torn, ReadRecord, Mixture;
    CutOverwriteIff(cells, record, other, n);
    CrcStrength.BurstDetected16(pre, x, y, post);
  }
}
