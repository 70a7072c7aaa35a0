/** MeetApp advertisements: built by one side, found by the other among other AD structures. */
module MeetAd {
  import opened Bytes

  const MANUFACTURER: byte := 0xFF
  const COMPANY_LO: byte := 0x50
  const COMPANY_HI: byte := 0x4A
  const NICK_MAX: nat := 16

  datatype Ad = Ad(kind: byte, nonce: seq<byte>, nick: seq<byte>)

  /** meetapp_ble_build_ad: length, 0xFF, company, kind, nonce, nickname length, nickname. */
  function Build(kind: byte, nonce: seq<byte>, nickname: seq<byte>): seq<byte> {
    var nk := nickname[..Min(|nickname|, NICK_MAX)];
    [13 + |nk|, MANUFACTURER, COMPANY_LO, COMPANY_HI, kind] + nonce + [|nk|] + nk
  }

  /** The structure at i is a MeetApp record as the parser recognises one. */
  predicate IsRecord(ad: seq<byte>, i: nat)
    requires i < |ad| && i + 1 + ad[i] <= |ad|
  {
    ad[i] >= 12 && ad[i + 1] == MANUFACTURER && ad[i + 2] == COMPANY_LO && ad[i + 3] == COMPANY_HI
  }

  /** The nickname the parser copies: its length and its bytes may lie behind the end. */
  function Nickname(ad: seq<byte>, after: seq<byte>, k: nat): seq<byte>
    requires k + 13 <= |ad| && |after| >= NICK_MAX + 1
  {
    var m := ad + after;
    CStr(m[k + 14..k + 14 + Min(m[k + 13], NICK_MAX)])
  }

  /** Scan from structure to structure. `after` is the memory behind the advertisement:
      the nickname copy trusts the nickname length byte and may run into it. */
  function Parse(ad: seq<byte>, after: seq<byte>, i: nat): Option<Ad>
    requires |after| >= NICK_MAX + 1
    decreases |ad| - i
  {
    if i >= |ad| then None
    else if ad[i] == 0 || i + 1 + ad[i] > |ad| then None
    else if IsRecord(ad, i) then Some(Ad(ad[i + 4], ad[i + 5..i + 13], Nickname(ad, after, i)))
    else Parse(ad, after, i + 1 + ad[i])
  }

  /** parse_meetapp_ad. */
  method ParseAd(ad: seq<byte>, after: seq<byte>) returns (r: Option<Ad>)
    requires |after| >= NICK_MAX + 1
    ensures r == Parse(ad, after, 0)
  {
    var i: nat := 0;
    while i < |ad|
      invariant Parse(ad, after, 0) == Parse(ad, after, i)
      decreases |ad| - i
    {
      var len := ad[i];
      if len == 0 || i + 1 + len > |ad| {
        break;
      }
      var kind := ad[i + 1];
      if kind == MANUFACTURER && len >= 12 {
        if ad[i + 2] == COMPANY_LO && ad[i + 3] == COMPANY_HI {
          var m := ad + after;
          var nkLen := m[i + 13];
          if nkLen > NICK_MAX {
            nkLen := NICK_MAX;
          }
          return Some(Ad(ad[i + 4], ad[i + 5..i + 13], CStr(m[i + 14..i + 14 + nkLen])));
        }
      }
      i := i + 1 + len;
    }
    r := None;
  }

  /** A well-formed structure that is not a MeetApp record. */
  predicate Foreign(s: seq<byte>) {
    && |s| >= 2 && s[0] == |s| - 1
    && !(s[0] >= 12 && s[1] == MANUFACTURER && s[2] == COMPANY_LO && s[3] == COMPANY_HI)
  }

  function Join(structures: seq<seq<byte>>): seq<byte> {
    if structures == [] then [] else structures[0] + Join(structures[1..])
  }

  /** One foreign structure is stepped over. */
  lemma ForeignStep(ad: seq<byte>, after: seq<byte>, i: nat, s: seq<byte>)
    requires Foreign(s) && |after| >= NICK_MAX + 1 && i + |s| <= |ad| && ad[i..i + |s|] == s
    ensures Parse(ad, after, i) == Parse(ad, after, i + |s|)
  {
    var v := ad[i..i + |s|];
    assert ad[i] == v[0] && ad[i + 1] == v[1] && (|s| > 3 ==> ad[i + 2] == v[2] && ad[i + 3] == v[3]);
    hide CStr;
  }

  lemma Middle(pre: seq<byte>, s: seq<byte>, post: seq<byte>)
    ensures (pre + s + post)[|pre|..|pre| + |s|] == s
  {
  }

  lemma {:induction false} ForeignSkipped(pre: seq<byte>, structures: seq<seq<byte>>, rest: seq<byte>, after: seq<byte>)
    requires forall k :: 0 <= k < |structures| ==> Foreign(structures[k])
    requires |after| >= NICK_MAX + 1
    ensures var ad := pre + Join(structures) + rest;
            Parse(ad, after, |pre|) == Parse(ad, after, |pre| + |Join(structures)|)
    decreases |structures|
  {
    hide Parse, Foreign;
    if structures != [] {
      var s, more := structures[0], Join(structures[1..]);
      assert pre + (s + more) + rest == (pre + s) + more + rest == pre + s + (more + rest);
      Middle(pre, s, more + rest);
      ForeignStep(pre + s + (more + rest), after, |pre|, s);
      ForeignSkipped(pre + s, structures[1..], rest, after);
    }
  }

  lemma RecordParsed(ad: seq<byte>, after: seq<byte>, i: nat, kind: byte, nonce: seq<byte>, nick: seq<byte>)
    requires |nonce| == 8 && |nick| <= NICK_MAX && 0 !in nick && |after| >= NICK_MAX + 1
    requires i + 14 + |nick| <= |ad| && ad[i..i + 14 + |nick|] == Build(kind, nonce, nick)
    ensures Parse(ad, after, i) == Some(Ad(kind, nonce, nick))
  {
    hide CStr;
    var n := |nick|;
    assert nick[..n] == nick;
    var b := ad[i..i + 14 + n];
    Inner(ad, i, 14 + n, 5, 13);
    Inner(ad, i, 14 + n, 14, 14 + n);
    assert b[5..13] == nonce && b[14..14 + n] == nick && b[13] == n;
    assert ad[i] == b[0] && ad[i + 1] == b[1] && ad[i + 2] == b[2] && ad[i + 3] == b[3] && ad[i + 4] == b[4];
    assert ad[i + 13] == b[13];
    FieldInside(ad, after, i + 14, n);
    CStrWhole(nick);
  }

  /** Any structure of at least 12 bytes that opens with type and company is taken, also one
      too short for a nickname. */
  lemma RecordTaken(ad: seq<byte>, after: seq<byte>, i: nat)
    requires |after| >= NICK_MAX + 1 && i + 5 <= |ad| && 12 <= ad[i] && i + 1 + ad[i] <= |ad|
    requires ad[i + 1] == 0xFF && ad[i + 2] == 0x50 && ad[i + 3] == 0x4A
    ensures Parse(ad, after, i) == Some(Ad(ad[i + 4], ad[i + 5..i + 13], Nickname(ad, after, i)))
  {
    hide Nickname;
  }

  lemma Inner(s: seq<byte>, i: nat, n: nat, a: nat, b: nat)
    requires i + n <= |s| && a <= b <= n
    ensures s[i..i + n][a..b] == s[i + a..i + b]
  {
    var x, y := s[i..i + n][a..b], s[i + a..i + b];
    assert forall j :: 0 <= j < |y| ==> x[j] == y[j];
  }

  /** The session nonce, the kind and an in-bounds nickname survive building and parsing,
      after any well-formed foreign structures and whatever follows. */
  lemma AdRoundTrip(structures: seq<seq<byte>>, kind: byte, nonce: seq<byte>, nickname: seq<byte>,
                    rest: seq<byte>, after: seq<byte>)
    requires forall k :: 0 <= k < |structures| ==> Foreign(structures[k])
    requires |nonce| == 8 && |nickname| <= NICK_MAX && 0 !in nickname && |after| >= NICK_MAX + 1
    ensures Parse(Join(structures) + Build(kind, nonce, nickname) + rest, after, 0) == Some(Ad(kind, nonce, nickname))
  {
    hide Build, Parse, Foreign, Join;
    var b := Build(kind, nonce, nickname);
    var j := Join(structures);
    BuildLength(kind, nonce, nickname);
    assert j + b + rest == [] + j + (b + rest);
    ForeignSkipped([], structures, b + rest, after);
    Middle(j, b, rest);
    RecordParsed(j + b + rest, after, |j|, kind, nonce, nickname);
  }

  /** A longer nickname is cut to its first 16 bytes. */
  lemma BuildCuts(kind: byte, nonce: seq<byte>, nickname: seq<byte>)
    requires |nickname| > 16
    ensures Build(kind, nonce, nickname) == Build(kind, nonce, nickname[..16])
  {
    assert nickname[..16][..16] == nickname[..16];
  }

  lemma BuildLength(kind: byte, nonce: seq<byte>, nickname: seq<byte>)
    requires |nonce| == 8 && |nickname| <= NICK_MAX
    ensures var b, n := Build(kind, nonce, nickname), |nickname|;
            && |b| == 14 + n && b[..5] == [13 + n, 0xFF, 0x50, 0x4A, kind]
            && b[5..13] == nonce && b[13] == n && b[14..] == nickname
  {
  }

  /** Where the scan meets a MeetApp record, if it does. */
  function RecordAt(ad: seq<byte>, i: nat): (r: Option<nat>)
    ensures r.Some? ==> i <= r.value && r.value + 13 <= |ad| && r.value + 1 + ad[r.value] <= |ad| && IsRecord(ad, r.value)
    decreases |ad| - i
  {
    if i >= |ad| then None
    else if ad[i] == 0 || i + 1 + ad[i] > |ad| then None
    else if IsRecord(ad, i) then Some(i)
    else RecordAt(ad, i + 1 + ad[i])
  }

  /** The nickname of the record at i ends inside the advertisement: by its length, or by a
      NUL in front of the end. */
  predicate NicknameInside(ad: seq<byte>, i: nat)
    requires i + 13 <= |ad|
  {
    && i + 14 <= |ad|
    && (i + 14 + Min(ad[i + 13], NICK_MAX) <= |ad| || 0 in ad[i + 14..])
  }

  lemma {:induction false} ParseIs(ad: seq<byte>, after: seq<byte>, i: nat)
    requires |after| >= NICK_MAX + 1
    ensures Parse(ad, after, i) ==
            var at := RecordAt(ad, i);
            if at.None? then None
            else Some(Ad(ad[at.value + 4], ad[at.value + 5..at.value + 13], Nickname(ad, after, at.value)))
    decreases |ad| - i
  {
    hide Nickname;
    if i < |ad| && ad[i] != 0 && i + 1 + ad[i] <= |ad| && !IsRecord(ad, i) {
      ParseIs(ad, after, i + 1 + ad[i]);
    }
  }

  /** What the parser reports depends on the memory behind the advertisement exactly when
      it meets a record whose nickname does not end inside. */
  lemma AfterIgnoredIff(ad: seq<byte>, i: nat)
    ensures (forall a: seq<byte>, b: seq<byte> :: |a| >= NICK_MAX + 1 && |b| >= NICK_MAX + 1 ==>
              Parse(ad, a, i) == Parse(ad, b, i))
            <==> RecordAt(ad, i).Some? ==> NicknameInside(ad, RecordAt(ad, i).value)
  {
    hide Parse, Nickname, NicknameInside, RecordAt, IsRecord;
    var at := RecordAt(ad, i);
    if at.Some? && !NicknameInside(ad, at.value) {
      var zeros: seq<byte>, letters: seq<byte> := seq(NICK_MAX + 1, _ => 0), seq(NICK_MAX + 1, _ => 65);
      ParseIs(ad, zeros, i);
      ParseIs(ad, letters, i);
      ReachesOut(ad, at.value, zeros, letters);
    } else {
      forall a: seq<byte>, b: seq<byte> | |a| >= NICK_MAX + 1 && |b| >= NICK_MAX + 1
        ensures Parse(ad, a, i) == Parse(ad, b, i)
      {
        ParseIs(ad, a, i);
        ParseIs(ad, b, i);
        if at.Some? {
          StaysInside(ad, at.value, a);
          StaysInside(ad, at.value, b);
        }
      }
    }
  }

  /** The part of a field that lies inside the advertisement. */
  lemma FieldInside(ad: seq<byte>, after: seq<byte>, from: nat, n: nat)
    requires from <= |ad| && from + n <= |ad| + |after|
    ensures var f := (ad + after)[from..from + n];
            if from + n <= |ad| then f == ad[from..from + n]
            else f[..|ad| - from] == ad[from..] && f[|ad| - from..] == after[..from + n - |ad|]
  {
  }

  /** What a nickname that ends inside is, whatever lies behind. */
  function InsideNickname(ad: seq<byte>, k: nat): seq<byte>
    requires k + 14 <= |ad|
  {
    var nk := Min(ad[k + 13], NICK_MAX);
    CStr(if k + 14 + nk <= |ad| then ad[k + 14..k + 14 + nk] else ad[k + 14..])
  }

  lemma StaysInside(ad: seq<byte>, k: nat, a: seq<byte>)
    requires k + 13 <= |ad| && NicknameInside(ad, k) && |a| >= NICK_MAX + 1
    ensures Nickname(ad, a, k) == InsideNickname(ad, k)
  {
    hide CStr;
    var nk := Min(ad[k + 13], NICK_MAX);
    FieldInside(ad, a, k + 14, nk);
    var f := (ad + a)[k + 14..k + 14 + nk];
    if k + 14 + nk > |ad| {
      var tail := ad[k + 14..];
      var z :| 0 <= z < |tail| && tail[z] == 0;
      assert f == tail + f[|tail|..];
      NulInside(tail, f[|tail|..], z);
    }
  }

  /** Nothing behind a NUL matters to a C string. */
  lemma {:induction false} NulInside(s: seq<byte>, more: seq<byte>, z: nat)
    requires z < |s| && s[z] == 0
    ensures CStr(s + more) == CStr(s)
    decreases z
  {
    if s[0] != 0 {
      NulInside(s[1..], more, z - 1);
      assert (s + more)[1..] == s[1..] + more;
    }
  }

  lemma ReachesOut(ad: seq<byte>, k: nat, zeros: seq<byte>, letters: seq<byte>)
    requires k + 13 <= |ad| && !NicknameInside(ad, k)
    requires |zeros| == NICK_MAX + 1 && forall j :: 0 <= j < |zeros| ==> zeros[j] == 0
    requires |letters| == NICK_MAX + 1 && forall j :: 0 <= j < |letters| ==> letters[j] == 65
    ensures Nickname(ad, zeros, k) != Nickname(ad, letters, k)
  {
    if k + 14 > |ad| {
      LengthOutside(ad, k, zeros, letters);
    } else {
      hide Nickname, CStr;
      BytesOutside(ad, k, zeros, letters);
    }
  }

  /** The length byte itself lies behind the end. */
  lemma LengthOutside(ad: seq<byte>, k: nat, zeros: seq<byte>, letters: seq<byte>)
    requires k + 13 == |ad| && |zeros| == NICK_MAX + 1 == |letters|
    requires zeros[0] == 0 && forall j :: 0 <= j < |letters| ==> letters[j] == 65
    ensures Nickname(ad, zeros, k) == [] != Nickname(ad, letters, k)
  {
    hide CStr;
    assert (ad + zeros)[k + 13] == 0 && (ad + letters)[k + 13] == 65;
    assert (ad + letters)[k + 14..k + 14 + NICK_MAX] == letters[1..];
    assert (ad + zeros)[k + 14..k + 14 + 0] == [];
    CStrWhole(letters[1..]);
    CStrWhole([]);
  }

  /** The length byte is inside, the bytes it counts are not, and no NUL ends them. */
  lemma BytesOutside(ad: seq<byte>, k: nat, zeros: seq<byte>, letters: seq<byte>)
    requires k + 14 <= |ad| && !NicknameInside(ad, k)
    requires |zeros| == NICK_MAX + 1 && forall j :: 0 <= j < |zeros| ==> zeros[j] == 0
    requires |letters| == NICK_MAX + 1 && forall j :: 0 <= j < |letters| ==> letters[j] == 65
    ensures Nickname(ad, zeros, k) != Nickname(ad, letters, k)
  {
    hide CStr;
    var nk := Min(ad[k + 13], NICK_MAX);
    var tail := ad[k + 14..];
    FieldInside(ad, zeros, k + 14, nk);
    FieldInside(ad, letters, k + 14, nk);
    var n := nk - |tail|;
    RunsOver(ad, zeros, k + 14, nk);
    RunsOver(ad, letters, k + 14, nk);
    Longer(tail, zeros[..n], letters[..n]);
  }

  lemma RunsOver(ad: seq<byte>, after: seq<byte>, k: nat, n: nat)
    requires k <= |ad| && |ad| - k <= n <= |ad| - k + |after|
    ensures (ad + after)[k..k + n] == ad[k..] + after[..n - (|ad| - k)]
  {
  }

  lemma Longer(tail: seq<byte>, z: seq<byte>, l: seq<byte>)
    requires 0 !in tail && |z| == |l| > 0 && z[0] == 0 && 0 !in l
    ensures CStr(tail + z) != CStr(tail + l)
  {
    CStrWhole(tail + l);
    assert 0 !in tail + l;
    assert (tail + z)[|tail|] == 0 && (tail + l)[|tail|] == l[0];
    assert z[0] in z && l[0] in l;
  }
}
