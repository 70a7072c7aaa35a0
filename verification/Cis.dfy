/** The SDIO card information structure, scanned through 32-byte windows
    (sdmmc_io_get_cis_data), against the tuple chain as one contiguous whole. */
module Cis {
  import opened Bytes

  const WINDOW: nat := 32
  const CODE_END: byte := 0xFF

  /** The tuple chain of section 16.2 of the SDIO Simplified Specification as the code
      walks it: every tuple except END has a length byte. Position of the END code
      reached from the tuple at `at`, if the chain stays inside `cis`. */
  function ChainEnd(cis: seq<byte>, at: nat): (r: Option<nat>)
    ensures r.Some? ==> at <= r.value < |cis| && cis[r.value] == CODE_END
    decreases |cis| - at
  {
    if at >= |cis| then None
    else if cis[at] == CODE_END then Some(at)
    else if at + 1 >= |cis| then None
    else ChainEnd(cis, at + 2 + cis[at + 1])
  }

  datatype Result = Ok(size: nat) | InvalidSize(size: nat) | NotFound | ReadFailed

  /** max_reading: the caller's size, or UINT32_MAX when it is 0. */
  function Limit(limit: nat): (n: nat)
    ensures n >= 1
  {
    if limit != 0 then limit else 0xFFFF_FFFF
  }

  /** How many windows may be read: enough to cover the limit, the last one whole. */
  function Windows(limit: nat): (n: nat)
    ensures (n - 1) * WINDOW < Limit(limit) <= n * WINDOW
  {
    (Limit(limit) + WINDOW - 1) / WINDOW
  }

  /** What the whole scan should return, without windows in sight except for the reads
      that can fail: the card serves `cis` and refuses a window that passes its end. */
  function Expected(cis: seq<byte>, bufferSize: nat, limit: nat): Result {
    var end := ChainEnd(cis, 0);
    if end.Some? && end.value / WINDOW < Windows(limit) && (end.value / WINDOW + 1) * WINDOW <= |cis| then
      if end.value + 1 > bufferSize then InvalidSize(end.value + 1) else Ok(end.value + 1)
    else if Windows(limit) * WINDOW > |cis| then ReadFailed
    else NotFound
  }

  /** The scan stands at the tuple at `cur`; with `cur` just before the window, that
      tuple's code was checked in the window before and its length comes first here. */
  ghost predicate AtTuple(cis: seq<byte>, base: nat, cur: int) {
    && 0 <= cur && base - 1 <= cur
    && ChainEnd(cis, 0) == ChainEnd(cis, cur)
    && (cur == base - 1 ==> cur < |cis| && cis[cur] != CODE_END)
  }

  /** check_tuples_in_buffer on the window at `base`. */
  method CheckTuples(buf: seq<byte>, offset: int, ghost cis: seq<byte>, ghost base: nat)
    returns (found: bool, offset': int)
    requires |buf| == WINDOW && base + WINDOW <= |cis| && buf == cis[base..base + WINDOW]
    requires AtTuple(cis, base, base + offset)
    ensures found ==> offset' >= 1 && ChainEnd(cis, 0) == Some(base + offset' - 1) && offset' <= WINDOW
    ensures !found ==> AtTuple(cis, base + WINDOW, base + offset')
  {
    offset' := offset;
    if offset' == -1 {
      assert cis[base] == buf[0];
      offset' := offset' + buf[0] + 2;
    }
    while true
      invariant offset' >= 0 && ChainEnd(cis, 0) == ChainEnd(cis, base + offset')
      decreases |cis| - (base + offset')
    {
      if offset' < WINDOW {
        assert cis[base + offset'] == buf[offset'];
        if buf[offset'] == CODE_END {
          return true, offset' + 1;
        }
      }
      if offset' + 1 < WINDOW {
        assert cis[base + offset' + 1] == buf[offset' + 1];
        offset' := offset' + buf[offset' + 1] + 2;
      } else {
        break;
      }
    }
    found := false;
  }

  /** The first n bytes are the card's, the rest as before. */
  ghost predicate Copied(now: seq<byte>, before: seq<byte>, cis: seq<byte>, n: nat) {
    |now| == |before| && n <= |now| && n <= |cis| && now[..n] == cis[..n] && now[n..] == before[n..]
  }

  method CopyTo(a: array<byte>, off: nat, data: seq<byte>, ghost cis: seq<byte>, ghost before: seq<byte>)
    requires off + |data| <= a.Length && off + |data| <= |cis| && data == cis[off..off + |data|]
    requires Copied(a[..], before, cis, off)
    modifies a
    ensures Copied(a[..], before, cis, off + |data|)
  {
    for k := 0 to |data|
      invariant a[..off + k] == cis[..off + k]
      invariant a[off + k..] == before[off + k..]
    {
      a[off + k] := data[k];
      assert a[off + k] == cis[off + k];
    }
  }

  /** Where the scan stands once the windows before `base` are done: in the chain, or
      past an END code found in the last of them. */
  ghost predicate Scanned(cis: seq<byte>, limit: nat, base: nat, cur: int, found: bool) {
    && base % WINDOW == 0 && base <= |cis|
    && (base > 0 ==> base - WINDOW < Limit(limit))
    && (!found ==> AtTuple(cis, base, cur))
    && (found ==> cur >= 1 && ChainEnd(cis, 0) == Some(cur - 1) && base - WINDOW < cur <= base)
  }

  /** One turn of the loop: read a window, check its tuples, copy what belongs out. */
  method ScanWindow(cis: seq<byte>, outBuffer: array<byte>, bufferSize: nat, ghost limit: nat, base: nat, cur: int,
                    ghost before: seq<byte>)
    returns (found: bool, cur': int)
    requires bufferSize <= outBuffer.Length && base + WINDOW <= |cis|
    requires Scanned(cis, limit, base, cur, false) && base < Limit(limit)
    requires Copied(outBuffer[..], before, cis, Min(base, bufferSize))
    modifies outBuffer
    ensures Scanned(cis, limit, base + WINDOW, cur', found)
    ensures Copied(outBuffer[..], before, cis, Min(if found then cur' else base + WINDOW, bufferSize))
  {
    var buf := cis[base..base + WINDOW];
    var offset;
    found, offset := CheckTuples(buf, cur - base, cis, base);
    cur' := base + offset;
    hide ChainEnd;
    var remain := bufferSize - base;
    var copyLen := if found then Min(offset, remain) else Min(WINDOW, remain);
    if copyLen > 0 {
      CopyTo(outBuffer, base, buf[..copyLen], cis, before);
    }
  }

  /** How many bytes reach the buffer, if they fit: the CIS with its END code, or every
      window that was read. */
  function CopiedBytes(readable: nat, limit: nat, r: Result): nat {
    if r.Ok? || r.InvalidSize? then r.size
    else if r.NotFound? then Windows(limit) * WINDOW
    else readable / WINDOW * WINDOW
  }

  /** sdmmc_io_get_cis_data, from the CIS address on. */
  method GetCisData(cis: seq<byte>, outBuffer: array<byte>, bufferSize: nat, limit: nat) returns (r: Result)
    requires bufferSize <= outBuffer.Length
    modifies outBuffer
    ensures r == Expected(cis, bufferSize, limit)
    ensures Copied(outBuffer[..], old(outBuffer[..]), cis, Min(bufferSize, CopiedBytes(|cis|, limit, r)))
  {
    var base: nat := 0;
    var cur: int := 0;
    var found := false;
    hide ChainEnd, Expected, CopiedBytes, Windows;
    while true
      invariant !found && Scanned(cis, limit, base, cur, found) && base < Limit(limit)
      invariant Copied(outBuffer[..], old(outBuffer[..]), cis, Min(base, bufferSize))
      decreases |cis| - base
    {
      if base + WINDOW > |cis| {
        Unreadable(cis, bufferSize, limit, base, cur);
        return ReadFailed;
      }
      found, cur := ScanWindow(cis, outBuffer, bufferSize, limit, base, cur, old(outBuffer[..]));
      base := base + WINDOW;
      if found || base >= Limit(limit) {
        break;
      }
    }
    LoopEnds(cis, bufferSize, limit, base, cur, found);
    if found {
      r := if cur > bufferSize then InvalidSize(cur) else Ok(cur);
    } else {
      r := NotFound;
    }
  }

  /** The chain has not ended before the window that cannot be read. */
  lemma Unreadable(cis: seq<byte>, bufferSize: nat, limit: nat, base: nat, cur: int)
    requires Scanned(cis, limit, base, cur, false) && base + WINDOW > |cis| && base < Limit(limit)
    ensures Expected(cis, bufferSize, limit) == ReadFailed && CopiedBytes(|cis|, limit, ReadFailed) == base
  {
  }

  lemma LoopEnds(cis: seq<byte>, bufferSize: nat, limit: nat, base: nat, cur: int, found: bool)
    requires Scanned(cis, limit, base, cur, found) && (found || base >= Limit(limit))
    ensures !found ==> Expected(cis, bufferSize, limit) == NotFound && CopiedBytes(|cis|, limit, NotFound) == base
    ensures found ==> Expected(cis, bufferSize, limit) == if cur > bufferSize then InvalidSize(cur) else Ok(cur)
    ensures found ==> CopiedBytes(|cis|, limit, Expected(cis, bufferSize, limit)) == cur
  {
  }

  datatype Tuple = Tuple(code: byte, body: seq<byte>)

  predicate ProperTuple(t: Tuple) {
    t.code != CODE_END && |t.body| <= 255
  }

  predicate ProperTuples(ts: seq<Tuple>) {
    forall i :: 0 <= i < |ts| ==> ProperTuple(ts[i])
  }

  /** A card's CIS: the tuples one after the other. */
  function Chain(ts: seq<Tuple>): seq<byte>
    requires ProperTuples(ts)
  {
    if ts == [] then [] else [ts[0].code, |ts[0].body|] + ts[0].body + Chain(ts[1..])
  }

  lemma {:induction false} ChainEndSkipsTuples(before: seq<byte>, ts: seq<Tuple>, after: seq<byte>)
    requires ProperTuples(ts)
    ensures ChainEnd(before + Chain(ts) + [CODE_END] + after, |before|) == Some(|before| + |Chain(ts)|)
    decreases |ts|
  {
    var cis := before + Chain(ts) + [CODE_END] + after;
    if ts == [] {
      assert cis[|before|] == CODE_END;
    } else {
      var t := [ts[0].code, |ts[0].body|] + ts[0].body;
      assert cis[|before|] == ts[0].code && cis[|before| + 1] == |ts[0].body|;
      assert cis == before + t + Chain(ts[1..]) + [CODE_END] + after;
      ChainEndSkipsTuples(before + t, ts[1..], after);
    }
  }

  /** A card with a proper tuple list, an END code and whatever follows: its size is reported,
      as a result or as too much for the buffer, exactly if the END code lies in one of the
      windows the limit allows; no limit is 2^32 - 1. */
  lemma WholeChainIsRead(ts: seq<Tuple>, after: seq<byte>, bufferSize: nat, limit: nat)
    requires ProperTuples(ts) && |after| >= WINDOW
    ensures var n, cis := |Chain(ts)|, Chain(ts) + [CODE_END] + after;
            Expected(cis, bufferSize, limit) ==
            if n - n % 32 < (if limit == 0 then 0xFFFF_FFFF else limit) then
              if n + 1 <= bufferSize then Ok(n + 1) else InvalidSize(n + 1)
            else NotFound
    ensures (Chain(ts) + [CODE_END] + after)[..|Chain(ts)| + 1] == Chain(ts) + [CODE_END]
  {
    var cis := Chain(ts) + [CODE_END] + after;
    ChainEndSkipsTuples([], ts, after);
    assert [] + Chain(ts) + [CODE_END] + after == cis;
  }
}
