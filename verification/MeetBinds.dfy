/** What a signature on the MeetApp proof text vouches for: the text shows the number of
    participants, the time, the session nonce, the comment and every key, each at a place of
    its own, so that equal texts bind equal ingredients. */
module MeetBinds {
  import opened Bytes
  import opened MeetApp

  lemma Piece(a: seq<byte>, x: seq<byte>, b: seq<byte>)
    ensures (a + x + b)[|a|..|a| + |x|] == x
  {
  }

  /** One or two digits, no leading zero. */
  function Digits(n: nat): seq<byte>
    requires n < 100
  {
    if n < 10 then [0x30 + n] else [0x30 + n / 10, 0x30 + n % 10]
  }

  lemma DecimalIs(n: nat)
    requires n < 100
    ensures Decimal(n) == Digits(n)
  {
  }

  /** Two lower-case digits to a byte, the upper half first. */
  lemma {:induction false} HexIs(s: seq<byte>, i: nat)
    requires i < |s|
    ensures Hex(s)[2 * i] == "0123456789abcdef"[s[i] / 16] as int && Hex(s)[2 * i + 1] == "0123456789abcdef"[s[i] % 16] as int
  {
    hide Hex;
    var n := |s| - 1;
    HexLast(s);
    if i < n {
      HexIs(s[..n], i);
      assert Hex(s)[..2 * n][2 * i] == Hex(s)[2 * i] && Hex(s)[..2 * n][2 * i + 1] == Hex(s)[2 * i + 1];
    } else {
      DigitIs(s[n] / 16);
      DigitIs(s[n] % 16);
    }
  }

  lemma DigitIs(n: nat)
    requires n < 16
    ensures HexDigit(n) == "0123456789abcdef"[n] as int
  {
  }

  const COUNT_AT: nat := 19
  const TIME_AT: nat := 62
  const NONCE_AT: nat := 149
  const STATEMENT_REST: nat := 187

  /** The statement shows the count, then the time, then the nonce in hexadecimal. */
  predicate InStatement(st: seq<byte>, count: seq<byte>, timestamp: seq<byte>, hex: seq<byte>) {
    var d, w := |count|, |timestamp|;
    && |hex| == 16 && |st| == STATEMENT_REST + d + w + 16
    && st[COUNT_AT..COUNT_AT + d] == count
    && st[TIME_AT + d..TIME_AT + d + w] == timestamp
    && st[NONCE_AT + d + w..NONCE_AT + d + w + 16] == hex
  }

  lemma StatementShows(n: nat, nonce: seq<byte>, timestamp: seq<byte>)
    requires |nonce| == 8
    ensures InStatement(Statement(n, nonce, timestamp), Decimal(n), timestamp, Hex(nonce))
  {
    hide Ascii, Hex, Decimal;
    var a := Ascii("This verifies that ");
    var b := Ascii(" devices' holders have met up in person on ");
    var c := Ascii(". Message is signed by participants' J++Devices using MuSig2 algorithm.\nSession nonce: ");
    var e := Ascii("\n\nParticipants and their public keys:\n");
    Seven(a, Decimal(n), b, timestamp, c, Hex(nonce), e);
  }

  lemma Seven(a: seq<byte>, x: seq<byte>, b: seq<byte>, y: seq<byte>, c: seq<byte>, z: seq<byte>, e: seq<byte>)
    ensures var s := a + x + b + y + c + z + e; var j := |a| + |x| + |b|; var k := j + |y| + |c|;
            && |s| == k + |z| + |e|
            && s[|a|..|a| + |x|] == x && s[j..j + |y|] == y && s[k..k + |z|] == z
  {
    var s := a + x + b + y + c + z + e;
    Piece(a, x, b + y + c + z + e);
    assert s == a + x + (b + y + c + z + e);
    Piece(a + x + b, y, c + z + e);
    assert s == (a + x + b) + y + (c + z + e);
    Piece(a + x + b + y + c, z, e);
  }

  /** Title, comment, statement and lines in this order. */
  predicate InOrder(t: seq<byte>, c: seq<byte>, st: seq<byte>, l: seq<byte>) {
    && |t| == 50 + |c| + |st| + |l|
    && t[50..50 + |c|] == c && t[50 + |c|..50 + |c| + |st|] == st && t[50 + |c| + |st|..] == l
  }

  lemma TextParts(ps: seq<Participant>, nonce: seq<byte>, timestamp: seq<byte>, comment: seq<byte>)
    ensures InOrder(Text(ps, nonce, timestamp, comment), CommentPart(comment), Statement(|ps|, nonce, timestamp), Lines(ps))
  {
    hide Title, CommentPart, Statement, Lines, InOrder;
    TitleLength();
    Four(Title(), CommentPart(comment), Statement(|ps|, nonce, timestamp), Lines(ps));
  }

  lemma Four(a: seq<byte>, c: seq<byte>, st: seq<byte>, l: seq<byte>)
    requires |a| == 50
    ensures InOrder(a + c + st + l, c, st, l)
  {
    var t := a + c + st + l;
    Piece(a, c, st + l);
    assert t == a + c + (st + l);
    Piece(a + c, st, l);
    assert t[|a + c + st|..] == l;
  }

  lemma CommentShows(comment: seq<byte>)
    ensures |CommentPart(comment)| == if comment == [] then 0 else |comment| + 11
    ensures comment != [] ==> CommentPart(comment)[9..9 + |comment|] == comment
  {
    hide Ascii;
    Piece(Ascii("Comment: "), comment, Ascii("\n\n"));
  }

  /** Where everything stands in the text: the comment, the count, the time, the nonce and
      the participants' lines. */
  predicate Shows(t: seq<byte>, count: seq<byte>, hex: seq<byte>, timestamp: seq<byte>, comment: seq<byte>,
                  lines: seq<byte>) {
    var s := if comment == [] then 50 else 61 + |comment|;
    var d, w := |count|, |timestamp|;
    && |hex| == 16 && |t| >= s + 203 + d + w
    && (comment != [] ==> t[59..59 + |comment|] == comment)
    && t[s + 19..s + 19 + d] == count
    && t[s + 62 + d..s + 62 + d + w] == timestamp
    && t[s + 149 + d + w..s + 165 + d + w] == hex
    && t[s + 203 + d + w..] == lines
  }

  lemma TextShows(ps: seq<Participant>, nonce: seq<byte>, timestamp: seq<byte>, comment: seq<byte>)
    requires |ps| < 100 && |nonce| == 8
    ensures Shows(Text(ps, nonce, timestamp, comment), Digits(|ps|), Hex(nonce), timestamp, comment, Lines(ps))
  {
    hide Text, Statement, CommentPart, Lines, Hex, Decimal, Digits, Shows, InOrder, InStatement;
    TextParts(ps, nonce, timestamp, comment);
    CommentShows(comment);
    StatementShows(|ps|, nonce, timestamp);
    DecimalIs(|ps|);
    ShowsFrom(Text(ps, nonce, timestamp, comment), CommentPart(comment), Statement(|ps|, nonce, timestamp), Lines(ps),
              Decimal(|ps|), Hex(nonce), timestamp, comment);
  }

  lemma ShowsFrom(t: seq<byte>, c: seq<byte>, st: seq<byte>, l: seq<byte>,
                  count: seq<byte>, hex: seq<byte>, timestamp: seq<byte>, comment: seq<byte>)
    requires InOrder(t, c, st, l) && InStatement(st, count, timestamp, hex)
    requires |c| == if comment == [] then 0 else |comment| + 11
    requires comment != [] ==> c[9..9 + |comment|] == comment
    ensures Shows(t, count, hex, timestamp, comment, l)
  {
    var s, d, w := 50 + |c|, |count|, |timestamp|;
    if comment != [] {
      Through(t, 50, c, 9, comment);
    }
    Through(t, s, st, 19, count);
    Through(t, s, st, 62 + d, timestamp);
    Through(t, s, st, 149 + d + w, hex);
  }

  /** A piece of a piece. */
  lemma Through(t: seq<byte>, i: nat, part: seq<byte>, a: nat, x: seq<byte>)
    requires i + |part| <= |t| && t[i..i + |part|] == part && a + |x| <= |part| && part[a..a + |x|] == x
    ensures t[i + a..i + a + |x|] == x
  {
    Within(t, i, i + |part|, a, a + |x|);
  }

  /** A text shows one nonce, time, comment and list of lines only. */
  lemma ShowsOnce(t: seq<byte>, count: seq<byte>, hex: seq<byte>, timestamp: seq<byte>, comment: seq<byte>, lines: seq<byte>,
                  hex': seq<byte>, timestamp': seq<byte>, comment': seq<byte>, lines': seq<byte>)
    requires Shows(t, count, hex, timestamp, comment, lines) && Shows(t, count, hex', timestamp', comment', lines')
    requires |timestamp| == |timestamp'| && |comment| == |comment'|
    ensures hex == hex' && timestamp == timestamp' && comment == comment' && lines == lines'
  {
  }

  lemma Within(t: seq<byte>, i: nat, j: nat, a: nat, b: nat)
    requires i <= j <= |t| && a <= b <= j - i
    ensures t[i..j][a..b] == t[i + a..i + b]
  {
    var x, y := t[i..j][a..b], t[i + a..i + b];
    assert forall k :: 0 <= k < |y| ==> x[k] == y[k];
  }

  /** The same keys in the same order, and nicknames equal up to trailing blanks. */
  predicate Alike(ps: seq<Participant>, qs: seq<Participant>) {
    |ps| == |qs| && forall i :: 0 <= i < |ps| ==> ps[i].pubkey == qs[i].pubkey && Padded(ps[i].nick) == Padded(qs[i].nick)
  }

  /** Equal texts, equal ingredients: for the same number of participants and timestamps of
      one length, the nonce, the time, the comment and every key, and every nickname up to
      trailing blanks. */
  lemma TextBinds(ps: seq<Participant>, qs: seq<Participant>, nonce: seq<byte>, nonce': seq<byte>,
                  timestamp: seq<byte>, timestamp': seq<byte>, comment: seq<byte>, comment': seq<byte>)
    requires InBounds(ps) && InBounds(qs) && |ps| == |qs| < 100 && |nonce| == |nonce'| == 8 && |timestamp| == |timestamp'|
    requires Text(ps, nonce, timestamp, comment) == Text(qs, nonce', timestamp', comment')
    ensures nonce == nonce' && timestamp == timestamp' && comment == comment'
    ensures Alike(ps, qs)
  {
    hide Text, Statement, CommentPart, Lines, Hex, Decimal, Line, Padded, Shows;
    LengthsAgree(ps, qs, nonce, nonce', timestamp, timestamp', comment, comment');
    TextShows(ps, nonce, timestamp, comment);
    TextShows(qs, nonce', timestamp', comment');
    ShowsOnce(Text(ps, nonce, timestamp, comment), Digits(|ps|), Hex(nonce), timestamp, comment, Lines(ps),
              Hex(nonce'), timestamp', comment', Lines(qs));
    HexInjective(nonce, nonce');
    LinesBind(ps, qs);
  }

  /** Nothing but the comment can make up for a longer comment. */
  lemma LengthsAgree(ps: seq<Participant>, qs: seq<Participant>, nonce: seq<byte>, nonce': seq<byte>,
                     timestamp: seq<byte>, timestamp': seq<byte>, comment: seq<byte>, comment': seq<byte>)
    requires InBounds(ps) && InBounds(qs) && |ps| == |qs| && |nonce| == |nonce'| == 8 && |timestamp| == |timestamp'|
    requires |Text(ps, nonce, timestamp, comment)| == |Text(qs, nonce', timestamp', comment')|
    ensures |comment| == |comment'|
  {
    hide Text, Statement, CommentPart, Lines, Hex, Decimal;
    TextParts(ps, nonce, timestamp, comment);
    TextParts(qs, nonce', timestamp', comment');
    CommentShows(comment);
    CommentShows(comment');
    StatementShows(|ps|, nonce, timestamp);
    StatementShows(|qs|, nonce', timestamp');
    LinesLength(ps);
    LinesLength(qs);
  }

  /** The same of what is hashed and signed, which the buffer never cuts. */
  lemma MessageBinds(ps: seq<Participant>, qs: seq<Participant>, nonce: seq<byte>, nonce': seq<byte>,
                     timestamp: seq<byte>, timestamp': seq<byte>, comment: seq<byte>, comment': seq<byte>)
    requires InBounds(ps) && InBounds(qs) && |ps| == |qs| <= MAX_TOTAL && |nonce| == |nonce'| == 8
    requires |timestamp| == |timestamp'| <= TS_FIELD - 1 && |comment| <= COMMENT_MAX && |comment'| <= COMMENT_MAX
    requires Message(ps, nonce, timestamp, comment, MSG_MAX) == Message(qs, nonce', timestamp', comment', MSG_MAX)
    ensures nonce == nonce' && timestamp == timestamp' && comment == comment'
    ensures Alike(ps, qs)
  {
    hide Text, Message, Padded;
    MessageNeverCut(ps, nonce, timestamp, comment);
    MessageNeverCut(qs, nonce', timestamp', comment');
    TextBinds(ps, qs, nonce, nonce', timestamp, timestamp', comment, comment');
  }
}
