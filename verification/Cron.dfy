/** Five-field cron texts: each field "*" or one number (cron_field_matches, cron_matches). */
module Cron {
  import opened Bytes
  import opened Calendar

  predicate Digit(c: char) {
    '0' <= c <= '9'
  }

  predicate AllDigits(s: string) {
    forall i :: 0 <= i < |s| ==> Digit(s[i])
  }

  function Number(s: string): nat
    requires AllDigits(s)
  {
    if s == "" then 0 else Number(s[..|s| - 1]) * 10 + (s[|s| - 1] as int - '0' as int)
  }

  function DigitCount(s: string): (n: nat)
    ensures n <= |s| && AllDigits(s[..n]) && (n < |s| ==> !Digit(s[n]))
  {
    if s != "" && Digit(s[0]) then
      var n := 1 + DigitCount(s[1..]);
      assert forall i :: 0 < i < n ==> s[..n][i] == s[1..][..n - 1][i - 1];
      n
    else 0
  }

  function SpaceCount(s: string): (n: nat)
    ensures n <= |s| && (forall i :: 0 <= i < n ==> s[i] == ' ') && (n < |s| ==> s[n] != ' ')
  {
    if s != "" && s[0] == ' ' then 1 + SpaceCount(s[1..]) else 0
  }

  predicate Starred(s: string) {
    s != "" && s[0] == '*'
  }

  /** Does the field that opens s allow this value; a missing number counts as 0. */
  predicate FieldMatches(s: string, value: int) {
    Starred(s) || Number(s[..DigitCount(s)]) == value
  }

  /** What remains after that field and the spaces behind it. */
  function AfterField(s: string): (rest: string)
    ensures |rest| <= |s|
  {
    var body := s[if Starred(s) then 1 else DigitCount(s)..];
    body[SpaceCount(body)..]
  }

  predicate Matches(s: string, values: seq<int>)
    decreases |values|
  {
    values == [] || (FieldMatches(s, values[0]) && Matches(AfterField(s), values[1..]))
  }

  lemma DigitRun(s: string, p: nat, q: nat)
    requires p <= q <= |s| && AllDigits(s[p..q]) && (q < |s| ==> !Digit(s[q]))
    ensures DigitCount(s[p..]) == q - p && s[p..][..q - p] == s[p..q]
  {
    var n := DigitCount(s[p..]);
    assert forall i :: p <= i < q ==> s[i] == s[p..q][i - p];
    assert forall i :: p <= i < p + n ==> s[i] == s[p..][..n][i - p];
  }

  lemma SpaceRun(s: string, p: nat, q: nat)
    requires p <= q <= |s| && (forall i :: p <= i < q ==> s[i] == ' ') && (q < |s| ==> s[q] != ' ')
    ensures SpaceCount(s[p..]) == q - p && s[p..][q - p..] == s[q..]
  {
    var n := SpaceCount(s[p..]);
    assert forall i :: p <= i < p + n ==> s[i] == s[p..][i - p];
  }

  method ScanNumber(cron: string, cursor: nat) returns (v: nat, p: nat)
    requires cursor <= |cron|
    ensures cursor <= p <= |cron| && p - cursor == DigitCount(cron[cursor..])
    ensures v == Number(cron[cursor..][..p - cursor])
  {
    p := cursor;
    v := 0;
    while p < |cron| && Digit(cron[p])
      invariant cursor <= p <= |cron| && AllDigits(cron[cursor..p])
      invariant v == Number(cron[cursor..p])
    {
      assert cron[cursor..p + 1] == cron[cursor..p] + [cron[p]];
      assert cron[cursor..p + 1][..p - cursor] == cron[cursor..p];
      v := v * 10 + (cron[p] as int - '0' as int);
      p := p + 1;
    }
    DigitRun(cron, cursor, p);
  }

  method SkipSpaces(cron: string, from: nat) returns (p: nat)
    requires from <= |cron|
    ensures from <= p <= |cron| && cron[p..] == cron[from..][SpaceCount(cron[from..])..]
  {
    p := from;
    while p < |cron| && cron[p] == ' '
      invariant from <= p <= |cron| && forall i :: from <= i < p ==> cron[i] == ' '
    {
      p := p + 1;
    }
    SpaceRun(cron, from, p);
  }

  lemma Drop(s: string, a: nat, b: nat)
    requires a <= b <= |s|
    ensures s[a..][b - a..] == s[b..]
  {
  }

  lemma FieldParts(s: string, k: nat, value: int)
    requires k == if Starred(s) then 1 else DigitCount(s)
    ensures AfterField(s) == s[k..][SpaceCount(s[k..])..]
    ensures Starred(s) ==> FieldMatches(s, value)
    ensures !Starred(s) ==> FieldMatches(s, value) == (Number(s[..k]) == value)
  {
    hide Number, DigitCount, SpaceCount;
  }

  method CronFieldMatches(cron: string, cursor: nat, value: int) returns (ok: bool, next: nat)
    requires cursor <= |cron|
    ensures next <= |cron|
    ensures ok == FieldMatches(cron[cursor..], value) && cron[next..] == AfterField(cron[cursor..])
  {
    hide Number, DigitCount, SpaceCount, FieldMatches, AfterField;
    var p := cursor;
    if p < |cron| && cron[p] == '*' {
      ok := true;
      p := p + 1;
    } else {
      var v;
      v, p := ScanNumber(cron, cursor);
      ok := v == value;
    }
    FieldParts(cron[cursor..], p - cursor, value);
    Drop(cron, cursor, p);
    next := SkipSpaces(cron, p);
  }

  /** The five values a cron text is held against. */
  function Fields(now: DateTime): seq<int> {
    [now.minute, now.hour, now.date.day, now.date.month, CodedWeekday(Days(now.date))]
  }

  method CronMatches(cron: string, now: DateTime) returns (ok: bool)
    ensures ok == Matches(cron, Fields(now))
    ensures -4 <= Days(now.date) < 0x8000_0000 ==>
              forall fs | ProperFields(fs) && |fs| == 5 && Text(fs) == cron :: ok <==> MinuteAllowed(fs, now)
  {
    hide Fields, FieldMatches, AfterField, Days, MinuteAllowed, Text;
    var values := Fields(now);
    FiveValues(now);
    ok := true;
    var p: nat := 0;
    for k := 0 to |values|
      invariant p <= |cron|
      invariant Matches(cron, values) == (ok && Matches(cron[p..], values[k..]))
    {
      var hit;
      hit, p := CronFieldMatches(cron, p, values[k]);
      ok := ok && hit;
      assert values[k..][1..] == values[k + 1..] && values[k..][0] == values[k];
    }
    if -4 <= Days(now.date) < 0x8000_0000 {
      forall fs | ProperFields(fs) && |fs| == 5 && Text(fs) == cron
        ensures Matches(cron, values) <==> MinuteAllowed(fs, now)
      {
        FiveFieldsMatch(fs, now);
      }
    }
  }

  lemma FiveValues(now: DateTime)
    ensures |Fields(now)| == 5
  {
  }

  datatype Field = Star(gap: nat) | Num(digits: string, gap: nat)

  predicate ProperField(f: Field) {
    f.Num? ==> f.digits != "" && AllDigits(f.digits)
  }

  /** A text as the manifest accepts it: fields apart by one or more spaces. */
  predicate ProperFields(fs: seq<Field>) {
    && (forall i :: 0 <= i < |fs| ==> ProperField(fs[i]))
    && (forall i :: 0 <= i < |fs| - 1 ==> fs[i].gap > 0)
  }

  function Blanks(n: nat): (s: string)
    ensures |s| == n && forall i :: 0 <= i < n ==> s[i] == ' '
  {
    seq(n, _ => ' ')
  }

  function Body(f: Field): string {
    if f.Star? then "*" else f.digits
  }

  function Text(fs: seq<Field>): string {
    if fs == [] then "" else Body(fs[0]) + Blanks(fs[0].gap) + Text(fs[1..])
  }

  predicate Allows(f: Field, value: int)
    requires ProperField(f)
  {
    f.Star? || Number(f.digits) == value
  }

  lemma TextStart(fs: seq<Field>)
    requires ProperFields(fs) && fs != []
    ensures Text(fs) != "" && (Starred(Text(fs)) <==> fs[0].Star?)
    ensures Text(fs)[0] != ' ' && (fs[0].Num? ==> Digit(Text(fs)[0]))
  {
    assert Text(fs)[0] == Body(fs[0])[0];
  }

  lemma FirstField(fs: seq<Field>, value: int)
    requires ProperFields(fs) && fs != []
    ensures FieldMatches(Text(fs), value) == Allows(fs[0], value)
    ensures AfterField(Text(fs)) == Text(fs[1..])
  {
    hide Number, DigitCount, SpaceCount, Text, Blanks, Starred, FieldMatches, AfterField, ProperFields;
    var s, k := Text(fs), |Body(fs[0])|;
    TextStart(fs);
    TextSplits(fs);
    FirstLength(fs);
    FieldParts(s, k, value);
    SpaceRun(s, k, k + fs[0].gap);
  }

  lemma FirstLength(fs: seq<Field>)
    requires ProperFields(fs) && fs != []
    ensures |Body(fs[0])| == if Starred(Text(fs)) then 1 else DigitCount(Text(fs))
  {
    hide DigitCount, Text, Blanks;
    TextStart(fs);
    TextSplits(fs);
    var s := Text(fs);
    assert s[0..] == s;
    if fs[0].Num? {
      DigitRun(s, 0, |fs[0].digits|);
    }
  }

  /** Where the first field, its gap and the next field lie in the text. */
  lemma TextSplits(fs: seq<Field>)
    requires ProperFields(fs) && fs != []
    ensures var s, k := Text(fs), |Body(fs[0])|; var q := k + fs[0].gap;
            && q <= |s| && s[0..k] == s[..k] == Body(fs[0]) && s[q..] == Text(fs[1..])
            && (forall i :: k <= i < q ==> s[i] == ' ')
            && (q < |s| ==> s[q] != ' ')
            && (k < |s| && fs[0].Num? ==> !Digit(s[k]))
  {
    var body, gap, rest := Body(fs[0]), Blanks(fs[0].gap), Text(fs[1..]);
    if |fs| > 1 {
      assert ProperFields(fs[1..]);
      TextStart(fs[1..]);
    } else {
      assert rest == "";
    }
    hide Text, Blanks, Body;
    Joined(body, gap, rest);
  }

  lemma Joined(a: string, b: string, c: string)
    ensures var s := a + b + c;
            && s[0..|a|] == s[..|a|] == a && s[|a| + |b|..] == c
            && (forall i :: |a| <= i < |a| + |b| ==> s[i] == b[i - |a|])
            && (|a| + |b| < |s| ==> s[|a| + |b|] == c[0])
  {
  }

  /** A text is matched exactly when every one of its fields is "*" or names its value. */
  lemma {:induction false} TextMatches(fs: seq<Field>, values: seq<int>)
    requires ProperFields(fs) && |fs| == |values|
    ensures Matches(Text(fs), values) <==> forall i :: 0 <= i < |fs| ==> Allows(fs[i], values[i])
    decreases |fs|
  {
    hide FieldMatches, AfterField, Allows, Text;
    if fs != [] {
      FirstField(fs, values[0]);
      assert ProperFields(fs[1..]);
      TextMatches(fs[1..], values[1..]);
      assert forall i :: 0 < i < |fs| ==> fs[i] == fs[1..][i - 1] && values[i] == values[1..][i - 1];
    }
  }

  /** Minute, hour, day, month and weekday in this order; 0 is a Sunday, and day 0, the first
      of January 1970, a Thursday. */
  predicate MinuteAllowed(fs: seq<Field>, now: DateTime)
    requires ProperFields(fs) && |fs| == 5
  {
    && Allows(fs[0], now.minute) && Allows(fs[1], now.hour)
    && Allows(fs[2], now.date.day) && Allows(fs[3], now.date.month)
    && Allows(fs[4], (Days(now.date) + 4) % 7)
  }

  /** A well-formed text is matched exactly in the minutes its five fields allow, with the
      weekday of the calendar from day -4 on. */
  lemma FiveFieldsMatch(fs: seq<Field>, now: DateTime)
    requires ProperFields(fs) && |fs| == 5 && -4 <= Days(now.date) < 0x8000_0000
    ensures Matches(Text(fs), Fields(now)) <==> MinuteAllowed(fs, now)
  {
    hide Allows, Text, Matches, Fields, Days;
    FieldsAre(now);
    TextMatches(fs, Fields(now));
  }

  lemma FieldsAre(now: DateTime)
    requires -4 <= Days(now.date) < 0x8000_0000
    ensures Fields(now) == [now.minute, now.hour, now.date.day, now.date.month, (Days(now.date) + 4) % 7]
  {
    hide Days, CodedWeekday;
    WeekdayRightIff(Days(now.date));
  }

  /** Whatever five fields the text is made of, they allow this minute. */
  ghost predicate TextAllows(cron: string, now: DateTime) {
    forall fs | ProperFields(fs) && |fs| == 5 && Text(fs) == cron :: MinuteAllowed(fs, now)
  }

  lemma MatchAllows(cron: string, now: DateTime)
    requires Matches(cron, Fields(now)) && -4 <= Days(now.date) < 0x8000_0000
    ensures TextAllows(cron, now)
  {
    hide Text, Matches, Fields, MinuteAllowed;
    forall fs | ProperFields(fs) && |fs| == 5 && Text(fs) == cron
      ensures MinuteAllowed(fs, now)
    {
      FiveFieldsMatch(fs, now);
    }
  }

  /** A text cut short: every field that is missing stands for the number 0. */
  lemma {:induction false} MissingFieldsAreZero(values: seq<int>)
    ensures Matches("", values) <==> forall i :: 0 <= i < |values| ==> values[i] == 0
  {
    EmptyField();
    hide FieldMatches, AfterField;
    if values != [] {
      MissingFieldsAreZero(values[1..]);
      assert forall i :: 0 < i < |values| ==> values[i] == values[1..][i - 1];
    }
  }

  lemma EmptyField()
    ensures AfterField("") == "" && forall v :: FieldMatches("", v) <==> v == 0
  {
  }
}
