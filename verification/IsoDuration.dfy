/** The scanner for ISO 8601 durations such as PT07H25M.  It shrinks its input and
    restarts its index at every H and M; the integers are 64-bit and wrap. */
module IsoDuration {
  import opened Wrappers

  const TWO_63 := 0x8000_0000_0000_0000
  const TWO_64 := 0x1_0000_0000_0000_0000

  /** Nanoseconds of an hour and of a minute. */
  const HOUR := 3_600_000_000_000
  const MINUTE := 60_000_000_000

  predicate FitsInt64(x: int) { -TWO_63 <= x < TWO_63 }

  /** Two's complement wrap-around. */
  function Wrap(x: int): (w: int)
    ensures FitsInt64(w)
  {
    (x + TWO_63) % TWO_64 - TWO_63
  }

  /** How many times 2^64 the wrap takes away. */
  function Laps(x: int): int { (x + TWO_63) / TWO_64 }

  lemma WrapIs(x: int)
    ensures Wrap(x) == x - Laps(x) * TWO_64
    ensures FitsInt64(x) <==> Wrap(x) == x
  {
  }

  /** The wrap of x is the only 64-bit number that differs from x by laps. */
  lemma WrapUnique(x: int, y: int, k: int)
    requires y == x + k * TWO_64
    ensures Wrap(y) == Wrap(x)
  {
    WrapIs(x);
    WrapIs(y);
    var d := Laps(y) - Laps(x) - k;
    assert Wrap(x) - Wrap(y) == d * TWO_64;
  }

  lemma WrapLinear(x: int, y: int, a: int, b: int)
    ensures Wrap(Wrap(x) * a + Wrap(y) * b) == Wrap(x * a + y * b)
  {
    WrapIs(x);
    WrapIs(y);
    var k := -(Laps(x) * a) - Laps(y) * b;
    assert Wrap(x) * a == x * a - (Laps(x) * a) * TWO_64;
    assert Wrap(y) * b == y * b - (Laps(y) * b) * TWO_64;
    WrapUnique(x * a + y * b, Wrap(x) * a + Wrap(y) * b, k);
  }

  // ---------------------------------------------------------------- numbers

  predicate IsDigit(c: char) { '0' <= c <= '9' }

  predicate AllDigits(s: string) { forall i :: 0 <= i < |s| ==> IsDigit(s[i]) }

  function Decimal(s: string): nat
    requires AllDigits(s)
  {
    if s == "" then 0 else 10 * Decimal(s[..|s| - 1]) + (s[|s| - 1] as int - '0' as int)
  }

  /** The number atoiSafe reads: None for the empty string and for any non-digit. */
  function Atoi(s: string): Option<int> {
    if s != "" && AllDigits(s) then Some(Wrap(Decimal(s))) else None
  }

  lemma DecimalSnoc(s: string, i: nat)
    requires i < |s| && AllDigits(s[..i]) && IsDigit(s[i])
    ensures AllDigits(s[..i + 1]) && Decimal(s[..i + 1]) == 10 * Decimal(s[..i]) + (s[i] as int - '0' as int)
  {
    assert s[..i + 1][..i] == s[..i];
  }

  method AtoiSafe(s: string) returns (r: Option<int>)
    ensures r == Atoi(s)
  {
    if s == "" {
      return None;
    }
    var n := 0;
    for i := 0 to |s|
      invariant AllDigits(s[..i]) && n == Wrap(Decimal(s[..i]))
    {
      var c := s[i];
      if c < '0' || c > '9' {
        return None;
      }
      DecimalSnoc(s, i);
      var digit := c as int - '0' as int;
      WrapIs(digit);
      WrapLinear(Decimal(s[..i]), digit, 10, 1);
      n := Wrap(n * 10 + digit);
    }
    assert s[..|s|] == s;
    r := Some(n);
  }

  // ---------------------------------------------------------------- segments

  predicate IsMark(c: char) { c == 'H' || c == 'M' }

  predicate NoMarks(s: string) { forall i :: 0 <= i < |s| ==> !IsMark(s[i]) }

  datatype Segment = Segment(text: string, mark: char)

  /** The pieces of s that end in an H or an M, in order. */
  function Segments(s: string): seq<Segment> {
    SegmentsFrom(s, 0)
  }

  function SegmentsFrom(s: string, i: nat): seq<Segment>
    requires i <= |s|
    decreases |s|, |s| - i
  {
    if i == |s| then []
    else if IsMark(s[i]) then [Segment(s[..i], s[i])] + SegmentsFrom(s[i + 1..], 0)
    else SegmentsFrom(s, i + 1)
  }

  function Join(segs: seq<Segment>): string {
    if segs == [] then "" else segs[0].text + [segs[0].mark] + Join(segs[1..])
  }

  /** Splitting loses nothing: the pieces and a rest without marks make up s, and no
      piece has a mark inside. */
  lemma {:induction false} SegmentsSplit(s: string, i: nat) returns (rest: string)
    requires i <= |s| && NoMarks(s[..i])
    ensures s == Join(SegmentsFrom(s, i)) + rest && NoMarks(rest)
    ensures forall k :: 0 <= k < |SegmentsFrom(s, i)| ==>
      NoMarks(SegmentsFrom(s, i)[k].text) && IsMark(SegmentsFrom(s, i)[k].mark)
    decreases |s|, |s| - i
  {
    if i == |s| {
      assert s[..i] == s;
      rest := s;
    } else if IsMark(s[i]) {
      rest := SegmentsSplit(s[i + 1..], 0);
      assert s == s[..i] + [s[i]] + s[i + 1..];
    } else {
      rest := SegmentsSplit(s, i + 1);
    }
  }

  lemma {:induction false} SegmentsSkip(s: string, i: nat)
    requires i <= |s| && NoMarks(s[..i])
    ensures SegmentsFrom(s, i) == Segments(s)
  {
    if i > 0 {
      assert s[..i - 1] == s[..i][..i - 1];
      assert !IsMark(s[..i][i - 1]);
      SegmentsSkip(s, i - 1);
    }
  }

  /** Split after join: pieces come back as they went in. */
  lemma SegmentsCons(text: string, mark: char, s: string)
    requires NoMarks(text) && IsMark(mark)
    ensures Segments(text + [mark] + s) == [Segment(text, mark)] + Segments(s)
  {
    var t := text + [mark] + s;
    assert t[..|text|] == text && t[|text| + 1..] == s;
    SegmentsSkip(t, |text|);
  }

  /** The number of the last all-digit piece with this mark, 0 if there is none. */
  function Last(segs: seq<Segment>, mark: char): int {
    if segs == [] then 0
    else
      var seg := segs[|segs| - 1];
      if seg.mark == mark && Atoi(seg.text).Some? then Atoi(seg.text).value
      else Last(segs[..|segs| - 1], mark)
  }

  /** The duration in nanoseconds that s stands for. */
  function Duration(s: string): int {
    if |s| < 3 || s[..2] != "PT" then 0
    else Wrap(Last(Segments(s[2..]), 'H') * HOUR + Last(Segments(s[2..]), 'M') * MINUTE)
  }

  lemma LastSnoc(segs: seq<Segment>, seg: Segment, mark: char)
    ensures Last(segs + [seg], mark)
            == if seg.mark == mark && Atoi(seg.text).Some? then Atoi(seg.text).value else Last(segs, mark)
  {
    assert (segs + [seg])[..|segs|] == segs;
  }

  /** Main result: on every string the scanner stops, and computes Duration. */
  method ParseISODuration(s: string) returns (d: int)
    ensures d == Duration(s)
  {
    if s == "" {
      return 0;
    }
    if |s| < 3 || s[..2] != "PT" {
      return 0;
    }
    var rest := s[2..];
    var hours, minutes := 0, 0;
    ghost var done: seq<Segment> := [];
    var i := 0;
    while i < |rest|
      invariant 0 <= i <= |rest| && NoMarks(rest[..i])
      invariant Segments(s[2..]) == done + Segments(rest)
      invariant hours == Last(done, 'H') && minutes == Last(done, 'M')
      decreases |rest|, |rest| - i
    {
      SegmentsSkip(rest, i);
      if IsMark(rest[i]) {
        var v := AtoiSafe(rest[..i]);
        ghost var seg := Segment(rest[..i], rest[i]);
        LastSnoc(done, seg, 'H');
        LastSnoc(done, seg, 'M');
        if rest[i] == 'H' {
          if v.Some? { hours := v.value; }
        } else {
          if v.Some? { minutes := v.value; }
        }
        done := done + [seg];
        rest := rest[i + 1..];
        i := -1;
      }
      i := i + 1;
    }
    SegmentsSkip(rest, i);
    assert Segments(s[2..]) == done;
    var h, m := hours * HOUR, minutes * MINUTE;
    WrapLinear(h, m, 1, 1);
    assert Wrap(Wrap(h) + Wrap(m)) == Wrap(h + m);
    d := Wrap(Wrap(h) + Wrap(m));
  }

  // ---------------------------------------------------------------- round trip

  function Print(n: nat): (s: string)
    ensures s != "" && AllDigits(s) && Decimal(s) == n
  {
    var c := ('0' as int + n % 10) as char;
    if n < 10 then [c]
    else
      var s := Print(n / 10) + [c];
      assert s[..|s| - 1] == Print(n / 10);
      s
  }

  function Zeros(k: nat): string { seq(k, _ => '0') }

  lemma {:induction false} LeadingZeros(k: nat, s: string)
    requires AllDigits(s)
    ensures AllDigits(Zeros(k) + s) && Decimal(Zeros(k) + s) == Decimal(s)
  {
    var t := Zeros(k) + s;
    if s == "" {
      if k > 0 {
        LeadingZeros(k - 1, "");
        assert t[..|t| - 1] == Zeros(k - 1) + "";
      }
    } else {
      LeadingZeros(k, s[..|s| - 1]);
      assert t[..|t| - 1] == Zeros(k) + s[..|s| - 1];
    }
  }

  /** PThHmM with j and k leading zeros. */
  function Render(h: nat, m: nat, j: nat, k: nat): string {
    "PT" + ((Zeros(j) + Print(h)) + ['H'] + ((Zeros(k) + Print(m)) + ['M']))
  }

  /** Main result: reading back h hours and m minutes, printed with any leading
      zeros, gives exactly h hours and m minutes in nanoseconds if and only if that many
      fit in an int64. */
  lemma RoundTrip(h: nat, m: nat, j: nat, k: nat)
    ensures Duration(Render(h, m, j, k)) == h * 3_600_000_000_000 + m * 60_000_000_000
            <==> h * 3_600_000_000_000 + m * 60_000_000_000 <= 9_223_372_036_854_775_807
  {
    var hs, ms := Zeros(j) + Print(h), Zeros(k) + Print(m);
    LeadingZeros(j, Print(h));
    LeadingZeros(k, Print(m));
    DigitsNoMarks(hs);
    DigitsNoMarks(ms);
    TwoPieces(hs, 'H', ms, 'M');
    assert Render(h, m, j, k) == "PT" + (hs + ['H'] + (ms + ['M']));
    WrapLinear(h, m, HOUR, MINUTE);
    WrapIs(h * HOUR + m * MINUTE);
  }

  /** The pieces of a string made of one piece. */
  lemma OnePiece(text: string, mark: char)
    requires NoMarks(text) && IsMark(mark)
    ensures var s := "PT" + (text + [mark]);
      |s| >= 3 && s[..2] == "PT" && Segments(s[2..]) == [Segment(text, mark)]
  {
    var s := "PT" + (text + [mark]);
    assert s[..2] == "PT" && s[2..] == text + [mark];
    assert text + [mark] + "" == text + [mark];
    SegmentsCons(text, mark, "");
  }

  /** The pieces of a string made of two. */
  lemma TwoPieces(a: string, p: char, b: string, q: char)
    requires NoMarks(a) && IsMark(p) && NoMarks(b) && IsMark(q)
    ensures var s := "PT" + (a + [p] + (b + [q]));
      && |s| >= 3 && s[..2] == "PT"
      && Duration(s) == Wrap(Last([Segment(a, p), Segment(b, q)], 'H') * HOUR
                             + Last([Segment(a, p), Segment(b, q)], 'M') * MINUTE)
    ensures forall mark :: Last([Segment(a, p), Segment(b, q)], mark)
                           == if q == mark && Atoi(b).Some? then Atoi(b).value
                              else if p == mark && Atoi(a).Some? then Atoi(a).value else 0
  {
    var s := "PT" + (a + [p] + (b + [q]));
    assert s[..2] == "PT" && s[2..] == a + [p] + (b + [q]);
    SegmentsCons(a, p, b + [q]);
    assert b + [q] + "" == b + [q];
    SegmentsCons(b, q, "");
    var segs := [Segment(a, p), Segment(b, q)];
    assert [Segment(a, p)] + [Segment(b, q)] == segs;
    assert Segments(s[2..]) == segs;
    forall mark ensures Last(segs, mark) == if q == mark && Atoi(b).Some? then Atoi(b).value
                                            else if p == mark && Atoi(a).Some? then Atoi(a).value else 0
    {
      LastSnoc([Segment(a, p)], Segment(b, q), mark);
      LastSnoc([], Segment(a, p), mark);
      assert [] + [Segment(a, p)] == [Segment(a, p)];
    }
  }

  /** Main result: hours alone read back as hours, without minutes. */
  lemma HoursAlone(h: nat, j: nat)
    ensures Duration("PT" + (Zeros(j) + Print(h) + ['H'])) == h * 3_600_000_000_000
            <==> h * 3_600_000_000_000 <= 9_223_372_036_854_775_807
  {
    var hs := Zeros(j) + Print(h);
    LeadingZeros(j, Print(h));
    DigitsNoMarks(hs);
    OnePiece(hs, 'H');
    LastSnoc([], Segment(hs, 'H'), 'H');
    LastSnoc([], Segment(hs, 'H'), 'M');
    assert [] + [Segment(hs, 'H')] == [Segment(hs, 'H')];
    WrapLinear(h, 0, HOUR, MINUTE);
    WrapIs(h * HOUR);
  }

  /** Main result: minutes alone read back as minutes, without hours. */
  lemma MinutesAlone(m: nat, k: nat)
    ensures Duration("PT" + (Zeros(k) + Print(m) + ['M'])) == m * 60_000_000_000
            <==> m * 60_000_000_000 <= 9_223_372_036_854_775_807
  {
    var ms := Zeros(k) + Print(m);
    LeadingZeros(k, Print(m));
    DigitsNoMarks(ms);
    OnePiece(ms, 'M');
    LastSnoc([], Segment(ms, 'M'), 'H');
    LastSnoc([], Segment(ms, 'M'), 'M');
    assert [] + [Segment(ms, 'M')] == [Segment(ms, 'M')];
    WrapLinear(0, m, HOUR, MINUTE);
    WrapIs(m * MINUTE);
  }

  /** Of two numbers of hours the later counts; a piece that is no number does not. */
  lemma LaterCounts(h: nat, text: string)
    requires NoMarks(text)
    ensures var fits := h * 3_600_000_000_000 <= 9_223_372_036_854_775_807;
      && (AllDigits(text) && text != "" ==>
            (Duration("PT" + (text + ['H'] + (Print(h) + ['H']))) == h * 3_600_000_000_000 <==> fits))
      && (!AllDigits(text) || text == "" ==>
            (Duration("PT" + (Print(h) + ['H'] + (text + ['H']))) == h * 3_600_000_000_000 <==> fits))
  {
    DigitsNoMarks(Print(h));
    TwoPieces(text, 'H', Print(h), 'H');
    TwoPieces(Print(h), 'H', text, 'H');
    WrapLinear(h, 0, HOUR, MINUTE);
    WrapIs(h * HOUR);
  }

  /** The piece is a number of this kind. */
  predicate Numeric(seg: Segment, mark: char) {
    seg.mark == mark && seg.text != "" && AllDigits(seg.text)
  }

  predicate NoneNumeric(segs: seq<Segment>, mark: char) {
    forall k :: 0 <= k < |segs| ==> !Numeric(segs[k], mark)
  }

  /** Main result: the last number of a kind counts, whatever else there is, in 64-bit
      arithmetic. */
  lemma {:induction false} LastCounts(segs: seq<Segment>, mark: char, k: nat)
    requires k < |segs| && Numeric(segs[k], mark) && NoneNumeric(segs[k + 1..], mark)
    ensures Last(segs, mark) == Wrap(Decimal(segs[k].text))
  {
    var n := |segs| - 1;
    if k < n {
      assert segs[k + 1..][n - k - 1] == segs[n];
      assert segs[..n][k + 1..] == segs[k + 1..][..n - k - 1];
      LastCounts(segs[..n], mark, k);
    }
  }

  /** Without a number of a kind there are none of them. */
  lemma {:induction false} NoneCounts(segs: seq<Segment>, mark: char)
    requires NoneNumeric(segs, mark)
    ensures Last(segs, mark) == 0
  {
    if segs != [] { NoneCounts(segs[..|segs| - 1], mark); }
  }

  /** Without the prefix, or without a number, there is no duration. */
  lemma NothingRead(s: string)
    ensures |s| < 3 || s[..2] != "PT" ==> Duration(s) == 0
    ensures |s| >= 3 && NoneNumeric(Segments(s[2..]), 'H') && NoneNumeric(Segments(s[2..]), 'M') ==> Duration(s) == 0
  {
    if |s| >= 3 && NoneNumeric(Segments(s[2..]), 'H') && NoneNumeric(Segments(s[2..]), 'M') {
      NoneCounts(Segments(s[2..]), 'H');
      NoneCounts(Segments(s[2..]), 'M');
    }
  }

  lemma DigitsNoMarks(s: string)
    requires AllDigits(s)
    ensures NoMarks(s)
  {
  }
}
