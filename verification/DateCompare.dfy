/** Reading a date-time text back: its format flags, and the order of two texts of one format. */
module DateCompare {
  import opened Arithmetic
  import opened DigitText
  import opened Lexicographic
  import opened Calendar
  import opened DateText

  // ---- the flags of a text ----

  /** dt_str_flags: the flags from the characters at 2, 10 and 13 and the length. */
  function DtStrFlags(buf: string): Flags
    requires |buf| >= 14
  {
    var n := |buf|;
    var yearFirst := '0' <= buf[2] <= '9';
    var sep1 := buf[10] == ' ';
    var sep2 := !sep1 && buf[13] == '.';
    Flags(yearFirst, !yearFirst, sep1, sep2, !sep1 && !sep2,
          n == 19, n == 23, n == 26, n != 19 && n != 23 && n != 26)
  }

  lemma {:induction false} FixedAllDigits(n: nat, w: nat)
    ensures AllDigits(FixedText(n, w))
  {
    if w > 0 { FixedAllDigits(n / 10, w - 1); }
  }

  lemma {:induction false} DateMarks(d: Date, f: Flags)
    requires OneChoice(f)
    ensures |Join(DateFields(d, f))| == 11 && IsDigit(Join(DateFields(d, f))[2]) == f.yyyyMmDd
    ensures Join(DateFields(d, f))[10] == if f.sep1 then ' ' else '-'
  {
    hide FixedText, Join;
    var fs := DateFields(d, f);
    JoinThree(fs[0], fs[1], fs[2]);
    FixedAllDigits(d.year, 4);
  }

  lemma {:induction false} TimeMarks(m: Moment, f: Flags)
    ensures |Join(TimeFields(m, f))| == if f.secs then 8 else 9 + FracWidth(f)
    ensures Join(TimeFields(m, f))[2] == if f.sep1 || f.sep3 then ':' else '.'
  {
    hide FixedText, Join;
    TimeText(m, f);
  }

  /** Every choice of flags is read back from the text written with it. */
  lemma {:induction false} FlagsRecovered(m: Moment, f: Flags)
    requires OneChoice(f)
    ensures |Text(m, f)| >= 19 && DtStrFlags(Text(m, f)) == f
  {
    hide Text, Join;
    TextParts(m, f);
    DateMarks(m.date, f);
    TimeMarks(m, f);
    assert Text(m, f)[13] == Join(TimeFields(m, f))[2];
  }

  // ---- byte order ----

  /** Numbers of the same width compare as their texts. */
  lemma {:induction false} FixedOrder(x: nat, y: nat, w: nat)
    requires x < Pow10(w) && y < Pow10(w)
    ensures LexLess(FixedText(x, w), FixedText(y, w)) <==> x < y
    ensures FixedText(x, w) == FixedText(y, w) <==> x == y
  {
    if w > 0 {
      FixedOrder(x / 10, y / 10, w - 1);
      var c, d := [DigitChar(x % 10)], [DigitChar(y % 10)];
      LexConcat(FixedText(x / 10, w - 1), FixedText(y / 10, w - 1), c, d);
      assert LexLess(c, d) <==> x % 10 < y % 10 by { assert !LexLess(c[1..], d[1..]); }
      FixedDigits(x, w);
      FixedDigits(y, w);
    }
  }

  predicate SameShape(a: seq<Field>, b: seq<Field>) {
    && |a| == |b|
    && forall k :: 0 <= k < |a| ==>
         a[k].width == b[k].width && a[k].sep == b[k].sep && a[k].value < Pow10(a[k].width) && b[k].value < Pow10(b[k].width)
  }

  /** Fields compare by their values, the first one first. */
  predicate FieldsBefore(a: seq<Field>, b: seq<Field>)
    requires |a| == |b|
  {
    a != [] && (a[0].value < b[0].value || (a[0].value == b[0].value && FieldsBefore(a[1..], b[1..])))
  }

  lemma {:induction false} JoinOrder(a: seq<Field>, b: seq<Field>)
    requires SameShape(a, b)
    ensures LexLess(Join(a), Join(b)) <==> FieldsBefore(a, b)
  {
    hide FixedText, LexLess, Pow10;
    if a == [] {
      LexTotal("", "");
    } else {
      var ta, tb, sep := FixedText(a[0].value, a[0].width), FixedText(b[0].value, b[0].width), a[0].sep;
      FixedOrder(a[0].value, b[0].value, a[0].width);
      LexConcat(ta, tb, sep + Join(a[1..]), sep + Join(b[1..]));
      LexConcat(sep, sep, Join(a[1..]), Join(b[1..]));
      LexTotal(sep, sep);
      assert Join(a) == ta + (sep + Join(a[1..])) && Join(b) == tb + (sep + Join(b[1..]));
      JoinOrder(a[1..], b[1..]);
    }
  }

  // ---- texts against timestamps ----

  function Fields(m: Moment, f: Flags): seq<Field> { DateFields(m.date, f) + TimeFields(m, f) }

  lemma {:induction false} FieldsFit(m: Moment, ts: nat, f: Flags)
    requires Denotes(m, ts)
    ensures forall k :: 0 <= k < 7 ==> Fields(m, f)[k].value < Pow10(Fields(m, f)[k].width)
  {
    NineDigits();
    assert Pow10(0) == 1 && Pow10(2) == 100 && Pow10(4) == 10_000;
    assert m.date.day <= 31;
  }

  /** Seven fields compared one after the other. */
  lemma {:induction false} SevenFields(a: seq<Field>, b: seq<Field>)
    requires |a| == |b| == 7
    ensures FieldsBefore(a, b) <==>
      a[0].value < b[0].value || (a[0].value == b[0].value && (a[1].value < b[1].value || (a[1].value == b[1].value && (
      a[2].value < b[2].value || (a[2].value == b[2].value && (a[3].value < b[3].value || (a[3].value == b[3].value && (
      a[4].value < b[4].value || (a[4].value == b[4].value && (a[5].value < b[5].value || (a[5].value == b[5].value &&
      a[6].value < b[6].value)))))))))))
  {
    Later(a, b, 0); Later(a, b, 1); Later(a, b, 2); Later(a, b, 3); Later(a, b, 4); Later(a, b, 5); Later(a, b, 6);
    assert !FieldsBefore(a[7..], b[7..]);
    assert a[0..] == a && b[0..] == b;
  }

  lemma {:induction false} Later(a: seq<Field>, b: seq<Field>, k: nat)
    requires |a| == |b| && k < |a|
    ensures FieldsBefore(a[k..], b[k..]) <==> a[k].value < b[k].value || (a[k].value == b[k].value && FieldsBefore(a[k + 1..], b[k + 1..]))
  {
    assert a[k..][1..] == a[k + 1..] && b[k..][1..] == b[k + 1..];
  }

  /** The second of a moment since 1970. */
  function Second(m: Moment): int
    requires m.date.year >= 1970
  {
    DayNumber(m.date) * SECONDS_PER_DAY + (m.hours * 60 + m.mins) * 60 + m.secs
  }

  lemma {:induction false} Units(m: Moment, ts: nat, f: Flags)
    requires Denotes(m, ts)
    ensures ts / FracUnit(f) == Second(m) * (NANOS / FracUnit(f)) + m.nanos / FracUnit(f)
    ensures 0 <= m.nanos / FracUnit(f) < NANOS / FracUnit(f)
  {
    hide DayNumber;
    Scaled(Second(m), m.nanos, FracUnit(f), NANOS / FracUnit(f));
  }

  lemma {:induction false} Scaled(s: int, n: nat, u: nat, k: nat)
    requires u > 0 && n < k * u
    ensures (s * (k * u) + n) / u == s * k + n / u && n / u < k
  {
    var q, r := n / u, n % u;
    Associate(s, k, u);
    assert s * (k * u) + n == (s * k + q) * u + r;
    DivUnique(s * (k * u) + n, u, s * k + q, r);
    if q >= k { MulMonotone(k, q, u); }
  }

  lemma {:induction false} SecondOrder(a: Moment, b: Moment, ta: nat, tb: nat)
    requires Denotes(a, ta) && Denotes(b, tb)
    ensures Second(a) < Second(b) <==>
      Before(a.date, b.date) || (a.date == b.date && (a.hours < b.hours || (a.hours == b.hours && (
      a.mins < b.mins || (a.mins == b.mins && a.secs < b.secs)))))
    ensures Second(a) == Second(b) <==> a.date == b.date && a.hours == b.hours && a.mins == b.mins && a.secs == b.secs
  {
    hide DayNumber;
    DateOrder(a.date, b.date);
  }

  lemma {:induction false} UnitOrder(x: int, y: int, p: int, q: int, m: int)
    requires 0 <= p < m && 0 <= q < m
    ensures x * m + p < y * m + q <==> x < y || (x == y && p < q)
  {
    if x < y { MulMonotone(1, y - x, m); }
    if x > y { MulMonotone(1, x - y, m); }
  }

  /** With the year first, texts of one format order as the timestamps do at the precision of the format. */
  lemma {:induction false} TextOrder(a: Moment, b: Moment, ta: nat, tb: nat, f: Flags)
    requires f.yyyyMmDd && Denotes(a, ta) && Denotes(b, tb)
    ensures LexLess(Text(a, f), Text(b, f)) <==> ta / FracUnit(f) < tb / FracUnit(f)
  {
    hide LexLess, Join, FieldsBefore, Pow10, DayNumber;
    var u := FracUnit(f);
    FieldsFit(a, ta, f);
    FieldsFit(b, tb, f);
    JoinOrder(Fields(a, f), Fields(b, f));
    SevenFields(Fields(a, f), Fields(b, f));
    Units(a, ta, f);
    Units(b, tb, f);
    UnitOrder(Second(a), Second(b), a.nanos / u, b.nanos / u, NANOS / u);
    SecondOrder(a, b, ta, tb);
  }

  /** Two texts of one year-first format are the same exactly when the timestamps are, at its precision. */
  lemma {:induction false} TextEqual(a: Moment, b: Moment, ta: nat, tb: nat, f: Flags)
    requires f.yyyyMmDd && Denotes(a, ta) && Denotes(b, tb)
    ensures Text(a, f) == Text(b, f) <==> ta / FracUnit(f) == tb / FracUnit(f)
  {
    TextOrder(a, b, ta, tb, f);
    TextOrder(b, a, tb, ta, f);
    LexTotal(Text(a, f), Text(b, f));
  }
}
