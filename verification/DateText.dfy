/** The date-time text of a timestamp: how it is written into a buffer, how its format flags are recovered
    from it, and how texts compare. */
module DateText {
  import opened Arithmetic
  import opened DigitText
  import opened Calendar

  const NANOS: nat := 1_000_000_000
  const SECONDS_PER_DAY: nat := 86_400
  const BUFSIZE: nat := 32

  /** dtf::flags, one field per bit. */
  datatype Flags = Flags(
    yyyyMmDd: bool, ddMmYyyy: bool, sep1: bool, sep2: bool, sep3: bool,
    secs: bool, msecs: bool, usecs: bool, nsecs: bool)

  /** One choice in every group. */
  predicate OneChoice(f: Flags) {
    && f.yyyyMmDd != f.ddMmYyyy
    && (f.sep1 || f.sep2 || f.sep3) && !(f.sep1 && f.sep2) && !(f.sep1 && f.sep3) && !(f.sep2 && f.sep3)
    && (f.secs || f.msecs || f.usecs || f.nsecs)
    && !(f.secs && (f.msecs || f.usecs || f.nsecs)) && !(f.msecs && (f.usecs || f.nsecs)) && !(f.usecs && f.nsecs)
  }

  /** The parts of a timestamp. */
  datatype Moment = Moment(date: Date, hours: nat, mins: nat, secs: nat, nanos: nat)

  /** `m` is the civil form of `ts` nanoseconds since 1970. */
  predicate Denotes(m: Moment, ts: nat) {
    && ValidDate(m.date) && m.date.year <= 9999 && m.hours < 24 && m.mins < 60 && m.secs < 60 && m.nanos < NANOS
    && ts == ((DayNumber(m.date) * SECONDS_PER_DAY) + (m.hours * 60 + m.mins) * 60 + m.secs) * NANOS + m.nanos
  }

  function DateSep(f: Flags): string { if f.sep1 then "-" else "." }

  function TimeSep(f: Flags): string { if f.sep1 || f.sep3 then ":" else "." }

  function MiddleSep(f: Flags): string { if f.sep1 then " " else "-" }

  /** Digits of the fraction, and the nanoseconds one unit of it stands for. */
  function FracWidth(f: Flags): nat { if f.secs then 0 else if f.msecs then 3 else if f.usecs then 6 else 9 }

  function FracUnit(f: Flags): nat { if f.secs then NANOS else if f.msecs then 1_000_000 else if f.usecs then 1000 else 1 }

  function FracSep(f: Flags): string { if f.secs then "" else "." }

  /** Fixed-width numbers, each followed by its separator. */
  datatype Field = Field(value: nat, width: nat, sep: string)

  function Join(fields: seq<Field>): string {
    if fields == [] then "" else FixedText(fields[0].value, fields[0].width) + fields[0].sep + Join(fields[1..])
  }

  function DateFields(d: Date, f: Flags): seq<Field> {
    if f.yyyyMmDd then [Field(d.year, 4, DateSep(f)), Field(d.month + 1, 2, DateSep(f)), Field(d.day, 2, MiddleSep(f))]
    else [Field(d.day, 2, DateSep(f)), Field(d.month + 1, 2, DateSep(f)), Field(d.year, 4, MiddleSep(f))]
  }

  function TimeFields(m: Moment, f: Flags): seq<Field> {
    [Field(m.hours, 2, TimeSep(f)), Field(m.mins, 2, TimeSep(f)), Field(m.secs, 2, FracSep(f)),
     Field(m.nanos / FracUnit(f), FracWidth(f), "")]
  }

  function Text(m: Moment, f: Flags): string { Join(DateFields(m.date, f) + TimeFields(m, f)) }

  // ---- writing ----

  /** num_chars: the number of decimal digits, with a first threshold of 10^17 where 10^16 was due. */
  function NumChars(v: nat): nat {
    var n1, v1 := if v >= 100_000_000_000_000_000 then 18 else 1, if v >= 100_000_000_000_000_000 then v / 100_000_000_000_000_000 else v;
    var n2, v2 := if v1 >= 100_000_000 then n1 + 8 else n1, if v1 >= 100_000_000 then v1 / 100_000_000 else v1;
    var n3, v3 := if v2 >= 10_000 then n2 + 4 else n2, if v2 >= 10_000 then v2 / 10_000 else v2;
    var n4, v4 := if v3 >= 100 then n3 + 2 else n3, if v3 >= 100 then v3 / 100 else v3;
    if v4 >= 10 then n4 + 1 else n4
  }

  /** The buffer holds the text written so far, and zeros behind it. */
  ghost predicate Holds(buf: array<char>, text: string)
    reads buf
  {
    buf.Length >= BUFSIZE && |text| <= BUFSIZE && buf[..BUFSIZE] == text + Zeros(BUFSIZE - |text|)
  }

  /** `*p++ = c`. */
  method PutChar(buf: array<char>, p: nat, c: char, ghost text: string) returns (q: nat)
    requires Holds(buf, text) && p == |text| < BUFSIZE
    modifies buf
    ensures Holds(buf, text + [c]) && q == p + 1
  {
    buf[p] := c;
    q := p + 1;
    assert old(buf[..BUFSIZE])[p := c] == buf[..BUFSIZE];
    assert (text + Zeros(BUFSIZE - |text|))[p := c] == (text + [c]) + Zeros(BUFSIZE - |text| - 1);
  }

  /** The two-digit macros. */
  method Put2(buf: array<char>, p: nat, v: nat, ghost text: string) returns (q: nat)
    requires Holds(buf, text) && p == |text| && p + 2 <= BUFSIZE
    modifies buf
    ensures Holds(buf, text + FixedText(v, 2)) && q == p + 2
  {
    q := PutChar(buf, p, DigitChar((v / 10) % 10), text);
    q := PutChar(buf, q, DigitChar(v % 10), text + [DigitChar((v / 10) % 10)]);
    assert FixedText(v, 2) == [DigitChar((v / 10) % 10), DigitChar(v % 10)];
    assert (text + [DigitChar((v / 10) % 10)]) + [DigitChar(v % 10)] == text + FixedText(v, 2);
  }

  method Put4(buf: array<char>, p: nat, v: nat, ghost text: string) returns (q: nat)
    requires Holds(buf, text) && p == |text| && p + 4 <= BUFSIZE
    modifies buf
    ensures Holds(buf, text + FixedText(v, 4)) && q == p + 4
  {
    q := Put2(buf, p, v / 100, text);
    q := Put2(buf, q, v, text + FixedText(v / 100, 2));
    FixedSplit(v);
    assert (text + FixedText(v / 100, 2)) + FixedText(v, 2) == text + FixedText(v, 4);
  }

  lemma {:induction false} FixedSplit(v: nat)
    ensures FixedText(v, 4) == FixedText(v / 100, 2) + FixedText(v, 2)
  {
    assert FixedText(v, 4) == FixedText(v / 10, 3) + [DigitChar(v % 10)];
    assert FixedText(v / 10, 3) == FixedText(v / 10 / 10, 2) + [DigitChar(v / 10 % 10)];
    assert v / 10 / 10 == v / 100;
    assert FixedText(v, 2) == FixedText(v / 10, 1) + [DigitChar(v % 10)];
    assert FixedText(v / 10, 1) == FixedText(v / 100, 0) + [DigitChar(v / 10 % 10)];
  }

  // ---- digit counting ----

  lemma {:induction false} DivTwice(v: nat, a: nat, b: nat)
    requires a > 0 && b > 0
    ensures (v / a) / b == v / (a * b)
  {
    var s := v / a;
    var q, r := s / b, s % b;
    assert v == s * a + v % a && s == q * b + r;
    assert s * a == q * (a * b) + r * a;
    MulMonotone(r + 1, b, a);
    assert (r + 1) * a == r * a + a;
    DivUnique(v, a * b, q, r * a + v % a);
  }

  /** Dropping `k` digits. */
  lemma {:induction false} Shifted(v: nat, k: nat)
    requires v >= Pow10(k)
    ensures v / Pow10(k) > 0 && |DecText(v)| == k + |DecText(v / Pow10(k))|
  {
    if k > 0 {
      assert Pow10(k - 1) >= 1;
      Shifted(v / 10, k - 1);
      DivTwice(v, 10, Pow10(k - 1));
    }
  }

  lemma {:induction false} PowersOfTen()
    ensures Pow10(2) == 100 && Pow10(4) == 10_000 && Pow10(8) == 100_000_000
    ensures Pow10(16) == 10_000_000_000_000_000 && Pow10(17) == 100_000_000_000_000_000
  {
    var k := 4;
    assert Pow10(k) == 10_000;
    Pow10Add(k, k);
    Pow10Add(2 * k, 2 * k);
    assert Pow10(4 * k + 1) == 10 * Pow10(4 * k);
  }

  lemma {:induction false} SmallText(v: nat)
    requires v < 1000
    ensures |DecText(v)| == if v < 10 then 1 else if v < 100 then 2 else 3
  {
    if v >= 10 {
      assert |DecText(v)| == 1 + |DecText(v / 10)|;
      if v >= 100 { assert |DecText(v / 10)| == 1 + |DecText(v / 10 / 10)|; }
    }
  }

  /** num_chars is the number of digits except for numbers of 17 digits, which it takes for one digit less. */
  lemma {:induction false} NumCharsExactIff(v: nat)
    requires v < 0x1_0000_0000_0000_0000
    ensures NumChars(v) == |DecText(v)| <==> !(10_000_000_000_000_000 <= v < 100_000_000_000_000_000)
    ensures v < Pow10(NumChars(v)) || 10_000_000_000_000_000 <= v < 100_000_000_000_000_000
  {
    hide DecText, Pow10;
    PowersOfTen();
    if v >= 100_000_000_000_000_000 { Shifted(v, 17); }
    var v1 := if v >= 100_000_000_000_000_000 then v / 100_000_000_000_000_000 else v;
    if v1 >= 100_000_000 { Shifted(v1, 8); }
    var v2 := if v1 >= 100_000_000 then v1 / 100_000_000 else v1;
    if v2 >= 10_000 { Shifted(v2, 4); }
    var v3 := if v2 >= 10_000 then v2 / 10_000 else v2;
    if v3 >= 100 { Shifted(v3, 2); }
    var v4 := if v3 >= 100 then v3 / 100 else v3;
    SmallText(v4);
    assert NumChars(v) > 0;
    DecLength(v, NumChars(v));
  }

  // ---- the fraction ----

  /** utoa: digits written from the right over whatever was there; for more than 20 digits it does nothing. */
  method Utoa(buf: array<char>, p: nat, n: nat, v: nat)
    requires p + n <= buf.Length
    modifies buf
    ensures n <= 20 ==> buf[..] == old(buf[..])[..p] + FixedText(v, n) + old(buf[..])[p + n..]
    ensures n > 20 ==> buf[..] == old(buf[..])
  {
    if n > 20 { return; }
    var k, rest := n, v;
    ghost var was, tail := buf[..], "";
    assert FixedText(v, n) + tail == FixedText(v, n);
    while k > 0
      invariant 0 <= k <= n && 0 <= rest
      invariant FixedText(v, n) == FixedText(rest, k) + tail && |tail| == n - k
      invariant buf[..] == was[..p + k] + tail + was[p + n..]
    {
      k := k - 1;
      var c := DigitChar(rest % 10);
      PutBefore(was, p + k, p + n, tail, c);
      buf[p + k] := c;
      DigitsBefore(rest, k, tail);
      tail := [c] + tail;
      rest := rest / 10;
    }
    assert tail == FixedText(v, n) by { assert FixedText(rest, 0) + tail == tail; }
  }

  lemma {:induction false} PutBefore(was: string, k: nat, e: nat, tail: string, c: char)
    requires k < e <= |was| && |tail| == e - k - 1
    ensures (was[..k + 1] + tail + was[e..])[k := c] == was[..k] + ([c] + tail) + was[e..]
  {
  }

  lemma {:induction false} DigitsBefore(rest: nat, k: nat, tail: string)
    ensures FixedText(rest, k + 1) + tail == FixedText(rest / 10, k) + ([DigitChar(rest % 10)] + tail)
  {
  }

  /** timestamp_to_chars: the number alone, in the unit of the flags. */
  method TimestampToChars(buf: array<char>, ts: nat, f: Flags) returns (n: nat)
    requires buf.Length >= BUFSIZE && ts < 0x1_0000_0000_0000_0000
    modifies buf
    ensures n == NumChars(ts / FracUnit(f)) <= 20 && buf[..n] == FixedText(ts / FracUnit(f), n)
    ensures buf[n..] == old(buf[n..])
  {
    var v := ts / FracUnit(f);
    n := NumChars(v);
    assert n <= 20 by { AtMostTwenty(v); }
    Utoa(buf, 0, n, v);
    assert buf[..n] == buf[..][..n] && buf[n..] == buf[..][n..];
  }

  lemma {:induction false} AtMostTwenty(v: nat)
    requires v < 0x1_0000_0000_0000_0000
    ensures NumChars(v) <= 20
  {
  }

  lemma {:induction false} FixedIsDec(v: nat)
    ensures FixedText(v, |DecText(v)|) == DecText(v)
  {
    if v >= 10 {
      FixedIsDec(v / 10);
    } else {
      assert FixedText(v, 1) == FixedText(v / 10, 0) + [DigitChar(v % 10)];
    }
  }

  /** The number written is the number exactly if it does not have 17 digits, whose first one is then missing. */
  lemma {:induction false} NumericTextIff(v: nat)
    requires v < 0x1_0000_0000_0000_0000
    ensures FixedText(v, NumChars(v)) == DecText(v) <==> !(10_000_000_000_000_000 <= v < 100_000_000_000_000_000)
  {
    hide FixedText, DecText, NumChars;
    NumCharsExactIff(v);
    FixedIsDec(v);
  }

  lemma {:induction false} HoldsMoreZeros(buf: array<char>, text: string, k: nat)
    requires Holds(buf, text) && |text| + k <= BUFSIZE
    ensures Holds(buf, text + Zeros(k))
  {
    assert Zeros(BUFSIZE - |text|) == Zeros(k) + Zeros(BUFSIZE - |text| - k);
    assert text + (Zeros(k) + Zeros(BUFSIZE - |text| - k)) == (text + Zeros(k)) + Zeros(BUFSIZE - |text| - k);
  }

  lemma {:induction false} PaddedText(v: nat, n: nat, w: nat)
    requires v < Pow10(n) && n <= w
    ensures FixedText(v, w) == Zeros(w - n) + FixedText(v, n)
  {
    if n == 0 {
      FixedZeros(w);
    } else {
      PaddedText(v / 10, n - 1, w - 1);
    }
  }

  /** Digits written behind the text extend it. */
  lemma {:induction false} HoldsDigits(buf: array<char>, was: string, text: string, digits: string)
    requires |was| == buf.Length >= BUFSIZE && |text| + |digits| <= BUFSIZE
    requires was[..BUFSIZE] == text + Zeros(BUFSIZE - |text|)
    requires buf[..] == was[..|text|] + digits + was[|text| + |digits|..]
    ensures Holds(buf, text + digits)
  {
    var p, n := |text|, |digits|;
    assert was[..p] == was[..BUFSIZE][..p] == text;
    assert was[p + n..BUFSIZE] == was[..BUFSIZE][p + n..] == Zeros(BUFSIZE - p - n);
    assert buf[..BUFSIZE] == buf[..][..BUFSIZE] == text + digits + was[p + n..BUFSIZE];
  }

  /** utoa behind the text. */
  method PutDigits(buf: array<char>, p: nat, n: nat, v: nat, ghost text: string) returns (q: nat)
    requires Holds(buf, text) && p == |text| && p + n <= BUFSIZE && n <= 20
    modifies buf
    ensures Holds(buf, text + FixedText(v, n)) && q == p + n
  {
    hide FixedText;
    ghost var was := buf[..];
    assert was[..BUFSIZE] == buf[..BUFSIZE];
    Utoa(buf, p, n, v);
    HoldsDigits(buf, was, text, FixedText(v, n));
    q := p + n;
  }

  /** A fraction of at most nine digits is never longer than its width. */
  lemma {:induction false} FractionDigits(v: nat, w: nat)
    requires v < Pow10(w) && 0 < w <= 9
    ensures NumChars(v) <= w && FixedText(v, w) == Zeros(w - NumChars(v)) + FixedText(v, NumChars(v))
  {
    hide FixedText, Pow10, NumChars;
    Pow10Monotone(w, 9);
    NineDigits();
    NumCharsExactIff(v);
    DecLength(v, w);
    PaddedText(v, NumChars(v), w);
  }

  /** The point and the zero-padded fraction. */
  method PutFraction(buf: array<char>, p: nat, v: nat, w: nat, ghost text: string) returns (q: nat)
    requires Holds(buf, text) && p == |text| && p + 1 + w <= BUFSIZE && v < Pow10(w) && 0 < w <= 9
    modifies buf
    ensures Holds(buf, text + "." + FixedText(v, w)) && q == p + 1 + w
  {
    hide FixedText, Pow10, NumChars, Holds;
    q := PutChar(buf, p, '.', text);
    FractionDigits(v, w);
    var n := NumChars(v);
    q := q + (w - n);
    HoldsMoreZeros(buf, text + ".", w - n);
    assert text + "." + Zeros(w - n) + FixedText(v, n) == text + "." + FixedText(v, w);
    q := PutDigits(buf, q, n, v, text + "." + Zeros(w - n));
  }

  lemma {:induction false} NineDigits()
    ensures Pow10(9) == NANOS && Pow10(3) == 1000 && Pow10(6) == 1_000_000
  {
    assert Pow10(3) == 1000;
    var k := 3;
    Pow10Add(k, k);
    Pow10Add(2 * k, k);
  }

  // ---- the whole text ----

  /** Seconds, minutes, hours and the civil date of a 64-bit count of nanoseconds. */
  method SplitTimestamp(ts: nat) returns (m: Moment)
    requires ts < 0x1_0000_0000_0000_0000
    ensures Denotes(m, ts) && m.date.year <= 2554
  {
    var ss, ps := ts / NANOS, ts % NANOS;
    var work := ss % SECONDS_PER_DAY;
    var secs := work % 60;
    work := work / 60;
    var mins, hours := work % 60, work / 60;
    var date := CivilDate(ss / SECONDS_PER_DAY);
    YearHasFourDigits(date);
    m := Moment(date, hours, mins, secs, ps);
  }

  lemma {:induction false} JoinAppend(a: seq<Field>, b: seq<Field>)
    ensures Join(a + b) == Join(a) + Join(b)
  {
    if a == [] {
      assert a + b == b;
    } else {
      assert (a + b)[1..] == a[1..] + b;
      JoinAppend(a[1..], b);
    }
  }

  function FieldText(f: Field): string { FixedText(f.value, f.width) + f.sep }

  lemma {:induction false} JoinThree(a: Field, b: Field, c: Field)
    ensures Join([a, b, c]) == FieldText(a) + FieldText(b) + FieldText(c)
  {
    hide FixedText;
    assert [a, b, c] == [a] + [b, c] && [b, c] == [b] + [c];
    JoinAppend([a], [b, c]);
    JoinAppend([b], [c]);
    JoinOne(a); JoinOne(b); JoinOne(c);
  }

  lemma {:induction false} JoinOne(a: Field)
    ensures Join([a]) == FieldText(a)
  {
    assert [a][1..] == [];
  }

  /** A two-digit number and its separator. */
  method PutField2(buf: array<char>, p: nat, v: nat, sep: char, ghost text: string) returns (q: nat)
    requires Holds(buf, text) && p == |text| && p + 3 <= BUFSIZE
    modifies buf
    ensures Holds(buf, text + FieldText(Field(v, 2, [sep]))) && q == p + 3
  {
    hide FixedText;
    q := Put2(buf, p, v, text);
    q := PutChar(buf, q, sep, text + FixedText(v, 2));
    assert text + FixedText(v, 2) + [sep] == text + FieldText(Field(v, 2, [sep]));
  }

  method PutField4(buf: array<char>, p: nat, v: nat, sep: char, ghost text: string) returns (q: nat)
    requires Holds(buf, text) && p == |text| && p + 5 <= BUFSIZE
    modifies buf
    ensures Holds(buf, text + FieldText(Field(v, 4, [sep]))) && q == p + 5
  {
    hide FixedText;
    q := Put4(buf, p, v, text);
    q := PutChar(buf, q, sep, text + FixedText(v, 4));
    assert text + FixedText(v, 4) + [sep] == text + FieldText(Field(v, 4, [sep]));
  }

  /** The date in either order, and the separator behind it. */
  method PutDate(buf: array<char>, d: Date, f: Flags) returns (p: nat)
    requires Holds(buf, "") && (f.yyyyMmDd || f.ddMmYyyy)
    modifies buf
    ensures Holds(buf, Join(DateFields(d, f))) && p == 11 == |Join(DateFields(d, f))|
  {
    hide FieldText, Join, Holds;
    var datesep, sepsep := if f.sep1 then '-' else '.', if f.sep1 then ' ' else '-';
    ghost var fs := DateFields(d, f);
    JoinThree(fs[0], fs[1], fs[2]);
    FieldLengths(fs[0]); FieldLengths(fs[1]); FieldLengths(fs[2]);
    assert "" + FieldText(fs[0]) == FieldText(fs[0]);
    if f.yyyyMmDd {
      p := PutField4(buf, 0, d.year, datesep, "");
      p := PutField2(buf, p, d.month + 1, datesep, FieldText(fs[0]));
      p := PutField2(buf, p, d.day, sepsep, FieldText(fs[0]) + FieldText(fs[1]));
    } else {
      p := PutField2(buf, 0, d.day, datesep, "");
      p := PutField2(buf, p, d.month + 1, datesep, FieldText(fs[0]));
      p := PutField4(buf, p, d.year, sepsep, FieldText(fs[0]) + FieldText(fs[1]));
    }
  }

  lemma {:induction false} FieldLengths(f: Field)
    ensures |FieldText(f)| == f.width + |f.sep|
  {
  }

  method PutTime(buf: array<char>, p: nat, m: Moment, f: Flags, ghost text: string) returns (q: nat)
    requires Holds(buf, text) && p == |text| == 11 && m.nanos < NANOS
    modifies buf
    ensures Holds(buf, text + Join(TimeFields(m, f))) && q == 11 + |Join(TimeFields(m, f))|
  {
    hide FieldText, Join, Holds, FixedText;
    var timesep := if f.sep1 || f.sep3 then ':' else '.';
    TimeText(m, f);
    ghost var h, mi, s := FieldText(Field(m.hours, 2, TimeSep(f))), FieldText(Field(m.mins, 2, TimeSep(f))), FixedText(m.secs, 2);
    FieldLengths(Field(m.hours, 2, TimeSep(f)));
    FieldLengths(Field(m.mins, 2, TimeSep(f)));
    q := PutField2(buf, p, m.hours, timesep, text);
    q := PutField2(buf, q, m.mins, timesep, text + h);
    q := Put2(buf, q, m.secs, text + h + mi);
    assert text + h + mi + s == text + (h + mi + s);
    var first, second := m.nanos / FracUnit(f), FracWidth(f);
    if second != 0 {
      FractionFits(m.nanos, f);
      q := PutFraction(buf, q, first, second, text + (h + mi + s));
      assert text + (h + mi + s) + "." + FixedText(first, second) == text + (h + mi + s + ("." + FixedText(first, second)));
    } else {
      assert h + mi + s + "" == h + mi + s;
    }
  }

  lemma {:induction false} FractionFits(nanos: nat, f: Flags)
    requires nanos < NANOS
    ensures nanos / FracUnit(f) < Pow10(FracWidth(f))
  {
    NineDigits();
  }

  lemma {:induction false} TimeText(m: Moment, f: Flags)
    ensures Join(TimeFields(m, f)) ==
      FieldText(Field(m.hours, 2, TimeSep(f))) + FieldText(Field(m.mins, 2, TimeSep(f))) + FixedText(m.secs, 2)
      + (if f.secs then "" else "." + FixedText(m.nanos / FracUnit(f), FracWidth(f)))
    ensures |Join(TimeFields(m, f))| == if f.secs then 8 else 9 + FracWidth(f)
  {
    hide FixedText, Join;
    var t := TimeFields(m, f);
    assert t == [t[0], t[1], t[2]] + [t[3]];
    JoinAppend([t[0], t[1], t[2]], [t[3]]);
    JoinThree(t[0], t[1], t[2]);
    JoinOne(t[3]);
  }

  /** timestamp_to_dt_chars. */
  method TimestampToDtChars(buf: array<char>, ts: nat, f: Flags) returns (n: nat, ghost m: Moment)
    requires buf.Length >= BUFSIZE && ts < 0x1_0000_0000_0000_0000 && (f.yyyyMmDd || f.ddMmYyyy)
    modifies buf
    ensures Denotes(m, ts) && n == |Text(m, f)| <= buf.Length && buf[..n] == Text(m, f)
    ensures Shown(buf[..n], m, f)
  {
    hide Text, Join, Denotes, Shown;
    var moment := SplitTimestamp(ts);
    m := moment;
    assert m.nanos < NANOS by { DenotesNanos(m, ts); }
    forall i | 0 <= i < BUFSIZE { buf[i] := '0'; }
    assert Holds(buf, "") by { assert buf[..BUFSIZE] == "" + Zeros(BUFSIZE); }
    n := PutDate(buf, moment.date, f);
    n := PutTime(buf, n, moment, f, Join(DateFields(moment.date, f)));
    TextParts(m, f);
    TextShown(m, ts, f);
    assert buf[..n] == buf[..BUFSIZE][..n];
  }

  lemma {:induction false} DenotesNanos(m: Moment, ts: nat)
    requires Denotes(m, ts)
    ensures m.nanos < NANOS
  {
  }

  lemma {:induction false} TextParts(m: Moment, f: Flags)
    ensures Text(m, f) == Join(DateFields(m.date, f)) + Join(TimeFields(m, f))
  {
    JoinAppend(DateFields(m.date, f), TimeFields(m, f));
  }

  // ---- the text, position by position ----

  /** The `w` characters from `i` on are digits and denote `n`. */
  predicate NumberAt(s: string, i: nat, w: nat, n: nat) {
    i + w <= |s| && AllDigits(s[i..i + w]) && Digits(s[i..i + w]) == n
  }

  /** Year, month from 1, and day, in either order, with their separators. */
  predicate DateShown(s: string, d: Date, f: Flags) {
    && |s| >= 11 && s[10] == (if f.sep1 then ' ' else '-')
    && var sep := if f.sep1 then '-' else '.';
    if f.yyyyMmDd then
      NumberAt(s, 0, 4, d.year) && s[4] == sep && NumberAt(s, 5, 2, d.month + 1) && s[7] == sep && NumberAt(s, 8, 2, d.day)
    else
      NumberAt(s, 0, 2, d.day) && s[2] == sep && NumberAt(s, 3, 2, d.month + 1) && s[5] == sep && NumberAt(s, 6, 4, d.year)
  }

  /** Time of day behind position `p`, and the fraction in the unit chosen. */
  predicate TimeShown(s: string, p: nat, m: Moment, f: Flags) {
    && var sep := if f.sep1 || f.sep3 then ':' else '.';
    && |s| == p + (if f.secs then 8 else if f.msecs then 12 else if f.usecs then 15 else 18)
    && NumberAt(s, p, 2, m.hours) && s[p + 2] == sep && NumberAt(s, p + 3, 2, m.mins) && s[p + 5] == sep && NumberAt(s, p + 6, 2, m.secs)
    && (!f.secs ==>
          s[p + 8] == '.' && if f.msecs then NumberAt(s, p + 9, 3, m.nanos / 1_000_000)
                             else if f.usecs then NumberAt(s, p + 9, 6, m.nanos / 1000) else NumberAt(s, p + 9, 9, m.nanos))
  }

  predicate Shown(s: string, m: Moment, f: Flags) { DateShown(s, m.date, f) && TimeShown(s, 11, m, f) }

  lemma {:induction false} NumberInside(a: string, n: nat, w: nat, b: string)
    requires n < Pow10(w)
    ensures NumberAt(a + FixedText(n, w) + b, |a|, w, n)
  {
    hide FixedText, Pow10, Digits;
    FixedDigits(n, w);
    assert (a + FixedText(n, w) + b)[|a|..|a| + w] == FixedText(n, w);
  }

  lemma {:induction false} NumberShifted(a: string, b: string, i: nat, w: nat, n: nat)
    ensures NumberAt(a, i, w, n) ==> NumberAt(a + b, i, w, n)
    ensures NumberAt(b, i, w, n) ==> NumberAt(a + b, |a| + i, w, n)
  {
    hide Digits;
    if i + w <= |a| { assert (a + b)[i..i + w] == a[i..i + w]; }
    if i + w <= |b| { assert (a + b)[|a| + i..|a| + i + w] == b[i..i + w]; }
  }

  lemma {:induction false} DateReads(d: Date, f: Flags)
    requires d.year <= 9999 && d.month < 12 && d.day <= 31
    ensures |Join(DateFields(d, f))| == 11 && DateShown(Join(DateFields(d, f)), d, f)
  {
    hide FixedText, Join, NumberAt, Pow10;
    SmallPowers();
    var fs := DateFields(d, f);
    JoinThree(fs[0], fs[1], fs[2]);
    var a, b, c := fs[0], fs[1], fs[2];
    var s := Join(fs);
    assert s == "" + FixedText(a.value, a.width) + (a.sep + FieldText(b) + FieldText(c));
    assert s == (FieldText(a)) + FixedText(b.value, b.width) + (b.sep + FieldText(c));
    assert s == (FieldText(a) + FieldText(b)) + FixedText(c.value, c.width) + c.sep;
    NumberInside("", a.value, a.width, a.sep + FieldText(b) + FieldText(c));
    NumberInside(FieldText(a), b.value, b.width, b.sep + FieldText(c));
    NumberInside(FieldText(a) + FieldText(b), c.value, c.width, c.sep);
  }

  lemma {:induction false} SmallPowers()
    ensures Pow10(2) == 100 && Pow10(4) == 10_000
  {
  }

  lemma {:induction false} TimeReads(m: Moment, f: Flags)
    requires m.hours < 24 && m.mins < 60 && m.secs < 60 && m.nanos < NANOS
    ensures TimeShown(Join(TimeFields(m, f)), 0, m, f)
  {
    hide FixedText, Join, NumberAt, Pow10;
    SmallPowers();
    TimeText(m, f);
    FractionFits(m.nanos, f);
    var s := Join(TimeFields(m, f));
    var a, b := Field(m.hours, 2, TimeSep(f)), Field(m.mins, 2, TimeSep(f));
    var sec, v, w := FixedText(m.secs, 2), m.nanos / FracUnit(f), FracWidth(f);
    var frac := if f.secs then "" else "." + FixedText(v, w);
    assert s == "" + FixedText(a.value, 2) + (a.sep + FieldText(b) + sec + frac);
    assert s == FieldText(a) + FixedText(b.value, 2) + (b.sep + sec + frac);
    assert s == (FieldText(a) + FieldText(b)) + sec + frac;
    NumberInside("", m.hours, 2, a.sep + FieldText(b) + sec + frac);
    NumberInside(FieldText(a), m.mins, 2, b.sep + sec + frac);
    NumberInside(FieldText(a) + FieldText(b), m.secs, 2, frac);
    if !f.secs {
      assert s == (FieldText(a) + FieldText(b) + sec + ".") + FixedText(v, w) + "";
      NumberInside(FieldText(a) + FieldText(b) + sec + ".", v, w, "");
    }
  }

  /** Every part of the moment can be read off the text at its place. */
  lemma {:induction false} TextShown(m: Moment, ts: nat, f: Flags)
    requires Denotes(m, ts)
    ensures Shown(Text(m, f), m, f)
  {
    hide Join, NumberAt, Text, DayNumber;
    TextParts(m, f);
    DateReads(m.date, f);
    TimeReads(m, f);
    Behind(Join(DateFields(m.date, f)), Join(TimeFields(m, f)), m, f);
  }

  lemma {:induction false} Behind(a: string, b: string, m: Moment, f: Flags)
    requires |a| == 11 && DateShown(a, m.date, f) && TimeShown(b, 0, m, f)
    ensures Shown(a + b, m, f)
  {
    hide NumberAt;
    var d := m.date;
    if f.yyyyMmDd {
      NumberShifted(a, b, 0, 4, d.year); NumberShifted(a, b, 5, 2, d.month + 1); NumberShifted(a, b, 8, 2, d.day);
    } else {
      NumberShifted(a, b, 0, 2, d.day); NumberShifted(a, b, 3, 2, d.month + 1); NumberShifted(a, b, 6, 4, d.year);
    }
    NumberShifted(a, b, 0, 2, m.hours); NumberShifted(a, b, 3, 2, m.mins); NumberShifted(a, b, 6, 2, m.secs);
    NumberShifted(a, b, 9, 3, m.nanos / 1_000_000); NumberShifted(a, b, 9, 6, m.nanos / 1000); NumberShifted(a, b, 9, 9, m.nanos);
  }
}
