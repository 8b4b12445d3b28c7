/** The store clock and the stored form of its stamps (internal/store/store.go): no stamp
    repeats or goes back, and comparing the stored text compares the times. */
module Clock {
  import opened Base
  import opened EventIds

  /** Nanoseconds since the zero time. */
  type Time = int

  const MILLISECOND: int := 1_000_000
  const SECOND: int := 1_000_000_000

  function Truncate(t: Time, unit: int): (r: Time)
    requires unit > 0
    ensures r <= t < r + unit
  {
    t - t % unit
  }

  class StoreClock {
    var lastNow: Time

    constructor ()
      ensures lastNow == 0
    {
      lastNow := 0;
    }

    /** The wall reading cut to a millisecond, or one nanosecond past the last stamp. */
    method Now(reading: Time) returns (now: Time)
      modifies this
      ensures now == lastNow == NextStamp(old(lastNow), reading)
      ensures now == if reading - reading % 1_000_000 > old(lastNow) then reading - reading % 1_000_000 else old(lastNow) + 1
    {
      now := Truncate(reading, MILLISECOND);
      if now <= lastNow {
        now := lastNow + 1;
      }
      lastNow := now;
    }
  }

  function NextStamp(last: Time, reading: Time): Time {
    Max(Truncate(reading, MILLISECOND), last + 1)
  }

  /** The stamps a process hands out for a sequence of wall readings. */
  function Stamps(last: Time, readings: seq<Time>): (s: seq<Time>)
    ensures |s| == |readings|
  {
    if readings == [] then []
    else
      var front := Stamps(last, readings[..|readings| - 1]);
      front + [NextStamp(if front == [] then last else front[|front| - 1], readings[|readings| - 1])]
  }

  /** A stamp is the latest of what the readings so far and the start force on it: reading
      j pushes stamp k to at least its millisecond plus one nanosecond per later stamp. */
  ghost predicate Forces(last: Time, readings: seq<Time>, k: nat, stamp: Time)
    requires k < |readings|
  {
    && stamp >= last + k + 1
    && (forall j :: 0 <= j <= k ==> stamp >= Truncate(readings[j], MILLISECOND) + (k - j))
    && (stamp == last + k + 1 || exists j :: 0 <= j <= k && stamp == Truncate(readings[j], MILLISECOND) + (k - j))
  }

  lemma {:induction false} StampFormula(last: Time, readings: seq<Time>, k: nat)
    requires k < |readings|
    ensures Forces(last, readings, k, Stamps(last, readings)[k])
    decreases |readings|
  {
    var n := |readings| - 1;
    var front := readings[..n];
    if k < n {
      StampFormula(last, front, k);
      assert forall j :: 0 <= j <= k ==> front[j] == readings[j];
    } else if n > 0 {
      StampFormula(last, front, n - 1);
      var before := Stamps(last, front)[n - 1];
      assert forall j :: 0 <= j <= n - 1 ==> front[j] == readings[j];
      forall j | 0 <= j < n ensures before >= Truncate(readings[j], MILLISECOND) + (n - 1 - j) {
        assert before >= Truncate(front[j], MILLISECOND) + (n - 1 - j);
      }
      if before != last + n {
        var j :| 0 <= j <= n - 1 && before == Truncate(front[j], MILLISECOND) + (n - 1 - j);
        assert before == Truncate(readings[j], MILLISECOND) + (n - 1 - j);
      }
    }
  }

  /** Stamps are strictly increasing whatever the wall clock reads, backward steps included. */
  lemma {:induction false} StampsIncrease(last: Time, readings: seq<Time>)
    ensures forall i, j :: 0 <= i < j < |readings| ==> Stamps(last, readings)[i] < Stamps(last, readings)[j]
    ensures forall i :: 0 <= i < |readings| ==> last < Stamps(last, readings)[i]
    decreases |readings|
  {
    if readings != [] {
      StampsIncrease(last, readings[..|readings| - 1]);
    }
  }

  // ----- The stored text -----

  /** Byte order, which is how SQLite compares the columns. */
  predicate LexLess(a: string, b: string) {
    if b == [] then false
    else if a == [] then true
    else if a[0] != b[0] then a[0] < b[0]
    else LexLess(a[1..], b[1..])
  }

  function Pow10(w: nat): nat { if w == 0 then 1 else 10 * Pow10(w - 1) }

  function Fixed(n: nat, width: nat): (s: string)
    ensures |s| == width
  {
    if width == 0 then "" else Fixed(n / 10, width - 1) + [Digit(n % 10)]
  }

  /** One number of the layout, how wide it is printed, and the byte that follows it. */
  datatype Field = Field(value: nat, width: nat, mark: char)

  predicate Fits(f: Field) { f.value < Pow10(f.width) }

  function Render(fields: seq<Field>): string {
    if fields == [] then ""
    else Fixed(fields[0].value, fields[0].width) + ([fields[0].mark] + Render(fields[1..]))
  }

  /** A UTC time as the calendar names it, most significant part first. */
  datatype Civil = Civil(year: nat, month: nat, day: nat, hour: nat, minute: nat, second: nat, nano: nat) {
    ghost predicate Valid() {
      year < 10000 && month < 100 && day < 100 && hour < 100 && minute < 100 && second < 100 && nano < SECOND
    }

    function Fields(): seq<Field> {
      [Field(year, 4, '-'), Field(month, 2, '-'), Field(day, 2, 'T'), Field(hour, 2, ':'),
       Field(minute, 2, ':'), Field(second, 2, '.'), Field(nano, 9, 'Z')]
    }
  }

  predicate FieldsLess(a: seq<Field>, b: seq<Field>)
    requires |a| == |b|
  {
    a != [] && (a[0].value < b[0].value || (a[0].value == b[0].value && FieldsLess(a[1..], b[1..])))
  }

  /** Earlier, read off the calendar parts. */
  predicate Earlier(a: Civil, b: Civil) {
    a.year < b.year || (a.year == b.year && (
    a.month < b.month || (a.month == b.month && (
    a.day < b.day || (a.day == b.day && (
    a.hour < b.hour || (a.hour == b.hour && (
    a.minute < b.minute || (a.minute == b.minute && (
    a.second < b.second || (a.second == b.second && a.nano < b.nano)))))))))))
  }

  function Timestamp(c: Civil): string { Render(c.Fields()) }

  /** A number of the layout is its decimal digits, led by zeros. */
  lemma {:induction false} FixedReadsBack(n: nat, width: nat)
    requires n < Pow10(width)
    ensures |Fixed(n, width)| == width && DecimalValue(Fixed(n, width)) == n
  {
    if width > 0 {
      FixedReadsBack(n / 10, width - 1);
      assert Fixed(n, width)[..width - 1] == Fixed(n / 10, width - 1);
    }
  }

  lemma RenderOne(f: Field, rest: seq<Field>)
    ensures Render([f] + rest) == Fixed(f.value, f.width) + [f.mark] + Render(rest)
  {
    assert ([f] + rest)[1..] == rest;
  }

  /** The layout of the column. */
  lemma TimestampLayout(c: Civil)
    ensures Timestamp(c) == Fixed(c.year, 4) + "-" + (Fixed(c.month, 2) + "-" + (Fixed(c.day, 2) + "T" + ClockText(c)))
  {
    var time := [Field(c.hour, 2, ':'), Field(c.minute, 2, ':'), Field(c.second, 2, '.'), Field(c.nano, 9, 'Z')];
    ClockLayout(c, time);
    RenderOne(Field(c.day, 2, 'T'), time);
    RenderOne(Field(c.month, 2, '-'), [Field(c.day, 2, 'T')] + time);
    RenderOne(Field(c.year, 4, '-'), [Field(c.month, 2, '-')] + ([Field(c.day, 2, 'T')] + time));
    assert c.Fields() == [Field(c.year, 4, '-')] + ([Field(c.month, 2, '-')] + ([Field(c.day, 2, 'T')] + time));
  }

  function ClockText(c: Civil): string {
    Fixed(c.hour, 2) + ":" + (Fixed(c.minute, 2) + ":" + (Fixed(c.second, 2) + "." + (Fixed(c.nano, 9) + "Z")))
  }

  lemma ClockLayout(c: Civil, time: seq<Field>)
    requires time == [Field(c.hour, 2, ':'), Field(c.minute, 2, ':'), Field(c.second, 2, '.'), Field(c.nano, 9, 'Z')]
    ensures Render(time) == ClockText(c)
  {
    RenderOne(Field(c.nano, 9, 'Z'), []);
    RenderOne(Field(c.second, 2, '.'), [Field(c.nano, 9, 'Z')]);
    RenderOne(Field(c.minute, 2, ':'), [Field(c.second, 2, '.'), Field(c.nano, 9, 'Z')]);
    RenderOne(Field(c.hour, 2, ':'), [Field(c.minute, 2, ':'), Field(c.second, 2, '.'), Field(c.nano, 9, 'Z')]);
    assert time == [Field(c.hour, 2, ':')] + [Field(c.minute, 2, ':'), Field(c.second, 2, '.'), Field(c.nano, 9, 'Z')];
    assert [Field(c.minute, 2, ':'), Field(c.second, 2, '.'), Field(c.nano, 9, 'Z')]
           == [Field(c.minute, 2, ':')] + [Field(c.second, 2, '.'), Field(c.nano, 9, 'Z')];
    assert [Field(c.second, 2, '.'), Field(c.nano, 9, 'Z')] == [Field(c.second, 2, '.')] + [Field(c.nano, 9, 'Z')];
    assert [Field(c.nano, 9, 'Z')] == [Field(c.nano, 9, 'Z')] + [];
  }

  lemma {:induction false} LexConcat(a: string, b: string, c: string, d: string)
    requires |a| == |c|
    ensures LexLess(a + b, c + d) <==> LexLess(a, c) || (a == c && LexLess(b, d))
    decreases |a|
  {
    if a == [] {
      assert a + b == b && c + d == d;
    } else {
      assert (a + b)[1..] == a[1..] + b && (c + d)[1..] == c[1..] + d;
      LexConcat(a[1..], b, c[1..], d);
      assert a == [a[0]] + a[1..] && c == [c[0]] + c[1..];
    }
  }

  lemma {:induction false} FixedOrder(m: nat, n: nat, width: nat)
    requires m < Pow10(width) && n < Pow10(width)
    ensures LexLess(Fixed(m, width), Fixed(n, width)) <==> m < n
    ensures Fixed(m, width) == Fixed(n, width) <==> m == n
  {
    if width > 0 {
      var a, b := Fixed(m / 10, width - 1), Fixed(n / 10, width - 1);
      FixedOrder(m / 10, n / 10, width - 1);
      LexConcat(a, [Digit(m % 10)], b, [Digit(n % 10)]);
      LexOne(Digit(m % 10), Digit(n % 10));
      assert Fixed(m, width) == Fixed(n, width) ==> a == b && m % 10 == n % 10 by {
        assert Fixed(m, width)[..width - 1] == a && Fixed(n, width)[..width - 1] == b;
        assert Fixed(m, width)[width - 1] == Digit(m % 10) && Fixed(n, width)[width - 1] == Digit(n % 10);
      }
    }
  }

  lemma LexOne(x: char, y: char)
    ensures LexLess([x], [y]) <==> x < y
  {
    assert [x][1..] == [] && [y][1..] == [];
  }

  ghost predicate SameLayout(a: seq<Field>, b: seq<Field>) {
    && |a| == |b|
    && (forall i :: 0 <= i < |a| ==> a[i].width == b[i].width && a[i].mark == b[i].mark && Fits(a[i]) && Fits(b[i]))
  }

  /** With fixed widths, byte order is the order of the numbers, first difference first. */
  lemma {:induction false} RenderOrder(a: seq<Field>, b: seq<Field>)
    requires SameLayout(a, b)
    ensures LexLess(Render(a), Render(b)) <==> FieldsLess(a, b)
    decreases |a|
  {
    if a != [] {
      var x, y := Fixed(a[0].value, a[0].width), Fixed(b[0].value, b[0].width);
      FixedOrder(a[0].value, b[0].value, a[0].width);
      RenderOrder(a[1..], b[1..]);
      LexConcat([a[0].mark], Render(a[1..]), [b[0].mark], Render(b[1..]));
      LexOne(a[0].mark, b[0].mark);
      LexConcat(x, [a[0].mark] + Render(a[1..]), y, [b[0].mark] + Render(b[1..]));
    }
  }

  lemma FieldsFit(c: Civil)
    requires c.Valid()
    ensures forall i :: 0 <= i < 7 ==> Fits(c.Fields()[i])
  {
    assert Pow10(2) == 100;
    assert Pow10(4) == 10000;
    assert Pow10(6) == 1000000;
    assert Pow10(8) == 100000000;
    assert Pow10(9) == SECOND;
  }

  lemma FieldsLessIsEarlier(a: Civil, b: Civil)
    ensures FieldsLess(a.Fields(), b.Fields()) <==> Earlier(a, b)
  {
    var x, y := a.Fields(), b.Fields();
    assert x[1..][1..] == x[2..] && x[2..][1..] == x[3..] && x[3..][1..] == x[4..] && x[4..][1..] == x[5..] && x[5..][1..] == x[6..] && x[6..][1..] == [];
    assert y[1..][1..] == y[2..] && y[2..][1..] == y[3..] && y[3..][1..] == y[4..] && y[4..][1..] == y[5..] && y[5..][1..] == y[6..] && y[6..][1..] == [];
    assert FieldsLess(x[6..], y[6..]) <==> a.nano < b.nano;
    assert FieldsLess(x[4..], y[4..]) <==> a.minute < b.minute || (a.minute == b.minute && FieldsLess(x[5..], y[5..]));
    assert FieldsLess(x[2..], y[2..]) <==> a.day < b.day || (a.day == b.day && FieldsLess(x[3..], y[3..]));
  }

  /** For four-digit years the stored text sorts exactly as the times do. */
  lemma TimestampOrder(a: Civil, b: Civil)
    requires a.Valid() && b.Valid()
    ensures LexLess(Timestamp(a), Timestamp(b)) <==> Earlier(a, b)
  {
    FieldsFit(a);
    FieldsFit(b);
    RenderOrder(a.Fields(), b.Fields());
    FieldsLessIsEarlier(a, b);
  }

  /** A calendar: it names later instants by later dates, as far as years have four digits. */
  ghost predicate Calendar(civil: Time -> Civil) {
    forall a: Time, b: Time :: a < b && civil(a).Valid() && civil(b).Valid() ==> Earlier(civil(a), civil(b))
  }

  lemma EarlierIsStrict(a: Civil, b: Civil)
    requires Earlier(a, b)
    ensures !Earlier(b, a)
  {
  }

  /** Over any calendar, comparing the stored text compares the times. */
  lemma StoredOrder(civil: Time -> Civil, a: Time, b: Time)
    requires Calendar(civil) && civil(a).Valid() && civil(b).Valid()
    ensures LexLess(Timestamp(civil(a)), Timestamp(civil(b))) <==> a < b
  {
    TimestampOrder(civil(a), civil(b));
    if b < a { EarlierIsStrict(civil(b), civil(a)); }
  }

  /** The texts one process stores sort in the order it stored them, and no two are equal,
      whatever its clock read. */
  lemma StoredStampsIncrease(civil: Time -> Civil, last: Time, readings: seq<Time>, i: nat, j: nat)
    requires Calendar(civil) && i < |readings| && j < |readings|
    requires civil(Stamps(last, readings)[i]).Valid() && civil(Stamps(last, readings)[j]).Valid()
    ensures LexLess(Timestamp(civil(Stamps(last, readings)[i])), Timestamp(civil(Stamps(last, readings)[j]))) <==> i < j
  {
    StampsIncrease(last, readings);
    StoredOrder(civil, Stamps(last, readings)[i], Stamps(last, readings)[j]);
  }
}
