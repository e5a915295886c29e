/** UTC date-times and their ISO text: comparing the texts is comparing the times. */
module IsoTime {
  import opened TextModel

  /** A date-time in UTC, by its fields. */
  datatype DateTime = DateTime(year: nat, month: nat, day: nat, hour: nat, minute: nat, second: nat, microsecond: nat) {
    predicate Valid() {
      1 <= year <= 9999 && month < 100 && day < 100 && hour < 100 && minute < 100 && second < 100
        && microsecond < 1000000
    }

    /** Date-times of one zone are ordered by their fields, most significant first. */
    predicate Before(that: DateTime) {
      year < that.year
        || (year == that.year && FieldsBefore(AfterYear(), microsecond, that.AfterYear(), that.microsecond))
    }

    function AfterYear(): seq<nat> { [month, day, hour, minute, second] }

    /** `isoformat`, as in `2026-01-31T23:59:59.000001+00:00`; the fraction is left out when it is zero. */
    function Iso(): Text {
      Digits(year, 4) + TwoDigitFields(AfterYear(), [45, 45, 84, 58, 58], microsecond)
    }
  }

  predicate FieldsBefore(a: seq<nat>, x: nat, b: seq<nat>, y: nat) {
    if a == [] || b == [] then a == [] && (b != [] || x < y)
    else a[0] < b[0] || (a[0] == b[0] && FieldsBefore(a[1..], x, b[1..], y))
  }

  /** Each field after its separator, then the fraction and the offset. */
  function TwoDigitFields(fields: seq<nat>, separators: seq<int>, microsecond: nat): Text
    requires |fields| == |separators|
  {
    if fields == [] then Ending(microsecond)
    else [separators[0]] + (Digits(fields[0], 2) + TwoDigitFields(fields[1..], separators[1..], microsecond))
  }

  /** Python's order on strings. */
  predicate TextBefore(a: Text, b: Text) {
    if a == [] || b == [] then a == [] && b != []
    else a[0] < b[0] || (a[0] == b[0] && TextBefore(a[1..], b[1..]))
  }

  function Pow10(w: nat): nat { if w == 0 then 1 else 10 * Pow10(w - 1) }

  /** The last w decimal digits of n. */
  function Digits(n: nat, w: nat): (t: Text)
    ensures |t| == w
  {
    if w == 0 then [] else Digits(n / 10, w - 1) + [48 + n % 10]
  }

  lemma {:induction false} BeforeOfConcat(a: Text, b: Text, x: Text, y: Text)
    requires |a| == |b|
    ensures TextBefore(a + x, b + y) <==> TextBefore(a, b) || (a == b && TextBefore(x, y))
  {
    if a == [] {
      assert a + x == x && b + y == y;
    } else {
      assert (a + x)[1..] == a[1..] + x && (b + y)[1..] == b[1..] + y;
      BeforeOfConcat(a[1..], b[1..], x, y);
      assert a == b <==> a[0] == b[0] && a[1..] == b[1..];
    }
  }

  lemma {:induction false} DigitsKeepOrder(n: nat, m: nat, w: nat)
    requires n < Pow10(w) && m < Pow10(w)
    ensures TextBefore(Digits(n, w), Digits(m, w)) <==> n < m
    ensures Digits(n, w) == Digits(m, w) <==> n == m
  {
    if w > 0 {
      var a, b := Digits(n / 10, w - 1), Digits(m / 10, w - 1);
      var c, d := 48 + n % 10, 48 + m % 10;
      DigitsKeepOrder(n / 10, m / 10, w - 1);
      BeforeOfConcat(a, b, [c], [d]);
      assert TextBefore([c], [d]) <==> c < d;
      assert (a + [c])[..w - 1] == a && (b + [d])[..w - 1] == b;
      assert (a + [c])[w - 1] == c && (b + [d])[w - 1] == d;
    }
  }

  /** One field in front of the rest. */
  lemma FieldFirst(n: nat, m: nat, w: nat, x: Text, y: Text)
    requires n < Pow10(w) && m < Pow10(w)
    ensures TextBefore(Digits(n, w) + x, Digits(m, w) + y) <==> n < m || (n == m && TextBefore(x, y))
  {
    DigitsKeepOrder(n, m, w);
    BeforeOfConcat(Digits(n, w), Digits(m, w), x, y);
  }

  lemma SeparatorFirst(c: int, x: Text, y: Text)
    ensures TextBefore([c] + x, [c] + y) <==> TextBefore(x, y)
  {
    assert ([c] + x)[1..] == x && ([c] + y)[1..] == y;
  }

  const OFFSET: Text := [43, 48, 48, 58, 48, 48]

  /** The fraction and the offset: a text without fraction sorts before one with it. */
  function Ending(microsecond: nat): Text { (if microsecond == 0 then [] else [46] + Digits(microsecond, 6)) + OFFSET }

  /** A separator, a field of two digits, and what follows. */
  function Field(separator: string, field: nat, rest: Text): Text { CodePoints(separator) + (Digits(field, 2) + rest) }

  /** The date, the time after a T, the fraction if there is one, and the offset of UTC. */
  lemma IsoSpelled(t: DateTime)
    ensures var ending := (if t.microsecond == 0 then [] else CodePoints(".") + Digits(t.microsecond, 6))
        + CodePoints("+00:00");
      t.Iso() == Digits(t.year, 4)
        + Field("-", t.month, Field("-", t.day, Field("T", t.hour, Field(":", t.minute, Field(":", t.second, ending)))))
  {
    assert CodePoints("+00:00") == OFFSET && CodePoints(".") == [46];
    assert CodePoints("-") == [45] && CodePoints("T") == [84] && CodePoints(":") == [58];
    OneField(t.second, [], 58, [], t.microsecond);
    OneField(t.minute, [t.second], 58, [58], t.microsecond);
    OneField(t.hour, [t.minute, t.second], 84, [58, 58], t.microsecond);
    OneField(t.day, [t.hour, t.minute, t.second], 45, [84, 58, 58], t.microsecond);
    OneField(t.month, [t.day, t.hour, t.minute, t.second], 45, [45, 84, 58, 58], t.microsecond);
  }

  lemma OneField(field: nat, rest: seq<nat>, separator: int, others: seq<int>, microsecond: nat)
    requires |rest| == |others|
    ensures TwoDigitFields([field] + rest, [separator] + others, microsecond)
      == [separator] + (Digits(field, 2) + TwoDigitFields(rest, others, microsecond))
  {
    assert ([field] + rest)[1..] == rest && ([separator] + others)[1..] == others;
  }

  lemma EndingsKeepOrder(n: nat, m: nat)
    requires n < 1000000 && m < 1000000
    ensures TextBefore(Ending(n), Ending(m)) <==> n < m
  {
    if n > 0 && m > 0 {
      assert Pow10(6) == 1000000;
      assert Ending(n) == [46] + (Digits(n, 6) + OFFSET) && Ending(m) == [46] + (Digits(m, 6) + OFFSET);
      SeparatorFirst(46, Digits(n, 6) + OFFSET, Digits(m, 6) + OFFSET);
      FieldFirst(n, m, 6, OFFSET, OFFSET);
    } else if n == 0 && m == 0 {
      NeverBeforeItself(Ending(0));
    } else {
      assert Ending(0) == OFFSET && Ending(0)[0] == 43;
      assert Ending(if n > 0 then n else m)[0] == 46;
    }
    NeverBeforeItself(OFFSET);
  }

  lemma {:induction false} NeverBeforeItself(t: Text)
    ensures !TextBefore(t, t)
  {
    if t != [] {
      NeverBeforeItself(t[1..]);
    }
  }

  lemma {:induction false} FieldsKeepOrder(a: seq<nat>, x: nat, b: seq<nat>, y: nat, separators: seq<int>)
    requires |a| == |b| == |separators| && x < 1000000 && y < 1000000
    requires forall i | 0 <= i < |a| :: a[i] < 100 && b[i] < 100
    ensures TextBefore(TwoDigitFields(a, separators, x), TwoDigitFields(b, separators, y)) <==> FieldsBefore(a, x, b, y)
  {
    if a == [] {
      EndingsKeepOrder(x, y);
    } else {
      var s, t := TwoDigitFields(a[1..], separators[1..], x), TwoDigitFields(b[1..], separators[1..], y);
      FieldsKeepOrder(a[1..], x, b[1..], y, separators[1..]);
      assert Pow10(2) == 100;
      FieldFirst(a[0], b[0], 2, s, t);
      SeparatorFirst(separators[0], Digits(a[0], 2) + s, Digits(b[0], 2) + t);
    }
  }

  /** The order of the ISO texts is the order of the times, although the texts differ in length. */
  lemma IsoKeepsOrder(a: DateTime, b: DateTime)
    requires a.Valid() && b.Valid()
    ensures TextBefore(a.Iso(), b.Iso()) <==> a.Before(b)
  {
    var separators := [45, 45, 84, 58, 58];
    FieldsKeepOrder(a.AfterYear(), a.microsecond, b.AfterYear(), b.microsecond, separators);
    assert Pow10(4) == 10000;
    FieldFirst(a.year, b.year, 4, TwoDigitFields(a.AfterYear(), separators, a.microsecond),
      TwoDigitFields(b.AfterYear(), separators, b.microsecond));
  }

  /** The order on texts, and so on times, is a strict weak order. */
  lemma {:induction false} BeforeSplits(a: Text, b: Text, c: Text)
    requires TextBefore(a, c)
    ensures TextBefore(a, b) || TextBefore(b, c)
  {
    if a != [] && b != [] && c != [] && a[0] == b[0] == c[0] {
      BeforeSplits(a[1..], b[1..], c[1..]);
    }
  }
}
