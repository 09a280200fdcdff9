/**
 * The canonical text encoding of index columns and bound literals
 * (`stringify`): integers as `%016d`, datetimes as `YYYY-MM-DDTHH:MM:SSZ`.
 */
module Stringifier {
  import opened Values

  function Pow10(w: nat): (r: nat)
    ensures r >= 1
  {
    if w == 0 then 1 else 10 * Pow10(w - 1)
  }

  function DigitChar(d: nat): char
    requires d < 10
  {
    ('0' as int + d) as char
  }

  predicate IsDigit(c: char) {
    '0' <= c <= '9'
  }

  /** Python's `'%d' % n` for a non-negative n: the shortest decimal text. */
  function Decimal(n: nat): string
  {
    if n < 10 then [DigitChar(n)] else Decimal(n / 10) + [DigitChar(n % 10)]
  }

  function Zeros(k: nat): string {
    seq(k, _ => '0')
  }

  /** Zero-fill on the left up to width w; a longer text is left as it is. */
  function LeftPad(s: string, w: nat): string {
    if |s| < w then Zeros(w - |s|) + s else s
  }

  /**
   * Python's `u'%016d' % n`: total width 16, zero filled; a negative number
   * keeps its sign in front of 15 positions.
   */
  function ZeroPadded16(n: int): string {
    if n >= 0 then LeftPad(Decimal(n), 16) else "-" + LeftPad(Decimal(-n), 15)
  }

  /** The w least significant decimal digits of n, most significant first. */
  function Fixed(n: nat, w: nat): (s: string)
    ensures |s| == w
    ensures forall i :: 0 <= i < w ==> IsDigit(s[i])
  {
    if w == 0 then [] else Fixed(n / 10, w - 1) + [DigitChar(n % 10)]
  }

  /** The number a text of decimal digits denotes. */
  function DigitsValue(s: string): int
  {
    if s == [] then 0 else 10 * DigitsValue(s[..|s| - 1]) + (s[|s| - 1] as int - '0' as int)
  }

  /** `strftime('%Y-%m-%dT%H:%M:%SZ')` of a datetime. */
  function TimeText(t: DateTime): string {
    Fixed(t.year, 4) + ("-" + (Fixed(t.month, 2) + ("-" + (Fixed(t.day, 2) + ("T" + ClockText(t))))))
  }

  /** The `HH:MM:SSZ` part of the datetime text. */
  function ClockText(t: DateTime): string {
    Fixed(t.hour, 2) + (":" + (Fixed(t.minute, 2) + (":" + (Fixed(t.second, 2) + "Z"))))
  }

  /** `stringify(value)`: None stays None, everything else becomes text. */
  function Stringify(v: Value): (r: Value)
    ensures r.Null? <==> v.Null?
    ensures !v.Null? ==> r.Text?
  {
    match v
    case Null => Null
    case Int(i) => Text(ZeroPadded16(i))
    case Bool(b) => Text(ZeroPadded16(if b then 1 else 0))  // bool is an int subclass
    case Time(t) => Text(TimeText(t))
    case Text(s) => Text(s)
    case Other(repr) => Text(repr)
  }

  /** Text order as Python's unicode comparison and SQLite's BINARY collation see it. */
  predicate LexLess(a: string, b: string)
    decreases |a|
  {
    |b| > 0 && (|a| == 0 || a[0] < b[0] || (a[0] == b[0] && LexLess(a[1..], b[1..])))
  }

  lemma {:induction false} LexLessConcat(x1: string, x2: string, y1: string, y2: string)
    requires |x1| == |y1|
    requires LexLess(x1, y1) || (x1 == y1 && LexLess(x2, y2))
    ensures LexLess(x1 + x2, y1 + y2)
    decreases |x1|
  {
    if x1 == [] {
      assert x1 + x2 == x2 && y1 + y2 == y2;
    } else {
      assert (x1 + x2)[0] == x1[0] && (y1 + y2)[0] == y1[0];
      assert (x1 + x2)[1..] == x1[1..] + x2;
      assert (y1 + y2)[1..] == y1[1..] + y2;
      if x1[0] == y1[0] {
        LexLessConcat(x1[1..], x2, y1[1..], y2);
      }
    }
  }

  lemma {:induction false} FixedOfZero(w: nat)
    ensures Fixed(0, w) == Zeros(w)
  {
    if w > 0 {
      FixedOfZero(w - 1);
      assert Zeros(w - 1) + ['0'] == Zeros(w);
    }
  }

  lemma {:induction false} DecimalIsFixed(n: nat, w: nat)
    requires w >= 1 && n < Pow10(w)
    ensures |Decimal(n)| <= w
    ensures Zeros(w - |Decimal(n)|) + Decimal(n) == Fixed(n, w)
    decreases w
  {
    if n < 10 {
      FixedOfZero(w - 1);
      assert Zeros(w - 1) + [DigitChar(n)] == Fixed(n, w) by {
        assert n / 10 == 0 && n % 10 == n;
      }
    } else {
      assert w >= 2 && n / 10 < Pow10(w - 1);
      DecimalIsFixed(n / 10, w - 1);
      var k := |Decimal(n / 10)|;
      assert Zeros(w - (k + 1)) + Decimal(n) == (Zeros((w - 1) - k) + Decimal(n / 10)) + [DigitChar(n % 10)];
    }
  }

  /** An in-range non-negative integer is rendered as exactly its 16 low digits. */
  lemma StringifyIntIsFixed(n: int)
    requires 0 <= n < Pow10(16)
    ensures Stringify(Int(n)) == Text(Fixed(n, 16))
  {
    assert Stringify(Int(n)) == Text(LeftPad(Decimal(n), 16));
    LeftPadIsFixed(n, 16);
  }

  lemma LeftPadIsFixed(n: nat, w: nat)
    requires w >= 1 && n < Pow10(w)
    ensures LeftPad(Decimal(n), w) == Fixed(n, w)
  {
    DecimalIsFixed(n, w);
    if |Decimal(n)| == w {
      assert Zeros(0) + Decimal(n) == Decimal(n);
    }
  }

  lemma {:induction false} FixedOrdered(a: nat, b: nat, w: nat)
    requires a < b < Pow10(w)
    ensures LexLess(Fixed(a, w), Fixed(b, w))
    decreases w
  {
    var ca, cb := DigitChar(a % 10), DigitChar(b % 10);
    if a / 10 < b / 10 {
      FixedOrdered(a / 10, b / 10, w - 1);
      LexLessConcat(Fixed(a / 10, w - 1), [ca], Fixed(b / 10, w - 1), [cb]);
    } else {
      assert a % 10 < b % 10;
      assert LexLess([ca], [cb]);
      LexLessConcat(Fixed(a / 10, w - 1), [ca], Fixed(b / 10, w - 1), [cb]);
    }
  }

  /**
   * The zero-padding property: for 0 <= a < b < 10^16 both texts are exactly
   * 16 decimal digits and text order agrees with numeric order.
   */
  lemma StringifyIntOrdered(a: int, b: int)
    requires 0 <= a < b < Pow10(16)
    ensures Stringify(Int(a)).Text? && Stringify(Int(b)).Text?
    ensures |Stringify(Int(a)).s| == 16 && |Stringify(Int(b)).s| == 16
    ensures forall i :: 0 <= i < 16 ==> IsDigit(Stringify(Int(a)).s[i]) && IsDigit(Stringify(Int(b)).s[i])
    ensures LexLess(Stringify(Int(a)).s, Stringify(Int(b)).s)
  {
    StringifyIntIsFixed(a);
    StringifyIntIsFixed(b);
    FixedOrdered(a, b, 16);
  }

  lemma {:induction false} FixedRoundTrip(n: nat, w: nat)
    requires n < Pow10(w)
    ensures DigitsValue(Fixed(n, w)) == n
    decreases w
  {
    if w > 0 {
      var s := Fixed(n, w);
      assert s[..|s| - 1] == Fixed(n / 10, w - 1);
      FixedRoundTrip(n / 10, w - 1);
    }
  }

  /** Reading the 16 digits back as a decimal number gives the integer again. */
  lemma StringifyIntRoundTrip(n: int)
    requires 0 <= n < Pow10(16)
    ensures DigitsValue(Stringify(Int(n)).s) == n
  {
    StringifyIntIsFixed(n);
    FixedRoundTrip(n, 16);
  }

  lemma {:induction false} FixedPieces(a: nat, b: nat, w: nat, x: string, y: string)
    requires a < Pow10(w) && b < Pow10(w)
    requires a < b || (a == b && LexLess(x, y))
    ensures LexLess(Fixed(a, w) + x, Fixed(b, w) + y)
  {
    if a < b {
      FixedOrdered(a, b, w);
    }
    LexLessConcat(Fixed(a, w), x, Fixed(b, w), y);
  }

  lemma SeparatorPiece(sep: string, x: string, y: string)
    requires LexLess(x, y)
    ensures LexLess(sep + x, sep + y)
  {
    LexLessConcat(sep, x, sep, y);
  }

  /** The clock part of the text is ordered by hour, then minute, then second. */
  lemma ClockOrdered(a: DateTime, b: DateTime)
    requires ValidDateTime(a) && ValidDateTime(b)
    requires || a.hour < b.hour
             || (a.hour == b.hour && a.minute < b.minute)
             || (a.hour == b.hour && a.minute == b.minute && a.second < b.second)
    ensures LexLess(ClockText(a), ClockText(b))
  {
    var sa := Fixed(a.second, 2) + "Z";
    var sb := Fixed(b.second, 2) + "Z";
    if a.second < b.second { FixedPieces(a.second, b.second, 2, "Z", "Z"); }
    var mia := Fixed(a.minute, 2) + (":" + sa);
    var mib := Fixed(b.minute, 2) + (":" + sb);
    if a.minute < b.minute || (a.minute == b.minute && LexLess(sa, sb)) {
      if a.minute == b.minute { SeparatorPiece(":", sa, sb); }
      FixedPieces(a.minute, b.minute, 2, ":" + sa, ":" + sb);
    }
    if a.hour == b.hour { SeparatorPiece(":", mia, mib); }
    FixedPieces(a.hour, b.hour, 2, ":" + mia, ":" + mib);
  }

  /** Datetime texts are ordered chronologically. */
  lemma StringifyTimeOrdered(a: DateTime, b: DateTime)
    requires ValidDateTime(a) && ValidDateTime(b) && Before(a, b)
    ensures Stringify(Time(a)).Text? && Stringify(Time(b)).Text?
    ensures LexLess(Stringify(Time(a)).s, Stringify(Time(b)).s)
  {
    var ha := ClockText(a);
    var hb := ClockText(b);
    if a.year == b.year && a.month == b.month && a.day == b.day { ClockOrdered(a, b); }
    var da := Fixed(a.day, 2) + ("T" + ha);
    var db := Fixed(b.day, 2) + ("T" + hb);
    if a.day < b.day || (a.day == b.day && LexLess(ha, hb)) {
      if a.day == b.day { SeparatorPiece("T", ha, hb); }
      FixedPieces(a.day, b.day, 2, "T" + ha, "T" + hb);
    }
    var ma := Fixed(a.month, 2) + ("-" + da);
    var mb := Fixed(b.month, 2) + ("-" + db);
    if a.month < b.month || (a.month == b.month && LexLess(da, db)) {
      if a.month == b.month { SeparatorPiece("-", da, db); }
      FixedPieces(a.month, b.month, 2, "-" + da, "-" + db);
    }
    if a.year == b.year { SeparatorPiece("-", ma, mb); }
    FixedPieces(a.year, b.year, 4, "-" + ma, "-" + mb);
  }
}
