/**
  The two `strftime` layouts the acquisition loop uses: `%Y-%m-%d %H:%M:%S`
  for an event's timestamp and `%Y%m%d_%H%M%S` inside a snapshot file name.
  A clock reading is an explicit broken-down date/time instead of a call
  to `datetime.now()`.
 */
module DateFormat {

  /** A local date and time as `datetime.now()` returns it. */
  datatype DateTime = DateTime(year: int, month: int, day: int, hour: int, minute: int, second: int)

  /**
    The ranges Python's `datetime` guarantees for its fields, with the year
    restricted to four digits: `%Y` pads years below 1000 differently from
    platform to platform, so those years are outside this model.
   */
  predicate Valid(dt: DateTime) {
    && 1000 <= dt.year <= 9999
    && 1 <= dt.month <= 12
    && 1 <= dt.day <= 31
    && 0 <= dt.hour <= 23
    && 0 <= dt.minute <= 59
    && 0 <= dt.second <= 59
  }

  /** A date and time within those ranges: a reading of `datetime.now()` with a four-digit year. */
  type Moment = dt: DateTime | Valid(dt) witness DateTime(2000, 1, 1, 0, 0, 0)

  function Pow10(n: nat): (p: nat)
    ensures p >= 1
  {
    if n == 0 then 1 else 10 * Pow10(n - 1)
  }

  predicate IsDigit(c: char) {
    '0' <= c <= '9'
  }

  predicate AllDigits(s: string) {
    forall i :: 0 <= i < |s| ==> IsDigit(s[i])
  }

  function DigitChar(d: nat): (c: char)
    requires d < 10
    ensures IsDigit(c)
    ensures c as int - '0' as int == d
  {
    ('0' as int + d) as char
  }

  function DigitValue(c: char): (d: nat)
    requires IsDigit(c)
    ensures d < 10
    ensures DigitChar(d) == c
  {
    c as int - '0' as int
  }

  /** The number a string of decimal digits denotes, most significant digit first. */
  function Value(s: string): (n: nat)
    requires AllDigits(s)
    ensures n < Pow10(|s|)
  {
    if |s| == 0 then 0
    else
      var init := s[..|s| - 1];
      assert AllDigits(init);
      var v := Value(init);
      assert v <= Pow10(|s| - 1) - 1;
      10 * v + DigitValue(s[|s| - 1])
  }

  /** `n` written with exactly `width` decimal digits, zero-padded on the left, as `%m` or `%Y` writes it. */
  function Padded(n: nat, width: nat): (s: string)
    requires n < Pow10(width)
    ensures |s| == width
    ensures AllDigits(s)
    ensures Value(s) == n
  {
    if width == 0 then ""
    else
      var init := Padded(n / 10, width - 1);
      var s := init + [DigitChar(n % 10)];
      assert s[..|s| - 1] == init;
      s
  }

  /** Padding is the inverse of reading a digit string back: no two digit strings of one width denote the same number. */
  lemma {:induction false} PaddedValue(s: string)
    requires AllDigits(s)
    ensures Padded(Value(s), |s|) == s
  {
    if |s| > 0 {
      var init := s[..|s| - 1];
      assert AllDigits(init);
      PaddedValue(init);
      var n := Value(s);
      var d := DigitValue(s[|s| - 1]);
      assert n == 10 * Value(init) + d;
      assert n / 10 == Value(init) && n % 10 == d;
      assert s == init + [s[|s| - 1]];
    }
  }

  /** The five parts of a concatenation can be sliced back out of it. */
  lemma PartsOf5<T>(a: seq<T>, s1: seq<T>, b: seq<T>, s2: seq<T>, c: seq<T>)
    ensures var r := a + s1 + b + s2 + c;
      && r[..|a|] == a
      && r[|a|..|a| + |s1|] == s1
      && r[|a| + |s1|..|a| + |s1| + |b|] == b
      && r[|a| + |s1| + |b|..|a| + |s1| + |b| + |s2|] == s2
      && r[|a| + |s1| + |b| + |s2|..] == c
  {
    var r := a + s1 + b + s2 + c;
    assert r == a + (s1 + (b + (s2 + c)));
    assert r[|a|..] == s1 + (b + (s2 + c));
    assert r[|a| + |s1|..] == b + (s2 + c);
    assert r[|a| + |s1| + |b|..] == s2 + c;
  }

  /** Three zero-padded fields joined by a separator: `%Y-%m-%d`, `%H:%M:%S`, `%Y%m%d`, `%H%M%S`. */
  function Fields(x: nat, wx: nat, y: nat, z: nat, sep: string): (r: string)
    requires x < Pow10(wx) && y < 100 && z < 100
    ensures |r| == wx + 4 + 2 * |sep|
  {
    Padded(x, wx) + sep + Padded(y, 2) + sep + Padded(z, 2)
  }

  /** Each field and both separators can be sliced back out of the joined string. */
  lemma FieldsReadBack(x: nat, wx: nat, y: nat, z: nat, sep: string)
    requires x < Pow10(wx) && y < 100 && z < 100
    ensures var r := Fields(x, wx, y, z, sep);
      var o := wx + |sep|;
      && r[wx..o] == sep && r[o + 2..o + 2 + |sep|] == sep
      && r[..wx] == Padded(x, wx)
      && r[o..o + 2] == Padded(y, 2)
      && r[o + 2 + |sep|..] == Padded(z, 2)
  {
    PartsOf5(Padded(x, wx), sep, Padded(y, 2), sep, Padded(z, 2));
  }

  /** `%Y-%m-%d %H:%M:%S`: the timestamp stored in every motion event. */
  function Stamp(dt: DateTime): (r: string)
    requires Valid(dt)
    ensures |r| == 19
  {
    Fields(dt.year, 4, dt.month, dt.day, "-") + " " + Fields(dt.hour, 2, dt.minute, dt.second, ":")
  }

  /** `%Y%m%d_%H%M%S`: the date/time part of a snapshot file name. */
  function CompactStamp(dt: DateTime): (r: string)
    requires Valid(dt)
    ensures |r| == 15
  {
    Fields(dt.year, 4, dt.month, dt.day, "") + "_" + Fields(dt.hour, 2, dt.minute, dt.second, "")
  }

  /** The six fields of a date part and a time part joined by one character, sliced back out of the whole. */
  lemma JoinedFields(r: string, d: string, c: char, t: string, f: seq<string>, sep: nat)
    requires r == d + [c] + t && |d| == 8 + 2 * sep && |t| == 6 + 2 * sep && |f| == 6
    requires d[..4] == f[0] && d[4 + sep..6 + sep] == f[1] && d[6 + 2 * sep..] == f[2]
    requires t[..2] == f[3] && t[2 + sep..4 + sep] == f[4] && t[4 + 2 * sep..] == f[5]
    ensures var o := |d| + 1;
      && r[|d|] == c
      && r[0..4] == f[0]
      && r[4 + sep..6 + sep] == f[1]
      && r[6 + 2 * sep..|d|] == f[2]
      && r[o..o + 2] == f[3]
      && r[o + 2 + sep..o + 4 + sep] == f[4]
      && r[o + 4 + 2 * sep..] == f[5]
  {
    var o := |d| + 1;
    assert r[0..4] == d[..4];
    assert r[4 + sep..6 + sep] == d[4 + sep..6 + sep];
    assert r[6 + 2 * sep..|d|] == d[6 + 2 * sep..];
    assert r[o..o + 2] == t[..2];
    assert r[o + 2 + sep..o + 4 + sep] == t[2 + sep..4 + sep];
    assert r[o + 4 + 2 * sep..] == t[4 + 2 * sep..];
  }

  /** The zero-padded fields of a date and time, year first. */
  function PaddedFields(dt: DateTime): (f: seq<string>)
    requires Valid(dt)
    ensures |f| == 6
    ensures AllDigits(f[0]) && Value(f[0]) == dt.year
    ensures AllDigits(f[1]) && Value(f[1]) == dt.month
    ensures AllDigits(f[2]) && Value(f[2]) == dt.day
    ensures AllDigits(f[3]) && Value(f[3]) == dt.hour
    ensures AllDigits(f[4]) && Value(f[4]) == dt.minute
    ensures AllDigits(f[5]) && Value(f[5]) == dt.second
  {
    [Padded(dt.year, 4), Padded(dt.month, 2), Padded(dt.day, 2),
     Padded(dt.hour, 2), Padded(dt.minute, 2), Padded(dt.second, 2)]
  }

  /** The timestamp reads back, field by field, as the date and time it was made from. */
  lemma StampFields(dt: DateTime)
    requires Valid(dt)
    ensures var r := Stamp(dt);
      && r[4] == '-' && r[7] == '-' && r[10] == ' ' && r[13] == ':' && r[16] == ':'
      && AllDigits(r[0..4]) && Value(r[0..4]) == dt.year
      && AllDigits(r[5..7]) && Value(r[5..7]) == dt.month
      && AllDigits(r[8..10]) && Value(r[8..10]) == dt.day
      && AllDigits(r[11..13]) && Value(r[11..13]) == dt.hour
      && AllDigits(r[14..16]) && Value(r[14..16]) == dt.minute
      && AllDigits(r[17..19]) && Value(r[17..19]) == dt.second
  {
    var d := Fields(dt.year, 4, dt.month, dt.day, "-");
    var t := Fields(dt.hour, 2, dt.minute, dt.second, ":");
    FieldsReadBack(dt.year, 4, dt.month, dt.day, "-");
    FieldsReadBack(dt.hour, 2, dt.minute, dt.second, ":");
    var f := PaddedFields(dt);
    assert d[..4] == f[0] && d[5..7] == f[1] && d[8..] == f[2];
    assert t[..2] == f[3] && t[3..5] == f[4] && t[6..] == f[5];
    assert Stamp(dt) == d + [' '] + t;
    JoinedFields(Stamp(dt), d, ' ', t, f, 1);
    var r := Stamp(dt);
    assert r[4] == d[4] && r[7] == d[7] && r[13] == t[2] && r[16] == t[5];
  }

  /** The compact stamp reads back, field by field, as the date and time it was made from. */
  lemma CompactStampFields(dt: DateTime)
    requires Valid(dt)
    ensures var r := CompactStamp(dt);
      && r[8] == '_'
      && AllDigits(r[0..4]) && Value(r[0..4]) == dt.year
      && AllDigits(r[4..6]) && Value(r[4..6]) == dt.month
      && AllDigits(r[6..8]) && Value(r[6..8]) == dt.day
      && AllDigits(r[9..11]) && Value(r[9..11]) == dt.hour
      && AllDigits(r[11..13]) && Value(r[11..13]) == dt.minute
      && AllDigits(r[13..15]) && Value(r[13..15]) == dt.second
  {
    var d := Fields(dt.year, 4, dt.month, dt.day, "");
    var t := Fields(dt.hour, 2, dt.minute, dt.second, "");
    FieldsReadBack(dt.year, 4, dt.month, dt.day, "");
    FieldsReadBack(dt.hour, 2, dt.minute, dt.second, "");
    var f := PaddedFields(dt);
    assert d[..4] == f[0] && d[4..6] == f[1] && d[6..] == f[2];
    assert t[..2] == f[3] && t[2..4] == f[4] && t[4..] == f[5];
    assert CompactStamp(dt) == d + ['_'] + t;
    JoinedFields(CompactStamp(dt), d, '_', t, f, 0);
  }
}
