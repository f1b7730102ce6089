/** The build server's compact timestamp token `YYYYMMDDhhmmss` and its decoding into the
    calendar fields of a JavaScript `Date`, which `parseDate` sets one setter at a time. */
module Timestamp {
  import opened Text

  /** The local calendar fields of a `Date`. `month` is 0-based, as in JavaScript. */
  datatype DateFields = DateFields(year: int, month: int, day: int, hours: int, minutes: int, seconds: int)

  function Pow10(n: nat): (p: nat)
    ensures p >= 1
  {
    if n == 0 then 1 else 10 * Pow10(n - 1)
  }

  /** The number a string of decimal digits denotes, as JavaScript's `Number("0827")` reads it. */
  function DigitsValue(s: string): (n: nat)
    requires AllDigits(s)
    ensures n < Pow10(|s|)
  {
    if s == [] then 0
    else
      var d := s[|s| - 1] as int - '0' as int;
      var m := DigitsValue(s[..|s| - 1]);
      assert m + 1 <= Pow10(|s| - 1);
      10 * m + d
  }

  /** The `width` low decimal digits of `n`, zero-padded. */
  function Pad(n: nat, width: nat): (s: string)
    ensures |s| == width && AllDigits(s)
  {
    if width == 0 then []
    else Pad(n / 10, width - 1) + [('0' as int + n % 10) as char]
  }

  lemma {:induction false} DigitsValueOfPad(n: nat, width: nat)
    requires n < Pow10(width)
    ensures DigitsValue(Pad(n, width)) == n
  {
    if width > 0 {
      var s := Pad(n, width);
      assert s[..|s| - 1] == Pad(n / 10, width - 1);
      assert n / 10 < Pow10(width - 1);
      DigitsValueOfPad(n / 10, width - 1);
    }
  }

  lemma {:induction false} PadOfDigitsValue(s: string)
    requires AllDigits(s)
    ensures Pad(DigitsValue(s), |s|) == s
  {
    if s != [] {
      var init := s[..|s| - 1];
      var d := s[|s| - 1] as int - '0' as int;
      assert (10 * DigitsValue(init) + d) / 10 == DigitsValue(init);
      assert (10 * DigitsValue(init) + d) % 10 == d;
      PadOfDigitsValue(init);
      assert s == init + [s[|s| - 1]];
    }
  }

  /** A token as the filename pattern `[0-9]{14}` delivers it. */
  predicate IsToken(t: string) { |t| == 14 && AllDigits(t) }

  /** What `parseDate` sets: year from digits 0-3, the 1-based month of digits 4-5 made
      0-based, then day, hour, minute and second from the following digit pairs. */
  function DecodeToken(t: string): DateFields
    requires IsToken(t)
  {
    DateFields(
      DigitsValue(t[0..4]), DigitsValue(t[4..6]) - 1, DigitsValue(t[6..8]),
      DigitsValue(t[8..10]), DigitsValue(t[10..12]), DigitsValue(t[12..14]))
  }

  /** The fields a token can denote. */
  predicate TokenFields(f: DateFields)
  {
    && 0 <= f.year < 10000 && -1 <= f.month < 99 && 0 <= f.day < 100
    && 0 <= f.hours < 100 && 0 <= f.minutes < 100 && 0 <= f.seconds < 100
  }

  /** The token that denotes the given fields: the inverse of `DecodeToken`. */
  function EncodeToken(f: DateFields): string
    requires TokenFields(f)
  {
    Pad(f.year, 4) + Pad(f.month + 1, 2) + Pad(f.day, 2)
      + Pad(f.hours, 2) + Pad(f.minutes, 2) + Pad(f.seconds, 2)
  }

  /** Decoding a token gives fields in range. */
  lemma DecodeTokenFields(t: string)
    requires IsToken(t)
    ensures TokenFields(DecodeToken(t))
  {
    assert Pow10(2) == 100;
    assert Pow10(4) == 10000;
  }

  /** A token is its six fields put back together. */
  lemma TokenPieces(t: string)
    requires |t| == 14
    ensures t == t[0..4] + t[4..6] + t[6..8] + t[8..10] + t[10..12] + t[12..14]
  {
  }

  /** Decoding a token gives fields in range, and encoding them again gives the token back. */
  lemma EncodeDecodeToken(t: string)
    requires IsToken(t)
    ensures TokenFields(DecodeToken(t))
    ensures EncodeToken(DecodeToken(t)) == t
  {
    DecodeTokenFields(t);
    var f := DecodeToken(t);
    PadOfDigitsValue(t[0..4]);
    PadOfDigitsValue(t[4..6]);
    PadOfDigitsValue(t[6..8]);
    PadOfDigitsValue(t[8..10]);
    PadOfDigitsValue(t[10..12]);
    PadOfDigitsValue(t[12..14]);
    assert Pad(f.year, 4) == t[0..4];
    assert Pad(f.month + 1, 2) == t[4..6];
    TokenPieces(t);
  }

  /** Encoding fields in range gives a token that decodes to the same fields. */
  lemma DecodeEncodeToken(f: DateFields)
    requires TokenFields(f)
    ensures IsToken(EncodeToken(f))
    ensures DecodeToken(EncodeToken(f)) == f
  {
    var t := EncodeToken(f);
    assert t[0..4] == Pad(f.year, 4);
    assert t[4..6] == Pad(f.month + 1, 2);
    assert t[6..8] == Pad(f.day, 2);
    assert t[8..10] == Pad(f.hours, 2);
    assert t[10..12] == Pad(f.minutes, 2);
    assert t[12..14] == Pad(f.seconds, 2);
    DigitsValueOfPad(f.year, 4);
    DigitsValueOfPad(f.month + 1, 2);
    DigitsValueOfPad(f.day, 2);
    DigitsValueOfPad(f.hours, 2);
    DigitsValueOfPad(f.minutes, 2);
    DigitsValueOfPad(f.seconds, 2);
  }

  /** The test suite's token: August (month 7), the 27th, 13:24:47. */
  lemma DecodeExample()
    ensures DecodeToken("20120827132447") == DateFields(2012, 7, 27, 13, 24, 47)
  {
    var t := "20120827132447";
    assert t[0..4] == "2012";
    assert t[4..6] == "08";
    assert t[6..8] == "27";
    assert t[8..10] == "13";
    assert t[10..12] == "24";
    assert t[12..14] == "47";
    assert DigitsValue("2012") == 2012 by {
      assert "2012"[..3] == "201" && "201"[..2] == "20" && "20"[..1] == "2" && "2"[..0] == "";
    }
    assert DigitsValue("08") == 8 by { assert "08"[..1] == "0" && "0"[..0] == ""; }
    assert DigitsValue("27") == 27 by { assert "27"[..1] == "2" && "2"[..0] == ""; }
    assert DigitsValue("13") == 13 by { assert "13"[..1] == "1" && "1"[..0] == ""; }
    assert DigitsValue("24") == 24 by { assert "24"[..1] == "2" && "2"[..0] == ""; }
    assert DigitsValue("47") == 47 by { assert "47"[..1] == "4" && "4"[..0] == ""; }
  }

  /** A JavaScript `Date` seen through the setters `parseDate` calls. Date normalisation of
      out-of-range fields and the milliseconds are not modelled. */
  class JsDate {
    var year: int
    var month: int
    var day: int
    var hours: int
    var minutes: int
    var seconds: int

    /** `new Date()`: the clock reading it starts from is a parameter. */
    constructor (now: DateFields)
      ensures Fields() == now
    {
      year, month, day := now.year, now.month, now.day;
      hours, minutes, seconds := now.hours, now.minutes, now.seconds;
    }

    function Fields(): DateFields
      reads this
    {
      DateFields(year, month, day, hours, minutes, seconds)
    }

    /** `setFullYear(year, month, day)`. */
    method SetFullYear(y: int, m: int, d: int)
      modifies this
      ensures Fields() == old(Fields()).(year := y, month := m, day := d)
    {
      year, month, day := y, m, d;
    }

    /** `setHours(h)`. */
    method SetHours(h: int)
      modifies this
      ensures Fields() == old(Fields()).(hours := h)
    {
      hours := h;
    }

    /** `setMinutes(m)`. */
    method SetMinutes(m: int)
      modifies this
      ensures Fields() == old(Fields()).(minutes := m)
    {
      minutes := m;
    }

    /** `setSeconds(s)`. */
    method SetSeconds(s: int)
      modifies this
      ensures Fields() == old(Fields()).(seconds := s)
    {
      seconds := s;
    }
  }

  /** `parseDate`: start from the current date and overwrite its fields from the token, so
      that the result no longer depends on the clock. */
  method ParseDate(token: string, now: DateFields) returns (date: JsDate)
    requires IsToken(token)
    ensures fresh(date)
    ensures date.Fields() == DecodeToken(token)
  {
    date := new JsDate(now);
    date.SetFullYear(DigitsValue(token[0..4]), DigitsValue(token[4..6]) - 1, DigitsValue(token[6..8]));
    date.SetHours(DigitsValue(token[8..10]));
    date.SetMinutes(DigitsValue(token[10..12]));
    date.SetSeconds(DigitsValue(token[12..14]));
  }
}
