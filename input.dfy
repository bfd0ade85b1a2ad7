/** The NgxMyDatePickerDirective attached to the input element: the merge of the caller's
    options over the defaults, the rendering of a chosen date as a local ISO 8601 string with
    its UTC offset (section 5.6 of RFC 3339), the yyyy-mm-dd conversion, and the key handler
    that keeps the input text and the selected date in step. */
module Input {
  import opened Types
  import opened Text
  import opened Options
  import opened Util

  // ---------------------------------------------------------------------------------------
  // Host arithmetic the renderer relies on.

  /** `Math.floor(a / b)` for a positive divisor. */
  function FloorDiv(a: int, b: int): (q: int)
    requires b > 0
    ensures b * q <= a < b * (q + 1)
  {
    a / b
  }

  /** The host's `a % b`: the remainder of the division truncated toward zero, which takes the
      sign of `a` and has the remainder of |a| as its magnitude. */
  function JsRem(a: int, b: int): (r: int)
    requires b > 0
    ensures a >= 0 ==> r >= 0
    ensures a <= 0 ==> r <= 0
    ensures Abs(r) == Abs(a) % b
  {
    if a >= 0 then a % b else -((-a) % b)
  }

  // ---------------------------------------------------------------------------------------
  // pad and getLocalISOString.

  /** `pad(n, width)`: the digits of |floor(n)|, left-filled with '0' up to `width`; a falsy
      width (0, or the `null` the callers pass) stands for 2. `n` is already an integer here:
      every caller passes an integer except the hours of the offset, whose floor the callers
      below take with FloorDiv. */
  function Pad(n: int, width: int): (s: string)
    ensures AllDigits(s)
  {
    var w := if width == 0 then 2 else width;
    var digits := NatToString(Abs(n));
    if |digits| >= w then digits else Zeros(w - |digits|) + digits
  }

  /** Reading back a padded field gives the magnitude of the number, and the field is as long
      as the digits or the width, whichever is longer. */
  lemma PadValue(n: int, width: int)
    ensures DecimalValue(Pad(n, width)) == Abs(n)
    ensures |Pad(n, width)| == Max(if width == 0 then 2 else width, |NatToString(Abs(n))|)
  {
    var w := if width == 0 then 2 else width;
    var digits := NatToString(Abs(n));
    ValueOfNatToString(Abs(n));
    if |digits| < w {
      ValueOfZerosPrefix(w - |digits|, digits);
    }
  }

  /** A number whose magnitude has at most `w` digits is padded to exactly `w` characters. */
  lemma PadFixed(n: int, width: int)
    requires (if width == 0 then 2 else width) >= 1
    requires Abs(n) < Pow10(if width == 0 then 2 else width)
    ensures |Pad(n, width)| == (if width == 0 then 2 else width)
    ensures DecimalValue(Pad(n, width)) == Abs(n)
  {
    NatToStringLength(Abs(n), if width == 0 then 2 else width);
    PadValue(n, width);
  }

  /** Two numbers of different magnitude are padded differently; of the same, identically. */
  lemma PadInjective(a: int, b: int, width: int)
    ensures Pad(a, width) == Pad(b, width) <==> Abs(a) == Abs(b)
  {
    PadValue(a, width);
    PadValue(b, width);
  }

  /** The string getLocalISOString assembles, from the values it pads: year, month (1-based),
      day, hours, minutes, seconds, milliseconds, the sign of the offset and the two numbers
      it pads for the offset's hours and minutes. */
  function IsoString(year: int, month: int, day: int, hours: int, minutes: int, seconds: int,
                     millis: int, sign: char, offHours: int, offMinutes: int): string
  {
    DateText(year, month, day) + TimeText(hours, minutes, seconds, millis) + OffsetText(sign, offHours, offMinutes)
  }

  /** `Y-MM-DD` */
  function DateText(year: int, month: int, day: int): string
  {
    IntToString(year) + "-" + Pad(month, 0) + "-" + Pad(day, 0)
  }

  /** `THH:mm:ss.sss` */
  function TimeText(hours: int, minutes: int, seconds: int, millis: int): string
  {
    "T" + Pad(hours, 0) + ":" + Pad(minutes, 0) + ":" + Pad(seconds, 0) + "." + Pad(millis, 3)
  }

  /** `±HH:mm` */
  function OffsetText(sign: char, offHours: int, offMinutes: int): string
  {
    [sign] + Pad(offHours, 0) + ":" + Pad(offMinutes, 0)
  }

  /** `dif`: '+' when the offset east of UTC, `tzo`, is not negative. */
  function OffsetSign(tzo: int): char
  {
    if tzo >= 0 then '+' else '-'
  }

  /** getLocalISOString as written: the hours of the offset are `pad(tzo / 60)`, whose floor
      of a negative fraction lands one hour further from zero. */
  function LocalIsoStringAsWritten(d: DateTime): string
  {
    var tzo := -d.timezoneOffset;
    IsoString(d.year, d.month + 1, d.day, d.hours, d.minutes, d.seconds, d.milliseconds,
              OffsetSign(tzo), FloorDiv(tzo, 60), JsRem(tzo, 60))
  }

  /** getLocalISOString with the hours of the offset taken from its magnitude,
      `pad(Math.abs(tzo) / 60)`: the form the rest of this model uses. */
  function LocalIsoString(d: DateTime): string
  {
    var tzo := -d.timezoneOffset;
    IsoString(d.year, d.month + 1, d.day, d.hours, d.minutes, d.seconds, d.milliseconds,
              OffsetSign(tzo), Abs(tzo) / 60, JsRem(tzo, 60))
  }

  /** The characters `i .. j-1` of `s` are decimal digits that denote `n`. */
  predicate FieldIs(s: string, i: int, j: int, n: int)
  {
    0 <= i <= j <= |s| && AllDigits(s[i..j]) && DecimalValue(s[i..j]) == n
  }

  /** A field keeps its place when text is appended, and moves by the length of what is put
      in front. */
  lemma FieldInConcat(a: string, b: string, i: int, j: int, n: int)
    ensures FieldIs(a, i, j, n) ==> FieldIs(a + b, i, j, n)
    ensures FieldIs(b, i, j, n) ==> FieldIs(a + b, |a| + i, |a| + j, n)
  {
    if FieldIs(a, i, j, n) {
      assert (a + b)[i..j] == a[i..j];
    }
    if FieldIs(b, i, j, n) {
      assert (a + b)[|a| + i..|a| + j] == b[i..j];
    }
  }

  /** A four-digit year and two two-digit fields make the 10 characters `YYYY-MM-DD`. */
  lemma DateTextShape(year: int, month: int, day: int)
    requires 1000 <= year <= 9999 && Abs(month) < 100 && Abs(day) < 100
    ensures var s := DateText(year, month, day);
            && |s| == 10 && s[4] == '-' && s[7] == '-'
            && FieldIs(s, 0, 4, year)
            && FieldIs(s, 5, 7, Abs(month))
            && FieldIs(s, 8, 10, Abs(day))
  {
    assert Pow10(3) == 1000 && Pow10(2) == 100;
    NatToStringLength(year, 4);
    ValueOfNatToString(year);
    PadFixed(month, 0);
    PadFixed(day, 0);
    var s := DateText(year, month, day);
    assert s[0..4] == IntToString(year);
    assert s[5..7] == Pad(month, 0);
    assert s[8..10] == Pad(day, 0);
  }

  /** The 13 characters `THH:mm:ss.sss`. */
  lemma TimeTextShape(hours: int, minutes: int, seconds: int, millis: int)
    requires Abs(hours) < 100 && Abs(minutes) < 100 && Abs(seconds) < 100 && Abs(millis) < 1000
    ensures var s := TimeText(hours, minutes, seconds, millis);
            && |s| == 13 && s[0] == 'T' && s[3] == ':' && s[6] == ':' && s[9] == '.'
            && FieldIs(s, 1, 3, Abs(hours))
            && FieldIs(s, 4, 6, Abs(minutes))
            && FieldIs(s, 7, 9, Abs(seconds))
            && FieldIs(s, 10, 13, Abs(millis))
  {
    assert Pow10(3) == 1000 && Pow10(2) == 100;
    PadFixed(hours, 0);
    PadFixed(minutes, 0);
    PadFixed(seconds, 0);
    PadFixed(millis, 3);
    var s := TimeText(hours, minutes, seconds, millis);
    assert s[1..3] == Pad(hours, 0);
    assert s[4..6] == Pad(minutes, 0);
    assert s[7..9] == Pad(seconds, 0);
    assert s[10..13] == Pad(millis, 3);
  }

  /** The 6 characters `±HH:mm`. */
  lemma OffsetTextShape(sign: char, offHours: int, offMinutes: int)
    requires Abs(offHours) < 100 && Abs(offMinutes) < 100
    ensures var s := OffsetText(sign, offHours, offMinutes);
            && |s| == 6 && s[0] == sign && s[3] == ':'
            && FieldIs(s, 1, 3, Abs(offHours))
            && FieldIs(s, 4, 6, Abs(offMinutes))
  {
    assert Pow10(2) == 100;
    PadFixed(offHours, 0);
    PadFixed(offMinutes, 0);
    var s := OffsetText(sign, offHours, offMinutes);
    assert s[1..3] == Pad(offHours, 0);
    assert s[4..6] == Pad(offMinutes, 0);
  }

  /** The 23 characters `YYYY-MM-DDTHH:mm:ss.sss` before the offset. */
  lemma DateTimeTextShape(year: int, month: int, day: int, hours: int, minutes: int, seconds: int,
                          millis: int)
    requires 1000 <= year <= 9999
    requires Abs(month) < 100 && Abs(day) < 100 && Abs(hours) < 100 && Abs(minutes) < 100
    requires Abs(seconds) < 100 && Abs(millis) < 1000
    ensures var s := DateText(year, month, day) + TimeText(hours, minutes, seconds, millis);
            && |s| == 23
            && s[4] == '-' && s[7] == '-' && s[10] == 'T' && s[13] == ':' && s[16] == ':' && s[19] == '.'
            && FieldIs(s, 0, 4, year)
            && FieldIs(s, 5, 7, Abs(month))
            && FieldIs(s, 8, 10, Abs(day))
            && FieldIs(s, 11, 13, Abs(hours))
            && FieldIs(s, 14, 16, Abs(minutes))
            && FieldIs(s, 17, 19, Abs(seconds))
            && FieldIs(s, 20, 23, Abs(millis))
  {
    var d, t := DateText(year, month, day), TimeText(hours, minutes, seconds, millis);
    DateTextShape(year, month, day);
    TimeTextShape(hours, minutes, seconds, millis);
    FieldInConcat(d, t, 0, 4, year);
    FieldInConcat(d, t, 5, 7, Abs(month));
    FieldInConcat(d, t, 8, 10, Abs(day));
    FieldInConcat(d, t, 1, 3, Abs(hours));
    FieldInConcat(d, t, 4, 6, Abs(minutes));
    FieldInConcat(d, t, 7, 9, Abs(seconds));
    FieldInConcat(d, t, 10, 13, Abs(millis));
  }

  /** The fixed layout `YYYY-MM-DDTHH:mm:ss.sss±HH:mm`, 29 characters, for a four-digit year
      and fields in range; each field reads back as the magnitude of the value padded. */
  lemma IsoStringShape(year: int, month: int, day: int, hours: int, minutes: int, seconds: int,
                       millis: int, sign: char, offHours: int, offMinutes: int)
    requires 1000 <= year <= 9999
    requires Abs(month) < 100 && Abs(day) < 100 && Abs(hours) < 100 && Abs(minutes) < 100
    requires Abs(seconds) < 100 && Abs(millis) < 1000 && Abs(offHours) < 100 && Abs(offMinutes) < 100
    ensures var s := IsoString(year, month, day, hours, minutes, seconds, millis, sign, offHours, offMinutes);
            && |s| == 29
            && s[4] == '-' && s[7] == '-' && s[10] == 'T' && s[13] == ':' && s[16] == ':'
            && s[19] == '.' && s[23] == sign && s[26] == ':'
            && FieldIs(s, 0, 4, year)
            && FieldIs(s, 5, 7, Abs(month))
            && FieldIs(s, 8, 10, Abs(day))
            && FieldIs(s, 11, 13, Abs(hours))
            && FieldIs(s, 14, 16, Abs(minutes))
            && FieldIs(s, 17, 19, Abs(seconds))
            && FieldIs(s, 20, 23, Abs(millis))
            && FieldIs(s, 24, 26, Abs(offHours))
            && FieldIs(s, 27, 29, Abs(offMinutes))
  {
    var dt, o := DateText(year, month, day) + TimeText(hours, minutes, seconds, millis),
                 OffsetText(sign, offHours, offMinutes);
    DateTimeTextShape(year, month, day, hours, minutes, seconds, millis);
    OffsetTextShape(sign, offHours, offMinutes);
    FieldInConcat(dt, o, 0, 4, year);
    FieldInConcat(dt, o, 5, 7, Abs(month));
    FieldInConcat(dt, o, 8, 10, Abs(day));
    FieldInConcat(dt, o, 11, 13, Abs(hours));
    FieldInConcat(dt, o, 14, 16, Abs(minutes));
    FieldInConcat(dt, o, 17, 19, Abs(seconds));
    FieldInConcat(dt, o, 20, 23, Abs(millis));
    FieldInConcat(dt, o, 1, 3, Abs(offHours));
    FieldInConcat(dt, o, 4, 6, Abs(offMinutes));
  }

  /** The ranges the host Date's getters return, a four-digit year, and an offset under a
      day. */
  predicate InRange(d: DateTime)
  {
    && 1000 <= d.year <= 9999 && 0 <= d.month < 12 && 1 <= d.day <= 31
    && 0 <= d.hours < 24 && 0 <= d.minutes < 60 && 0 <= d.seconds < 60
    && 0 <= d.milliseconds < 1000 && Abs(d.timezoneOffset) < 1440
  }

  /** The first 23 characters `YYYY-MM-DDTHH:mm:ss.sss`, the local date and time before the
      offset. */
  function LocalDateTimeText(d: DateTime): string
  {
    DateText(d.year, d.month + 1, d.day) + TimeText(d.hours, d.minutes, d.seconds, d.milliseconds)
  }

  lemma LocalDateTimeLength(d: DateTime)
    requires InRange(d)
    ensures |LocalDateTimeText(d)| == 23
  {
    DateTextShape(d.year, d.month + 1, d.day);
    TimeTextShape(d.hours, d.minutes, d.seconds, d.milliseconds);
  }

  /** getLocalISOString renders every field of the local date and time at its fixed place. */
  lemma LocalIsoStringShape(d: DateTime)
    requires InRange(d)
    ensures var s := LocalIsoString(d);
            && |s| == 29
            && FieldIs(s, 0, 4, d.year) && FieldIs(s, 5, 7, d.month + 1) && FieldIs(s, 8, 10, d.day)
            && FieldIs(s, 11, 13, d.hours) && FieldIs(s, 14, 16, d.minutes) && FieldIs(s, 17, 19, d.seconds)
            && FieldIs(s, 20, 23, d.milliseconds)
  {
    var tzo := -d.timezoneOffset;
    var h, m := Abs(tzo) / 60, JsRem(tzo, 60);
    assert Abs(h) < 100 && Abs(m) < 100;
    assert LocalIsoString(d) == IsoString(d.year, d.month + 1, d.day, d.hours, d.minutes, d.seconds,
                                          d.milliseconds, OffsetSign(tzo), h, m);
    IsoStringShape(d.year, d.month + 1, d.day, d.hours, d.minutes, d.seconds, d.milliseconds,
                   OffsetSign(tzo), h, m);
  }

  /** Six characters `±HH:mm` after a 23-character prefix are the sign at 23 and the fields
      at 24..25 and 27..28. */
  lemma OffsetAfterPrefix(p: string, o: string, sign: char, h: int, mm: int)
    requires |p| == 23 && |o| == 6 && o[0] == sign
    requires FieldIs(o, 1, 3, h) && FieldIs(o, 4, 6, mm)
    ensures FieldIs(p + o, 24, 26, h) && FieldIs(p + o, 27, 29, mm) && (p + o)[23] == sign
  {
    FieldInConcat(p, o, 1, 3, h);
    FieldInConcat(p, o, 4, 6, mm);
  }

  /** The offset getLocalISOString ends with reads back: the sign says whether local time is
      ahead of UTC, and the two fields are the whole hours and the remaining minutes of the
      offset's magnitude, so that together they give UTC minus local time again. */
  lemma LocalIsoStringOffset(d: DateTime)
    requires InRange(d)
    ensures var s := LocalIsoString(d);
            && FieldIs(s, 24, 26, Abs(d.timezoneOffset) / 60)
            && FieldIs(s, 27, 29, Abs(d.timezoneOffset) % 60)
            && (s[23] == '+' <==> d.timezoneOffset <= 0)
  {
    var tzo := -d.timezoneOffset;
    var sign, h, mm := OffsetSign(tzo), Abs(tzo) / 60, JsRem(tzo, 60);
    assert Abs(tzo) == Abs(d.timezoneOffset);
    IsoStringSplit(d);
    LocalDateTimeLength(d);
    OffsetTextShape(sign, h, mm);
    OffsetAfterPrefix(LocalDateTimeText(d), OffsetText(sign, h, mm), sign,
                      Abs(d.timezoneOffset) / 60, Abs(d.timezoneOffset) % 60);
  }

  /** The hours of the offset as written agree with the magnitude's hours exactly when the
      local time is not behind UTC or the offset is a whole number of hours. */
  lemma AsWrittenHours(tzo: int)
    ensures Abs(FloorDiv(tzo, 60)) == Abs(tzo) / 60 <==> tzo >= 0 || tzo % 60 == 0
  {
    if tzo < 0 {
      var q, r := Abs(tzo) / 60, Abs(tzo) % 60;
      assert Abs(tzo) == 60 * q + r;
      if r == 0 {
        assert tzo == 60 * -q;
        assert FloorDiv(tzo, 60) == -q;
      } else {
        assert tzo == 60 * (-q - 1) + (60 - r);
        assert FloorDiv(tzo, 60) == -q - 1;
      }
    }
  }

  /** Putting the same text in front of two strings keeps them equal or different. */
  lemma ConcatCancel(p: string, a: string, b: string)
    ensures p + a == p + b <==> a == b
  {
    if p + a == p + b {
      assert a == (p + a)[|p|..];
      assert b == (p + b)[|p|..];
    }
  }

  /** Two offsets with the same sign and minutes render alike exactly when their hours have
      the same magnitude. */
  lemma OffsetTextInjective(sign: char, h1: int, h2: int, mm: int)
    requires Abs(h1) < 100 && Abs(h2) < 100 && Abs(mm) < 100
    ensures OffsetText(sign, h1, mm) == OffsetText(sign, h2, mm) <==> Abs(h1) == Abs(h2)
  {
    PadInjective(h1, h2, 0);
    OffsetTextShape(sign, h1, mm);
    OffsetTextShape(sign, h2, mm);
  }

  /** Both renderings are the local date and time followed by the offset text; they differ
      only in the hours they pad for the offset. */
  lemma IsoStringSplit(d: DateTime)
    ensures var tzo := -d.timezoneOffset;
            && LocalIsoStringAsWritten(d) == LocalDateTimeText(d) + OffsetText(OffsetSign(tzo), FloorDiv(tzo, 60), JsRem(tzo, 60))
            && LocalIsoString(d) == LocalDateTimeText(d) + OffsetText(OffsetSign(tzo), Abs(tzo) / 60, JsRem(tzo, 60))
  {
  }

  /** The offset text as written equals the corrected one exactly when the local time is
      not behind UTC (`getTimezoneOffset()`, `offset`, is not positive) or the offset is a
      whole number of hours. */
  lemma OffsetTextAgrees(offset: int)
    requires Abs(offset) < 1440
    ensures var tzo := -offset;
            (OffsetText(OffsetSign(tzo), FloorDiv(tzo, 60), JsRem(tzo, 60))
             == OffsetText(OffsetSign(tzo), Abs(tzo) / 60, JsRem(tzo, 60)))
            <==> offset <= 0 || offset % 60 == 0
  {
    var tzo := -offset;
    var ha, hc, mm := FloorDiv(tzo, 60), Abs(tzo) / 60, JsRem(tzo, 60);
    AsWrittenHours(tzo);
    assert tzo % 60 == 0 <==> offset % 60 == 0 by {
      var q := offset / 60;
      if offset % 60 == 0 {
        assert tzo == 60 * -q;
      } else {
        assert tzo == 60 * (-q - 1) + (60 - offset % 60);
      }
    }
    assert -25 <= ha < 25 && hc < 25 && Abs(mm) < 60;
    OffsetTextInjective(OffsetSign(tzo), ha, hc, mm);
  }

  /** getLocalISOString as written renders the same string as the corrected one exactly when
      the local time is not behind UTC or the offset is a whole number of hours; for every
      other offset the hours field is one too many. */
  lemma AsWrittenAgrees(d: DateTime)
    requires InRange(d)
    ensures LocalIsoStringAsWritten(d) == LocalIsoString(d) <==> d.timezoneOffset <= 0 || d.timezoneOffset % 60 == 0
  {
    var tzo := -d.timezoneOffset;
    var p := LocalDateTimeText(d);
    var oa, oc := OffsetText(OffsetSign(tzo), FloorDiv(tzo, 60), JsRem(tzo, 60)),
                  OffsetText(OffsetSign(tzo), Abs(tzo) / 60, JsRem(tzo, 60));
    IsoStringSplit(d);
    ConcatCancel(p, oa, oc);
    OffsetTextAgrees(d.timezoneOffset);
    if d.timezoneOffset <= 0 || d.timezoneOffset % 60 == 0 {
      assert oa == oc;
      assert LocalIsoStringAsWritten(d) == p + oc;
    } else {
      assert oa != oc;
      assert p + oa != p + oc;
    }
  }

  /** Three and a half hours behind UTC (getTimezoneOffset() = 210, as in Newfoundland) is
      rendered `-04:30` as written, where `-03:30` is meant. */
  lemma AsWrittenHalfHourBehind()
    ensures var d := DateTime(2024, 6, 1, 12, 0, 0, 0, 210);
            && LocalIsoStringAsWritten(d)[23..] == "-04:30"
            && LocalIsoString(d)[23..] == "-03:30"
  {
    var d := DateTime(2024, 6, 1, 12, 0, 0, 0, 210);
    var p := LocalDateTimeText(d);
    LocalDateTimeLength(d);
    assert LocalIsoStringAsWritten(d) == p + OffsetText('-', -4, -30) by {
      assert FloorDiv(-210, 60) == -4 && JsRem(-210, 60) == -30;
    }
    assert LocalIsoString(d) == p + OffsetText('-', 3, -30) by {
      assert Abs(-210) / 60 == 3 && JsRem(-210, 60) == -30;
    }
    assert OffsetText('-', -4, -30) == "-04:30" by {
      assert Pad(-4, 0) == "04" && Pad(-30, 0) == "30";
    }
    assert OffsetText('-', 3, -30) == "-03:30" by {
      assert Pad(3, 0) == "03" && Pad(-30, 0) == "30";
    }
  }

  // ---------------------------------------------------------------------------------------
  // convertDateFormat.

  /** `'0' + x` for a number below 10, else the number itself, as the string concatenation
      renders it. */
  function LeadingZero(x: int): string
  {
    if x < 10 then "0" + IntToString(x) else IntToString(x)
  }

  /** A number 0..99 becomes exactly two digits that read back as the number; for those
      numbers it is the same text as `pad(x)`. */
  lemma LeadingZeroTwoDigits(x: int)
    requires 0 <= x < 100
    ensures |LeadingZero(x)| == 2 && FieldIs(LeadingZero(x), 0, 2, x)
    ensures LeadingZero(x) == Pad(x, 0)
  {
    assert Pow10(1) == 10 && Pow10(2) == 100;
    NatToStringLength(x, if x < 10 then 1 else 2);
    ValueOfNatToString(x);
    var digits := NatToString(x);
    if x < 10 {
      assert LeadingZero(x) == Zeros(1) + digits;
      ValueOfZerosPrefix(1, digits);
    }
    assert LeadingZero(x)[0..2] == LeadingZero(x);
  }

  /** The text convertDateFormat returns for a year, month (1-based) and day. */
  function DateFormatText(year: int, month: int, day: int): string
  {
    IntToString(year) + "-" + LeadingZero(month) + "-" + LeadingZero(day)
  }

  /** For a valid date with a four-digit year the result is `yyyy-mm-dd`: ten characters, each
      field reading back as the date's own, and the same text as the date part of
      getLocalISOString. */
  lemma DateFormatTextShape(year: int, month: int, day: int)
    requires 1000 <= year <= 9999 && 1 <= month <= 12 && 1 <= day <= 31
    ensures var s := DateFormatText(year, month, day);
            && |s| == 10 && s[4] == '-' && s[7] == '-'
            && FieldIs(s, 0, 4, year) && FieldIs(s, 5, 7, month) && FieldIs(s, 8, 10, day)
            && s == DateText(year, month, day)
  {
    LeadingZeroTwoDigits(month);
    LeadingZeroTwoDigits(day);
    assert DateFormatText(year, month, day) == DateText(year, month, day);
    DateTextShape(year, month, day);
  }

  // ---------------------------------------------------------------------------------------
  // parseOptions.

  /** Well-typed entries copied over a full record leave a full record. */
  lemma MergeComplete(base: Options, supplied: Options)
    requires Complete(base) && WellTyped(supplied)
    ensures Complete(base + supplied)
  {
    var merged := base + supplied;
    forall k | k in merged ensures HasKind(k, merged[k]) {
      if k in supplied {
        assert merged[k] == supplied[k];
      }
    }
  }

  /** The options after `parseOptions(supplied)` on `base`: every key the caller supplies
      replaces the current value, every other key keeps it, and then a minYear below MIN_YEAR
      is raised to it and a maxYear above MAX_YEAR lowered to it. */
  function ParsedOptions(base: Options, supplied: Option<Options>): (r: Options)
    requires Complete(base) && (supplied.Some? ==> WellTyped(supplied.value))
    ensures Complete(r)
    ensures forall k :: k != minYear && k != maxYear ==>
              r[k] == if supplied.Some? && k in supplied.value then supplied.value[k] else base[k]
    ensures var merged := if supplied.Some? then base + supplied.value else base;
            && r[minYear] == IntV(Max(merged[minYear].i, MIN_YEAR))
            && r[maxYear] == IntV(if merged[maxYear].i > MAX_YEAR then MAX_YEAR else merged[maxYear].i)
  {
    var merged := if supplied.Some? then base + supplied.value else base;
    assert Complete(merged) by {
      if supplied.Some? {
        MergeComplete(base, supplied.value);
      }
    }
    var m1 := if merged[minYear].i < MIN_YEAR then merged[minYear := IntV(MIN_YEAR)] else merged;
    if m1[maxYear].i > MAX_YEAR then m1[maxYear := IntV(MAX_YEAR)] else m1
  }

  /** After parseOptions the year bounds lie within MIN_YEAR .. MAX_YEAR. */
  lemma ParsedYearBounds(base: Options, supplied: Option<Options>)
    requires Complete(base) && (supplied.Some? ==> WellTyped(supplied.value))
    ensures MinYear(ParsedOptions(base, supplied)) >= MIN_YEAR
    ensures MaxYear(ParsedOptions(base, supplied)) <= MAX_YEAR
  {
    var r := ParsedOptions(base, supplied);
    assert r[minYear].i >= MIN_YEAR;
  }

  /** Passing the same options again changes nothing. */
  lemma ParseOptionsIdempotent(base: Options, supplied: Option<Options>)
    requires Complete(base) && (supplied.Some? ==> WellTyped(supplied.value))
    ensures ParsedOptions(ParsedOptions(base, supplied), supplied) == ParsedOptions(base, supplied)
  {
    var once := ParsedOptions(base, supplied);
    var twice := ParsedOptions(once, supplied);
    forall k | k in twice ensures twice[k] == once[k] {
    }
  }

  /** With no options supplied only the clamp acts, so options whose year bounds are already
      in range, the defaults among them, stay as they are. */
  lemma ParseNoOptions(base: Options)
    requires Complete(base) && MIN_YEAR <= MinYear(base) && MaxYear(base) <= MAX_YEAR
    ensures ParsedOptions(base, None) == base
  {
    var r := ParsedOptions(base, None);
    assert r[minYear] == base[minYear] && r[maxYear] == base[maxYear];
    forall k | k in r ensures r[k] == base[k] {
    }
  }

  /** `base` with the entries of `supplied` copied over it, except those whose key is still
      in `pending`. */
  ghost function CopiedExcept(base: Options, supplied: Options, pending: set<Key>): Options
  {
    base + map k | k in supplied && k !in pending :: supplied[k]
  }

  /** Copying one more pending key. */
  lemma CopyStep(base: Options, supplied: Options, pending: set<Key>, k: Key)
    requires k in pending && pending <= supplied.Keys
    ensures CopiedExcept(base, supplied, pending)[k := supplied[k]] == CopiedExcept(base, supplied, pending - {k})
  {
  }

  // ---------------------------------------------------------------------------------------
  // The directive.

  /** What the directive emits or calls back with, in order. */
  datatype Event =
    | DateChanged(model: DateModel)                    // dateChanged.emit(model)
    | DateCleared                                      // dateChanged.emit of the empty model
    | InputFieldChanged(value: string, dateFormat: string, valid: bool)
    | ModelChange(value: string)                       // onChangeCb(value)
    | CalendarToggle(reason: int)                      // calendarToggle.emit(reason)

  class DatePickerDirective {
    const util: UtilService
    var opts: Options
    /** The text of the input when the directive last looked at it. */
    var inputText: string
    /** `elem.nativeElement.value`: what the input element shows. */
    var elementValue: string
    /** `cRef !== null`: the selector is open. */
    var selectorOpen: bool
    var month: string
    var dt: string

    ghost predicate Valid()
      reads this
    {
      Complete(opts)
    }

    /** A directive on an input element showing `value`, with the default options. */
    constructor (util: UtilService, value: string)
      ensures this.util == util && opts == DefaultOptions && Valid()
      ensures inputText == "" && elementValue == value && !selectorOpen
    {
      DefaultsComplete();
      this.util := util;
      opts := DefaultOptions;
      inputText := "";
      elementValue := value;
      selectorOpen := false;
      month := "";
      dt := "";
    }

    /** `parseOptions`: the supplied entries are copied key by key over the current options,
        then the year bounds are clamped. */
    method ParseOptions(supplied: Option<Options>)
      requires Valid() && (supplied.Some? ==> WellTyped(supplied.value))
      modifies this`opts
      ensures Valid() && opts == ParsedOptions(old(opts), supplied)
    {
      if supplied.Some? {
        var keys := supplied.value.Keys;
        while keys != {}
          invariant keys <= supplied.value.Keys
          invariant opts == CopiedExcept(old(opts), supplied.value, keys)
          decreases keys
        {
          var k :| k in keys;
          CopyStep(old(opts), supplied.value, keys, k);
          opts := opts[k := supplied.value[k]];
          keys := keys - {k};
        }
        assert CopiedExcept(old(opts), supplied.value, {}) == old(opts) + supplied.value;
        MergeComplete(old(opts), supplied.value);
      }
      assert opts == if supplied.Some? then old(opts) + supplied.value else old(opts);
      if opts[minYear].i < MIN_YEAR {
        opts := opts[minYear := IntV(MIN_YEAR)];
      }
      if opts[maxYear].i > MAX_YEAR {
        opts := opts[maxYear := IntV(MAX_YEAR)];
      }
    }

    /** `convertDateFormat`, from the year, month (1-based) and day the host Date parsed: the
        month and day fields get their leading zero. */
    method ConvertDateFormat(year: int, m: int, d: int) returns (r: string)
      modifies this`month, this`dt
      ensures month == LeadingZero(m) && dt == LeadingZero(d)
      ensures r == DateFormatText(year, m, d)
    {
      dt := IntToString(d);
      month := IntToString(m);
      if d < 10 {
        dt := "0" + dt;
      }
      if m < 10 {
        month := "0" + month;
      }
      r := IntToString(year) + "-" + month + "-" + dt;
    }

    /** `closeSelector(reason)`: an open selector is removed and the reason emitted. */
    method CloseSelector(reason: int) returns (events: seq<Event>)
      modifies this`selectorOpen
      ensures !selectorOpen
      ensures events == if old(selectorOpen) then [CalendarToggle(reason)] else []
    {
      events := [];
      if selectorOpen {
        selectorOpen := false;
        events := [CalendarToggle(reason)];
      }
    }

    /** `setInputValue`: the element and the remembered text both become `value`. */
    method SetInputValue(value: string)
      modifies this`inputText, this`elementValue
      ensures inputText == value && elementValue == value
    {
      inputText := value;
      elementValue := value;
    }

    /** `clearDate`. */
    method ClearDate() returns (events: seq<Event>)
      requires Valid()
      modifies this`inputText, this`elementValue, this`selectorOpen
      ensures inputText == "" && elementValue == "" && !selectorOpen
      ensures events == [DateCleared, InputFieldChanged("", DateFormat(opts), false), ModelChange("")]
                        + (if old(selectorOpen) then [CalendarToggle(3)] else [])
    {
      events := [DateCleared, InputFieldChanged("", DateFormat(opts), false), ModelChange("")];
      SetInputValue("");
      var closed := CloseSelector(3);
      events := events + closed;
    }

    /** `updateModel`: the form control receives the chosen date as a local ISO string and the
        input shows its formatted text. */
    method UpdateModel(model: DateModel) returns (events: seq<Event>)
      modifies this`inputText, this`elementValue
      ensures inputText == model.formatted && elementValue == model.formatted
      ensures events == [ModelChange(LocalIsoString(model.jsdate))]
    {
      events := [ModelChange(LocalIsoString(model.jsdate))];
      SetInputValue(model.formatted);
    }

    /** `onKeyUp`: Escape only closes the selector. Any other key validates the element's
        text: a date it denotes is chosen; otherwise, when the text changed since last time,
        an empty text clears the date and any other text reports an invalid input. Either way
        the directive then remembers the element's text. */
    method OnKeyUp(keyCode: int) returns (events: seq<Event>)
      requires Valid()
      modifies this`inputText, this`elementValue, this`selectorOpen
      ensures keyCode == 27 ==>
                && inputText == old(inputText) && elementValue == old(elementValue) && !selectorOpen
                && events == (if old(selectorOpen) then [CalendarToggle(3)] else [])
      ensures keyCode != 27 ==> inputText == elementValue
      ensures keyCode != 27 ==>
                var fmt := DateFormat(opts);
                var date := util.isDateValid(old(elementValue), fmt, MinYear(opts), MaxYear(opts), Rules(opts), MonthLabels(opts));
                if IsFound(date) then
                  var dm := util.getDateModel(date, fmt, MonthLabels(opts));
                  && elementValue == dm.formatted && !selectorOpen
                  && events == [DateChanged(dm), ModelChange(LocalIsoString(dm.jsdate)), InputFieldChanged(dm.formatted, fmt, true)]
                               + (if old(selectorOpen) then [CalendarToggle(2)] else [])
                else if old(inputText) == old(elementValue) then
                  elementValue == old(elementValue) && selectorOpen == old(selectorOpen) && events == []
                else if old(elementValue) == "" then
                  && elementValue == "" && !selectorOpen
                  && events == [DateCleared, InputFieldChanged("", fmt, false), ModelChange("")]
                               + (if old(selectorOpen) then [CalendarToggle(3)] else [])
                else
                  && elementValue == old(elementValue) && selectorOpen == old(selectorOpen)
                  && events == [ModelChange(""), InputFieldChanged(old(elementValue), fmt, false)]
    {
      if keyCode == 27 {
        events := CloseSelector(3);
        return;
      }
      var fmt := DateFormat(opts);
      var date := util.isDateValid(elementValue, fmt, MinYear(opts), MaxYear(opts), Rules(opts), MonthLabels(opts));
      events := [];
      if date.day != 0 && date.month != 0 && date.year != 0 {
        var dm := util.getDateModel(date, fmt, MonthLabels(opts));
        events := [DateChanged(dm)];
        var updated := UpdateModel(dm);
        events := events + updated + [InputFieldChanged(dm.formatted, fmt, true)];
        var closed := CloseSelector(2);
        events := events + closed;
      } else if inputText != elementValue {
        if elementValue == "" {
          events := ClearDate();
        } else {
          events := [ModelChange(""), InputFieldChanged(elementValue, fmt, false)];
        }
      }
      inputText := elementValue;
    }
  }
}
