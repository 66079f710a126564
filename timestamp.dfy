/** getTimestamp: the compact YYYYMMDD_HHMM token that names exported files. */
module Timestamp {
  import opened Wrappers
  import opened Text

  /** A local clock reading as Date's getters report it; `month` is zero-based like getMonth. */
  datatype DateTime = DateTime(year: nat, month: nat, day: nat, hours: nat, minutes: nat)

  /** A reading a real clock can give, with a four-digit year. */
  predicate IsCalendarTime(t: DateTime) {
    1000 <= t.year <= 9999 && t.month < 12 && 1 <= t.day <= 31 && t.hours < 24 && t.minutes < 60
  }

  /** `${year}${month}${day}_${hours}${minutes}`, each field after the year padded to two
      digits. For a four-digit year the token has 13 characters with an underscore at
      index 8, and its fixed-position fields read back as the clock reading it was made
      from. */
  function GetTimestamp(t: DateTime): (r: string)
    ensures IsCalendarTime(t) ==> |r| == 13 && r[8] == '_' && ParseTimestamp(r) == Some(t)
  {
    var y := NatToString(t.year);
    var mo := Pad2(NatToString(t.month + 1));
    var d := Pad2(NatToString(t.day));
    var h := Pad2(NatToString(t.hours));
    var mi := Pad2(NatToString(t.minutes));
    if IsCalendarTime(t) then
      CalendarFields(t);
      var r := y + mo + d + "_" + h + mi;
      TokenSlices(y, mo, d, h, mi);
      TokenFields(r, y, mo, d, h, mi);
      r
    else
      y + mo + d + "_" + h + mi
  }

  /** Reads a token of the shape GetTimestamp produces back into a clock reading. */
  function ParseTimestamp(s: string): Option<DateTime> {
    if |s| == 13 && s[8] == '_' then ParseFields(s[0..4], s[4..6], s[6..8], s[9..11], s[11..13])
    else None
  }

  /** Reads the five digit fields of a token; the month field is one-based. */
  function ParseFields(y: string, mo: string, d: string, h: string, mi: string): Option<DateTime> {
    if AllDigits(y) && AllDigits(mo) && AllDigits(d) && AllDigits(h) && AllDigits(mi)
       && DigitsValue(mo) >= 1
    then Some(DateTime(DigitsValue(y), DigitsValue(mo) - 1, DigitsValue(d), DigitsValue(h), DigitsValue(mi)))
    else None
  }

  /** Where the five fields of a token sit. */
  lemma TokenSlices(y: string, mo: string, d: string, h: string, mi: string)
    requires |y| == 4 && |mo| == 2 && |d| == 2 && |h| == 2 && |mi| == 2
    ensures var r := y + mo + d + "_" + h + mi;
      |r| == 13 && r[8] == '_'
      && r[0..4] == y && r[4..6] == mo && r[6..8] == d && r[9..11] == h && r[11..13] == mi
  {
  }

  /** A token reads its five fields from their fixed positions. */
  lemma TokenFields(r: string, y: string, mo: string, d: string, h: string, mi: string)
    requires |r| == 13 && r[8] == '_'
    requires r[0..4] == y && r[4..6] == mo && r[6..8] == d && r[9..11] == h && r[11..13] == mi
    ensures ParseTimestamp(r) == ParseFields(y, mo, d, h, mi)
  {
  }

  /** Each field of a real clock reading renders at its fixed width and reads back. */
  lemma CalendarFields(t: DateTime)
    requires IsCalendarTime(t)
    ensures |NatToString(t.year)| == 4 && AllDigits(NatToString(t.year))
    ensures DigitsValue(NatToString(t.year)) == t.year
    ensures |Pad2(NatToString(t.month + 1))| == 2 && AllDigits(Pad2(NatToString(t.month + 1)))
    ensures DigitsValue(Pad2(NatToString(t.month + 1))) == t.month + 1
    ensures |Pad2(NatToString(t.day))| == 2 && AllDigits(Pad2(NatToString(t.day)))
    ensures DigitsValue(Pad2(NatToString(t.day))) == t.day
    ensures |Pad2(NatToString(t.hours))| == 2 && AllDigits(Pad2(NatToString(t.hours)))
    ensures DigitsValue(Pad2(NatToString(t.hours))) == t.hours
    ensures |Pad2(NatToString(t.minutes))| == 2 && AllDigits(Pad2(NatToString(t.minutes)))
    ensures DigitsValue(Pad2(NatToString(t.minutes))) == t.minutes
  {
    NatToStringLength(t.year);
    NatToStringValue(t.year);
    Pad2Value(t.month + 1);
    Pad2Value(t.day);
    Pad2Value(t.hours);
    Pad2Value(t.minutes);
  }
}
