/** The server's human-readable durations and ages: a service's minutes as
    `"45 min"`, `"2h"` or `"1h 30min"`, and a pet's age in months as
    `"5 meses"`, `"1 año"` or `"3 años y 2 meses"`. Each display is paired
    with a reader that recovers the number it was made from. */
module Displays {
  import opened Text
  import opened Rfc3339

  /** `duracion_mostrar` (and the legacy `duration_display`): minutes below
      an hour as `"N min"`, whole hours as `"Hh"`, otherwise `"Hh Mmin"`. */
  function DurationDisplay(minutes: nat): (s: string)
  {
    if minutes < 60 then NatToString(minutes) + " min"
    else
      var hours := minutes / 60;
      var rest := minutes % 60;
      if rest == 0 then NatToString(hours) + "h"
      else NatToString(hours) + "h " + NatToString(rest) + "min"
  }

  /** The leading decimal number of `s` and the text after it. */
  function ReadNumber(s: string): (r: Option<(nat, string)>)
  {
    var digits := TakeDigits(s);
    if digits == [] then None else Some((ParseDigits(digits), s[|digits|..]))
  }

  /** A number written out and followed by a non-digit reads back. */
  lemma ReadNumberOf(n: nat, rest: string)
    requires |rest| > 0 && !IsDigit(rest[0])
    ensures ReadNumber(NatToString(n) + rest) == Some((n, rest))
  {
    TakeDigitsStops(NatToString(n), rest);
    ParseNatToString(n);
    assert (NatToString(n) + rest)[|NatToString(n)|..] == rest;
  }

  /** The minutes a duration display stands for. */
  function ReadDuration(s: string): (r: Option<nat>)
  {
    match ReadNumber(s)
    case None => None
    case Some((a, rest)) =>
      if rest == " min" then Some(a)
      else if rest == "h" then Some(60 * a)
      else if |rest| >= 2 && rest[..2] == "h " then
        match ReadNumber(rest[2..])
        case Some((b, "min")) => Some(60 * a + b)
        case _ => None
      else None
  }

  /** Every duration display reads back as its minutes, so two durations
      never share a display. */
  lemma DurationRoundTrip(minutes: nat)
    ensures ReadDuration(DurationDisplay(minutes)) == Some(minutes)
  {
    var hours, rest := minutes / 60, minutes % 60;
    if minutes < 60 {
      ReadNumberOf(minutes, " min");
    } else if rest == 0 {
      ReadNumberOf(hours, "h");
    } else {
      HoursAndMinutes(hours, rest);
    }
  }

  lemma HoursAndMinutes(hours: nat, rest: nat)
    ensures ReadDuration(NatToString(hours) + "h " + NatToString(rest) + "min") == Some(60 * hours + rest)
  {
    var after := HoursTail(rest);
    ReadNumberOf(hours, after);
    ReadNumberOf(rest, "min");
    RegroupHours(NatToString(hours), NatToString(rest), after);
    ReadHoursMinutes(NatToString(hours) + after, hours, after, rest);
  }

  /** `"h Mmin"` starts with `"h "` followed by the minutes. */
  lemma HoursTail(rest: nat) returns (after: string)
    ensures after == "h " + NatToString(rest) + "min"
    ensures |after| > 2 && after[0] == 'h' && after[..2] == "h " && after[2..] == NatToString(rest) + "min"
  {
    after := "h " + NatToString(rest) + "min";
    assert after[2..] == NatToString(rest) + "min";
  }

  lemma RegroupHours(h: string, m: string, after: string)
    requires after == "h " + m + "min"
    ensures h + "h " + m + "min" == h + after
  {
  }

  lemma ReadHoursMinutes(s: string, a: nat, rest: string, b: nat)
    requires ReadNumber(s) == Some((a, rest))
    requires |rest| >= 2 && rest[..2] == "h " && ReadNumber(rest[2..]) == Some((b, "min"))
    ensures ReadDuration(s) == Some(60 * a + b)
  {
    assert rest != " min" && rest != "h";
  }

  lemma DurationInjective(a: nat, b: nat)
    requires DurationDisplay(a) == DurationDisplay(b)
    ensures a == b
  {
    DurationRoundTrip(a);
    DurationRoundTrip(b);
  }

  /** Ninety minutes are `"1h 30min"`. */
  lemma NinetyMinutes()
    ensures DurationDisplay(90) == "1h 30min"
  {
    OneAndThirty(1, 30);
  }

  lemma OneAndThirty(h: nat, m: nat)
    requires h == 1 && m == 30
    ensures NatToString(h) + "h " + NatToString(m) + "min" == "1h 30min"
  {
    assert NatToString(m) == "30" by { assert NatToString(3) == "3"; }
  }

  /** `get_edad_mostrar` (and the legacy `get_age_display`) of an age in
      whole months: `"N meses"` below a year, then the years with `año`
      or `años` (plural only above one), and `" y R meses"` when months
      remain. */
  function AgeDisplay(months: nat): (s: string)
  {
    if months < 12 then NatToString(months) + " meses"
    else
      var years := months / 12;
      var rest := months % 12;
      var head := NatToString(years) + YearWordOf(years);
      if rest == 0 then head else head + " y " + NatToString(rest) + " meses"
  }

  /** The text after the number of years, up to the optional months. */
  function AfterYears(rest: string): (r: Option<string>)
  {
    if |rest| >= 5 && rest[..5] == " años" then Some(rest[5..])
    else if |rest| >= 4 && rest[..4] == " año" then Some(rest[4..])
    else None
  }

  /** The months an age display stands for. */
  function ReadAge(s: string): (r: Option<nat>)
  {
    match ReadNumber(s)
    case None => None
    case Some((a, rest)) =>
      if rest == " meses" then Some(a)
      else
        match AfterYears(rest)
        case None => None
        case Some(tail) =>
          if tail == "" then Some(12 * a)
          else if |tail| >= 3 && tail[..3] == " y " then
            match ReadNumber(tail[3..])
            case Some((b, " meses")) => Some(12 * a + b)
            case _ => None
          else None
  }

  /** Every age display reads back as its months. */
  lemma AgeRoundTrip(months: nat)
    ensures ReadAge(AgeDisplay(months)) == Some(months)
  {
    if months < 12 {
      ReadNumberOf(months, " meses");
    } else if months % 12 == 0 {
      AgeWholeYears(months);
    } else {
      AgeYearsAndMonths(months);
    }
  }

  lemma AgeWholeYears(months: nat)
    requires months >= 12 && months % 12 == 0
    ensures ReadAge(AgeDisplay(months)) == Some(months)
  {
    var word := YearWordOf(months / 12);
    WholeYears(months / 12, word);
  }

  lemma AgeYearsAndMonths(months: nat)
    requires months >= 12 && months % 12 != 0
    ensures ReadAge(AgeDisplay(months)) == Some(months)
  {
    var years, rest := months / 12, months % 12;
    assert 12 * years + rest == months;
    var word := YearWordOf(years);
    assert AgeDisplay(months) == NatToString(years) + word + " y " + NatToString(rest) + " meses";
    YearsAndMonths(years, word, rest);
  }

  /** `" año"` or `" años"`, as the display writes it after the years. */
  function YearWordOf(years: nat): (word: string)
  {
    " año" + (if years > 1 then "s" else "")
  }

  lemma WholeYears(years: nat, word: string)
    requires word == YearWordOf(years)
    ensures ReadAge(NatToString(years) + word) == Some(12 * years)
  {
    assert word + "" == word;
    YearWord(years, word, "");
    ReadNumberOf(years, word);
    ReadYears(NatToString(years) + word, years, word);
  }

  lemma ReadYears(s: string, a: nat, rest: string)
    requires ReadNumber(s) == Some((a, rest)) && rest != " meses" && AfterYears(rest) == Some("")
    ensures ReadAge(s) == Some(12 * a)
  {
  }

  lemma YearsAndMonths(years: nat, word: string, rest: nat)
    requires word == YearWordOf(years)
    ensures ReadAge(NatToString(years) + word + " y " + NatToString(rest) + " meses") == Some(12 * years + rest)
  {
    var tail := MonthsTail(rest);
    Regroup(NatToString(years), word, NatToString(rest));
    YearWord(years, word, tail);
    ReadNumberOf(years, word + tail);
    ReadYearsMonths(NatToString(years) + (word + tail), years, word + tail, tail, rest);
  }

  lemma Regroup(a: string, word: string, b: string)
    ensures a + word + " y " + b + " meses" == a + (word + (" y " + b + " meses"))
  {
  }

  /** `" y R meses"` starts with `" y "` and reads back as `R`. */
  lemma MonthsTail(rest: nat) returns (tail: string)
    ensures tail == " y " + NatToString(rest) + " meses"
    ensures |tail| >= 3 && tail[..3] == " y " && tail[0] == ' '
    ensures ReadNumber(tail[3..]) == Some((rest, " meses"))
  {
    tail := " y " + NatToString(rest) + " meses";
    assert tail[3..] == NatToString(rest) + " meses";
    ReadNumberOf(rest, " meses");
  }

  lemma ReadYearsMonths(s: string, a: nat, rest: string, tail: string, b: nat)
    requires ReadNumber(s) == Some((a, rest)) && AfterYears(rest) == Some(tail)
    requires |rest| > 1 && rest[1] == 'a'
    requires |tail| >= 3 && tail[..3] == " y " && ReadNumber(tail[3..]) == Some((b, " meses"))
    ensures ReadAge(s) == Some(12 * a + b)
  {
    assert rest != " meses";
  }

  /** The year word is skipped whatever follows it. */
  lemma YearWord(years: nat, word: string, tail: string)
    requires word == YearWordOf(years)
    requires |tail| == 0 || tail[0] == ' '
    ensures AfterYears(word + tail) == Some(tail)
  {
    var s := word + tail;
    if years > 1 {
      assert s[..5] == " años";
      assert s[5..] == tail;
    } else {
      assert s[..4] == " año";
      assert s[4..] == tail;
      assert |s| >= 5 ==> s[4] == ' ';
    }
  }

  lemma AgeInjective(a: nat, b: nat)
    requires AgeDisplay(a) == AgeDisplay(b)
    ensures a == b
  {
    AgeRoundTrip(a);
    AgeRoundTrip(b);
  }

  /** The plural `años` is used exactly from two years on. */
  lemma AgePlural(months: nat)
    requires months >= 12
    ensures IsPrefix(NatToString(months / 12) + " años", AgeDisplay(months)) <==> months >= 24
  {
    var n := NatToString(months / 12);
    var s := AgeDisplay(months);
    if months < 24 && |s| >= |n| + 5 {
      assert s[|n| + 4] != 's';
      assert (n + " años")[|n| + 4] == 's';
    }
  }
}
