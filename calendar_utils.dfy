/** The shared calendar helpers: the hour slots of the working day and the
    guard of the day header. */
module CalendarUtils {
  import opened Text
  import opened Timezone
  import Calendar

  /** `generateTimeSlots()`: `hour` runs from 8 while `hour <= 16`, and
      each hour is pushed as `HH:00`. It builds the same list as the
      calendar component's own generator. */
  method GenerateTimeSlots() returns (slots: seq<string>)
    ensures slots == Calendar.HourSlots()
  {
    slots := [];
    var hour := 8;
    while hour <= 16
      invariant 8 <= hour <= 17
      invariant slots == Calendar.HourSlotsBetween(8, hour)
    {
      Calendar.HourSlotsBetweenStep(8, hour);
      slots := slots + [Calendar.HourSlot(hour)];
      hour := hour + 1;
    }
  }

  /** `formatDateHeader(date)`: an empty string for a missing date;
      otherwise the locale's rendering, given as `rendered`. */
  function FormatDateHeader(date: Arg, rendered: string): (r: string)
    ensures Falsy(date) ==> r == ""
    ensures !Falsy(date) ==> r == rendered
  {
    if Falsy(date) then "" else rendered
  }
}
