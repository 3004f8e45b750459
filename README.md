# Veterinary clinic: calendar, forms, validation and login, in Dafny

This project models the core of a small veterinary clinic application. A
Django backend keeps owners, pets, services, professionals and
appointments. A React frontend shows a weekly appointment calendar and
screens for owners, pets and appointments. The clinic works in Ecuador
time (UTC-5, no daylight saving). The repository holds two generations
of most frontend screens and of the backend's models and serializers: a
first version and a refactored one. The model covers both, because they
differ in ways that matter.

What is modelled, by module:

- `Dates`, `Rfc3339`, `JsDates`, `Text`, `Json`, `Lists`: the shared
  vocabulary.
  - Proleptic Gregorian dates and minute-of-day wall times.
  - The RFC 3339 `date-time` and `full-date` forms, and the
    `datetime-local` input form.
  - JavaScript `Date` objects, modelled as a device-local wall time plus
    milliseconds, on a device with a fixed offset (`Env`).
  - String helpers (`split`, `join`, `trim`, `padStart`, `parseInt`,
    Python's `split()`), a JSON value and sublists.
- `Timezone`: the helpers in `frontend/src/utils/timezone.js`.
  - `toEcuadorTime` builds a `Date` whose device-local fields show
    Ecuador's wall clock. On a device that is not at UTC-5 this moves the
    instant by the difference between the two offsets (the "skew").
  - The model states that move exactly, and proves what each helper
    returns on an Ecuador device and elsewhere.
- `Grid`, `Calendar`, `LegacyCalendar`, `CalendarUtils`: the weekly
  calendar, refactored and first version. This covers:
  - the time slots, the Monday-to-Saturday week and navigation;
  - the day headers and the week range;
  - the date sent to the backend;
  - how appointments land in the grid's cells;
  - what a click on a cell or on an appointment opens.

  The screens are classes whose fields are the React state.
- `AppointmentEditor`, `LegacyAppointmentEditor`: the appointment
  dialog. This covers:
  - the draft it starts from when creating or editing;
  - the request it sends on save or cancel;
  - how the server's field errors, and the selected service's medication
    flag, are shown.
- `Owners`, `Pets`, `Forms`: the owner and pet screens.
  - The owner's full name is split into given and family names for
    editing and joined again for saving.
  - The pet form is filled from a pet and sent back.
  - Both screens have search filters.
  - The pet screen can create an owner, which then becomes the pet's
    owner.
  - The alerts shown when a save fails.
- `Names`, `PetRules`, `Displays`: the backend's serializer rules.
  - Short names.
  - Identification and phone validation.
  - Birth-date, weight and owner validation.
  - The Spanish age and duration displays, each proved to read back to
    the number it shows.
- `Scheduling`: the appointment date rules.
  - The refactored model's `clean`, and the serializer's
    `validate_appointment_date` and medication rule.
  - The first version's `clean` with its professional-overlap query.
- `AppointmentViews`: the calendar-week endpoint, the status update and
  the delete of `backend/core/views/appointments.py`. The table of
  appointments is a class.
- `Lockout`: the login view's failed-attempt counter and its 15-minute
  lock after three failures. The user record is a class.

The network is not part of the model. Each request a screen sends is the
value of a method's out-parameter. Each answer is a parameter: `Outcome`
for a save or a fetch (ok with a body, not ok with a body, or thrown) and
`Fetched` for a list. The current time and the device's offset are
parameters (`Env`, `now`). Alerts and confirmations are values returned
or received.

## Model

| member | source | states |
|---|---|---|
| Timezone.ToEcuadorTime | frontend/src/utils/timezone.js:21-29 | A falsy argument (`undefined`, `null`, `''`) gives the current time. Otherwise the result is a valid date exactly when the argument is one: an Invalid Date stays invalid. |
| Timezone.ConvertShowsEcuadorTime | frontend/src/utils/timezone.js:27-27 | On every device, the converted date's local fields are the argument's instant seen on Ecuador's UTC-5 clock. |
| Timezone.ConvertOnEcuadorDevice | frontend/src/utils/timezone.js:27-27 | On a device at UTC-5 the conversion keeps the wall time and truncates it to whole seconds. |
| Timezone.ConvertTwice | frontend/src/utils/timezone.js:21-29 | Converting twice moves the wall time by twice the device's skew from Ecuador. |
| Timezone.ConvertIdempotentIff | frontend/src/utils/timezone.js:21-29 | Converting twice equals converting once exactly when the device is at UTC-5. |
| Timezone.FormatDateForBackend | frontend/src/utils/timezone.js:36-42 | A falsy date gives `''`. Otherwise the call fails, because `toISOString` throws, exactly when the date is invalid. |
| Timezone.BackendInstantMovedBySkew | frontend/src/utils/timezone.js:36-42 | The ISO text sent is the picked instant moved by the device's skew from Ecuador, to whole seconds. |
| Timezone.BackendInstantOnEcuadorDevice | frontend/src/utils/timezone.js:36-42 | On a device at UTC-5 the ISO text sent is the picked instant itself, to whole seconds. |
| Timezone.FromBackendShowsEcuadorTime | frontend/src/utils/timezone.js:49-53 | For an RFC 3339 timestamp written at any offset, the result's local fields are that instant on Ecuador's clock. |
| Timezone.FromBackendOfDate | frontend/src/utils/timezone.js:49-53 | A non-empty text gives the conversion of whatever `new Date` parses from it. |
| Timezone.HelpersAgree | frontend/src/utils/timezone.js:21-86 | `formatDateFromBackend` and `parseDateTimeLocal` return what `toEcuadorTime` returns for every argument. On a falsy argument every helper takes its fallback. |
| Timezone.FormatDateTimeLocal | frontend/src/utils/timezone.js:60-73 | A falsy date gives `''`; an Invalid Date gives "NaN-NaN-NaNTNaN:NaN". |
| Timezone.FieldsTextRoundTrip | frontend/src/utils/timezone.js:66-72 | The `YYYY-MM-DDTHH:MM` text reads back to the date, hour and minute it was written from. |
| Timezone.FieldsTextInjective | frontend/src/utils/timezone.js:66-72 | Different wall times give different texts. |
| Timezone.FieldsTextIsInputForm | frontend/src/utils/timezone.js:66-72 | For four-digit years the text is exactly the `datetime-local` input form, and it parses back. |
| Timezone.ParseInputText | frontend/src/utils/timezone.js:80-86 | An input text is parsed as that wall time on the device and then moved by the skew. |
| Timezone.ParseLocalOfDate | frontend/src/utils/timezone.js:80-86 | A non-empty text gives the conversion of what `new Date` parses from it. |
| Timezone.InputTextRoundTrip | frontend/src/utils/timezone.js:60-86 | On a device at UTC-5, formatting the parse of an input text gives that text back. |
| Timezone.EcuadorDateStringIsUtcDate | frontend/src/utils/timezone.js:93-96 | As written: the date text is the UTC calendar date of the converted instant. |
| Timezone.DefaultIsNow | frontend/src/utils/timezone.js:93-93 | Without an argument, the date text is that of the current time. |
| Timezone.EcuadorDateStringEvening | frontend/src/utils/timezone.js:93-96 | As written: at 20:00 on 2024-06-10 in Ecuador, on an Ecuador device, the text is "2024-06-11". |
| Timezone.EcuadorDateStringMeaning | frontend/src/utils/timezone.js:88-96 | Corrected: the date text is Ecuador's calendar date at that instant on any device, and it parses back to that date. |
| Timezone.EcuadorDateStringEveningCorrected | frontend/src/utils/timezone.js:88-96 | Corrected: the same evening gives "2024-06-10". |
| Timezone.IsWorkingHours | frontend/src/utils/timezone.js:103-107 | True exactly when the converted date is valid and its hour is from 8 up to, but not including, 16. |
| Timezone.WorkingHoursOnEcuadorClock | frontend/src/utils/timezone.js:103-107 | For a valid date, the answer depends only on the hour on Ecuador's clock at that instant. |
| CalendarUtils.GenerateTimeSlots | frontend/src/utils/calendar.js:7-14 | The loop yields the same nine hourly slots, "08:00" to "16:00", as the refactored calendar. |
| CalendarUtils.FormatDateHeader | frontend/src/utils/calendar.js:21-22 | A falsy date gives `''`; otherwise the locale rendering, which is a parameter. |
| Calendar.GenerateTimeSlots | frontend/src/features/calendar/CalendarManager.jsx:23-31 | The loop's result is the list of hourly slots. |
| Calendar.HourSlotsBounds | frontend/src/features/calendar/CalendarManager.jsx:23-31 | There are nine slots, from "08:00" to "16:00". |
| Calendar.HourSlotsIndex | frontend/src/features/calendar/CalendarManager.jsx:23-31 | Slot `i` is the label of hour `8 + i`. |
| Calendar.HourSlotReadBack | frontend/src/features/calendar/CalendarManager.jsx:23-31 | Slot `i` splits and parses back to hour `8 + i`, minute 0. |
| Calendar.HourSlotsIncreasing | frontend/src/features/calendar/CalendarManager.jsx:23-31 | The slots' hours strictly increase, so the slots are all different. |
| Calendar.GetWeekDays | frontend/src/features/calendar/CalendarManager.jsx:36-49 | The loop yields the six days that the week function gives. |
| Calendar.WeekDaysOnEcuadorDevice | frontend/src/features/calendar/CalendarManager.jsx:36-49 | On a device at UTC-5 the days are Monday to Saturday of the date's week, at the date's time of day. |
| Calendar.WeekDaysAgreeWithCopies | frontend/src/features/calendar/CalendarManager.jsx:36-49 | On a device at UTC-5 the refactored days equal the first version's plain copies of the converted date. |
| Calendar.FirstDisplayedDay | frontend/src/features/calendar/CalendarManager.jsx:38-45 | On any device, the first displayed day takes the day of the month of the week start, but the month and year of the start converted again. |
| Calendar.NavigateOnEcuadorDevice | frontend/src/features/calendar/CalendarManager.jsx:84-88 | On a device at UTC-5, navigation moves the anchor by seven days times the direction, at the same time of day. |
| Calendar.NavigateShiftsWeek | frontend/src/features/calendar/CalendarManager.jsx:84-88 | On a device at UTC-5 the displayed week moves by exactly one week. |
| Calendar.NavigateBackAndForth | frontend/src/features/calendar/CalendarManager.jsx:84-88 | On a device at UTC-5, forward then back shows the starting week again. |
| Calendar.NavigateStallsOffEcuador | frontend/src/features/calendar/CalendarManager.jsx:84-88 | As written: on a UTC device, "next" from Monday 2024-06-10 08:00 lands on Sunday 16 June 22:00. That day's week still starts on the 10th. |
| Calendar.AppointmentsForSlotSublist | frontend/src/features/calendar/CalendarManager.jsx:117-153 | A cell's list is a sublist of the appointments, in their order. |
| Calendar.AppointmentsForSlotMembers | frontend/src/features/calendar/CalendarManager.jsx:117-153 | An appointment is in a cell's list exactly when it is loaded and matches that cell. |
| Calendar.MinuteTermVanishes | frontend/src/features/calendar/CalendarManager.jsx:131-131 | `Math.floor(minutes / 60)` is always 0, so the minute comparison adds nothing. |
| Calendar.SlotMatchIff | frontend/src/features/calendar/CalendarManager.jsx:119-132 | An appointment matches an hourly cell exactly when its converted date is valid, falls on the cell's date and is in the cell's hour. |
| Calendar.AppointmentInItsHourCell | frontend/src/features/calendar/CalendarManager.jsx:117-153 | An appointment sent as an RFC 3339 timestamp matches the cell of its Ecuador hour on its Ecuador date. |
| Calendar.ExactlyOneCell | frontend/src/features/calendar/CalendarManager.jsx:117-153 | On a device at UTC-5, an appointment on a displayed day between 08:00 and 16:59 matches exactly one cell of the week: its day and its hour. |
| Calendar.NoCell | frontend/src/features/calendar/CalendarManager.jsx:117-153 | On a device at UTC-5, an appointment on a Sunday, before 08:00 or after 16:59 matches no cell. |
| Calendar.CellCondition | frontend/src/features/calendar/CalendarManager.jsx:117-153 | On a device at UTC-5, cell (i, j) shows an appointment exactly when it falls on the week's day `i` at hour `8 + j`. |
| Calendar.WeekList | frontend/src/features/calendar/CalendarManager.jsx:73-73 | The appointments are the `citas` list when it is truthy, else the `appointments` list, else none. |
| Calendar.CalendarView.constructor | frontend/src/features/calendar/CalendarManager.jsx:8-13 | Starts at the current time converted to Ecuador time, with no appointments, loading, and the dialog closed with nothing selected. |
| Calendar.CalendarView.Days | frontend/src/features/calendar/CalendarManager.jsx:51-51 | Returns the anchor's displayed days. |
| Calendar.CalendarView.NavigateWeek | frontend/src/features/calendar/CalendarManager.jsx:84-88 | The anchor becomes the navigated week; nothing else changes. |
| Calendar.CalendarView.StartFetch | frontend/src/features/calendar/CalendarManager.jsx:57-65 | Loading starts, and the date requested is `getEcuadorDateString` of the anchor; nothing else changes. |
| Calendar.CalendarView.FinishFetch | frontend/src/features/calendar/CalendarManager.jsx:66-82 | An ok answer's week list replaces the appointments; any other answer keeps them. Loading ends. |
| Calendar.CalendarView.SlotClick | frontend/src/features/calendar/CalendarManager.jsx:97-109 | When the slot's date can be formatted, the dialog opens on that slot with no appointment; otherwise nothing changes. |
| Calendar.CalendarView.CellClick | frontend/src/features/calendar/CalendarManager.jsx:226-226 | A cell that shows appointments ignores the click; an empty cell opens its slot. |
| Calendar.CalendarView.AppointmentClick | frontend/src/features/calendar/CalendarManager.jsx:111-115 | Opens the dialog on the clicked appointment, with no slot. |
| Calendar.CalendarView.CloseModal | frontend/src/features/calendar/CalendarManager.jsx:155-159 | Closes the dialog and clears both the slot and the appointment. |
| Calendar.CalendarView.AppointmentSaved | frontend/src/features/calendar/CalendarManager.jsx:161-164 | Starts a new fetch of the same week and closes the dialog. |
| Grid.StartOfWeekIsMonday | frontend/src/features/calendar/CalendarManager.jsx:39-42 | The week start keeps the time of day and moves the date to the Monday on or before it. A Sunday belongs to the week that began six days earlier. |
| Grid.MondayDeltaLandsOnMonday | frontend/src/features/calendar/CalendarManager.jsx:40-40 | The offset `-day + (day === 0 ? -6 : 1)` lands on a Monday for every weekday. |
| Grid.CopyWeekDaysFromMonday | frontend/src/components/CalendarManager.jsx:37-50 | The first version's six days are Monday to Saturday of the date's week, at the date's time, on any device. |
| Grid.CopyNavigateMoves | frontend/src/components/CalendarManager.jsx:77-81 | The first version's navigation moves the anchor by seven days times the direction, at the same time. |
| Grid.CopyNavigateShiftsWeek | frontend/src/components/CalendarManager.jsx:77-81 | Corrected navigation: the displayed week moves by exactly one week on any device. |
| Grid.CopyNavigateBackAndForth | frontend/src/components/CalendarManager.jsx:77-81 | Forward then back shows the starting week again. |
| Grid.CopyNavigateChangesWeek | frontend/src/components/CalendarManager.jsx:77-81 | Each step with a non-zero direction changes the first displayed day. |
| Grid.SlotTextReadBack | frontend/src/features/calendar/CalendarManager.jsx:119-121 | A slot label "HH:MM" splits and parses back to its hour and minute. |
| Grid.SlotTextInjective | frontend/src/features/calendar/CalendarManager.jsx:119-121 | Different slot times have different labels. |
| Grid.AtSlotText | frontend/src/features/calendar/CalendarManager.jsx:119-121 | Setting a day's hours from a slot label keeps the day and sets the slot's time. The milliseconds are kept by `setHours(h, m)` and cleared by `setHours(h, m, 0, 0)`. |
| Grid.SlotSelectionMeaning | frontend/src/features/calendar/CalendarManager.jsx:97-109 | The chosen slot is the clicked day at the label's time, with the seconds kept. Its `formatted` text is the UTC input form of that instant. |
| Grid.SlotSelectionFails | frontend/src/features/calendar/CalendarManager.jsx:97-109 | No slot is chosen exactly when the day set to that time is an Invalid Date, because `toISOString` throws. |
| Grid.HeadersOfWeek | frontend/src/features/calendar/CalendarManager.jsx:90-95 | Monday to Saturday are headed "Lun" to "Sáb", followed by their day of the month. |
| Grid.SundayHeader | frontend/src/features/calendar/CalendarManager.jsx:90-95 | A Sunday is headed "Sáb": index -1 finds nothing and the fallback is used. |
| Grid.WeekRangeOfWeek | frontend/src/features/calendar/CalendarManager.jsx:166-177 | The range names the Monday and the Saturday. The month is named once when they share it, and both months otherwise. The year shown is always the Monday's. |
| Grid.WeekRangeSameMonth | frontend/src/features/calendar/CalendarManager.jsx:166-177 | The week of Monday 2024-06-10 reads "10 - 15 Jun 2024". |
| Grid.WeekRangeAcrossMonths | frontend/src/features/calendar/CalendarManager.jsx:166-177 | The week of Monday 2024-09-30 reads "30 Sep - 5 Oct 2024". |
| Grid.WeekRangeAcrossYears | frontend/src/features/calendar/CalendarManager.jsx:166-177 | The week of Monday 2024-12-30 reads "30 Dic - 4 Ene 2024": the Saturday's year is not shown. |
| LegacyCalendar.GenerateTimeSlots | frontend/src/components/CalendarManager.jsx:20-32 | The nested loops and the final push yield the half-hour slot list. |
| LegacyCalendar.HalfHourSlotsBounds | frontend/src/components/CalendarManager.jsx:20-32 | There are 21 slots: "08:00", "08:30", …, "17:30", "18:00". |
| LegacyCalendar.HalfHourSlotMinute | frontend/src/components/CalendarManager.jsx:20-32 | Slot `k` is at minute `480 + 30k` of the day. |
| LegacyCalendar.HalfHourSlotsIncreasing | frontend/src/components/CalendarManager.jsx:20-32 | The slots strictly increase in time of day, so they are all different. |
| LegacyCalendar.GetWeekDays | frontend/src/components/CalendarManager.jsx:37-50 | The loop yields the six plain copies that the first version's week function gives. |
| LegacyCalendar.UtcDateStringIsFullDate | frontend/src/components/CalendarManager.jsx:61-61 | The date requested is the `full-date` of the anchor's UTC date. |
| LegacyCalendar.WeekAppointments | frontend/src/components/CalendarManager.jsx:68-68 | The appointments are the response's `appointments` list, or none when it is missing. |
| LegacyCalendar.CitasIgnored | frontend/src/components/CalendarManager.jsx:68-68 | A response that carries its list under `citas`, as the calendar-week endpoint does, shows no appointments. |
| LegacyCalendar.GetTimeInjective | frontend/src/components/CalendarManager.jsx:117-117 | Two valid dates have the same `getTime()` exactly when they are the same date. |
| LegacyCalendar.SameInstantIff | frontend/src/components/CalendarManager.jsx:110-119 | A date equals a cell's instant exactly when it is the cell's day at the slot's time, with the anchor's seconds and milliseconds. |
| LegacyCalendar.AppointmentsForSlotSublist | frontend/src/components/CalendarManager.jsx:110-119 | A cell's list is a sublist of the appointments. |
| LegacyCalendar.AppointmentsForSlotMembers | frontend/src/components/CalendarManager.jsx:110-119 | An appointment is in a cell's list exactly when it is loaded and its instant equals the cell's. |
| LegacyCalendar.OffGridInNoCell | frontend/src/components/CalendarManager.jsx:110-119 | An appointment whose minute is not a multiple of 30 is in no cell. |
| LegacyCalendar.WholeMinuteNeedsWholeMinuteDay | frontend/src/components/CalendarManager.jsx:110-119 | When the anchor has non-zero seconds or milliseconds, no appointment at a whole minute is in any cell. |
| LegacyCalendar.LoadedFiveSecondsLate | frontend/src/components/CalendarManager.jsx:110-119 | As written: with the anchor at 08:00:05 on 2024-06-10, the 08:00 appointment that day misses the 08:00 cell. A minute-level comparison would match it. |
| LegacyCalendar.SameMinuteIff | frontend/src/components/CalendarManager.jsx:110-119 | Corrected: a date matches slot `k` of a day exactly when its wall time is that day at minute `480 + 30k`, whatever the seconds. |
| LegacyCalendar.SameMinuteOneSlot | frontend/src/components/CalendarManager.jsx:110-119 | Corrected: an appointment at a slot's time matches exactly that one slot of its day. |
| LegacyCalendar.LegacyCalendarView.constructor | frontend/src/components/CalendarManager.jsx:6-11 | Starts at the current time, unconverted, with no appointments, loading, and the dialog closed. |
| LegacyCalendar.LegacyCalendarView.Days | frontend/src/components/CalendarManager.jsx:52-52 | Returns the plain copies of the anchor's week. |
| LegacyCalendar.LegacyCalendarView.TimeSlots | frontend/src/components/CalendarManager.jsx:34-34 | Returns the half-hour slots. |
| LegacyCalendar.LegacyCalendarView.NavigateWeek | frontend/src/components/CalendarManager.jsx:77-81 | The anchor becomes its seven-day move; nothing else changes. |
| LegacyCalendar.LegacyCalendarView.StartFetch | frontend/src/components/CalendarManager.jsx:58-62 | The date requested is the anchor's UTC date. Loading is on exactly when that date exists, because `toISOString` throws on an Invalid Date. |
| LegacyCalendar.LegacyCalendarView.FinishFetch | frontend/src/components/CalendarManager.jsx:66-75 | An ok answer's `appointments` replace the list; any other answer keeps it. Loading ends. |
| LegacyCalendar.LegacyCalendarView.SlotClick | frontend/src/components/CalendarManager.jsx:90-102 | When the slot's date can be formatted, the dialog opens on that slot; otherwise nothing changes. |
| LegacyCalendar.LegacyCalendarView.CellClick | frontend/src/components/CalendarManager.jsx:192-192 | A cell that shows appointments ignores the click; an empty cell opens its slot. |
| LegacyCalendar.LegacyCalendarView.AppointmentClick | frontend/src/components/CalendarManager.jsx:104-108 | Opens the dialog on the clicked appointment, with no slot. |
| LegacyCalendar.LegacyCalendarView.CloseModal | frontend/src/components/CalendarManager.jsx:121-125 | Closes the dialog and clears the slot and the appointment. |
| LegacyCalendar.LegacyCalendarView.AppointmentSaved | frontend/src/components/CalendarManager.jsx:127-130 | Starts a new fetch of the same week and closes the dialog. |
| AppointmentEditor.InitialDraftEmpty | frontend/src/features/calendar/components/AppointmentModal.jsx:7-18 | The first draft has exactly the ten form fields. All are empty except the status, which is "pendiente". |
| AppointmentEditor.EditDraftKeys | frontend/src/features/calendar/components/AppointmentModal.jsx:36-50 | An edit draft has exactly the fields of the first draft. |
| AppointmentEditor.EditDraftCopies | frontend/src/features/calendar/components/AppointmentModal.jsx:36-50 | An edit draft copies pet, service and status, and takes the given date text. Each optional field is the appointment's value when truthy and `''` otherwise. |
| AppointmentEditor.CreateDraftKeepsFields | frontend/src/features/calendar/components/AppointmentModal.jsx:51-57 | Creating from a slot sets only the date and keeps every other field of the previous draft. |
| AppointmentEditor.EmptyDateThrows | frontend/src/features/calendar/components/AppointmentModal.jsx:108-116 | With an empty date the payload cannot be built. |
| AppointmentEditor.SubmitBodyFields | frontend/src/features/calendar/components/AppointmentModal.jsx:108-116 | The body carries the draft's fields plus pet, service, professional and the backend date. The other fields are copied, and an empty professional is sent as `null`. |
| AppointmentEditor.SubmitRequestMethod | frontend/src/features/calendar/components/AppointmentModal.jsx:101-116 | A request exists exactly when the date converts. Editing is a PUT to the appointment's path, creating a POST to the list. The body is the payload. |
| AppointmentEditor.Editor.constructor | frontend/src/features/calendar/components/AppointmentModal.jsx:7-18 | Starts with the first draft, no errors, not loading and no save reported. |
| AppointmentEditor.Editor.Seed | frontend/src/features/calendar/components/AppointmentModal.jsx:33-59 | Opening sets the draft to the seeded one for edit or create; errors, loading and saves are kept. |
| AppointmentEditor.Editor.Change | frontend/src/features/calendar/components/AppointmentModal.jsx:188-188 | An input sets only its own field of the draft. |
| AppointmentEditor.Editor.Submit | frontend/src/features/calendar/components/AppointmentModal.jsx:95-137 | Sends the save request. Ok clears the errors and reports one save, and a refusal shows the server's errors. No request, or a throw, shows the connection error. The draft is kept and loading ends. |
| AppointmentEditor.Editor.Delete | frontend/src/features/calendar/components/AppointmentModal.jsx:139-161 | Without an appointment or a confirmation nothing is sent. Otherwise a DELETE goes to its path, and an ok answer reports one save. |
| AppointmentEditor.Editor.FieldErrorOf | frontend/src/features/calendar/components/AppointmentModal.jsx:163-165 | A field's message is the shared field-error rule applied to the current errors. |
| Forms.FieldErrorCases | frontend/src/features/calendar/components/AppointmentModal.jsx:163-165 | A missing error shows nothing. A list shows its first message, and a non-empty text shows only its first character (`errors[field][0]`). |
| Forms.MedicationShownIff | frontend/src/features/calendar/components/AppointmentModal.jsx:93-93 | The medication field shows exactly when the first service with the chosen id requires medication. It stays hidden when no service has that id. |
| Forms.NoServiceNoMedication | frontend/src/features/calendar/components/AppointmentModal.jsx:93-93 | With no service chosen, the medication field is hidden. |
| Forms.FindByIdFirst | frontend/src/features/calendar/components/AppointmentModal.jsx:93-93 | `find` returns the first element with the id, and nothing exactly when no element has it. |
| Forms.SaveTargetPath | frontend/src/features/owners/OwnerManager.jsx:52-56 | The path always lies under the resource's list path, and is that list path exactly when no record is being edited. |
| Forms.SaveAlert | frontend/src/features/owners/OwnerManager.jsx:72-82 | A `null` error body gives the connection alert, because reading `detail` throws. Otherwise the prefix comes first, then `detail` or the fallback. |
| Forms.SaveAlertDetail | frontend/src/features/owners/OwnerManager.jsx:72-78 | A refusal with a `detail` text shows the prefix followed by that text. |
| Forms.JsTextReadBack | frontend/src/features/pets/PetManager.jsx:160-160 | A number's text form parses back to that number, and a one-element list renders as its element. |
| LegacyAppointmentEditor.InitialDraftEmpty | frontend/src/components/AppointmentModal.jsx:5-16 | The first draft has exactly the ten form fields. All are empty except the status, which is "pendiente". |
| LegacyAppointmentEditor.EditDraftKeys | frontend/src/components/AppointmentModal.jsx:34-47 | An edit draft has exactly the fields of the first draft. |
| LegacyAppointmentEditor.EditDraftCopies | frontend/src/components/AppointmentModal.jsx:34-47 | An edit draft copies pet, service and status, and takes the given date. The professional is the appointment's when truthy and `''` otherwise. |
| LegacyAppointmentEditor.EditDateIsUtc | frontend/src/components/AppointmentModal.jsx:39-39 | The edit date is the UTC input form of the stored instant, not its local wall time. |
| LegacyAppointmentEditor.EditDateEmpty | frontend/src/components/AppointmentModal.jsx:39-39 | An empty date text gives no edit date, because `toISOString` of an Invalid Date throws. |
| LegacyAppointmentEditor.SeededDraftCreate | frontend/src/components/AppointmentModal.jsx:48-54 | Creating from a slot succeeds, sets the date to the slot's `formatted` text and keeps every other field. |
| LegacyAppointmentEditor.SubmitBodyFields | frontend/src/components/AppointmentModal.jsx:98-103 | The body carries the draft's fields with pet, service and professional re-read. The others are copied, and an empty professional is sent as `null`. |
| LegacyAppointmentEditor.ProfessionalAgrees | frontend/src/components/AppointmentModal.jsx:102-102 | `x ? parseInt(x) : null` agrees with a plain parse except for the number 0, which is falsy and becomes `null`. |
| LegacyAppointmentEditor.SubmitRequest | frontend/src/components/AppointmentModal.jsx:92-103 | Editing is a PUT and creating a POST; the body is the payload. |
| LegacyAppointmentEditor.CancelRequest | frontend/src/components/AppointmentModal.jsx:132-136 | "Delete" sends a PATCH, never a DELETE, with the status "cancelada". |
| LegacyAppointmentEditor.Editor.constructor | frontend/src/components/AppointmentModal.jsx:5-16 | Starts with the first draft, no errors, not loading and no save reported. |
| LegacyAppointmentEditor.Editor.Seed | frontend/src/components/AppointmentModal.jsx:31-55 | Opening sets the seeded draft; it throws, leaving the draft unchanged, exactly when no draft can be built. |
| LegacyAppointmentEditor.Editor.Change | frontend/src/components/AppointmentModal.jsx:174-174 | An input sets only its own field of the draft. |
| LegacyAppointmentEditor.Editor.Submit | frontend/src/components/AppointmentModal.jsx:86-124 | Sends the save. Ok clears the errors and reports one save, a refusal shows the server's errors, and a throw shows "Error de conexión". Loading ends. |
| LegacyAppointmentEditor.Editor.Delete | frontend/src/components/AppointmentModal.jsx:126-147 | Without an appointment or a confirmation nothing is sent. Otherwise the cancel PATCH is sent, and an ok answer reports one save. |
| Owners.EmptyOwnerFormDefaults | frontend/src/features/owners/OwnerManager.jsx:12-20 | The owner form has its seven fields. All are empty except the identification type, which is "cedula". |
| Owners.SplitFullNameJoins | frontend/src/features/owners/OwnerManager.jsx:104-120 | A name without spaces is all given name. Otherwise given names, a space and family names rebuild the full name. |
| Owners.NameRoundTrip | frontend/src/features/owners/OwnerManager.jsx:104-120 | Joining the split names as the save does gives the trimmed full name, and the name itself when it has no outer spaces. |
| Owners.OwnerPayloadFields | frontend/src/features/owners/OwnerManager.jsx:59-64 | The payload replaces the two name fields by `full_name` and copies every other field. |
| Owners.EditSaveRoundTrip | frontend/src/features/owners/OwnerManager.jsx:102-133 | Saving an owner's edit form unchanged sends back its trimmed name and its other fields, with a `null` email as `''`. |
| Owners.FilledPayload | frontend/src/features/owners/OwnerManager.jsx:122-130 | A form filled from an owner with given names sends those names joined, plus the owner's other fields. |
| Owners.FormJson | frontend/src/features/owners/OwnerManager.jsx:69-69 | Each form field appears in the JSON body under its name, as text. |
| Owners.OwnerRequest | frontend/src/features/owners/OwnerManager.jsx:52-70 | Editing is a PUT, creating a POST; the body is the JSON of the payload. |
| Owners.FilteredOwnersSearch | frontend/src/features/owners/OwnerManager.jsx:174-179 | The shown owners are a sublist of the loaded ones. An owner is shown exactly when it matches the term, and an empty term shows all. |
| Owners.OwnerScreen.constructor | frontend/src/features/owners/OwnerManager.jsx:12-20 | Starts with no owners, loading, no error, the dialog closed and the form empty. |
| Owners.OwnerScreen.Load | frontend/src/features/owners/OwnerManager.jsx:27-45 | A listed answer replaces the owners. A refusal sets "Error al cargar dueños" and a throw "Error de conexión". Loading ends. |
| Owners.OwnerScreen.Submit | frontend/src/features/owners/OwnerManager.jsx:47-86 | Sends the save. Ok reloads the owners and resets the form; a failed reload sets the load error as `Load` does. A refusal or a throw shows its alert and keeps the form, list and error. Loading ends and the search is kept. |
| Owners.OwnerScreen.ResetForm | frontend/src/features/owners/OwnerManager.jsx:88-100 | Empties the form, clears the edited owner and closes the dialog. |
| Owners.OwnerScreen.Edit | frontend/src/features/owners/OwnerManager.jsx:102-133 | Fills the form from the owner, marks it as edited and opens the dialog. |
| Owners.OwnerScreen.New | frontend/src/features/owners/OwnerManager.jsx:135-138 | Empties the form and opens the dialog for a new owner. |
| Owners.OwnerScreen.Search | frontend/src/features/owners/OwnerManager.jsx:174-174 | Sets only the search term. |
| Owners.OwnerScreen.Shown | frontend/src/features/owners/OwnerManager.jsx:174-179 | The shown owners are a sublist of the loaded ones, and all of them when the term is empty. |
| Pets.EmptyPetFormDefaults | frontend/src/features/pets/PetManager.jsx:23-34 | The pet form has its ten fields. All are empty except the gender, which is "M". |
| Pets.OrEmptyText | frontend/src/features/pets/PetManager.jsx:177-192 | A `null` note becomes `''`; a present one is kept. |
| Pets.EditPetFormFields | frontend/src/features/pets/PetManager.jsx:177-192 | The edit form has every field, with the weight text, the owner id as text and the notes `\|\| ''`. |
| Pets.PetPayloadFields | frontend/src/features/pets/PetManager.jsx:86-90 | The payload takes weight and owner out of the text fields and copies every other field unchanged. |
| Pets.PetEditSaveRoundTrip | frontend/src/features/pets/PetManager.jsx:177-192 | Saving a pet's edit form unchanged sends back its owner id and its weight text. It also sends the other text fields, with the allergies `|| ''`. |
| Pets.SavePetRequest | frontend/src/features/pets/PetManager.jsx:77-90 | Editing is a PUT, creating a POST; the body is the payload. |
| Pets.FilteredPetsSearch | frontend/src/features/pets/PetManager.jsx:219-227 | The shown pets are a sublist of the loaded ones. A pet is shown exactly when it matches the term and the owner, and with neither set all pets are shown. |
| Pets.OwnerSelection | frontend/src/features/pets/PetManager.jsx:219-227 | With an empty term, selecting an owner shows exactly that owner's pets. |
| Pets.NewOwnerRequest | frontend/src/features/pets/PetManager.jsx:149-153 | Creating an owner is a POST to the owners list. |
| Pets.NewOwnerBody | frontend/src/features/pets/PetManager.jsx:142-153 | The new owner's `full_name` is the two name fields joined with a space, and its identification type is the form's. |
| Pets.NewOwnerSelected | frontend/src/features/pets/PetManager.jsx:160-160 | Storing the created id's text as the owner makes the payload send that id, and changes no other field. |
| Pets.PetScreen.constructor | frontend/src/features/pets/PetManager.jsx:6-34 | Starts with no pets or owners, loading, both dialogs closed, no filters and both forms empty. |
| Pets.PetScreen.LoadPets | frontend/src/features/pets/PetManager.jsx:42-56 | A listed answer replaces the pets; loading ends and nothing else changes. |
| Pets.PetScreen.LoadOwners | frontend/src/features/pets/PetManager.jsx:58-70 | A listed answer replaces the owners; nothing else changes. |
| Pets.PetScreen.Submit | frontend/src/features/pets/PetManager.jsx:72-107 | Sends the save. Ok reloads the pets and resets the form. A refusal alerts `detail` or the screen's fallback text, and a throw alerts the connection text; the form, list and dialog stay. Loading ends; owners, owner dialog, search and owner filter are kept. |
| Pets.PetScreen.ResetForm | frontend/src/features/pets/PetManager.jsx:109-117 | Empties the pet form, clears the edited pet and closes the form. |
| Pets.PetScreen.Edit | frontend/src/features/pets/PetManager.jsx:177-192 | Fills the form from the pet, marks it as edited and opens the form. |
| Pets.PetScreen.Search | frontend/src/features/pets/PetManager.jsx:219-227 | Sets only the search term and the selected owner. |
| Pets.PetScreen.Shown | frontend/src/features/pets/PetManager.jsx:219-227 | The shown pets are a sublist of the loaded ones, and all of them without filters. |
| Pets.PetScreen.OpenForm | frontend/src/features/pets/PetManager.jsx:238-243 | Opens the pet form as it was left, with no reset; everything else is kept. |
| Pets.PetScreen.CloseOwnerModal | frontend/src/features/pets/PetManager.jsx:466-470 | Closes the owner dialog and keeps its form, as the Cancelar button at lines 561-567 also does; everything else is kept. |
| Pets.PetScreen.NewOwner | frontend/src/features/pets/PetManager.jsx:119-134 | Opens the owner dialog with an empty owner form; the pet form, lists, search and owner filter are kept. |
| Pets.PetScreen.SelectCreated | frontend/src/features/pets/PetManager.jsx:156-171 | With an id, the pet's owner becomes that id's text and the owner dialog closes empty. Without one (`data.id.toString()` throws), the connection alert is shown and nothing changes. Lists, search and owner filter are kept. |
| Pets.PetScreen.SubmitOwner | frontend/src/features/pets/PetManager.jsx:136-175 | Posts the owner payload. Ok reloads the owners and selects the new one. A refusal or a throw shows its alert and keeps the pet form, owner form, dialog and owners. Pets, search and owner filter are kept in every case. |
| Names.ShortName | backend/core/serializers/mixins.py:8-24 | `None` and `''` give `''`. |
| Names.ShortNameWords | backend/core/serializers/mixins.py:8-24 | A name with no words comes back unchanged. One word gives that word and two words give both. Three or more give the first and the third. |
| Names.BlankNameUnchanged | backend/core/serializers/mixins.py:13-24 | A non-empty name of whitespace only is returned as it is. |
| Names.ShortNameFromInput | backend/core/serializers/mixins.py:8-24 | A name with words gives one or two words, each a word of the name. |
| Names.LegacyOwnerNameAgrees | backend/core/serializers.py:179-193 | The first version's owner-name getter gives the same text as the shared short name. |
| Names.TitleParts | backend/core/serializers/appointment.py:90-91 | The title is the pet's name, then " - ", then the service's name. |
| Names.ValidateIdentification | backend/core/serializers/mixins.py:30-36 | Accepted, unchanged, exactly when it has at least six characters. |
| Names.ValidatePhone | backend/core/serializers/mixins.py:38-45 | An accepted phone is returned as it was written. |
| Names.ValidatePhoneIff | backend/core/serializers/mixins.py:38-45 | Accepted exactly when at least seven characters are neither spaces nor dashes. |
| Names.CleanPhoneLength | backend/core/serializers/mixins.py:40-41 | Removing spaces and dashes leaves exactly the other characters. |
| PetRules.ValidateBirthDate | backend/core/serializers/pet.py:61-69 | An accepted birth date is returned unchanged. |
| PetRules.ValidateBirthDateIff | backend/core/serializers/pet.py:61-69 | Accepted exactly when the date is from today back to 7300 days (20 years of 365 days). |
| PetRules.ValidateWeight | backend/core/serializers/pet.py:71-77 | An accepted weight is returned unchanged. |
| PetRules.ValidateWeightIff | backend/core/serializers/pet.py:71-77 | Accepted exactly when 0 < weight <= 100. Each refusal has its own message. |
| PetRules.ValidateOwner | backend/core/serializers/pet.py:79-83 | Accepted exactly when the owner is active; a refusal names the `owner` field. |
| PetRules.SerializerStricterThanPetClean | backend/core/models.py:116-121 | The model's `clean` accepts exactly the birth dates not in the future, so every date the serializer accepts passes it. |
| Displays.DurationRoundTrip | backend/core/models/appointment.py:119-129 | The duration text reads back to the minutes it shows. |
| Displays.DurationInjective | backend/core/models/appointment.py:119-129 | Different durations show different texts. |
| Displays.NinetyMinutes | backend/core/models/appointment.py:119-129 | 90 minutes shows "1h 30min". |
| Displays.HoursAndMinutes | backend/core/models/appointment.py:125-129 | Any "Hh Mmin" text reads as `60H + M` minutes. |
| Displays.AgeRoundTrip | backend/core/serializers/pet.py:40-51 | The age text reads back to the months it shows. |
| Displays.AgeWholeYears | backend/core/serializers/pet.py:46-49 | A whole number of years, shown in years only, still reads back to the months. |
| Displays.AgeYearsAndMonths | backend/core/serializers/pet.py:46-51 | Years plus months read back to the months. |
| Displays.AgeInjective | backend/core/serializers/pet.py:40-51 | Different ages show different texts. |
| Displays.AgePlural | backend/core/serializers.py:64-75 | From a year on, "años" is used exactly from two years on. |
| Scheduling.CleanAppointmentIff | backend/core/models/appointment.py:99-113 | Passes exactly when there is no date, or the date is at most one day old and its hour is 8 to 15. |
| Scheduling.ValidateAppointmentDate | backend/core/serializers/appointment.py:47-53 | An accepted date is returned unchanged. |
| Scheduling.ValidateAppointmentDateIff | backend/core/serializers/appointment.py:47-53 | Accepted exactly when the date is at most one hour old and its hour is 8 to 15. |
| Scheduling.SerializerStricterThanModel | backend/core/serializers/appointment.py:47-53 | Every date the serializer accepts also passes the model's `clean`. |
| Scheduling.FourPmRejected | backend/core/serializers/appointment.py:51-52 | A 16:xx date is refused by both the serializer and the model. |
| Scheduling.ValidateMedication | backend/core/serializers/appointment.py:55-63 | Accepted attributes are returned unchanged. |
| Scheduling.ValidateMedicationIff | backend/core/serializers/appointment.py:55-63 | Refused exactly when the service requires medication and none is given. The error sits under `medication_type` and names the service. |
| Scheduling.LegacyHoursWider | backend/core/models.py:292-310 | Without a professional, the first version also accepts 16:00 to 17:59. That is the only difference from the refactored `clean`. |
| Scheduling.NoProfessionalNoOverlap | backend/core/models.py:312-312 | Without a professional, other appointments do not matter. |
| Scheduling.EarlierThanAnHourNeverOverlaps | backend/core/models.py:320-320 | An appointment that starts more than 60 minutes earlier is never counted as an overlap. |
| Scheduling.ClosedNeverOverlaps | backend/core/models.py:321-321 | Cancelled and completed appointments never count. |
| Scheduling.SelfNeverOverlaps | backend/core/models.py:322-322 | The appointment being saved never counts against itself. |
| Scheduling.LegacyCleanIff | backend/core/models.py:292-327 | Passes exactly when the date is at most one day old and the hour is 8 to 17. With a professional, no stored appointment may fall in the overlap query. |
| Scheduling.LookbackMissesLongAppointment | backend/core/models.py:313-326 | As written: an open 120-minute appointment that began 90 minutes earlier clashes but is not found. |
| Scheduling.LookbackFlagsFinishedAppointment | backend/core/models.py:313-326 | As written: a 15-minute appointment that began 30 minutes earlier has ended but is found. |
| Scheduling.ClashesSymmetric | backend/core/models.py:313-326 | Corrected: whether two appointments clash does not depend on which one is being saved. |
| Scheduling.LookbackRightForShortServices | backend/core/models.py:313-326 | When the stored service lasts at most 60 minutes, every real clash is found. |
| Scheduling.LegacyCleanIntendedIff | backend/core/models.py:292-327 | Corrected: passes exactly when the date rules hold and no open appointment of the professional has an interval that intersects the new one. This agrees with the query when no service exceeds 60 minutes. |
| AppointmentViews.CalendarWeekBadDate | backend/core/views/appointments.py:76-84 | Answers 400 "Formato de fecha inválido" exactly when a non-empty `date` does not parse. |
| AppointmentViews.CalendarWeekDefaultsToToday | backend/core/views/appointments.py:85-88 | Without `date`, the answer is that for today's date. |
| AppointmentViews.WeekShape | backend/core/views/appointments.py:90-93 | The answer runs from the Monday of the date's week to the Sunday six days later, and contains the date. |
| AppointmentViews.WeekEnds | backend/core/views/appointments.py:91-93 | Start and end are the date minus its Python weekday, and six days after that. |
| AppointmentViews.WeekOfDate | backend/core/views/appointments.py:91-93 | The Python-weekday Monday is the frontend's Monday, and the week it starts contains the date. |
| AppointmentViews.BackendMondayIsGridMonday | backend/core/views/appointments.py:91-92 | The backend's week start is the frontend grid's Monday for the same date. |
| AppointmentViews.SundayOutsideGrid | backend/core/views/appointments.py:93-93 | The week's last day is a Sunday, which is none of the six days the grid shows. |
| AppointmentViews.WeekAppointments | backend/core/views/appointments.py:96-106 | The answer lists exactly the appointments dated on one of the week's seven days. |
| AppointmentViews.GridOffersRejectedSlot | backend/core/serializers/appointment.py:51-52 | The calendar's last slot reads as 16:00, and a 16:xx date is refused by both the serializer and the model. |
| AppointmentViews.StatusUpdateIff | backend/core/views/appointments.py:109-139 | An unknown or missing status is refused. A known one saves exactly when the model's `clean` passes. A saved row has the new status and the same date. |
| AppointmentViews.CompletionFillsTimes | backend/core/views/appointments.py:123-128 | Completing an appointment with no end time sets the end to now. It sets the start to the appointment's date when there is none. |
| AppointmentViews.TimesKept | backend/core/views/appointments.py:121-128 | Other statuses, or an end time already set, leave both times alone. |
| AppointmentViews.StaleAppointmentFrozen | backend/core/views/appointments.py:130-136 | An appointment more than a day old cannot change status: saving runs `clean`, which refuses it. |
| AppointmentViews.DestroyedKeepsCompleted | backend/core/views/appointments.py:141-154 | Deletion succeeds exactly when the row exists and is not completed. Only that row goes, and a refusal changes nothing. |
| AppointmentViews.AppointmentTable.constructor | backend/core/views/appointments.py:109-154 | The table starts empty. |
| AppointmentViews.AppointmentTable.UpdateStatus | backend/core/views/appointments.py:109-139 | A missing id answers 404. Otherwise the answer is the status update of that row, which is stored only when it was saved. |
| AppointmentViews.AppointmentTable.Destroy | backend/core/views/appointments.py:141-154 | The answer and the new table are those of the delete rule. |
| Lockout.LockedRefusesAll | backend/authentication/views.py:29-39 | While the lock holds, every attempt, even with the right password, answers 423 "Usuario bloqueado. Intente más tarde." and changes nothing. |
| Lockout.ExpiredLockLifted | backend/authentication/views.py:30-34 | A lock whose time has passed is lifted and the counter reset before the password is checked. |
| Lockout.SuccessResets | backend/authentication/views.py:44-54 | With no lock in force, the right password logs in and resets the counter. |
| Lockout.FailureCounts | backend/authentication/views.py:56-72 | A wrong password adds one failure. The third locks for 15 minutes and answers 423 "Usuario bloqueado por múltiples intentos fallidos"; the others answer with the attempts left, 1 or 2. |
| Lockout.AttemptConsistent | backend/authentication/views.py:25-72 | From a record whose counter is not negative and is below 3 while unlocked, every attempt gives such a record again. |
| Lockout.AttemptReached | backend/authentication/views.py:25-72 | The defaults have a counter from 0 to 3, the lock on exactly at 3, and an end time whenever locked. Every attempt keeps all three. |
| Lockout.ThreeFailuresLock | backend/authentication/views.py:56-65 | Enough wrong passwords in a row from an unlocked user lock it until 15 minutes after the last one. |
| Lockout.User.constructor | backend/authentication/models.py:5-7 | A new user has no failures and no lock. |
| Lockout.User.Login | backend/authentication/views.py:25-72 | The stored counter and lock become what the attempt computes, and its answer is returned. |
| Lockout.Post | backend/authentication/views.py:15-78 | A missing username or password answers 400, and an unknown user 401; neither touches any user. Otherwise it is that user's attempt. |
| JsDates.SetDateRelative | frontend/src/features/calendar/CalendarManager.jsx:86-86 | `setDate(getDate() + k)` moves the local date by `k` days at the same time of day, across months and years. |
| JsDates.SetHoursWithinDay | frontend/src/features/calendar/CalendarManager.jsx:121-121 | `setHours(h, m)` keeps the date and the seconds; `setHours(h, m, 0, 0)` clears the seconds. |
| JsDates.ParseDateTimestamp | frontend/src/utils/timezone.js:52-52 | `new Date` of an RFC 3339 timestamp is that instant. |
| JsDates.ParseDateInputForm | frontend/src/utils/timezone.js:84-84 | `new Date` of an input-form text is that wall time on the device. |
| JsDates.ParseDateEmpty | frontend/src/utils/timezone.js:24-24 | `new Date('')` is an Invalid Date. |
| JsDates.IsoReadBack | frontend/src/utils/timezone.js:41-41 | The `toISOString` text of a date parses back to the same date. |
| Rfc3339.TimestampRoundTrip | frontend/src/utils/timezone.js:49-53 | A timestamp written at any valid offset parses back to the same instant. |
| Rfc3339.InputFormRoundTrip | frontend/src/utils/timezone.js:80-86 | The input form parses back to its wall time. |
| Text.JoinSplit | frontend/src/features/owners/OwnerManager.jsx:104-120 | Joining the pieces of a split with the separator restores the text. |
| Text.ParseIntRoundTrip | frontend/src/features/pets/PetManager.jsx:86-90 | `parseInt` reads back the decimal text of any integer. |

## Left out

- Network, timers and React scheduling are not modelled. Requests are out-parameters and answers are parameters. Effects run when a method is called. Races between a navigation and a fetch still in flight are not modelled.
- Time zones are fixed offsets. `toLocaleString` with `America/Guayaquil` is a shift to UTC-5, which is exact because Ecuador has no daylight saving. Each device has one fixed offset.
- CalendarUtils.FormatDateHeader: the locale rendering of `toLocaleDateString('es-EC', …)` is a parameter; only the falsy-argument case is stated. `formatDisplayDate` in timezone.js is not modelled, for the same reason.
- Timezone.FormatDateTimeLocal: its own contract states only the two fallbacks. The text it computes for a valid date is stated by `FieldsTextRoundTrip`, `FieldsTextIsInputForm` and `InputTextRoundTrip`.
- Timezone.ParseDateTimeLocal: its own contract states only that the result is a date. What it computes is stated by `HelpersAgree`, `ParseInputText` and `ParseLocalOfDate`.
- Timezone.FormatDateFromBackend: its own contract states only that the result is a date. What it computes is stated by `HelpersAgree`, `FromBackendShowsEcuadorTime` and `FromBackendOfDate`.
- The status select shown only when editing (AppointmentModal.jsx:263-277) is covered only as a field change by `Editor.Change`. Its markup is not modelled.
- Deleting an owner or a pet (OwnerManager.jsx:140-163, PetManager.jsx:194-217) is not modelled. It is a confirmation followed by a DELETE and a reload, the same shape as the appointment dialog's delete, which is modelled.
- The pets, services and professionals lists that the appointment dialog loads are parameters. Their fetches are not modelled.
- Error bodies that are not JSON are not modelled. An answer is ok with a body, not ok with a JSON body, or a throw. The week loads (`Calendar.WeekList`, `LegacyCalendar.WeekAppointments`) read a `citas`/`appointments` field that is present but not a list as an empty week, where the screen would store it and throw at its first `.filter`.
- The first version's pet screen (components/PetManager.jsx) is the same `PetScreen` class built with `FirstMessages`. It has no owner dialog, so its owner methods are simply not called.
- Text.IsSpace: it is the whitespace JavaScript `trim` and Python `split()` share. U+FEFF, which only `trim` removes, and U+001C to U+001F and U+0085, at which only `split()` splits, are treated as ordinary characters.
- Text.ToLower: it lower-cases Basic Latin, Latin-1 and Latin Extended-A only (so "ŁUKASZ" becomes "łukasz"). `İ`, which JavaScript turns into two characters, and the letters of Greek, Cyrillic and other scripts are left as they are, so a search that differs from a name only in the case of those letters does not match, where the screens' search would.
- AppointmentEditor.EmptyDateThrows: the date input is marked `required`, so the browser refuses to submit the form with an empty date and `handleSubmit` does not run. The throw it states is reachable only by a caller that skips that validation.
- JsDates.ParseDate: it reads only the `YYYY-MM-DDTHH:MM` input form, as local time, and RFC 3339 timestamps that carry an offset (`Z` or `±HH:MM`). Other forms ECMAScript accepts are read as an Invalid Date: a date-time with seconds but no offset, which is local time, and a date alone, which is UTC midnight. The model therefore assumes the backend sends `appointment_date` with an offset, as Django REST framework does with time-zone support on. The settings file is not part of this model. A backend that sent naive date-times would make the screens read every appointment date, where this model reads none.
- Pets.NewOwnerRequest: its contract states only the method and the path. The body is stated by `NewOwnerBody`.
- Python's `strptime` accepts some texts beyond `%Y-%m-%d`, such as one-digit months. The model reads only the four-digit year, two-digit month and two-digit day form.
- The age in months comes from `days / 30.44` in floating point, which is not modelled. The displays take the whole number of months as input.
- The pet weight is kept as the decimal's text on the screen. `parseFloat` is not modelled: the payload carries the text.
- Django's time-zone handling is not modelled. "Now" and appointment dates are instants on one server clock, with microseconds.
- JWT issuing is not modelled. `authenticate` is a boolean parameter.
- The reports, services, owners and pets endpoints, the dashboard and the management commands are not part of this model.

## Findings

| source | as written | input that shows it | evidently intended | confidence | as-written member | corrected member |
|---|---|---|---|---|---|---|
| frontend/src/utils/timezone.js:93-96 | The date comes from `toISOString()` of the converted date, which gives the UTC date. | 20:00 on 2024-06-10 in Ecuador, on an Ecuador device, gives "2024-06-11". | Ecuador's calendar date, "2024-06-10". | high, not executed | Timezone.EcuadorDateStringEvening | Timezone.EcuadorDateStringMeaning |
| frontend/src/features/calendar/CalendarManager.jsx:84-88 | Navigation converts the anchor again before and after the step. Off an Ecuador device, each step also moves the anchor back by the skew. | Device at UTC, anchor Monday 2024-06-10 08:00. "Next" lands on Sunday 2024-06-16 22:00, whose week still starts on the 10th. | Each step shows the next or the previous week. | high, not executed | Calendar.NavigateStallsOffEcuador | Grid.CopyNavigateShiftsWeek |
| frontend/src/components/CalendarManager.jsx:110-119 | A cell matches only an appointment whose `getTime()` equals the cell's. The cell keeps the anchor's seconds and milliseconds. | Anchor taken at 08:00:05 on 2024-06-10: the 08:00 appointment that day is in no cell. | Match on date, hour and minute. | high, not executed | LegacyCalendar.LoadedFiveSecondsLate | LegacyCalendar.SameMinuteIff |
| backend/core/models.py:313-326 | The overlap query looks back a fixed 60 minutes, whatever the services' durations. | An open 120-minute appointment at start − 90 minutes is not found. A 15-minute one at start − 30 minutes is found. | Intervals `[start, start + duration)` that intersect. | medium (the fixed hour may be a deliberate simplification), not executed | Scheduling.LookbackMissesLongAppointment | Scheduling.LegacyCleanIntendedIff |
