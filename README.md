# invitro_medical: doctor search, booking and client stores in Dafny

invitro_medical is a Next.js front end: patients browse a directory of
doctors and book appointments. Its logic lives in a few React components and
zustand stores. This project models that logic and proves its properties:

- **Catalog** (`doctor_store.dfy`). The nine seeded doctors as constants and
  the read-only `useDoctors` state.
- **Directory** (`doctor_directory.dfy`).
  - The `filteredDoctors` predicate, with its case-insensitive search, its
    exact specialty match and its three-way availability selector.
  - The `specialties` menu: `"all"` plus the deduplicated specialties.
  - The directory's React state (`DirectoryView`), whose book button is
    disabled for a doctor without slots.
- **Directory scenarios** (`directory_scenarios.dfy`). Concrete results on the
  seeded catalog.
- **Booking dialog** (`booking_modal.dfy`). The dialog's state machine: date,
  slot and busy flag.
  - The calendar's `disabled` rule and the eleven slot labels.
  - The guarded confirm button.
  - The timer callback that appends one confirmed appointment and closes the
    dialog.
- **Appointment store** (`appointment_store.dfy`). A class holding a sequence:
  `addAppointment` appends, `cancelAppointment` filters by id.
- **Auth store** (`auth_store.dfy`) and **sidebar store**
  (`sidebar_store.dfy`). Two small classes: the signed-in user, and the
  collapsed flag.
- **Shared records** (`types.dfy`). `Doctor`, `Appointment` and the
  three-valued status.
- **Helpers**:
  - `text.dfy`: ASCII lower-casing and substring search.
  - `decimal.dfy`: the decimal rendering of `Date.now()` in ids.
  - `sequences.dfy`: subsequence, no duplicates, first index.
  - `wrappers.dfy`: `Option`, which stands for `null` and `undefined`.

Time is an integer number of milliseconds in local time. The wall clock is
the parameter `now` of each step that reads it. The one-second `setTimeout`
of the booking dialog becomes two steps:

- `ClickConfirm` schedules a `Submission`. It captures the doctor prop, the
  date and the slot, as the callback's closure does.
- `CompleteSubmit(now)` runs the oldest scheduled submission.

The class invariant `SingleFlight` says that at most one submission is
scheduled, exactly while the busy flag is set.

The clock never goes back. `BookingState` keeps its latest clock reading,
`lastFired`, as a ghost field. `CompleteSubmit` requires the timer's instant
to be later than that reading. Under this assumption the invariant
`Valid()` keeps every stored id issued no later than `lastFired`, and keeps
the stored ids pairwise distinct.

The model follows the code as written, including where a booking system might be expected to behave differently:

- `cancelAppointment` removes every entry with the id. It does not set a
  status to "cancelled".
- An unknown id is a silent no-op.
- `addAppointment` accepts a duplicate id.
- The calendar's upper bound is `now + 30 days` at the current clock time,
  not the end of day 30. `BookingModal.DayDisabledIff` shows that for a
  calendar day, given as its midnight, the two readings agree.
- `handleBookAppointment` itself does not check `isBooking`. Only the
  disabled confirm button prevents a second submission.
  `BookingModal.HandlerTwiceSchedulesTwo` shows that calling the handler
  twice schedules two.
- The date is checked only when it is picked. Nothing checks it again
  when confirm is pressed or when the timer fires, and the default date is
  the first render's instant. So a stored appointment can carry a day that
  has already passed when it is created.
  `BookingModal.StaleDefaultDateStored` shows this for a timer that fires a
  day or more after the dialog opened.

## Model

| member | source | states |
|---|---|---|
| Types.ParseStatus | types/index.ts:18 | exactly the three literals "confirmed", "cancelled", "completed" are statuses, and each is read back to its own label |
| Types.StatusLabelRoundTrip | types/index.ts:18 | reading a status's label yields that status |
| DoctorStore.UseDoctors | store/doctor-store.ts:9-113 | the store's `doctors` is the seed, read through a constant with no mutator: nine doctors with ids "doctor-1" to "doctor-9" in order |
| DoctorStore.CatalogIdsDistinct | store/doctor-store.ts:11-99 | the nine ids are pairwise distinct |
| DoctorStore.CatalogCountsNonNegative | store/doctor-store.ts:16-106 | every slot count and review count of the seed is non-negative |
| DoctorStore.CatalogFullyBooked | store/doctor-store.ts:33-84 | a seeded doctor has no slots iff it is doctor-3 or doctor-7 |
| DoctorStore.CatalogSpecialtiesDistinct | store/doctor-store.ts:13-101 | the nine specialties are pairwise distinct |
| Text.LowerStr | components/doctor-directory.tsx:29-30 | lower-casing keeps the length and lower-cases each character |
| Text.IncludesIff | components/doctor-directory.tsx:29-30 | `includes` holds iff the term occurs at some position |
| Text.IncludesEmpty | components/doctor-directory.tsx:29-30 | the empty term occurs in every string |
| Text.IncludesLowerIff | components/doctor-directory.tsx:29-30 | searching the lower-cased term in the lower-cased field is the same as comparing characters case-insensitively |
| Text.IncludesSameLower | components/doctor-directory.tsx:29-30 | a case-insensitive search depends on the term only through its lower-case form |
| Decimal.DecimalString | components/booking-modal.tsx:61 | the rendering of a number is a non-empty string of digits |
| Decimal.ParseDecimalString | components/booking-modal.tsx:61 | a rendered number parses back to itself |
| Decimal.DecimalStringInjective | components/booking-modal.tsx:61 | different numbers render differently |
| DoctorDirectory.MatchesSearchLowered | components/doctor-directory.tsx:28-30 | the search predicate is `name.toLowerCase().includes(term.toLowerCase()) \|\| specialty.toLowerCase().includes(term.toLowerCase())` |
| DoctorDirectory.FilteredDoctors | components/doctor-directory.tsx:27-38 | the result is no longer than the catalog, and a doctor is in it iff it is in the catalog and passes search, specialty and availability |
| DoctorDirectory.MatchesSpecialty | components/doctor-directory.tsx:31 | "all" matches every doctor; any other value matches exactly the doctors whose specialty equals it |
| DoctorDirectory.MatchesAvailability | components/doctor-directory.tsx:32-35 | "all" matches everyone, a value other than the three matches nobody, "available" (for a non-negative count) matches exactly the doctors whose book button is enabled and "unavailable" exactly those whose button is disabled |
| DoctorDirectory.FilteredCons | components/doctor-directory.tsx:27-38 | the filter works one doctor at a time, keeping a head that matches in front of the filtered tail |
| DoctorDirectory.FilteredSkip | components/doctor-directory.tsx:27-38 | a doctor that does not match drops out of the filtered suffix starting at it |
| DoctorDirectory.FilteredConcat | components/doctor-directory.tsx:27 | filtering distributes over concatenation |
| DoctorDirectory.FilteredIsSubsequence | components/doctor-directory.tsx:27 | the result is a subsequence of the catalog: nothing added, nothing reordered |
| DoctorDirectory.FilteredMultiplicity | components/doctor-directory.tsx:27-38 | a matching doctor keeps its multiplicity, a non-matching one disappears |
| DoctorDirectory.FilteredIdempotent | components/doctor-directory.tsx:27-38 | filtering a result again with the same criteria returns it unchanged |
| DoctorDirectory.EmptySearchMatches | components/doctor-directory.tsx:28-30 | the empty search term matches every doctor |
| DoctorDirectory.EmptySearchKeepsAll | components/doctor-directory.tsx:17-38 | the initial criteria (empty search, "all", "all") show the whole list in order |
| DoctorDirectory.AvailableWithoutSearch | components/doctor-directory.tsx:32-34 | with no other filter, "available" keeps exactly the doctors with slots > 0 |
| DoctorDirectory.SearchIgnoresCase | components/doctor-directory.tsx:29-30 | two search terms with the same lower-case form give the same result |
| DoctorDirectory.SpecialtyNarrows | components/doctor-directory.tsx:31 | "all" imposes nothing; any other specialty keeps exactly the doctors whose specialty equals it, case-sensitively |
| DoctorDirectory.AvailabilityPartition | components/doctor-directory.tsx:32-35 | when slot counts are non-negative, the "available" and "unavailable" results are disjoint and together make up the "all" result, as multisets |
| DoctorDirectory.AvailabilityCounts | components/doctor-directory.tsx:32-35 | the sizes of the "available" and "unavailable" results add up to the size of the "all" result |
| DoctorDirectory.SpecialtyAbsentSelectsNone | components/doctor-directory.tsx:31 | a specialty no doctor has selects nobody |
| DoctorDirectory.UniqueSpecialtySelects | components/doctor-directory.tsx:31 | when specialties are distinct, selecting one doctor's specialty shows that doctor alone |
| DoctorDirectory.SpecialtyColumn | components/doctor-directory.tsx:24 | `doctors.map(d => d.specialty)`: same length, entry i is doctor i's specialty |
| DoctorDirectory.DistinctInOrder | components/doctor-directory.tsx:24 | `new Set(...)` holds the same elements as its input, each once |
| DoctorDirectory.DistinctInOrderFirstAppearance | components/doctor-directory.tsx:24 | the distinct elements are in the order of their first appearance |
| DoctorDirectory.DistinctInOrderOfDistinct | components/doctor-directory.tsx:24 | a duplicate-free list is kept as it is |
| DoctorDirectory.Specialties | components/doctor-directory.tsx:24 | the menu starts with "all", then lists each specialty of the catalog exactly once |
| DoctorDirectory.SpecialtiesOfDistinct | components/doctor-directory.tsx:24 | with distinct specialties, the menu is "all" followed by the specialty column |
| DoctorDirectory.BookEnabled | components/doctor-directory.tsx:143 | for a non-negative count the button is enabled exactly when the card shows "Book Appointment", i.e. slots > 0 |
| DoctorDirectory.DirectoryView.constructor | components/doctor-directory.tsx:17-21 | initial state: empty search, "all", "all", no doctor selected, modal closed |
| DoctorDirectory.DirectoryView.SetSearchTerm | components/doctor-directory.tsx:17 | sets the search term, nothing else |
| DoctorDirectory.DirectoryView.SetSpecialty | components/doctor-directory.tsx:18 | sets the specialty selector, nothing else |
| DoctorDirectory.DirectoryView.SetAvailability | components/doctor-directory.tsx:19 | sets the availability selector, nothing else |
| DoctorDirectory.DirectoryView.HandleBookAppointment | components/doctor-directory.tsx:40-43 | selects the doctor and opens the modal |
| DoctorDirectory.DirectoryView.ClickBook | components/doctor-directory.tsx:141-146 | the click on a card's button opens the modal iff the doctor has slots; an open modal always holds a catalog doctor with slots > 0 |
| DoctorDirectory.DirectoryView.CloseModal | components/doctor-directory.tsx:155 | `onClose` closes the modal and keeps the selected doctor |
| DirectoryScenarios.CardioSearch | store/doctor-store.ts:12-13 | searching "cardio", in any mix of cases, returns exactly [Dr. Sarah Johnson] |
| DirectoryScenarios.CardioMissesAt | store/doctor-store.ts:23-101 | no other seeded doctor has "cardio" in its name or specialty |
| DirectoryScenarios.UnavailableShowsFullyBooked | store/doctor-store.ts:33-84 | "unavailable" returns exactly [Dr. Emily Rodriguez, Dr. Lisa Thompson] in catalog order |
| DirectoryScenarios.AvailableMembers | store/doctor-store.ts:33-84 | "available" returns every seeded doctor except doctor-3 and doctor-7 |
| DirectoryScenarios.AvailableCount | store/doctor-store.ts:9-109 | "available" returns seven doctors |
| DirectoryScenarios.SpecialtyIsCaseSensitive | store/doctor-store.ts:13 | specialty "Cardiology" returns [Dr. Sarah Johnson], "cardiology" returns nobody |
| DirectoryScenarios.CatalogSpecialties | store/doctor-store.ts:13-101 | the seeded menu is "all" followed by the nine specialties in catalog order: ten entries |
| BookingModal.StartOfDay | components/booking-modal.tsx:115 | `setHours(0, 0, 0, 0)`: a multiple of a day, at most the instant and less than a day before it |
| BookingModal.DateDisabled | components/booking-modal.tsx:114-117 | an instant on an earlier day, or more than thirty days after today, is disabled; every instant from today to today + 29 is selectable |
| BookingModal.DayDisabledIff | components/booking-modal.tsx:114-117 | a calendar day d is disabled iff it is not between today and today + 30 inclusive |
| BookingModal.NowSelectable | components/booking-modal.tsx:114-117 | the initial date, now, is not disabled, and neither is today's midnight |
| BookingModal.TenDaysOutSelectable | components/booking-modal.tsx:114-117 | the midnight ten days after today is not disabled |
| BookingModal.AppointmentId | components/booking-modal.tsx:61 | ids are "appointment-" followed by the timestamp |
| BookingModal.AppointmentIdInjective | components/booking-modal.tsx:61 | submissions at different milliseconds get different ids |
| BookingModal.Booked | components/booking-modal.tsx:60-66 | the appointment carries id "appointment-" + the timestamp, the captured doctor, date and slot, and status "confirmed" |
| BookingModal.BookedValid | components/booking-modal.tsx:60-66 | a submission of a bookable doctor in a fixed slot yields a valid confirmed booking |
| BookingModal.BookingState.ConfirmEnabled | components/booking-modal.tsx:150 | the confirm button is disabled while booking, so an enabled button under the single-flight invariant means nothing is in flight |
| BookingModal.BookingState.constructor | components/booking-modal.tsx:32-34 | initial state: the date is now, no slot, not booking, nothing scheduled, and the clock reading is now |
| BookingModal.BookingState.SelectDate | components/booking-modal.tsx:109-117 | a date is taken iff it is not disabled; a deselect clears it |
| BookingModal.BookingState.SelectTimeSlot | components/booking-modal.tsx:125-142 | a slot is taken iff it is one of the eleven labels, so the chosen slot is always one of them |
| BookingModal.BookingState.HandleBookAppointment | components/booking-modal.tsx:53-59 | without a date or slot nothing changes; otherwise it sets the busy flag and schedules one submission of the current doctor, date and slot |
| BookingModal.BookingState.ClickConfirm | components/booking-modal.tsx:150 | an enabled click schedules exactly one submission; a disabled click, with no date, no slot or busy, changes nothing; keeps at most one submission in flight |
| BookingModal.BookingState.CompleteSubmit | components/booking-modal.tsx:59-69 | at an instant later than the last clock reading, appends exactly one confirmed appointment with the captured data and an id no stored appointment has, keeps the stored ids distinct, clears the busy flag and closes the dialog |
| BookingModal.BookingState.Close | components/booking-modal.tsx:147-149 | cancel closes the dialog; the selected doctor, the filter criteria, the store and the dialog state are unchanged |
| BookingModal.OpenBooking | components/doctor-directory.tsx:141-156 | a book click on a catalog doctor with slots, on a fresh directory, opens the dialog for that doctor with the initial criteria ("", "all", "all") and an empty store, and the dialog's first render (booking-modal.tsx:32-34) has the date now, no slot, nothing scheduled |
| BookingModal.ChooseDateAndSlot | components/booking-modal.tsx:109-142 | on a freshly opened dialog, a selectable date and one of the eleven slots are both taken, with nothing scheduled and the store empty |
| BookingModal.StaleDefaultDateStored | components/booking-modal.tsx:32-66 | confirming the default date with the timer firing a day or more later stores that date, which the calendar disables at that instant |
| BookingModal.DoubleClickConfirm | components/booking-modal.tsx:150 | two clicks on an enabled confirm button schedule exactly one submission of the selected doctor, date and slot: the first click disables the button |
| BookingModal.BookTenDaysOut | components/booking-modal.tsx:53-72 | booking Dr. Michael Chen ten days out at "2:00 PM" with a double click stores exactly one confirmed appointment |
| BookingModal.CancelWithoutSlot | components/booking-modal.tsx:147-150 | confirming without a slot is a no-op, and cancelling leaves the store empty and the dialog closed |
| BookingModal.HandlerTwiceSchedulesTwo | components/booking-modal.tsx:53-59 | the handler alone does not stop a second submission |
| BookingModal.FullyBookedStaysClosed | components/doctor-directory.tsx:141-146 | clicking Dr. Emily Rodriguez's disabled button opens nothing |
| AppointmentStore.WithoutId | store/appointment-store.ts:19-22 | the filter keeps an entry iff its id differs, and never grows the list |
| AppointmentStore.IdsDistinctAppend | store/appointment-store.ts:15-18 | appending an appointment whose id no entry has keeps the ids pairwise distinct |
| AppointmentStore.WithoutIdIsSubsequence | store/appointment-store.ts:21 | the surviving entries keep their original order |
| AppointmentStore.WithoutIdMultiplicity | store/appointment-store.ts:21 | no entry with the id survives; every other entry survives unchanged, status included, with its multiplicity |
| AppointmentStore.WithoutAbsentId | store/appointment-store.ts:19-22 | cancelling an id no entry has is a no-op |
| AppointmentStore.WithoutIdIdempotent | store/appointment-store.ts:19-22 | cancelling twice equals cancelling once |
| AppointmentStore.WithoutIdConcat | store/appointment-store.ts:21 | the filter distributes over concatenation |
| AppointmentStore.AddThenCancelRestores | store/appointment-store.ts:15-22 | appending an entry with a fresh id and cancelling that id restores the list |
| AppointmentStore.AppointmentState.constructor | store/appointment-store.ts:14 | the list starts empty |
| AppointmentStore.AppointmentState.AddAppointment | store/appointment-store.ts:15-18 | the new list is the old one plus the entry at the end; earlier entries are unchanged; it never fails |
| AppointmentStore.AppointmentState.CancelAppointment | store/appointment-store.ts:19-22 | the new list is the old one without the entries carrying the id |
| AppointmentStore.AddThenCancel | store/appointment-store.ts:14-22 | adding to an empty store and cancelling that id empties it again |
| AppointmentStore.CancelRemovesEveryDuplicate | store/appointment-store.ts:15-22 | a duplicate id is accepted on add, and one cancel removes both entries while another id survives |
| AppointmentStore.CancelTwice | store/appointment-store.ts:19-22 | a second cancel of the same id changes nothing |
| AuthStore.AuthState.constructor | store/auth-store.ts:20 | nobody is signed in initially |
| AuthStore.AuthState.Login | store/auth-store.ts:21 | the user becomes exactly the given one, replacing any previous user |
| AuthStore.AuthState.Logout | store/auth-store.ts:22 | the user becomes null |
| AuthStore.LoginTwiceThenLogout | store/auth-store.ts:21-22 | a second login replaces the first, and logout then yields null |
| AuthStore.LogoutTwice | store/auth-store.ts:22 | logout is idempotent |
| SidebarStore.SidebarState.constructor | store/sidebar-store.ts:10 | the sidebar starts expanded |
| SidebarStore.SidebarState.Toggle | store/sidebar-store.ts:11 | toggle negates the flag |
| SidebarStore.SidebarState.SetCollapsed | store/sidebar-store.ts:12 | the flag becomes the given value, whatever it was |
| SidebarStore.ToggleTwice | store/sidebar-store.ts:11 | toggling twice restores the flag from either start |
| SidebarStore.SetCollapsedTwice | store/sidebar-store.ts:12 | setting a value twice is the same as setting it once |

## Left out

- Clock and timer. `new Date()`, `Date.now()` and `setTimeout` are not
  modelled. The clock is a parameter, and the timer becomes the
  `ClickConfirm` / `CompleteSubmit` pair. Timers fire oldest first.
- Time zones and daylight saving. A day is always 86 400 000 ms, and local
  midnight is a multiple of it. `Date.now()` is taken to be non-negative.
- Date display. The date-fns `format(date, "PPP")` rendering is not modelled.
- Navigation. `router.push("/dashboard/appointments")` after a booking, and
  the dashboard's auth redirect, are not modelled.
- Persistence. The zustand `persist` middleware, with its localStorage
  serialisation for the appointment and auth stores, is foreign code.
- Unicode case. `toLowerCase` is modelled for ASCII letters only. Other
  characters are left as they are.
- Ratings. The fractional `rating` is stored as an integer number of tenths,
  and the star rendering is not modelled.
- Markup. All JSX is left out, including the "Fully Booked" button label,
  the sidebar, the profile and appointments pages, and the `useMobile`
  responsive collapse.
- The dialog's mounting. The dialog is mounted once a doctor is selected and
  stays mounted. Its state survives a change of doctor, as React keeps it.
  The directory never clears `selectedDoctor`, so the dialog is never
  unmounted while the page is shown. Leaving the page is not modelled.
- BookingModal.BookingState.SelectDate. The model does not capture that the
  calendar offers only whole days, so any instant up to `now + 30 days`
  counts as selectable. `DayDisabledIff` states the whole-day reading.
