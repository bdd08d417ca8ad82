/**
  The booking dialog (components/booking-modal.tsx): a date, a time slot and
  a busy flag, a confirm button that schedules one submission, and the
  submission that later adds a confirmed appointment to the store and closes
  the dialog.

  Instants are integer milliseconds in local time. The wall clock is a
  parameter `now` of every step that reads it. The one-second timer is split
  into `ClickConfirm`, which schedules a submission, and `CompleteSubmit`,
  which runs it.
 */
module BookingModal {
  import opened Wrappers
  import opened Types
  import opened Decimal
  import opened DoctorStore
  import opened DoctorDirectory
  import opened AppointmentStore

  const DayMs: int := 86400000

  /** The eleven fixed slot labels, in display order. */
  const TimeSlots: seq<string> := [
    "9:00 AM", "9:30 AM", "10:00 AM", "10:30 AM", "11:00 AM", "11:30 AM",
    "2:00 PM", "2:30 PM", "3:00 PM", "3:30 PM", "4:00 PM"]

  /** Local midnight of the day that holds `t` (`setHours(0, 0, 0, 0)`). */
  function StartOfDay(t: int): (r: int)
    ensures r <= t < r + DayMs
    ensures r % DayMs == 0
  {
    t - t % DayMs
  }

  /**
    The calendar's `disabled` test: before today's midnight, or later than the
    same clock time thirty days from now.
   */
  predicate DateDisabled(date: int, now: int)
    ensures date / DayMs < now / DayMs ==> DateDisabled(date, now)
    ensures now / DayMs <= date / DayMs < now / DayMs + 30 ==> !DateDisabled(date, now)
    ensures date / DayMs > now / DayMs + 30 ==> DateDisabled(date, now)
  {
    date < StartOfDay(now) || date > now + 30 * DayMs
  }

  /** For a calendar day, given as the midnight of day number `d`, the day is selectable iff it is today or one of the next thirty days. */
  lemma DayDisabledIff(d: int, now: int)
    ensures DateDisabled(d * DayMs, now) <==> !(now / DayMs <= d <= now / DayMs + 30)
  {
    var q, r := now / DayMs, now % DayMs;
    assert now == q * DayMs + r && 0 <= r < DayMs;
    assert StartOfDay(now) == q * DayMs;
  }

  /** The initial date, the current instant, is itself selectable, as is today's midnight. */
  lemma NowSelectable(now: int)
    ensures !DateDisabled(now, now)
    ensures !DateDisabled(StartOfDay(now), now)
  {
  }

  /** Midnight of the tenth day from today is selectable. */
  lemma TenDaysOutSelectable(now: int)
    ensures !DateDisabled(StartOfDay(now) + 10 * DayMs, now)
  {
  }

  /** `appointment-${Date.now()}`. */
  function AppointmentId(now: nat): (id: string)
    ensures |id| > 12 && id[..12] == "appointment-"
  {
    "appointment-" + DecimalString(now)
  }

  /** Submissions run at different milliseconds yield different ids. */
  lemma AppointmentIdInjective(a: nat, b: nat)
    ensures AppointmentId(a) == AppointmentId(b) ==> a == b
  {
    if AppointmentId(a) == AppointmentId(b) {
      assert DecimalString(a) == AppointmentId(a)[12..];
      assert DecimalString(b) == AppointmentId(b)[12..];
      DecimalStringInjective(a, b);
    }
  }

  /** `a.id` was issued by a submission that fired at instant `t` or earlier. */
  ghost predicate IssuedBy(a: Appointment, t: int) {
    exists n: nat :: n <= t && a.id == AppointmentId(n)
  }

  /** What the timer callback captured at the click: the doctor prop, the date and the slot. */
  datatype Submission = Submission(doctor: Doctor, date: int, time: string)

  /** The appointment a submission adds when it runs at instant `now`. */
  function Booked(s: Submission, now: nat): (a: Appointment)
    ensures a.status == Confirmed && StatusLabel(a.status) == "confirmed"
    ensures a.doctor == s.doctor && a.date == s.date && a.time == s.time
    ensures a.id == AppointmentId(now) && a.id[..12] == "appointment-"
  {
    Appointment(AppointmentId(now), s.doctor, s.date, s.time, Confirmed)
  }

  /** A submission of a bookable doctor in one of the fixed slots. */
  predicate ValidSubmission(s: Submission) {
    Bookable(s.doctor) && s.time in TimeSlots
  }

  /** An appointment as this dialog creates it. */
  predicate ValidBooking(a: Appointment) {
    Bookable(a.doctor) && a.time in TimeSlots && a.status == Confirmed
  }

  /** Every appointment a valid submission books is itself valid. */
  lemma BookedValid(s: Submission, now: nat)
    requires ValidSubmission(s)
    ensures ValidBooking(Booked(s, now))
  {
  }

  /** The dialog's React state, together with the directory that owns it and the shared store. */
  class BookingState {
    /** The directory whose `selectedDoctor` is the `doctor` prop and whose `setIsModalOpen(false)` is `onClose`. */
    const directory: DirectoryView
    const store: AppointmentState
    var date: Option<int>
    var selectedTimeSlot: Option<string>
    var isBooking: bool
    /** Scheduled timer callbacks that have not run yet, oldest first. */
    var pending: seq<Submission>
    /** The latest clock reading: the first render, or the last timer that fired. */
    ghost var lastFired: int

    /** At most one submission is in flight, and exactly while the dialog shows "Booking...". */
    predicate SingleFlight()
      reads this
    {
      if isBooking then |pending| == 1 else pending == []
    }

    /**
      The dialog is mounted (a doctor is selected), the chosen slot is one of
      the fixed labels, and every scheduled submission and every stored
      appointment came from a valid booking. Stored ids were all issued by
      the clock up to `lastFired`, so no two of them are equal.
     */
    ghost predicate Valid()
      reads this, directory, store
    {
      directory.Valid() && directory.selectedDoctor.Some? &&
      (selectedTimeSlot.Some? ==> selectedTimeSlot.value in TimeSlots) &&
      SingleFlight() &&
      (forall s :: s in pending ==> ValidSubmission(s)) &&
      (forall a :: a in store.appointments ==> ValidBooking(a)) &&
      (forall a :: a in store.appointments ==> IssuedBy(a, lastFired)) &&
      IdsDistinct(store.appointments)
    }

    /** The confirm button's `disabled={!date || !selectedTimeSlot || isBooking}`, negated. */
    predicate ConfirmEnabled()
      reads this
      ensures isBooking ==> !ConfirmEnabled()
      ensures SingleFlight() && ConfirmEnabled() ==> pending == []
    {
      date.Some? && selectedTimeSlot.Some? && !isBooking
    }

    /** First render: the date is the current instant, no slot, not booking. */
    constructor(directory: DirectoryView, store: AppointmentState, now: int)
      requires directory.Valid() && directory.selectedDoctor.Some?
      requires forall a :: a in store.appointments ==> ValidBooking(a)
      requires forall a :: a in store.appointments ==> IssuedBy(a, now)
      requires IdsDistinct(store.appointments)
      ensures Valid()
      ensures this.directory == directory && this.store == store
      ensures date == Some(now) && selectedTimeSlot == None && !isBooking && pending == []
      ensures lastFired == now
    {
      this.directory := directory;
      this.store := store;
      date := Some(now);
      selectedTimeSlot := None;
      isBooking := false;
      pending := [];
      lastFired := now;
    }

    /**
      The calendar's `onSelect`. A disabled day cannot be picked; clicking the
      selected day again clears the date.
     */
    method SelectDate(d: Option<int>, now: int) returns (accepted: bool)
      requires Valid() && directory.isModalOpen
      modifies this
      ensures Valid() && lastFired == old(lastFired)
      ensures accepted <==> d.None? || !DateDisabled(d.value, now)
      ensures date == (if accepted then d else old(date))
      ensures selectedTimeSlot == old(selectedTimeSlot) && isBooking == old(isBooking) && pending == old(pending)
    {
      accepted := d.None? || !DateDisabled(d.value, now);
      if accepted {
        date := d;
      }
    }

    /** The radio group's `onValueChange`: only the eleven labels exist as radio items. */
    method SelectTimeSlot(slot: string) returns (accepted: bool)
      requires Valid() && directory.isModalOpen
      modifies this
      ensures Valid() && lastFired == old(lastFired)
      ensures accepted <==> slot in TimeSlots
      ensures selectedTimeSlot == (if accepted then Some(slot) else old(selectedTimeSlot))
      ensures date == old(date) && isBooking == old(isBooking) && pending == old(pending)
    {
      accepted := slot in TimeSlots;
      if accepted {
        selectedTimeSlot := Some(slot);
      }
    }

    /**
      `handleBookAppointment`: without a date or a slot it returns at once;
      otherwise it sets the busy flag and schedules a submission of the
      current doctor, date and slot. It does not look at `isBooking` itself.
     */
    method HandleBookAppointment()
      requires directory.selectedDoctor.Some? && directory.isModalOpen
      modifies this
      ensures lastFired == old(lastFired)
      ensures date == old(date) && selectedTimeSlot == old(selectedTimeSlot)
      ensures old(date).None? || old(selectedTimeSlot).None? ==>
        isBooking == old(isBooking) && pending == old(pending)
      ensures old(date).Some? && old(selectedTimeSlot).Some? ==>
        isBooking &&
        pending == old(pending) + [Submission(directory.selectedDoctor.value, old(date).value, old(selectedTimeSlot).value)]
    {
      if date.None? || selectedTimeSlot.None? {
        return;
      }
      isBooking := true;
      pending := pending + [Submission(directory.selectedDoctor.value, date.value, selectedTimeSlot.value)];
    }

    /** A click on the confirm button, which is disabled unless `ConfirmEnabled()`. */
    method ClickConfirm()
      requires Valid() && directory.isModalOpen
      modifies this
      ensures Valid() && lastFired == old(lastFired)
      ensures date == old(date) && selectedTimeSlot == old(selectedTimeSlot)
      ensures old(ConfirmEnabled()) ==>
        isBooking && pending == [Submission(directory.selectedDoctor.value, date.value, selectedTimeSlot.value)]
      ensures !old(ConfirmEnabled()) ==> isBooking == old(isBooking) && pending == old(pending)
    {
      if ConfirmEnabled() {
        HandleBookAppointment();
      }
    }

    /**
      The timer fires at instant `now`, later than any earlier clock reading:
      the captured submission becomes a confirmed appointment at the end of
      the store, with an id no stored appointment has; the busy flag clears
      and the dialog closes.
     */
    method CompleteSubmit(now: nat)
      requires Valid()
      requires pending != []
      requires now > lastFired
      modifies this, store, directory
      ensures Valid() && lastFired == now
      ensures store.appointments == old(store.appointments) + [Booked(old(pending[0]), now)]
      ensures forall a :: a in old(store.appointments) ==> a.id != AppointmentId(now)
      ensures IdsDistinct(store.appointments)
      ensures !isBooking && pending == []
      ensures date == old(date) && selectedTimeSlot == old(selectedTimeSlot)
      ensures !directory.isModalOpen && directory.selectedDoctor == old(directory.selectedDoctor)
      ensures directory.CurrentCriteria() == old(directory.CurrentCriteria())
    {
      var s := pending[0];
      BookedValid(s, now);
      forall a | a in store.appointments
        ensures a.id != AppointmentId(now)
      {
        var n: nat :| n <= lastFired && a.id == AppointmentId(n);
        AppointmentIdInjective(n, now);
      }
      IdsDistinctAppend(store.appointments, Booked(s, now));
      assert IssuedBy(Booked(s, now), now);
      store.AddAppointment(Booked(s, now));
      lastFired := now;
      isBooking := false;
      pending := pending[1..];
      directory.CloseModal();
    }

    /** The cancel button, or closing the dialog: `onClose` only, the store is not touched. */
    method Close()
      requires Valid() && directory.isModalOpen
      modifies directory
      ensures Valid()
      ensures !directory.isModalOpen && directory.selectedDoctor == old(directory.selectedDoctor)
      ensures directory.CurrentCriteria() == old(directory.CurrentCriteria())
      ensures store.appointments == old(store.appointments)
      ensures date == old(date) && selectedTimeSlot == old(selectedTimeSlot)
      ensures isBooking == old(isBooking) && pending == old(pending)
    {
      directory.CloseModal();
    }
  }

  /**
    A click on the book button of a catalog doctor with free slots on a fresh
    directory, and the dialog's first render.
   */
  method OpenBooking(d: Doctor, now: int) returns (directory: DirectoryView, store: AppointmentState, modal: BookingState)
    requires d in MockDoctors && d.availableSlots > 0
    ensures fresh(directory) && fresh(store) && fresh(modal)
    ensures modal.Valid() && modal.directory == directory && modal.store == store
    ensures directory.isModalOpen && directory.selectedDoctor == Some(d) && store.appointments == []
    ensures directory.CurrentCriteria() == Criteria("", All, All)
    ensures modal.date == Some(now) && modal.selectedTimeSlot == None && !modal.isBooking && modal.pending == []
    ensures modal.lastFired == now
  {
    directory := new DirectoryView();
    EmptySearchKeepsAll(MockDoctors);
    directory.ClickBook(d);
    store := new AppointmentState();
    modal := new BookingState(directory, store, now);
  }

  /** The dialog opened for `d`, then a date and a time slot picked, both accepted. */
  method ChooseDateAndSlot(d: Doctor, day: int, slot: string, now: int)
    returns (directory: DirectoryView, store: AppointmentState, modal: BookingState)
    requires d in MockDoctors && d.availableSlots > 0
    requires !DateDisabled(day, now) && slot in TimeSlots
    ensures fresh(directory) && fresh(store) && fresh(modal)
    ensures modal.Valid() && modal.directory == directory && modal.store == store
    ensures directory.isModalOpen && directory.selectedDoctor == Some(d) && store.appointments == []
    ensures modal.date == Some(day) && modal.selectedTimeSlot == Some(slot)
    ensures !modal.isBooking && modal.pending == [] && modal.lastFired == now
  {
    directory, store, modal := OpenBooking(d, now);
    var dateOk := modal.SelectDate(Some(day), now);
    var slotOk := modal.SelectTimeSlot(slot);
  }

  /**
    A double click on an enabled confirm button: the first click schedules a
    submission and disables the button, so the second click changes nothing.
   */
  method DoubleClickConfirm(modal: BookingState)
    requires modal.Valid() && modal.ConfirmEnabled() && modal.directory.isModalOpen
    modifies modal
    ensures modal.Valid() && modal.isBooking && modal.lastFired == old(modal.lastFired)
    ensures modal.date == old(modal.date) && modal.selectedTimeSlot == old(modal.selectedTimeSlot)
    ensures modal.pending == [Submission(modal.directory.selectedDoctor.value, modal.date.value, modal.selectedTimeSlot.value)]
  {
    modal.ClickConfirm();
    modal.ClickConfirm();
  }

  /**
    Book Dr. Michael Chen ten days out at "2:00 PM", clicking confirm twice:
    the second click hits a disabled button, and exactly one confirmed
    appointment is stored once the timer fires at `later`.
   */
  method BookTenDaysOut(now: nat, later: nat) returns (booked: seq<Appointment>)
    requires later > now
    ensures booked == [Appointment(AppointmentId(later), Doctor2, StartOfDay(now) + 10 * DayMs, "2:00 PM", Confirmed)]
  {
    var day := StartOfDay(now) + 10 * DayMs;
    TenDaysOutSelectable(now);
    var directory, store, modal := ChooseDateAndSlot(Doctor2, day, "2:00 PM", now);
    DoubleClickConfirm(modal);
    modal.CompleteSubmit(later);
    booked := store.appointments;
  }

  /**
    The date is checked only when it is picked. Confirming the first
    render's default date, with the timer firing a day or more later,
    stores a date the calendar now disables.
   */
  method StaleDefaultDateStored(now: nat, later: nat) returns (booked: seq<Appointment>)
    requires later >= now + DayMs
    ensures booked == [Appointment(AppointmentId(later), Doctor1, now, "9:00 AM", Confirmed)]
    ensures DateDisabled(booked[0].date, later)
  {
    var directory, store, modal := OpenBooking(Doctor1, now);
    var slotOk := modal.SelectTimeSlot("9:00 AM");
    modal.ClickConfirm();
    modal.CompleteSubmit(later);
    booked := store.appointments;
  }

  /** Confirm without a slot does nothing, and cancelling leaves the store empty. */
  method CancelWithoutSlot(now: nat) returns (busy: bool, booked: seq<Appointment>, open: bool)
    ensures !busy && booked == [] && !open
  {
    var directory, store, modal := OpenBooking(Doctor1, now);
    modal.ClickConfirm();
    busy := modal.isBooking;
    modal.Close();
    booked := store.appointments;
    open := directory.isModalOpen;
  }

  /**
    The handler has no busy check of its own: run twice with a date and a
    slot it schedules two submissions. Only the disabled button prevents a
    second booking.
   */
  method HandlerTwiceSchedulesTwo(now: nat) returns (scheduled: int, busy: bool)
    ensures scheduled == 2 && busy
  {
    var directory, store, modal := OpenBooking(Doctor1, now);
    var slotOk := modal.SelectTimeSlot("9:00 AM");
    modal.HandleBookAppointment();
    modal.HandleBookAppointment();
    scheduled := |modal.pending|;
    busy := modal.isBooking;
  }

  /** A fully booked doctor's button is disabled: the dialog never opens for doctor-3. */
  method FullyBookedStaysClosed() returns (open: bool, selected: Option<Doctor>)
    ensures !open && selected == None
  {
    var directory := new DirectoryView();
    EmptySearchKeepsAll(MockDoctors);
    directory.ClickBook(Doctor3);
    open := directory.isModalOpen;
    selected := directory.selectedDoctor;
  }
}
