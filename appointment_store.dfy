/**
  The appointment store (store/appointment-store.ts): one list of
  appointments, appended to by `addAppointment` and filtered by
  `cancelAppointment`.
 */
module AppointmentStore {
  import opened Types
  import opened Sequences

  /** `appointments.filter((app) => app.id !== id)`. */
  function WithoutId(s: seq<Appointment>, id: string): (r: seq<Appointment>)
    ensures |r| <= |s|
    ensures forall a :: a in r <==> a in s && a.id != id
  {
    if s == [] then []
    else (if s[0].id == id then [] else [s[0]]) + WithoutId(s[1..], id)
  }

  /** No two entries share an id. */
  predicate IdsDistinct(s: seq<Appointment>) {
    forall i, j :: 0 <= i < j < |s| ==> s[i].id != s[j].id
  }

  /** Appending an entry whose id no entry has keeps the ids distinct. */
  lemma IdsDistinctAppend(s: seq<Appointment>, a: Appointment)
    requires IdsDistinct(s)
    requires forall x :: x in s ==> x.id != a.id
    ensures IdsDistinct(s + [a])
  {
    var t := s + [a];
    forall i, j | 0 <= i < j < |t|
      ensures t[i].id != t[j].id
    {
      assert t[i] == s[i];
      if j < |s| {
        assert t[j] == s[j];
      } else {
        assert s[i] in s;
      }
    }
  }

  /** The survivors keep their relative order: nothing is added or moved. */
  lemma {:induction false} WithoutIdIsSubsequence(s: seq<Appointment>, id: string)
    ensures IsSubsequence(WithoutId(s, id), s)
  {
    if s != [] {
      WithoutIdIsSubsequence(s[1..], id);
      var r, rest := WithoutId(s, id), WithoutId(s[1..], id);
      if s[0].id == id {
        assert r == rest;
      } else {
        assert r == [s[0]] + rest;
        assert r[0] == s[0] && r[1..] == rest;
      }
    }
  }

  /**
    Entries are removed, never rewritten: an entry with another id keeps its
    multiplicity (its status included), every entry with the id is gone.
   */
  lemma {:induction false} WithoutIdMultiplicity(s: seq<Appointment>, id: string, a: Appointment)
    ensures multiset(WithoutId(s, id))[a] == if a.id == id then 0 else multiset(s)[a]
  {
    if s != [] {
      WithoutIdMultiplicity(s[1..], id, a);
      assert s == [s[0]] + s[1..];
    }
  }

  /** Filtering by an id nobody has changes nothing. */
  lemma {:induction false} WithoutAbsentId(s: seq<Appointment>, id: string)
    requires forall a :: a in s ==> a.id != id
    ensures WithoutId(s, id) == s
  {
    if s != [] {
      WithoutAbsentId(s[1..], id);
      assert s == [s[0]] + s[1..];
    }
  }

  /** Cancelling the same id twice is the same as cancelling it once. */
  lemma WithoutIdIdempotent(s: seq<Appointment>, id: string)
    ensures WithoutId(WithoutId(s, id), id) == WithoutId(s, id)
  {
    WithoutAbsentId(WithoutId(s, id), id);
  }

  /** Unfolding the filter on a concatenation whose left part is not empty. */
  lemma WithoutIdHead(a: seq<Appointment>, b: seq<Appointment>, id: string)
    requires a != []
    ensures WithoutId(a + b, id) == (if a[0].id == id then [] else [a[0]]) + WithoutId(a[1..] + b, id)
  {
    assert (a + b)[1..] == a[1..] + b;
  }

  /** The filter works entry by entry, so it distributes over concatenation. */
  lemma {:induction false} WithoutIdConcat(a: seq<Appointment>, b: seq<Appointment>, id: string)
    ensures WithoutId(a + b, id) == WithoutId(a, id) + WithoutId(b, id)
  {
    if a == [] {
      assert a + b == b;
    } else {
      WithoutIdHead(a, b, id);
      WithoutIdConcat(a[1..], b, id);
      var h := if a[0].id == id then [] else [a[0]];
      var x, y := WithoutId(a[1..], id), WithoutId(b, id);
      assert h + (x + y) == (h + x) + y;
    }
  }

  /** Appending an appointment with a fresh id and cancelling that id restores the list. */
  lemma AddThenCancelRestores(s: seq<Appointment>, a: Appointment)
    requires forall x :: x in s ==> x.id != a.id
    ensures WithoutId(s + [a], a.id) == s
  {
    WithoutIdConcat(s, [a], a.id);
    WithoutAbsentId(s, a.id);
  }

  /** The store's state, as the `useAppointments` hook shares it. */
  class AppointmentState {
    var appointments: seq<Appointment>

    /** The list starts empty. */
    constructor()
      ensures appointments == []
    {
      appointments := [];
    }

    /** Appends without any check: a duplicate id is accepted, the call cannot fail. */
    method AddAppointment(a: Appointment)
      modifies this
      ensures appointments == old(appointments) + [a]
      ensures |appointments| == |old(appointments)| + 1
      ensures appointments[..|old(appointments)|] == old(appointments)
    {
      appointments := appointments + [a];
    }

    /** Drops every entry carrying `id`; the others keep their order and their status. */
    method CancelAppointment(id: string)
      modifies this
      ensures appointments == WithoutId(old(appointments), id)
    {
      appointments := WithoutId(appointments, id);
    }
  }

  /** Booking an appointment into an empty store and cancelling it empties the store again. */
  method AddThenCancel(a: Appointment) returns (r: seq<Appointment>)
    ensures r == []
  {
    var store := new AppointmentState();
    store.AddAppointment(a);
    store.CancelAppointment(a.id);
    r := store.appointments;
  }

  /**
    Two appointments sharing one id are both accepted, and one cancel removes
    both, while an appointment with another id survives untouched.
   */
  method CancelRemovesEveryDuplicate(a: Appointment, b: Appointment, c: Appointment)
    returns (added: seq<Appointment>, r: seq<Appointment>)
    requires a.id == b.id && c.id != a.id
    ensures added == [a, b, c]
    ensures r == [c]
  {
    var store := new AppointmentState();
    store.AddAppointment(a);
    store.AddAppointment(b);
    store.AddAppointment(c);
    added := store.appointments;
    store.CancelAppointment(a.id);
    r := store.appointments;
    assert added[1..][1..] == [c];
  }

  /** A second cancel of the same id leaves the store as the first one did. */
  method CancelTwice(a: Appointment, b: Appointment, id: string)
    returns (once: seq<Appointment>, twice: seq<Appointment>)
    ensures once == twice
    ensures once == WithoutId([a, b], id)
    ensures forall x :: x in twice ==> (x == a || x == b) && x.id != id
  {
    var store := new AppointmentState();
    store.AddAppointment(a);
    store.AddAppointment(b);
    store.CancelAppointment(id);
    once := store.appointments;
    store.CancelAppointment(id);
    twice := store.appointments;
    WithoutIdIdempotent([a, b], id);
  }
}
