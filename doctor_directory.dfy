/**
  The doctor directory (components/doctor-directory.tsx): the filter over the
  catalog, the derived specialty options, and the view state that opens the
  booking modal.
 */
module DoctorDirectory {
  import opened Wrappers
  import opened Types
  import opened Text
  import opened Sequences
  import opened DoctorStore

  /** The sentinel of the specialty and availability selectors. */
  const All := "all"
  const Available := "available"
  const Unavailable := "unavailable"

  /** The three filter inputs of the directory. */
  datatype Criteria = Criteria(searchTerm: string, specialty: string, availability: string)

  /**
    Case-insensitive substring match against the name or the specialty;
    `MatchesSearchLowered` shows it is the source's `toLowerCase().includes(...)`.
   */
  predicate MatchesSearch(d: Doctor, searchTerm: string) {
    IncludesIgnoringCase(d.name, searchTerm) || IncludesIgnoringCase(d.specialty, searchTerm)
  }

  /** The search predicate, written as the source writes it. */
  lemma MatchesSearchLowered(d: Doctor, searchTerm: string)
    ensures MatchesSearch(d, searchTerm) <==>
      Includes(LowerStr(d.name), LowerStr(searchTerm)) || Includes(LowerStr(d.specialty), LowerStr(searchTerm))
  {
    IncludesLowerIff(d.name, searchTerm);
    IncludesLowerIff(d.specialty, searchTerm);
  }

  /** `"all"`, or an exact, case-sensitive specialty. */
  predicate MatchesSpecialty(d: Doctor, specialty: string)
    ensures specialty == All ==> MatchesSpecialty(d, specialty)
    ensures specialty != All ==> (MatchesSpecialty(d, specialty) <==> d.specialty == specialty)
  {
    specialty == All || d.specialty == specialty
  }

  /** The three-way availability selector; any other selector value matches nothing. */
  predicate MatchesAvailability(d: Doctor, availability: string)
    ensures availability == All ==> MatchesAvailability(d, availability)
    ensures availability !in {All, Available, Unavailable} ==> !MatchesAvailability(d, availability)
    ensures availability == Available && d.availableSlots >= 0 ==> (MatchesAvailability(d, availability) <==> BookEnabled(d))
    ensures availability == Unavailable ==> (MatchesAvailability(d, availability) <==> !BookEnabled(d))
  {
    availability == All ||
    (availability == Available && d.availableSlots > 0) ||
    (availability == Unavailable && d.availableSlots == 0)
  }

  predicate Matches(d: Doctor, c: Criteria) {
    MatchesSearch(d, c.searchTerm) && MatchesSpecialty(d, c.specialty) && MatchesAvailability(d, c.availability)
  }

  /** `doctors.filter(...)`: the matching doctors in catalog order. */
  function FilteredDoctors(ds: seq<Doctor>, c: Criteria): (r: seq<Doctor>)
    ensures |r| <= |ds|
    ensures forall d :: d in r <==> d in ds && Matches(d, c)
  {
    if ds == [] then []
    else (if Matches(ds[0], c) then [ds[0]] else []) + FilteredDoctors(ds[1..], c)
  }

  /** One unfolding step of the filter, stated for a list given as head and tail. */
  lemma FilteredCons(d: Doctor, ds: seq<Doctor>, c: Criteria)
    ensures FilteredDoctors([d] + ds, c) == (if Matches(d, c) then [d] else []) + FilteredDoctors(ds, c)
  {
    assert ([d] + ds)[1..] == ds;
  }

  /** A doctor that does not match drops out of the suffix starting at it. */
  lemma FilteredSkip(ds: seq<Doctor>, k: nat, c: Criteria)
    requires k < |ds| && !Matches(ds[k], c)
    ensures FilteredDoctors(ds[k..], c) == FilteredDoctors(ds[k + 1..], c)
  {
    assert ds[k..][1..] == ds[k + 1..];
  }

  /** Filtering distributes over concatenation. */
  lemma {:induction false} FilteredConcat(a: seq<Doctor>, b: seq<Doctor>, c: Criteria)
    ensures FilteredDoctors(a + b, c) == FilteredDoctors(a, c) + FilteredDoctors(b, c)
  {
    if a != [] {
      assert a + b == [a[0]] + (a[1..] + b);
      FilteredCons(a[0], a[1..] + b, c);
      FilteredConcat(a[1..], b, c);
      FilteredCons(a[0], a[1..], c);
      assert a == [a[0]] + a[1..];
    } else {
      assert a + b == b;
    }
  }

  /** The result is a subsequence of the catalog: nothing added, nothing reordered. */
  lemma {:induction false} FilteredIsSubsequence(ds: seq<Doctor>, c: Criteria)
    ensures IsSubsequence(FilteredDoctors(ds, c), ds)
  {
    if ds != [] {
      FilteredIsSubsequence(ds[1..], c);
      var r, rest := FilteredDoctors(ds, c), FilteredDoctors(ds[1..], c);
      if Matches(ds[0], c) {
        assert r == [ds[0]] + rest;
        assert r[0] == ds[0] && r[1..] == rest;
      } else {
        assert r == rest;
      }
    }
  }

  /** Each matching doctor keeps its multiplicity, each other doctor is dropped. */
  lemma {:induction false} FilteredMultiplicity(ds: seq<Doctor>, c: Criteria, d: Doctor)
    ensures multiset(FilteredDoctors(ds, c))[d] == if Matches(d, c) then multiset(ds)[d] else 0
  {
    if ds != [] {
      FilteredMultiplicity(ds[1..], c, d);
      assert ds == [ds[0]] + ds[1..];
    }
  }

  /** Filtering a filtered list again with the same criteria changes nothing. */
  lemma {:induction false} FilteredIdempotent(ds: seq<Doctor>, c: Criteria)
    ensures FilteredDoctors(FilteredDoctors(ds, c), c) == FilteredDoctors(ds, c)
  {
    if ds != [] {
      FilteredIdempotent(ds[1..], c);
      var rest := FilteredDoctors(ds[1..], c);
      if Matches(ds[0], c) {
        assert FilteredDoctors(ds, c) == [ds[0]] + rest;
        FilteredCons(ds[0], rest, c);
      } else {
        assert FilteredDoctors(ds, c) == rest;
      }
    }
  }

  /** An empty search with both selectors at "all" shows the whole catalog. */
  lemma {:induction false} EmptySearchKeepsAll(ds: seq<Doctor>)
    ensures FilteredDoctors(ds, Criteria("", All, All)) == ds
  {
    if ds != [] {
      EmptySearchMatches(ds[0]);
      EmptySearchKeepsAll(ds[1..]);
    }
  }

  /** The empty search term matches every doctor. */
  lemma EmptySearchMatches(d: Doctor)
    ensures MatchesSearch(d, "")
  {
    assert MatchesAtIgnoringCase(d.name, "", 0, 0);
  }

  /** With an empty search and every specialty, "available" keeps exactly the doctors with slots. */
  lemma AvailableWithoutSearch(ds: seq<Doctor>)
    ensures forall d :: d in FilteredDoctors(ds, Criteria("", All, Available)) <==> d in ds && d.availableSlots > 0
  {
    forall d | d in ds ensures MatchesSearch(d, "") {
      EmptySearchMatches(d);
    }
  }

  /** The search term matters only through its lower-case form. */
  lemma {:induction false} SearchIgnoresCase(ds: seq<Doctor>, t1: string, t2: string, s: string, a: string)
    requires LowerStr(t1) == LowerStr(t2)
    ensures FilteredDoctors(ds, Criteria(t1, s, a)) == FilteredDoctors(ds, Criteria(t2, s, a))
  {
    if ds != [] {
      IncludesSameLower(ds[0].name, t1, t2);
      IncludesSameLower(ds[0].specialty, t1, t2);
      SearchIgnoresCase(ds[1..], t1, t2, s, a);
    }
  }

  /**
    With specialty "all" and a non-sentinel specialty `s`, the second result is
    the first one restricted to the doctors whose specialty is exactly `s`.
   */
  lemma {:induction false} SpecialtyNarrows(ds: seq<Doctor>, t: string, s: string, a: string)
    ensures forall d :: d in FilteredDoctors(ds, Criteria(t, s, a)) <==>
      d in FilteredDoctors(ds, Criteria(t, All, a)) && (s == All || d.specialty == s)
    ensures s != All ==> forall d :: d in FilteredDoctors(ds, Criteria(t, s, a)) ==> d.specialty == s
  {
  }

  /**
    For fixed search and specialty, and slot counts that are non-negative, the
    "available" and "unavailable" results are disjoint and together make up
    the "all" result.
   */
  lemma {:induction false} AvailabilityPartition(ds: seq<Doctor>, t: string, s: string)
    requires forall d :: d in ds ==> d.availableSlots >= 0
    ensures multiset(FilteredDoctors(ds, Criteria(t, s, Available))) +
            multiset(FilteredDoctors(ds, Criteria(t, s, Unavailable))) ==
            multiset(FilteredDoctors(ds, Criteria(t, s, All)))
    ensures forall d :: !(d in FilteredDoctors(ds, Criteria(t, s, Available)) &&
                          d in FilteredDoctors(ds, Criteria(t, s, Unavailable)))
  {
    if ds != [] {
      var h, tail := ds[0], ds[1..];
      var cA, cU, cAll := Criteria(t, s, Available), Criteria(t, s, Unavailable), Criteria(t, s, All);
      AvailabilityPartition(tail, t, s);
      assert FilteredDoctors(ds, cA) == (if Matches(h, cA) then [h] else []) + FilteredDoctors(tail, cA);
      assert FilteredDoctors(ds, cU) == (if Matches(h, cU) then [h] else []) + FilteredDoctors(tail, cU);
      assert FilteredDoctors(ds, cAll) == (if Matches(h, cAll) then [h] else []) + FilteredDoctors(tail, cAll);
      assert Matches(h, cAll) <==> (Matches(h, cA) || Matches(h, cU));
      assert !(Matches(h, cA) && Matches(h, cU));
    }
  }

  /** A specialty no doctor has selects nobody. */
  lemma {:induction false} SpecialtyAbsentSelectsNone(ds: seq<Doctor>, t: string, s: string, a: string)
    requires s != All
    requires forall d :: d in ds ==> d.specialty != s
    ensures FilteredDoctors(ds, Criteria(t, s, a)) == []
  {
    if ds != [] {
      SpecialtyAbsentSelectsNone(ds[1..], t, s, a);
    }
  }

  /**
    When specialties are pairwise distinct, selecting the specialty of `ds[i]`
    with an empty search and "all" availability shows `ds[i]` alone.
   */
  lemma {:induction false} UniqueSpecialtySelects(ds: seq<Doctor>, i: int)
    requires 0 <= i < |ds|
    requires forall j, k :: 0 <= j < k < |ds| ==> ds[j].specialty != ds[k].specialty
    requires ds[i].specialty != All
    ensures FilteredDoctors(ds, Criteria("", ds[i].specialty, All)) == [ds[i]]
  {
    var s := ds[i].specialty;
    if i == 0 {
      forall d | d in ds[1..] ensures d.specialty != s {
        var k :| 0 <= k < |ds[1..]| && ds[1..][k] == d;
        assert d == ds[k + 1];
      }
      SpecialtyAbsentSelectsNone(ds[1..], "", s, All);
      EmptySearchMatches(ds[0]);
    } else {
      UniqueSpecialtySelects(ds[1..], i - 1);
      assert ds[1..][i - 1] == ds[i];
    }
  }

  /** The sizes of the "available" and "unavailable" results add up to the size of the "all" result. */
  lemma AvailabilityCounts(ds: seq<Doctor>, t: string, s: string)
    requires forall d :: d in ds ==> d.availableSlots >= 0
    ensures |FilteredDoctors(ds, Criteria(t, s, Available))| + |FilteredDoctors(ds, Criteria(t, s, Unavailable))| ==
            |FilteredDoctors(ds, Criteria(t, s, All))|
  {
    AvailabilityPartition(ds, t, s);
    var a, u, all := FilteredDoctors(ds, Criteria(t, s, Available)), FilteredDoctors(ds, Criteria(t, s, Unavailable)),
      FilteredDoctors(ds, Criteria(t, s, All));
    assert |multiset(a)| == |a| && |multiset(u)| == |u| && |multiset(all)| == |all|;
  }

  /** `doctors.map((doctor) => doctor.specialty)`. */
  function SpecialtyColumn(ds: seq<Doctor>): (r: seq<string>)
    ensures |r| == |ds|
    ensures forall i :: 0 <= i < |ds| ==> r[i] == ds[i].specialty
  {
    if ds == [] then [] else [ds[0].specialty] + SpecialtyColumn(ds[1..])
  }

  /** The elements of a JavaScript `Set` built from `s`, in insertion order. */
  function DistinctInOrder(s: seq<string>): (r: seq<string>)
    ensures forall x :: x in r <==> x in s
    ensures NoDuplicates(r)
    decreases |s|
  {
    if s == [] then []
    else
      var p := DistinctInOrder(s[..|s| - 1]);
      if s[|s| - 1] in p then p else p + [s[|s| - 1]]
  }

  /** The distinct elements appear in the order of their first appearance in `s`. */
  lemma {:induction false} DistinctInOrderFirstAppearance(s: seq<string>)
    ensures forall i, j :: 0 <= i < j < |DistinctInOrder(s)| ==>
      FirstIndex(s, DistinctInOrder(s)[i]) < FirstIndex(s, DistinctInOrder(s)[j])
    decreases |s|
  {
    if s != [] {
      var init, last := s[..|s| - 1], s[|s| - 1];
      assert s == init + [last];
      DistinctInOrderFirstAppearance(init);
      var p, r := DistinctInOrder(init), DistinctInOrder(s);
      forall i, j | 0 <= i < j < |r|
        ensures FirstIndex(s, r[i]) < FirstIndex(s, r[j])
      {
        FirstIndexAppend(init, last, r[i]);
        if j < |p| {
          FirstIndexAppend(init, last, r[j]);
        } else {
          assert r[j] == last && last !in init;
          assert s[..|init|] == init;
          assert FirstIndex(s, last) == |init|;
        }
      }
    }
  }

  /** `["all", ...new Set(doctors.map((doctor) => doctor.specialty))]`. */
  function Specialties(ds: seq<Doctor>): (r: seq<string>)
    ensures |r| >= 1 && r[0] == All
    ensures forall x :: x in r[1..] <==> exists d :: d in ds && d.specialty == x
    ensures NoDuplicates(r[1..])
  {
    var column := SpecialtyColumn(ds);
    var options := DistinctInOrder(column);
    assert forall x :: x in column <==> exists d :: d in ds && d.specialty == x by {
      forall x | x in column ensures exists d :: d in ds && d.specialty == x {
        var i :| 0 <= i < |column| && column[i] == x;
        assert ds[i] in ds;
      }
      forall d | d in ds ensures d.specialty in column {
        var i :| 0 <= i < |ds| && ds[i] == d;
        assert column[i] == d.specialty;
      }
    }
    assert ([All] + options)[1..] == options;
    [All] + options
  }

  /** On a duplicate-free list, taking the distinct elements changes nothing. */
  lemma {:induction false} DistinctInOrderOfDistinct(s: seq<string>)
    requires NoDuplicates(s)
    ensures DistinctInOrder(s) == s
  {
    if s != [] {
      var init := s[..|s| - 1];
      DistinctInOrderOfDistinct(init);
      assert s[|s| - 1] !in init by {
        forall k | 0 <= k < |init| ensures init[k] != s[|s| - 1] {
          assert init[k] == s[k];
        }
      }
      assert init + [s[|s| - 1]] == s;
    }
  }

  /** With pairwise distinct specialties the menu is "all" followed by the specialty column. */
  lemma SpecialtiesOfDistinct(ds: seq<Doctor>)
    requires forall j, k :: 0 <= j < k < |ds| ==> ds[j].specialty != ds[k].specialty
    ensures Specialties(ds) == [All] + SpecialtyColumn(ds)
  {
    DistinctInOrderOfDistinct(SpecialtyColumn(ds));
  }

  /** The book button of a card is disabled when the doctor has no slots. */
  predicate BookEnabled(d: Doctor)
    ensures d.availableSlots >= 0 ==> (BookEnabled(d) <==> d.availableSlots > 0)
  {
    d.availableSlots != 0
  }

  /** A doctor the dialog can be open for: one from the catalog with free slots. */
  predicate Bookable(d: Doctor) {
    d in UseDoctors() && d.availableSlots > 0
  }

  /** The directory's React state. */
  class DirectoryView {
    var searchTerm: string
    var specialty: string
    var availability: string
    var selectedDoctor: Option<Doctor>
    var isModalOpen: bool

    /** A selected doctor comes from the catalog and has slots; an open modal has a doctor. */
    ghost predicate Valid()
      reads this
    {
      (selectedDoctor.Some? ==> Bookable(selectedDoctor.value)) &&
      (isModalOpen ==> selectedDoctor.Some?)
    }

    function CurrentCriteria(): Criteria
      reads this
    {
      Criteria(searchTerm, specialty, availability)
    }

    /** The cards on screen. */
    function Shown(): seq<Doctor>
      reads this
    {
      FilteredDoctors(UseDoctors(), CurrentCriteria())
    }

    constructor()
      ensures Valid()
      ensures searchTerm == "" && specialty == All && availability == All
      ensures selectedDoctor == None && !isModalOpen
    {
      searchTerm := "";
      specialty := All;
      availability := All;
      selectedDoctor := None;
      isModalOpen := false;
    }

    method SetSearchTerm(t: string)
      requires Valid()
      modifies this
      ensures Valid()
      ensures searchTerm == t && specialty == old(specialty) && availability == old(availability)
      ensures selectedDoctor == old(selectedDoctor) && isModalOpen == old(isModalOpen)
    {
      searchTerm := t;
    }

    method SetSpecialty(s: string)
      requires Valid()
      modifies this
      ensures Valid()
      ensures specialty == s && searchTerm == old(searchTerm) && availability == old(availability)
      ensures selectedDoctor == old(selectedDoctor) && isModalOpen == old(isModalOpen)
    {
      specialty := s;
    }

    method SetAvailability(a: string)
      requires Valid()
      modifies this
      ensures Valid()
      ensures availability == a && searchTerm == old(searchTerm) && specialty == old(specialty)
      ensures selectedDoctor == old(selectedDoctor) && isModalOpen == old(isModalOpen)
    {
      availability := a;
    }

    /** `handleBookAppointment`: select the doctor and open the modal. */
    method HandleBookAppointment(d: Doctor)
      modifies this
      ensures selectedDoctor == Some(d) && isModalOpen
      ensures CurrentCriteria() == old(CurrentCriteria())
    {
      selectedDoctor := Some(d);
      isModalOpen := true;
    }

    /**
      A click on the book button of a card on screen. The button is disabled
      for a doctor without slots, so the modal only ever opens for a doctor
      with `availableSlots > 0`.
     */
    method ClickBook(d: Doctor)
      requires Valid()
      requires d in Shown()
      modifies this
      ensures Valid()
      ensures BookEnabled(d) ==> selectedDoctor == Some(d) && isModalOpen
      ensures !BookEnabled(d) ==> selectedDoctor == old(selectedDoctor) && isModalOpen == old(isModalOpen)
      ensures isModalOpen ==> selectedDoctor.Some? && selectedDoctor.value.availableSlots > 0
      ensures CurrentCriteria() == old(CurrentCriteria())
    {
      CatalogCountsNonNegative();
      if BookEnabled(d) {
        HandleBookAppointment(d);
      }
    }

    /** The modal's `onClose`: close it, keeping the selected doctor. */
    method CloseModal()
      requires Valid()
      modifies this
      ensures Valid()
      ensures !isModalOpen && selectedDoctor == old(selectedDoctor)
      ensures CurrentCriteria() == old(CurrentCriteria())
    {
      isModalOpen := false;
    }
  }
}
