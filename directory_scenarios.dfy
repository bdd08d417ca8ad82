/**
  The directory screen on the seeded catalog: what the filter bar and the
  specialty menu show for concrete inputs.
 */
module DirectoryScenarios {
  import opened Text
  import opened DoctorStore
  import opened DoctorDirectory

  /*
    "cardio" occurs, ignoring case, in neither the name nor the specialty of
    doctor-2 to doctor-9. One lemma per doctor keeps each evaluation small.
    The asserted offsets (such as 8 and 4) split each substring scan into
    short stretches, so that every step of the proof stays small.
   */
  lemma Doctor2MissesCardio()
    ensures !MatchesSearch(Doctor2, "cardio")
  {
    assert !IncludesIgnoringCase("Dr. Michael Chen", "cardio") by { assert !IncludesFromIgnoringCase("Dr. Michael Chen", "cardio", 8); assert !IncludesFromIgnoringCase("Dr. Michael Chen", "cardio", 4); }
    assert !IncludesIgnoringCase("Dermatology", "cardio") by { assert !IncludesFromIgnoringCase("Dermatology", "cardio", 4); }
  }

  lemma Doctor3MissesCardio()
    ensures !MatchesSearch(Doctor3, "cardio")
  {
    assert !IncludesIgnoringCase("Dr. Emily Rodriguez", "cardio") by { assert !IncludesFromIgnoringCase("Dr. Emily Rodriguez", "cardio", 12); assert !IncludesFromIgnoringCase("Dr. Emily Rodriguez", "cardio", 8); assert !IncludesFromIgnoringCase("Dr. Emily Rodriguez", "cardio", 4); }
    assert !IncludesIgnoringCase("Pediatrics", "cardio") by { assert !IncludesFromIgnoringCase("Pediatrics", "cardio", 4); }
  }

  lemma Doctor4MissesCardio()
    ensures !MatchesSearch(Doctor4, "cardio")
  {
    assert !IncludesIgnoringCase("Dr. James Wilson", "cardio") by { assert !IncludesFromIgnoringCase("Dr. James Wilson", "cardio", 8); assert !IncludesFromIgnoringCase("Dr. James Wilson", "cardio", 4); }
    assert !IncludesIgnoringCase("Orthopedics", "cardio") by { assert !IncludesFromIgnoringCase("Orthopedics", "cardio", 4); }
  }

  lemma Doctor5MissesCardio()
    ensures !MatchesSearch(Doctor5, "cardio")
  {
    assert !IncludesIgnoringCase("Dr. Aisha Patel", "cardio") by { assert !IncludesFromIgnoringCase("Dr. Aisha Patel", "cardio", 8); assert !IncludesFromIgnoringCase("Dr. Aisha Patel", "cardio", 4); }
    assert !IncludesIgnoringCase("Neurology", "cardio");
  }

  lemma Doctor6MissesCardio()
    ensures !MatchesSearch(Doctor6, "cardio")
  {
    assert !IncludesIgnoringCase("Dr. Robert Kim", "cardio") by { assert !IncludesFromIgnoringCase("Dr. Robert Kim", "cardio", 8); assert !IncludesFromIgnoringCase("Dr. Robert Kim", "cardio", 4); }
    assert !IncludesIgnoringCase("Psychiatry", "cardio") by { assert !IncludesFromIgnoringCase("Psychiatry", "cardio", 4); }
  }

  lemma Doctor7MissesCardio()
    ensures !MatchesSearch(Doctor7, "cardio")
  {
    assert !IncludesIgnoringCase("Dr. Lisa Thompson", "cardio") by { assert !IncludesFromIgnoringCase("Dr. Lisa Thompson", "cardio", 9); assert !IncludesFromIgnoringCase("Dr. Lisa Thompson", "cardio", 6); assert !IncludesFromIgnoringCase("Dr. Lisa Thompson", "cardio", 3); }
    assert !IncludesIgnoringCase("Gynecology", "cardio") by { assert !IncludesFromIgnoringCase("Gynecology", "cardio", 4); }
  }

  lemma Doctor8MissesCardio()
    ensures !MatchesSearch(Doctor8, "cardio")
  {
    assert !IncludesIgnoringCase("Dr. David Martinez", "cardio") by { assert !IncludesFromIgnoringCase("Dr. David Martinez", "cardio", 12); assert !IncludesFromIgnoringCase("Dr. David Martinez", "cardio", 8); assert !IncludesFromIgnoringCase("Dr. David Martinez", "cardio", 4); }
    assert !IncludesIgnoringCase("Ophthalmology", "cardio") by { assert !IncludesFromIgnoringCase("Ophthalmology", "cardio", 4); }
  }

  lemma Doctor9MissesCardio()
    ensures !MatchesSearch(Doctor9, "cardio")
  {
    assert !IncludesIgnoringCase("Dr. Jennifer Lee", "cardio") by { assert !IncludesFromIgnoringCase("Dr. Jennifer Lee", "cardio", 8); assert !IncludesFromIgnoringCase("Dr. Jennifer Lee", "cardio", 4); }
    assert !IncludesIgnoringCase("Endocrinology", "cardio") by { assert !IncludesFromIgnoringCase("Endocrinology", "cardio", 4); }
  }

  /** Only the first catalog entry mentions "cardio" in its name or specialty. */
  lemma CardioMissesAt(k: int)
    requires 1 <= k < |MockDoctors|
    ensures !MatchesSearch(MockDoctors[k], "cardio")
  {
    if k == 1 {
      Doctor2MissesCardio();
    } else if k == 2 {
      Doctor3MissesCardio();
    } else if k == 3 {
      Doctor4MissesCardio();
    } else if k == 4 {
      Doctor5MissesCardio();
    } else if k == 5 {
      Doctor6MissesCardio();
    } else if k == 6 {
      Doctor7MissesCardio();
    } else if k == 7 {
      Doctor8MissesCardio();
    } else if k == 8 {
      Doctor9MissesCardio();
    }
  }

  lemma LowerCardio()
    ensures LowerStr("cardio") == "cardio"
  {
  }

  /** Any spelling of "cardio" misses doctor-2 to doctor-9. */
  lemma CardioTermMissesAt(t: string, k: int)
    requires LowerStr(t) == "cardio"
    requires 1 <= k < |MockDoctors|
    ensures !Matches(MockDoctors[k], Criteria(t, All, All))
  {
    CardioMissesAt(k);
    LowerCardio();
    IncludesSameLower(MockDoctors[k].name, t, "cardio");
    IncludesSameLower(MockDoctors[k].specialty, t, "cardio");
  }

  lemma {:induction false} CardioTail(t: string, k: int)
    requires LowerStr(t) == "cardio"
    requires 1 <= k <= |MockDoctors|
    ensures FilteredDoctors(MockDoctors[k..], Criteria(t, All, All)) == []
    decreases |MockDoctors| - k
  {
    if k < |MockDoctors| {
      CardioTail(t, k + 1);
      CardioTermMissesAt(t, k);
      FilteredSkip(MockDoctors, k, Criteria(t, All, All));
    }
  }

  lemma Doctor1MatchesCardio(t: string)
    requires LowerStr(t) == "cardio"
    ensures MatchesSearch(Doctor1, t)
  {
    LowerCardio();
    assert IncludesIgnoringCase("Cardiology", "cardio");
    IncludesSameLower(Doctor1.specialty, t, "cardio");
  }

  /** Typing "cardio", in any mix of cases, leaves only Dr. Sarah Johnson. */
  lemma CardioSearch(t: string)
    requires LowerStr(t) == "cardio"
    ensures FilteredDoctors(MockDoctors, Criteria(t, All, All)) == [Doctor1]
  {
    CardioTail(t, 1);
    Doctor1MatchesCardio(t);
    assert MockDoctors[1..] == MockDoctors[0..][1..];
  }

  /** Exactly entries 2 and 6 (doctor-3 and doctor-7) have no slots. */
  lemma UnavailableAt(k: int)
    requires 0 <= k < |MockDoctors|
    ensures Matches(MockDoctors[k], Criteria("", All, Unavailable)) <==> k == 2 || k == 6
  {
    EmptySearchMatches(MockDoctors[k]);
  }

  lemma {:induction false} UnavailableTail(k: int)
    requires 0 <= k <= |MockDoctors|
    ensures FilteredDoctors(MockDoctors[k..], Criteria("", All, Unavailable)) ==
      (if k <= 2 then [Doctor3] else []) + (if k <= 6 then [Doctor7] else [])
    decreases |MockDoctors| - k
  {
    if k < |MockDoctors| {
      UnavailableTail(k + 1);
      UnavailableAt(k);
      assert MockDoctors[k..][1..] == MockDoctors[k + 1..];
    }
  }

  /** "Unavailable" shows the two fully booked doctors, in catalog order. */
  lemma UnavailableShowsFullyBooked()
    ensures FilteredDoctors(MockDoctors, Criteria("", All, Unavailable)) == [Doctor3, Doctor7]
  {
    UnavailableTail(0);
    assert MockDoctors[0..] == MockDoctors;
  }

  /** "Available" keeps exactly the doctors with slots. */
  lemma AvailableMembers()
    ensures forall d :: d in FilteredDoctors(MockDoctors, Criteria("", All, Available)) <==>
      d in MockDoctors && d.id != "doctor-3" && d.id != "doctor-7"
  {
    CatalogFullyBooked();
    CatalogCountsNonNegative();
    AvailableWithoutSearch(MockDoctors);
  }

  /** "Available" shows seven doctors: the catalog minus the two fully booked ones. */
  lemma AvailableCount()
    ensures |FilteredDoctors(MockDoctors, Criteria("", All, Available))| == 7
  {
    CatalogCountsNonNegative();
    AvailabilityCounts(MockDoctors, "", All);
    EmptySearchKeepsAll(MockDoctors);
    UnavailableShowsFullyBooked();
  }

  /** The specialty selector compares exactly: "Cardiology" finds Dr. Sarah Johnson, "cardiology" nobody. */
  lemma SpecialtyIsCaseSensitive()
    ensures FilteredDoctors(MockDoctors, Criteria("", "Cardiology", All)) == [Doctor1]
    ensures FilteredDoctors(MockDoctors, Criteria("", "cardiology", All)) == []
  {
    CatalogSpecialtiesDistinct();
    UniqueSpecialtySelects(MockDoctors, 0);
    SpecialtyAbsentSelectsNone(MockDoctors, "", "cardiology", All);
  }

  /** The specialty menu: "all" followed by the nine specialties in catalog order. */
  lemma CatalogSpecialties()
    ensures Specialties(MockDoctors) == [All] + SpecialtyColumn(MockDoctors)
    ensures |Specialties(MockDoctors)| == 10
  {
    CatalogSpecialtiesDistinct();
    SpecialtiesOfDistinct(MockDoctors);
  }
}
