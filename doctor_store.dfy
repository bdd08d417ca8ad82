/**
  The doctor catalog (store/doctor-store.ts): a constant list of nine seeded
  doctors, read through `useDoctors` and never changed.
 */
module DoctorStore {
  import opened Types
  import Decimal

  const Doctor1 := Doctor("doctor-1", "Dr. Sarah Johnson", "Cardiology",
    "/placeholder.svg?height=200&width=200", 48, 124, "New York Medical Center", 5,
    ["Heart Specialist", "Preventive Care"])
  const Doctor2 := Doctor("doctor-2", "Dr. Michael Chen", "Dermatology",
    "/placeholder.svg?height=200&width=200", 47, 98, "Skin Health Clinic", 3,
    ["Skin Cancer", "Cosmetic Dermatology"])
  const Doctor3 := Doctor("doctor-3", "Dr. Emily Rodriguez", "Pediatrics",
    "/placeholder.svg?height=200&width=200", 49, 156, "Children's Wellness Center", 0,
    ["Child Development", "Vaccinations"])
  const Doctor4 := Doctor("doctor-4", "Dr. James Wilson", "Orthopedics",
    "/placeholder.svg?height=200&width=200", 46, 87, "Joint & Spine Institute", 2,
    ["Sports Medicine", "Joint Replacement"])
  const Doctor5 := Doctor("doctor-5", "Dr. Aisha Patel", "Neurology",
    "/placeholder.svg?height=200&width=200", 49, 112, "Brain & Nerve Center", 4,
    ["Headache Specialist", "Stroke Care"])
  const Doctor6 := Doctor("doctor-6", "Dr. Robert Kim", "Psychiatry",
    "/placeholder.svg?height=200&width=200", 47, 76, "Mental Health Associates", 6,
    ["Anxiety", "Depression"])
  const Doctor7 := Doctor("doctor-7", "Dr. Lisa Thompson", "Gynecology",
    "/placeholder.svg?height=200&width=200", 48, 143, "Women's Health Clinic", 0,
    ["Prenatal Care", "Women's Health"])
  const Doctor8 := Doctor("doctor-8", "Dr. David Martinez", "Ophthalmology",
    "/placeholder.svg?height=200&width=200", 45, 92, "Vision Care Center", 3,
    ["Cataract Surgery", "Glaucoma"])
  const Doctor9 := Doctor("doctor-9", "Dr. Jennifer Lee", "Endocrinology",
    "/placeholder.svg?height=200&width=200", 46, 68, "Diabetes & Hormone Center", 4,
    ["Diabetes", "Thyroid Disorders"])

  /** `mockDoctors`, in catalog order. */
  const MockDoctors: seq<Doctor> :=
    [Doctor1, Doctor2, Doctor3, Doctor4, Doctor5, Doctor6, Doctor7, Doctor8, Doctor9]

  /**
    The `doctors` field of the store. The store is created from `mockDoctors`
    and has no setter, so every read yields the seed.
   */
  function UseDoctors(): (doctors: seq<Doctor>)
    ensures |doctors| == 9
    ensures forall i :: 0 <= i < 9 ==> doctors[i].id == "doctor-" + Decimal.DecimalString(i + 1)
  {
    MockDoctors
  }

  /** All ids are distinct. */
  lemma CatalogIdsDistinct()
    ensures forall i, j :: 0 <= i < j < |MockDoctors| ==> MockDoctors[i].id != MockDoctors[j].id
  {
    forall i, j | 0 <= i < j < |MockDoctors|
      ensures MockDoctors[i].id != MockDoctors[j].id
    {
      assert MockDoctors[i].id[7] != MockDoctors[j].id[7];
    }
  }

  /** Slot and review counts of the seed are non-negative. */
  lemma CatalogCountsNonNegative()
    ensures forall d :: d in MockDoctors ==> d.availableSlots >= 0 && d.reviewCount >= 0
  {
  }

  /** Exactly doctor-3 and doctor-7 are fully booked. */
  lemma CatalogFullyBooked()
    ensures forall d :: d in MockDoctors ==> (d.availableSlots == 0 <==> d.id == "doctor-3" || d.id == "doctor-7")
  {
  }

  /** The nine specialties are pairwise distinct. */
  lemma CatalogSpecialtiesDistinct()
    ensures forall i, j :: 0 <= i < j < |MockDoctors| ==> MockDoctors[i].specialty != MockDoctors[j].specialty
  {
  }
}
