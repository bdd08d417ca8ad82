/**
  ASCII stand-ins for the JavaScript string operations the doctor search uses:
  `toLowerCase` (restricted to the letters A-Z) and `includes` (substring test).
 */
module Text {

  /** `toLowerCase` on one character, for the ASCII letters only. */
  function Lower(c: char): char {
    if 'A' <= c <= 'Z' then (c as int + 32) as char else c
  }

  /** `toLowerCase` on a string, character by character. */
  function LowerStr(s: string): (r: string)
    ensures |r| == |s|
    ensures forall i :: 0 <= i < |s| ==> r[i] == Lower(s[i])
  {
    if s == [] then [] else [Lower(s[0])] + LowerStr(s[1..])
  }

  /** The characters `sub[k..]` sit in `s` from offset `i + k` on. */
  predicate MatchesAt(s: string, sub: string, i: nat, k: nat)
    requires i + |sub| <= |s| && k <= |sub|
    decreases |sub| - k
  {
    k == |sub| || (s[i + k] == sub[k] && MatchesAt(s, sub, i, k + 1))
  }

  /** `sub` occurs in `s` at some offset `i` or later. */
  predicate IncludesFrom(s: string, sub: string, i: nat)
    decreases |s| - i
  {
    i + |sub| <= |s| && (MatchesAt(s, sub, i, 0) || IncludesFrom(s, sub, i + 1))
  }

  /** `s.includes(sub)`. */
  predicate Includes(s: string, sub: string) {
    IncludesFrom(s, sub, 0)
  }

  /** `sub` occurs in `s` starting at offset `i`. */
  predicate OccursAt(s: string, sub: string, i: int) {
    0 <= i <= |s| - |sub| && s[i..i + |sub|] == sub
  }

  lemma {:induction false} MatchesAtIff(s: string, sub: string, i: nat, k: nat)
    requires i + |sub| <= |s| && k <= |sub|
    ensures MatchesAt(s, sub, i, k) <==> s[i + k..i + |sub|] == sub[k..]
    decreases |sub| - k
  {
    if k < |sub| {
      MatchesAtIff(s, sub, i, k + 1);
      assert s[i + k..i + |sub|] == [s[i + k]] + s[i + k + 1..i + |sub|];
      assert sub[k..] == [sub[k]] + sub[k + 1..];
    }
  }

  lemma {:induction false} IncludesFromIff(s: string, sub: string, i: nat)
    ensures IncludesFrom(s, sub, i) <==> exists j :: i <= j && OccursAt(s, sub, j)
    decreases |s| - i
  {
    if i + |sub| <= |s| {
      MatchesAtIff(s, sub, i, 0);
      assert sub[0..] == sub;
      IncludesFromIff(s, sub, i + 1);
      if MatchesAt(s, sub, i, 0) {
        assert OccursAt(s, sub, i);
      }
      if exists j :: i <= j && OccursAt(s, sub, j) {
        var j :| i <= j && OccursAt(s, sub, j);
        if j == i {
          assert MatchesAt(s, sub, i, 0);
        } else {
          assert i + 1 <= j;
        }
      }
    }
  }

  /** `Includes` agrees with the positional definition of a substring. */
  lemma IncludesIff(s: string, sub: string)
    ensures Includes(s, sub) <==> exists i :: OccursAt(s, sub, i)
  {
    IncludesFromIff(s, sub, 0);
  }

  /** The empty string occurs in every string. */
  lemma IncludesEmpty(s: string)
    ensures Includes(s, "")
  {
  }

  /** Comparison of `sub[k..]` at offset `i`, both sides lower-cased per character. */
  predicate MatchesAtIgnoringCase(s: string, sub: string, i: nat, k: nat)
    requires i + |sub| <= |s| && k <= |sub|
    decreases |sub| - k
  {
    k == |sub| || (Lower(s[i + k]) == Lower(sub[k]) && MatchesAtIgnoringCase(s, sub, i, k + 1))
  }

  predicate IncludesFromIgnoringCase(s: string, sub: string, i: nat)
    decreases |s| - i
  {
    i + |sub| <= |s| && (MatchesAtIgnoringCase(s, sub, i, 0) || IncludesFromIgnoringCase(s, sub, i + 1))
  }

  /** Case-insensitive substring search. */
  predicate IncludesIgnoringCase(s: string, sub: string) {
    IncludesFromIgnoringCase(s, sub, 0)
  }

  /** `ls` and `lsub` are `s` and `sub` lower-cased character by character. */
  lemma {:induction false} MatchesAtLower(s: string, sub: string, ls: string, lsub: string, i: nat, k: nat)
    requires |ls| == |s| && forall j :: 0 <= j < |s| ==> ls[j] == Lower(s[j])
    requires |lsub| == |sub| && forall j :: 0 <= j < |sub| ==> lsub[j] == Lower(sub[j])
    requires i + |sub| <= |s| && k <= |sub|
    ensures MatchesAt(ls, lsub, i, k) <==> MatchesAtIgnoringCase(s, sub, i, k)
    decreases |sub| - k
  {
    if k < |sub| {
      MatchesAtLower(s, sub, ls, lsub, i, k + 1);
    }
  }

  lemma {:induction false} IncludesFromLower(s: string, sub: string, i: nat)
    ensures IncludesFrom(LowerStr(s), LowerStr(sub), i) <==> IncludesFromIgnoringCase(s, sub, i)
    decreases |s| - i
  {
    if i + |sub| <= |s| {
      MatchesAtLower(s, sub, LowerStr(s), LowerStr(sub), i, 0);
      IncludesFromLower(s, sub, i + 1);
    }
  }

  /**
    `s.toLowerCase().includes(sub.toLowerCase())` is a substring search that
    compares characters after lower-casing each of them.
   */
  lemma IncludesLowerIff(s: string, sub: string)
    ensures Includes(LowerStr(s), LowerStr(sub)) <==> IncludesIgnoringCase(s, sub)
  {
    IncludesFromLower(s, sub, 0);
  }

  /** `t1` and `t2` agree character by character once lower-cased. */
  predicate SameLower(t1: string, t2: string) {
    |t1| == |t2| && forall j :: 0 <= j < |t1| ==> Lower(t1[j]) == Lower(t2[j])
  }

  lemma {:induction false} MatchesAtSameLower(s: string, t1: string, t2: string, i: nat, k: nat)
    requires SameLower(t1, t2)
    requires i + |t1| <= |s| && k <= |t1|
    ensures MatchesAtIgnoringCase(s, t1, i, k) == MatchesAtIgnoringCase(s, t2, i, k)
    decreases |t1| - k
  {
    if k < |t1| {
      MatchesAtSameLower(s, t1, t2, i, k + 1);
    }
  }

  lemma {:induction false} IncludesFromSameLower(s: string, t1: string, t2: string, i: nat)
    requires SameLower(t1, t2)
    ensures IncludesFromIgnoringCase(s, t1, i) == IncludesFromIgnoringCase(s, t2, i)
    decreases |s| - i
  {
    if i + |t1| <= |s| {
      MatchesAtSameLower(s, t1, t2, i, 0);
      IncludesFromSameLower(s, t1, t2, i + 1);
    }
  }

  /** A case-insensitive search depends on the term only through its lower-case form. */
  lemma IncludesSameLower(s: string, t1: string, t2: string)
    requires LowerStr(t1) == LowerStr(t2)
    ensures IncludesIgnoringCase(s, t1) == IncludesIgnoringCase(s, t2)
  {
    forall j | 0 <= j < |t1|
      ensures Lower(t1[j]) == Lower(t2[j])
    {
      assert LowerStr(t1)[j] == LowerStr(t2)[j];
    }
    IncludesFromSameLower(s, t1, t2, 0);
  }
}
