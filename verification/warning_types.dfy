/**
  `ArticleDescriptionWarningTypes`: an `OptionSet` over a Swift `Int` raw value with two
  declared flags, `length` (bit 0) and `casing` (bit 1).

  Swift's `Int` is 64 bits wide on the platforms the app runs on, so the raw value is a
  `bv64`. The set operations are those `OptionSet` supplies by default for a
  fixed-width-integer raw value: union is bitwise or, intersection bitwise and, and
  `contains(m)` holds when `self.intersection(m) == m`.

  `Members` gives the abstract view of an option set, the set of kinds of `Warning` whose
  flag it contains; the lemmas at the end tie every operation to the matching operation on
  that view.
*/
module ArticleDescriptionWarnings {
  import opened Wrappers

  datatype WarningTypes = WarningTypes(rawValue: bv64)

  /** `ArticleDescriptionWarningTypes.length`: the length warning. */
  const Length := WarningTypes(1 << 0)
  /** `ArticleDescriptionWarningTypes.casing`: the casing warning. */
  const Casing := WarningTypes(1 << 1)
  /** The empty option set `[]`. */
  const Empty := WarningTypes(0)

  /** The two kinds of warning, as an abstract view of the option set. */
  datatype Warning = LengthWarning | CasingWarning

  /** The flag that stands for each kind of warning. */
  function Flag(w: Warning): WarningTypes
  {
    match w
    case LengthWarning => Length
    case CasingWarning => Casing
  }

  /** `OptionSet.contains`: every bit of `m` is set in `s`, so or-ing `m` into `s` changes
      nothing. */
  predicate Contains(s: WarningTypes, m: WarningTypes): (r: bool)
    ensures r <==> s.rawValue | m.rawValue == s.rawValue
  {
    s.rawValue & m.rawValue == m.rawValue
  }

  predicate IsEmpty(s: WarningTypes)
  {
    s.rawValue == 0
  }

  /** The two sets share no bit. */
  predicate Disjoint(a: WarningTypes, b: WarningTypes)
  {
    a.rawValue & b.rawValue == 0
  }

  /** The set holds no bits other than the two declared flags. */
  predicate OnlyDeclaredFlags(s: WarningTypes)
  {
    s.rawValue & !3 == 0
  }

  /** `OptionSet.union`. */
  function Union(a: WarningTypes, b: WarningTypes): (r: WarningTypes)
    ensures Contains(r, a) && Contains(r, b)
  {
    WarningTypes(a.rawValue | b.rawValue)
  }

  /** `OptionSet.intersection`. */
  function Intersection(a: WarningTypes, b: WarningTypes): (r: WarningTypes)
    ensures Contains(a, r) && Contains(b, r)
  {
    WarningTypes(a.rawValue & b.rawValue)
  }

  /** The tuple `(inserted:, memberAfterInsert:)` that Swift's `insert` returns. */
  datatype InsertResult = InsertResult(inserted: bool, memberAfterInsert: WarningTypes)

  /**
    `OptionSet.insert(_:)` on a copy of `s`: the new set, and whether `m` was newly
    inserted together with the member after the insertion (`m` itself when inserted, else
    the part of `m` already present).
  */
  function Insert(s: WarningTypes, m: WarningTypes): (r: (WarningTypes, InsertResult))
    ensures r.1.inserted <==> !Contains(s, m)
    ensures r.0 == Union(s, m)
    ensures !r.1.inserted ==> r.0 == s
    ensures r.1.memberAfterInsert == m
  {
    var oldMember := Intersection(s, m);
    var shouldInsert := oldMember != m;
    var result := InsertResult(shouldInsert, if shouldInsert then m else oldMember);
    (if shouldInsert then Union(s, m) else s, result)
  }

  /** `OptionSet.subtracting`: the bits of `s` that are not in `m`. */
  function Subtracting(s: WarningTypes, m: WarningTypes): (r: WarningTypes)
    ensures Contains(s, r)
    ensures Disjoint(r, m)
  {
    WarningTypes(s.rawValue & !m.rawValue)
  }

  /**
    `OptionSet.remove(_:)` on a copy of `s`: the new set, and the Swift result, which is
    `nil` when `s` shares no bit with `m` and otherwise the shared part.
  */
  function Remove(s: WarningTypes, m: WarningTypes): (r: (WarningTypes, Option<WarningTypes>))
    ensures r.1.None? <==> Disjoint(s, m)
    ensures r.1.None? ==> r.0 == s
    ensures r.1.Some? ==> r.1.value == Intersection(s, m) && !IsEmpty(r.1.value)
  {
    var common := Intersection(s, m);
    if IsEmpty(common) then (s, None)
    else (Subtracting(s, m), Some(common))
  }

  /** Every part of `s` that shares no bit with `m` survives subtracting `m`: with
      `Subtracting`'s own contract, the result is the largest such part. */
  lemma SubtractingIsGreatest(s: WarningTypes, m: WarningTypes, t: WarningTypes)
    requires Contains(s, t) && Disjoint(t, m)
    ensures Contains(Subtracting(s, m), t)
  {
  }

  /** Subtracting a set that shares no bit with `s` leaves `s` as it was. */
  lemma SubtractingDisjoint(s: WarningTypes, m: WarningTypes)
    requires Disjoint(s, m)
    ensures Subtracting(s, m) == s
  {
  }

  /** Whether or not it finds anything to remove, `remove` leaves `s.subtracting(m)`. */
  lemma RemoveSubtracts(s: WarningTypes, m: WarningTypes)
    ensures Remove(s, m).0 == Subtracting(s, m)
  {
    if Disjoint(s, m) {
      SubtractingDisjoint(s, m);
    }
  }

  /**
    The array-literal initializer `[a, b, ...]`: starting from `[]`, insert each element in
    turn.
  */
  function FromArrayLiteral(xs: seq<WarningTypes>): (r: WarningTypes)
    ensures forall i :: 0 <= i < |xs| ==> Contains(r, xs[i])
  {
    if |xs| == 0 then Empty
    else
      var prefix := FromArrayLiteral(xs[..|xs| - 1]);
      assert forall i :: 0 <= i < |xs| - 1 ==> xs[..|xs| - 1][i] == xs[i];
      Insert(prefix, xs[|xs| - 1]).0
  }

  /** The abstract view: the kinds of warning whose flag the set contains. */
  function Members(s: WarningTypes): (ws: set<Warning>)
    ensures forall w :: w in ws <==> Contains(s, Flag(w))
  {
    (if Contains(s, Length) then {LengthWarning} else {}) +
    (if Contains(s, Casing) then {CasingWarning} else {})
  }

  /** The option set holding exactly the given kinds of warning. */
  function FromMembers(ws: set<Warning>): (s: WarningTypes)
    ensures OnlyDeclaredFlags(s)
  {
    Union(if LengthWarning in ws then Length else Empty,
          if CasingWarning in ws then Casing else Empty)
  }

  /** The two declared flags are single, distinct, non-overlapping bits. */
  lemma FlagsAreDisjoint()
    ensures Length.rawValue == 1 && Casing.rawValue == 2
    ensures Disjoint(Length, Casing) && IsEmpty(Intersection(Length, Casing))
    ensures Union(Length, Casing).rawValue == 3
    ensures Contains(Union(Length, Casing), Length) && Contains(Union(Length, Casing), Casing)
    ensures !Contains(Length, Casing) && !Contains(Casing, Length)
    ensures Members(Length) == {LengthWarning} && Members(Casing) == {CasingWarning}
  {
  }

  /** Decoding after encoding gives back the same kinds of warning. */
  lemma MembersOfFromMembers(ws: set<Warning>)
    ensures Members(FromMembers(ws)) == ws
  {
  }

  /** Encoding after decoding gives back the same option set, for sets of declared flags. */
  lemma FromMembersOfMembers(s: WarningTypes)
    requires OnlyDeclaredFlags(s)
    ensures FromMembers(Members(s)) == s
  {
  }

  /** A set that contains both operands of a union contains the union. */
  lemma UnionIsLeast(a: WarningTypes, b: WarningTypes, t: WarningTypes)
    requires Contains(t, a) && Contains(t, b)
    ensures Contains(t, Union(a, b))
  {
  }

  /** A set contained in both operands of an intersection is contained in the intersection. */
  lemma IntersectionIsGreatest(a: WarningTypes, b: WarningTypes, t: WarningTypes)
    requires Contains(a, t) && Contains(b, t)
    ensures Contains(Intersection(a, b), t)
  {
  }

  lemma FlagOfUnion(a: WarningTypes, b: WarningTypes, w: Warning)
    ensures Contains(Union(a, b), Flag(w)) <==> Contains(a, Flag(w)) || Contains(b, Flag(w))
  {
    match w
    case LengthWarning =>
    case CasingWarning =>
  }

  lemma FlagOfIntersection(a: WarningTypes, b: WarningTypes, w: Warning)
    ensures Contains(Intersection(a, b), Flag(w)) <==> Contains(a, Flag(w)) && Contains(b, Flag(w))
  {
    match w
    case LengthWarning =>
    case CasingWarning =>
  }

  lemma FlagOfSubtracting(s: WarningTypes, m: WarningTypes, w: Warning)
    ensures Contains(Subtracting(s, m), Flag(w)) <==> Contains(s, Flag(w)) && !Contains(m, Flag(w))
  {
    match w
    case LengthWarning =>
    case CasingWarning =>
  }

  /** Union and intersection of option sets are union and intersection of their members. */
  lemma MembersOfUnion(a: WarningTypes, b: WarningTypes)
    ensures Members(Union(a, b)) == Members(a) + Members(b)
    ensures Members(Intersection(a, b)) == Members(a) * Members(b)
  {
    FlagOfUnion(a, b, LengthWarning);
    FlagOfUnion(a, b, CasingWarning);
    FlagOfIntersection(a, b, LengthWarning);
    FlagOfIntersection(a, b, CasingWarning);
  }

  /** For a member using only the declared flags, `contains` is the subset relation on
      kinds of warning. */
  lemma ContainsIsSubset(s: WarningTypes, m: WarningTypes)
    requires OnlyDeclaredFlags(m)
    ensures Contains(s, m) <==> Members(m) <= Members(s)
  {
    FlagsAreDisjoint();
  }

  /** Inserting adds the members of `m`; removing takes them away. */
  lemma MembersOfInsertRemove(s: WarningTypes, m: WarningTypes)
    ensures Members(Insert(s, m).0) == Members(s) + Members(m)
    ensures Members(Remove(s, m).0) == Members(s) - Members(m)
    ensures Remove(s, m).1.Some? ==> Members(Remove(s, m).1.value) == Members(s) * Members(m)
  {
    MembersOfUnion(s, m);
    RemoveSubtracts(s, m);
    FlagOfSubtracting(s, m, LengthWarning);
    FlagOfSubtracting(s, m, CasingWarning);
  }

  /** A set that contains every element of an array literal contains the literal. */
  lemma {:induction false} ArrayLiteralIsLeast(xs: seq<WarningTypes>, t: WarningTypes)
    requires forall i :: 0 <= i < |xs| ==> Contains(t, xs[i])
    ensures Contains(t, FromArrayLiteral(xs))
  {
    if |xs| > 0 {
      var prefix := xs[..|xs| - 1];
      assert forall i :: 0 <= i < |prefix| ==> prefix[i] == xs[i];
      ArrayLiteralIsLeast(prefix, t);
      UnionIsLeast(FromArrayLiteral(prefix), xs[|xs| - 1], t);
    }
  }

  /** The array literal holds exactly the members of its elements. */
  lemma {:induction false} MembersOfArrayLiteral(xs: seq<WarningTypes>, w: Warning)
    ensures w in Members(FromArrayLiteral(xs)) <==> exists i :: 0 <= i < |xs| && w in Members(xs[i])
  {
    if |xs| > 0 {
      var prefix := xs[..|xs| - 1];
      assert forall i :: 0 <= i < |prefix| ==> prefix[i] == xs[i];
      MembersOfArrayLiteral(prefix, w);
      MembersOfInsertRemove(FromArrayLiteral(prefix), xs[|xs| - 1]);
      if w in Members(xs[|xs| - 1]) {
        assert 0 <= |xs| - 1 < |xs|;
      }
    }
  }
}
