/** `LargerGroupMajorMinorVersion` of internal/cluster/cluster_service.go: the version of the
    most numerous group of data members, counted in one pass with two slots. */
module MemberVersions {
  import opened Wrappers
  import opened Members

  // ---- the two-slot count ----

  /** The loop's locals: versions and counts of the two slots, and the next free slot. */
  datatype Tally = Tally(versions: seq<nat>, counts: seq<nat>, next: nat) | MoreThanTwo

  predicate WellFormed(t: Tally) {
    t.Tally? ==> |t.versions| == 2 && |t.counts| == 2 && t.next <= 2
  }

  function Counted(t: Tally, m: Member): (r: Tally)
    requires WellFormed(t)
    ensures WellFormed(r)
  {
    if m.lite then t else CountedVersion(t, MajorMinor(m.version))
  }

  function CountedVersion(t: Tally, v: nat): (r: Tally)
    requires WellFormed(t)
    ensures WellFormed(r)
  {
    if t.MoreThanTwo? then t
    else
      if v == t.versions[0] then t.(counts := t.counts[0 := t.counts[0] + 1])
      else if v == t.versions[1] then t.(counts := t.counts[1 := t.counts[1] + 1])
      else if t.next < 2 then
        Tally(t.versions[t.next := v], t.counts[t.next := t.counts[t.next] + 1], t.next + 1)
      else MoreThanTwo
  }

  function TallyOf(members: seq<Member>): (t: Tally)
    ensures WellFormed(t)
  {
    if members == [] then Tally([0, 0], [0, 0], 0)
    else Counted(TallyOf(members[..|members| - 1]), members[|members| - 1])
  }

  /** The version chosen, or nothing when there are more than two. */
  function Winner(t: Tally): Option<nat>
    requires WellFormed(t)
  {
    if t.MoreThanTwo? then None
    else if t.counts[0] == 0 then Some(0)
    else if t.counts[0] > t.counts[1] then Some(t.versions[0])
    else if t.counts[0] < t.counts[1] then Some(t.versions[1])
    else if t.versions[0] > t.versions[1] then Some(t.versions[0])
    else Some(t.versions[1])
  }

  method LargerGroupMajorMinorVersion(members: seq<Member>) returns (winner: Option<nat>)
    ensures winner == Winner(TallyOf(members))
  {
    var versions, counts, next := [0, 0], [0, 0], 0;
    for i := 0 to |members|
      invariant |versions| == 2 && |counts| == 2 && 0 <= next <= 2
      invariant TallyOf(members[..i]) == Tally(versions, counts, next)
    {
      var mem := members[i];
      assert members[..i + 1][..i] == members[..i];
      if mem.lite {
        continue;
      }
      var v := MajorMinor(mem.version);
      if v == versions[0] {
        counts := counts[0 := counts[0] + 1];
      } else if v == versions[1] {
        counts := counts[1 := counts[1] + 1];
      } else if next < 2 {
        versions := versions[next := v];
        counts := counts[next := counts[next] + 1];
        next := next + 1;
      } else {
        MoreThanTwoStays(members, i + 1);
        return None;
      }
    }
    assert members[..|members|] == members;
    if counts[0] == 0 {
      return Some(0);
    }
    if counts[0] > counts[1] {
      return Some(versions[0]);
    } else if counts[0] < counts[1] {
      return Some(versions[1]);
    } else {
      if versions[0] > versions[1] {
        return Some(versions[0]);
      }
      return Some(versions[1]);
    }
  }

  lemma {:induction false} MoreThanTwoStays(members: seq<Member>, k: nat)
    requires k <= |members| && TallyOf(members[..k]).MoreThanTwo?
    ensures TallyOf(members).MoreThanTwo?
    decreases |members|
  {
    if k == |members| {
      assert members[..k] == members;
    } else {
      assert members[..|members| - 1][..k] == members[..k];
      MoreThanTwoStays(members[..|members| - 1], k);
    }
  }

  // ---- what it means ----

  /** The distinct versions of the data members. */
  function Versions(members: seq<Member>): set<nat> {
    set i | 0 <= i < |members| && !members[i].lite :: MajorMinor(members[i].version)
  }

  /** How many data members have version `v`. */
  function Count(members: seq<Member>, v: nat): nat {
    if members == [] then 0
    else Count(members[..|members| - 1], v) +
         (var m := members[|members| - 1]; if !m.lite && MajorMinor(m.version) == v then 1 else 0)
  }

  function NonZero(members: seq<Member>): set<nat> {
    Versions(members) - {0}
  }

  /** How many data members of version 0.0 come after exactly `k` other versions. */
  function Zeros(members: seq<Member>, k: nat): nat {
    if members == [] then 0
    else Zeros(members[..|members| - 1], k) +
         (var m := members[|members| - 1];
          if !m.lite && MajorMinor(m.version) == 0 && |NonZero(members[..|members| - 1])| == k then 1 else 0)
  }

  lemma VersionsOfLast(members: seq<Member>)
    requires members != []
    ensures
      var m := members[|members| - 1];
      Versions(members) == Versions(members[..|members| - 1]) + if m.lite then {} else {MajorMinor(m.version)}
  {
    var n := |members| - 1;
    var init, m := members[..n], members[n];
    forall v | v in Versions(members) ensures v in Versions(init) || (!m.lite && v == MajorMinor(m.version)) {
      var i :| 0 <= i < |members| && !members[i].lite && v == MajorMinor(members[i].version);
      assert i < n ==> init[i] == members[i];
    }
    forall v | v in Versions(init) ensures v in Versions(members) {
      var i :| 0 <= i < n && !init[i].lite && v == MajorMinor(init[i].version);
      assert init[i] == members[i];
    }
  }

  ghost predicate AtLeastTwo(vs: set<nat>) {
    exists a, b :: a in vs && b in vs && a != b
  }

  ghost predicate AtLeastThree(vs: set<nat>) {
    exists a, b, c :: a in vs && b in vs && c in vs && a != b && b != c && a != c
  }

  /** The slots hold the versions `vs` other than 0.0; `late` is how many members of version
      0.0 came after two of them. */
  ghost predicate HoldsVersions(t: Tally, vs: set<nat>, late: nat)
    requires WellFormed(t)
  {
    match t
    case MoreThanTwo => AtLeastThree(vs) || (AtLeastTwo(vs) && late > 0)
    case Tally(versions, _, next) =>
      && next == |vs|
      && (next == 0 ==> versions == [0, 0])
      && (next == 1 ==> vs == {versions[0]} && versions[1] == 0)
      && (next == 2 ==> vs == {versions[0], versions[1]} && versions[0] != versions[1] && late == 0)
  }

  lemma OtherHeld(t: Tally, vs: set<nat>, late: nat, v: nat)
    requires WellFormed(t) && HoldsVersions(t, vs, late) && 0 !in vs && v != 0 && (|vs| < 2 ==> late == 0)
    ensures HoldsVersions(CountedVersion(t, v), vs + {v}, late)
  {
    assert forall w :: w in vs ==> w in vs + {v};
    if t.Tally? {
      assert t.next == 0 ==> vs == {};
      if v in vs {
        assert vs + {v} == vs;
      } else if t.next == 2 {
        assert t.versions[0] in vs && t.versions[1] in vs && v in vs + {v};
      }
    }
  }

  lemma ZeroHeld(t: Tally, vs: set<nat>, late: nat)
    requires WellFormed(t) && HoldsVersions(t, vs, late) && 0 !in vs
    ensures HoldsVersions(CountedVersion(t, 0), vs, late + if |vs| == 2 then 1 else 0)
  {
    if t.Tally? && t.next == 2 {
      assert t.versions[0] in vs && t.versions[1] in vs;
    }
  }

  lemma SlotsHold(t: Tally, vs: set<nat>, late: nat, v: nat)
    requires WellFormed(t) && HoldsVersions(t, vs, late) && 0 !in vs && t.Tally?
    ensures (t.versions[0] == 0 <==> |vs| == 0) && (t.versions[1] == 0 <==> |vs| <= 1)
    ensures v in vs ==> v == t.versions[0] || v == t.versions[1]
  {
    assert t.next > 0 ==> t.versions[0] in vs;
    assert t.next > 1 ==> t.versions[1] in vs;
    assert t.next == 0 ==> vs == {};
  }

  /** To the count of each version are added the members of version 0.0 seen while its slot
      was still free. */
  ghost predicate HoldsCounts(t: Tally, members: seq<Member>)
    requires WellFormed(t)
  {
    t.Tally? ==>
      && t.counts[0] == Zeros(members, 0) + (if t.next > 0 then Count(members, t.versions[0]) else 0)
      && t.counts[1] == Zeros(members, 1) + (if t.next > 1 then Count(members, t.versions[1]) else 0)
  }

  lemma LastCounted(t: Tally, members: seq<Member>, n: nat)
    requires WellFormed(t) && members != []
    requires
      var init, m := members[..|members| - 1], members[|members| - 1];
      && HoldsCounts(t, init) && n == |NonZero(init)|
      && (t.Tally? && !m.lite ==> Fresh(t, init, MajorMinor(m.version), n))
    ensures HoldsCounts(Counted(t, members[|members| - 1]), members)
  {
  }

  /** The free slots hold version 0.0, and a version in no slot was not counted before. */
  ghost predicate Fresh(t: Tally, init: seq<Member>, v: nat, n: nat)
    requires WellFormed(t) && t.Tally?
  {
    && t.next == n
    && (t.versions[0] == 0 <==> n == 0) && (t.versions[1] == 0 <==> n <= 1)
    && (n == 2 ==> t.versions[0] != t.versions[1])
    && (v != 0 && v != t.versions[0] && v != t.versions[1] ==> Count(init, v) == 0)
  }

  lemma {:induction false} CountPositive(members: seq<Member>, v: nat)
    ensures Count(members, v) > 0 <==> v in Versions(members)
  {
    if members != [] {
      CountPositive(members[..|members| - 1], v);
      VersionsOfLast(members);
    }
  }

  /** The members of version 0.0 are those seen after no, one or two other versions. */
  lemma {:induction false} ZerosAddUp(members: seq<Member>)
    ensures forall k :: k > |NonZero(members)| ==> Zeros(members, k) == 0
    ensures |NonZero(members)| <= 2 ==> Count(members, 0) == Zeros(members, 0) + Zeros(members, 1) + Zeros(members, 2)
  {
    if members != [] {
      var init := members[..|members| - 1];
      ZerosAddUp(init);
      VersionsOfLast(members);
      SubsetSize(NonZero(init), NonZero(members));
      assert !members[|members| - 1].lite && MajorMinor(members[|members| - 1].version) == 0 ==>
          NonZero(members) == NonZero(init);
    }
  }

  lemma NonZeroOfLast(members: seq<Member>, v: nat)
    requires members != [] && v == MajorMinor(members[|members| - 1].version)
    ensures NonZero(members) == NonZero(members[..|members| - 1])
                                + if members[|members| - 1].lite || v == 0 then {} else {v}
  {
    VersionsOfLast(members);
  }

  lemma {:induction false} TallyHoldsVersions(members: seq<Member>)
    ensures HoldsVersions(TallyOf(members), NonZero(members), Zeros(members, 2))
  {
    if members != [] {
      var init, m := members[..|members| - 1], members[|members| - 1];
      TallyHoldsVersions(init);
      NonZeroOfLast(members, MajorMinor(m.version));
      ZerosAddUp(init);
      var vs, late := NonZero(init), Zeros(init, 2);
      if m.lite {
        assert NonZero(members) == vs;
      } else if MajorMinor(m.version) == 0 {
        assert NonZero(members) == vs;
        ZeroHeld(TallyOf(init), vs, late);
      } else {
        OtherHeld(TallyOf(init), vs, late, MajorMinor(m.version));
      }
    }
  }

  lemma {:induction false} TallyHoldsCounts(members: seq<Member>)
    ensures HoldsCounts(TallyOf(members), members)
  {
    if members != [] {
      var init, m := members[..|members| - 1], members[|members| - 1];
      TallyHoldsCounts(init);
      TallyHoldsVersions(init);
      CountPositive(init, MajorMinor(m.version));
      if TallyOf(init).Tally? {
        SlotsHold(TallyOf(init), NonZero(init), Zeros(init, 2), MajorMinor(m.version));
      }
      LastCounted(TallyOf(init), members, |NonZero(init)|);
    }
  }

  lemma {:induction false} SubsetSize<T>(a: set<T>, b: set<T>)
    requires a <= b
    ensures |a| <= |b|
    decreases a
  {
    if a != {} {
      var x :| x in a;
      SubsetSize(a - {x}, b - {x});
    }
  }

  /** `v` is the most frequent version, the newest of several equally frequent ones. */
  ghost predicate IsLargerGroup(members: seq<Member>, v: nat) {
    && v in Versions(members)
    && forall w :: w in Versions(members) ==>
         Count(members, w) < Count(members, v) || (Count(members, w) == Count(members, v) && w <= v)
  }

  /** What is promised: an error exactly for three or more versions, else the larger group,
      and 0 without data members. */
  ghost predicate KeepsPromise(members: seq<Member>) {
    var winner := Winner(TallyOf(members));
    && (winner.None? <==> |Versions(members)| >= 3)
    && (Versions(members) == {} ==> winner == Some(0))
    && (winner.Some? && Versions(members) != {} ==> IsLargerGroup(members, winner.value))
  }

  /** The members of version 0.0 mislead the count: either they are the larger of two groups
      but too many of them came first and were credited to the other; or there are two more
      versions, and none of them came after both. */
  ghost predicate Misled(members: seq<Member>) {
    && 0 in Versions(members)
    && ((|NonZero(members)| == 1 &&
         exists v :: v in NonZero(members) && Count(members, v) < Count(members, 0)
                     && Zeros(members, 1) <= Zeros(members, 0) + Count(members, v))
        || (|NonZero(members)| == 2 && Zeros(members, 2) == 0))
  }

  lemma SizeOfVersions(members: seq<Member>)
    ensures |Versions(members)| == |NonZero(members)| + if 0 in Versions(members) then 1 else 0
    ensures forall v :: v in Versions(members) <==> v in NonZero(members) || (v == 0 && 0 in Versions(members))
  {
    if 0 in Versions(members) {
      assert Versions(members) == NonZero(members) + {0};
    } else {
      assert Versions(members) == NonZero(members);
    }
  }

  lemma ManyVersions(vs: set<nat>)
    ensures AtLeastThree(vs) ==> |vs| >= 3
    ensures AtLeastTwo(vs) ==> |vs| >= 2
  {
    if AtLeastThree(vs) {
      var a, b, c :| a in vs && b in vs && c in vs && a != b && b != c && a != c;
      SubsetSize({a, b, c}, vs);
    }
    if AtLeastTwo(vs) {
      var a, b :| a in vs && b in vs && a != b;
      SubsetSize({a, b}, vs);
    }
  }

  lemma LargerOfTwo(members: seq<Member>, a: nat, b: nat)
    requires Versions(members) == {a, b}
    ensures IsLargerGroup(members, a) <==>
            Count(members, b) < Count(members, a) || (Count(members, b) == Count(members, a) && b <= a)
  {
    assert b in Versions(members);
  }

  lemma OneOtherVersion(members: seq<Member>)
    requires TallyOf(members).Tally? && TallyOf(members).next == 1
    ensures KeepsPromise(members) <==> !Misled(members)
  {
    TallyHoldsVersions(members);
    TallyHoldsCounts(members);
    SizeOfVersions(members);
    var v := TallyOf(members).versions[0];
    assert NonZero(members) == {v};
    CountPositive(members, v);
    if 0 in Versions(members) {
      ZerosAddUp(members);
      assert Versions(members) == {v, 0} == {0, v};
      LargerOfTwo(members, v, 0);
      LargerOfTwo(members, 0, v);
      assert Misled(members) <==> Count(members, v) < Count(members, 0)
                                  && Zeros(members, 1) <= Zeros(members, 0) + Count(members, v);
    } else {
      CountPositive(members, 0);
      ZerosAddUp(members);
      assert Versions(members) == {v, v};
      LargerOfTwo(members, v, v);
    }
  }

  lemma TwoOtherVersions(members: seq<Member>)
    requires TallyOf(members).Tally? && TallyOf(members).next == 2
    ensures KeepsPromise(members) <==> !Misled(members)
  {
    TallyHoldsVersions(members);
    TallyHoldsCounts(members);
    ZerosAddUp(members);
    SizeOfVersions(members);
    var a, b := TallyOf(members).versions[0], TallyOf(members).versions[1];
    assert NonZero(members) == {a, b};
    CountPositive(members, a);
    CountPositive(members, b);
    CountPositive(members, 0);
    if 0 !in Versions(members) {
      assert Versions(members) == {a, b} == {b, a};
      LargerOfTwo(members, a, b);
      LargerOfTwo(members, b, a);
    }
  }

  /** The count keeps its promise if and only if it is not misled. */
  lemma WinnerIsLargerGroupIff(members: seq<Member>)
    ensures KeepsPromise(members) <==> !Misled(members)
  {
    TallyHoldsVersions(members);
    TallyHoldsCounts(members);
    ZerosAddUp(members);
    SizeOfVersions(members);
    ManyVersions(NonZero(members));
    var t := TallyOf(members);
    if t.Tally? {
      if t.next == 0 {
        CountPositive(members, 0);
      } else if t.next == 1 {
        OneOtherVersion(members);
      } else {
        TwoOtherVersions(members);
      }
    } else if |NonZero(members)| == 2 {
      assert 0 in Versions(members) by {
        CountPositive(members, 0);
      }
    }
  }

  /** In particular without members of version 0.0; then 0 means that there are no data
      members. */
  lemma WinnerIsLargerGroup(members: seq<Member>)
    requires 0 !in Versions(members)
    ensures Winner(TallyOf(members)).None? <==> |Versions(members)| >= 3
    ensures Winner(TallyOf(members)) == Some(0) <==> Versions(members) == {}
    ensures Winner(TallyOf(members)).Some? && Versions(members) != {} ==>
        IsLargerGroup(members, Winner(TallyOf(members)).value)
  {
    WinnerIsLargerGroupIff(members);
  }

  lemma OneAppended(members: seq<Member>, m: Member, v: nat)
    ensures TallyOf(members + [m]) == Counted(TallyOf(members), m)
    ensures Count(members + [m], v) == Count(members, v) + if !m.lite && MajorMinor(m.version) == v then 1 else 0
  {
    assert (members + [m])[..|members|] == members;
  }

  /** The slots start out holding version 0, so members of version 0.0 are counted into a
      slot that is then given to another version: the result need not be the larger group. */
  lemma ZeroVersionMiscounted(zero: Member, other: Member)
    requires !zero.lite && !other.lite && MajorMinor(zero.version) == 0 < MajorMinor(other.version)
    ensures
      var members, v := [] + [zero] + [zero] + [other], MajorMinor(other.version);
      && Winner(TallyOf(members)) == Some(v)
      && Count(members, 0) == 2 && Count(members, v) == 1
  {
    var v := MajorMinor(other.version);
    OneAppended([], zero, 0);
    OneAppended([], zero, v);
    OneAppended([] + [zero], zero, 0);
    OneAppended([] + [zero], zero, v);
    OneAppended([] + [zero] + [zero], other, 0);
    OneAppended([] + [zero] + [zero], other, v);
  }
}
