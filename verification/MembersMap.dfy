/** `membersMap` of internal/cluster/cluster_service.go: the member list by UUID and the
    UUIDs by address, updated from versioned member lists. */
module MembersMaps {
  import opened Wrappers
  import opened Members
  import opened MemberVersions

  /** `translate` is the address translator of the current cluster; where it fails the
      member's own address is used. */
  type Translator = Member -> Address

  datatype Maps = Maps(members: map<Uuid, Member>, addrs: map<Address, Uuid>)

  datatype View = View(maps: Maps, version: int, ordered: seq<Member>, majority: nat)

  // ---- the operations on values ----

  /** A new UUID takes over its address from whichever member had it. */
  function WithMember(v: Maps, m: Member, addr: Address): Maps {
    if m.uuid in v.members then v
    else
      var kept := if addr in v.addrs then v.members - {v.addrs[addr]} else v.members;
      Maps(kept[m.uuid := m], v.addrs[addr := m.uuid])
  }

  function AddMembers(v: Maps, list: seq<Member>, translate: Translator): Maps
    decreases |list|
  {
    if list == [] then v else AddMembers(WithMember(v, list[0], translate(list[0])), list[1..], translate)
  }

  /** The members for which `addMember` reports an addition. */
  function Added(v: Maps, list: seq<Member>, translate: Translator): seq<Member>
    decreases |list|
  {
    if list == [] then []
    else
      (if list[0].uuid in v.members then [] else [list[0]])
      + Added(WithMember(v, list[0], translate(list[0])), list[1..], translate)
  }

  function Uuids(list: seq<Member>): set<Uuid> {
    set i | 0 <= i < |list| :: list[i].uuid
  }

  /** Members are removed together with the entry of their own, untranslated address. */
  function RemoveMembers(v: Maps, gone: set<Uuid>): Maps {
    Maps(v.members - gone,
         v.addrs - (set u | u in v.members && u in gone :: v.members[u].address))
  }

  /** The members that are in the map but not in the list. */
  function Gone(v: Maps, list: seq<Member>): set<Uuid> {
    v.members.Keys - Uuids(list)
  }

  /** The members an accepted update reports as removed. */
  function Removed(v: Maps, list: seq<Member>, translate: Translator): set<Uuid> {
    Gone(AddMembers(v, list, translate), list)
  }

  /** A stale version changes nothing. */
  function Updated(v: View, list: seq<Member>, version: int, translate: Translator): View {
    if version <= v.version then v
    else
      var gone := Removed(v.maps, list, translate);
      var changed := Added(v.maps, list, translate) != [] || gone != {};
      View(RemoveMembers(AddMembers(v.maps, list, translate), gone), version, list,
           if !changed then v.majority else match Winner(TallyOf(list)) case Some(w) => w case None => 0)
  }

  function Cleared(v: View): View {
    v.(maps := Maps(map[], map[]), version := -1)
  }

  const Empty := View(Maps(map[], map[]), -1, [], 0)

  // ---- the two maps stay mutual inverses ----

  ghost predicate Inverse(v: Maps) {
    && (forall u :: u in v.members ==>
        v.members[u].uuid == u && v.members[u].address in v.addrs && v.addrs[v.members[u].address] == u)
    && (forall a :: a in v.addrs ==> v.addrs[a] in v.members && v.members[v.addrs[a]].address == a)
  }

  ghost predicate Identity(translate: Translator) {
    forall m :: translate(m) == m.address
  }

  lemma AddKeepsInverse(v: Maps, m: Member)
    requires Inverse(v)
    ensures Inverse(WithMember(v, m, m.address))
  {
  }

  lemma {:induction false} AddMembersKeepsInverse(v: Maps, list: seq<Member>, translate: Translator)
    requires Inverse(v) && Identity(translate)
    ensures Inverse(AddMembers(v, list, translate))
    decreases |list|
  {
    if list != [] {
      AddKeepsInverse(v, list[0]);
      AddMembersKeepsInverse(WithMember(v, list[0], translate(list[0])), list[1..], translate);
    }
  }

  lemma RemoveKeepsInverse(v: Maps, gone: set<Uuid>)
    requires Inverse(v)
    ensures Inverse(RemoveMembers(v, gone))
  {
  }

  lemma UpdateKeepsInverse(v: View, list: seq<Member>, version: int, translate: Translator)
    requires Inverse(v.maps) && Identity(translate)
    ensures Inverse(Updated(v, list, version, translate).maps)
  {
    AddMembersKeepsInverse(v.maps, list, translate);
    RemoveKeepsInverse(AddMembers(v.maps, list, translate), Removed(v.maps, list, translate));
  }

  // ---- what an accepted update does ----

  /** Within a list UUIDs and addresses are distinct, and a UUID always has one address. */
  ghost predicate Distinct(list: seq<Member>) {
    forall i, j :: 0 <= i < j < |list| ==> list[i].uuid != list[j].uuid && list[i].address != list[j].address
  }

  ghost predicate Stable(list: seq<Member>, addrOf: Uuid -> Address) {
    forall i :: 0 <= i < |list| ==> list[i].address == addrOf(list[i].uuid)
  }

  ghost predicate StableView(v: Maps, addrOf: Uuid -> Address) {
    forall u :: u in v.members ==> v.members[u].address == addrOf(u)
  }

  /** Some member of the list that is not in the map takes the given address. */
  ghost predicate Taken(v: Maps, list: seq<Member>, addr: Address) {
    exists i :: 0 <= i < |list| && list[i].uuid !in v.members && list[i].address == addr
  }

  lemma UuidsOfFirst(list: seq<Member>)
    requires list != []
    ensures Uuids(list) == {list[0].uuid} + Uuids(list[1..])
  {
    forall u | u in Uuids(list) ensures u == list[0].uuid || u in Uuids(list[1..]) {
      var i :| 0 <= i < |list| && u == list[i].uuid;
      assert i > 0 ==> list[1..][i - 1] == list[i];
    }
    forall u | u in Uuids(list[1..]) ensures u in Uuids(list) {
      var i :| 0 <= i < |list[1..]| && u == list[1..][i].uuid;
      assert list[1..][i] == list[i + 1];
    }
  }

  /** What is asked of the lists and kept by the map. */
  ghost predicate Orderly(v: Maps, list: seq<Member>, translate: Translator, addrOf: Uuid -> Address) {
    Inverse(v) && Identity(translate) && Distinct(list) && Stable(list, addrOf) && StableView(v, addrOf)
  }

  /** Adding the first member displaces at most the holder of its address, so it does not
      change which of the others are new. */
  lemma FirstAdded(v: Maps, list: seq<Member>, translate: Translator, addrOf: Uuid -> Address)
    requires Orderly(v, list, translate, addrOf) && list != []
    ensures
      var v1, rest := WithMember(v, list[0], translate(list[0])), list[1..];
      && Orderly(v1, rest, translate, addrOf)
      && list[0].uuid in v1.members
      && (forall u :: u != list[0].uuid ==>
            (u in v1.members <==> u in v.members && (list[0].uuid !in v.members ==> addrOf(u) != list[0].address)))
      && (forall i :: 0 <= i < |rest| ==> (rest[i].uuid in v1.members <==> rest[i].uuid in v.members))
  {
    AddKeepsInverse(v, list[0]);
    assert forall i :: 0 <= i < |list[1..]| ==> list[1..][i] == list[i + 1];
  }

  lemma TakenSplits(v: Maps, list: seq<Member>, addr: Address)
    requires list != []
    ensures Taken(v, list, addr) <==>
        (list[0].uuid !in v.members && list[0].address == addr) || Taken(v, list[1..], addr)
  {
    if Taken(v, list, addr) {
      var i :| 0 <= i < |list| && list[i].uuid !in v.members && list[i].address == addr;
      assert i > 0 ==> list[1..][i - 1] == list[i];
    }
    if Taken(v, list[1..], addr) {
      var i :| 0 <= i < |list[1..]| && list[1..][i].uuid !in v.members && list[1..][i].address == addr;
      assert list[i + 1] == list[1..][i];
    }
  }

  lemma TakenDependsOnNew(v: Maps, w: Maps, list: seq<Member>, addr: Address)
    requires forall i :: 0 <= i < |list| ==> (list[i].uuid in v.members <==> list[i].uuid in w.members)
    ensures Taken(v, list, addr) <==> Taken(w, list, addr)
  {
  }

  /** After all additions the map holds the listed UUIDs and those older ones whose address
      was not taken by a new member. */
  lemma {:induction false} AddMembersMeaning(v: Maps, list: seq<Member>, translate: Translator,
                                             addrOf: Uuid -> Address, u: Uuid)
    requires Orderly(v, list, translate, addrOf)
    ensures StableView(AddMembers(v, list, translate), addrOf)
    ensures u in AddMembers(v, list, translate).members <==>
            u in Uuids(list) || (u in v.members && !Taken(v, list, addrOf(u)))
    decreases |list|
  {
    if list != [] {
      var v1, rest := WithMember(v, list[0], translate(list[0])), list[1..];
      FirstAdded(v, list, translate, addrOf);
      AddMembersMeaning(v1, rest, translate, addrOf, u);
      UuidsOfFirst(list);
      TakenSplits(v, list, addrOf(u));
      TakenDependsOnNew(v, v1, rest, addrOf(u));
      if u == list[0].uuid {
        assert !Taken(v1, rest, addrOf(u)) by {
          assert forall i :: 0 <= i < |rest| ==> rest[i] == list[i + 1];
        }
      }
    }
  }

  /** The listed members whose UUID is not among `known`, in list order. */
  function NewMembers(known: set<Uuid>, list: seq<Member>): seq<Member> {
    if list == [] then []
    else (if list[0].uuid in known then [] else [list[0]]) + NewMembers(known, list[1..])
  }

  lemma {:induction false} NewMembersMeaning(known: set<Uuid>, list: seq<Member>, m: Member)
    ensures m in NewMembers(known, list) <==> m in list && m.uuid !in known
  {
    if list != [] {
      NewMembersMeaning(known, list[1..], m);
      assert list == [list[0]] + list[1..];
    }
  }

  lemma {:induction false} NewMembersDependsOnList(a: set<Uuid>, b: set<Uuid>, list: seq<Member>)
    requires forall i :: 0 <= i < |list| ==> (list[i].uuid in a <==> list[i].uuid in b)
    ensures NewMembers(a, list) == NewMembers(b, list)
  {
    if list != [] {
      assert forall i :: 0 <= i < |list[1..]| ==> list[1..][i] == list[i + 1];
      NewMembersDependsOnList(a, b, list[1..]);
    }
  }

  lemma {:induction false} AddedIsNew(v: Maps, list: seq<Member>, translate: Translator, addrOf: Uuid -> Address)
    requires Orderly(v, list, translate, addrOf)
    ensures Added(v, list, translate) == NewMembers(v.members.Keys, list)
    decreases |list|
  {
    if list != [] {
      var v1 := WithMember(v, list[0], translate(list[0]));
      FirstAdded(v, list, translate, addrOf);
      AddedIsNew(v1, list[1..], translate, addrOf);
      NewMembersDependsOnList(v.members.Keys, v1.members.Keys, list[1..]);
    }
  }

  /** An accepted update leaves exactly the listed UUIDs, reports exactly the new ones as
      added, and reports a departed one as removed unless a new member took its address. */
  lemma AcceptedUpdate(v: View, list: seq<Member>, version: int, translate: Translator, addrOf: Uuid -> Address)
    requires Orderly(v.maps, list, translate, addrOf) && version > v.version
    ensures
      var v' := Updated(v, list, version, translate);
      && v'.maps.members.Keys == Uuids(list) && StableView(v'.maps, addrOf)
      && v'.version == version && v'.ordered == list
    ensures Added(v.maps, list, translate) == NewMembers(v.maps.members.Keys, list)
    ensures forall u :: u in Removed(v.maps, list, translate) <==>
              u in v.maps.members && u !in Uuids(list) && !Taken(v.maps, list, v.maps.members[u].address)
  {
    forall u ensures u in AddMembers(v.maps, list, translate).members <==>
                     u in Uuids(list) || (u in v.maps.members && !Taken(v.maps, list, addrOf(u))) {
      AddMembersMeaning(v.maps, list, translate, addrOf, u);
    }
    AddMembersMeaning(v.maps, list, translate, addrOf, 0);
    AddedIsNew(v.maps, list, translate, addrOf);
  }

  /** A member whose address is not taken keeps its record. */
  lemma {:induction false} RecordKept(v: Maps, list: seq<Member>, translate: Translator, addrOf: Uuid -> Address,
                                      u: Uuid)
    requires Orderly(v, list, translate, addrOf) && u in v.members && !Taken(v, list, addrOf(u))
    ensures u in AddMembers(v, list, translate).members && AddMembers(v, list, translate).members[u] == v.members[u]
    decreases |list|
  {
    if list != [] {
      var v1, rest := WithMember(v, list[0], translate(list[0])), list[1..];
      FirstAdded(v, list, translate, addrOf);
      TakenSplits(v, list, addrOf(u));
      TakenDependsOnNew(v, v1, rest, addrOf(u));
      RecordKept(v1, rest, translate, addrOf, u);
    }
  }

  lemma {:induction false} NewRecord(v: Maps, list: seq<Member>, translate: Translator, addrOf: Uuid -> Address, i: nat)
    requires Orderly(v, list, translate, addrOf) && i < |list| && list[i].uuid !in v.members
    ensures list[i].uuid in AddMembers(v, list, translate).members
    ensures AddMembers(v, list, translate).members[list[i].uuid] == list[i]
    decreases |list|
  {
    var v1, rest := WithMember(v, list[0], translate(list[0])), list[1..];
    FirstAdded(v, list, translate, addrOf);
    if i == 0 {
      assert !Taken(v1, rest, addrOf(list[0].uuid)) by {
        assert forall j :: 0 <= j < |rest| ==> rest[j].address != list[0].address;
      }
      RecordKept(v1, rest, translate, addrOf, list[0].uuid);
    } else {
      assert rest[i - 1] == list[i];
      NewRecord(v1, rest, translate, addrOf, i - 1);
    }
  }

  /** The records after an accepted update: a listed member that was there keeps the record it
      had, and a new one has that of the list. */
  lemma AcceptedRecords(v: View, list: seq<Member>, version: int, translate: Translator, addrOf: Uuid -> Address,
                        i: nat)
    requires Orderly(v.maps, list, translate, addrOf) && version > v.version && i < |list|
    ensures
      var u, w := list[i].uuid, Updated(v, list, version, translate).maps.members;
      u in w && w[u] == if u in v.maps.members then v.maps.members[u] else list[i]
  {
    var u := list[i].uuid;
    assert u in Uuids(list);
    if u in v.maps.members {
      assert !Taken(v.maps, list, addrOf(u));
      RecordKept(v.maps, list, translate, addrOf, u);
    } else {
      NewRecord(v.maps, list, translate, addrOf, i);
    }
  }

  /** After an accepted update that changes who is there, the majority version is that of the
      larger group of the list, if the list has data members and at most two versions, none of
      them 0.0. */
  lemma MajorityIsLargerGroup(v: View, list: seq<Member>, version: int, translate: Translator, addrOf: Uuid -> Address)
    requires Orderly(v.maps, list, translate, addrOf) && version > v.version && v.maps.members.Keys != Uuids(list)
    requires 0 !in Versions(list) && Versions(list) != {} && |Versions(list)| < 3
    ensures IsLargerGroup(list, Updated(v, list, version, translate).majority)
  {
    AcceptedUpdate(v, list, version, translate, addrOf);
    WinnerIsLargerGroup(list);
    SomeChange(v, list, version, translate, addrOf);
  }

  lemma SomeChange(v: View, list: seq<Member>, version: int, translate: Translator, addrOf: Uuid -> Address)
    requires Orderly(v.maps, list, translate, addrOf) && version > v.version && v.maps.members.Keys != Uuids(list)
    ensures Added(v.maps, list, translate) != [] || Removed(v.maps, list, translate) != {}
  {
    AcceptedUpdate(v, list, version, translate, addrOf);
    if u :| u in Uuids(list) && u !in v.maps.members {
      var i :| 0 <= i < |list| && list[i].uuid == u;
      NewMembersMeaning(v.maps.members.Keys, list, list[i]);
    } else {
      assert forall i :: 0 <= i < |list| ==> list[i].uuid in Uuids(list);
      var u :| u in v.maps.members && u !in Uuids(list);
      assert u in Removed(v.maps, list, translate);
    }
  }

  // ---- runs ----

  datatype Op = UpdateOp(list: seq<Member>, version: int) | ResetOp

  function Apply(v: View, op: Op, translate: Translator): View {
    match op
    case UpdateOp(list, version) => Updated(v, list, version, translate)
    case ResetOp => Cleared(v)
  }

  function RunAll(ops: seq<Op>, translate: Translator): View {
    if ops == [] then Empty else Apply(RunAll(ops[..|ops| - 1], translate), ops[|ops| - 1], translate)
  }

  // ---- versions ----

  ghost predicate NoReset(ops: seq<Op>, from: int, to: int) {
    forall j :: from <= j < to && 0 <= j < |ops| ==> !ops[j].ResetOp?
  }

  /** `v` is the highest version of an update since the last reset, but at least -1. */
  ghost predicate IsHighest(ops: seq<Op>, v: int) {
    && (v == -1 || exists i :: UpdateSinceReset(ops, i) && ops[i].version == v)
    && v >= -1
    && forall i :: UpdateSinceReset(ops, i) ==> ops[i].version <= v
  }

  ghost predicate UpdateSinceReset(ops: seq<Op>, i: int) {
    0 <= i < |ops| && ops[i].UpdateOp? && NoReset(ops, i, |ops|)
  }

  /** Over every run of updates and resets, with any versions, the recorded version is the
      highest since the last reset. */
  lemma {:induction false} VersionIsHighest(ops: seq<Op>, translate: Translator)
    ensures IsHighest(ops, RunAll(ops, translate).version)
  {
    if ops != [] {
      var n := |ops| - 1;
      var before, v := ops[..n], RunAll(ops[..n], translate).version;
      VersionIsHighest(before, translate);
      if ops[n].UpdateOp? {
        assert UpdateSinceReset(ops, n);
        forall i | 0 <= i < n ensures UpdateSinceReset(ops, i) <==> UpdateSinceReset(before, i) {
          assert forall j :: 0 <= j < n ==> before[j] == ops[j];
        }
        if v != -1 {
          var i :| UpdateSinceReset(before, i) && before[i].version == v;
          assert UpdateSinceReset(ops, i) && ops[i].version == v;
        }
      } else {
        assert forall i :: !UpdateSinceReset(ops, i);
      }
    }
  }

  /** The update at position `i` is stale: not above -1, or not above an update that came
      before it with no reset in between. */
  ghost predicate Stale(ops: seq<Op>, i: int) {
    && 0 <= i < |ops| && ops[i].UpdateOp?
    && (ops[i].version <= -1 ||
        exists j :: 0 <= j < i && ops[j].UpdateOp? && ops[j].version >= ops[i].version && NoReset(ops, j, i))
  }

  /** An update is ignored if and only if it is stale; one that is not is recorded. */
  lemma StaleIffIgnored(ops: seq<Op>, i: nat, translate: Translator)
    requires i < |ops| && ops[i].UpdateOp?
    ensures Stale(ops, i) <==> ops[i].version <= RunAll(ops[..i], translate).version
    ensures Stale(ops, i) ==> RunAll(ops[..i + 1], translate) == RunAll(ops[..i], translate)
    ensures !Stale(ops, i) ==> RunAll(ops[..i + 1], translate).version == ops[i].version
    ensures !Stale(ops, i) ==> RunAll(ops[..i + 1], translate).ordered == ops[i].list
  {
    var before, v := ops[..i], RunAll(ops[..i], translate).version;
    assert ops[..i + 1][..i] == before;
    VersionIsHighest(before, translate);
    forall j | 0 <= j < i ensures UpdateSinceReset(before, j) <==> ops[j].UpdateOp? && NoReset(ops, j, i) {
      assert forall m :: 0 <= m < i ==> before[m] == ops[m];
    }
    if v != -1 {
      var j :| UpdateSinceReset(before, j) && before[j].version == v;
      assert ops[j].version == v && NoReset(ops, j, i);
    }
    if Stale(ops, i) && ops[i].version > -1 {
      var j :| 0 <= j < i && ops[j].UpdateOp? && ops[j].version >= ops[i].version && NoReset(ops, j, i);
      assert UpdateSinceReset(before, j) && before[j].version == ops[j].version;
    }
  }

  function Without(ops: seq<Op>, i: nat): seq<Op>
    requires i < |ops|
  {
    ops[..i] + ops[i + 1..]
  }

  /** A stale update anywhere in a run can be left out: the final view is the same. */
  lemma {:induction false} StaleCanBeLeftOut(ops: seq<Op>, i: nat, translate: Translator)
    requires i < |ops| && Stale(ops, i)
    ensures RunAll(ops, translate) == RunAll(Without(ops, i), translate)
    decreases |ops|
  {
    var n := |ops| - 1;
    if i == n {
      assert ops[..n + 1] == ops && Without(ops, i) == ops[..n];
      StaleIffIgnored(ops, i, translate);
    } else {
      StalePrefix(ops, n, i);
      StaleCanBeLeftOut(ops[..n], i, translate);
      WithoutInit(ops, i);
    }
  }

  lemma WithoutInit(ops: seq<Op>, i: nat)
    requires i < |ops| - 1
    ensures
      var n, w := |ops| - 1, Without(ops, i);
      w != [] && w[..|w| - 1] == Without(ops[..n], i) && w[|w| - 1] == ops[n]
  {
  }

  lemma StalePrefix(ops: seq<Op>, n: nat, i: nat)
    requires i < n <= |ops|
    ensures Stale(ops[..n], i) <==> Stale(ops, i)
  {
    var before := ops[..n];
    assert forall j :: 0 <= j < n ==> before[j] == ops[j];
    forall j | 0 <= j < i ensures NoReset(before, j, i) <==> NoReset(ops, j, i) {
    }
    if Stale(ops, i) && ops[i].version > -1 {
      var j :| 0 <= j < i && ops[j].UpdateOp? && ops[j].version >= ops[i].version && NoReset(ops, j, i);
      assert before[j].UpdateOp? && NoReset(before, j, i);
    }
    if Stale(before, i) && ops[i].version > -1 {
      var j :| 0 <= j < i && before[j].UpdateOp? && before[j].version >= before[i].version && NoReset(before, j, i);
      assert ops[j].UpdateOp? && NoReset(ops, j, i);
    }
  }

  ghost predicate IsAccepted(ops: seq<Op>, i: int) {
    0 <= i < |ops| && ops[i].UpdateOp? && !Stale(ops, i)
  }

  /** The ordered list is that of the last update accepted, also after a reset. */
  lemma {:induction false} OrderedIsLastAccepted(ops: seq<Op>, i: nat, translate: Translator)
    requires IsAccepted(ops, i) && forall j :: i < j < |ops| ==> !IsAccepted(ops, j)
    ensures RunAll(ops, translate).ordered == ops[i].list
    decreases |ops|
  {
    var n := |ops| - 1;
    assert ops[..n + 1] == ops;
    if i == n {
      StaleIffIgnored(ops, i, translate);
    } else {
      forall j | i <= j < n ensures IsAccepted(ops[..n], j) <==> IsAccepted(ops, j) {
        StalePrefix(ops, n, j);
      }
      OrderedIsLastAccepted(ops[..n], i, translate);
      if ops[n].UpdateOp? {
        assert !IsAccepted(ops, n);
        StaleIffIgnored(ops, n, translate);
      }
    }
  }

  ghost predicate OrderlyOps(ops: seq<Op>, addrOf: Uuid -> Address) {
    forall i :: 0 <= i < |ops| && ops[i].UpdateOp? ==> Distinct(ops[i].list) && Stable(ops[i].list, addrOf)
  }

  /** Over every run the two maps are mutual inverses; this needs only that addresses are
      not translated. */
  lemma {:induction false} RunKeepsInverse(ops: seq<Op>, translate: Translator)
    requires Identity(translate)
    ensures Inverse(RunAll(ops, translate).maps)
  {
    if ops != [] {
      RunKeepsInverse(ops[..|ops| - 1], translate);
      var v, op := RunAll(ops[..|ops| - 1], translate), ops[|ops| - 1];
      if op.UpdateOp? {
        UpdateKeepsInverse(v, op.list, op.version, translate);
      }
    }
  }

  lemma {:induction false} RunKeepsStable(ops: seq<Op>, translate: Translator, addrOf: Uuid -> Address)
    requires Identity(translate) && OrderlyOps(ops, addrOf)
    ensures StableView(RunAll(ops, translate).maps, addrOf)
  {
    if ops != [] {
      RunKeepsStable(ops[..|ops| - 1], translate, addrOf);
      RunKeepsInverse(ops[..|ops| - 1], translate);
      var v, op := RunAll(ops[..|ops| - 1], translate), ops[|ops| - 1];
      if op.UpdateOp? && op.version > v.version {
        AcceptedUpdate(v, op.list, op.version, translate, addrOf);
      }
    }
  }

  /** After every run that ends with an accepted update, the map holds exactly its list. */
  lemma LastAcceptedListHolds(ops: seq<Op>, translate: Translator, addrOf: Uuid -> Address)
    requires Identity(translate) && OrderlyOps(ops, addrOf) && ops != [] && ops[|ops| - 1].UpdateOp?
    requires ops[|ops| - 1].version > RunAll(ops[..|ops| - 1], translate).version
    ensures RunAll(ops, translate).maps.members.Keys == Uuids(ops[|ops| - 1].list)
  {
    var before, op := ops[..|ops| - 1], ops[|ops| - 1];
    RunKeepsInverse(before, translate);
    RunKeepsStable(before, translate, addrOf);
    AcceptedUpdate(RunAll(before, translate), op.list, op.version, translate, addrOf);
  }

  /** Each UUID has at most one address, and only members have one. */
  ghost predicate OneAddressEach(v: Maps) {
    && (forall a :: a in v.addrs ==> v.addrs[a] in v.members)
    && (forall a, b :: a in v.addrs && b in v.addrs && v.addrs[a] == v.addrs[b] ==> a == b)
  }

  lemma AddKeepsOneAddress(v: Maps, m: Member, addr: Address)
    requires OneAddressEach(v)
    ensures OneAddressEach(WithMember(v, m, addr))
  {
  }

  /** The member is filed under `addr` and no other address. */
  ghost predicate FiledUnder(v: Maps, m: Member, addr: Address) {
    && m.uuid in v.members && v.members[m.uuid] == m
    && forall a :: a in v.addrs && v.addrs[a] == m.uuid ==> a == addr
  }

  /** No two members of the list share a UUID or a translated address. */
  ghost predicate Apart(list: seq<Member>, translate: Translator) {
    forall i, j :: 0 <= i < j < |list| ==>
      list[i].uuid != list[j].uuid && translate(list[i]) != translate(list[j])
  }

  lemma {:induction false} StaysFiled(v: Maps, m: Member, list: seq<Member>, translate: Translator)
    requires OneAddressEach(v) && FiledUnder(v, m, translate(m))
    requires forall i :: 0 <= i < |list| ==> list[i].uuid != m.uuid && translate(list[i]) != translate(m)
    ensures FiledUnder(AddMembers(v, list, translate), m, translate(m))
    decreases |list|
  {
    if list != [] {
      AddKeepsOneAddress(v, list[0], translate(list[0]));
      StaysFiled(WithMember(v, list[0], translate(list[0])), m, list[1..], translate);
    }
  }

  /** A translated member that is added stays filed under the translated address only. */
  lemma {:induction false} AddedIsFiled(v: Maps, list: seq<Member>, translate: Translator, m: Member)
    requires OneAddressEach(v) && Apart(list, translate) && m in Added(v, list, translate)
    ensures m in list && FiledUnder(AddMembers(v, list, translate), m, translate(m))
    decreases |list|
  {
    var v1, rest := WithMember(v, list[0], translate(list[0])), list[1..];
    AddKeepsOneAddress(v, list[0], translate(list[0]));
    if list[0].uuid !in v.members && m == list[0] {
      StaysFiled(v1, m, rest, translate);
    } else {
      AddedIsFiled(v1, rest, translate, m);
    }
  }

  lemma {:induction false} UntranslatedKeepInverse(v: Maps, list: seq<Member>, translate: Translator)
    requires Inverse(v) && forall m :: m in Added(v, list, translate) ==> translate(m) == m.address
    ensures Inverse(AddMembers(v, list, translate))
    decreases |list|
  {
    if list != [] {
      var v1 := WithMember(v, list[0], translate(list[0]));
      if list[0].uuid !in v.members {
        assert list[0] in Added(v, list, translate);
        AddKeepsInverse(v, list[0]);
      }
      assert forall m :: m in Added(v1, list[1..], translate) ==> m in Added(v, list, translate);
      UntranslatedKeepInverse(v1, list[1..], translate);
    }
  }

  /** One accepted update keeps the maps mutual inverses if and only if no member that it
      adds has a translated address. */
  lemma UpdateKeepsInverseIff(v: View, list: seq<Member>, version: int, translate: Translator)
    requires Inverse(v.maps) && version > v.version && Apart(list, translate)
    ensures Inverse(Updated(v, list, version, translate).maps) <==>
            forall m :: m in Added(v.maps, list, translate) ==> translate(m) == m.address
  {
    var w := AddMembers(v.maps, list, translate);
    if forall m :: m in Added(v.maps, list, translate) ==> translate(m) == m.address {
      UntranslatedKeepInverse(v.maps, list, translate);
      RemoveKeepsInverse(w, Gone(w, list));
    } else {
      var m :| m in Added(v.maps, list, translate) && translate(m) != m.address;
      AddedIsFiled(v.maps, list, translate, m);
      TranslatedBreaksInverse(w, list, m, translate(m));
    }
  }

  lemma TranslatedBreaksInverse(v: Maps, list: seq<Member>, m: Member, addr: Address)
    requires FiledUnder(v, m, addr) && m in list && addr != m.address
    ensures !Inverse(RemoveMembers(v, Gone(v, list)))
  {
    var i :| 0 <= i < |list| && list[i] == m;
    assert m.uuid in Uuids(list);
    var w := RemoveMembers(v, Gone(v, list));
    assert m.uuid in w.members && w.members[m.uuid] == m;
    assert m.address in w.addrs ==> m.address in v.addrs && w.addrs[m.address] == v.addrs[m.address];
  }

  ghost predicate KeepsInverse(ops: seq<Op>, translate: Translator) {
    Inverse(RunAll(ops, translate).maps)
  }

  /** The two maps are mutual inverses over every run if and only if no address is
      translated. */
  lemma InverseOverAllRunsIff(translate: Translator)
    ensures (forall ops :: KeepsInverse(ops, translate)) <==> Identity(translate)
  {
    if Identity(translate) {
      forall ops ensures KeepsInverse(ops, translate) {
        RunKeepsInverse(ops, translate);
      }
    } else {
      var m :| translate(m) != m.address;
      var ops := [UpdateOp([m], 0), UpdateOp([], 1)];
      assert ops[..1][..0] == [];
      assert RunAll(ops[..1], translate) == Updated(Empty, [m], 0, translate);
      TranslationLeavesTrace(m, translate);
      assert !KeepsInverse(ops, translate);
    }
  }

  /** With address translation the maps part ways: a member that joins and leaves an empty
      cluster leaves no trace if and only if its address was not translated. */
  lemma TranslationLeavesTrace(m: Member, translate: Translator)
    ensures
      var joined := Updated(Empty, [m], 0, translate);
      Inverse(Updated(joined, [], 1, translate).maps) <==> translate(m) == m.address
  {
    var joined := Updated(Empty, [m], 0, translate);
    var v1 := AddMembers(Empty.maps, [m], translate);
    assert v1 == AddMembers(WithMember(Empty.maps, m, translate(m)), [m][1..], translate) ==
        WithMember(Empty.maps, m, translate(m));
    assert v1 == Maps(map[m.uuid := m], map[translate(m) := m.uuid]);
    assert [m][0] == m && m.uuid in Uuids([m]);
    assert Gone(v1, [m]) == {};
    assert joined.maps == v1;
    assert Gone(v1, []) == {m.uuid};
    var left := Updated(joined, [], 1, translate).maps;
    assert left.members == map[];
    assert translate(m) in left.addrs <==> translate(m) != m.address by {
      assert v1.members[m.uuid].address == m.address;
    }
  }

  // ---- the map itself ----

  /** Removing one more member. */
  lemma RemoveOneMore(v: Maps, gone: set<Uuid>, u: Uuid)
    requires u in v.members && u !in gone
    ensures
      var w := RemoveMembers(v, gone);
      && u in w.members && w.members[u] == v.members[u]
      && RemoveMembers(v, gone + {u}) == Maps(w.members - {u}, w.addrs - {v.members[u].address})
  {
    var w := RemoveMembers(v, gone);
    assert RemoveMembers(v, gone + {u}).members == w.members - {u};
    assert RemoveMembers(v, gone + {u}).addrs == w.addrs - {v.members[u].address};
  }

  /** The members to be removed that are not in `todo` any more. */
  ghost function Handled(v: Maps, list: seq<Member>, todo: set<Uuid>): (r: set<Uuid>)
    ensures todo == {} ==> r == Gone(v, list)
  {
    Gone(v, list) - todo
  }

  lemma NothingHandled(v: Maps, list: seq<Member>)
    ensures Handled(v, list, v.members.Keys) == {} && RemoveMembers(v, {}) == v && Lists([], {})
  {
  }

  lemma OneMoreHandled(v: Maps, list: seq<Member>, todo: set<Uuid>, u: Uuid)
    requires u in todo && todo <= v.members.Keys
    ensures u !in Handled(v, list, todo)
    ensures Handled(v, list, todo - {u}) ==
            if u in Uuids(list) then Handled(v, list, todo) else Handled(v, list, todo) + {u}
  {
  }

  /** The list names exactly the given UUIDs, each once. */
  ghost predicate Lists(list: seq<Member>, uuids: set<Uuid>) {
    && Uuids(list) == uuids
    && (forall i, j :: 0 <= i < j < |list| ==> list[i].uuid != list[j].uuid)
  }

  lemma ListsOneMore(list: seq<Member>, uuids: set<Uuid>, m: Member)
    requires Lists(list, uuids) && m.uuid !in uuids
    ensures Lists(list + [m], uuids + {m.uuid})
  {
    var both := list + [m];
    assert both[|list|] == m;
    assert forall i :: 0 <= i < |list| ==> list[i].uuid in Uuids(list);
    forall u | u in Uuids(list) ensures u in Uuids(both) {
      var i :| 0 <= i < |list| && u == list[i].uuid;
      assert both[i] == list[i];
    }
  }

  lemma AddOneMore(v: Maps, list: seq<Member>, i: nat, translate: Translator)
    requires i < |list|
    ensures
      var v1 := WithMember(v, list[i], translate(list[i]));
      && AddMembers(v, list[i..], translate) == AddMembers(v1, list[i + 1..], translate)
      && Added(v, list[i..], translate) ==
         if list[i].uuid in v.members
             then Added(v1, list[i + 1..], translate) else [list[i]] + Added(v1, list[i + 1..], translate)
  {
    assert list[i..][1..] == list[i + 1..];
  }

  class MembersMap {
    var members: map<Uuid, Member>
    var addrToMemberUuid: map<Address, Uuid>
    var version: int
    var orderedMembers: seq<Member>
    var majorityMajorMinor: nat

    /** Members are filed under their own UUID. */
    predicate Valid()
      reads this
    {
      forall u :: u in members ==> members[u].uuid == u
    }

    function CurrentMaps(): Maps
      reads this
    {
      Maps(members, addrToMemberUuid)
    }

    function Current(): View
      reads this
    {
      View(CurrentMaps(), version, orderedMembers, majorityMajorMinor)
    }

    constructor ()
      ensures Valid() && Current() == Empty
    {
      members, addrToMemberUuid, version, orderedMembers, majorityMajorMinor := map[], map[], -1, [], 0;
    }

    method AddMember(m: Member, translate: Translator) returns (added: bool)
      modifies this`members, this`addrToMemberUuid
      ensures CurrentMaps() == WithMember(old(CurrentMaps()), m, translate(m))
      ensures added <==> m.uuid !in old(members)
    {
      var addr := translate(m);
      if m.uuid in members {
        return false;
      }
      if addr in addrToMemberUuid {
        members := members - {addrToMemberUuid[addr]};
      }
      members := members[m.uuid := m];
      addrToMemberUuid := addrToMemberUuid[addr := m.uuid];
      return true;
    }

    method RemoveMember(m: Member)
      modifies this`members, this`addrToMemberUuid
      ensures CurrentMaps() == Maps(old(members) - {m.uuid}, old(addrToMemberUuid) - {m.address})
    {
      members := members - {m.uuid};
      addrToMemberUuid := addrToMemberUuid - {m.address};
    }

    /** A newer list is taken over; what it adds and removes is reported. */
    method Update(list: seq<Member>, version: int, translate: Translator)
      returns (added: seq<Member>, removed: seq<Member>)
      requires Valid()
      modifies this
      ensures Valid()
      ensures Current() == Updated(old(Current()), list, version, translate)
      ensures version <= old(this.version) ==> added == [] && removed == []
      ensures version > old(this.version) ==>
                && added == Added(old(CurrentMaps()), list, translate)
                && Lists(removed, Removed(old(CurrentMaps()), list, translate))
    {
      added, removed := [], [];
      if version > this.version {
        this.version := version;
        orderedMembers := list;
        added := AddAll(list, translate);
        removed := RemoveAllBut(list);
        if |added| > 0 || |removed| > 0 {
          var winner := LargerGroupMajorMinorVersion(list);
          majorityMajorMinor := match winner case Some(w) => w case None => 0;
        }
        assert |removed| > 0 <==> Uuids(removed) != {} by {
          assert |removed| > 0 ==> removed[0].uuid in Uuids(removed);
        }
      }
    }

    method AddAll(list: seq<Member>, translate: Translator) returns (added: seq<Member>)
      requires Valid()
      modifies this`members, this`addrToMemberUuid
      ensures Valid()
      ensures CurrentMaps() == AddMembers(old(CurrentMaps()), list, translate) &&
          added == Added(old(CurrentMaps()), list, translate)
    {
      added := [];
      for i := 0 to |list|
        invariant Valid()
        invariant AddMembers(old(CurrentMaps()), list, translate) == AddMembers(CurrentMaps(), list[i..], translate)
        invariant Added(old(CurrentMaps()), list, translate) == added + Added(CurrentMaps(), list[i..], translate)
      {
        AddOneMore(CurrentMaps(), list, i, translate);
        var isNew := AddMember(list[i], translate);
        if isNew {
          AppendAssociates(added, [list[i]], Added(CurrentMaps(), list[i + 1..], translate));
          added := added + [list[i]];
        }
      }
    }

    /** The map is edited while it is iterated over, in any order. */
    method RemoveAllBut(list: seq<Member>) returns (removed: seq<Member>)
      requires Valid()
      modifies this`members, this`addrToMemberUuid
      ensures Valid()
      ensures CurrentMaps() == RemoveMembers(old(CurrentMaps()), Gone(old(CurrentMaps()), list))
      ensures Lists(removed, Gone(old(CurrentMaps()), list))
    {
      removed := [];
      ghost var start := CurrentMaps();
      var keep := Uuids(list);
      var todo := members.Keys;
      NothingHandled(start, list);
      while todo != {}
        invariant Valid() && todo <= start.members.Keys
        invariant CurrentMaps() == RemoveMembers(start, Handled(start, list, todo))
        invariant Lists(removed, Handled(start, list, todo))
        decreases |todo|
      {
        var u := Pick(todo);
        OneMoreHandled(start, list, todo, u);
        if u !in keep {
          RemoveOneMore(start, Handled(start, list, todo), u);
          var m := members[u];
          RemoveMember(m);
          ListsOneMore(removed, Handled(start, list, todo), m);
          removed := removed + [m];
        }
        todo := todo - {u};
      }
    }

    method Reset()
      modifies this
      ensures Valid() && Current() == Cleared(old(Current()))
    {
      members := map[];
      addrToMemberUuid := map[];
      version := -1;
    }
  }
}
