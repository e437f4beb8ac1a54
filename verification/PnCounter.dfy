/** Choosing the member of a PN counter operation, from proxy_pn_counter.go and
    internal/proxy/random_replica.go: which members a draw can give, and that the retries of
    one operation never go back to a member that already failed. */
module PnCounters {
  import opened Wrappers
  import opened Members

  /** A data member that is not excluded. */
  predicate Eligible(m: Member, excluded: set<Uuid>) {
    !m.lite && m.uuid !in excluded
  }

  // ---- the random choice ----

  /** How many positions the draw covers. */
  function Range(members: seq<Member>, n: nat): nat {
    if n > |members| then |members| else n
  }

  /** The first position from `idx` on that holds an eligible member. */
  function FirstFrom(members: seq<Member>, idx: nat, excluded: set<Uuid>): Option<nat>
    decreases |members| - idx
  {
    if idx >= |members| then None
    else if Eligible(members[idx], excluded) then Some(idx)
    else FirstFrom(members, idx + 1, excluded)
  }

  function Replica(members: seq<Member>, n: nat, idx: nat, excluded: set<Uuid>): Option<nat> {
    if Range(members, n) == 0 then None else FirstFrom(members, idx, excluded)
  }

  ghost predicate NoneEligible(members: seq<Member>, lo: nat, hi: nat, excluded: set<Uuid>) {
    forall k :: lo <= k < hi && k < |members| ==> !Eligible(members[k], excluded)
  }

  lemma {:induction false} FirstFromMeaning(members: seq<Member>, idx: nat, excluded: set<Uuid>)
    ensures
      match FirstFrom(members, idx, excluded)
      case Some(k) => idx <= k < |members| && Eligible(members[k], excluded) && NoneEligible(members, idx, k, excluded)
      case None => NoneEligible(members, idx, |members|, excluded)
    decreases |members| - idx
  {
    if idx < |members| && !Eligible(members[idx], excluded) {
      FirstFromMeaning(members, idx + 1, excluded);
    }
  }

  /** The scan passes over lite members, over members before the drawn position and over
      excluded ones; it neither wraps nor stops after `n` members. */
  method RandomPNCounterReplica(members: seq<Member>, n: nat, idx: nat, excluded: Option<set<Uuid>>)
    returns (r: Option<Member>)
    requires Range(members, n) > 0 ==> idx < Range(members, n)
    ensures
      match Replica(members, n, idx, Excludes(excluded))
      case Some(k) => k < |members| && r == Some(members[k])
      case None => r == None
  {
    var m := n;
    if m > |members| {
      m := |members|;
    }
    if m == 0 {
      return None;
    }
    FirstFromMeaning(members, idx, Excludes(excluded));
    for i := 0 to |members|
      invariant NoneEligible(members, idx, i, Excludes(excluded))
    {
      if members[i].lite {
        continue;
      }
      if i < idx {
        continue;
      }
      if excluded == None || members[i].uuid !in excluded.value {
        return Some(members[i]);
      }
    }
    return None;
  }

  /** No set has been made yet before the first failure. */
  function Excludes(excluded: Option<set<Uuid>>): set<Uuid> {
    if excluded == None then {} else excluded.value
  }

  // ---- what a draw can give ----

  ghost predicate Draw(members: seq<Member>, n: nat, idx: nat) {
    idx < Range(members, n)
  }

  /** A member is found whatever is drawn if and only if one is eligible at or after the last
      position that can be drawn. */
  lemma FoundForEveryDrawIff(members: seq<Member>, n: nat, excluded: set<Uuid>)
    requires Range(members, n) > 0
    ensures (forall idx :: Draw(members, n, idx) ==> Replica(members, n, idx, excluded).Some?) <==>
            !NoneEligible(members, Range(members, n) - 1, |members|, excluded)
  {
    var last := Range(members, n) - 1;
    FirstFromMeaning(members, last, excluded);
    assert Draw(members, n, last);
    if !NoneEligible(members, last, |members|, excluded) {
      forall idx | Draw(members, n, idx) ensures Replica(members, n, idx, excluded).Some? {
        FirstFromMeaning(members, idx, excluded);
      }
    }
  }

  /** So a counter operation can be told that there is no data member although there is one
      and nothing is excluded. */
  lemma DataMemberMissed(data: Member, lite: Member)
    requires !data.lite && lite.lite
    ensures Draw([data, lite], 2, 1) && Replica([data, lite], 2, 1, {}) == None
    ensures Replica([data, lite], 2, 0, {}) == Some(0)
  {
    FirstFromMeaning([data, lite], 1, {});
  }

  function DataMembers(members: seq<Member>): nat {
    if members == [] then 0
    else DataMembers(members[..|members| - 1]) + if members[|members| - 1].lite then 0 else 1
  }

  /** The member at position `k` is one of the first `n` data members. */
  predicate AmongFirst(members: seq<Member>, n: nat, k: nat)
    requires k < |members|
  {
    !members[k].lite && DataMembers(members[..k]) < n
  }

  lemma {:induction false} DataMembersGrow(members: seq<Member>, i: nat, j: nat)
    requires i <= j <= |members|
    ensures DataMembers(members[..i]) <= DataMembers(members[..j]) <= DataMembers(members[..i]) + (j - i)
    ensures NoneEligible(members, i, j, {}) ==> DataMembers(members[..j]) == DataMembers(members[..i])
    decreases j
  {
    if i < j {
      DataMembersGrow(members, i, j - 1);
      assert members[..j][..j - 1] == members[..j - 1];
    }
  }

  /** With nothing excluded, the member found is one of the first `n` data members. */
  lemma ReplicaAmongFirst(members: seq<Member>, n: nat, idx: nat)
    requires Draw(members, n, idx)
    ensures
      match Replica(members, n, idx, {})
      case Some(k) => k < |members| && AmongFirst(members, n, k)
      case None => true
  {
    FirstFromMeaning(members, idx, {});
    var r := Replica(members, n, idx, {});
    if r.Some? {
      DataMembersGrow(members, 0, idx);
      DataMembersGrow(members, idx, r.value);
    }
  }

  /** The member found moves up the list with the drawn position, so the last position that
      can be drawn decides. */
  lemma LastDrawDecides(members: seq<Member>, n: nat, excluded: set<Uuid>)
    requires Range(members, n) > 0
    ensures (forall idx :: Draw(members, n, idx) ==> DrawAmongFirst(members, n, idx, excluded)) <==>
            DrawAmongFirst(members, n, Range(members, n) - 1, excluded)
  {
    var last := Range(members, n) - 1;
    assert Draw(members, n, last);
    if DrawAmongFirst(members, n, last, excluded) {
      forall idx | Draw(members, n, idx) ensures DrawAmongFirst(members, n, idx, excluded) {
        FirstFromMeaning(members, idx, excluded);
        FirstFromMeaning(members, last, excluded);
        var r := FirstFrom(members, idx, excluded);
        if r.Some? {
          DataMembersGrow(members, 0, r.value);
          if r.value >= last {
            assert r == FirstFrom(members, last, excluded);
          }
        }
      }
    }
  }

  ghost predicate DrawAmongFirst(members: seq<Member>, n: nat, idx: nat, excluded: set<Uuid>) {
    match Replica(members, n, idx, excluded)
    case Some(k) => k < |members| ==> AmongFirst(members, n, k)
    case None => true
  }

  /** With members excluded, the member found is one of the first `n` data members whatever
      is drawn if and only if from the last position that can be drawn on there is no
      eligible member, or one that is among the first `n` data members. */
  lemma AmongFirstForEveryDrawIff(members: seq<Member>, n: nat, excluded: set<Uuid>)
    requires Range(members, n) > 0
    ensures
      var last := Range(members, n) - 1;
      (forall idx :: Draw(members, n, idx) ==> DrawAmongFirst(members, n, idx, excluded)) <==>
      || NoneEligible(members, last, |members|, excluded)
      || exists k :: last <= k < |members| && Eligible(members[k], excluded) && AmongFirst(members, n, k)
  {
    var last := Range(members, n) - 1;
    LastDrawDecides(members, n, excluded);
    FirstFromMeaning(members, last, excluded);
    var r := FirstFrom(members, last, excluded);
    if r.Some? {
      forall k | last <= k < |members| && Eligible(members[k], excluded) && AmongFirst(members, n, k)
        ensures AmongFirst(members, n, r.value)
      {
        DataMembersGrow(members, r.value, k);
      }
    }
  }

  /** And it can fail: one replica is configured, it is excluded, and the second data member
      is given. */
  lemma BeyondFirst(a: Member, b: Member)
    requires !a.lite && !b.lite && a.uuid != b.uuid
    ensures Draw([a, b], 1, 0) && Replica([a, b], 1, 0, {a.uuid}) == Some(1) && !AmongFirst([a, b], 1, 1)
  {
    assert FirstFrom([a, b], 1, {a.uuid}) == Some(1);
    assert [a, b][..1] == [a];
    assert [a][..0] == [];
  }

  // ---- one operation and its retries ----

  /** What one operation and the counter it shares with others hold. */
  datatype Operation = Operation(target: Option<Uuid>, attempts: nat, excluded: set<Uuid>, last: Option<Uuid>,
                                 sent: seq<Uuid>, gaveUp: bool, panicked: bool)

  datatype Step =
    | Attempt(members: seq<Member>, n: nat, idx: nat)   // the member list of that moment
    | OtherOperation(newTarget: Option<Uuid>)           // another operation changes the target

  function Start(target: Option<Uuid>): Operation {
    Operation(target, 0, {}, None, [], false, false)
  }

  /** The shared target, kept unless it is excluded. */
  function Target(target: Option<Uuid>, excluded: set<Uuid>, members: seq<Member>, n: nat, idx: nat): Option<Uuid> {
    if target.Some? && target.value !in excluded then target
    else match Replica(members, n, idx, excluded)
      case Some(k) => if k < |members| then Some(members[k].uuid) else None
      case None => None
  }

  function NowExcluded(o: Operation): set<Uuid> {
    if o.attempts > 0 && o.last.Some? then o.excluded + {o.last.value} else o.excluded
  }

  function Next(o: Operation, step: Step): Operation {
    match step
    case OtherOperation(t) => o.(target := t)
    case Attempt(members, n, idx) =>
      if o.attempts > 0 && o.last.None? then o.(panicked := true)
      else
        var excluded := NowExcluded(o);
        match Target(o.target, excluded, members, n, idx)
        case None => o.(attempts := o.attempts + 1, excluded := excluded, gaveUp := true)
        case Some(uuid) => o.(target := Some(uuid), attempts := o.attempts + 1, excluded := excluded,
                              last := Some(uuid), sent := o.sent + [uuid])
  }

  /** After giving up there is no further attempt: the error is not retryable. */
  ghost predicate IsRun(steps: seq<Step>, states: seq<Operation>) {
    && |states| == |steps| + 1
    && states[0] == Start(states[0].target)
    && forall i :: 0 <= i < |steps| ==>
                     states[i + 1] == Next(states[i], steps[i]) &&
                     (steps[i].Attempt? ==> !states[i].gaveUp && Draws(steps[i]))
  }

  ghost predicate Draws(step: Step) {
    step.Attempt? && (Range(step.members, step.n) > 0 ==> Draw(step.members, step.n, step.idx))
  }

  ghost predicate Inv(o: Operation) {
    && !o.panicked
    && o.attempts == |o.sent| + (if o.gaveUp then 1 else 0)
    && (o.last == if o.sent == [] then None else Some(o.sent[|o.sent| - 1]))
    && o.excluded == Elements(if o.gaveUp || o.sent == [] then o.sent else o.sent[..|o.sent| - 1])
    && NoRepeats(o.sent)
  }

  lemma NoRepeatsOneMore(s: seq<Uuid>, u: Uuid)
    requires NoRepeats(s) && u !in Elements(s)
    ensures NoRepeats(s + [u])
  {
    assert forall i :: 0 <= i < |s| ==> s[i] in Elements(s);
  }

  lemma NowExcludedIsSent(o: Operation)
    requires Inv(o) && !o.gaveUp
    ensures NowExcluded(o) == Elements(o.sent)
  {
    if o.sent != [] {
      assert o.sent == o.sent[..|o.sent| - 1] + [o.sent[|o.sent| - 1]];
    }
  }

  lemma TargetNotExcluded(target: Option<Uuid>, excluded: set<Uuid>, members: seq<Member>, n: nat, idx: nat)
    ensures var t := Target(target, excluded, members, n, idx); t.Some? ==> t.value !in excluded
    ensures var t := Target(target, excluded, members, n, idx);
            t.Some? ==> t == target || exists k :: 0 <= k < |members| && t == Some(members[k].uuid) && !members[k].lite
  {
    FirstFromMeaning(members, idx, excluded);
  }

  lemma StepKeepsInv(o: Operation, step: Step)
    requires Inv(o) && (step.Attempt? ==> !o.gaveUp)
    ensures Inv(Next(o, step))
  {
    if step.Attempt? {
      NowExcludedIsSent(o);
      var t := Target(o.target, NowExcluded(o), step.members, step.n, step.idx);
      TargetNotExcluded(o.target, NowExcluded(o), step.members, step.n, step.idx);
      if t.Some? {
        NoRepeatsOneMore(o.sent, t.value);
        assert (o.sent + [t.value])[..|o.sent|] == o.sent;
      }
    }
  }

  lemma {:induction false} RunKeepsInv(steps: seq<Step>, states: seq<Operation>, i: nat)
    requires IsRun(steps, states) && i < |states|
    ensures Inv(states[i])
  {
    if i > 0 {
      RunKeepsInv(steps, states, i - 1);
      StepKeepsInv(states[i - 1], steps[i - 1]);
    }
  }

  /** No operation is sent twice to the same member, whatever other operations do to the
      shared target and however the member list changes; the request copied for a retry is
      always there. */
  lemma NeverSameMemberTwice(steps: seq<Step>, states: seq<Operation>, i: nat)
    requires IsRun(steps, states) && i < |states|
    ensures NoRepeats(states[i].sent) && !states[i].panicked
  {
    RunKeepsInv(steps, states, i);
  }

  /** All members that a run has to do with are in `known`. */
  ghost predicate Within(known: set<Uuid>, steps: seq<Step>, start: Operation) {
    && (start.target.Some? ==> start.target.value in known)
    && forall i :: 0 <= i < |steps| ==> StepWithin(known, steps[i])
  }

  ghost predicate StepWithin(known: set<Uuid>, step: Step) {
    match step
    case Attempt(members, _, _) => forall k :: 0 <= k < |members| && !members[k].lite ==> members[k].uuid in known
    case OtherOperation(t) => t.Some? ==> t.value in known
  }

  lemma {:induction false} SentWithin(known: set<Uuid>, steps: seq<Step>, states: seq<Operation>, i: nat)
    requires IsRun(steps, states) && Within(known, steps, states[0]) && i < |states|
    ensures states[i].target.Some? ==> states[i].target.value in known
    ensures forall u :: u in states[i].sent ==> u in known
  {
    if i > 0 {
      SentWithin(known, steps, states, i - 1);
      var o, step := states[i - 1], steps[i - 1];
      assert StepWithin(known, step);
      if step.Attempt? {
        RunKeepsInv(steps, states, i - 1);
        TargetNotExcluded(o.target, states[i].excluded, step.members, step.n, step.idx);
      }
    }
  }

  lemma {:induction false} DistinctFit(s: seq<Uuid>, known: set<Uuid>)
    requires NoRepeats(s) && forall u :: u in s ==> u in known
    ensures |s| <= |known|
  {
    if s != [] {
      var last := s[|s| - 1];
      forall u | u in s[..|s| - 1] ensures u in known - {last} {
      }
      DistinctFit(s[..|s| - 1], known - {last});
    }
  }

  /** The retries end: at most one request to each member the operation has to do with, and
      one last attempt that finds none. */
  lemma AttemptsBounded(known: set<Uuid>, steps: seq<Step>, states: seq<Operation>, i: nat)
    requires IsRun(steps, states) && Within(known, steps, states[0]) && i < |states|
    ensures |states[i].sent| <= |known| && states[i].attempts <= |known| + 1
  {
    RunKeepsInv(steps, states, i);
    SentWithin(known, steps, states, i);
    DistinctFit(states[i].sent, known);
  }

  function DataUuids(members: seq<Member>): (uuids: set<Uuid>)
    ensures |uuids| <= DataMembers(members)
    ensures forall k :: 0 <= k < |members| && !members[k].lite ==> members[k].uuid in uuids
  {
    if members == [] then {}
    else
      var before, last := DataUuids(members[..|members| - 1]), members[|members| - 1];
      if last.lite then before else before + {last.uuid}
  }

  /** With a fixed member list, and other operations that choose from it too, the operation
      is sent at most once more than there are data members: the extra one goes to a target
      left over from an earlier list. */
  lemma SendsWithFixedList(members: seq<Member>, steps: seq<Step>, states: seq<Operation>, i: nat)
    requires IsRun(steps, states) && i < |states|
    requires forall j :: 0 <= j < |steps| ==>
                           match steps[j]
                           case Attempt(list, _, _) => list == members
                           case OtherOperation(t) => t.Some? ==> t.value in DataUuids(members)
    ensures |states[i].sent| <= DataMembers(members) + 1
    ensures states[i].attempts <= DataMembers(members) + 2
  {
    var start := if states[0].target.Some? then {states[0].target.value} else {};
    var known := DataUuids(members) + start;
    assert |known| <= |DataUuids(members)| + |start|;
    assert forall j :: 0 <= j < |steps| ==> StepWithin(known, steps[j]);
    AttemptsBounded(known, steps, states, i);
  }

  /** Where an attempt goes: to the shared target it finds, unless this operation has already
      been sent there; and otherwise to the first data member from the drawn position on to
      which it has not been sent, which becomes the target. */
  lemma GoesTo(steps: seq<Step>, states: seq<Operation>, i: nat)
    requires IsRun(steps, states) && i < |steps| && steps[i].Attempt? && !states[i + 1].gaveUp
    ensures
      var o, o', step := states[i], states[i + 1], steps[i];
      && |o'.sent| == |o.sent| + 1 && o'.sent[..|o.sent|] == o.sent
      && (var to := o'.sent[|o.sent|];
          && o'.target == Some(to)
          && if o.target.Some? && o.target.value !in o.sent then to == o.target.value
             else exists k :: step.idx <= k < |step.members| && step.members[k].uuid == to
                              && FirstUnsent(step.members, step.idx, k, o.sent))
  {
    var o, step := states[i], steps[i];
    RunKeepsInv(steps, states, i);
    NowExcludedIsSent(o);
    assert forall u :: u in NowExcluded(o) <==> u in o.sent;
    FirstFromMeaning(step.members, step.idx, NowExcluded(o));
    if !(o.target.Some? && o.target.value !in o.sent) {
      var k := FirstFrom(step.members, step.idx, NowExcluded(o)).value;
      assert FirstUnsent(step.members, step.idx, k, o.sent);
    }
  }

  /** Position `k` holds the first data member from `idx` on whose UUID is not in `sent`. */
  ghost predicate FirstUnsent(members: seq<Member>, idx: nat, k: nat, sent: seq<Uuid>)
    requires k < |members|
  {
    && !members[k].lite && members[k].uuid !in sent
    && forall j :: idx <= j < k ==> members[j].lite || members[j].uuid in sent
  }

  /** An attempt gives up exactly when the shared target is missing or has failed this
      operation, and so has every data member from the drawn position on. */
  lemma GivesUpIff(steps: seq<Step>, states: seq<Operation>, i: nat)
    requires IsRun(steps, states) && i < |steps| && steps[i].Attempt?
    ensures
      var o, members := states[i], steps[i].members;
      states[i + 1].gaveUp <==>
      && (o.target.Some? ==> o.target.value in o.sent)
      && (Range(members, steps[i].n) > 0 ==>
            forall k :: steps[i].idx <= k < |members| && !members[k].lite ==> members[k].uuid in o.sent)
    ensures states[i + 1].gaveUp ==> states[i + 1].target == states[i].target && states[i + 1].sent == states[i].sent
  {
    var o, step := states[i], steps[i];
    RunKeepsInv(steps, states, i);
    NowExcludedIsSent(o);
    var excluded := NowExcluded(o);
    assert forall u :: u in excluded <==> u in o.sent;
    FirstFromMeaning(step.members, step.idx, excluded);
  }

  // ---- the code ----

  /** The counter, with the target that all its operations share. */
  class PNCounter {
    var target: Option<Uuid>
    const maxReplicaCount: nat

    constructor (count: nat)
      ensures target == None && maxReplicaCount == count
    {
      target, maxReplicaCount := None, count;
    }

    method CrdtOperationTarget(excluded: Option<set<Uuid>>, members: seq<Member>, idx: nat) returns (mem: Option<Uuid>)
      requires Range(members, maxReplicaCount) > 0 ==> idx < Range(members, maxReplicaCount)
      modifies this
      ensures mem == Target(old(target), Excludes(excluded), members, maxReplicaCount, idx)
      ensures target == if mem.Some? then mem else old(target)
    {
      if target == None || (excluded.Some? && target.value in excluded.value) {
        var found := RandomPNCounterReplica(members, maxReplicaCount, idx, excluded);
        if found == None {
          return None;
        }
        target := Some(found.value.uuid);
      }
      return target;
    }
  }

  /** The variables of one operation's retried function. */
  class OnMember {
    var excluded: Option<set<Uuid>>
    var lastUuid: Option<Uuid>
    ghost var sent: seq<Uuid>
    ghost var attempts: nat
    ghost var gaveUp: bool

    constructor ()
      ensures Resumable() && forall target :: State(target) == Start(target)
    {
      excluded, lastUuid, sent, attempts, gaveUp := None, None, [], 0, false;
    }

    ghost function State(target: Option<Uuid>): Operation
      reads this
    {
      Operation(target, attempts, Excludes(excluded), lastUuid, sent, gaveUp, false)
    }

    /** The set is made at the second attempt, and the member to add to it is known. */
    ghost predicate Resumable()
      reads this
    {
      (attempts <= 1 <==> excluded == None) && (attempts > 0 && !gaveUp ==> lastUuid.Some?)
    }

    /** Sends to the member returned; without one the operation ends with an error that is
        not retried. */
    method Try(pn: PNCounter, attempt: nat, members: seq<Member>, idx: nat) returns (mem: Option<Uuid>)
      requires Resumable() && !gaveUp && attempt == attempts
      requires Range(members, pn.maxReplicaCount) > 0 ==> idx < Range(members, pn.maxReplicaCount)
      modifies this, pn
      ensures State(pn.target) == Next(old(State(pn.target)), Attempt(members, pn.maxReplicaCount, idx))
      ensures Resumable() && attempts == attempt + 1
      ensures mem == if gaveUp then None else lastUuid
    {
      if attempt == 1 {
        excluded := Some({});
      }
      if attempt > 0 {
        excluded := Some(excluded.value + {lastUuid.value});
      }
      mem := pn.CrdtOperationTarget(excluded, members, idx);
      attempts := attempts + 1;
      if mem == None {
        gaveUp := true;
        return;
      }
      lastUuid := mem;
      sent := sent + [mem.value];
    }
  }
}
