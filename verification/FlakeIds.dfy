/** flake_id_generator.go: any number of callers take IDs from a shared batch with one
    atomic increment, and refresh it under a mutex that compares batch identities. */
module FlakeIds {
  import opened Wrappers

  const MIN_INT64: int := -0x8000_0000_0000_0000
  const MAX_INT64: int := 0x7fff_ffff_ffff_ffff
  const INVALID := MIN_INT64

  /** What `newBatchFn` brings; the shared index is kept apart. */
  datatype Batch = Batch(base: int, increment: int, size: int, expiresAt: int)

  function IdAt(b: Batch, idx: int): int {
    b.base + idx * b.increment
  }

  /** Go's 64-bit arithmetic wraps around. */
  function ToInt64(n: int): (r: int)
    ensures MIN_INT64 <= r <= MAX_INT64 && (n - r) % 0x1_0000_0000_0000_0000 == 0
    ensures MIN_INT64 <= n <= MAX_INT64 ==> r == n
  {
    (n - MIN_INT64) % 0x1_0000_0000_0000_0000 + MIN_INT64
  }

  /** The ID for a claimed index, or the invalid one past the end of the batch. */
  function Served(b: Batch, idx: int): int {
    if idx >= b.size then INVALID else ToInt64(IdAt(b, idx))
  }

  /** Fetched batches serve index 0 first; the one installed at construction serves nothing. */
  const FETCHED_INDEX: int := -1

  /** Where a caller of `NewID` stands. A batch is known by its number, which stands for
      its identity. */
  datatype Pc =
    | Start
    | Loaded(batch: nat)
    | Unexpired(batch: nat)
    | Stale(batch: nat)
    | Locked(batch: nat)
    | Returned(id: int)
    | Failed

  /** An ID handed to a caller, with where it came from. */
  datatype Issue = Issue(id: int, batch: nat, index: int)

  /** `issued` and `refreshed` are history variables: the IDs returned so far, and for
      each stored batch the batch it replaced. */
  datatype State = State(batches: seq<Batch>, indexes: seq<int>, current: nat, holder: Option<nat>,
                         callers: map<nat, Pc>, issued: seq<Issue>, refreshed: seq<nat>)

  const EMPTY_BATCH := Batch(0, 0, 0, MIN_INT64)
  const Init := State([EMPTY_BATCH], [0], 0, None, map[], [], [])

  /** One atomic step of caller `t`. `Check` compares the clock with the expiry; `Add` is the
      atomic increment with what follows it; `Fetch` is the refresh under the lock, with the
      batch fetched or an error. */
  datatype Step =
    | Call(t: nat)
    | Load(t: nat)
    | Check(t: nat, now: int)
    | Add(t: nat)
    | Lock(t: nat)
    | Fetch(t: nat, fetched: Option<Batch>)

  predicate Enabled(s: State, step: Step) {
    match step
    case Call(t) => t !in s.callers || s.callers[t].Returned? || s.callers[t].Failed?
    case Load(t) => t in s.callers && s.callers[t].Start?
    case Check(t, _) => t in s.callers && s.callers[t].Loaded? && s.callers[t].batch < |s.batches|
    case Add(t) => t in s.callers && s.callers[t].Unexpired? && s.callers[t].batch < |s.batches| == |s.indexes|
    case Lock(t) => t in s.callers && s.callers[t].Stale? && s.holder == None
    case Fetch(t, _) => t in s.callers && s.callers[t].Locked? && s.holder == Some(t)
  }

  function Move(s: State, t: nat, pc: Pc): State {
    s.(callers := s.callers[t := pc])
  }

  function Apply(s: State, step: Step): State
    requires Enabled(s, step)
  {
    match step
    case Call(t) => Move(s, t, Start)
    case Load(t) => Move(s, t, Loaded(s.current))
    case Check(t, now) =>
      var b := s.callers[t].batch;
      Move(s, t, if now > s.batches[b].expiresAt then Stale(b) else Unexpired(b))
    case Add(t) =>
      var b := s.callers[t].batch;
      var idx := s.indexes[b] + 1;
      var s1 := s.(indexes := s.indexes[b := idx]);
      var id := Served(s.batches[b], idx);
      if id == INVALID then Move(s1, t, Stale(b))
      else Move(s1, t, Returned(id)).(issued := s.issued + [Issue(id, b, idx)])
    case Lock(t) => Move(s, t, Locked(s.callers[t].batch)).(holder := Some(t))
    case Fetch(t, fetched) =>
      var b := s.callers[t].batch;
      var s1 := s.(holder := None);
      if b != s.current then Move(s1, t, Start)
      else match fetched
        case None => Move(s1, t, Failed)
        case Some(batch) =>
          Move(s1, t, Start).(batches := s.batches + [batch], indexes := s.indexes + [FETCHED_INDEX],
                              current := |s.batches|, refreshed := s.refreshed + [b])
  }

  ghost predicate IsRun(steps: seq<Step>, states: seq<State>) {
    && |states| == |steps| + 1
    && states[0] == Init
    && forall i :: 0 <= i < |steps| ==> Enabled(states[i], steps[i]) && states[i + 1] == Apply(states[i], steps[i])
  }

  // ---- what is asked of the members that produce batches ----

  /** `x` is one of the IDs of batch `b`. */
  ghost predicate InBatch(b: Batch, x: int) {
    exists idx :: 0 <= idx < b.size && IdAt(b, idx) == x
  }

  /** Fetched batches are disjoint, increase by a non-zero step, and hold int64 values. */
  ghost predicate GoodBatches(batches: seq<Batch>) {
    && (forall i :: 0 <= i < |batches| ==> batches[i].size > 0 ==> batches[i].increment != 0)
    && (forall i, x :: 0 <= i < |batches| && InBatch(batches[i], x) ==> MIN_INT64 <= x <= MAX_INT64)
    && (forall i, j, x :: 0 <= i < j < |batches| && InBatch(batches[i], x) ==> !InBatch(batches[j], x))
  }

  // ---- the invariant ----

  /** Each refresh replaced the newest batch. */
  ghost predicate BatchesInv(s: State) {
    && |s.indexes| == |s.batches| && s.current == |s.batches| - 1
    && s.batches[0] == EMPTY_BATCH
    && (forall b :: 0 <= b < |s.batches| ==> s.indexes[b] >= (if b == 0 then 0 else FETCHED_INDEX))
    && |s.refreshed| == |s.batches| - 1
    && (forall k :: 0 <= k < |s.refreshed| ==> s.refreshed[k] == k)
  }

  predicate HoldsBatch(pc: Pc) {
    pc.Loaded? || pc.Unexpired? || pc.Stale? || pc.Locked?
  }

  ghost predicate CallersInv(s: State) {
    && (forall t :: t in s.callers && HoldsBatch(s.callers[t]) ==> s.callers[t].batch < |s.batches|)
    && (forall t :: t in s.callers ==> (s.callers[t].Locked? <==> s.holder == Some(t)))
    && (s.holder.Some? ==> s.holder.value in s.callers)
    && (forall t :: t in s.callers && s.callers[t].Returned? ==> WasIssued(s, s.callers[t].id))
  }

  ghost predicate WasIssued(s: State, id: int) {
    exists k :: 0 <= k < |s.issued| && s.issued[k].id == id
  }

  ghost predicate IssueInv(s: State, i: Issue)
    requires |s.indexes| == |s.batches|
  {
    && i.batch < |s.batches|
    && 0 <= i.index < s.batches[i.batch].size
    && i.index <= s.indexes[i.batch]
    && i.id == Served(s.batches[i.batch], i.index)
    && i.id != INVALID
  }

  /** Of one batch, indexes are issued in increasing order. */
  ghost predicate IssuedInv(s: State)
    requires |s.indexes| == |s.batches|
  {
    && (forall k :: 0 <= k < |s.issued| ==> IssueInv(s, s.issued[k]))
    && (forall j, k :: 0 <= j < k < |s.issued| && s.issued[j].batch == s.issued[k].batch ==>
        s.issued[j].index < s.issued[k].index)
  }

  ghost predicate Inv(s: State) {
    BatchesInv(s) && CallersInv(s) && IssuedInv(s)
  }

  lemma StepKeepsBatches(s: State, step: Step)
    requires BatchesInv(s) && CallersInv(s) && Enabled(s, step)
    ensures BatchesInv(Apply(s, step))
  {
  }

  lemma StepKeepsCallers(s: State, step: Step)
    requires BatchesInv(s) && CallersInv(s) && Enabled(s, step)
    ensures CallersInv(Apply(s, step))
  {
    var s' := Apply(s, step);
    forall u | u in s'.callers && s'.callers[u].Returned? ensures WasIssued(s', s'.callers[u].id) {
      if u == step.t {
        assert s'.issued[|s.issued|].id == s'.callers[u].id;
      } else {
        var k :| 0 <= k < |s.issued| && s.issued[k].id == s.callers[u].id;
        assert s'.issued[k] == s.issued[k];
      }
    }
  }

  lemma StepKeepsIssued(s: State, step: Step)
    requires BatchesInv(s) && CallersInv(s) && IssuedInv(s) && Enabled(s, step)
    ensures BatchesInv(Apply(s, step)) && IssuedInv(Apply(s, step))
  {
    StepKeepsBatches(s, step);
    var s' := Apply(s, step);
    forall k | 0 <= k < |s'.issued| ensures IssueInv(s', s'.issued[k]) {
      assert k < |s.issued| ==> IssueInv(s, s.issued[k]);
    }
    forall j, k | 0 <= j < k < |s'.issued| && s'.issued[j].batch == s'.issued[k].batch
      ensures s'.issued[j].index < s'.issued[k].index
    {
      assert IssueInv(s, s.issued[j]);
    }
  }

  lemma StepKeepsInv(s: State, step: Step)
    requires Inv(s) && Enabled(s, step)
    ensures Inv(Apply(s, step))
  {
    StepKeepsCallers(s, step);
    StepKeepsIssued(s, step);
  }

  lemma {:induction false} RunKeepsInv(steps: seq<Step>, states: seq<State>, k: nat)
    requires IsRun(steps, states) && k <= |steps|
    ensures Inv(states[k])
  {
    if k > 0 {
      RunKeepsInv(steps, states, k - 1);
      StepKeepsInv(states[k - 1], steps[k - 1]);
    }
  }

  // ---- what every run guarantees ----

  /** The IDs of one batch differ. */
  lemma BatchIdsDiffer(b: Batch, i: int, j: int)
    requires b.increment != 0 && i < j
    ensures IdAt(b, i) != IdAt(b, j)
  {
    assert (j - i) * b.increment != 0;
    assert (j - i) * b.increment == j * b.increment - i * b.increment;
  }

  lemma IssuedInBatch(s: State, i: Issue)
    requires |s.indexes| == |s.batches| && GoodBatches(s.batches) && IssueInv(s, i)
    ensures i.id == IdAt(s.batches[i.batch], i.index) && InBatch(s.batches[i.batch], i.id)
  {
    assert InBatch(s.batches[i.batch], IdAt(s.batches[i.batch], i.index));
  }

  /** If the batches are good, no ID is returned twice, whatever the interleaving. */
  lemma NoIdTwice(steps: seq<Step>, states: seq<State>, n: nat, j: nat, k: nat)
    requires IsRun(steps, states) && n <= |steps| && GoodBatches(states[n].batches)
    requires j < k < |states[n].issued|
    ensures states[n].issued[j].id != states[n].issued[k].id
  {
    var s := states[n];
    RunKeepsInv(steps, states, n);
    var a, b := s.issued[j], s.issued[k];
    IssuedInBatch(s, a);
    IssuedInBatch(s, b);
    if a.batch == b.batch {
      BatchIdsDiffer(s.batches[a.batch], a.index, b.index);
    }
  }

  /** Every ID returned belongs to a fetched batch, never the initial one, and is valid. */
  lemma IdsComeFromFetchedBatches(steps: seq<Step>, states: seq<State>, n: nat, k: nat)
    requires IsRun(steps, states) && n <= |steps| && k < |states[n].issued| && GoodBatches(states[n].batches)
    ensures
      var i := states[n].issued[k];
      && 0 < i.batch < |states[n].batches| && InBatch(states[n].batches[i.batch], i.id)
      && i.id != INVALID
  {
    RunKeepsInv(steps, states, n);
    IssuedInBatch(states[n], states[n].issued[k]);
  }

  /** What a caller has been given was issued. */
  lemma ReturnedWasIssued(steps: seq<Step>, states: seq<State>, n: nat, t: nat)
    requires IsRun(steps, states) && n <= |steps| && t in states[n].callers && states[n].callers[t].Returned?
    ensures WasIssued(states[n], states[n].callers[t].id)
  {
    RunKeepsInv(steps, states, n);
  }

  /** The caller was given the ID issued at position `i`. */
  ghost predicate GivenAt(s: State, t: nat, i: nat) {
    t in s.callers && i < |s.issued| && s.callers[t] == Returned(s.issued[i].id)
  }

  lemma ReturnedGivenAt(steps: seq<Step>, states: seq<State>, n: nat, t: nat) returns (i: nat)
    requires IsRun(steps, states) && n <= |steps| && t in states[n].callers && states[n].callers[t].Returned?
    ensures GivenAt(states[n], t, i)
  {
    ReturnedWasIssued(steps, states, n, t);
    i :| 0 <= i < |states[n].issued| && states[n].issued[i].id == states[n].callers[t].id;
  }

  /** Only a step of its own makes a caller return. */
  lemma StillGiven(s: State, step: Step, t: nat)
    requires Enabled(s, step) && step != Add(t)
    requires t in Apply(s, step).callers && Apply(s, step).callers[t].Returned?
    ensures t in s.callers && s.callers[t] == Apply(s, step).callers[t]
    ensures s.issued <= Apply(s, step).issued
  {
  }

  /** Each by a step of its own: different callers hold IDs issued at different positions. */
  lemma {:induction false} GivenApart(steps: seq<Step>, states: seq<State>, n: nat, t: nat, u: nat)
    returns (i: nat, j: nat)
    requires IsRun(steps, states) && n <= |steps| && t != u
    requires t in states[n].callers && states[n].callers[t].Returned?
    requires u in states[n].callers && states[n].callers[u].Returned?
    ensures i != j && GivenAt(states[n], t, i) && GivenAt(states[n], u, j)
    decreases n
  {
    assert states[0] == Init;
    var s, step, s' := states[n - 1], steps[n - 1], states[n];
    assert Enabled(s, step) && s' == Apply(s, step);
    if step == Add(t) {
      StillGiven(s, step, u);
      i := |s.issued|;
      j := ReturnedGivenAt(steps, states, n - 1, u);
    } else if step == Add(u) {
      StillGiven(s, step, t);
      i := ReturnedGivenAt(steps, states, n - 1, t);
      j := |s.issued|;
    } else {
      StillGiven(s, step, t);
      StillGiven(s, step, u);
      i, j := GivenApart(steps, states, n - 1, t, u);
    }
  }

  /** If the batches are good, different callers never hold the same ID. */
  lemma CallersHoldDifferentIds(steps: seq<Step>, states: seq<State>, n: nat, t: nat, u: nat)
    requires IsRun(steps, states) && n <= |steps| && t != u && GoodBatches(states[n].batches)
    requires t in states[n].callers && states[n].callers[t].Returned?
    requires u in states[n].callers && states[n].callers[u].Returned?
    ensures states[n].callers[t].id != states[n].callers[u].id
  {
    var i, j := GivenApart(steps, states, n, t, u);
    if i < j {
      NoIdTwice(steps, states, n, i, j);
    } else {
      NoIdTwice(steps, states, n, j, i);
    }
  }

  /** The step refreshes the batch. */
  ghost predicate Refreshes(s: State, step: Step) {
    Enabled(s, step) && step.Fetch? && step.fetched.Some? && s.callers[step.t].batch == s.current
  }

  lemma {:induction false} BatchesOnlyGrow(steps: seq<Step>, states: seq<State>, i: nat, j: nat)
    requires IsRun(steps, states) && i <= j <= |steps|
    ensures states[i].batches <= states[j].batches
    decreases j
  {
    if i < j {
      BatchesOnlyGrow(steps, states, i, j - 1);
      assert states[j] == Apply(states[j - 1], steps[j - 1]);
    }
  }

  /** Of all callers that saw the same batch go stale, at most one refreshes it. */
  lemma OneRefreshPerStaleBatch(steps: seq<Step>, states: seq<State>, i: nat, j: nat)
    requires IsRun(steps, states) && i < j < |steps|
    requires Refreshes(states[i], steps[i]) && Refreshes(states[j], steps[j])
    ensures states[i].callers[steps[i].t].batch != states[j].callers[steps[j].t].batch
  {
    RunKeepsInv(steps, states, i);
    RunKeepsInv(steps, states, j);
    assert states[i + 1] == Apply(states[i], steps[i]);
    BatchesOnlyGrow(steps, states, i + 1, j);
  }

  /** At most one caller is inside the locked section. */
  lemma RefreshIsExclusive(steps: seq<Step>, states: seq<State>, n: nat, t: nat, u: nat)
    requires IsRun(steps, states) && n <= |steps| && t in states[n].callers && u in states[n].callers
    requires states[n].callers[t].Locked? && states[n].callers[u].Locked?
    ensures t == u
  {
    RunKeepsInv(steps, states, n);
  }

  /** The ID and the new index that a call on a batch gives, when nobody comes between. */
  function Next(b: Batch, index: int, now: int): (int, int) {
    if now > b.expiresAt then (INVALID, index) else (Served(b, index + 1), index + 1)
  }

  /** What a number of calls on a batch give, one after the other, each at its own time. */
  function Calls(b: Batch, index: int, nows: seq<int>): seq<int>
    decreases |nows|
  {
    if nows == [] then []
    else [Next(b, index, nows[0]).0] + Calls(b, Next(b, index, nows[0]).1, nows[1..])
  }

  lemma {:induction false} CallsServeInOrder(b: Batch, index: int, nows: seq<int>, k: nat)
    requires k < |nows| && forall i :: 0 <= i < |nows| ==> nows[i] <= b.expiresAt
    ensures |Calls(b, index, nows)| == |nows|
    ensures Calls(b, index, nows)[k] ==
            if index + 1 + k >= b.size then INVALID else ToInt64(b.base + (index + 1 + k) * b.increment)
    decreases |nows|
  {
    if k > 0 {
      CallsServeInOrder(b, index + 1, nows[1..], k - 1);
    } else if |nows| > 1 {
      CallsServeInOrder(b, index + 1, nows[1..], 0);
    }
  }

  /** A fetched batch serves its IDs in order from its base until none is left. */
  lemma FreshBatchServes(b: Batch, nows: seq<int>, k: nat)
    requires k < |nows| && forall i :: 0 <= i < |nows| ==> nows[i] <= b.expiresAt
    requires MIN_INT64 <= b.base + k * b.increment <= MAX_INT64
    ensures |Calls(b, FETCHED_INDEX, nows)| == |nows|
    ensures Calls(b, FETCHED_INDEX, nows)[k] == if k < b.size then b.base + k * b.increment else INVALID
  {
    CallsServeInOrder(b, FETCHED_INDEX, nows, k);
  }

  /** A refresh installs the fetched batch, unused, and sends its caller to look again; a
      failed fetch ends the call and leaves the batch. */
  lemma RefreshInstalls(steps: seq<Step>, states: seq<State>, n: nat)
    requires IsRun(steps, states) && n < |steps| && steps[n].Fetch?
    ensures
      var s, s', t := states[n], states[n + 1], steps[n].t;
      && t in s.callers && s'.holder == None
      && if s.callers[t].batch != s.current then s' == Move(s.(holder := None), t, Start)
         else match steps[n].fetched
           case Some(b) =>
             && s'.current < |s'.batches| == |s'.indexes| && s'.batches[s'.current] == b
             && s'.indexes[s'.current] == FETCHED_INDEX && s'.callers[t] == Start && s'.current != s.current
           case None => s'.callers[t] == Failed && s'.current == s.current && s'.batches == s.batches
  {
    RunKeepsInv(steps, states, n);
    assert Enabled(states[n], steps[n]) && states[n + 1] == Apply(states[n], steps[n]);
  }

  /** So a caller that refreshes and is not disturbed gets the first ID of the batch. */
  lemma RefreshThenServed(s: State, t: nat, b: Batch, now: int)
    requires Inv(s) && Enabled(s, Fetch(t, Some(b))) && s.callers[t].batch == s.current
    requires now <= b.expiresAt && b.size > 0 && MIN_INT64 < b.base <= MAX_INT64
    ensures
      var s1 := Apply(s, Fetch(t, Some(b)));
      && Enabled(s1, Load(t))
      && (var s2 := Apply(s1, Load(t));
          && Enabled(s2, Check(t, now))
          && (var s3 := Apply(s2, Check(t, now));
              Enabled(s3, Add(t)) && Apply(s3, Add(t)).callers[t] == Returned(b.base)))
  {
  }

  /** The two steps `Check` and `Add` of a caller, taken in a row, are one such call: the
      caller returns its ID, or goes on to refresh the batch if that is invalid. */
  lemma CheckThenAdd(s: State, t: nat, now: int)
    requires BatchesInv(s) && Enabled(s, Check(t, now))
    ensures
      var b := s.callers[t].batch;
      var (id, index) := Next(s.batches[b], s.indexes[b], now);
      var s1 := Apply(s, Check(t, now));
      var s2 := if s1.callers[t].Unexpired? then Apply(s1, Add(t)) else s1;
      && s2.indexes == s.indexes[b := index]
      && s2.callers == s.callers[t := if id == INVALID then Stale(b) else Returned(id)]
      && s2.issued == if id == INVALID then s.issued else s.issued + [Issue(id, b, index)]
  {
    var b := s.callers[t].batch;
    assert s.indexes[b := s.indexes[b]] == s.indexes;
  }

  /** The batch object with its shared index; one call is the protocol's `Check` and `Add`. */
  class FlakeIdBatch {
    const batch: Batch
    var index: int

    constructor (batch: Batch)
      ensures this.batch == batch && index == FETCHED_INDEX
    {
      this.batch := batch;
      index := FETCHED_INDEX;
    }

    /** An expired batch is left alone; otherwise exactly one index is claimed. */
    method NextId(now: int) returns (id: int)
      modifies this
      ensures (id, index) == Next(batch, old(index), now)
    {
      if now > batch.expiresAt {
        return INVALID;
      }
      index := index + 1;
      if index >= batch.size {
        return INVALID;
      }
      return ToInt64(batch.base + index * batch.increment);
    }
  }
}
