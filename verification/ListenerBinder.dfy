/** internal/cluster/connection_listener_binder.go: which listener registrations are recorded
    as subscribed on which members, in two maps that are edited together, and the
    correlation IDs of their listeners. */
module ListenerBinders {
  import opened Wrappers
  import opened Members
  import C = ConnectionMaps

  type RegId = nat

  /** What happens to the maps: an acknowledged add request is recorded for a member, the
      subscriptions of a member are cleared, correlation IDs are recorded for a
      registration, or those of a registration are dropped. */
  datatype Change =
    | Acked(reg: RegId, member: Uuid)
    | Cleared(member: Uuid)
    | Recorded(reg: RegId, ids: seq<int>)
    | Dropped(reg: RegId)

  datatype Subs = Subs(subscriptionToMembers: map<RegId, set<Uuid>>, memberSubscriptions: map<Uuid, seq<RegId>>,
                       correlationIds: map<RegId, seq<int>>)

  function MembersOf(s: Subs, reg: RegId): set<Uuid> {
    if reg in s.subscriptionToMembers then s.subscriptionToMembers[reg] else {}
  }

  function RegsOf(s: Subs, member: Uuid): seq<RegId> {
    if member in s.memberSubscriptions then s.memberSubscriptions[member] else []
  }

  function IdsOf(s: Subs, reg: RegId): seq<int> {
    if reg in s.correlationIds then s.correlationIds[reg] else []
  }

  /** Is the registration skipped for the member as already subscribed? */
  predicate ConnExists(s: Subs, reg: RegId, member: Uuid) {
    member in MembersOf(s, reg)
  }

  /** Clearing a member drops its registrations for all members. */
  function Apply(s: Subs, c: Change): Subs {
    match c
    case Acked(reg, member) =>
      s.(subscriptionToMembers := s.subscriptionToMembers[reg := MembersOf(s, reg) + {member}],
         memberSubscriptions := s.memberSubscriptions[member := RegsOf(s, member) + [reg]])
    case Cleared(member) =>
      if member !in s.memberSubscriptions then s
      else s.(subscriptionToMembers := s.subscriptionToMembers - Elements(s.memberSubscriptions[member]),
              memberSubscriptions := s.memberSubscriptions - {member})
    case Recorded(reg, ids) => s.(correlationIds := s.correlationIds[reg := IdsOf(s, reg) + ids])
    case Dropped(reg) => s.(correlationIds := s.correlationIds - {reg})
  }

  function After(log: seq<Change>): Subs {
    if log == [] then Subs(map[], map[], map[]) else Apply(After(log[..|log| - 1]), log[|log| - 1])
  }

  // ---- what the maps mean ----

  /** An add request for the registration was acknowledged for the member after the
      member's subscriptions were last cleared. */
  ghost predicate AckedSinceCleared(log: seq<Change>, reg: RegId, member: Uuid) {
    exists i :: 0 <= i < |log| && log[i] == Acked(reg, member) && NotIn(log, i, Cleared(member))
  }

  ghost predicate NotIn(log: seq<Change>, i: nat, c: Change) {
    forall j :: i < j < |log| ==> log[j] != c
  }

  /** An add request for it was acknowledged, and since then no member was cleared that had
      the registration recorded at that moment. */
  ghost predicate StillKnown(log: seq<Change>, reg: RegId, member: Uuid) {
    exists i :: 0 <= i < |log| && log[i] == Acked(reg, member) && NoHolderCleared(log, i, reg)
  }

  ghost predicate NoHolderCleared(log: seq<Change>, i: nat, reg: RegId) {
    forall j :: i < j < |log| && log[j].Cleared? ==> !AckedSinceCleared(log[..j], reg, log[j].member)
  }

  /** The correlation ID was recorded for the registration, and not dropped since. */
  ghost predicate RecordedSinceDropped(log: seq<Change>, reg: RegId, id: int) {
    exists i :: 0 <= i < |log| && log[i].Recorded? && log[i].reg == reg && id in log[i].ids &&
        NotIn(log, i, Dropped(reg))
  }

  lemma AckedOneMore(log: seq<Change>, reg: RegId, member: Uuid)
    requires log != []
    ensures
      var before, last := log[..|log| - 1], log[|log| - 1];
      AckedSinceCleared(log, reg, member) <==>
      last == Acked(reg, member) || (last != Cleared(member) && AckedSinceCleared(before, reg, member))
  {
    var n := |log| - 1;
    var before, last := log[..n], log[n];
    if last == Acked(reg, member) {
      assert NotIn(log, n, Cleared(member));
    }
    if last != Acked(reg, member) && AckedSinceCleared(log, reg, member) {
      var i :| 0 <= i < |log| && log[i] == Acked(reg, member) && NotIn(log, i, Cleared(member));
      assert before[i] == log[i] && NotIn(before, i, Cleared(member));
    }
    if last != Cleared(member) && AckedSinceCleared(before, reg, member) {
      var i :| 0 <= i < n && before[i] == Acked(reg, member) && NotIn(before, i, Cleared(member));
      forall j | i < j < |log| ensures log[j] != Cleared(member) {
        assert j < n ==> before[j] == log[j];
      }
      assert log[i] == Acked(reg, member) && NotIn(log, i, Cleared(member));
    }
  }

  lemma KnownOneMore(log: seq<Change>, reg: RegId, member: Uuid)
    requires log != []
    ensures
      var before, last := log[..|log| - 1], log[|log| - 1];
      StillKnown(log, reg, member) <==>
      || last == Acked(reg, member)
      || (StillKnown(before, reg, member) && (last.Cleared? ==> !AckedSinceCleared(before, reg, last.member)))
  {
    var n := |log| - 1;
    var before, last := log[..n], log[n];
    assert forall j :: 0 <= j <= n ==> before[..j] == log[..j];
    if last == Acked(reg, member) {
      assert NoHolderCleared(log, n, reg);
    }
    if last != Acked(reg, member) && StillKnown(log, reg, member) {
      var i :| 0 <= i < |log| && log[i] == Acked(reg, member) && NoHolderCleared(log, i, reg);
      assert before[i] == log[i] && NoHolderCleared(before, i, reg);
      assert log[..n] == before;
    }
    if StillKnown(before, reg, member) && (last.Cleared? ==> !AckedSinceCleared(before, reg, last.member)) {
      var i :| 0 <= i < n && before[i] == Acked(reg, member) && NoHolderCleared(before, i, reg);
      forall j | i < j < |log| && log[j].Cleared? ensures !AckedSinceCleared(log[..j], reg, log[j].member) {
        assert j < n ==> before[j] == log[j];
      }
      assert log[i] == Acked(reg, member) && NoHolderCleared(log, i, reg);
    }
  }

  lemma RecordedOneMore(log: seq<Change>, reg: RegId, id: int)
    requires log != []
    ensures
      var before, last := log[..|log| - 1], log[|log| - 1];
      RecordedSinceDropped(log, reg, id) <==>
      || (last.Recorded? && last.reg == reg && id in last.ids)
      || (last != Dropped(reg) && RecordedSinceDropped(before, reg, id))
  {
    var n := |log| - 1;
    var before, last := log[..n], log[n];
    if last.Recorded? && last.reg == reg && id in last.ids {
      assert NotIn(log, n, Dropped(reg));
    }
    if !(last.Recorded? && last.reg == reg && id in last.ids) && RecordedSinceDropped(log, reg, id) {
      var i :| 0 <= i < |log| && log[i].Recorded? && log[i].reg == reg && id in log[i].ids &&
          NotIn(log, i, Dropped(reg));
      assert before[i] == log[i] && NotIn(before, i, Dropped(reg));
    }
    if last != Dropped(reg) && RecordedSinceDropped(before, reg, id) {
      var i :| 0 <= i < n && before[i].Recorded? && before[i].reg == reg && id in before[i].ids &&
          NotIn(before, i, Dropped(reg));
      forall j | i < j < |log| ensures log[j] != Dropped(reg) {
        assert j < n ==> before[j] == log[j];
      }
      assert log[i] == before[i] && NotIn(log, i, Dropped(reg));
    }
  }

  lemma {:induction false} RecordedIffAcked(log: seq<Change>, reg: RegId, member: Uuid)
    ensures reg in RegsOf(After(log), member) <==> AckedSinceCleared(log, reg, member)
  {
    if log != [] {
      RecordedIffAcked(log[..|log| - 1], reg, member);
      AckedOneMore(log, reg, member);
    }
  }

  /** Exactly when a registration is skipped for a member. */
  lemma {:induction false} SkippedIffStillKnown(log: seq<Change>, reg: RegId, member: Uuid)
    ensures ConnExists(After(log), reg, member) <==> StillKnown(log, reg, member)
  {
    if log != [] {
      var before, last := log[..|log| - 1], log[|log| - 1];
      SkippedIffStillKnown(before, reg, member);
      KnownOneMore(log, reg, member);
      if last.Cleared? {
        RecordedIffAcked(before, reg, last.member);
      }
    }
  }

  /** Exactly which correlation IDs are kept for a registration. */
  lemma {:induction false} KeptIffRecorded(log: seq<Change>, reg: RegId, id: int)
    ensures id in IdsOf(After(log), reg) <==> RecordedSinceDropped(log, reg, id)
  {
    if log != [] {
      KeptIffRecorded(log[..|log| - 1], reg, id);
      RecordedOneMore(log, reg, id);
    }
  }

  lemma {:induction false} StillKnownWasAcked(log: seq<Change>, reg: RegId, member: Uuid)
    requires StillKnown(log, reg, member)
    ensures AckedSinceCleared(log, reg, member)
  {
    KnownOneMore(log, reg, member);
    AckedOneMore(log, reg, member);
    if log[|log| - 1] != Acked(reg, member) {
      StillKnownWasAcked(log[..|log| - 1], reg, member);
    }
  }

  /** Over every run: a registration is skipped for a member only if an acknowledged add
      request for it was recorded after the member's subscriptions were last cleared. */
  lemma SkippedOnlyIfAcked(log: seq<Change>, reg: RegId, member: Uuid)
    requires ConnExists(After(log), reg, member)
    ensures AckedSinceCleared(log, reg, member)
  {
    SkippedIffStillKnown(log, reg, member);
    StillKnownWasAcked(log, reg, member);
  }

  /** The converse fails: clearing one member makes the binder forget the registration for
      all members that share it, so it is sent again where it is already acknowledged. */
  lemma ClearingOneForgetsAll(log: seq<Change>, reg: RegId, a: Uuid, b: Uuid)
    requires a != b && AckedSinceCleared(log, reg, a) && AckedSinceCleared(log, reg, b)
    ensures AckedSinceCleared(log + [Cleared(b)], reg, a)
    ensures !ConnExists(After(log + [Cleared(b)]), reg, a)
  {
    var longer := log + [Cleared(b)];
    assert longer[..|longer| - 1] == log;
    AckedOneMore(longer, reg, a);
    KnownOneMore(longer, reg, a);
    SkippedIffStillKnown(longer, reg, a);
  }

  /** The recorded correlation IDs all belong to acknowledged requests. */
  ghost predicate OnlyAcknowledged(log: seq<Change>, acknowledged: set<int>) {
    forall i :: 0 <= i < |log| && log[i].Recorded? ==> Elements(log[i].ids) <= acknowledged
  }

  /** One more change, in the maps and in the log. */
  lemma AfterOneMore(log: seq<Change>, acknowledged: set<int>, c: Change)
    requires OnlyAcknowledged(log, acknowledged) && (c.Recorded? ==> Elements(c.ids) <= acknowledged)
    ensures After(log + [c]) == Apply(After(log), c) && OnlyAcknowledged(log + [c], acknowledged)
  {
    AfterStep(log, c);
  }

  lemma KeptWereAcknowledged(log: seq<Change>, acknowledged: set<int>, reg: RegId)
    requires OnlyAcknowledged(log, acknowledged)
    ensures Elements(IdsOf(After(log), reg)) <= acknowledged
  {
    forall id | id in IdsOf(After(log), reg) ensures id in acknowledged {
      KeptIffRecorded(log, reg, id);
      var i :| 0 <= i < |log| && log[i].Recorded? && log[i].reg == reg && id in log[i].ids &&
          NotIn(log, i, Dropped(reg));
      assert id in Elements(log[i].ids);
    }
  }

  // ---- requests ----

  /** What becomes of a request: it is not sent, or sent with a correlation ID and then
      refused or acknowledged. */
  datatype Reply = NotSent | Refused(id: int) | Acknowledged(id: int)

  type Replies = C.Conn -> Reply

  predicate AllSent(conns: seq<C.Conn>, reply: Replies) {
    forall i :: 0 <= i < |conns| ==> !reply(conns[i]).NotSent?
  }

  predicate AllAcknowledged(conns: seq<C.Conn>, reply: Replies) {
    forall i :: 0 <= i < |conns| ==> reply(conns[i]).Acknowledged?
  }

  function CorrelationIds(conns: seq<C.Conn>, reply: Replies): seq<int>
    requires AllSent(conns, reply)
  {
    if conns == [] then [] else CorrelationIds(conns[..|conns| - 1], reply) + [reply(conns[|conns| - 1]).id]
  }

  /** Requests go out in order up to the first that cannot be sent. */
  ghost predicate SentUpToFailure(sent: seq<C.Conn>, conns: seq<C.Conn>, reply: Replies) {
    && sent <= conns && AllSent(sent, reply)
    && (|sent| < |conns| ==> reply(conns[|sent|]).NotSent?)
  }

  /** All requests are sent before the first answer is awaited; one failure is enough to
      give up the correlation IDs of all. */
  method SendListenerRequests(conns: seq<C.Conn>, reply: Replies) returns (ids: Option<seq<int>>, sent: seq<C.Conn>)
    ensures SentUpToFailure(sent, conns, reply)
    ensures ids == if AllAcknowledged(conns, reply) then Some(CorrelationIds(conns, reply)) else None
  {
    var corrIds := [];
    for i := 0 to |conns|
      invariant AllSent(conns[..i], reply) && corrIds == CorrelationIds(conns[..i], reply)
    {
      assert conns[..i + 1][..i] == conns[..i];
      if reply(conns[i]).NotSent? {
        return None, conns[..i];
      }
      corrIds := corrIds + [reply(conns[i]).id];
    }
    assert conns[..|conns|] == conns;
    sent := conns;
    for i := 0 to |conns|
      invariant forall j :: 0 <= j < i ==> reply(conns[j]).Acknowledged?
    {
      if !reply(conns[i]).Acknowledged? {
        return None, sent;
      }
    }
    ids := Some(corrIds);
  }

  /** The correlation IDs of the acknowledged requests. */
  ghost function AckedIds(conns: seq<C.Conn>, reply: Replies): set<int> {
    if conns == [] then {} else AckedIds(conns[..|conns| - 1], reply) + AckedId(reply(conns[|conns| - 1]))
  }

  function AckedId(reply: Reply): set<int> {
    if reply.Acknowledged? then {reply.id} else {}
  }

  lemma {:induction false} IdsAcked(conns: seq<C.Conn>, reply: Replies)
    requires AllAcknowledged(conns, reply)
    ensures Elements(CorrelationIds(conns, reply)) <= AckedIds(conns, reply)
  {
    if conns != [] {
      IdsAcked(conns[..|conns| - 1], reply);
    }
  }

  // ---- the binder itself ----

  /** The records that adding a registration on some connections makes. */
  function Acks(reg: RegId, conns: seq<C.Conn>): seq<Change> {
    if conns == [] then [] else Acks(reg, conns[..|conns| - 1]) + [Acked(reg, conns[|conns| - 1].member)]
  }

  lemma AcksOneMore(log: seq<Change>, reg: RegId, conns: seq<C.Conn>, i: nat)
    requires i < |conns|
    ensures (log + Acks(reg, conns[..i])) + [Acked(reg, conns[i].member)] == log + Acks(reg, conns[..i + 1])
  {
    assert conns[..i + 1][..i] == conns[..i];
  }

  function Clears(conns: seq<C.Conn>): seq<Change> {
    if conns == [] then [] else Clears(conns[..|conns| - 1]) + [Cleared(conns[|conns| - 1].member)]
  }

  lemma {:induction false} ClearsMeaning(conns: seq<C.Conn>, i: nat)
    requires i < |conns|
    ensures |Clears(conns)| == |conns| && Clears(conns)[i] == Cleared(conns[i].member)
  {
    if |conns| > 1 {
      ClearsMeaning(conns[..|conns| - 1], if i < |conns| - 1 then i else 0);
    }
  }

  lemma {:induction false} ClearsOnly(conns: seq<C.Conn>)
    ensures forall i :: 0 <= i < |Clears(conns)| ==> Clears(conns)[i].Cleared?
  {
    if conns != [] {
      ClearsOnly(conns[..|conns| - 1]);
    }
  }

  /** What a removal leaves: none of the members cleared counts as subscribed to anything, not
      only to the registration removed. */
  lemma RemoveForgetsAll(log: seq<Change>, id: RegId, conns: seq<C.Conn>, i: nat, reg: RegId)
    requires i < |conns|
    ensures !ConnExists(After(log + [Dropped(id)] + Clears(conns)), reg, conns[i].member)
  {
    var longer, m := log + [Dropped(id)] + Clears(conns), conns[i].member;
    ClearsMeaning(conns, i);
    ClearsOnly(conns);
    assert forall j :: |log| < j < |longer| ==> longer[j] == Clears(conns)[j - |log| - 1];
    assert longer[|log| + 1 + i] == Cleared(m);
    assert !AckedSinceCleared(longer, reg, m);
    if ConnExists(After(longer), reg, m) {
      SkippedOnlyIfAcked(longer, reg, m);
    }
  }

  ghost predicate HasMember(conns: seq<C.Conn>, m: Uuid) {
    exists i :: 0 <= i < |conns| && conns[i].member == m
  }

  lemma HasMemberOneMore(conns: seq<C.Conn>, m: Uuid)
    requires conns != []
    ensures HasMember(conns, m) <==> HasMember(conns[..|conns| - 1], m) || conns[|conns| - 1].member == m
  {
    var n := |conns| - 1;
    if HasMember(conns[..n], m) {
      var i :| 0 <= i < n && conns[..n][i].member == m;
      assert conns[i].member == m;
    }
    assert conns[n].member == m ==> HasMember(conns, m);
    if HasMember(conns, m) && conns[n].member != m {
      var i :| 0 <= i < |conns| && conns[i].member == m;
      assert conns[..n][i].member == m;
    }
  }

  /** What adding on some connections gives: their members, and no others, are subscribed in
      addition, other registrations stay as they were, and so do the correlation IDs. */
  lemma {:induction false} AcksSubscribe(log: seq<Change>, reg: RegId, conns: seq<C.Conn>, r: RegId, m: Uuid)
    ensures
      var s, s' := After(log), After(log + Acks(reg, conns));
      && s'.correlationIds == s.correlationIds
      && (ConnExists(s', r, m) <==> ConnExists(s, r, m) || (r == reg && HasMember(conns, m)))
    decreases |conns|
  {
    if conns == [] {
      assert log + [] == log;
    } else {
      var init, c := conns[..|conns| - 1], Acked(reg, conns[|conns| - 1].member);
      AcksSubscribe(log, reg, init, r, m);
      HasMemberOneMore(conns, m);
      AppendAssociates(log, Acks(reg, init), [c]);
      AfterStep(log + Acks(reg, init), c);
    }
  }

  lemma AfterStep(log: seq<Change>, c: Change)
    ensures After(log + [c]) == Apply(After(log), c)
  {
    assert (log + [c])[..|log|] == log;
  }

  /** The correlation IDs that come back are those of the requests, in their order. */
  lemma {:induction false} CorrelationIdsMeaning(conns: seq<C.Conn>, reply: Replies, i: nat)
    requires AllSent(conns, reply) && i < |conns|
    ensures |CorrelationIds(conns, reply)| == |conns| && CorrelationIds(conns, reply)[i] == reply(conns[i]).id
  {
    if |conns| > 1 {
      CorrelationIdsMeaning(conns[..|conns| - 1], reply, if i < |conns| - 1 then i else 0);
    }
  }

  /** After a successful add, every connection's member is subscribed to the registration, and
      the correlation IDs of the requests are kept in addition to those from before. */
  lemma AddSubscribes(log: seq<Change>, reg: RegId, conns: seq<C.Conn>, reply: Replies, i: nat)
    requires AllAcknowledged(conns, reply) && i < |conns|
    ensures
      var s, s' := After(log), After(log + [Recorded(reg, CorrelationIds(conns, reply))] + Acks(reg, conns));
      && ConnExists(s', reg, conns[i].member)
      && IdsOf(s', reg) == IdsOf(s, reg) + CorrelationIds(conns, reply)
  {
    var recorded := log + [Recorded(reg, CorrelationIds(conns, reply))];
    AfterStep(log, Recorded(reg, CorrelationIds(conns, reply)));
    AcksSubscribe(recorded, reg, conns, reg, conns[i].member);
  }

  /** Does the connection's member lack the registration? */
  function Lacks(s: Subs, reg: RegId): C.Conn -> bool {
    (conn: C.Conn) => !ConnExists(s, reg, conn.member)
  }

  /** The records of the registrations subscribed for a new connection, in order. */
  function Subscribes(regs: seq<RegId>, member: Uuid, reply: RegId -> Reply): seq<Change>
    requires forall i :: 0 <= i < |regs| ==> reply(regs[i]).Acknowledged?
  {
    if regs == [] then []
    else
      var init, last := regs[..|regs| - 1], regs[|regs| - 1];
      Subscribes(init, member, reply) + [Recorded(last, [reply(last).id]), Acked(last, member)]
  }

  /** The correlation IDs of the acknowledged requests of a new connection. */
  ghost function AckedRegIds(regs: seq<RegId>, reply: RegId -> Reply): set<int> {
    if regs == [] then {} else AckedRegIds(regs[..|regs| - 1], reply) + AckedId(reply(regs[|regs| - 1]))
  }

  lemma AckedRegIdsOneMore(before: set<int>, regs: seq<RegId>, reg: RegId, reply: RegId -> Reply)
    ensures before + AckedRegIds(regs + [reg], reply) == (before + AckedRegIds(regs, reply)) + AckedId(reply(reg))
  {
    assert (regs + [reg])[..|regs|] == regs;
  }

  /** The registrations among `regs` that the member lacks. */
  function LackedBy(s: Subs, regs: set<RegId>, member: Uuid): set<RegId> {
    set r | r in regs && !ConnExists(s, r, member)
  }

  /** `done` were subscribed, in this order; `failed` is what stopped it. */
  ghost predicate Attempted(s: Subs, regs: set<RegId>, member: Uuid, reply: RegId -> Reply, done: seq<RegId>,
                            failed: Option<RegId>) {
    && NoRepeats(done) && Elements(done) <= LackedBy(s, regs, member)
    && (forall i :: 0 <= i < |done| ==> reply(done[i]).Acknowledged?)
    && match failed
       case Some(r) => r in LackedBy(s, regs, member) && r !in done && !reply(r).Acknowledged?
       case None => Elements(done) == LackedBy(s, regs, member)
  }

  datatype Outcome = AlreadyThere | Failed | Subscribed

  /** The member has the same of the given registrations. */
  ghost predicate SameFor(s: Subs, s': Subs, regs: set<RegId>, member: Uuid) {
    forall r :: r in regs ==> (ConnExists(s, r, member) <==> ConnExists(s', r, member))
  }

  lemma SubscribesOneMore(log: seq<Change>, done: seq<RegId>, reg: RegId, member: Uuid, reply: RegId -> Reply)
    requires (forall i :: 0 <= i < |done| ==> reply(done[i]).Acknowledged?) && reply(reg).Acknowledged?
    ensures
      && (forall i :: 0 <= i < |done + [reg]| ==> reply((done + [reg])[i]).Acknowledged?)
      && (log + Subscribes(done, member, reply)) + [Recorded(reg, [reply(reg).id]), Acked(reg, member)] ==
         log + Subscribes(done + [reg], member, reply)
  {
    assert (done + [reg])[..|done|] == done;
  }

  lemma AttemptedOneMore(s: Subs, regs: set<RegId>, member: Uuid, reply: RegId -> Reply, done: seq<RegId>, reg: RegId)
    requires Attempted(s, regs, member, reply, done, None)
    requires reg !in regs && !ConnExists(s, reg, member) && reply(reg).Acknowledged?
    ensures Attempted(s, regs + {reg}, member, reply, done + [reg], None)
  {
    assert forall i :: 0 <= i < |done| ==> done[i] in Elements(done);
    assert Elements(done + [reg]) == Elements(done) + {reg};
    assert LackedBy(s, regs + {reg}, member) == LackedBy(s, regs, member) + {reg};
  }

  /** What a binder has before it subscribes a new connection. */
  datatype Start = Start(state: Subs, log: seq<Change>, acknowledged: set<int>)

  /** The registrations `regs` are dealt with, up to the one that failed: those lacked are
      subscribed and recorded. */
  ghost predicate Progress(start: Start, regs: set<RegId>, member: Uuid, reply: RegId -> Reply, done: seq<RegId>,
                           failed: Option<RegId>, log: seq<Change>, acknowledged: set<int>) {
    && Attempted(start.state, regs, member, reply, done, failed)
    && log == start.log + Subscribes(done, member, reply)
    && acknowledged == start.acknowledged + AckedRegIds(done, reply)
  }

  lemma NoProgress(start: Start, member: Uuid, reply: RegId -> Reply)
    ensures Progress(start, {}, member, reply, [], None, start.log, start.acknowledged)
  {
    assert LackedBy(start.state, {}, member) == {} && Elements<RegId>([]) == {};
  }

  lemma ProgressOneMore(start: Start, seen: set<RegId>, member: Uuid, reply: RegId -> Reply, done: seq<RegId>,
                        log: seq<Change>, acknowledged: set<int>, reg: RegId)
    requires Progress(start, seen, member, reply, done, None, log, acknowledged)
    requires reg !in seen && !ConnExists(start.state, reg, member) && reply(reg).Acknowledged?
    ensures Progress(start, seen + {reg}, member, reply, done + [reg], None,
                     log + [Recorded(reg, [reply(reg).id]), Acked(reg, member)], acknowledged + AckedId(reply(reg)))
  {
    AttemptedOneMore(start.state, seen, member, reply, done, reg);
    SubscribesOneMore(start.log, done, reg, member, reply);
    AckedRegIdsOneMore(start.acknowledged, done, reg, reply);
  }

  lemma SubscribeOne(log: seq<Change>, reg: RegId, member: Uuid, id: int, r: RegId)
    ensures
      var s, s' := After(log), After(log + [Recorded(reg, [id]), Acked(reg, member)]);
      && (ConnExists(s', r, member) <==> ConnExists(s, r, member) || r == reg)
      && IdsOf(s', r) == IdsOf(s, r) + if r == reg then [id] else []
  {
    var recorded := log + [Recorded(reg, [id])];
    AfterStep(log, Recorded(reg, [id]));
    AfterStep(recorded, Acked(reg, member));
    assert log + [Recorded(reg, [id]), Acked(reg, member)] == recorded + [Acked(reg, member)];
    assert IdsOf(After(log), r) + [] == IdsOf(After(log), r);
  }

  /** What subscribing a new connection gives: its member is subscribed to the registrations
      `regs` in addition. */
  lemma {:induction false} SubscribesMeaning(log: seq<Change>, regs: seq<RegId>, member: Uuid, reply: RegId -> Reply,
                                             r: RegId)
    requires forall i :: 0 <= i < |regs| ==> reply(regs[i]).Acknowledged?
    ensures ConnExists(After(log + Subscribes(regs, member, reply)), r, member) <==>
            ConnExists(After(log), r, member) || r in regs
    decreases |regs|
  {
    if regs == [] {
      assert log + [] == log;
    } else {
      var init, last := regs[..|regs| - 1], regs[|regs| - 1];
      SubscribesMeaning(log, init, member, reply, r);
      AppendAssociates(log, Subscribes(init, member, reply), [Recorded(last, [reply(last).id]), Acked(last, member)]);
      SubscribeOne(log + Subscribes(init, member, reply), last, member, reply(last).id, r);
      assert regs == init + [last];
    }
  }

  /** The correlation IDs kept for a registration, in order. */
  function IdsFor(regs: seq<RegId>, reply: RegId -> Reply, r: RegId): seq<int>
    requires forall i :: 0 <= i < |regs| ==> reply(regs[i]).Acknowledged?
  {
    if regs == [] then []
    else IdsFor(regs[..|regs| - 1], reply, r) + if regs[|regs| - 1] == r then [reply(r).id] else []
  }

  /** And the correlation ID of each request is kept for its registration. */
  lemma {:induction false} SubscribesKeepIds(log: seq<Change>, regs: seq<RegId>, member: Uuid, reply: RegId -> Reply,
                                             r: RegId)
    requires forall i :: 0 <= i < |regs| ==> reply(regs[i]).Acknowledged?
    ensures IdsOf(After(log + Subscribes(regs, member, reply)), r) == IdsOf(After(log), r) + IdsFor(regs, reply, r)
    decreases |regs|
  {
    if regs == [] {
      assert log + [] == log;
    } else {
      var init, last := regs[..|regs| - 1], regs[|regs| - 1];
      SubscribesKeepIds(log, init, member, reply, r);
      AppendAssociates(log, Subscribes(init, member, reply), [Recorded(last, [reply(last).id]), Acked(last, member)]);
      SubscribeOne(log + Subscribes(init, member, reply), last, member, reply(last).id, r);
      AppendAssociates(IdsOf(After(log), r), IdsFor(init, reply, r), if last == r then [reply(r).id] else []);
    }
  }

  /** Without a failure the member has all registrations; in any case those subscribed. */
  lemma OpenedIsSubscribed(start: Start, regs: set<RegId>, member: Uuid, reply: RegId -> Reply, done: seq<RegId>,
                           failed: Option<RegId>, log: seq<Change>, acknowledged: set<int>, r: RegId)
    requires start.state == After(start.log) && Progress(start, regs, member, reply, done, failed, log, acknowledged)
    requires r in regs && (failed == None || r in done)
    ensures ConnExists(After(log), r, member)
  {
    SubscribesMeaning(start.log, done, member, reply, r);
    assert r in LackedBy(start.state, regs, member) <==> !ConnExists(start.state, r, member);
    assert r in Elements(done) <==> r in done;
  }

  lemma ProgressSkip(start: Start, seen: set<RegId>, member: Uuid, reply: RegId -> Reply, done: seq<RegId>,
                     log: seq<Change>, acknowledged: set<int>, reg: RegId)
    requires Progress(start, seen, member, reply, done, None, log, acknowledged) && ConnExists(start.state, reg, member)
    ensures Progress(start, seen + {reg}, member, reply, done, None, log, acknowledged)
  {
    assert LackedBy(start.state, seen + {reg}, member) == LackedBy(start.state, seen, member);
  }

  lemma ProgressStop(start: Start, all: set<RegId>, seen: set<RegId>, member: Uuid, reply: RegId -> Reply,
                     done: seq<RegId>,
                     log: seq<Change>, acknowledged: set<int>, reg: RegId)
    requires Progress(start, seen, member, reply, done, None, log, acknowledged)
    requires seen <= all && reg in all && reg !in seen
    requires !ConnExists(start.state, reg, member) && !reply(reg).Acknowledged?
    ensures Progress(start, all, member, reply, done, Some(reg), log, acknowledged)
  {
    assert forall r :: r in done ==> r in Elements(done);
  }

  class ConnectionListenerBinder {
    var regs: set<RegId>
    var correlationIds: map<RegId, seq<int>>
    var subscriptionToMembers: map<RegId, set<Uuid>>
    var memberSubscriptions: map<Uuid, seq<RegId>>
    var connectionCount: int
    const smart: bool
    ghost var log: seq<Change>
    ghost var acknowledged: set<int>

    function State(): Subs
      reads this
    {
      Subs(subscriptionToMembers, memberSubscriptions, correlationIds)
    }

    ghost function Now(): Start
      reads this
    {
      Start(State(), log, acknowledged)
    }

    /** The maps are the result of the recorded changes and nothing else, and only IDs of
        acknowledged requests are recorded. */
    ghost predicate Valid()
      reads this
    {
      State() == After(log) && OnlyAcknowledged(log, acknowledged)
    }

    constructor (smart: bool)
      ensures Valid() && log == [] && acknowledged == {} && regs == {} && connectionCount == 0 && this.smart == smart
    {
      this.smart := smart;
      regs, correlationIds, subscriptionToMembers, memberSubscriptions, connectionCount := {}, map[], map[], map[], 0;
      log, acknowledged := [], {};
    }

    /** Sends add requests over the active connections whose members lack the registration,
        in the order the filter leaves them in; they are recorded only if all succeed. */
    method Add(id: RegId, active: array<C.Conn>, reply: Replies)
      returns (ok: bool, conns: seq<C.Conn>, sent: seq<C.Conn>)
      requires Valid()
      modifies this, active
      ensures Valid() && regs == old(regs) + {id} && connectionCount == old(connectionCount)
      ensures multiset(conns) == multiset(C.Accepted(old(active[..]), Lacks(old(State()), id)))
      ensures SentUpToFailure(sent, conns, reply) && (ok <==> AllAcknowledged(conns, reply))
      ensures log == if ok then old(log) + [Recorded(id, CorrelationIds(conns, reply))] + Acks(id, conns) else old(log)
      ensures acknowledged == old(acknowledged) + AckedIds(sent, reply)
    {
      regs := regs + {id};
      var n := C.FilterConns(active, Lacks(State(), id));
      conns := active[..n];
      ok, sent := AddOn(id, conns, reply);
    }

    method AddOn(id: RegId, conns: seq<C.Conn>, reply: Replies) returns (ok: bool, sent: seq<C.Conn>)
      requires Valid()
      modifies this`correlationIds, this`subscriptionToMembers, this`memberSubscriptions, this`log, this`acknowledged
      ensures Valid() && SentUpToFailure(sent, conns, reply) && (ok <==> AllAcknowledged(conns, reply))
      ensures log == if ok then old(log) + [Recorded(id, CorrelationIds(conns, reply))] + Acks(id, conns) else old(log)
      ensures acknowledged == old(acknowledged) + AckedIds(sent, reply)
    {
      var ids;
      ids, sent := Request(conns, reply);
      if ids == None {
        return false, sent;
      }
      UpdateCorrelationIds(id, ids.value);
      AddSubscriptions(id, conns);
      ok := true;
    }

    /** Only what a member acknowledged enters `acknowledged`. */
    method Request(conns: seq<C.Conn>, reply: Replies) returns (ids: Option<seq<int>>, sent: seq<C.Conn>)
      requires Valid()
      modifies this`acknowledged
      ensures Valid() && SentUpToFailure(sent, conns, reply)
      ensures ids == if AllAcknowledged(conns, reply) then Some(CorrelationIds(conns, reply)) else None
      ensures acknowledged == old(acknowledged) + AckedIds(sent, reply)
      ensures ids.Some? ==> Elements(ids.value) <= acknowledged
    {
      ids, sent := SendListenerRequests(conns, reply);
      acknowledged := acknowledged + AckedIds(sent, reply);
      if ids.Some? {
        IdsAcked(conns, reply);
        assert |sent| == |conns|;
        assert sent == conns;
      }
    }

    method AddSubscriptions(id: RegId, conns: seq<C.Conn>)
      requires Valid()
      modifies this`subscriptionToMembers, this`memberSubscriptions, this`log
      ensures Valid() && log == old(log) + Acks(id, conns)
    {
      for i := 0 to |conns|
        invariant Valid() && log == old(log) + Acks(id, conns[..i])
      {
        AcksOneMore(old(log), id, conns, i);
        AddSubscriptionToMember(id, conns[i].member);
      }
      assert conns[..|conns|] == conns;
    }

    /** Forgets the registration at once, gives back the correlation IDs to be removed from
        the invocation service, clears every active member, and then sends the requests. */
    method Remove(id: RegId, active: seq<C.Conn>, reply: Replies)
      returns (ok: bool, unneeded: seq<int>, sent: seq<C.Conn>)
      requires Valid()
      modifies this
      ensures Valid() && regs == old(regs) - {id} && connectionCount == old(connectionCount)
      ensures id !in old(regs) ==> ok && unneeded == [] && sent == [] && log == old(log)
      ensures id in old(regs) ==>
                && log == old(log) + [Dropped(id)] + Clears(active)
                && unneeded == IdsOf(old(State()), id)
                && SentUpToFailure(sent, active, reply) && (ok <==> AllAcknowledged(active, reply))
      ensures Elements(unneeded) <= old(acknowledged)
      ensures acknowledged == old(acknowledged) + AckedIds(sent, reply)
    {
      if id !in regs {
        assert AckedIds([], reply) == {};
        return true, [], [];
      }
      regs := regs - {id};
      unneeded := RemoveCorrelationIds(id);
      ClearMembers(active);
      var ids;
      ids, sent := Request(active, reply);
      ok := ids.Some?;
    }

    method ClearMembers(conns: seq<C.Conn>)
      requires Valid()
      modifies this`subscriptionToMembers, this`memberSubscriptions, this`log
      ensures Valid() && log == old(log) + Clears(conns)
    {
      for i := 0 to |conns|
        invariant Valid() && log == old(log) + Clears(conns[..i])
      {
        assert conns[..i + 1][..i] == conns[..i];
        RemoveMemberSubscriptions(conns[i].member);
      }
      assert conns[..|conns|] == conns;
    }

    /** Subscribes a new connection to the registrations its member lacks, in any order;
        nothing is requested or recorded after the first failure. */
    method HandleConnectionOpened(conn: C.Conn, reply: RegId -> Reply) returns (done: seq<RegId>, failed: Option<RegId>)
      requires Valid()
      modifies this
      ensures Valid() && regs == old(regs) && connectionCount == old(connectionCount) + 1
      ensures !smart && connectionCount > 0 ==>
                done == [] && failed == None && log == old(log) && acknowledged == old(acknowledged)
      ensures smart || connectionCount <= 0 ==>
                Progress(old(Now()), regs, conn.member, reply, done, failed, log, acknowledged)
    {
      connectionCount := connectionCount + 1;
      if !smart && connectionCount > 0 {
        return [], None;
      }
      done, failed := SubscribeAll(conn, reply);
    }

    method SubscribeAll(conn: C.Conn, reply: RegId -> Reply) returns (done: seq<RegId>, failed: Option<RegId>)
      requires Valid()
      modifies this`correlationIds, this`subscriptionToMembers, this`memberSubscriptions, this`log, this`acknowledged
      ensures Valid()
      ensures Progress(old(Now()), regs, conn.member, reply, done, failed, log, acknowledged)
    {
      done, failed := [], None;
      var todo, member := regs, conn.member;
      ghost var start, seen: set<RegId> := Now(), {};
      NoProgress(start, member, reply);
      while todo != {}
        invariant Valid() && Splits(regs, seen, todo)
        invariant Progress(start, seen, member, reply, done, None, log, acknowledged)
        invariant SameFor(start.state, State(), todo, member)
        decreases |todo|
      {
        var reg := Pick(todo);
        SplitsOneMore(regs, seen, todo, reg);
        ghost var log1, acked1 := log, acknowledged;
        var outcome := SubscribeIfLacking(reg, conn, reply(reg), todo);
        match outcome {
          case AlreadyThere =>
            ProgressSkip(start, seen, member, reply, done, log1, acked1, reg);
          case Failed =>
            ProgressStop(start, regs, seen, member, reply, done, log1, acked1, reg);
            return done, Some(reg);
          case Subscribed =>
            ProgressOneMore(start, seen, member, reply, done, log1, acked1, reg);
            done := done + [reg];
        }
        todo, seen := todo - {reg}, seen + {reg};
      }
      assert seen == regs;
    }

    method SubscribeIfLacking(reg: RegId, conn: C.Conn, reply: Reply, ghost todo: set<RegId>) returns (outcome: Outcome)
      requires Valid()
      modifies this`correlationIds, this`subscriptionToMembers, this`memberSubscriptions, this`log, this`acknowledged
      ensures Valid() && SameFor(old(State()), State(), todo - {reg}, conn.member)
      ensures outcome == if ConnExists(old(State()), reg, conn.member) then AlreadyThere
                         else if reply.Acknowledged? then Subscribed else Failed
      ensures log == if outcome.Subscribed?
          then old(log) + [Recorded(reg, [reply.id]), Acked(reg, conn.member)] else old(log)
      ensures acknowledged == if outcome.Subscribed? then old(acknowledged) + AckedId(reply) else old(acknowledged)
    {
      if ConnExists(State(), reg, conn.member) {
        return AlreadyThere;
      }
      var id := SendOne(conn, reply);
      if id == None {
        return Failed;
      }
      Subscribe(reg, conn.member, id.value);
      return Subscribed;
    }

    method SendOne(conn: C.Conn, reply: Reply) returns (id: Option<int>)
      requires Valid()
      modifies this`acknowledged
      ensures Valid() && id == if reply.Acknowledged? then Some(reply.id) else None
      ensures acknowledged == old(acknowledged) + AckedId(reply)
    {
      var replies := (c: C.Conn) => reply;
      var ids, sent := Request([conn], replies);
      assert AllAcknowledged([conn], replies) <==> replies([conn][0]).Acknowledged?;
      assert sent == [] || sent == [conn];
      assert [conn][..0] == [] && AckedIds([conn], replies) == AckedId(reply);
      if ids == None {
        return None;
      }
      assert ids.value == [reply.id];
      return Some(ids.value[0]);
    }

    method Subscribe(reg: RegId, member: Uuid, id: int)
      requires Valid() && id in acknowledged
      modifies this`correlationIds, this`subscriptionToMembers, this`memberSubscriptions, this`log
      ensures Valid() && log == old(log) + [Recorded(reg, [id]), Acked(reg, member)]
      ensures forall r :: r != reg ==> (ConnExists(State(), r, member) <==> ConnExists(old(State()), r, member))
    {
      UpdateCorrelationIds(reg, [id]);
      AddSubscriptionToMember(reg, member);
    }

    method AddSubscriptionToMember(reg: RegId, member: Uuid)
      requires Valid()
      modifies this`subscriptionToMembers, this`memberSubscriptions, this`log
      ensures Valid() && log == old(log) + [Acked(reg, member)]
      ensures State() == Apply(old(State()), Acked(reg, member))
    {
      AfterOneMore(log, acknowledged, Acked(reg, member));
      if reg !in subscriptionToMembers {
        subscriptionToMembers := subscriptionToMembers[reg := {}];
      }
      subscriptionToMembers := subscriptionToMembers[reg := subscriptionToMembers[reg] + {member}];
      var subs := if member in memberSubscriptions then memberSubscriptions[member] else [];
      memberSubscriptions := memberSubscriptions[member := subs + [reg]];
      log := log + [Acked(reg, member)];
      assert subscriptionToMembers == Apply(old(State()), Acked(reg, member)).subscriptionToMembers;
    }

    method RemoveMemberSubscriptions(member: Uuid)
      requires Valid()
      modifies this`subscriptionToMembers, this`memberSubscriptions, this`log
      ensures Valid() && log == old(log) + [Cleared(member)]
      ensures State() == Apply(old(State()), Cleared(member))
    {
      AfterOneMore(log, acknowledged, Cleared(member));
      log := log + [Cleared(member)];
      if member !in memberSubscriptions {
        return;
      }
      var subs := memberSubscriptions[member];
      for i := 0 to |subs|
        invariant subscriptionToMembers == old(subscriptionToMembers) - Elements(subs[..i])
        invariant memberSubscriptions == old(memberSubscriptions) && log == old(log) + [Cleared(member)]
      {
        subscriptionToMembers := subscriptionToMembers - {subs[i]};
        assert Elements(subs[..i + 1]) == Elements(subs[..i]) + {subs[i]};
      }
      assert subs[..|subs|] == subs;
      memberSubscriptions := memberSubscriptions - {member};
    }

    method HandleConnectionClosed(member: Uuid)
      requires Valid()
      modifies this
      ensures Valid() && regs == old(regs) && connectionCount == old(connectionCount) - 1
      ensures log == old(log) + [Cleared(member)] && correlationIds == old(correlationIds)
    {
      connectionCount := connectionCount - 1;
      RemoveMemberSubscriptions(member);
    }

    method UpdateCorrelationIds(id: RegId, ids: seq<int>)
      requires Valid() && Elements(ids) <= acknowledged
      modifies this`correlationIds, this`log
      ensures Valid() && log == old(log) + [Recorded(id, ids)]
      ensures State() == Apply(old(State()), Recorded(id, ids))
    {
      ghost var before := State();
      AfterOneMore(log, acknowledged, Recorded(id, ids));
      assert [] + ids == ids;
      if id in correlationIds {
        correlationIds := correlationIds[id := correlationIds[id] + ids];
      } else {
        correlationIds := correlationIds[id := ids];
      }
      assert correlationIds == before.correlationIds[id := IdsOf(before, id) + ids];
      log := log + [Recorded(id, ids)];
    }

    method RemoveCorrelationIds(id: RegId) returns (ids: seq<int>)
      requires Valid()
      modifies this`correlationIds, this`log
      ensures Valid() && log == old(log) + [Dropped(id)]
      ensures ids == IdsOf(old(State()), id) && Elements(ids) <= acknowledged
    {
      KeptWereAcknowledged(log, acknowledged, id);
      ids := [];
      if id in correlationIds {
        ids := correlationIds[id];
        correlationIds := correlationIds - {id};
      }
      AfterOneMore(log, acknowledged, Dropped(id));
      log := log + [Dropped(id)];
      assert correlationIds == old(correlationIds) - {id};
    }
  }
}
