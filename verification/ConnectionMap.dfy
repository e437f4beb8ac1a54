/** `connectionMap` of internal/cluster/connection_manager.go, the round-robin load balancer
    of cluster/load_balancer.go, and the in-place filter `FilterConns`. */
module ConnectionMaps {
  import opened Wrappers
  import opened Members

  datatype Conn = Conn(id: nat, member: Uuid)

  datatype Conns = Conns(addrToConn: map<Address, Conn>, addrs: seq<Address>, uuidToConn: map<Uuid, Conn>)

  const Empty := Conns(map[], [], map[])

  // ---- the operations on values ----

  /** A second connection to the same member is refused. */
  function Added(s: Conns, conn: Conn, addr: Address): Conns {
    if conn.member in s.uuidToConn then s
    else Conns(s.addrToConn[addr := conn], s.addrs + [addr], s.uuidToConn[conn.member := conn])
  }

  /** The first occurrence is overwritten by the last address. */
  function WithoutAddr(addrs: seq<Address>, addr: Address): seq<Address> {
    if addr !in addrs then addrs
    else var i := IndexOf(addrs, addr); addrs[i := addrs[|addrs| - 1]][..|addrs| - 1]
  }

  function IndexOf(addrs: seq<Address>, addr: Address): (i: nat)
    requires addr in addrs
    ensures i < |addrs| && addrs[i] == addr && addr !in addrs[..i]
  {
    if addrs[0] == addr then 0 else 1 + IndexOf(addrs[1..], addr)
  }

  /** Is a connection with this ID filed under the address? */
  predicate FiledUnder(s: Conns, addr: Address, id: nat) {
    addr in s.addrToConn && s.addrToConn[addr].id == id
  }

  function RemovedAt(s: Conns, addr: Address): Conns
    requires addr in s.addrToConn
  {
    Conns(s.addrToConn - {addr}, WithoutAddr(s.addrs, addr), s.uuidToConn - {s.addrToConn[addr].member})
  }

  // ---- the three collections agree ----

  ghost predicate ListsAddrs(s: Conns) {
    NoRepeats(s.addrs) && forall a :: a in s.addrs <==> a in s.addrToConn
  }

  /** Every connection filed under an address is the one filed under its member. */
  ghost predicate AddrsInUuids(s: Conns) {
    && (forall a :: a in s.addrToConn ==>
        s.addrToConn[a].member in s.uuidToConn && s.uuidToConn[s.addrToConn[a].member] == s.addrToConn[a])
    && (forall a, b :: a in s.addrToConn && b in s.addrToConn && s.addrToConn[a] == s.addrToConn[b] ==> a == b)
  }

  ghost predicate HasAddr(s: Conns, conn: Conn) {
    exists a :: a in s.addrToConn && s.addrToConn[a] == conn
  }

  ghost predicate UuidsInAddrs(s: Conns) {
    forall u :: u in s.uuidToConn ==> s.uuidToConn[u].member == u && HasAddr(s, s.uuidToConn[u])
  }

  /** `addrs` lists the keys of `addrToConn` without repeats, and both maps hold the same
      connections, each under one address and under its own member. */
  ghost predicate Agree(s: Conns) {
    ListsAddrs(s) && AddrsInUuids(s) && UuidsInAddrs(s)
  }

  /** A connection ID belongs to one connection. */
  ghost predicate UniqueIds(s: Conns, memberOf: nat -> Uuid) {
    forall u :: u in s.uuidToConn ==> s.uuidToConn[u].member == memberOf(s.uuidToConn[u].id)
  }

  lemma {:induction false} WithoutAddrMeaning(addrs: seq<Address>, addr: Address)
    requires NoRepeats(addrs)
    ensures NoRepeats(WithoutAddr(addrs, addr))
    ensures forall a :: a in WithoutAddr(addrs, addr) <==> a in addrs && a != addr
  {
    if addr in addrs {
      var i, n := IndexOf(addrs, addr), |addrs| - 1;
      var r := WithoutAddr(addrs, addr);
      forall a | a in addrs && a != addr ensures a in r {
        var j :| 0 <= j < |addrs| && addrs[j] == a;
        assert if j == n then r[i] == a else r[j] == a;
      }
    }
  }

  lemma AddKeepsAgreement(s: Conns, conn: Conn, addr: Address)
    requires Agree(s) && (conn.member !in s.uuidToConn ==> addr !in s.addrToConn)
    ensures Agree(Added(s, conn, addr))
  {
    if conn.member !in s.uuidToConn {
      var s' := Added(s, conn, addr);
      assert ListsAddrs(s');
      assert AddrsInUuids(s');
      forall u | u in s'.uuidToConn ensures HasAddr(s', s'.uuidToConn[u]) {
        if u == conn.member {
          assert s'.addrToConn[addr] == conn;
        } else {
          var a :| a in s.addrToConn && s.addrToConn[a] == s.uuidToConn[u];
          assert s'.addrToConn[a] == s.addrToConn[a];
        }
      }
    }
  }

  /** The hypothesis is needed: an accepted connection whose address is already in use
      always breaks the agreement. */
  lemma AddAgreesIffAddressFree(s: Conns, conn: Conn, addr: Address)
    requires Agree(s) && conn.member !in s.uuidToConn
    ensures Agree(Added(s, conn, addr)) <==> addr !in s.addrToConn
  {
    if addr in s.addrToConn {
      var s' := Added(s, conn, addr);
      var i :| 0 <= i < |s.addrs| && s.addrs[i] == addr;
      assert s'.addrs[i] == addr && s'.addrs[|s.addrs|] == addr;
    } else {
      AddKeepsAgreement(s, conn, addr);
    }
  }

  lemma RemoveKeepsAgreement(s: Conns, addr: Address)
    requires Agree(s) && addr in s.addrToConn
    ensures Agree(RemovedAt(s, addr))
  {
    WithoutAddrMeaning(s.addrs, addr);
    var s' := RemovedAt(s, addr);
    forall u | u in s'.uuidToConn ensures HasAddr(s', s'.uuidToConn[u]) {
      assert u in s.uuidToConn && HasAddr(s, s.uuidToConn[u]);
      var a :| a in s.addrToConn && s.addrToConn[a] == s.uuidToConn[u];
      assert s'.addrToConn[a] == s.addrToConn[a];
    }
  }

  /** The connection rejected as a duplicate is not the one held, so removing it by its ID
      finds nothing: the accepted connection stays. */
  lemma RejectedDuplicateNotFiled(s: Conns, conn: Conn, memberOf: nat -> Uuid, addr: Address)
    requires Agree(s) && UniqueIds(s, memberOf) && conn.member == memberOf(conn.id)
    requires conn.member in s.uuidToConn && s.uuidToConn[conn.member] != conn
    ensures !FiledUnder(s, addr, conn.id)
  {
  }

  /** One ID is filed under at most one address, so which match is removed does not matter. */
  lemma FiledUnderOne(s: Conns, memberOf: nat -> Uuid, a: Address, b: Address, id: nat)
    requires Agree(s) && UniqueIds(s, memberOf) && FiledUnder(s, a, id) && FiledUnder(s, b, id)
    ensures a == b
  {
  }

  // ---- runs ----

  datatype Op = AddOp(conn: Conn, addr: Address) | RemoveOp(conn: Conn) | ResetOp

  /** One operation; removal takes any address the connection's ID is filed under. */
  ghost predicate Step(s: Conns, op: Op, s': Conns) {
    match op
    case AddOp(conn, addr) => s' == Added(s, conn, addr)
    case RemoveOp(conn) =>
      if exists a :: FiledUnder(s, a, conn.id) then exists a :: FiledUnder(s, a, conn.id) && s' == RemovedAt(s, a)
      else s' == s
    case ResetOp => s' == Empty
  }

  /** An added address is not in use, and IDs name one connection each. */
  ghost predicate Proper(s: Conns, op: Op, memberOf: nat -> Uuid) {
    match op
    case AddOp(conn, addr) =>
      conn.member == memberOf(conn.id) && (conn.member !in s.uuidToConn ==> addr !in s.addrToConn)
    case _ => true
  }

  ghost predicate IsRun(ops: seq<Op>, states: seq<Conns>, memberOf: nat -> Uuid) {
    && |states| == |ops| + 1
    && states[0] == Empty
    && forall i :: 0 <= i < |ops| ==> Proper(states[i], ops[i], memberOf) && Step(states[i], ops[i], states[i + 1])
  }

  /** Over every run the three collections agree. */
  lemma {:induction false} RunKeepsAgreement(ops: seq<Op>, states: seq<Conns>, memberOf: nat -> Uuid, k: nat)
    requires IsRun(ops, states, memberOf) && k <= |ops|
    ensures Agree(states[k]) && UniqueIds(states[k], memberOf)
  {
    if k > 0 {
      RunKeepsAgreement(ops, states, memberOf, k - 1);
      var s, op := states[k - 1], ops[k - 1];
      assert Proper(s, op, memberOf) && Step(s, op, states[k]);
      match op
      case AddOp(conn, addr) => AddKeepsAgreement(s, conn, addr);
      case RemoveOp(conn) =>
        if exists a :: FiledUnder(s, a, conn.id) {
          var a :| FiledUnder(s, a, conn.id) && states[k] == RemovedAt(s, a);
          RemoveKeepsAgreement(s, a);
        }
      case ResetOp =>
    }
  }

  lemma StepDeterministic(s: Conns, op: Op, s1: Conns, s2: Conns, memberOf: nat -> Uuid)
    requires Agree(s) && UniqueIds(s, memberOf) && Step(s, op, s1) && Step(s, op, s2)
    ensures s1 == s2
  {
    if op.RemoveOp? && exists a :: FiledUnder(s, a, op.conn.id) {
      var a :| FiledUnder(s, a, op.conn.id) && s1 == RemovedAt(s, a);
      var b :| FiledUnder(s, b, op.conn.id) && s2 == RemovedAt(s, b);
      FiledUnderOne(s, memberOf, a, b, op.conn.id);
    }
  }

  /** Which of several matches the scan for the ID removes does not matter: runs with the
      same operations go through the same states, whatever the iteration order. */
  lemma {:induction false} RunsAgree(ops: seq<Op>, states: seq<Conns>, others: seq<Conns>, memberOf: nat -> Uuid,
                                     k: nat)
    requires IsRun(ops, states, memberOf) && IsRun(ops, others, memberOf) && k <= |ops|
    ensures states[k] == others[k]
  {
    if k > 0 {
      RunsAgree(ops, states, others, memberOf, k - 1);
      RunKeepsAgreement(ops, states, memberOf, k - 1);
      StepDeterministic(states[k - 1], ops[k - 1], states[k], others[k], memberOf);
    }
  }

  /** The connection is held and filed under the address. */
  predicate HeldAt(s: Conns, c: Conn, a: Address) {
    a in s.addrToConn && s.addrToConn[a] == c
  }

  /** Operation `i` adds the connection under the address and is not refused. */
  ghost predicate AddedBy(ops: seq<Op>, states: seq<Conns>, i: int, c: Conn, a: Address) {
    0 <= i < |ops| <= |states| && ops[i] == AddOp(c, a) && c.member !in states[i].uuidToConn
  }

  /** Nothing in between removes the connection by its ID or resets the map. */
  ghost predicate NotRemoved(ops: seq<Op>, from: int, to: int, c: Conn) {
    forall j :: from < j < to && 0 <= j < |ops| ==> !ops[j].ResetOp? && (ops[j].RemoveOp? ==> ops[j].conn.id != c.id)
  }

  lemma StepHolds(s: Conns, op: Op, s': Conns, memberOf: nat -> Uuid, c: Conn, a: Address)
    requires Agree(s) && UniqueIds(s, memberOf) && Proper(s, op, memberOf) && Step(s, op, s')
    ensures HeldAt(s', c, a) <==>
            || (op == AddOp(c, a) && c.member !in s.uuidToConn)
            || (HeldAt(s, c, a) && !op.ResetOp? && (op.RemoveOp? ==> op.conn.id != c.id))
  {
    match op
    case AddOp(_, _) =>
    case ResetOp =>
    case RemoveOp(conn) => RemoveHolds(s, conn, s', memberOf, c, a);
  }

  lemma RemoveHolds(s: Conns, conn: Conn, s': Conns, memberOf: nat -> Uuid, c: Conn, a: Address)
    requires Agree(s) && UniqueIds(s, memberOf) && Step(s, RemoveOp(conn), s')
    ensures HeldAt(s', c, a) <==> HeldAt(s, c, a) && conn.id != c.id
  {
    assert HeldAt(s, c, a) ==> FiledUnder(s, a, c.id);
    if exists b :: FiledUnder(s, b, conn.id) {
      var b :| FiledUnder(s, b, conn.id) && s' == RemovedAt(s, b);
      assert HeldAt(s', c, a) <==> HeldAt(s, c, a) && a != b;
      if HeldAt(s, c, a) && conn.id == c.id {
        FiledUnderOne(s, memberOf, a, b, c.id);
      }
    }
  }

  /** Exactly which connections a run holds: those that were accepted under their address, and
      neither removed by their ID nor lost in a reset since. */
  lemma {:induction false} HeldIff(ops: seq<Op>, states: seq<Conns>, memberOf: nat -> Uuid, k: nat, c: Conn, a: Address)
    requires IsRun(ops, states, memberOf) && k <= |ops|
    ensures HeldAt(states[k], c, a) <==> exists i :: i < k && AddedBy(ops, states, i, c, a) && NotRemoved(ops, i, k, c)
  {
    if k > 0 {
      HeldIff(ops, states, memberOf, k - 1, c, a);
      RunKeepsAgreement(ops, states, memberOf, k - 1);
      var op := ops[k - 1];
      assert Proper(states[k - 1], op, memberOf) && Step(states[k - 1], op, states[k]);
      StepHolds(states[k - 1], op, states[k], memberOf, c, a);
      if op == AddOp(c, a) && c.member !in states[k - 1].uuidToConn {
        assert AddedBy(ops, states, k - 1, c, a) && NotRemoved(ops, k - 1, k, c);
      } else {
        HeldOnlyLonger(ops, states, k, c, a);
      }
    }
  }

  lemma HeldOnlyLonger(ops: seq<Op>, states: seq<Conns>, k: nat, c: Conn, a: Address)
    requires 0 < k <= |ops| < |states| && !AddedBy(ops, states, k - 1, c, a)
    ensures
      (exists i :: i < k && AddedBy(ops, states, i, c, a) && NotRemoved(ops, i, k, c)) <==>
      && (exists i :: i < k - 1 && AddedBy(ops, states, i, c, a) && NotRemoved(ops, i, k - 1, c))
      && !ops[k - 1].ResetOp? && (ops[k - 1].RemoveOp? ==> ops[k - 1].conn.id != c.id)
  {
    forall i | i < k - 1 && AddedBy(ops, states, i, c, a)
      ensures NotRemoved(ops, i, k, c) <==>
              NotRemoved(ops, i, k - 1, c) && !ops[k - 1].ResetOp? && (ops[k - 1].RemoveOp? ==>
                  ops[k - 1].conn.id != c.id)
    {
    }
  }

  /** In every run, a connection refused as a duplicate and then removed takes nothing away. */
  lemma RemovingRejectedDuplicate(ops: seq<Op>, states: seq<Conns>, memberOf: nat -> Uuid, k: nat)
    requires IsRun(ops, states, memberOf) && k < |ops| && ops[k].RemoveOp?
    requires
      var conn := ops[k].conn;
      conn.member == memberOf(conn.id) && conn.member in states[k].uuidToConn &&
          states[k].uuidToConn[conn.member] != conn
    ensures states[k + 1] == states[k]
  {
    RunKeepsAgreement(ops, states, memberOf, k);
    forall a ensures !FiledUnder(states[k], a, ops[k].conn.id) {
      RejectedDuplicateNotFiled(states[k], ops[k].conn, memberOf, a);
    }
    assert Step(states[k], ops[k], states[k + 1]);
  }

  // ---- the map itself ----

  class ConnectionMap {
    var addrToConn: map<Address, Conn>
    var addrs: seq<Address>
    var uuidToConn: map<Uuid, Conn>

    function State(): Conns
      reads this
    {
      Conns(addrToConn, addrs, uuidToConn)
    }

    constructor ()
      ensures State() == Empty
    {
      addrToConn, addrs, uuidToConn := map[], [], map[];
    }

    method Reset()
      modifies this
      ensures State() == Empty
    {
      addrToConn, addrs, uuidToConn := map[], [], map[];
    }

    method GetOrAddConnection(conn: Conn, addr: Address) returns (retConn: Conn, ok: bool)
      modifies this
      ensures State() == Added(old(State()), conn, addr)
      ensures ok <==> conn.member !in old(uuidToConn)
      ensures conn.member in uuidToConn && retConn == uuidToConn[conn.member] && (ok ==> retConn == conn)
    {
      if conn.member in uuidToConn {
        return uuidToConn[conn.member], false;
      }
      uuidToConn := uuidToConn[conn.member := conn];
      addrToConn := addrToConn[addr := conn];
      addrs := addrs + [addr];
      return conn, true;
    }

    /** Removes the connection with this ID, found by scanning the addresses in any order. */
    method RemoveConnection(conn: Conn) returns (remaining: nat)
      modifies this
      ensures Step(old(State()), RemoveOp(conn), State())
      ensures remaining == |uuidToConn|
    {
      var todo := addrToConn.Keys;
      while todo != {}
        invariant State() == old(State()) && todo <= addrToConn.Keys
        invariant forall a :: FiledUnder(State(), a, conn.id) ==> a in todo
        decreases |todo|
      {
        var addr := Pick(todo);
        todo := todo - {addr};
        var found := addrToConn[addr];
        if found.id == conn.id {
          assert FiledUnder(old(State()), addr, conn.id);
          addrToConn := addrToConn - {addr};
          uuidToConn := uuidToConn - {found.member};
          RemoveAddr(addr);
          assert State() == RemovedAt(old(State()), addr);
          break;
        }
      }
      remaining := |uuidToConn|;
    }

    method RemoveAddr(addr: Address)
      modifies this`addrs
      ensures addrs == WithoutAddr(old(addrs), addr)
    {
      for i := 0 to |addrs|
        invariant addrs == old(addrs) && addr !in addrs[..i]
      {
        if addrs[i] == addr {
          FirstIndex(addrs, addr, i);
          addrs := addrs[i := addrs[|addrs| - 1]];
          addrs := addrs[..|addrs| - 1];
          return;
        }
      }
      assert addrs[..|addrs|] == addrs;
    }

    /** A live connection: the load balancer's choice if it is alive, else any. */
    method RandomConn(oneOf: seq<Address> -> Address, alive: Conn -> bool) returns (r: Option<Conn>)
      requires forall list :: list != [] ==> oneOf(list) in list
      ensures r.Some? ==> alive(r.value)
      ensures Agree(State()) ==> (r == None <==> forall u :: u in uuidToConn ==> !alive(uuidToConn[u]))
      ensures Agree(State()) && r.Some? ==> r.value.member in uuidToConn && uuidToConn[r.value.member] == r.value
      ensures |addrs| > 1 && oneOf(addrs) in addrToConn && alive(addrToConn[oneOf(addrs)]) ==>
          r == Some(addrToConn[oneOf(addrs)])
    {
      if |addrs| == 0 {
        return None;
      }
      var addr := if |addrs| == 1 then addrs[0] else oneOf(addrs);
      assert addr in addrs;
      if addr in addrToConn && alive(addrToConn[addr]) {
        return Some(addrToConn[addr]);
      }
      var todo := uuidToConn.Keys;
      while todo != {}
        invariant todo <= uuidToConn.Keys
        invariant forall u :: u in uuidToConn && u !in todo ==> !alive(uuidToConn[u])
        decreases |todo|
      {
        var u := Pick(todo);
        todo := todo - {u};
        if alive(uuidToConn[u]) {
          return Some(uuidToConn[u]);
        }
      }
      return None;
    }
  }

  lemma {:induction false} FirstIndex(addrs: seq<Address>, addr: Address, i: nat)
    requires i < |addrs| && addrs[i] == addr && addr !in addrs[..i]
    ensures IndexOf(addrs, addr) == i
  {
    var j := IndexOf(addrs, addr);
    assert forall k :: 0 <= k < i ==> addrs[..i][k] == addrs[k];
    assert forall k :: 0 <= k < j ==> addrs[..j][k] == addrs[k];
  }

  // ---- the round-robin balancer ----

  /** Which position a call picks, and the index it leaves behind. */
  function Position(index: nat, n: nat): nat
    requires n > 0
  {
    if n <= index then n - 1 else index
  }

  class RoundRobinLoadBalancer {
    var index: nat

    constructor ()
      ensures index == 0
    {
      index := 0;
    }

    method OneOf(addrs: seq<Address>) returns (addr: Address)
      requires addrs != []
      modifies this
      ensures addr == addrs[if old(index) < |addrs| then old(index) else |addrs| - 1]
      ensures index == (Position(old(index), |addrs|) + 1) % |addrs|
    {
      var i := index;
      if |addrs| <= i {
        i := |addrs| - 1;
      }
      addr := addrs[i];
      index := (i + 1) % |addrs|;
    }
  }

  /** The position picked by call number `k` (from 0) over a list of fixed length. */
  function Picked(index: nat, n: nat, k: nat): (p: nat)
    requires n > 0
    ensures p < n
  {
    if k == 0 then Position(index, n) else (Picked(index, n, k - 1) + 1) % n
  }

  lemma {:induction false} PickedAdvances(index: nat, n: nat, k: nat)
    requires n > 0 && k < n
    ensures
      var p := Position(index, n);
      Picked(index, n, k) == if p + k < n then p + k else p + k - n
  {
    if k > 0 {
      PickedAdvances(index, n, k - 1);
      NextPosition(Picked(index, n, k - 1), n);
    }
  }

  lemma NextPosition(p: nat, n: nat)
    requires p < n
    ensures (p + 1) % n == if p + 1 < n then p + 1 else 0
  {
  }

  /** While the list keeps its length, any `n` calls in a row pick every position. */
  lemma EveryAddressPicked(index: nat, n: nat, target: nat)
    requires target < n
    ensures exists k :: 0 <= k < n && Picked(index, n, k) == target
  {
    var p := Position(index, n);
    var k := if p <= target then target - p else target + n - p;
    PickedAdvances(index, n, k);
    assert Picked(index, n, k) == target;
  }

  // ---- the in-place filter ----

  method Swap(conns: array<Conn>, i: nat, j: nat)
    requires i < conns.Length && j < conns.Length
    modifies conns
    ensures conns[i] == old(conns[j]) && conns[j] == old(conns[i])
    ensures forall k :: 0 <= k < conns.Length && k != i && k != j ==> conns[k] == old(conns[k])
    ensures multiset(conns[..]) == multiset(old(conns[..]))
  {
    conns[i], conns[j] := conns[j], conns[i];
  }

  function Accepted(conns: seq<Conn>, ok: Conn -> bool): seq<Conn> {
    if conns == [] then []
    else Accepted(conns[..|conns| - 1], ok) + if ok(conns[|conns| - 1]) then [conns[|conns| - 1]] else []
  }

  /** What is accepted does not depend on the order. */
  lemma {:induction false} AcceptedCount(conns: seq<Conn>, ok: Conn -> bool, c: Conn)
    ensures multiset(Accepted(conns, ok))[c] == if ok(c) then multiset(conns)[c] else 0
  {
    if conns != [] {
      var init, last := conns[..|conns| - 1], conns[|conns| - 1];
      AcceptedCount(init, ok, c);
      assert conns == init + [last];
    }
  }

  lemma PrefixIsAccepted(before: seq<Conn>, after: seq<Conn>, ok: Conn -> bool, n: nat)
    requires n <= |after| && multiset(after) == multiset(before)
    requires forall k :: 0 <= k < n ==> ok(after[k])
    requires forall k :: n <= k < |after| ==> !ok(after[k])
    ensures multiset(after[..n]) == multiset(Accepted(before, ok))
  {
    assert after == after[..n] + after[n..];
    forall c ensures multiset(after[..n])[c] == multiset(Accepted(before, ok))[c] {
      AcceptedCount(before, ok, c);
      if ok(c) {
        assert c !in after[n..];
      } else {
        assert c !in after[..n];
      }
    }
  }

  /** Moves the accepted connections to the front and returns how many there are. */
  method FilterConns(conns: array<Conn>, ok: Conn -> bool) returns (n: nat)
    modifies conns
    ensures n <= conns.Length
    ensures multiset(conns[..]) == multiset(old(conns[..]))
    ensures multiset(conns[..n]) == multiset(Accepted(old(conns[..]), ok))
    ensures forall k :: 0 <= k < n ==> ok(conns[k])
    ensures forall k :: n <= k < conns.Length ==> !ok(conns[k])
  {
    var i, r := 0, 0;
    while i < conns.Length - r
      invariant 0 <= i <= conns.Length - r <= conns.Length
      invariant multiset(conns[..]) == multiset(old(conns[..]))
      invariant forall k :: 0 <= k < i ==> ok(conns[k])
      invariant forall k :: conns.Length - r <= k < conns.Length ==> !ok(conns[k])
      decreases conns.Length - r - i
    {
      var conn := conns[i];
      if !ok(conn) {
        Swap(conns, i, conns.Length - 1 - r);
        r := r + 1;
        continue;
      }
      i := i + 1;
    }
    n := conns.Length - r;
    PrefixIsAccepted(old(conns[..]), conns[..], ok, n);
  }
}
