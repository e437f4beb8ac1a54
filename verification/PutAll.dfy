/** `partitionToPairs` and `putAll` of proxy.go: a bulk put split into one request for each
    partition means the same as putting the entries one by one. */
module PutAlls {
  import opened Wrappers

  type Data = nat

  /** A serialized key and value. */
  datatype Pair = Pair(key: Data, value: Data)

  /** An entry before serialization; `serialize` fails for nil or unserializable values. */
  type Entry = nat
  type Serializer = Entry -> Option<Pair>
  type Partitioner = Data -> int

  type Store = map<Data, Data>

  // ---- putting one by one ----

  function Put(m: Store, pairs: seq<Pair>): Store {
    if pairs == [] then m else Put(m, pairs[..|pairs| - 1])[pairs[|pairs| - 1].key := pairs[|pairs| - 1].value]
  }

  /** The pairs whose key lies in one of the given partitions, in order. */
  function Select(pairs: seq<Pair>, part: Partitioner, parts: set<int>): seq<Pair> {
    if pairs == [] then []
    else
      var init, last := Select(pairs[..|pairs| - 1], part, parts), pairs[|pairs| - 1];
      if part(last.key) in parts then init + [last] else init
  }

  function Lookup(m: Store, k: Data): Option<Data> {
    if k in m then Some(m[k]) else None
  }

  /** The last value given for a key. */
  function LastValue(pairs: seq<Pair>, k: Data): Option<Data> {
    if pairs == [] then None
    else if pairs[|pairs| - 1].key == k then Some(pairs[|pairs| - 1].value)
    else LastValue(pairs[..|pairs| - 1], k)
  }

  lemma {:induction false} PutSelected(m: Store, pairs: seq<Pair>, part: Partitioner, parts: set<int>, k: Data)
    ensures Lookup(Put(m, Select(pairs, part, parts)), k) ==
            if part(k) in parts && LastValue(pairs, k).Some? then LastValue(pairs, k) else Lookup(m, k)
    decreases |pairs|
  {
    if pairs != [] {
      var before, last := pairs[..|pairs| - 1], pairs[|pairs| - 1];
      PutSelected(m, before, part, parts, k);
      if part(last.key) in parts {
        var s := Select(pairs, part, parts);
        assert s[..|s| - 1] == Select(before, part, parts);
      }
    }
  }

  lemma SameLookups(a: Store, b: Store)
    requires forall k :: Lookup(a, k) == Lookup(b, k)
    ensures a == b
  {
    assert forall k :: k in a <==> Lookup(a, k).Some?;
    assert forall k :: k in b <==> Lookup(b, k).Some?;
    forall k | k in a && k in b ensures a[k] == b[k] {
      assert Lookup(a, k) == Lookup(b, k);
    }
  }

  /** Putting the pairs of disjoint partitions, in either order, is putting their union. */
  lemma PutInParts(m: Store, pairs: seq<Pair>, part: Partitioner, a: set<int>, b: set<int>)
    requires a !! b
    ensures Put(Put(m, Select(pairs, part, a)), Select(pairs, part, b)) == Put(m, Select(pairs, part, a + b))
  {
    var m1 := Put(m, Select(pairs, part, a));
    forall k ensures Lookup(Put(m1, Select(pairs, part, b)), k) == Lookup(Put(m, Select(pairs, part, a + b)), k) {
      PutSelected(m, pairs, part, a, k);
      PutSelected(m1, pairs, part, b, k);
      PutSelected(m, pairs, part, a + b, k);
    }
    SameLookups(Put(m1, Select(pairs, part, b)), Put(m, Select(pairs, part, a + b)));
  }

  function Partitions(pairs: seq<Pair>, part: Partitioner): set<int> {
    if pairs == [] then {} else Partitions(pairs[..|pairs| - 1], part) + {part(pairs[|pairs| - 1].key)}
  }

  lemma {:induction false} SelectAll(pairs: seq<Pair>, part: Partitioner, parts: set<int>)
    requires Partitions(pairs, part) <= parts
    ensures Select(pairs, part, parts) == pairs
  {
    if pairs != [] {
      SelectAll(pairs[..|pairs| - 1], part, parts);
    }
  }

  // ---- one request for each partition ----

  function Groups(pairs: seq<Pair>, part: Partitioner): (g: map<int, seq<Pair>>)
    ensures g.Keys == Partitions(pairs, part)
  {
    map p | p in Partitions(pairs, part) :: Select(pairs, part, {p})
  }

  /** Applying the groups in the given order. */
  function PutGroups(m: Store, groups: map<int, seq<Pair>>, order: seq<int>): Store
    requires forall i :: 0 <= i < |order| ==> order[i] in groups
  {
    if order == [] then m
    else Put(PutGroups(m, groups, order[..|order| - 1]), groups[order[|order| - 1]])
  }

  /** Groups applied in any order and to any extent put exactly the entries of their
      partitions, as if one by one in input order. */
  lemma {:induction false} GroupsInAnyOrder(m: Store, pairs: seq<Pair>, part: Partitioner, order: seq<int>)
    requires NoRepeats(order) && forall i :: 0 <= i < |order| ==> order[i] in Partitions(pairs, part)
    ensures PutGroups(m, Groups(pairs, part), order) == Put(m, Select(pairs, part, Elements(order)))
    decreases |order|
  {
    if order == [] {
      SelectNone(pairs, part);
    } else {
      var before, p := order[..|order| - 1], order[|order| - 1];
      GroupsInAnyOrder(m, pairs, part, before);
      assert Elements(order) == Elements(before) + {p};
      assert p !in before;
      PutInParts(m, pairs, part, Elements(before), {p});
    }
  }

  lemma {:induction false} SelectNone(pairs: seq<Pair>, part: Partitioner)
    ensures Select(pairs, part, {}) == [] && Elements<int>([]) == {}
  {
    if pairs != [] {
      SelectNone(pairs[..|pairs| - 1], part);
    }
  }

  /** The law of the bulk put: with all groups applied, in any order, the final map is that
      of putting the entries one by one, repeated keys included. */
  lemma BulkPutIsSequentialPut(m: Store, pairs: seq<Pair>, part: Partitioner, order: seq<int>)
    requires NoRepeats(order) && Elements(order) == Partitions(pairs, part)
    ensures PutGroups(m, Groups(pairs, part), order) == Put(m, pairs)
  {
    assert forall i :: 0 <= i < |order| ==> order[i] in Elements(order);
    GroupsInAnyOrder(m, pairs, part, order);
    SelectAll(pairs, part, Elements(order));
  }

  function Concat(pairs: seq<Pair>, part: Partitioner, order: seq<int>): seq<Pair> {
    if order == [] then [] else Concat(pairs, part, order[..|order| - 1]) + Select(pairs, part, {order[|order| - 1]})
  }

  /** One more pair at the end goes to exactly one group. */
  lemma {:induction false} ConcatOneMore(pairs: seq<Pair>, part: Partitioner, order: seq<int>)
    requires pairs != [] && NoRepeats(order)
    ensures
      var before, last := pairs[..|pairs| - 1], pairs[|pairs| - 1];
      multiset(Concat(pairs, part, order)) ==
      multiset(Concat(before, part, order)) + (if part(last.key) in order then multiset{last} else multiset{})
    decreases |order|
  {
    if order != [] {
      ConcatOneMore(pairs, part, order[..|order| - 1]);
      assert order == order[..|order| - 1] + [order[|order| - 1]];
    }
  }

  /** No entry is lost or duplicated by the grouping. */
  lemma {:induction false} GroupingKeepsEntries(pairs: seq<Pair>, part: Partitioner, order: seq<int>)
    requires NoRepeats(order) && Partitions(pairs, part) <= Elements(order)
    ensures multiset(Concat(pairs, part, order)) == multiset(pairs)
    decreases |pairs|
  {
    if pairs == [] {
      ConcatOfNone(part, order);
    } else {
      var before, last := pairs[..|pairs| - 1], pairs[|pairs| - 1];
      GroupingKeepsEntries(before, part, order);
      ConcatOneMore(pairs, part, order);
      assert part(last.key) in Elements(order);
      assert multiset(pairs) == multiset(before) + multiset{last} by {
        assert pairs == before + [last];
      }
    }
  }

  lemma {:induction false} ConcatOfNone(part: Partitioner, order: seq<int>)
    ensures Concat([], part, order) == []
  {
    if order != [] {
      ConcatOfNone(part, order[..|order| - 1]);
    }
  }

  // ---- the code ----

  /** All entries serialized, or nothing if one fails. */
  function Serialized(entries: seq<Entry>, serialize: Serializer): Option<seq<Pair>> {
    if entries == [] then Some([])
    else match (Serialized(entries[..|entries| - 1], serialize), serialize(entries[|entries| - 1]))
      case (Some(pairs), Some(pair)) => Some(pairs + [pair])
      case _ => None
  }

  /** Serialization is entry by entry: all of them in order, or a failure exactly if one fails. */
  lemma {:induction false} SerializedMeaning(entries: seq<Entry>, serialize: Serializer)
    ensures
      match Serialized(entries, serialize)
      case Some(pairs) => |pairs| == |entries| && forall i :: 0 <= i < |entries| ==>
          serialize(entries[i]) == Some(pairs[i])
      case None => exists i :: 0 <= i < |entries| && serialize(entries[i]) == None
  {
    if entries != [] {
      var n := |entries| - 1;
      SerializedMeaning(entries[..n], serialize);
      if Serialized(entries[..n], serialize).None? {
        var i :| 0 <= i < n && serialize(entries[..n][i]) == None;
        assert serialize(entries[i]) == None;
      }
      assert forall i :: 0 <= i < n ==> entries[..n][i] == entries[i];
    }
  }

  /** Entry `i` gives the key its value, and no later entry has the key. */
  ghost predicate LastEntryFor(entries: seq<Entry>, serialize: Serializer, k: Data, v: Data, i: int) {
    && 0 <= i < |entries| && serialize(entries[i]) == Some(Pair(k, v))
    && forall j :: i < j < |entries| ==> serialize(entries[j]).Some? ==> serialize(entries[j]).value.key != k
  }

  lemma {:induction false} LastPair(pairs: seq<Pair>, k: Data)
    ensures
      match LastValue(pairs, k)
      case Some(v) => exists i :: 0 <= i < |pairs| && pairs[i] == Pair(k, v) && NoKey(pairs, i, k)
      case None => forall i :: 0 <= i < |pairs| ==> pairs[i].key != k
  {
    if pairs != [] {
      var n := |pairs| - 1;
      LastPair(pairs[..n], k);
      assert forall i :: 0 <= i < n ==> pairs[..n][i] == pairs[i];
      if pairs[n].key == k {
        assert NoKey(pairs, n, k);
      } else if LastValue(pairs[..n], k).Some? {
        var v := LastValue(pairs, k).value;
        var i :| 0 <= i < n && pairs[..n][i] == Pair(k, v) && NoKey(pairs[..n], i, k);
        assert pairs[i] == Pair(k, v) && NoKey(pairs, i, k);
      }
    }
  }

  ghost predicate NoKey(pairs: seq<Pair>, i: nat, k: Data) {
    forall j :: i < j < |pairs| ==> pairs[j].key != k
  }

  /** The last given value of a key is that of the last entry with the key. */
  lemma LastValueOfEntries(entries: seq<Entry>, serialize: Serializer, k: Data, v: Data)
    requires Serialized(entries, serialize).Some?
    ensures LastValue(Serialized(entries, serialize).value, k) == Some(v) <==>
            exists i :: LastEntryFor(entries, serialize, k, v, i)
  {
    var pairs := Serialized(entries, serialize).value;
    SerializedMeaning(entries, serialize);
    LastPair(pairs, k);
    if LastValue(pairs, k) == Some(v) {
      var i :| 0 <= i < |pairs| && pairs[i] == Pair(k, v) && NoKey(pairs, i, k);
      assert LastEntryFor(entries, serialize, k, v, i);
    }
    forall i | LastEntryFor(entries, serialize, k, v, i) ensures LastValue(pairs, k) == Some(v) {
      assert pairs[i] == Pair(k, v) && LastValue(pairs, k).Some?;
      var j :| 0 <= j < |pairs| && pairs[j] == Pair(k, LastValue(pairs, k).value) && NoKey(pairs, j, k);
      assert !(i < j) && !(j < i);
    }
  }

  lemma {:induction false} FailureStays(entries: seq<Entry>, serialize: Serializer, k: nat)
    requires k <= |entries| && Serialized(entries[..k], serialize).None?
    ensures Serialized(entries, serialize).None?
    decreases |entries|
  {
    if k == |entries| {
      assert entries[..k] == entries;
    } else {
      assert entries[..|entries| - 1][..k] == entries[..k];
      FailureStays(entries[..|entries| - 1], serialize, k);
    }
  }

  lemma GroupsOneMore(pairs: seq<Pair>, part: Partitioner, pair: Pair)
    ensures
      var g, p := Groups(pairs, part), part(pair.key);
      Groups(pairs + [pair], part) == g[p := (if p in g then g[p] else []) + [pair]]
  {
    var longer := pairs + [pair];
    assert longer[..|longer| - 1] == pairs;
    var g, p := Groups(pairs, part), part(pair.key);
    if p !in g {
      SelectOther(pairs, part, p);
    }
    forall q | q in Groups(longer, part)
      ensures Groups(longer, part)[q] == if q == p then (if p in g then g[p] else []) + [pair] else g[q]
    {
      assert Select(longer, part, {q}) == Select(pairs, part, {q}) + if q == p then [pair] else [];
    }
  }

  lemma {:induction false} SelectOther(pairs: seq<Pair>, part: Partitioner, p: int)
    requires p !in Partitions(pairs, part)
    ensures Select(pairs, part, {p}) == []
  {
    if pairs != [] {
      SelectOther(pairs[..|pairs| - 1], part, p);
    }
  }

  /** Fails if an entry cannot be serialized, or if there is an entry but the partition
      count is not known yet. */
  method PartitionToPairs(entries: seq<Entry>, serialize: Serializer, countKnown: bool, part: Partitioner)
    returns (groups: Option<map<int, seq<Pair>>>)
    ensures groups == match Serialized(entries, serialize)
                      case Some(pairs) => if countKnown || entries == [] then Some(Groups(pairs, part)) else None
                      case None => None
  {
    var m: map<int, seq<Pair>> := map[];
    ghost var pairs := [];
    for i := 0 to |entries|
      invariant Serialized(entries[..i], serialize) == Some(pairs)
      invariant m == Groups(pairs, part) && (i > 0 ==> countKnown)
    {
      assert entries[..i + 1][..i] == entries[..i];
      match serialize(entries[i]) {
        case None =>
          FailureStays(entries, serialize, i + 1);
          return None;
        case Some(pair) =>
          if !countKnown {
            return None;
          }
          var p := part(pair.key);
          var arr := if p in m then m[p] else [];
          GroupsOneMore(pairs, part, pair);
          m := m[p := arr + [pair]];
          pairs := pairs + [pair];
      }
    }
    assert entries[..|entries|] == entries;
    return Some(m);
  }

  /** How a request ended: one that failed may have been carried out all the same. */
  datatype Answer = Done | Failed(stored: bool)

  type Answers = int -> Answer

  datatype PutError = NotGrouped | RequestFailed(partition: int)

  predicate Stores(a: Answer) {
    a.Done? || a.stored
  }

  /** The partitions whose request was carried out. */
  function Stored(parts: set<int>, answer: Answers): set<int> {
    set p | p in parts && Stores(answer(p))
  }

  /** What is stored once the given partitions have answered. */
  function PutAnswered(m: Store, pairs: seq<Pair>, part: Partitioner, answered: set<int>, answer: Answers): Store {
    Put(m, Select(pairs, part, Stored(answered, answer)))
  }

  /** Results are awaited in the order of the requests, up to the first error. */
  ghost predicate Awaits(order: seq<int>, answer: Answers, err: Option<PutError>) {
    match err
    case None => forall i :: 0 <= i < |order| ==> answer(order[i]).Done?
    case Some(NotGrouped) => false
    case Some(RequestFailed(p)) =>
      exists n :: 0 <= n < |order| && order[n] == p && answer(p).Failed?
                  && forall i :: 0 <= i < n ==> answer(order[i]).Done?
  }

  /** The whole outcome of a bulk put whose entries could be grouped. */
  ghost predicate Outcome(store: Store, pairs: seq<Pair>, part: Partitioner, answer: Answers,
                          order: seq<int>, err: Option<PutError>, result: Store) {
    && NoRepeats(order) && Elements(order) == Partitions(pairs, part)
    && Awaits(order, answer, err)
    && result == PutAnswered(store, pairs, part, Partitions(pairs, part), answer)
  }

  lemma {:induction false} ValueHasPartition(pairs: seq<Pair>, part: Partitioner, k: Data)
    requires LastValue(pairs, k).Some?
    ensures part(k) in Partitions(pairs, part)
  {
    if pairs[|pairs| - 1].key != k {
      ValueHasPartition(pairs[..|pairs| - 1], part, k);
    }
  }

  /** What the map holds on return, key by key and whatever the error: the last given value
      if there is one and its partition's request was carried out, and the old value if not.
      So one failed partition does not keep the others from being stored. */
  lemma ResultPerKey(store: Store, pairs: seq<Pair>, part: Partitioner, answer: Answers,
                     order: seq<int>, err: Option<PutError>, result: Store, k: Data)
    requires Outcome(store, pairs, part, answer, order, err, result)
    ensures Lookup(result, k) ==
            if LastValue(pairs, k).Some? && (answer(part(k)).Done? || answer(part(k)).stored) then LastValue(pairs, k)
            else Lookup(store, k)
  {
    PutSelected(store, pairs, part, Stored(Partitions(pairs, part), answer), k);
    assert part(k) in Stored(Partitions(pairs, part), answer) <==>
           part(k) in Partitions(pairs, part) && Stores(answer(part(k)));
    if LastValue(pairs, k).Some? {
      ValueHasPartition(pairs, part, k);
    }
  }

  /** The same of the entries: after a bulk put, a key for which some entry was given and
      whose partition's request was carried out holds the value of its last entry. */
  lemma ResultPerEntry(entries: seq<Entry>, serialize: Serializer, store: Store, pairs: seq<Pair>, part: Partitioner,
                       answer: Answers, order: seq<int>, err: Option<PutError>, result: Store, k: Data, v: Data, i: int)
    requires Serialized(entries, serialize) == Some(pairs)
    requires Outcome(store, pairs, part, answer, order, err, result)
    requires LastEntryFor(entries, serialize, k, v, i) && (answer(part(k)).Done? || answer(part(k)).stored)
    ensures k in result && result[k] == v
  {
    LastValueOfEntries(entries, serialize, k, v);
    ResultPerKey(store, pairs, part, answer, order, err, result, k);
  }

  /** The partitions asked are those of the entries' keys. */
  lemma {:induction false} PartitionsOfKeys(pairs: seq<Pair>, part: Partitioner, p: int)
    ensures p in Partitions(pairs, part) <==> exists i :: 0 <= i < |pairs| && part(pairs[i].key) == p
  {
    if pairs != [] {
      var n := |pairs| - 1;
      PartitionsOfKeys(pairs[..n], part, p);
      assert forall i :: 0 <= i < n ==> pairs[..n][i] == pairs[i];
      if p in Partitions(pairs[..n], part) {
        var i :| 0 <= i < n && part(pairs[..n][i].key) == p;
        assert part(pairs[i].key) == p;
      }
    }
  }

  /** Without error all entries are in the map, as if put one by one. */
  lemma NoErrorMeansAll(store: Store, pairs: seq<Pair>, part: Partitioner, answer: Answers, order: seq<int>,
                        result: Store)
    requires Outcome(store, pairs, part, answer, order, None, result)
    ensures result == Put(store, pairs)
  {
    var all := Partitions(pairs, part);
    forall p | p in all ensures p in Stored(all, answer) {
      assert p in Elements(order);
      var i :| 0 <= i < |order| && order[i] == p;
      assert answer(order[i]).Done?;
    }
    assert Stored(all, answer) == all;
    SelectAll(pairs, part, all);
  }

  lemma NoneAnswered(m: Store, pairs: seq<Pair>, part: Partitioner, answer: Answers)
    ensures PutAnswered(m, pairs, part, {}, answer) == m
  {
    SelectNone(pairs, part);
    assert Stored({}, answer) == {};
  }

  lemma OneMoreAnswered(m: Store, pairs: seq<Pair>, part: Partitioner, answered: set<int>, p: int, answer: Answers)
    requires p !in answered
    ensures
      var before := PutAnswered(m, pairs, part, answered, answer);
      PutAnswered(m, pairs, part, answered + {p}, answer) ==
      if Stores(answer(p)) then Put(before, Select(pairs, part, {p})) else before
  {
    var s := Stored(answered, answer);
    if Stores(answer(p)) {
      assert Stored(answered + {p}, answer) == s + {p};
      PutInParts(m, pairs, part, s, {p});
    } else {
      assert Stored(answered + {p}, answer) == s;
    }
  }

  lemma OneMoreRequest(order: seq<int>, p: int)
    requires NoRepeats(order) && p !in Elements(order)
    ensures NoRepeats(order + [p]) && Elements(order + [p]) == Elements(order) + {p}
  {
    assert forall i :: 0 <= i < |order| ==> order[i] in Elements(order);
  }

  /** One request for each partition, in the order in which the map is iterated. Making the
      future runs the request to its end, and a failed one does not keep the next from
      being made. */
  method RequestAll(groups: map<int, seq<Pair>>, answer: Answers, store: Store, ghost pairs: seq<Pair>,
                    ghost part: Partitioner)
    returns (order: seq<int>, result: Store)
    requires groups == Groups(pairs, part)
    ensures NoRepeats(order) && Elements(order) == groups.Keys
    ensures result == PutAnswered(store, pairs, part, groups.Keys, answer)
  {
    order, result := [], store;
    var todo := groups.Keys;
    ghost var answered: set<int> := {};
    NoneAnswered(store, pairs, part, answer);
    while todo != {}
      invariant Splits(groups.Keys, answered, todo)
      invariant NoRepeats(order) && Elements(order) == answered
      invariant result == PutAnswered(store, pairs, part, answered, answer)
      decreases |todo|
    {
      var p := Pick(todo);
      SplitsOneMore(groups.Keys, answered, todo, p);
      OneMoreAnswered(store, pairs, part, answered, p, answer);
      OneMoreRequest(order, p);
      if Stores(answer(p)) {
        result := Put(result, groups[p]);
      }
      order, todo, answered := order + [p], todo - {p}, answered + {p};
    }
    assert answered == groups.Keys;
  }

  method Await(order: seq<int>, answer: Answers) returns (err: Option<PutError>)
    ensures Awaits(order, answer, err)
  {
    for i := 0 to |order|
      invariant forall j :: 0 <= j < i ==> answer(order[j]).Done?
    {
      if answer(order[i]).Failed? {
        return Some(RequestFailed(order[i]));
      }
    }
    return None;
  }

  /** Nothing is sent unless every entry was grouped. Then all requests are made, and the
      error of the first failed one is returned. */
  method PutAll(entries: seq<Entry>, serialize: Serializer, countKnown: bool, part: Partitioner, store: Store,
                answer: Answers)
    returns (order: seq<int>, err: Option<PutError>, result: Store)
    ensures err == Some(NotGrouped) <==>
            (exists i :: 0 <= i < |entries| && serialize(entries[i]) == None) || (!countKnown && entries != [])
    ensures
      match Serialized(entries, serialize)
      case Some(pairs) =>
        if countKnown || entries == [] then Outcome(store, pairs, part, answer, order, err, result)
        else err == Some(NotGrouped) && order == [] && result == store
      case None => err == Some(NotGrouped) && order == [] && result == store
  {
    SerializedMeaning(entries, serialize);
    var groups := PartitionToPairs(entries, serialize, countKnown, part);
    if groups == None {
      return [], Some(NotGrouped), store;
    }
    order, result := RequestAll(groups.value, answer, store, Serialized(entries, serialize).value, part);
    err := Await(order, answer);
  }
}
