/** A most-recently-used cache (src/chromium/memory/mru_cache.hh): a list in order of recency
    and an index from keys to list positions. */
module MruCache {

  datatype Entry<K, P> = Entry(key: K, payload: P)

  datatype Op<K, P> = Put(key: K, payload: P) | Get(key: K) | Peek(key: K) | Erase(key: K) | Shrink(size: nat) | Clear

  // ---- The recency-ordered map -----------------------------------------------------------

  predicate Has<K(==), P>(s: seq<Entry<K, P>>, k: K) {
    exists i :: 0 <= i < |s| && s[i].key == k
  }

  function IndexOf<K(==), P>(s: seq<Entry<K, P>>, k: K): (i: nat)
    requires Has(s, k)
    ensures i < |s| && s[i].key == k
  {
    if s[0].key == k then 0
    else
      assert Has(s[1..], k) by {
        var j :| 0 <= j < |s| && s[j].key == k;
        assert s[1..][j - 1].key == k;
      }
      1 + IndexOf(s[1..], k)
  }

  function Without<K(==), P>(s: seq<Entry<K, P>>, k: K): seq<Entry<K, P>>
    requires Has(s, k)
  {
    s[..IndexOf(s, k)] + s[IndexOf(s, k) + 1..]
  }

  function Shrunk<K, P>(s: seq<Entry<K, P>>, size: nat): seq<Entry<K, P>> {
    if |s| > size then s[..size] else s
  }

  /** What room a new key is given: all there is when nothing is evicted automatically. */
  function Evicted<K, P>(max: nat, s: seq<Entry<K, P>>): seq<Entry<K, P>> {
    if max > 0 then Shrunk(s, max - 1) else s
  }

  function Apply<K(==), P>(max: nat, s: seq<Entry<K, P>>, op: Op<K, P>): seq<Entry<K, P>> {
    match op
    case Put(k, p) => [Entry(k, p)] + if Has(s, k) then Without(s, k) else Evicted(max, s)
    case Get(k) => if Has(s, k) then [s[IndexOf(s, k)]] + Without(s, k) else s
    case Peek(_) => s
    case Erase(k) => if Has(s, k) then Without(s, k) else s
    case Shrink(size) => Shrunk(s, size)
    case Clear => []
  }

  function Run<K(==), P>(max: nat, ops: seq<Op<K, P>>): seq<Entry<K, P>> {
    if ops == [] then [] else Apply(max, Run(max, ops[..|ops| - 1]), ops[|ops| - 1])
  }

  /** When a key was last put or got; peeking does not count. */
  function LastTouch<K(==), P>(ops: seq<Op<K, P>>, k: K): nat {
    if ops == [] then 0
    else
      var op := ops[|ops| - 1];
      if (op.Put? || op.Get?) && op.key == k then |ops| else LastTouch(ops[..|ops| - 1], k)
  }

  ghost predicate ByRecency<K, P>(ops: seq<Op<K, P>>, s: seq<Entry<K, P>>) {
    && (forall i :: 0 <= i < |s| ==> LastTouch(ops, s[i].key) > 0)
    && (forall i, j :: 0 <= i < j < |s| ==> LastTouch(ops, s[i].key) > LastTouch(ops, s[j].key))
  }

  lemma {:induction false} TouchBound<K, P>(ops: seq<Op<K, P>>, k: K)
    ensures LastTouch(ops, k) <= |ops|
  {
    if ops != [] {
      TouchBound(ops[..|ops| - 1], k);
    }
  }

  /** After any operations the list is in order of the last touch, the most recent first, and
      within its maximal size. */
  lemma {:induction false} RunOrdered<K, P>(max: nat, ops: seq<Op<K, P>>)
    ensures ByRecency(ops, Run(max, ops))
    ensures max > 0 ==> |Run(max, ops)| <= max
  {
    if ops != [] {
      var before, op := ops[..|ops| - 1], ops[|ops| - 1];
      RunOrdered(max, before);
      ApplyOrdered(max, before, op);
      assert ops == before + [op];
    }
  }

  /** Touching a key that is not in the list puts it in front. */
  lemma FrontOrdered<K, P>(before: seq<Op<K, P>>, op: Op<K, P>, e: Entry<K, P>, rest: seq<Entry<K, P>>)
    requires ByRecency(before, rest) && !Has(rest, e.key) && (op.Put? || op.Get?) && op.key == e.key
    ensures ByRecency(before + [op], [e] + rest)
  {
    var ops := before + [op];
    assert ops[..|before|] == before;
    assert LastTouch(ops, e.key) == |ops|;
    forall i | 0 <= i < |rest| ensures LastTouch(ops, rest[i].key) == LastTouch(before, rest[i].key) < |ops| {
      TouchBound(before, rest[i].key);
    }
    hide LastTouch;
  }

  /** Touching a key that is not in the list otherwise changes no order. */
  lemma OthersOrdered<K, P>(before: seq<Op<K, P>>, op: Op<K, P>, s: seq<Entry<K, P>>)
    requires ByRecency(before, s) && (op.Put? || op.Get? ==> !Has(s, op.key))
    ensures ByRecency(before + [op], s)
  {
    var ops := before + [op];
    assert ops[..|before|] == before;
    forall i | 0 <= i < |s| ensures LastTouch(ops, s[i].key) == LastTouch(before, s[i].key) {
    }
    hide LastTouch;
  }

  lemma WithoutOrdered<K, P>(ops: seq<Op<K, P>>, s: seq<Entry<K, P>>, k: K)
    requires ByRecency(ops, s) && Has(s, k)
    ensures ByRecency(ops, Without(s, k)) && !Has(Without(s, k), k) && |Without(s, k)| == |s| - 1
  {
    hide LastTouch;
    var i, w := IndexOf(s, k), Without(s, k);
    assert forall j :: 0 <= j < |w| ==> w[j] == s[if j < i then j else j + 1];
  }

  lemma ShrunkOrdered<K, P>(ops: seq<Op<K, P>>, s: seq<Entry<K, P>>, size: nat, k: K)
    requires ByRecency(ops, s)
    ensures ByRecency(ops, Shrunk(s, size)) && |Shrunk(s, size)| <= size && |Shrunk(s, size)| <= |s|
    ensures !Has(s, k) ==> !Has(Shrunk(s, size), k)
  {
    hide LastTouch;
  }

  lemma ApplyOrdered<K, P>(max: nat, before: seq<Op<K, P>>, op: Op<K, P>)
    requires ByRecency(before, Run(max, before)) && (max > 0 ==> |Run(max, before)| <= max)
    ensures var s := Apply(max, Run(max, before), op);
            ByRecency(before + [op], s) && (max > 0 ==> |s| <= max)
  {
    hide LastTouch, ByRecency, Has, Without, Shrunk, Run;
    var s := Run(max, before);
    match op
    case Put(k, p) =>
      if Has(s, k) {
        WithoutOrdered(before, s, k);
        FrontOrdered(before, op, Entry(k, p), Without(s, k));
      } else {
        if max > 0 { ShrunkOrdered(before, s, max - 1, k); }
        FrontOrdered(before, op, Entry(k, p), Evicted(max, s));
      }
    case Get(k) =>
      if Has(s, k) {
        WithoutOrdered(before, s, k);
        FrontOrdered(before, op, s[IndexOf(s, k)], Without(s, k));
      } else {
        OthersOrdered(before, op, s);
      }
    case Peek(_) => OthersOrdered(before, op, s);
    case Erase(k) =>
      if Has(s, k) {
        WithoutOrdered(before, s, k);
        OthersOrdered(before, op, Without(s, k));
      } else {
        OthersOrdered(before, op, s);
      }
    case Shrink(size) =>
      if s == [] { NothingShrunk(s, size); } else { ShrunkOrdered(before, s, size, s[0].key); }
      OthersOrdered(before, op, Shrunk(s, size));
    case Clear =>
      assert ByRecency(before, []) by { NothingOrdered(before); }
      OthersOrdered(before, op, []);
  }

  lemma NothingOrdered<K, P>(ops: seq<Op<K, P>>)
    ensures ByRecency(ops, [])
  {
  }

  lemma NothingShrunk<K, P>(s: seq<Entry<K, P>>, size: nat)
    requires s == []
    ensures Shrunk(s, size) == s
  {
  }

  /** The key that a full cache gives up for a new one is the one touched longest ago. */
  lemma EvictsLeastRecent<K, P>(max: nat, ops: seq<Op<K, P>>, k: K, p: P)
    requires max > 0 && |Run(max, ops)| == max && !Has(Run(max, ops), k)
    ensures var s := Run(max, ops); var s1 := Apply(max, s, Put(k, p)); var gone := s[max - 1].key;
            && s1 == [Entry(k, p)] + s[..max - 1]
            && !Has(s1, gone)
            && forall i :: 0 <= i < |s| && s[i].key != gone ==> LastTouch(ops, gone) < LastTouch(ops, s[i].key)
  {
    RunOrdered(max, ops);
    hide Run, LastTouch, IndexOf;
    var s := Run(max, ops);
    var gone := s[max - 1].key;
    assert s[max - 1] in s && gone != k;
    forall e | e in s[..max - 1] ensures e.key != gone {
      var i :| 0 <= i < max - 1 && s[i] == e;
    }
  }

  /** What is held after an operation, payloads included: a put replaces the entry of its key or
      else gives up what does not fit before it; only erasing, shrinking and clearing take away. */
  lemma EntriesAfter<K, P>(max: nat, ops: seq<Op<K, P>>, op: Op<K, P>, e: Entry<K, P>)
    ensures var s := Run(max, ops);
            e in Apply(max, s, op) <==>
              match op
              case Put(k, p) =>
                || e == Entry(k, p)
                || (e.key != k && e in if Has(s, k) || max == 0 || |s| < max then s else s[..max - 1])
              case Get(_) => e in s
              case Peek(_) => e in s
              case Erase(k) => e in s && e.key != k
              case Shrink(size) => e in if |s| > size then s[..size] else s
              case Clear => false
  {
    RunOrdered(max, ops);
    var s := Run(max, ops);
    DistinctKeys(ops, s);
    hide Run, Without, ByRecency, LastTouch, IndexOf;
    match op
    case Put(k, p) => if Has(s, k) { KeptWithout(s, k, e); } else if e in s { NotThere(s, k, e); }
    case Get(k) => if Has(s, k) { KeptWithout(s, k, e); }
    case Erase(k) => if Has(s, k) { KeptWithout(s, k, e); } else if e in s { NotThere(s, k, e); }
    case _ =>
  }

  ghost predicate Distinct<K, P>(s: seq<Entry<K, P>>) {
    forall i, j :: 0 <= i < j < |s| ==> s[i].key != s[j].key
  }

  lemma DistinctKeys<K, P>(ops: seq<Op<K, P>>, s: seq<Entry<K, P>>)
    requires ByRecency(ops, s)
    ensures Distinct(s)
  {
    hide LastTouch;
  }

  lemma NotThere<K, P>(s: seq<Entry<K, P>>, k: K, e: Entry<K, P>)
    requires !Has(s, k) && e in s
    ensures e.key != k
  {
  }

  lemma KeptWithout<K, P>(s: seq<Entry<K, P>>, k: K, e: Entry<K, P>)
    requires Has(s, k) && Distinct(s)
    ensures e in Without(s, k) <==> e in s && e.key != k
    ensures s[IndexOf(s, k)].key == k && s[IndexOf(s, k)] in s && (e in s && e.key == k ==> e == s[IndexOf(s, k)])
  {
    var i, w := IndexOf(s, k), Without(s, k);
    assert forall j :: 0 <= j < |w| ==> w[j] == s[if j < i then j else j + 1];
    if e in s && e.key != k {
      var j :| 0 <= j < |s| && s[j] == e;
      assert w[if j < i then j else j - 1] == e;
    }
  }

  // ---- Payloads --------------------------------------------------------------------------

  function Payloads<K, P>(s: seq<Entry<K, P>>): multiset<P> {
    if s == [] then multiset{} else multiset{s[0].payload} + Payloads(s[1..])
  }

  /** What an operation passes to the deletor. */
  function Deleted<K(==), P>(max: nat, s: seq<Entry<K, P>>, op: Op<K, P>): multiset<P> {
    match op
    case Put(k, p) =>
      if Has(s, k) then multiset{s[IndexOf(s, k)].payload}
      else if max > 0 && |s| > max - 1 then Payloads(s[max - 1..]) else multiset{}
    case Erase(k) => if Has(s, k) then multiset{s[IndexOf(s, k)].payload} else multiset{}
    case Shrink(size) => if |s| > size then Payloads(s[size..]) else multiset{}
    case Clear => Payloads(s)
    case _ => multiset{}
  }

  lemma {:induction false} PayloadsJoin<K, P>(a: seq<Entry<K, P>>, b: seq<Entry<K, P>>)
    ensures Payloads(a + b) == Payloads(a) + Payloads(b)
  {
    if a == [] {
      assert a + b == b;
    } else {
      assert (a + b)[1..] == a[1..] + b;
      PayloadsJoin(a[1..], b);
    }
  }

  lemma PayloadsSplit<K, P>(s: seq<Entry<K, P>>, i: nat)
    requires i <= |s|
    ensures Payloads(s) == Payloads(s[..i]) + Payloads(s[i..])
    ensures i < |s| ==> Payloads(s[i..]) == multiset{s[i].payload} + Payloads(s[i + 1..])
  {
    assert s == s[..i] + s[i..];
    PayloadsJoin(s[..i], s[i..]);
    if i < |s| { assert s[i..][1..] == s[i + 1..]; }
  }

  lemma PayloadsWithout<K, P>(s: seq<Entry<K, P>>, k: K)
    requires Has(s, k)
    ensures Payloads(s) == multiset{s[IndexOf(s, k)].payload} + Payloads(Without(s, k))
  {
    var i := IndexOf(s, k);
    PayloadsSplit(s, i);
    PayloadsJoin(s[..i], s[i + 1..]);
  }

  lemma PayloadsFirst<K, P>(e: Entry<K, P>, s: seq<Entry<K, P>>)
    ensures Payloads([e] + s) == multiset{e.payload} + Payloads(s)
  {
    assert ([e] + s)[1..] == s;
  }

  function Given<K, P>(op: Op<K, P>): multiset<P> {
    if op.Put? then multiset{op.payload} else multiset{}
  }

  /** No operation loses a payload or deletes one twice. */
  lemma PayloadsConserved<K, P>(max: nat, s: seq<Entry<K, P>>, op: Op<K, P>)
    ensures Payloads(s) + Given(op) == Payloads(Apply(max, s, op)) + Deleted(max, s, op)
  {
    hide Payloads, Has, Without;
    match op
    case Put(k, p) => PutConserves(max, s, k, p);
    case Get(k) =>
      if Has(s, k) {
        PayloadsWithout(s, k);
        PayloadsFirst(s[IndexOf(s, k)], Without(s, k));
      }
    case Erase(k) =>
      if Has(s, k) { PayloadsWithout(s, k); }
    case Shrink(size) =>
      if |s| > size { PayloadsSplit(s, size); }
    case Clear => PayloadsNone<K, P>();
    case _ =>
  }

  lemma PayloadsNone<K, P>()
    ensures Payloads<K, P>([]) == multiset{}
  {
  }

  lemma PutConserves<K, P>(max: nat, s: seq<Entry<K, P>>, k: K, p: P)
    ensures Payloads(s) + multiset{p} == Payloads(Apply(max, s, Put(k, p))) + Deleted(max, s, Put(k, p))
  {
    hide Payloads, Has, Without;
    var rest := if Has(s, k) then Without(s, k) else Evicted(max, s);
    var gone := Deleted(max, s, Put(k, p));
    assert Payloads(s) == Payloads(rest) + gone by {
      if Has(s, k) {
        PayloadsWithout(s, k);
      } else if max > 0 && |s| > max - 1 {
        PayloadsSplit(s, max - 1);
      }
    }
    PayloadsFirst(Entry(k, p), rest);
  }

  function AllGiven<K, P>(ops: seq<Op<K, P>>): multiset<P> {
    if ops == [] then multiset{} else AllGiven(ops[..|ops| - 1]) + Given(ops[|ops| - 1])
  }

  function AllDeleted<K(==), P>(max: nat, ops: seq<Op<K, P>>): multiset<P> {
    if ops == [] then multiset{}
    else AllDeleted(max, ops[..|ops| - 1]) + Deleted(max, Run(max, ops[..|ops| - 1]), ops[|ops| - 1])
  }

  /** Over the life of a cache every payload it was given is held or has been deleted once;
      clearing, as destruction does, leaves none. */
  lemma {:induction false} EachDeletedOnce<K, P>(max: nat, ops: seq<Op<K, P>>)
    ensures AllGiven(ops) == Payloads(Run(max, ops)) + AllDeleted(max, ops)
    ensures AllGiven(ops + [Clear]) == AllDeleted(max, ops + [Clear])
  {
    Conserved(max, ops);
    Conserved(max, ops + [Clear]);
    assert (ops + [Clear])[..|ops|] == ops;
  }

  lemma {:induction false} Conserved<K, P>(max: nat, ops: seq<Op<K, P>>)
    ensures AllGiven(ops) == Payloads(Run(max, ops)) + AllDeleted(max, ops)
  {
    if ops == [] {
      assert Payloads(Run(max, ops)) == multiset{};
    } else {
      var before, op := ops[..|ops| - 1], ops[|ops| - 1];
      Conserved(max, before);
      PayloadsConserved(max, Run(max, before), op);
      Rebalance(AllGiven(before), Payloads(Run(max, before)), AllDeleted(max, before), Given(op),
                Payloads(Run(max, ops)), Deleted(max, Run(max, before), op));
    }
  }

  lemma Rebalance<P>(given: multiset<P>, held: multiset<P>, deleted: multiset<P>, more: multiset<P>, heldNow: multiset<P>,
                     gone: multiset<P>)
    requires given == held + deleted && held + more == heldNow + gone
    ensures given + more == heldNow + (deleted + gone)
  {
    assert given + more == held + more + deleted;
  }

  // ---- The cache object ------------------------------------------------------------------

  /** The address of a list node, which is what an iterator refers to. */
  type Address = nat

  function Removed<T>(s: seq<T>, i: nat): seq<T>
    requires i < |s|
  {
    s[..i] + s[i + 1..]
  }

  function PositionOf(list: seq<Address>, a: Address): (i: nat)
    requires a in list
    ensures i < |list| && list[i] == a
  {
    if list[0] == a then 0 else 1 + PositionOf(list[1..], a)
  }

  ghost predicate Different(list: seq<Address>) {
    forall i, j :: 0 <= i < j < |list| ==> list[i] != list[j]
  }

  lemma RemovedMembers(list: seq<Address>, i: nat)
    requires i < |list| && Different(list)
    ensures Different(Removed(list, i)) && list[i] !in Removed(list, i)
    ensures forall a :: a in Removed(list, i) <==> a in list && a != list[i]
  {
    var r := Removed(list, i);
    assert forall j :: 0 <= j < |r| ==> r[j] == list[if j < i then j else j + 1];
    forall a | a in list && a != list[i] ensures a in r {
      var j := PositionOf(list, a);
      assert r[if j < i then j else j - 1] == a;
    }
  }

  ghost predicate Linked<K, P>(list: seq<Address>, nodes: map<Address, Entry<K, P>>) {
    forall a :: a in list ==> a in nodes
  }

  ghost function Entries<K, P>(list: seq<Address>, nodes: map<Address, Entry<K, P>>): (s: seq<Entry<K, P>>)
    requires Linked(list, nodes)
    ensures |s| == |list|
  {
    seq(|list|, i requires 0 <= i < |list| => nodes[list[i]])
  }

  /** Index and list agree key by key, and no node is in the list twice. */
  ghost predicate Indexed<K, P>(list: seq<Address>, nodes: map<Address, Entry<K, P>>, index: map<K, Address>) {
    && Different(list) && Linked(list, nodes)
    && (forall a :: a in list ==> nodes[a].key in index && index[nodes[a].key] == a)
    && (forall k :: k in index ==> index[k] in list && nodes[index[k]].key == k)
  }

  /** The node an indexed key leads to is where the key is. */
  lemma IndexLeads<K, P>(list: seq<Address>, nodes: map<Address, Entry<K, P>>, index: map<K, Address>, k: K)
    requires Indexed(list, nodes, index)
    ensures k in index <==> Has(Entries(list, nodes), k)
    ensures k in index ==> index[k] in list && PositionOf(list, index[k]) == IndexOf(Entries(list, nodes), k)
  {
    var s := Entries(list, nodes);
    if k in index {
      assert s[PositionOf(list, index[k])].key == k;
      assert list[IndexOf(s, k)] == index[k];
    } else {
      assert forall i :: 0 <= i < |s| ==> list[i] in list && s[i].key in index;
    }
  }

  lemma RemovedIndexed<K, P>(list: seq<Address>, nodes: map<Address, Entry<K, P>>, index: map<K, Address>, i: nat)
    requires Indexed(list, nodes, index) && i < |list|
    ensures Indexed(Removed(list, i), nodes, index - {nodes[list[i]].key})
    ensures Entries(Removed(list, i), nodes) == Removed(Entries(list, nodes), i)
  {
    RemovedMembers(list, i);
    assert Entries(Removed(list, i), nodes) == Removed(Entries(list, nodes), i);
    var gone := nodes[list[i]].key;
    hide Removed, Different, Entries;
    forall a | a in Removed(list, i) ensures nodes[a].key in index - {gone} && index[nodes[a].key] == a {
      assert a in list;
    }
  }

  lemma PrependedIndexed<K, P>(list: seq<Address>, nodes: map<Address, Entry<K, P>>, index: map<K, Address>, a: Address,
                               e: Entry<K, P>)
    requires Indexed(list, nodes, index) && e.key !in index && a !in list
    ensures Indexed([a] + list, nodes[a := e], index[e.key := a])
    ensures Entries([a] + list, nodes[a := e]) == [e] + Entries(list, nodes)
  {
  }

  lemma {:induction false} SizeAgrees<K, P>(list: seq<Address>, nodes: map<Address, Entry<K, P>>, index: map<K, Address>)
    requires Indexed(list, nodes, index)
    ensures |index| == |list|
    decreases |list|
  {
    assert |index| == |index.Keys|;
    if list == [] {
      assert index.Keys == {};
    } else {
      var k := nodes[list[0]].key;
      RemovedIndexed(list, nodes, index, 0);
      SizeAgrees(Removed(list, 0), nodes, index - {k});
      assert |index - {k}| == |(index - {k}).Keys|;
      assert index.Keys == (index - {k}).Keys + {k};
    }
  }

  class Cache<K(==), P> {
    const maxSize: nat
    var ordering: seq<Address>
    var nodes: map<Address, Entry<K, P>>
    var index: map<K, Address>
    var unused: Address
    ghost var deleted: multiset<P>

    ghost predicate Valid()
      reads this
    {
      && Indexed(ordering, nodes, index)
      && (forall a :: a in ordering ==> a < unused)
    }

    ghost function Contents(): seq<Entry<K, P>>
      requires Valid()
      reads this
    {
      Entries(ordering, nodes)
    }

    constructor (size: nat)
      ensures Valid() && maxSize == size && Contents() == [] && deleted == multiset{}
    {
      maxSize, ordering, nodes, index, unused, deleted := size, [], map[], map[], 0, multiset{};
    }

    method Size() returns (n: nat)
      requires Valid()
      ensures n == |Contents()|
    {
      SizeAgrees(ordering, nodes, index);
      n := |index|;
    }

    /** Erases the node an iterator refers to. */
    method EraseNode(a: Address)
      requires Valid() && a in ordering
      modifies this
      ensures Valid() && index == old(index) - {old(nodes)[a].key}
      ensures var i := PositionOf(old(ordering), a);
              && Contents() == Removed(old(Contents()), i)
              && deleted == old(deleted) + multiset{old(Contents())[i].payload}
    {
      hide Indexed, Linked, Entries;
      var i := PositionOf(ordering, a);
      assert a in nodes && Contents()[i] == nodes[a] by { NodeAt(ordering, nodes, index, i); }
      RemovedIndexed(ordering, nodes, index, i);
      assert forall b :: b in Removed(ordering, i) ==> b in ordering;
      deleted := deleted + multiset{nodes[a].payload};
      index := index - {nodes[a].key};
      ordering := ordering[..i] + ordering[i + 1..];
    }

    method ShrinkToSize(newSize: nat)
      requires Valid()
      modifies this
      ensures Valid() && index.Keys <= old(index).Keys
      ensures Contents() == Apply(maxSize, old(Contents()), Shrink(newSize))
      ensures deleted == old(deleted) + Deleted(maxSize, old(Contents()), Shrink(newSize))
    {
      PayloadsNone<K, P>();
      hide Valid, Contents, Payloads;
      var i := Size();
      ghost var s := Contents();
      assert s[i..] == [];
      while i > newSize
        invariant Valid() && 0 <= i <= |s| && Contents() == s[..i] && index.Keys <= old(index).Keys
        invariant i < |s| ==> i >= newSize
        invariant deleted == old(deleted) + Payloads(s[i..])
      {
        PayloadsSplit(s, i - 1);
        EraseLast(s, i);
        i := i - 1;
      }
    }

    method EraseLast(ghost s: seq<Entry<K, P>>, ghost i: nat)
      requires Valid() && 0 < i <= |s| && Contents() == s[..i]
      modifies this
      ensures Valid() && Contents() == s[..i - 1] && deleted == old(deleted) + multiset{s[i - 1].payload}
      ensures index.Keys <= old(index).Keys
    {
      assert ordering != [];
      LastPosition(ordering);
      EraseNode(ordering[|ordering| - 1]);
    }

    /** The new node goes to the front. */
    method PushFront(key: K, payload: P)
      requires Valid() && key !in index
      modifies this
      ensures Valid() && Contents() == [Entry(key, payload)] + old(Contents()) && deleted == old(deleted)
    {
      PrependedIndexed(ordering, nodes, index, unused, Entry(key, payload));
      hide Indexed, Entries;
      nodes := nodes[unused := Entry(key, payload)];
      ordering := [unused] + ordering;
      index := index[key := unused];
      unused := unused + 1;
    }

    method Put(key: K, payload: P)
      requires Valid()
      modifies this
      ensures Valid()
      ensures Contents() == Apply(maxSize, old(Contents()), Op.Put(key, payload))
      ensures deleted == old(deleted) + Deleted(maxSize, old(Contents()), Op.Put(key, payload))
    {
      KeyLeads(key);
      hide Valid, Contents, Payloads, IndexOf, Has;
      if key in index {
        EraseNode(index[key]);
      } else if maxSize != 0 {
        ShrinkToSize(maxSize - 1);
      }
      PushFront(key, payload);
    }

    lemma KeyLeads(key: K)
      requires Valid()
      ensures key in index <==> Has(Contents(), key)
      ensures key in index ==>
                && index[key] in ordering && index[key] in nodes && nodes[index[key]].key == key
                && PositionOf(ordering, index[key]) == IndexOf(Contents(), key)
    {
      IndexLeads(ordering, nodes, index, key);
    }

    /** The entry with the key, moved to the front. */
    method Get(key: K) returns (found: bool)
      requires Valid()
      modifies this
      ensures Valid() && deleted == old(deleted)
      ensures found == Has(old(Contents()), key)
      ensures Contents() == Apply(maxSize, old(Contents()), Op.Get(key))
    {
      hide Indexed, Entries, IndexOf, Has, PositionOf, Linked;
      KeyLeads(key);
      if key !in index {
        return false;
      }
      var a := index[key];
      var i := PositionOf(ordering, a);
      Splice(ordering, nodes, index, i);
      ordering := [a] + (ordering[..i] + ordering[i + 1..]);
      return true;
    }

    method Peek(key: K) returns (found: bool, position: nat)
      requires Valid()
      ensures found == Has(Contents(), key)
      ensures found ==> position < |Contents()| && Contents()[position].key == key
    {
      KeyLeads(key);
      if key !in index {
        return false, 0;
      }
      return true, PositionOf(ordering, index[key]);
    }

    method Clear()
      requires Valid()
      modifies this
      ensures Valid() && Contents() == []
      ensures deleted == old(deleted) + Deleted(maxSize, old(Contents()), Op.Clear)
    {
      ghost var s := Contents();
      PayloadsNone<K, P>();
      for i := 0 to |ordering|
        invariant ordering == old(ordering) && nodes == old(nodes) && index == old(index)
        invariant deleted + Payloads(s[i..]) == old(deleted) + Payloads(s)
      {
        PayloadsSplit(s, i);
        NodeAt(ordering, nodes, index, i);
        hide Payloads, Indexed, Entries;
        deleted := deleted + multiset{nodes[ordering[i]].payload};
      }
      index, ordering := map[], [];
    }

    /** The destructor erases from the front and so deletes whatever is still held. */
    method Destroy()
      requires Valid()
      modifies this
      ensures Valid() && Contents() == [] && deleted == old(deleted) + Payloads(old(Contents()))
    {
      ghost var s := Contents();
      PayloadsNone<K, P>();
      while ordering != []
        invariant Valid() && deleted + Payloads(Contents()) == old(deleted) + Payloads(s)
        decreases |Contents()|
      {
        EraseFirst();
      }
    }

    method EraseFirst()
      requires Valid() && ordering != []
      modifies this
      ensures Valid() && |Contents()| < |old(Contents())|
      ensures deleted + Payloads(Contents()) == old(deleted) + Payloads(old(Contents()))
    {
      ghost var s := Contents();
      PayloadsSplit(s, 0);
      PayloadsNone<K, P>();
      hide Payloads;
      assert s[0..] == s && s[..0] == [] && Removed(s, 0) == s[1..];
      EraseNode(ordering[0]);
    }
  }

  lemma NodeAt<K, P>(list: seq<Address>, nodes: map<Address, Entry<K, P>>, index: map<K, Address>, i: nat)
    requires Indexed(list, nodes, index) && i < |list|
    ensures Linked(list, nodes) && list[i] in nodes && Entries(list, nodes)[i] == nodes[list[i]]
  {
  }

  /** Moving a node to the front keeps the index as it is. */
  lemma Splice<K, P>(list: seq<Address>, nodes: map<Address, Entry<K, P>>, index: map<K, Address>, i: nat)
    requires Indexed(list, nodes, index) && i < |list|
    ensures Indexed([list[i]] + Removed(list, i), nodes, index) && Linked([list[i]] + Removed(list, i), nodes)
    ensures forall a :: a in [list[i]] + Removed(list, i) ==> a in list
    ensures Entries([list[i]] + Removed(list, i), nodes) == [Entries(list, nodes)[i]] + Removed(Entries(list, nodes), i)
  {
    var key := nodes[list[i]].key;
    RemovedIndexed(list, nodes, index, i);
    RemovedMembers(list, i);
    PrependedIndexed(Removed(list, i), nodes, index - {key}, list[i], nodes[list[i]]);
    assert (index - {key})[key := list[i]] == index;
    assert nodes[list[i] := nodes[list[i]]] == nodes;
  }

  lemma LastPosition(list: seq<Address>)
    requires list != [] && Different(list)
    ensures PositionOf(list, list[|list| - 1]) == |list| - 1
  {
    var i := PositionOf(list, list[|list| - 1]);
    assert list[i] == list[|list| - 1];
  }
}
