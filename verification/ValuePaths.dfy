/** Dotted paths into dictionaries, merging, pruning and comparing (src/chromium/values.cc).
    Nested dictionaries are values, so an update rebuilds the dictionaries on the way. */
module ValuePaths {
  import opened Values
  import opened Wrappers

  // ---- Paths -----------------------------------------------------------------------------

  function FirstDot(path: string): (i: nat)
    ensures i <= |path| && (i < |path| ==> path[i] == '.')
    ensures forall k :: 0 <= k < i ==> path[k] != '.'
  {
    if path == "" || path[0] == '.' then 0 else 1 + FirstDot(path[1..])
  }

  /** The keys between the dots; the empty path is one empty key. */
  function Keys(path: string): (keys: seq<string>)
    ensures keys != []
    decreases |path|
  {
    var i := FirstDot(path);
    if i == |path| then [path] else [path[..i]] + Keys(path[i + 1..])
  }

  function Joined(keys: seq<string>): string
    requires keys != []
  {
    if |keys| == 1 then keys[0] else keys[0] + "." + Joined(keys[1..])
  }

  lemma KeysStep(key: string, rest: string)
    requires '.' !in key
    ensures Keys(key) == [key] && Keys(key + "." + rest) == [key] + Keys(rest)
  {
    assert FirstDot(key) == |key|;
    var path := key + "." + rest;
    assert FirstDot(path) == |key| by {
      assert forall k :: 0 <= k < |key| ==> path[k] == key[k];
      assert path[|key|] == '.';
      hide FirstDot;
    }
    assert path[..|key|] == key && path[|key| + 1..] == rest;
  }

  /** Keys without dots are found again in the path that joins them. */
  lemma {:induction false} KeysOfJoined(keys: seq<string>)
    requires keys != [] && forall i :: 0 <= i < |keys| ==> '.' !in keys[i]
    ensures Keys(Joined(keys)) == keys
  {
    hide Keys;
    if |keys| == 1 {
      KeysStep(keys[0], "");
      assert keys == [keys[0]];
    } else {
      KeysStep(keys[0], Joined(keys[1..]));
      KeysOfJoined(keys[1..]);
      assert keys == [keys[0]] + keys[1..];
    }
  }

  function EntriesOf(v: Value): seq<Entry> {
    if v.Dict? then v.entries else []
  }

  /** What the keys lead to from a value. */
  function At(v: Value, keys: seq<string>): Option<Value>
    decreases |keys|
  {
    if keys == [] then Some(v)
    else match GetEntry(EntriesOf(v), keys[0])
      case None => None
      case Some(child) => At(child, keys[1..])
  }

  function OrEmpty(v: Option<Value>): Value {
    if v.Some? then v.value else Dict([])
  }

  /** `Set`: dictionaries are made on the way where there is none, in place of whatever is there. */
  function Put(v: Value, keys: seq<string>, x: Value): Value
    decreases |keys|
  {
    if keys == [] then x
    else Dict(SetEntry(EntriesOf(v), keys[0], Put(OrEmpty(GetEntry(EntriesOf(v), keys[0])), keys[1..], x)))
  }

  function RemoveEntry(entries: seq<Entry>, key: string): seq<Entry> {
    if entries == [] then []
    else if entries[0].key == key then entries[1..]
    else [entries[0]] + RemoveEntry(entries[1..], key)
  }

  /** `Remove`: only the last key goes; emptied dictionaries stay. */
  function Cut(v: Value, keys: seq<string>): Value
    requires keys != []
    decreases |keys|
  {
    if !v.Dict? then v
    else if |keys| == 1 then Dict(RemoveEntry(v.entries, keys[0]))
    else match GetEntry(v.entries, keys[0])
      case None => v
      case Some(child) => Dict(SetEntry(v.entries, keys[0], Cut(child, keys[1..])))
  }

  // ---- Single keys -----------------------------------------------------------------------

  lemma {:induction false} NoEntry(entries: seq<Entry>, key: string)
    requires forall e :: e in entries ==> e.key != key
    ensures GetEntry(entries, key) == None
  {
    if entries != [] {
      assert entries[0] in entries;
      NoEntry(entries[1..], key);
    }
  }

  lemma {:induction false} GetInEntries(entries: seq<Entry>, key: string)
    ensures GetEntry(entries, key).Some? ==> Entry(key, GetEntry(entries, key).value) in entries
  {
    if entries != [] && entries[0].key != key {
      GetInEntries(entries[1..], key);
    }
  }

  lemma TailKeys(entries: seq<Entry>)
    requires Sorted(entries) && entries != []
    ensures Sorted(entries[1..]) && forall e :: e in entries[1..] ==> Less(entries[0].key, e.key) && e.key != entries[0].key
  {
    forall e | e in entries[1..] ensures Less(entries[0].key, e.key) && e.key != entries[0].key {
      var i :| 1 <= i < |entries| && entries[i] == e;
      LessAsymmetric(entries[0].key, e.key);
    }
  }

  lemma {:induction false} RemoveThenGet(entries: seq<Entry>, key: string, other: string)
    requires Sorted(entries)
    ensures GetEntry(RemoveEntry(entries, key), other) == if other == key then None else GetEntry(entries, other)
  {
    if entries != [] {
      TailKeys(entries);
      if entries[0].key == key {
        NoEntry(entries[1..], key);
      } else {
        RemoveThenGet(entries[1..], key, other);
      }
    }
  }

  lemma {:induction false} RemoveSorted(entries: seq<Entry>, key: string)
    requires Sorted(entries)
    ensures Sorted(RemoveEntry(entries, key)) && forall e :: e in RemoveEntry(entries, key) ==> e in entries
  {
    if entries != [] && entries[0].key != key {
      TailKeys(entries);
      RemoveSorted(entries[1..], key);
    }
  }

  /** Ordered entries are determined by what each key leads to. */
  lemma {:induction false} SameEntries(a: seq<Entry>, b: seq<Entry>)
    requires Sorted(a) && Sorted(b) && forall k :: GetEntry(a, k) == GetEntry(b, k)
    ensures a == b
  {
    if a == [] {
      assert b == [] || GetEntry(a, b[0].key) == GetEntry(b, b[0].key);
    } else {
      assert GetEntry(b, a[0].key) == Some(a[0].value);
      assert b != [];
      assert GetEntry(a, b[0].key) == Some(b[0].value);
      SameFirst(a, b);
      TailKeys(a);
      TailKeys(b);
      forall k ensures GetEntry(a[1..], k) == GetEntry(b[1..], k) {
        if k == a[0].key {
          NoEntry(a[1..], k);
          NoEntry(b[1..], k);
        } else {
          assert GetEntry(a, k) == GetEntry(b, k);
        }
      }
      SameEntries(a[1..], b[1..]);
      assert a == [a[0]] + a[1..] && b == [b[0]] + b[1..];
    }
  }

  lemma SameFirst(a: seq<Entry>, b: seq<Entry>)
    requires a != [] && b != [] && Sorted(a) && Sorted(b)
    requires GetEntry(b, a[0].key) == Some(a[0].value) && GetEntry(a, b[0].key) == Some(b[0].value)
    ensures a[0] == b[0]
  {
    if a[0].key != b[0].key {
      GetInEntries(a, b[0].key);
      GetInEntries(b, a[0].key);
      TailKeys(a);
      TailKeys(b);
      assert Entry(b[0].key, b[0].value) in a[1..] && Entry(a[0].key, a[0].value) in b[1..];
      LessAsymmetric(a[0].key, b[0].key);
    }
  }

  lemma FormedChild(v: Value, key: string)
    requires WellFormed(v)
    ensures Sorted(EntriesOf(v)) && WellFormed(Dict(EntriesOf(v)))
    ensures WellFormed(OrEmpty(GetEntry(EntriesOf(v), key)))
  {
    GetInEntries(EntriesOf(v), key);
  }

  lemma SetFormed(entries: seq<Entry>, key: string, x: Value)
    requires WellFormed(Dict(entries)) && WellFormed(x)
    ensures WellFormed(Dict(SetEntry(entries, key, x)))
  {
    SetEntrySorted(entries, key, x);
    SetEntryKeys(entries, key, x);
    forall i | 0 <= i < |SetEntry(entries, key, x)| ensures WellFormed(SetEntry(entries, key, x)[i].value) {
      assert SetEntry(entries, key, x)[i] in SetEntry(entries, key, x);
    }
  }

  // ---- Set, Get and Remove over any two paths --------------------------------------------

  lemma {:induction false} PutFormed(v: Value, keys: seq<string>, x: Value)
    requires WellFormed(v) && WellFormed(x)
    ensures WellFormed(Put(v, keys, x))
    decreases |keys|
  {
    if keys != [] {
      FormedChild(v, keys[0]);
      var child := OrEmpty(GetEntry(EntriesOf(v), keys[0]));
      PutFormed(child, keys[1..], x);
      SetFormed(EntriesOf(v), keys[0], Put(child, keys[1..], x));
    }
  }

  lemma {:induction false} CutFormed(v: Value, keys: seq<string>)
    requires WellFormed(v) && keys != []
    ensures WellFormed(Cut(v, keys))
    decreases |keys|
  {
    if v.Dict? {
      FormedChild(v, keys[0]);
      if |keys| == 1 {
        RemoveSorted(v.entries, keys[0]);
        forall i | 0 <= i < |RemoveEntry(v.entries, keys[0])| ensures WellFormed(RemoveEntry(v.entries, keys[0])[i].value) {
          assert RemoveEntry(v.entries, keys[0])[i] in v.entries;
        }
      } else if GetEntry(v.entries, keys[0]).Some? {
        var child := GetEntry(v.entries, keys[0]).value;
        CutFormed(child, keys[1..]);
        SetFormed(v.entries, keys[0], Cut(child, keys[1..]));
      }
    }
  }

  /** What any path leads to after a value was set at any path: at and below it the new value,
      above it the updated dictionary, and everywhere else what was there before. */
  lemma {:induction false} GetAfterSet(v: Value, p: seq<string>, x: Value, q: seq<string>)
    ensures At(Put(v, p, x), q)
         == if p <= q then At(x, q[|p|..])
            else if q <= p then Some(Put(OrEmpty(At(v, q)), p[|q|..], x))
            else At(v, q)
    decreases |p|
  {
    hide *;
    if p == [] {
      NoKeys(v, x);
      assert q[0..] == q;
    } else if q == [] {
      NoKeys(v, x);
      NoKeys(Put(v, p, x), x);
      OrEmptySome(v);
      assert p[0..] == p;
    } else {
      var es, child := EntriesOf(v), OrEmpty(GetEntry(EntriesOf(v), p[0]));
      PutStep(v, p, x);
      AtStep(v, q);
      AtStep(Put(v, p, x), q);
      SetThenGet(es, p[0], Put(child, p[1..], x), q[0]);
      if p[0] == q[0] {
        GetAfterSet(child, p[1..], x, q[1..]);
        SamePrefix(p, q);
        ChildAt(GetEntry(es, p[0]), q[1..]);
      }
    }
  }

  lemma NoKeys(v: Value, x: Value)
    ensures At(v, []) == Some(v) && Put(v, [], x) == x
  {
  }

  lemma OrEmptySome(v: Value)
    ensures OrEmpty(Some(v)) == v
  {
  }

  lemma PutStep(v: Value, p: seq<string>, x: Value)
    requires p != []
    ensures EntriesOf(Put(v, p, x))
         == SetEntry(EntriesOf(v), p[0], Put(OrEmpty(GetEntry(EntriesOf(v), p[0])), p[1..], x))
  {
  }

  /** A missing child is as good as an empty dictionary for what lies below it. */
  lemma ChildAt(child: Option<Value>, q: seq<string>)
    ensures child.None? && q != [] ==> At(OrEmpty(child), q) == None
    ensures child.None? && q == [] ==> OrEmpty(At(OrEmpty(child), q)) == OrEmpty(None)
    ensures child.Some? ==> OrEmpty(child) == child.value
  {
  }

  lemma AtStep(v: Value, q: seq<string>)
    requires q != []
    ensures At(v, q) == match GetEntry(EntriesOf(v), q[0]) case None => None case Some(child) => At(child, q[1..])
  {
  }

  lemma SamePrefix(p: seq<string>, q: seq<string>)
    requires p != [] && q != [] && p[0] == q[0]
    ensures p <= q <==> p[1..] <= q[1..]
    ensures q <= p <==> q[1..] <= p[1..]
    ensures p <= q ==> q[|p|..] == q[1..][|p| - 1..]
    ensures q <= p ==> p[|q|..] == p[1..][|q| - 1..]
  {
    assert p == [p[0]] + p[1..] && q == [q[0]] + q[1..];
  }

  lemma NothingBelow(q: seq<string>)
    ensures At(Dict([]), q) == if q == [] then Some(Dict([])) else None
  {
  }

  /** The same after a removal: at and below the path there is nothing. */
  lemma {:induction false} GetAfterRemove(v: Value, p: seq<string>, q: seq<string>)
    requires WellFormed(v) && p != []
    ensures At(Cut(v, p), q)
         == if p <= q then None
            else if q <= p then (match At(v, q) case None => None case Some(u) => Some(Cut(u, p[|q|..])))
            else At(v, q)
    decreases |p|
  {
    if q == [] {
      assert p[0..] == p;
    } else if v.Dict? {
      FormedChild(v, p[0]);
      if |p| == 1 {
        RemoveThenGet(v.entries, p[0], q[0]);
      } else if GetEntry(v.entries, p[0]).Some? {
        var child := GetEntry(v.entries, p[0]).value;
        SetThenGet(v.entries, p[0], Cut(child, p[1..]), q[0]);
        if p[0] == q[0] {
          GetAfterRemove(child, p[1..], q[1..]);
          SamePrefix(p, q);
        }
      }
    }
  }

  // ---- Remove undoes Set -----------------------------------------------------------------

  lemma {:induction false} RemoveUndoesAdd(entries: seq<Entry>, key: string, x: Value)
    requires Sorted(entries) && GetEntry(entries, key).None?
    ensures RemoveEntry(SetEntry(entries, key, x), key) == entries
  {
    if entries != [] && !Less(key, entries[0].key) {
      TailKeys(entries);
      RemoveUndoesAdd(entries[1..], key, x);
    }
  }

  lemma SetTwice(entries: seq<Entry>, key: string, x: Value, y: Value)
    requires Sorted(entries)
    ensures SetEntry(SetEntry(entries, key, x), key, y) == SetEntry(entries, key, y)
  {
    SetEntrySorted(entries, key, x);
    SetEntrySorted(entries, key, y);
    SetEntrySorted(SetEntry(entries, key, x), key, y);
    forall k ensures GetEntry(SetEntry(SetEntry(entries, key, x), key, y), k) == GetEntry(SetEntry(entries, key, y), k) {
      SetThenGet(entries, key, x, k);
      SetThenGet(SetEntry(entries, key, x), key, y, k);
      SetThenGet(entries, key, y, k);
    }
    SameEntries(SetEntry(SetEntry(entries, key, x), key, y), SetEntry(entries, key, y));
  }

  lemma SetSame(entries: seq<Entry>, key: string)
    requires Sorted(entries) && GetEntry(entries, key).Some?
    ensures SetEntry(entries, key, GetEntry(entries, key).value) == entries
  {
    var x := GetEntry(entries, key).value;
    SetEntrySorted(entries, key, x);
    forall k ensures GetEntry(SetEntry(entries, key, x), k) == GetEntry(entries, k) {
      SetThenGet(entries, key, x, k);
    }
    SameEntries(SetEntry(entries, key, x), entries);
  }

  /** The path ends in a dictionary that has nothing under the last key. */
  predicate FreshLeaf(v: Value, keys: seq<string>)
    requires keys != []
  {
    var parent := At(v, keys[..|keys| - 1]);
    parent.Some? && parent.value.Dict? && GetEntry(parent.value.entries, keys[|keys| - 1]).None?
  }

  lemma FreshBelow(v: Value, keys: seq<string>)
    requires |keys| > 1
    ensures FreshLeaf(v, keys) <==>
            v.Dict? && GetEntry(v.entries, keys[0]).Some? && FreshLeaf(GetEntry(v.entries, keys[0]).value, keys[1..])
  {
    assert keys[..|keys| - 1][1..] == keys[1..][..|keys| - 2];
  }

  /** Removing what was set gives back the former dictionary exactly when the path led to a
      place in an existing dictionary where there was nothing. */
  lemma {:induction false} RemoveUndoesSet(v: Value, keys: seq<string>, x: Value)
    requires WellFormed(v) && WellFormed(x) && keys != []
    ensures Cut(Put(v, keys, x), keys) == v <==> FreshLeaf(v, keys)
    decreases |keys|
  {
    var es, k := EntriesOf(v), keys[0];
    FormedChild(v, k);
    var child := OrEmpty(GetEntry(es, k));
    var below := Put(child, keys[1..], x);
    SetThenGet(es, k, below, k);
    if |keys| == 1 {
      SetEntrySorted(es, k, x);
      RemoveThenGet(SetEntry(es, k, x), k, k);
      assert keys[..0] == [];
      if FreshLeaf(v, keys) { RemoveUndoesAdd(es, k, x); }
    } else {
      var rest := Cut(below, keys[1..]);
      SetTwice(es, k, below, rest);
      SetThenGet(es, k, rest, k);
      FreshBelow(v, keys);
      RemoveUndoesSet(child, keys[1..], x);
      if v.Dict? && GetEntry(es, k).Some? {
        SetSame(es, k);
      }
    }
  }

  // ---- Merging ---------------------------------------------------------------------------

  /** A dictionary onto a dictionary is merged into it; anything else replaces what is there. */
  function MergeValue(x: Option<Value>, y: Value): Value
    decreases y, 1
  {
    if y.Dict? && x.Some? && x.value.Dict? then Dict(Merge(x.value.entries, y.entries)) else y
  }

  /** `MergeDictionary`, key by key in order. */
  function Merge(a: seq<Entry>, b: seq<Entry>): seq<Entry>
    decreases b, 0
  {
    if b == [] then a
    else Merge(SetEntry(a, b[0].key, MergeValue(GetEntry(a, b[0].key), b[0].value)), b[1..])
  }

  lemma {:induction false} MergeKey(a: seq<Entry>, b: seq<Entry>, k: string)
    requires Sorted(b)
    ensures GetEntry(Merge(a, b), k)
         == match GetEntry(b, k) case None => GetEntry(a, k) case Some(y) => Some(MergeValue(GetEntry(a, k), y))
    decreases |b|
  {
    hide MergeValue;
    if b != [] {
      TailKeys(b);
      var a1 := SetEntry(a, b[0].key, MergeValue(GetEntry(a, b[0].key), b[0].value));
      MergeKey(a1, b[1..], k);
      SetThenGet(a, b[0].key, MergeValue(GetEntry(a, b[0].key), b[0].value), k);
      if k == b[0].key { NoEntry(b[1..], k); }
    }
  }

  lemma {:induction false} MergeFormed(a: seq<Entry>, b: seq<Entry>)
    requires WellFormed(Dict(a)) && WellFormed(Dict(b))
    ensures WellFormed(Dict(Merge(a, b)))
    decreases b
  {
    if b != [] {
      var e := b[0];
      FormedChild(Dict(a), e.key);
      var x := GetEntry(a, e.key);
      if e.value.Dict? && x.Some? && x.value.Dict? {
        MergeFormed(x.value.entries, e.value.entries);
      }
      SetFormed(a, e.key, MergeValue(x, e.value));
      TailFormed(b);
      MergeFormed(SetEntry(a, e.key, MergeValue(x, e.value)), b[1..]);
    }
  }

  lemma TailFormed(b: seq<Entry>)
    requires b != [] && WellFormed(Dict(b))
    ensures WellFormed(b[0].value) && WellFormed(Dict(b[1..]))
  {
    TailKeys(b);
  }

  /** On the way to the path there is something that is no dictionary. */
  predicate Blocked(v: Value, q: seq<string>)
    decreases |q|
  {
    q != [] && (
      || !v.Dict?
      || (GetEntry(v.entries, q[0]).Some? && Blocked(GetEntry(v.entries, q[0]).value, q[1..])))
  }

  lemma {:induction false} BlockedLeadsNowhere(v: Value, q: seq<string>)
    ensures Blocked(v, q) ==> At(v, q) == None
    decreases |q|
  {
    if q != [] && v.Dict? && GetEntry(v.entries, q[0]).Some? {
      BlockedLeadsNowhere(GetEntry(v.entries, q[0]).value, q[1..]);
    }
  }

  /** What any path leads to after merging: the merged-in value where it has one, nothing where
      that has something in the way, and otherwise what was there before. */
  lemma {:induction false} GetAfterMerge(a: seq<Entry>, b: seq<Entry>, q: seq<string>)
    requires WellFormed(Dict(b))
    ensures At(Dict(Merge(a, b)), q)
         == match At(Dict(b), q)
            case Some(y) => Some(MergeValue(At(Dict(a), q), y))
            case None => if Blocked(Dict(b), q) then None else At(Dict(a), q)
    decreases |q|
  {
    if q != [] {
      MergeKey(a, b, q[0]);
      FormedChild(Dict(b), q[0]);
      var x, y := GetEntry(a, q[0]), GetEntry(b, q[0]);
      if y.Some? {
        if y.value.Dict? && x.Some? && x.value.Dict? {
          GetAfterMerge(x.value.entries, y.value.entries, q[1..]);
        } else {
          BlockedLeadsNowhere(y.value, q[1..]);
          if x.Some? && !x.value.Dict? && q[1..] != [] { assert At(x.value, q[1..]) == None; }
          if q[1..] != [] && !y.value.Dict? { assert Blocked(y.value, q[1..]); }
        }
      }
    }
  }

  /** Merging a dictionary into itself changes nothing. */
  lemma {:induction false} MergeSelf(b: seq<Entry>)
    requires WellFormed(Dict(b))
    ensures Merge(b, b) == b
    decreases b
  {
    MergeFormed(b, b);
    forall k ensures GetEntry(Merge(b, b), k) == GetEntry(b, k) {
      MergeKey(b, b, k);
      FormedChild(Dict(b), k);
      GetInEntries(b, k);
      var y := GetEntry(b, k);
      if y.Some? && y.value.Dict? {
        var i :| 0 <= i < |b| && b[i] == Entry(k, y.value);
        MergeSelf(b[i].value.entries);
      }
    }
    SameEntries(Merge(b, b), b);
  }

  /** Merging the same dictionary once more changes nothing. */
  lemma {:induction false} MergeIdempotent(a: seq<Entry>, b: seq<Entry>)
    requires WellFormed(Dict(a)) && WellFormed(Dict(b))
    ensures Merge(Merge(a, b), b) == Merge(a, b)
    decreases b
  {
    var m := Merge(a, b);
    MergeFormed(a, b);
    MergeFormed(m, b);
    forall k ensures GetEntry(Merge(m, b), k) == GetEntry(m, k) {
      MergeKey(a, b, k);
      MergeKey(m, b, k);
      FormedChild(Dict(a), k);
      FormedChild(Dict(b), k);
      GetInEntries(b, k);
      var x, y := GetEntry(a, k), GetEntry(b, k);
      if y.Some? && y.value.Dict? {
        MergeSelf(y.value.entries);
        var i :| 0 <= i < |b| && b[i] == Entry(k, y.value);
        assert b[i].value == y.value;
        if x.Some? && x.value.Dict? { MergeIdempotent(x.value.entries, b[i].value.entries); }
      }
    }
    SameEntries(Merge(m, b), m);
  }

  /** Whatever `x` has is in `z` too, and dictionaries within both are so again: merging `z` in
      leaves nothing of `x`. */
  predicate Absorbed(x: seq<Entry>, z: seq<Entry>)
    decreases x
  {
    forall i :: 0 <= i < |x| ==>
      match GetEntry(z, x[i].key)
      case None => false
      case Some(w) => x[i].value.Dict? && w.Dict? ==> Absorbed(x[i].value.entries, w.entries)
  }

  lemma IndexOfKey(a: seq<Entry>, k: string) returns (i: nat)
    requires GetEntry(a, k).Some?
    ensures i < |a| && a[i] == Entry(k, GetEntry(a, k).value)
  {
    GetInEntries(a, k);
    i :| 0 <= i < |a| && a[i] == Entry(k, GetEntry(a, k).value);
  }

  /** Merging gives back the merged-in dictionary exactly when that absorbs the other. */
  lemma {:induction false} MergeAbsorbs(x: seq<Entry>, z: seq<Entry>)
    requires WellFormed(Dict(x)) && WellFormed(Dict(z))
    ensures Merge(x, z) == z <==> Absorbed(x, z)
    decreases x
  {
    forall i | 0 <= i < |x|
      ensures GetEntry(Merge(x, z), x[i].key) == GetEntry(z, x[i].key)
         <==> match GetEntry(z, x[i].key)
              case None => false
              case Some(w) => x[i].value.Dict? && w.Dict? ==> Absorbed(x[i].value.entries, w.entries)
    {
      var k := x[i].key;
      GetAtIndex(x, i);
      MergeKey(x, z, k);
      FormedChild(Dict(z), k);
      var w := GetEntry(z, k);
      if w.Some? && x[i].value.Dict? && w.value.Dict? { MergeAbsorbs(x[i].value.entries, w.value.entries); }
    }
    if Absorbed(x, z) {
      forall k ensures GetEntry(Merge(x, z), k) == GetEntry(z, k) {
        MergeKey(x, z, k);
        if GetEntry(x, k).Some? { var i := IndexOfKey(x, k); }
      }
      MergeFormed(x, z);
      SameEntries(Merge(x, z), z);
    }
  }

  /** Somewhere `a` and `c` hold dictionaries under a path where `b` holds a plain value, and `c`
      does not absorb what `a` has there. */
  predicate Separates(a: seq<Entry>, b: seq<Entry>, c: seq<Entry>)
    decreases a
  {
    exists i :: 0 <= i < |a| && SeparatesAt(a, i, b, c)
  }

  predicate SeparatesAt(a: seq<Entry>, i: nat, b: seq<Entry>, c: seq<Entry>)
    requires i < |a|
    decreases a, 0
  {
    var x, y, z := a[i].value, GetEntry(b, a[i].key), GetEntry(c, a[i].key);
    && x.Dict? && y.Some? && z.Some? && z.value.Dict?
    && if y.value.Dict? then Separates(x.entries, y.value.entries, z.value.entries)
       else !Absorbed(x.entries, z.value.entries)
  }

  /** What both orders of merging lead to under one key. */
  lemma MergedBothWays(a: seq<Entry>, b: seq<Entry>, c: seq<Entry>, k: string)
    requires Sorted(b) && Sorted(c) && Sorted(Merge(b, c))
    ensures var x, y, z := GetEntry(a, k), GetEntry(b, k), GetEntry(c, k);
            var left, right := GetEntry(Merge(Merge(a, b), c), k), GetEntry(Merge(a, Merge(b, c)), k);
            if y.None? || z.None? then left == right
            else
              && left == Some(MergeValue(Some(MergeValue(x, y.value)), z.value))
              && right == Some(MergeValue(x, MergeValue(y, z.value)))
  {
    MergeKey(a, b, k);
    MergeKey(Merge(a, b), c, k);
    MergeKey(b, c, k);
    MergeKey(a, Merge(b, c), k);
  }

  lemma {:induction false} DiffersAt(a: seq<Entry>, i: nat, b: seq<Entry>, c: seq<Entry>)
    requires i < |a| && WellFormed(Dict(a)) && WellFormed(Dict(b)) && WellFormed(Dict(c))
    ensures GetEntry(Merge(Merge(a, b), c), a[i].key) == GetEntry(Merge(a, Merge(b, c)), a[i].key)
       <==> !SeparatesAt(a, i, b, c)
    decreases a, 0
  {
    var k := a[i].key;
    GetAtIndex(a, i);
    MergeFormed(b, c);
    MergedBothWays(a, b, c, k);
    FormedChild(Dict(b), k);
    FormedChild(Dict(c), k);
    hide Merge, GetEntry, Absorbed;
    var x, y, z := a[i].value, GetEntry(b, k), GetEntry(c, k);
    if x.Dict? && y.Some? && z.Some? && z.value.Dict? {
      if y.value.Dict? {
        MergeAssociativeExactlyWhen(x.entries, y.value.entries, z.value.entries);
      } else {
        MergeAbsorbs(x.entries, z.value.entries);
      }
    }
  }

  /** The order of merging is immaterial exactly when the middle dictionary separates nothing. */
  lemma {:induction false} MergeAssociativeExactlyWhen(a: seq<Entry>, b: seq<Entry>, c: seq<Entry>)
    requires WellFormed(Dict(a)) && WellFormed(Dict(b)) && WellFormed(Dict(c))
    ensures Merge(Merge(a, b), c) == Merge(a, Merge(b, c)) <==> !Separates(a, b, c)
    decreases a, 1
  {
    hide Merge, MergeValue, GetEntry, SeparatesAt;
    var left, right := Merge(Merge(a, b), c), Merge(a, Merge(b, c));
    MergeFormed(a, b);
    MergeFormed(b, c);
    MergeFormed(Merge(a, b), c);
    MergeFormed(a, Merge(b, c));
    forall i | 0 <= i < |a| ensures GetEntry(left, a[i].key) == GetEntry(right, a[i].key) <==> !SeparatesAt(a, i, b, c) {
      DiffersAt(a, i, b, c);
    }
    if !Separates(a, b, c) {
      forall k ensures GetEntry(left, k) == GetEntry(right, k) {
        if GetEntry(a, k).Some? {
          var i := IndexOfKey(a, k);
          assert !SeparatesAt(a, i, b, c);
        } else {
          SameElsewhere(a, b, c, k);
        }
      }
      SameEntries(left, right);
    }
  }

  lemma SameElsewhere(a: seq<Entry>, b: seq<Entry>, c: seq<Entry>, k: string)
    requires Sorted(b) && Sorted(c) && Sorted(Merge(b, c)) && GetEntry(a, k).None?
    ensures GetEntry(Merge(Merge(a, b), c), k) == GetEntry(Merge(a, Merge(b, c)), k)
  {
    MergedBothWays(a, b, c, k);
  }

  /** Three dictionaries for which it matters: a plain value in the middle separates its
      neighbours one way and not the other. */
  lemma MergeNotAssociative() returns (a: seq<Entry>, b: seq<Entry>, c: seq<Entry>)
    ensures WellFormed(Dict(a)) && WellFormed(Dict(b)) && WellFormed(Dict(c))
    ensures Merge(Merge(a, b), c) != Merge(a, Merge(b, c))
  {
    a, b, c := [Entry("x", Dict([Entry("y", Null)]))], [Entry("x", Null)], [Entry("x", Dict([]))];
    var x := [Entry("y", Null)];
    assert a[0].value == Dict(x) && x[0].key == "y" && GetEntry([], "y") == None;
    assert !Absorbed(x, []);
    assert GetEntry(b, "x") == Some(Null) && GetEntry(c, "x") == Some(Dict([]));
    assert SeparatesAt(a, 0, b, c);
    MergeAssociativeExactlyWhen(a, b, c);
  }

  // ---- Copies without empty children -----------------------------------------------------

  function Pruned(v: Value): Option<Value>
    decreases v, 1
  {
    match v
    case List(items) => if PrunedItems(items) == [] then None else Some(List(PrunedItems(items)))
    case Dict(entries) => if PrunedEntries(entries) == [] then None else Some(Dict(PrunedEntries(entries)))
    case _ => Some(v)
  }

  function PrunedItems(items: seq<Value>): seq<Value>
    decreases items, 0
  {
    if items == [] then []
    else (match Pruned(items[0]) case None => [] case Some(w) => [w]) + PrunedItems(items[1..])
  }

  function PrunedEntries(entries: seq<Entry>): seq<Entry>
    decreases entries, 0
  {
    if entries == [] then []
    else (match Pruned(entries[0].value) case None => [] case Some(w) => [Entry(entries[0].key, w)]) + PrunedEntries(entries[1..])
  }

  /** No list and no dictionary in the tree, the root included, is empty. */
  ghost predicate NoEmpty(v: Value)
    decreases v
  {
    match v
    case List(items) => items != [] && forall i :: 0 <= i < |items| ==> NoEmpty(items[i])
    case Dict(entries) => entries != [] && forall i :: 0 <= i < |entries| ==> NoEmpty(entries[i].value)
    case _ => true
  }

  /** Somewhere in the tree there is a value that is no container. */
  ghost predicate HasLeaf(v: Value)
    decreases v
  {
    match v
    case List(items) => exists i :: 0 <= i < |items| && HasLeaf(items[i])
    case Dict(entries) => exists i :: 0 <= i < |entries| && HasLeaf(entries[i].value)
    case _ => true
  }

  /** A copy exists exactly if there is something to copy; it holds nothing empty, and equals
      the original exactly if that held nothing empty. */
  lemma {:induction false} PrunedIs(v: Value)
    ensures Pruned(v).Some? <==> HasLeaf(v)
    ensures Pruned(v).Some? ==> NoEmpty(Pruned(v).value)
    ensures Pruned(v) == Some(v) <==> NoEmpty(v)
    decreases v, 1
  {
    match v
    case List(items) =>
      PrunedItemsAre(items);
      if NoEmpty(v) && items != [] { assert NoEmpty(items[0]); }
    case Dict(entries) =>
      PrunedEntriesAre(entries);
      if NoEmpty(v) && entries != [] { assert NoEmpty(entries[0].value); }
    case _ =>
  }

  lemma {:induction false} PrunedItemsAre(items: seq<Value>)
    ensures PrunedItems(items) != [] <==> exists i :: 0 <= i < |items| && HasLeaf(items[i])
    ensures forall i :: 0 <= i < |PrunedItems(items)| ==> NoEmpty(PrunedItems(items)[i])
    ensures |PrunedItems(items)| <= |items|
    ensures PrunedItems(items) == items <==> forall i :: 0 <= i < |items| ==> NoEmpty(items[i])
    decreases items, 0
  {
    hide Pruned, NoEmpty, HasLeaf;
    if items != [] {
      PrunedIs(items[0]);
      PrunedItemsAre(items[1..]);
      SplitFirst(items, HasLeaf);
      SplitFirst(items, (v: Value) => !NoEmpty(v));
      if Pruned(items[0]).Some? {
        assert PrunedItems(items) == [Pruned(items[0]).value] + PrunedItems(items[1..]);
        SameJoined(Pruned(items[0]).value, PrunedItems(items[1..]), items);
      } else {
        assert PrunedItems(items) == PrunedItems(items[1..]);
      }
      hide PrunedItems;
    }
  }

  lemma SameJoined<T>(first: T, rest: seq<T>, s: seq<T>)
    requires s != []
    ensures [first] + rest == s <==> first == s[0] && rest == s[1..]
  {
    assert s == [s[0]] + s[1..];
    if [first] + rest == s { assert ([first] + rest)[1..] == rest; }
  }

  lemma SplitFirst<T>(s: seq<T>, p: T -> bool)
    requires s != []
    ensures (exists i :: 0 <= i < |s| && p(s[i])) <==> p(s[0]) || exists i :: 0 <= i < |s[1..]| && p(s[1..][i])
  {
    if i :| 0 <= i < |s[1..]| && p(s[1..][i]) { assert s[i + 1] == s[1..][i]; }
    if i :| 0 <= i < |s| && p(s[i]) { assert i == 0 || s[1..][i - 1] == s[i]; }
  }

  lemma {:induction false} PrunedEntriesAre(entries: seq<Entry>)
    ensures PrunedEntries(entries) != [] <==> exists i :: 0 <= i < |entries| && HasLeaf(entries[i].value)
    ensures forall i :: 0 <= i < |PrunedEntries(entries)| ==> NoEmpty(PrunedEntries(entries)[i].value)
    ensures |PrunedEntries(entries)| <= |entries|
    ensures PrunedEntries(entries) == entries <==> forall i :: 0 <= i < |entries| ==> NoEmpty(entries[i].value)
    decreases entries, 0
  {
    hide Pruned, NoEmpty, HasLeaf;
    if entries != [] {
      PrunedIs(entries[0].value);
      PrunedEntriesAre(entries[1..]);
      SplitFirst(entries, (e: Entry) => HasLeaf(e.value));
      SplitFirst(entries, (e: Entry) => !NoEmpty(e.value));
      if Pruned(entries[0].value).Some? {
        var first := Entry(entries[0].key, Pruned(entries[0].value).value);
        assert PrunedEntries(entries) == [first] + PrunedEntries(entries[1..]);
        SameJoined(first, PrunedEntries(entries[1..]), entries);
      } else {
        assert PrunedEntries(entries) == PrunedEntries(entries[1..]);
      }
      hide PrunedEntries;
    }
  }

  /** What a key leads to is kept, pruned. */
  lemma {:induction false} PrunedKey(entries: seq<Entry>, k: string)
    requires Sorted(entries)
    ensures GetEntry(PrunedEntries(entries), k)
         == match GetEntry(entries, k) case None => None case Some(x) => Pruned(x)
  {
    hide Pruned;
    if entries != [] {
      TailKeys(entries);
      PrunedKey(entries[1..], k);
      if entries[0].key == k { NoEntry(entries[1..], k); }
      if Pruned(entries[0].value).None? { assert [] + PrunedEntries(entries[1..]) == PrunedEntries(entries[1..]); }
    }
  }

  /** Every path leads to what it led to before, pruned; a value that is no container stays. */
  lemma {:induction false} GetAfterPrune(v: Value, q: seq<string>)
    requires WellFormed(v)
    ensures At(OrEmpty(Pruned(v)), q)
         == if q == [] then Some(OrEmpty(Pruned(v)))
            else match At(v, q) case None => None case Some(x) => Pruned(x)
    decreases |q|
  {
    if q != [] && v.Dict? {
      FormedChild(v, q[0]);
      PrunedKey(v.entries, q[0]);
      var x := GetEntry(v.entries, q[0]);
      if x.Some? {
        GetAfterPrune(x.value, q[1..]);
        NothingBelow(q[1..]);
        if Pruned(x.value).None? && q[1..] != [] { assert At(Dict([]), q[1..]) == None; }
      }
    }
  }

  // ---- The operations --------------------------------------------------------------------

  /** `Get`: the front of the path is cut off key by key. */
  method Get(d: Value, path: string) returns (found: Option<Value>)
    requires d.Dict?
    ensures found == At(d, Keys(path))
  {
    var currentPath, current := path, d;
    while FirstDot(currentPath) < |currentPath|
      invariant current.Dict? && At(current, Keys(currentPath)) == At(d, Keys(path))
      decreases |currentPath|
    {
      var delimiter := FirstDot(currentPath);
      var child := GetEntry(current.entries, currentPath[..delimiter]);
      if child.None? || !child.value.Dict? {
        return None;
      }
      current := child.value;
      currentPath := currentPath[delimiter + 1..];
    }
    found := GetEntry(current.entries, currentPath);
  }

  /** `Equals` is equality of the trees. */
  method Equals(a: Value, b: Value) returns (equal: bool)
    requires WellFormed(a) && WellFormed(b)
    ensures equal <==> a == b
    decreases a
  {
    match (a, b) {
      case (List(x), List(y)) =>
        var i := 0;
        while i < |x| && i < |y|
          invariant i <= |x| && i <= |y| && x[..i] == y[..i]
        {
          var same := Equals(x[i], y[i]);
          if !same {
            return false;
          }
          i := i + 1;
        }
        return i == |x| && i == |y|;
      case (Dict(x), Dict(y)) =>
        var i := 0;
        while i < |x| && i < |y|
          invariant i <= |x| && i <= |y| && x[..i] == y[..i]
        {
          if x[i].key != y[i].key {
            return false;
          }
          GetAtIndex(x, i);
          GetAtIndex(y, i);
          var same := Equals(x[i].value, y[i].value);
          if !same {
            return false;
          }
          i := i + 1;
        }
        return i == |x| && i == |y|;
      case _ =>
        return a == b;
    }
  }

  /** The lookup by an entry's key finds that entry. */
  lemma {:induction false} GetAtIndex(entries: seq<Entry>, i: nat)
    requires Sorted(entries) && i < |entries|
    ensures GetEntry(entries, entries[i].key) == Some(entries[i].value)
  {
    TailKeys(entries);
    if i > 0 {
      assert entries[i] == entries[1..][i - 1];
      GetAtIndex(entries[1..], i - 1);
    }
  }

  method CopyWithoutEmptyChildren(v: Value) returns (copy: Option<Value>)
    requires WellFormed(v)
    ensures copy == Pruned(v)
    decreases v, 1
  {
    match v {
      case List(items) =>
        var kept := CopyItems(items);
        copy := if kept == [] then None else Some(List(kept));
      case Dict(entries) =>
        var kept := CopyEntries(entries);
        copy := if kept == [] then None else Some(Dict(kept));
      case _ =>
        copy := Some(v);
    }
  }

  /** The children that are left are appended. */
  method CopyItems(items: seq<Value>) returns (kept: seq<Value>)
    requires WellFormed(List(items))
    ensures kept == PrunedItems(items)
    decreases items, 0
  {
    hide Pruned;
    kept := [];
    for i := 0 to |items|
      invariant kept + PrunedItems(items[i..]) == PrunedItems(items)
    {
      var child := CopyWithoutEmptyChildren(items[i]);
      assert items[i..][1..] == items[i + 1..];
      if child.Some? {
        kept := kept + [child.value];
      } else {
        assert [] + PrunedItems(items[i + 1..]) == PrunedItems(items[i + 1..]);
      }
    }
    assert kept + [] == kept;
  }

  /** One of the first `i` entries has the key. */
  ghost predicate Before(entries: seq<Entry>, i: nat, key: string)
    requires i <= |entries|
  {
    exists j :: 0 <= j < i && entries[j].key == key
  }

  lemma BeforeNext(entries: seq<Entry>, i: nat, key: string)
    requires Sorted(entries) && i < |entries|
    ensures Before(entries, i, key) ==> Less(key, entries[i].key)
    ensures Before(entries, i, key) || key == entries[i].key ==> Before(entries, i + 1, key)
  {
  }

  /** The next child, if it is left, goes to the end. */
  lemma KeepNext(entries: seq<Entry>, i: nat, kept: seq<Entry>, child: Option<Value>)
    requires Sorted(entries) && i < |entries| && child == Pruned(entries[i].value)
    requires forall e :: e in kept ==> Before(entries, i, e.key)
    ensures var more := if child.Some? then SetEntry(kept, entries[i].key, child.value) else kept;
            && more + PrunedEntries(entries[i + 1..]) == kept + PrunedEntries(entries[i..])
            && forall e :: e in more ==> Before(entries, i + 1, e.key)
  {
    hide Pruned, SetEntry, Less, GetEntry, Before, Sorted;
    assert entries[i..][1..] == entries[i + 1..];
    BeforeNext(entries, i, entries[i].key);
    forall e | e in kept ensures Less(e.key, entries[i].key) && Before(entries, i + 1, e.key) {
      BeforeNext(entries, i, e.key);
    }
    if child.Some? {
      SetEntryAppends(kept, entries[i].key, child.value);
    }
  }

  /** The children that are left are set under their keys, in order. */
  method CopyEntries(entries: seq<Entry>) returns (kept: seq<Entry>)
    requires WellFormed(Dict(entries))
    ensures kept == PrunedEntries(entries)
    decreases entries, 0
  {
    hide Pruned, SetEntry, Before;
    kept := [];
    for i := 0 to |entries|
      invariant kept + PrunedEntries(entries[i..]) == PrunedEntries(entries)
      invariant forall e :: e in kept ==> Before(entries, i, e.key)
    {
      var child := CopyWithoutEmptyChildren(entries[i].value);
      KeepNext(entries, i, kept, child);
      if child.Some? {
        kept := SetEntry(kept, entries[i].key, child.value);
      }
    }
    assert kept + [] == kept;
  }

  /** `MergeDictionary`, over the keys of the other dictionary in order. */
  method MergeInto(into: seq<Entry>, dictionary: seq<Entry>) returns (merged: seq<Entry>)
    requires WellFormed(Dict(dictionary))
    ensures merged == Merge(into, dictionary)
    decreases dictionary
  {
    merged := into;
    for i := 0 to |dictionary|
      invariant Merge(merged, dictionary[i..]) == Merge(into, dictionary)
    {
      var e := dictionary[i];
      assert dictionary[i..][1..] == dictionary[i + 1..];
      var existing := GetEntry(merged, e.key);
      if e.value.Dict? && existing.Some? && existing.value.Dict? {
        var sub := MergeInto(existing.value.entries, e.value.entries);
        merged := SetEntry(merged, e.key, Dict(sub));
      } else {
        merged := SetEntry(merged, e.key, e.value);
      }
    }
  }

  /** A dictionary object. */
  class DictionaryValue {
    var dictionary: seq<Entry>

    ghost predicate Valid()
      reads this
    {
      WellFormed(Dict(dictionary))
    }

    method Set(path: string, value: Value)
      requires Valid() && WellFormed(value)
      modifies this
      ensures Valid() && Dict(dictionary) == Put(Dict(old(dictionary)), Keys(path), value)
    {
      PutFormed(Dict(dictionary), Keys(path), value);
      dictionary := SetBelow(dictionary, path, value);
    }

    /** One turn of the loop of `Set`, and the dictionaries below. */
    static method SetBelow(current: seq<Entry>, path: string, value: Value) returns (updated: seq<Entry>)
      ensures Dict(updated) == Put(Dict(current), Keys(path), value)
      decreases |path|
    {
      var delimiter := FirstDot(path);
      if delimiter == |path| {
        return SetEntry(current, path, value);
      }
      var key := path[..delimiter];
      var child := GetEntry(current, key);
      var below := SetBelow(if child.Some? && child.value.Dict? then child.value.entries else [], path[delimiter + 1..], value);
      PutIgnoresNonDicts(OrEmpty(child), Keys(path[delimiter + 1..]), value);
      updated := SetEntry(current, key, Dict(below));
    }

    /** The dictionary with the last key is found by the front of the path. */
    method Remove(path: string) returns (removed: Option<Value>)
      requires Valid()
      modifies this
      ensures Valid() && Dict(dictionary) == Cut(Dict(old(dictionary)), Keys(path))
      ensures removed == At(Dict(old(dictionary)), Keys(path))
    {
      CutFormed(Dict(dictionary), Keys(path));
      removed := Get(Dict(dictionary), path);
      dictionary := RemoveBelow(dictionary, path);
    }

    static method RemoveBelow(current: seq<Entry>, path: string) returns (updated: seq<Entry>)
      requires WellFormed(Dict(current))
      ensures Dict(updated) == Cut(Dict(current), Keys(path))
      decreases |path|
    {
      var delimiter := FirstDot(path);
      if delimiter == |path| {
        return RemoveEntry(current, path);
      }
      var key := path[..delimiter];
      FormedChild(Dict(current), key);
      var child := GetEntry(current, key);
      if child.None? || !child.value.Dict? {
        if child.Some? { SetSame(current, key); }
        return current;
      }
      var below := RemoveBelow(child.value.entries, path[delimiter + 1..]);
      updated := SetEntry(current, key, Dict(below));
    }

    method MergeDictionary(other: DictionaryValue)
      requires Valid() && other.Valid()
      modifies this
      ensures Valid() && dictionary == Merge(old(dictionary), old(other.dictionary))
    {
      MergeFormed(dictionary, other.dictionary);
      dictionary := MergeInto(dictionary, other.dictionary);
    }
  }

  lemma PutIgnoresNonDicts(v: Value, keys: seq<string>, x: Value)
    requires keys != []
    ensures Put(v, keys, x) == Put(Dict(EntriesOf(v)), keys, x)
  {
  }
}
