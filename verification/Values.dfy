/** The JSON value tree of src/chromium/values.cc. A character stands for one byte. */
module Values {
  import opened NumberConversions
  import opened Wrappers

  type int32 = x: int | -HALF_32 <= x < HALF_32

  datatype Value =
    | Null
    | Bool(b: bool)
    | Int(i: int32)
    | Double(d: real)
    | Str(s: string)
    | List(items: seq<Value>)
    | Dict(entries: seq<Entry>)

  /** A dictionary is a `std::map`: its entries are kept in ascending order of their keys. */
  datatype Entry = Entry(key: string, value: Value)

  /** Byte-wise lexicographic order, the order of `std::string`. */
  predicate Less(a: string, b: string) {
    b != [] && (a == [] || a[0] < b[0] || (a[0] == b[0] && Less(a[1..], b[1..])))
  }

  lemma {:induction false} LessTotal(a: string, b: string)
    ensures Less(a, b) || a == b || Less(b, a)
  {
    if a != [] && b != [] && a[0] == b[0] {
      LessTotal(a[1..], b[1..]);
      assert a == [a[0]] + a[1..] && b == [b[0]] + b[1..];
    }
  }

  lemma {:induction false} LessTransitive(a: string, b: string, c: string)
    requires Less(a, b) && Less(b, c)
    ensures Less(a, c)
  {
    if a != [] && a[0] == b[0] && b[0] == c[0] {
      LessTransitive(a[1..], b[1..], c[1..]);
    }
  }

  lemma {:induction false} LessAsymmetric(a: string, b: string)
    requires Less(a, b)
    ensures a != b && !Less(b, a)
  {
    if a != [] && a[0] == b[0] {
      LessAsymmetric(a[1..], b[1..]);
    }
  }

  ghost predicate Sorted(entries: seq<Entry>) {
    forall i, j :: 0 <= i < j < |entries| ==> Less(entries[i].key, entries[j].key)
  }

  /** `SetWithoutPathExpansion`: insert in order, replacing an existing entry. */
  function SetEntry(entries: seq<Entry>, key: string, value: Value): seq<Entry> {
    if entries == [] then [Entry(key, value)]
    else if entries[0].key == key then [Entry(key, value)] + entries[1..]
    else if Less(key, entries[0].key) then [Entry(key, value)] + entries
    else [entries[0]] + SetEntry(entries[1..], key, value)
  }

  function GetEntry(entries: seq<Entry>, key: string): Option<Value> {
    if entries == [] then None
    else if entries[0].key == key then Some(entries[0].value)
    else GetEntry(entries[1..], key)
  }

  lemma {:induction false} SetEntryKeys(entries: seq<Entry>, key: string, value: Value)
    ensures forall e :: e in SetEntry(entries, key, value) ==> e == Entry(key, value) || e in entries
  {
    if entries != [] && entries[0].key != key && !Less(key, entries[0].key) {
      SetEntryKeys(entries[1..], key, value);
    }
  }

  /** Setting keeps the entries ordered and distinct. */
  lemma {:induction false} SetEntrySorted(entries: seq<Entry>, key: string, value: Value)
    requires Sorted(entries)
    ensures Sorted(SetEntry(entries, key, value))
  {
    if entries == [] || entries[0].key == key {
    } else if Less(key, entries[0].key) {
      forall j | 1 <= j < |entries| ensures Less(key, entries[j].key) {
        LessTransitive(key, entries[0].key, entries[j].key);
      }
    } else {
      LessTotal(key, entries[0].key);
      SetEntrySorted(entries[1..], key, value);
      SetEntryKeys(entries[1..], key, value);
      var rest := SetEntry(entries[1..], key, value);
      forall j | 0 <= j < |rest| ensures Less(entries[0].key, rest[j].key) {
        assert rest[j] in rest;
      }
    }
  }

  /** Setting a key changes what that key, and no other, maps to. */
  lemma {:induction false} SetThenGet(entries: seq<Entry>, key: string, value: Value, other: string)
    ensures GetEntry(SetEntry(entries, key, value), other)
         == if other == key then Some(value) else GetEntry(entries, other)
  {
    if entries != [] && entries[0].key != key && !Less(key, entries[0].key) {
      SetThenGet(entries[1..], key, value, other);
    }
  }

  /** A key above all others goes to the end. */
  lemma {:induction false} SetEntryAppends(entries: seq<Entry>, key: string, value: Value)
    requires forall e :: e in entries ==> Less(e.key, key)
    ensures SetEntry(entries, key, value) == entries + [Entry(key, value)]
  {
    if entries != [] {
      LessAsymmetric(entries[0].key, key);
      SetEntryAppends(entries[1..], key, value);
    }
  }

  /** Every dictionary of the tree is a well-formed map. */
  ghost predicate WellFormed(v: Value)
    decreases v
  {
    match v
    case List(items) => forall i :: 0 <= i < |items| ==> WellFormed(items[i])
    case Dict(entries) => Sorted(entries) && forall i :: 0 <= i < |entries| ==> WellFormed(entries[i].value)
    case _ => true
  }

  function Max(a: nat, b: nat): nat {
    if a > b then a else b
  }

  /** How many values enclose the deepest one, itself included. */
  function Height(v: Value): (h: nat)
    ensures h > 0
    decreases v, 1
  {
    match v
    case List(items) => 1 + ItemsHeight(items)
    case Dict(entries) => 1 + EntriesHeight(entries)
    case _ => 1
  }

  function ItemsHeight(items: seq<Value>): nat
    decreases items, 0
  {
    if items == [] then 0 else Max(Height(items[0]), ItemsHeight(items[1..]))
  }

  function EntriesHeight(entries: seq<Entry>): nat
    decreases entries, 0
  {
    if entries == [] then 0 else Max(Height(entries[0].value), EntriesHeight(entries[1..]))
  }
}
