/** The registry of histograms (src/chromium/metrics/histogram.cc:922-993), the factory that
    threads race through, and the static pointers of the macros (histogram.hh:118-132).

    Histograms and range vectors live at addresses. */
module Registry {
  import opened Histogram
  import opened Wrappers

  type Address = nat

  datatype Key = Key(checksum: bv32)

  datatype Hist = Hist(name: string, ranges: Address)

  /** `histograms` and `table` are the maps `histograms_` and `ranges_`; the first two fields are
      the objects allocated. Before the recorder starts it is not active. */
  datatype Recorder = Recorder(
    active: bool,
    hists: map<Address, Hist>,
    vectors: map<Address, seq<int>>,
    histograms: map<string, Address>,
    table: map<Key, seq<Address>>)

  predicate IsVector(v: seq<int>) {
    AllSamples(v) && 0 < |v| < 0x1_0000_0000
  }

  function Find(r: Recorder, name: string): Option<Address> {
    if r.active && name in r.histograms then Some(r.histograms[name]) else None
  }

  /** The first vector of the list with the same contents. */
  function FirstEqual(r: Recorder, list: seq<Address>, vector: seq<int>): Option<Address> {
    if list == [] then None
    else if list[0] in r.vectors && r.vectors[list[0]] == vector then Some(list[0])
    else FirstEqual(r, list[1..], vector)
  }

  predicate Allocated(r: Recorder, h: Address) {
    h in r.hists && r.hists[h].ranges in r.vectors && IsVector(r.vectors[r.hists[h].ranges])
  }

  function VectorOf(r: Recorder, h: Address): seq<int>
    requires Allocated(r, h)
  {
    r.vectors[r.hists[h].ranges]
  }

  function KeyOf(v: seq<int>): Key
    requires IsVector(v)
  {
    Key(Checksum(v))
  }

  function ListFor(r: Recorder, key: Key): seq<Address> {
    if key in r.table then r.table[key] else []
  }

  function WithVector(r: Recorder, key: Key, own: Address): Recorder {
    r.(table := r.table[key := [own] + ListFor(r, key)])
  }

  /** Share a registered vector with the same contents, or register this one. */
  function ShareRanges(r: Recorder, h: Address): Recorder
    requires Allocated(r, h)
  {
    var own := r.hists[h].ranges;
    var key := KeyOf(VectorOf(r, h));
    match FirstEqual(r, ListFor(r, key), VectorOf(r, h))
    case Some(existing) =>
      r.(hists := r.hists[h := r.hists[h].(ranges := existing)], vectors := r.vectors - {own})
    case None =>
      WithVector(r, key, own)
  }

  function Named(r: Recorder, h: Address): Recorder
    requires h in r.hists
  {
    r.(histograms := r.histograms[r.hists[h].name := h])
  }

  /** Register a histogram, or delete it in favour of the one that has its name. The vector of
      a deleted histogram is not released. */
  function Register(r: Recorder, h: Address): (Recorder, Address)
    requires Allocated(r, h)
  {
    var name := r.hists[h].name;
    if !r.active then (r, h)
    else if name in r.histograms then (r.(hists := r.hists - {h}), r.histograms[name])
    else (ShareRanges(Named(r, h), h), h)
  }

  // ---- What registration keeps -----------------------------------------------------------

  ghost predicate Registered(r: Recorder, h: Address) {
    exists name :: name in r.histograms && r.histograms[name] == h
  }

  /** Every list holds vectors of its checksum, no two of them equal. */
  ghost predicate TableSound(r: Recorder) {
    && (forall c, i :: c in r.table && 0 <= i < |r.table[c]| ==>
          r.table[c][i] in r.vectors && IsVector(r.vectors[r.table[c][i]]) && KeyOf(r.vectors[r.table[c][i]]) == c)
    && (forall c, i, j :: c in r.table && 0 <= i < j < |r.table[c]| ==>
          r.vectors[r.table[c][i]] != r.vectors[r.table[c][j]])
  }

  ghost predicate InTable(r: Recorder, a: Address) {
    exists c, i :: c in r.table && 0 <= i < |r.table[c]| && r.table[c][i] == a
  }

  /** Every registered histogram bears its name and uses a vector of the table. */
  ghost predicate NamesSound(r: Recorder) {
    forall name :: name in r.histograms ==>
      var h := r.histograms[name];
      Allocated(r, h) && r.hists[h].name == name && InTable(r, r.hists[h].ranges)
  }

  ghost predicate Sound(r: Recorder) {
    TableSound(r) && NamesSound(r)
  }

  /** Two registered histograms point to the same vector exactly when their vectors are equal. */
  lemma SharedExactlyWhenEqual(r: Recorder, g: Address, h: Address)
    requires Sound(r) && Registered(r, g) && Registered(r, h)
    ensures Allocated(r, g) && Allocated(r, h)
    ensures r.hists[g].ranges == r.hists[h].ranges <==> VectorOf(r, g) == VectorOf(r, h)
  {
    var m :| m in r.histograms && r.histograms[m] == g;
    var n :| n in r.histograms && r.histograms[n] == h;
    var c, i :| c in r.table && 0 <= i < |r.table[c]| && r.table[c][i] == r.hists[g].ranges;
    var d, j :| d in r.table && 0 <= j < |r.table[d]| && r.table[d][j] == r.hists[h].ranges;
    if VectorOf(r, g) == VectorOf(r, h) {
      assert c == d;
      assert i == j;
    }
  }

  lemma {:induction false} FirstEqualIs(r: Recorder, list: seq<Address>, vector: seq<int>)
    ensures var f := FirstEqual(r, list, vector);
            if f.Some? then f.value in list && f.value in r.vectors && r.vectors[f.value] == vector
            else forall i :: 0 <= i < |list| && list[i] in r.vectors ==> r.vectors[list[i]] != vector
  {
    if list != [] && FirstEqual(r, list[1..], vector).None? {
      FirstEqualIs(r, list[1..], vector);
      forall i | 0 <= i < |list| && list[i] in r.vectors && FirstEqual(r, list, vector).None?
        ensures r.vectors[list[i]] != vector
      {
        if i > 0 { assert list[i] == list[1..][i - 1]; }
      }
    } else if list != [] {
      FirstEqualIs(r, list[1..], vector);
    }
  }

  /** What sharing the vector of `h` must achieve and leave alone. */
  ghost predicate Shares(r: Recorder, r1: Recorder, h: Address) {
    && TableSound(r1)
    && Allocated(r, h) && Allocated(r1, h) && InTable(r1, r1.hists[h].ranges) && r1.hists[h].name == r.hists[h].name
    && VectorOf(r1, h) == VectorOf(r, h)
    && r1.hists.Keys == r.hists.Keys
    && (forall g :: g in r.hists && g != h ==> r1.hists[g] == r.hists[g])
    && (forall g :: Allocated(r, g) ==> Allocated(r1, g) && VectorOf(r1, g) == VectorOf(r, g))
    && (forall a :: InTable(r, a) ==> InTable(r1, a))
    && (forall a :: InTable(r1, a) ==> InTable(r, a) || a == r.hists[h].ranges)
  }

  ghost predicate OwnsItsVector(r: Recorder, h: Address) {
    && Allocated(r, h) && !InTable(r, r.hists[h].ranges)
    && (forall g :: g in r.hists && g != h ==> r.hists[g].ranges != r.hists[h].ranges)
  }

  lemma ShareExisting(r: Recorder, h: Address, existing: Address)
    requires TableSound(r) && OwnsItsVector(r, h)
    requires InTable(r, existing) && existing in r.vectors && r.vectors[existing] == VectorOf(r, h)
    ensures Shares(r, r.(hists := r.hists[h := r.hists[h].(ranges := existing)], vectors := r.vectors - {r.hists[h].ranges}), h)
  {
    hide KeyOf;
    var own := r.hists[h].ranges;
    var r1 := r.(hists := r.hists[h := r.hists[h].(ranges := existing)], vectors := r.vectors - {own});
    forall c, k | c in r.table && 0 <= k < |r.table[c]| ensures r.table[c][k] != own {
      assert InTable(r, r.table[c][k]);
    }
    assert forall a :: InTable(r1, a) <==> InTable(r, a);
  }

  lemma NewInTable(r: Recorder, key: Key, own: Address, a: Address)
    ensures InTable(WithVector(r, key, own), a) <==> InTable(r, a) || a == own
  {
    var r1 := WithVector(r, key, own);
    if InTable(r, a) {
      var c, k :| c in r.table && 0 <= k < |r.table[c]| && r.table[c][k] == a;
      assert if c == key then r1.table[c][k + 1] == a else r1.table[c][k] == a;
    }
    if a == own { assert r1.table[key][0] == own; }
    if InTable(r1, a) && a != own {
      var c, k :| c in r1.table && 0 <= k < |r1.table[c]| && r1.table[c][k] == a;
      assert if c == key then c in r.table && r.table[c][k - 1] == a else r.table[c][k] == a;
    }
  }

  lemma NewTableSound(r: Recorder, h: Address)
    requires TableSound(r) && Allocated(r, h)
    requires FirstEqual(r, ListFor(r, KeyOf(VectorOf(r, h))), VectorOf(r, h)).None?
    ensures TableSound(WithVector(r, KeyOf(VectorOf(r, h)), r.hists[h].ranges))
  {
    var own, key := r.hists[h].ranges, KeyOf(VectorOf(r, h));
    hide KeyOf, IsVector, FirstEqual, WithVector, ListFor;
    var r1 := WithVector(r, key, own);
    forall c, i | c in r1.table && 0 <= i < |r1.table[c]|
      ensures r1.table[c][i] in r1.vectors && IsVector(r1.vectors[r1.table[c][i]]) && KeyOf(r1.vectors[r1.table[c][i]]) == c
    {
      NewListAt(r, key, own, c, i);
    }
    FirstEqualIs(r, ListFor(r, key), VectorOf(r, h));
    forall c, i, j | c in r1.table && 0 <= i < j < |r1.table[c]|
      ensures r1.vectors[r1.table[c][i]] != r1.vectors[r1.table[c][j]]
    {
      NewListAt(r, key, own, c, i);
      NewListAt(r, key, own, c, j);
    }
  }

  /** What stands where in the lists after a vector was put in front of its own. */
  lemma NewListAt(r: Recorder, key: Key, own: Address, c: Key, i: nat)
    requires c in WithVector(r, key, own).table && i < |WithVector(r, key, own).table[c]|
    ensures WithVector(r, key, own).vectors == r.vectors
    ensures var a := WithVector(r, key, own).table[c][i];
            if c != key then c in r.table && i < |r.table[c]| && a == r.table[c][i]
            else if i == 0 then a == own
            else i - 1 < |ListFor(r, key)| && a == ListFor(r, key)[i - 1] && c in r.table && ListFor(r, key) == r.table[c]
  {
  }

  lemma ShareNew(r: Recorder, h: Address)
    requires TableSound(r) && OwnsItsVector(r, h)
    requires FirstEqual(r, ListFor(r, KeyOf(VectorOf(r, h))), VectorOf(r, h)).None?
    ensures Shares(r, WithVector(r, KeyOf(VectorOf(r, h)), r.hists[h].ranges), h)
  {
    var own, key := r.hists[h].ranges, KeyOf(VectorOf(r, h));
    NewTableSound(r, h);
    forall a ensures InTable(WithVector(r, key, own), a) <==> InTable(r, a) || a == own {
      NewInTable(r, key, own, a);
    }
    hide KeyOf, InTable, TableSound;
  }

  /** Sharing keeps the table sound and changes no boundary of any histogram. */
  lemma ShareKeeps(r: Recorder, h: Address)
    requires TableSound(r) && OwnsItsVector(r, h)
    ensures Shares(r, ShareRanges(r, h), h)
  {
    hide KeyOf, Shares, TableSound, OwnsItsVector;
    assert Allocated(r, h) by { Owns(r, h); }
    var list := ListFor(r, KeyOf(VectorOf(r, h)));
    FirstEqualIs(r, list, VectorOf(r, h));
    match FirstEqual(r, list, VectorOf(r, h))
    case Some(existing) =>
      var i :| 0 <= i < |list| && list[i] == existing;
      assert InTable(r, existing);
      ShareExisting(r, h, existing);
    case None => ShareNew(r, h);
  }

  lemma Owns(r: Recorder, h: Address)
    requires OwnsItsVector(r, h)
    ensures Allocated(r, h) && h in r.hists
  {
  }

  /** No entry is replaced; the name leads to the result. */
  ghost predicate NamesGrow(r: Recorder, r1: Recorder, h: Address, result: Address)
    requires h in r.hists
  {
    && r1.active == r.active
    && (r.active ==> r.hists[h].name in r1.histograms && r1.histograms[r.hists[h].name] == result)
    && (forall n :: n in r.histograms ==> n in r1.histograms && r1.histograms[n] == r.histograms[n])
    && (forall n :: n in r1.histograms && n !in r.histograms ==> r1.histograms[n] == h)
  }

  /** Only `h` can disappear or change its pointer, and whatever stays keeps its boundaries. */
  ghost predicate HistsStay(r: Recorder, r1: Recorder, h: Address, result: Address) {
    && r1.hists.Keys == (if result == h then r.hists.Keys else r.hists.Keys - {h})
    && (forall g :: g in r1.hists && g != h ==> r1.hists[g] == r.hists[g])
    && (forall g :: Allocated(r, g) && g in r1.hists ==> Allocated(r1, g) && VectorOf(r1, g) == VectorOf(r, g))
  }

  ghost predicate Registers(r: Recorder, r1: Recorder, h: Address, result: Address)
    requires h in r.hists
  {
    && Sound(r1) && NamesGrow(r, r1, h, result) && HistsStay(r, r1, h, result)
    && (forall a :: InTable(r1, a) ==> InTable(r, a) || (result == h && a == r.hists[h].ranges))
  }

  lemma NameAdded(r: Recorder, h: Address)
    requires TableSound(r) && OwnsItsVector(r, h)
    ensures var r0 := Named(r, h);
            && TableSound(r0) && OwnsItsVector(r0, h)
            && (forall a :: InTable(r0, a) <==> InTable(r, a))
            && (forall g :: Allocated(r, g) ==> Allocated(r0, g) && VectorOf(r0, g) == VectorOf(r, g))
  {
    var r0 := Named(r, h);
    assert forall a :: InTable(r0, a) <==> InTable(r, a);
  }

  lemma RegisterNew(r: Recorder, h: Address)
    requires Sound(r) && OwnsItsVector(r, h) && r.active && r.hists[h].name !in r.histograms
    ensures Registers(r, ShareRanges(Named(r, h), h), h, h)
  {
    hide ShareRanges, TableSound, InTable, OwnsItsVector, NamesSound, Allocated, VectorOf, HistsStay, Shares;
    Owns(r, h);
    var r0 := Named(r, h);
    NameAdded(r, h);
    ShareKeeps(r0, h);
    Owns(r0, h);
    SharesNames(r0, h);
    var r1 := ShareRanges(r0, h);
    SharedMeans(r, r0, r1, h);
    NamesStaySound(r, r1, h);
  }

  lemma SharedMeans(r: Recorder, r0: Recorder, r1: Recorder, h: Address)
    requires Shares(r0, r1, h) && h in r.hists && r0.hists == r.hists
    requires forall g :: Allocated(r, g) ==> Allocated(r0, g) && VectorOf(r0, g) == VectorOf(r, g)
    requires forall a :: InTable(r0, a) <==> InTable(r, a)
    ensures HistsStay(r, r1, h, h) && (forall g :: Allocated(r, g) ==> Allocated(r1, g))
    ensures TableSound(r1) && h in r1.hists && InTable(r1, r1.hists[h].ranges) && r1.hists[h].name == r.hists[h].name
    ensures forall g :: g in r.hists && g != h ==> g in r1.hists && r1.hists[g] == r.hists[g]
    ensures forall a :: InTable(r, a) ==> InTable(r1, a)
    ensures forall a :: InTable(r1, a) ==> InTable(r, a) || a == r.hists[h].ranges
  {
    hide TableSound, InTable, VectorOf, IsVector;
    forall g | Allocated(r, g) ensures Allocated(r1, g) && VectorOf(r1, g) == VectorOf(r, g) {
      assert Allocated(r0, g);
    }
  }

  lemma NamesStaySound(r: Recorder, r1: Recorder, h: Address)
    requires NamesSound(r) && Allocated(r, h) && Allocated(r1, h)
    requires r1.histograms == r.histograms[r.hists[h].name := h]
    requires InTable(r1, r1.hists[h].ranges) && r1.hists[h].name == r.hists[h].name
    requires forall g :: g in r.hists && g != h ==> g in r1.hists && r1.hists[g] == r.hists[g]
    requires forall g :: Allocated(r, g) ==> Allocated(r1, g)
    requires forall a :: InTable(r, a) ==> InTable(r1, a)
    ensures NamesSound(r1)
  {
    hide IsVector, InTable;
  }

  lemma WithoutHist(r: Recorder, h: Address, result: Address)
    requires result != h
    ensures var r1 := r.(hists := r.hists - {h});
            && HistsStay(r, r1, h, result)
            && (forall a :: InTable(r1, a) <==> InTable(r, a))
            && (TableSound(r) ==> TableSound(r1))
  {
    var r1 := r.(hists := r.hists - {h});
    forall a ensures InTable(r1, a) <==> InTable(r, a) {
    }
    hide InTable;
  }

  lemma RegisterDuplicate(r: Recorder, h: Address)
    requires Sound(r) && OwnsItsVector(r, h) && !Registered(r, h) && r.active && r.hists[h].name in r.histograms
    ensures Registers(r, r.(hists := r.hists - {h}), h, r.histograms[r.hists[h].name])
  {
    hide InTable, IsVector, TableSound, HistsStay, OwnsItsVector;
    Owns(r, h);
    forall n | n in r.histograms ensures r.histograms[n] != h {
      assert Registered(r, r.histograms[n]);
    }
    WithoutHist(r, h, r.histograms[r.hists[h].name]);
  }

  lemma RegisterKeeps(r: Recorder, h: Address)
    requires Sound(r) && OwnsItsVector(r, h) && !Registered(r, h)
    ensures var (r1, result) := Register(r, h); Registers(r, r1, h, result)
  {
    if r.active {
      hide ShareRanges, Sound, OwnsItsVector, Registers;
      Owns(r, h);
      if r.hists[h].name in r.histograms { RegisterDuplicate(r, h); } else { RegisterNew(r, h); }
    }
  }

  /** An allocated vector that neither the table nor any histogram leads to. */
  ghost predicate Unreachable(r: Recorder, v: Address) {
    v in r.vectors && !InTable(r, v) && forall g :: g in r.hists ==> r.hists[g].ranges != v
  }

  /** Registering a histogram loses its range vector exactly when it is a duplicate: the
      histogram is deleted, and nothing deletes the vector. */
  lemma LosesVectorExactlyWhen(r: Recorder, h: Address)
    requires Sound(r) && OwnsItsVector(r, h) && !Registered(r, h)
    ensures Unreachable(Register(r, h).0, r.hists[h].ranges) <==> r.active && r.hists[h].name in r.histograms
  {
    var own := r.hists[h].ranges;
    var r1 := Register(r, h).0;
    if r.active && r.hists[h].name in r.histograms {
      assert forall a :: InTable(r1, a) <==> InTable(r, a);
    } else if !r.active {
      assert r1.hists[h].ranges == own;
    } else {
      NameAdded(r, h);
      ShareKeeps(Named(r, h), h);
      KeepsOrFrees(Named(r, h), h);
    }
  }

  lemma KeepsOrFrees(r: Recorder, h: Address)
    requires Allocated(r, h)
    ensures var own := r.hists[h].ranges; var r1 := ShareRanges(r, h);
            own !in r1.vectors || (h in r1.hists && r1.hists[h].ranges == own)
  {
    hide KeyOf, FirstEqual;
  }

  lemma SharesNames(r: Recorder, h: Address)
    requires Allocated(r, h)
    ensures ShareRanges(r, h).histograms == r.histograms && ShareRanges(r, h).active == r.active
  {
  }

  // ---- Threads racing for histograms -----------------------------------------------------

  type Tid = nat

  /** How far a thread has come in the macro and the factory. */
  datatype Progress =
    | Idle
    | Loading(name: string, vector: seq<int>)
    | Finding(name: string, vector: seq<int>)
    | Building(name: string, vector: seq<int>)
    | Registering(hist: Address)
    | Storing(name: string, hist: Address)
    | Using(name: string, hist: Address)

  /** `slots` are the static pointers, by the name they are for; `built` remembers the
      boundaries each histogram was built with. */
  datatype System = System(
    recorder: Recorder,
    slots: map<string, Address>,
    threads: map<Tid, Progress>,
    built: map<Address, seq<int>>)

  datatype Event =
    | Start(t: Tid, name: string, vector: seq<int>)
    | LoadPointer(t: Tid)
    | FindHistogram(t: Tid)
    | Build(t: Tid, hist: Address, ranges: Address)
    | RegisterOrDelete(t: Tid)
    | StorePointer(t: Tid)
    | Leave(t: Tid)

  function At(s: System, t: Tid): Progress {
    if t in s.threads then s.threads[t] else Idle
  }

  /** New objects go to addresses that are not in use. */
  predicate Enabled(s: System, e: Event) {
    match e
    case Start(t, _, vector) => At(s, t).Idle? && IsVector(vector)
    case LoadPointer(t) => At(s, t).Loading?
    case FindHistogram(t) => At(s, t).Finding?
    case Build(t, h, a) => At(s, t).Building? && h !in s.recorder.hists && a !in s.recorder.vectors
    case RegisterOrDelete(t) => At(s, t).Registering? && Allocated(s.recorder, At(s, t).hist)
    case StorePointer(t) => At(s, t).Storing?
    case Leave(t) => At(s, t).Using?
  }

  function Move(s: System, t: Tid, p: Progress): System {
    s.(threads := s.threads[t := p])
  }

  function Step(s: System, e: Event): System
    requires Enabled(s, e)
  {
    var r := s.recorder;
    match e
    case Start(t, name, vector) => Move(s, t, Loading(name, vector))
    case LoadPointer(t) =>
      var p := At(s, t);
      if p.name in s.slots then Move(s, t, Using(p.name, s.slots[p.name])) else Move(s, t, Finding(p.name, p.vector))
    case FindHistogram(t) =>
      var p := At(s, t);
      (match Find(r, p.name)
       case Some(h) => Move(s, t, Storing(p.name, h))
       case None => Move(s, t, Building(p.name, p.vector)))
    case Build(t, h, a) =>
      var p := At(s, t);
      Move(s, t, Registering(h)).(
        recorder := r.(hists := r.hists[h := Hist(p.name, a)], vectors := r.vectors[a := p.vector]),
        built := s.built[h := p.vector])
    case RegisterOrDelete(t) =>
      var h := At(s, t).hist;
      var result := Register(r, h);
      Move(s, t, Storing(r.hists[h].name, result.1)).(recorder := result.0)
    case StorePointer(t) =>
      var p := At(s, t);
      Move(s, t, Using(p.name, p.hist)).(slots := s.slots[p.name := p.hist])
    case Leave(t) => Move(s, t, Idle)
  }

  ghost predicate IsRun(s: System, es: seq<Event>)
    decreases |es|
  {
    es == [] || (Enabled(s, es[0]) && IsRun(Step(s, es[0]), es[1..]))
  }

  ghost function After(s: System, es: seq<Event>): System
    requires IsRun(s, es)
    decreases |es|
  {
    if es == [] then s else After(Step(s, es[0]), es[1..])
  }

  /** Nothing is built yet; the recorder may or may not be active, and stays as it is. */
  ghost predicate Initial(s: System) {
    && s.recorder == Recorder(s.recorder.active, map[], map[], map[], map[])
    && s.slots == map[] && s.threads == map[] && s.built == map[]
  }

  // ---- What every step of every thread keeps ---------------------------------------------

  /** A histogram on its way to registration belongs to one thread and owns its vector. */
  ghost predicate TentativesPrivate(s: System) {
    && (forall t :: At(s, t).Registering? ==>
          OwnsItsVector(s.recorder, At(s, t).hist) && !Registered(s.recorder, At(s, t).hist))
    && (forall t, u :: At(s, t).Registering? && At(s, u).Registering? && At(s, t).hist == At(s, u).hist ==> t == u)
  }

  /** Whoever has a histogram for a name has the registered one, static pointers included. */
  ghost predicate Agreed(s: System) {
    && s.recorder.active
    && (forall t :: At(s, t).Storing? || At(s, t).Using? ==>
          At(s, t).name in s.recorder.histograms && s.recorder.histograms[At(s, t).name] == At(s, t).hist)
    && (forall n :: n in s.slots ==> n in s.recorder.histograms && s.recorder.histograms[n] == s.slots[n])
  }

  /** The boundaries of every histogram are those it was built with, whatever it shares. */
  ghost predicate BoundariesKept(s: System) {
    forall h :: h in s.recorder.hists ==>
      h in s.built && Allocated(s.recorder, h) && VectorOf(s.recorder, h) == s.built[h]
  }

  ghost predicate VectorsWell(s: System) {
    forall t :: At(s, t).Loading? || At(s, t).Finding? || At(s, t).Building? ==> IsVector(At(s, t).vector)
  }

  ghost predicate Inv(s: System) {
    Sound(s.recorder) && TentativesPrivate(s) && Agreed(s) && BoundariesKept(s) && VectorsWell(s)
  }

  lemma OthersStay(s: System, e: Event)
    requires Enabled(s, e)
    ensures forall t :: t != e.t ==> At(Step(s, e), t) == At(s, t)
  {
  }

  /** The name leads to the histogram. */
  predicate Leads(r: Recorder, name: string, h: Address) {
    name in r.histograms && r.histograms[name] == h
  }

  /** A thread moves on without touching the recorder. */
  lemma MoveKeeps(s: System, t: Tid, p: Progress)
    requires Inv(s) && !p.Registering?
    requires p.Loading? || p.Finding? || p.Building? ==> IsVector(p.vector)
    requires p.Storing? || p.Using? ==> Leads(s.recorder, p.name, p.hist)
    ensures Inv(Move(s, t, p))
  {
    hide Sound, OwnsItsVector, Registered, IsVector;
    var s1 := Move(s, t, p);
    assert At(s1, t) == p && forall u :: u != t ==> At(s1, u) == At(s, u);
    assert BoundariesKept(s1) by { SameBoundaries(s, s1); }
    hide BoundariesKept, At;
  }

  lemma SlotKeeps(s: System, name: string, h: Address)
    requires Inv(s) && Leads(s.recorder, name, h)
    ensures Inv(s.(slots := s.slots[name := h]))
  {
    hide Sound, OwnsItsVector, Registered, IsVector;
    var s1 := s.(slots := s.slots[name := h]);
    assert forall u :: At(s1, u) == At(s, u);
    assert BoundariesKept(s1) by { SameBoundaries(s, s1); }
    hide BoundariesKept, At;
  }

  lemma QuietStep(s: System, e: Event)
    requires Enabled(s, e) && Inv(s) && !e.Build? && !e.RegisterOrDelete?
    ensures Inv(Step(s, e))
  {
    var p := At(s, e.t);
    assert e.LoadPointer? || e.FindHistogram? ==> IsVector(p.vector);
    assert e.StorePointer? ==> Leads(s.recorder, p.name, p.hist);
    assert e.LoadPointer? && p.name in s.slots ==> Leads(s.recorder, p.name, s.slots[p.name]);
    hide Inv, Sound, IsVector;
    match e
    case Start(t, name, vector) => MoveKeeps(s, t, Loading(name, vector));
    case LoadPointer(t) =>
      MoveKeeps(s, t, if p.name in s.slots then Using(p.name, s.slots[p.name]) else Finding(p.name, p.vector));
    case FindHistogram(t) =>
      MoveKeeps(s, t, match Find(s.recorder, p.name)
                      case Some(h) => Storing(p.name, h)
                      case None => Building(p.name, p.vector));
    case StorePointer(t) =>
      MoveKeeps(s, t, Using(p.name, p.hist));
      SlotKeeps(Move(s, t, Using(p.name, p.hist)), p.name, p.hist);
    case Leave(t) => MoveKeeps(s, t, Idle);
  }

  lemma BuildStep(s: System, e: Event)
    requires Enabled(s, e) && Inv(s) && e.Build?
    ensures Inv(Step(s, e))
  {
    hide Sound, OwnsItsVector, Registered, Allocated, VectorOf, IsVector, BoundariesKept;
    OthersStay(s, e);
    BuildBoundaries(s, e);
    assert forall g :: g in s.recorder.hists ==> Allocated(s.recorder, g) by { KeptAllocated(s); }
    NewHist(s.recorder, e.hist, At(s, e.t).name, e.ranges, At(s, e.t).vector);
    forall t | At(Step(s, e), t).Registering? && t != e.t
      ensures OwnsItsVector(Step(s, e).recorder, At(s, t).hist) && !Registered(Step(s, e).recorder, At(s, t).hist)
      ensures At(s, t).hist != e.hist
    {
      StaysPrivate(s.recorder, e.hist, At(s, e.t).name, e.ranges, At(s, e.t).vector, At(s, t).hist);
      Owns(s.recorder, At(s, t).hist);
    }
  }

  lemma KeptAllocated(s: System)
    requires BoundariesKept(s)
    ensures forall g :: g in s.recorder.hists ==> Allocated(s.recorder, g)
  {
  }

  lemma BuildBoundaries(s: System, e: Event)
    requires Enabled(s, e) && BoundariesKept(s) && VectorsWell(s) && e.Build?
    ensures BoundariesKept(Step(s, e))
  {
    hide IsVector;
    var s1 := Step(s, e);
    forall g | g in s1.recorder.hists ensures Allocated(s1.recorder, g) && VectorOf(s1.recorder, g) == s1.built[g] {
      if g != e.hist { assert Allocated(s.recorder, g); }
    }
  }

  function WithHist(r: Recorder, h: Address, name: string, a: Address, vector: seq<int>): Recorder {
    r.(hists := r.hists[h := Hist(name, a)], vectors := r.vectors[a := vector])
  }

  /** A newly built histogram is private, and the registry does not notice it. */
  lemma NewHist(r: Recorder, h: Address, name: string, a: Address, vector: seq<int>)
    requires Sound(r) && h !in r.hists && a !in r.vectors && IsVector(vector)
    requires forall g :: g in r.hists ==> Allocated(r, g)
    ensures var r1 := WithHist(r, h, name, a, vector); Sound(r1) && OwnsItsVector(r1, h) && !Registered(r1, h)
  {
    hide IsVector, KeyOf;
    var r1 := WithHist(r, h, name, a, vector);
    assert forall b :: InTable(r1, b) <==> InTable(r, b);
    assert !InTable(r, a);
    forall n | n in r.histograms ensures r.histograms[n] in r.hists {
    }
  }

  lemma StaysPrivate(r: Recorder, h: Address, name: string, a: Address, vector: seq<int>, g: Address)
    requires h !in r.hists && a !in r.vectors && OwnsItsVector(r, g) && !Registered(r, g)
    ensures var r1 := WithHist(r, h, name, a, vector); OwnsItsVector(r1, g) && !Registered(r1, g)
  {
    var r1 := WithHist(r, h, name, a, vector);
    assert forall b :: InTable(r1, b) <==> InTable(r, b);
  }

  lemma RegisterStep(s: System, e: Event)
    requires Enabled(s, e) && Inv(s) && e.RegisterOrDelete?
    ensures Inv(Step(s, e))
  {
    hide Register, Sound, OwnsItsVector, Registered, Allocated, VectorOf, IsVector, InTable, HistsStay, BoundariesKept;
    OthersStay(s, e);
    var h := At(s, e.t).hist;
    var (r1, result) := Register(s.recorder, h);
    Owns(s.recorder, h);
    RegisterKeeps(s.recorder, h);
    forall t | At(Step(s, e), t).Registering?
      ensures OwnsItsVector(r1, At(s, t).hist) && !Registered(r1, At(s, t).hist)
    {
      OthersPrivate(s.recorder, r1, h, result, At(s, t).hist);
    }
    RegisterBoundaries(s, r1, h, result);
    assert BoundariesKept(Step(s, e)) by { SameBoundaries(s.(recorder := r1), Step(s, e)); }
  }

  lemma SameBoundaries(s: System, s1: System)
    requires BoundariesKept(s) && s1.recorder == s.recorder && s1.built == s.built
    ensures BoundariesKept(s1)
  {
  }

  lemma RegisterBoundaries(s: System, r1: Recorder, h: Address, result: Address)
    requires BoundariesKept(s) && HistsStay(s.recorder, r1, h, result)
    ensures BoundariesKept(s.(recorder := r1))
  {
    hide Allocated, VectorOf;
  }

  lemma OthersPrivate(r: Recorder, r1: Recorder, h: Address, result: Address, g: Address)
    requires r.active && OwnsItsVector(r, h) && OwnsItsVector(r, g) && !Registered(r, g) && g != h
    requires Registers(r, r1, h, result)
    ensures OwnsItsVector(r1, g) && !Registered(r1, g)
  {
    hide IsVector, InTable, TableSound;
    if result == h {
      assert r1.histograms[r.hists[h].name] == h;
      assert InTable(r1, r1.hists[h].ranges);
    }
  }

  lemma StepKeepsInv(s: System, e: Event)
    requires Enabled(s, e) && Inv(s)
    ensures Inv(Step(s, e))
  {
    if e.Build? { BuildStep(s, e); } else if e.RegisterOrDelete? { RegisterStep(s, e); } else { QuietStep(s, e); }
  }

  lemma {:induction false} RunKeepsInv(s: System, es: seq<Event>)
    requires Inv(s) && IsRun(s, es)
    ensures Inv(After(s, es))
    decreases |es|
  {
    hide Step, Enabled, Inv;
    if es != [] {
      StepKeepsInv(s, es[0]);
      RunKeepsInv(Step(s, es[0]), es[1..]);
    }
  }

  lemma InitialInv(s: System)
    requires Initial(s) && s.recorder.active
    ensures Inv(s)
  {
  }

  // ---- Over every run --------------------------------------------------------------------

  /** Two threads use histograms. */
  predicate BothUse(s: System, t: Tid, u: Tid) {
    At(s, t).Using? && At(s, u).Using?
  }

  /** All threads that have a histogram for a name have the same one. */
  lemma OneHistogramPerName(s: System, es: seq<Event>, t: Tid, u: Tid)
    requires Initial(s) && s.recorder.active && IsRun(s, es)
    requires BothUse(After(s, es), t, u) && At(After(s, es), t).name == At(After(s, es), u).name
    ensures At(After(s, es), t).hist == At(After(s, es), u).hist
  {
    InitialInv(s);
    RunKeepsInv(s, es);
    hide IsRun, After;
  }

  /** Two histograms share their vector exactly when their boundaries are equal, and each has the
      boundaries it was built with. */
  ghost predicate SharesExactly(s: System, g: Address, h: Address) {
    var r := s.recorder;
    && Allocated(r, g) && Allocated(r, h) && g in s.built && h in s.built
    && VectorOf(r, g) == s.built[g] && VectorOf(r, h) == s.built[h]
    && (r.hists[g].ranges == r.hists[h].ranges <==> s.built[g] == s.built[h])
  }

  lemma SharingIsInvisible(s: System, es: seq<Event>, t: Tid, u: Tid)
    requires Initial(s) && s.recorder.active && IsRun(s, es) && BothUse(After(s, es), t, u)
    ensures SharesExactly(After(s, es), At(After(s, es), t).hist, At(After(s, es), u).hist)
  {
    InitialInv(s);
    RunKeepsInv(s, es);
    var s1 := After(s, es);
    hide IsRun, After;
    var r := s1.recorder;
    assert Registered(r, At(s1, t).hist) && Registered(r, At(s1, u).hist);
    SharedExactlyWhenEqual(r, At(s1, t).hist, At(s1, u).hist);
  }

  // ---- Without an active recorder --------------------------------------------------------

  ghost predicate Unanimous(s: System) {
    forall es, t, u :: IsRun(s, es) && BothUse(After(s, es), t, u) && At(After(s, es), t).name == At(After(s, es), u).name ==>
      At(After(s, es), t).hist == At(After(s, es), u).hist
  }

  ghost predicate AlwaysShares(s: System) {
    forall es, t, u :: IsRun(s, es) && BothUse(After(s, es), t, u) ==>
      SharesExactly(After(s, es), At(After(s, es), t).hist, At(After(s, es), u).hist)
  }

  lemma {:induction false} OneMore(s: System, es: seq<Event>, e: Event)
    requires IsRun(s, es) && Enabled(After(s, es), e)
    ensures IsRun(s, es + [e]) && After(s, es + [e]) == Step(After(s, es), e)
    decreases |es|
  {
    hide Step, Enabled;
    if es == [] {
      assert [e][1..] == [] && es + [e] == [e];
      assert IsRun(Step(s, e), []);
    } else {
      OneMore(Step(s, es[0]), es[1..], e);
      assert (es + [e])[1..] == es[1..] + [e];
    }
  }

  /** A thread has built its own histogram and keeps it. */
  function Prepared(s: System, t: Tid, name: string, vector: seq<int>, h: Address): System {
    s.(recorder := s.recorder.(hists := s.recorder.hists[h := Hist(name, h)], vectors := s.recorder.vectors[h := vector]),
       threads := s.threads[t := Storing(name, h)],
       built := s.built[h := vector])
  }

  lemma PreparingRuns(s: System, es: seq<Event>, t: Tid, name: string, vector: seq<int>, h: Address) returns (more: seq<Event>)
    requires IsRun(s, es)
    requires var s1 := After(s, es);
             && !s1.recorder.active && At(s1, t).Idle? && name !in s1.slots && IsVector(vector)
             && h !in s1.recorder.hists && h !in s1.recorder.vectors
    ensures IsRun(s, more) && After(s, more) == Prepared(After(s, es), t, name, vector, h)
  {
    hide IsRun, After, IsVector, ShareRanges, Named, KeyOf;
    var s1 := After(s, es);
    OneMore(s, es, Start(t, name, vector));
    more := es + [Start(t, name, vector)];
    OneMore(s, more, LoadPointer(t));
    more := more + [LoadPointer(t)];
    OneMore(s, more, FindHistogram(t));
    more := more + [FindHistogram(t)];
    assert After(s, more) == Move(s1, t, Building(name, vector));
    OneMore(s, more, Build(t, h, h));
    more := more + [Build(t, h, h)];
    assert Allocated(After(s, more).recorder, h);
    OneMore(s, more, RegisterOrDelete(t));
    more := more + [RegisterOrDelete(t)];
    assert After(s, more).threads == s1.threads[t := Storing(name, h)];
  }

  /** Two threads race for one name, and each keeps a histogram and a vector of its own. */
  lemma EachKeepsItsOwn(s: System) returns (es: seq<Event>)
    requires Initial(s) && !s.recorder.active
    ensures IsRun(s, es)
    ensures var s1 := After(s, es);
            && At(s1, 0) == Using("name", 0) && At(s1, 1) == Using("name", 1)
            && s1.recorder.hists == map[0 := Hist("name", 0), 1 := Hist("name", 1)]
            && s1.built == map[0 := [0], 1 := [0]]
  {
    assert IsRun(s, []) && After(s, []) == s;
    assert IsVector([0]);
    hide IsRun, After, IsVector;
    es := PreparingRuns(s, [], 0, "name", [0], 0);
    es := PreparingRuns(s, es, 1, "name", [0], 1);
    OneMore(s, es, StorePointer(0));
    es := es + [StorePointer(0)];
    OneMore(s, es, StorePointer(1));
    es := es + [StorePointer(1)];
  }

  /** Racing threads always agree on one histogram for a name exactly when the recorder is
      active. */
  lemma OneHistogramExactlyWhen(s: System)
    requires Initial(s)
    ensures Unanimous(s) <==> s.recorder.active
  {
    if s.recorder.active {
      forall es, t, u | IsRun(s, es) && BothUse(After(s, es), t, u) && At(After(s, es), t).name == At(After(s, es), u).name
        ensures At(After(s, es), t).hist == At(After(s, es), u).hist
      {
        OneHistogramPerName(s, es, t, u);
      }
    } else {
      var es := EachKeepsItsOwn(s);
      hide IsRun, After;
      assert BothUse(After(s, es), 0, 1);
    }
  }

  /** And exactly then do equal vectors always get shared. */
  lemma SharingExactlyWhen(s: System)
    requires Initial(s)
    ensures AlwaysShares(s) <==> s.recorder.active
  {
    if s.recorder.active {
      forall es, t, u | IsRun(s, es) && BothUse(After(s, es), t, u)
        ensures SharesExactly(After(s, es), At(After(s, es), t).hist, At(After(s, es), u).hist)
      {
        SharingIsInvisible(s, es, t, u);
      }
    } else {
      var es := EachKeepsItsOwn(s);
      hide IsRun, After;
      var s1 := After(s, es);
      assert BothUse(s1, 0, 1) && s1.recorder.hists[0].ranges != s1.recorder.hists[1].ranges;
      assert !SharesExactly(s1, 0, 1);
    }
  }

  // ---- The recorder object ---------------------------------------------------------------

  class StatisticsRecorder {
    var active: bool
    var hists: map<Address, Hist>
    var vectors: map<Address, seq<int>>
    var histograms: map<string, Address>
    var table: map<Key, seq<Address>>

    function State(): Recorder
      reads this
    {
      Recorder(active, hists, vectors, histograms, table)
    }

    constructor ()
      ensures State() == Recorder(true, map[], map[], map[], map[])
    {
      active, hists, vectors, histograms, table := true, map[], map[], map[], map[];
    }

    method FindHistogram(name: string) returns (found: Option<Address>)
      ensures found == Find(State(), name)
    {
      if !active {
        return None;
      }
      if name !in histograms {
        return None;
      }
      found := Some(histograms[name]);
    }

    method RegisterOrDeleteDuplicateRanges(h: Address)
      requires Allocated(State(), h)
      modifies `hists, `vectors, `table
      ensures State() == ShareRanges(old(State()), h)
    {
      hide KeyOf, IsVector;
      ghost var r := State();
      var own := hists[h].ranges;
      var vector := vectors[own];
      var key := KeyOf(vector);
      if key !in table {
        table := table[key := [own]];
        assert [own] + [] == [own];
        return;
      }
      var list := table[key];
      assert list[0..] == list;
      for i := 0 to |list|
        invariant State() == r && FirstEqual(r, list[i..], vector) == FirstEqual(r, list, vector)
      {
        if list[i] in vectors && vectors[list[i]] == vector {
          hists := hists[h := hists[h].(ranges := list[i])];
          vectors := vectors - {own};
          return;
        }
        assert list[i..][1..] == list[i + 1..];
      }
      table := table[key := [own] + list];
    }

    method RegisterOrDeleteDuplicate(h: Address) returns (result: Address)
      requires Allocated(State(), h)
      modifies this
      ensures (State(), result) == Register(old(State()), h)
    {
      if !active {
        return h;
      }
      var name := hists[h].name;
      if name !in histograms {
        histograms := histograms[name := h];
        RegisterOrDeleteDuplicateRanges(h);
        result := h;
      } else {
        hists := hists - {h};
        result := histograms[name];
      }
    }
  }
}
