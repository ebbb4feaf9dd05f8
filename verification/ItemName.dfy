/** What the worker makes of an item name (src/worker.cc, src/vta_bar.cc), over the file-name
    and query scanners of src/googleurl/url_parse.cc. */
module ItemName {
  import opened UrlParse
  import opened Wrappers

  // ---- File names ------------------------------------------------------------------------

  /** What follows the last slash, up to the last semicolon behind the first character. */
  function FileName(s: string, path: Component): (c: Component)
    requires Within(path, 0, |s|)
    ensures Within(c, 0, |s|)
  {
    if !path.IsNonempty() then NONE
    else
      var semicolon := Prev(s, path.begin + 1, path.End(), {';'});
      var fileEnd := if semicolon > path.begin then semicolon else path.End();
      MakeRange(Prev(s, path.begin, fileEnd, SLASHES) + 1, fileEnd)
  }

  method ExtractFileName(s: string, path: Component) returns (fileName: Component)
    requires Within(path, 0, |s|)
    ensures fileName == FileName(s, path)
  {
    if !path.IsNonempty() {
      return NONE;
    }
    var fileEnd := ParametersBegin(s, path.begin, path.End());
    var slash := LastSlash(s, path.begin, fileEnd);
    fileName := MakeRange(slash + 1, fileEnd);
  }

  /** The first backward loop: a semicolon in front is part of the name. */
  method ParametersBegin(s: string, begin: int, end: int) returns (fileEnd: int)
    requires 0 <= begin < end <= |s|
    ensures var semicolon := Prev(s, begin + 1, end, {';'}); fileEnd == if semicolon > begin then semicolon else end
  {
    hide Prev;
    var i := end - 1;
    while i > begin
      invariant begin <= i < end && Prev(s, begin + 1, i + 1, {';'}) == Prev(s, begin + 1, end, {';'})
    {
      PrevStep(s, begin + 1, i + 1, {';'});
      if s[i] == ';' {
        return i;
      }
      i := i - 1;
    }
    PrevStep(s, begin + 1, begin + 1, {';'});
    return end;
  }

  /** The second. */
  method LastSlash(s: string, begin: int, end: int) returns (i: int)
    requires 0 <= begin <= end <= |s|
    ensures i == Prev(s, begin, end, SLASHES)
  {
    hide Prev;
    i := end - 1;
    while i >= begin
      invariant begin - 1 <= i < end && Prev(s, begin, i + 1, SLASHES) == Prev(s, begin, end, SLASHES)
    {
      PrevStep(s, begin, i + 1, SLASHES);
      if s[i] == '/' || s[i] == '\\' {
        return;
      }
      i := i - 1;
    }
    PrevStep(s, begin, begin, SLASHES);
  }

  /** One step of a backward search. */
  lemma PrevStep(s: string, lo: int, hi: int, cs: set<char>)
    requires 0 <= lo <= hi <= |s|
    ensures Prev(s, lo, hi, cs)
         == if hi == lo then lo - 1 else if s[hi - 1] in cs then hi - 1 else Prev(s, lo, hi - 1, cs)
  {
  }

  // ---- The decomposition -----------------------------------------------------------------

  const PREFIX := "null://localhost/"

  datatype Item = Item(symbol: string, query: Option<string>, ref: Option<string>)

  function Optional(s: string, c: Component): Option<string>
    requires Within(c, 0, |s|)
  {
    if c.IsValid() then Some(Text(s, c)) else None
  }

  ghost function Decomposed(itemName: string): Item {
    var url := PREFIX + itemName;
    var p := StandardURL(url);
    assert AllWithin(p, 0, |url|) by { var slashes := Lossless(url); }
    assert p.path in Components(p) && p.query in Components(p) && p.ref in Components(p);
    Item(Text(url, FileName(url, p.path)), Optional(url, p.query), Optional(url, p.ref))
  }

  lemma PrefixShape()
    ensures |PREFIX| == 17 && PREFIX[0] == 'n' && PREFIX[4] == ':' && PREFIX[16] == '/'
    ensures forall k :: 0 <= k < 4 ==> PREFIX[k] != ':'
    ensures PREFIX[5] == '/' && PREFIX[6] == '/' && forall k :: 7 <= k < 16 ==> PREFIX[k] !in AUTHORITY_ENDS
  {
    assert PREFIX[7..16] == "localhost";
    forall k | 7 <= k < 16 ensures PREFIX[k] !in AUTHORITY_ENDS {
      assert PREFIX[k] == "localhost"[k - 7];
    }
  }

  lemma NextIs(s: string, lo: int, hi: int, cs: set<char>, i: int)
    requires 0 <= lo <= i <= hi <= |s| && (i < hi ==> s[i] in cs) && forall k :: lo <= k < i ==> s[k] !in cs
    ensures Next(s, lo, hi, cs) == i
  {
  }

  lemma PrevIs(s: string, lo: int, hi: int, cs: set<char>, i: int)
    requires 0 <= lo <= hi <= |s| && lo - 1 <= i < hi && (i >= lo ==> s[i] in cs) && forall k :: i < k < hi ==> s[k] !in cs
    ensures Prev(s, lo, hi, cs) == i
  {
  }

  lemma TrimEndIs(s: string, lo: int, hi: int, i: int)
    requires 0 <= lo <= i <= hi <= |s| && (lo < i ==> !ShouldTrim(s[i - 1])) && forall k :: i <= k < hi ==> ShouldTrim(s[k])
    ensures TrimEnd(s, lo, hi) == i
  {
  }

  lemma UrlText(itemName: string)
    ensures var url := PREFIX + itemName;
            && (forall k :: 0 <= k < 17 ==> url[k] == PREFIX[k])
            && (forall k :: 0 <= k < |itemName| ==> url[17 + k] == itemName[k])
  {
    PrefixShape();
  }

  lemma UrlEnd(itemName: string)
    ensures var url := PREFIX + itemName; TrimEnd(url, 0, |url|) == 17 + TrimEnd(itemName, 0, |itemName|)
  {
    PrefixShape();
    var url := PREFIX + itemName;
    var n := TrimEnd(itemName, 0, |itemName|);
    forall k | 17 + n <= k < |url| ensures ShouldTrim(url[k]) {
      assert url[k] == itemName[k - 17];
    }
    assert !ShouldTrim(url[17 + n - 1]);
    TrimEndIs(url, 0, |url|, 17 + n);
  }

  /** The prefix parses as scheme and authority, so the path always starts at its last slash. */
  lemma UrlShape(itemName: string)
    ensures var url := PREFIX + itemName; var hi := 17 + TrimEnd(itemName, 0, |itemName|);
            && TrimBegin(url, 0, |url|) == 0 && TrimEnd(url, 0, |url|) == hi
            && AfterScheme(url, 0, hi) == 5 && SlashesEnd(url, 5, hi) == 7
            && Next(url, 7, hi, AUTHORITY_ENDS) == 16
  {
    hide Next, TrimEnd;
    UrlEnd(itemName);
    PrefixShape();
    UrlText(itemName);
    var url := PREFIX + itemName;
    var hi := 17 + TrimEnd(itemName, 0, |itemName|);
    NextIs(url, 0, hi, {':'}, 4);
    NextIs(url, 7, hi, AUTHORITY_ENDS, 16);
    assert PREFIX[7] == 'l';
    assert SlashesEnd(url, 6, hi) == SlashesEnd(url, 7, hi) == 7;
  }

  /** A search in the URL from the item name on is the search in the item name. */
  lemma SearchShifts(itemName: string, hi: int, cs: set<char>)
    requires 0 <= hi <= |itemName| && '/' !in cs
    ensures Next(PREFIX + itemName, 16, 17 + hi, cs) == 17 + Next(itemName, 0, hi, cs)
  {
    PrefixShape();
    UrlText(itemName);
    var url := PREFIX + itemName;
    var n := Next(itemName, 0, hi, cs);
    assert n < hi ==> url[17 + n] == itemName[n];
    assert url[16] == '/';
    hide *;
    forall k | 16 <= k < 17 + n ensures url[k] !in cs {
      if k > 16 { assert url[17 + (k - 17)] == itemName[k - 17]; }
    }
    NextIs(url, 16, 17 + hi, cs, 17 + n);
  }

  lemma BackSearchShifts(itemName: string, hi: int, cs: set<char>)
    requires 0 <= hi <= |itemName|
    ensures Prev(PREFIX + itemName, 17, 17 + hi, cs) == 17 + Prev(itemName, 0, hi, cs)
  {
    PrefixShape();
    UrlText(itemName);
    var url := PREFIX + itemName;
    var p := Prev(itemName, 0, hi, cs);
    assert p >= 0 ==> url[17 + p] == itemName[p];
    hide *;
    forall k | 17 + p < k < 17 + hi ensures url[k] !in cs {
      assert url[17 + (k - 17)] == itemName[k - 17];
    }
    PrevIs(url, 17, 17 + hi, cs, 17 + p);
  }

  lemma SlashShifts(itemName: string, hi: int)
    requires 0 <= hi <= |itemName|
    ensures Prev(PREFIX + itemName, 16, 17 + hi, SLASHES) == 17 + Prev(itemName, 0, hi, SLASHES)
  {
    PrefixShape();
    UrlText(itemName);
    var url := PREFIX + itemName;
    var p := Prev(itemName, 0, hi, SLASHES);
    assert p >= 0 ==> url[17 + p] == itemName[p];
    assert url[16] in SLASHES;
    hide *;
    forall k | 17 + p < k < 17 + hi ensures url[k] !in SLASHES {
      assert url[17 + (k - 17)] == itemName[k - 17];
    }
    PrevIs(url, 16, 17 + hi, SLASHES, 17 + p);
  }

  lemma UrlSlice(itemName: string, a: int, b: int)
    requires 0 <= a <= b <= |itemName|
    ensures (PREFIX + itemName)[17 + a..17 + b] == itemName[a..b]
  {
    PrefixShape();
  }

  /** Where the pieces are in the item name: the end without trimmed characters, the # and the
      ? that start reference and query, and the bounds of the symbol. */
  datatype Marks = Marks(end: int, hash: int, mark: int, symbolBegin: int, symbolEnd: int)

  function MarksOf(itemName: string): (m: Marks)
    ensures 0 <= m.symbolBegin <= m.symbolEnd <= m.mark <= m.hash <= m.end <= |itemName|
  {
    var end := TrimEnd(itemName, 0, |itemName|);
    var hash := Next(itemName, 0, end, {'#'});
    var mark := Next(itemName, 0, hash, {'?'});
    var semicolon := Prev(itemName, 0, mark, {';'});
    var symbolEnd := if semicolon >= 0 then semicolon else mark;
    Marks(end, hash, mark, Prev(itemName, 0, symbolEnd, SLASHES) + 1, symbolEnd)
  }

  function ItemAt(itemName: string, m: Marks): Item
    requires 0 <= m.symbolBegin <= m.symbolEnd <= m.mark <= m.hash <= m.end <= |itemName|
  {
    Item(itemName[m.symbolBegin..m.symbolEnd],
         if m.mark < m.hash then Some(itemName[m.mark + 1..m.hash]) else None,
         if m.hash < m.end then Some(itemName[m.hash + 1..m.end]) else None)
  }

  /** The decomposition, in terms of the item name alone. A file name is always found, so the
      malformed-request branch of the worker is never taken. */
  lemma DecomposedIs(itemName: string)
    ensures Decomposed(itemName) == ItemAt(itemName, MarksOf(itemName))
    ensures FileName(PREFIX + itemName, StandardURL(PREFIX + itemName).path).IsValid()
  {
    var m := MarksOf(itemName);
    hide StandardURL, FileName, PREFIX, MarksOf;
    PathIs(itemName);
    FileNameIs(itemName);
    UrlSlice(itemName, m.symbolBegin, m.symbolEnd);
    if m.mark < m.hash { UrlSlice(itemName, m.mark + 1, m.hash); }
    if m.hash < m.end { UrlSlice(itemName, m.hash + 1, m.end); }
  }

  lemma PathIs(itemName: string)
    ensures var m := MarksOf(itemName); var p := StandardURL(PREFIX + itemName);
            && p.path == MakeRange(16, 17 + m.mark)
            && p.query == (if m.mark < m.hash then MakeRange(17 + m.mark + 1, 17 + m.hash) else NONE)
            && p.ref == (if m.hash < m.end then MakeRange(17 + m.hash + 1, 17 + m.end) else NONE)
  {
    hide *;
    var m := MarksOf(itemName);
    UrlShape(itemName);
    EndIs(itemName);
    PathPartsAre(itemName);
    Pieces(PREFIX + itemName, 0, 17 + m.end, 7, 16);
  }

  lemma EndIs(itemName: string)
    ensures MarksOf(itemName).end == TrimEnd(itemName, 0, |itemName|)
  {
  }

  lemma PathPartsAre(itemName: string)
    ensures var m := MarksOf(itemName); var url := PREFIX + itemName;
            && 16 < 17 + m.end <= |url|
            && PathParts(url, 16, 17 + m.end)
               == FullPath(MakeRange(16, 17 + m.mark),
                           if m.mark < m.hash then MakeRange(17 + m.mark + 1, 17 + m.hash) else NONE,
                           if m.hash < m.end then MakeRange(17 + m.hash + 1, 17 + m.end) else NONE)
  {
    hide Next, Prev, TrimEnd, PREFIX;
    var m := MarksOf(itemName);
    assert |PREFIX + itemName| == 17 + |itemName| by { PrefixShape(); }
    SearchShifts(itemName, m.end, {'#'});
    SearchShifts(itemName, m.hash, {'?'});
  }

  lemma FileNameIs(itemName: string)
    ensures var m := MarksOf(itemName);
            FileName(PREFIX + itemName, MakeRange(16, 17 + m.mark)) == MakeRange(17 + m.symbolBegin, 17 + m.symbolEnd)
  {
    hide Next, Prev, TrimEnd, PREFIX;
    var m := MarksOf(itemName);
    assert |PREFIX + itemName| == 17 + |itemName| by { PrefixShape(); }
    BackSearchShifts(itemName, m.mark, {';'});
    SlashShifts(itemName, m.symbolEnd);
  }

  /** What is trimmed off the end of a name. */
  predicate IsTail(t: string) {
    forall k :: 0 <= k < |t| ==> t[k] as int <= 32 || t[k] as int >= 128
  }

  predicate Lacks(s: string, cs: set<char>) {
    forall k :: 0 <= k < |s| ==> s[k] !in cs
  }

  /** A name put together, its symbol between directory and parameters. */
  function Whole(dir: string, item: Item, params: string): string {
    dir + item.symbol + params + (if item.query.Some? then "?" + item.query.value else "")
    + (if item.ref.Some? then "#" + item.ref.value else "")
  }

  /** Every item name is a directory, the symbol, its parameters, query, reference, and what is
      trimmed: the first # begins the reference and the first ? before it the query; the last
      semicolon before these begins the parameters, and the last slash before that ends the
      directory. */
  lemma DecomposedText(itemName: string) returns (dir: string, params: string, tail: string)
    ensures var item := Decomposed(itemName);
            && itemName == Whole(dir, item, params) + tail
            && IsTail(tail) && (|tail| < |itemName| ==> 32 < itemName[|itemName| - |tail| - 1] as int < 128)
            && Lacks(dir, {'?', '#'}) && Lacks(item.symbol, {'?', '#', '/', '\\'}) && Lacks(params, {'?', '#'})
            && (item.query.Some? ==> Lacks(item.query.value, {'#'}))
            && (dir == "" || dir[|dir| - 1] == '/' || dir[|dir| - 1] == '\\')
            && (if params == "" then Lacks(dir, {';'}) && Lacks(item.symbol, {';'}) else params[0] == ';' && Lacks(params[1..], {';'}))
  {
    hide *;
    DecomposedIs(itemName);
    var m := MarksOf(itemName);
    dir, params, tail := itemName[..m.symbolBegin], itemName[m.symbolEnd..m.mark], itemName[m.end..];
    MarksMean(itemName);
    ItemIs(itemName, m);
    Parts(itemName, m);
    assert params != "" ==> params[1..] == itemName[m.symbolEnd + 1..m.mark];
  }

  lemma ItemIs(name: string, m: Marks)
    requires 0 <= m.symbolBegin <= m.symbolEnd <= m.mark <= m.hash <= m.end <= |name|
    ensures var item := ItemAt(name, m);
            && item.symbol == name[m.symbolBegin..m.symbolEnd]
            && (item.query.Some? <==> m.mark < m.hash) && (item.query.Some? ==> item.query.value == name[m.mark + 1..m.hash])
            && (item.ref.Some? <==> m.hash < m.end) && (item.ref.Some? ==> item.ref.value == name[m.hash + 1..m.end])
  {
  }

  lemma Parts(name: string, m: Marks)
    requires 0 <= m.symbolBegin <= m.symbolEnd <= m.mark <= m.hash <= m.end <= |name|
    requires (m.mark < m.hash ==> name[m.mark] == '?') && (m.hash < m.end ==> name[m.hash] == '#')
    ensures name == Whole(name[..m.symbolBegin], ItemAt(name, m), name[m.symbolEnd..m.mark]) + name[m.end..]
  {
    hide ItemAt;
    ItemIs(name, m);
    BehindMark(name, m.mark, m.hash, '?');
    BehindMark(name, m.hash, m.end, '#');
    Extend(name, m.symbolBegin, m.symbolEnd);
    Extend(name, m.symbolEnd, m.mark);
    Extend(name, m.mark, m.hash);
    Extend(name, m.hash, m.end);
    Extend(name, m.end, |name|);
    assert name[m.end..] == name[m.end..|name|] && name[..|name|] == name;
  }

  lemma Extend(name: string, a: int, b: int)
    requires 0 <= a <= b <= |name|
    ensures name[..a] + name[a..b] == name[..b]
  {
  }

  lemma BehindMark(name: string, a: int, b: int, c: char)
    requires 0 <= a <= b <= |name| && (a < b ==> name[a] == c)
    ensures name[a..b] == if a < b then [c] + name[a + 1..b] else ""
  {
  }

  lemma MarksMean(name: string)
    ensures var m := MarksOf(name);
            && (m.mark < m.hash ==> name[m.mark] == '?') && (m.hash < m.end ==> name[m.hash] == '#')
            && IsTail(name[m.end..]) && (m.end > 0 ==> 32 < name[m.end - 1] as int < 128)
            && Lacks(name[..m.symbolBegin], {'?', '#'}) && Lacks(name[m.symbolBegin..m.symbolEnd], {'?', '#', '/', '\\'})
            && Lacks(name[m.symbolEnd..m.mark], {'?', '#'}) && (m.mark < m.hash ==> Lacks(name[m.mark + 1..m.hash], {'#'}))
            && (m.symbolBegin > 0 ==> name[m.symbolBegin - 1] == '/' || name[m.symbolBegin - 1] == '\\')
            && (if m.symbolEnd == m.mark then Lacks(name[..m.symbolBegin], {';'}) && Lacks(name[m.symbolBegin..m.symbolEnd], {';'})
                else name[m.symbolEnd] == ';' && Lacks(name[m.symbolEnd + 1..m.mark], {';'}))
  {
    hide MarksOf, IsTail;
    var m := MarksOf(name);
    EndMeans(name);
    SymbolMeans(name);
    hide Lacks;
    FreeSlice(name, 0, m.symbolBegin, {'?', '#'});
    FreeSlice(name, m.symbolBegin, m.symbolEnd, {'?', '#', '/', '\\'});
    FreeSlice(name, m.symbolEnd, m.mark, {'?', '#'});
    if m.mark < m.hash { FreeSlice(name, m.mark + 1, m.hash, {'#'}); }
    if m.symbolEnd == m.mark {
      FreeSlice(name, 0, m.symbolBegin, {';'});
      FreeSlice(name, m.symbolBegin, m.symbolEnd, {';'});
    } else {
      FreeSlice(name, m.symbolEnd + 1, m.mark, {';'});
    }
    assert name[0..m.symbolBegin] == name[..m.symbolBegin];
  }

  lemma FreeSlice(s: string, a: int, b: int, cs: set<char>)
    requires 0 <= a <= b <= |s| && forall k :: a <= k < b ==> s[k] !in cs
    ensures Lacks(s[a..b], cs)
  {
  }

  lemma EndMeans(name: string)
    ensures var m := MarksOf(name);
            && (m.mark < m.hash ==> name[m.mark] == '?') && (m.hash < m.end ==> name[m.hash] == '#')
            && IsTail(name[m.end..]) && (m.end > 0 ==> 32 < name[m.end - 1] as int < 128)
            && (forall k :: 0 <= k < m.mark ==> name[k] != '?') && (forall k :: 0 <= k < m.hash ==> name[k] != '#')
  {
    hide Next, TrimEnd, Prev;
    var m := MarksOf(name);
    NextFree(name, m.end, '#');
    NextFree(name, m.hash, '?');
    forall k | 0 <= k < |name[m.end..]| ensures name[m.end..][k] as int <= 32 || name[m.end..][k] as int >= 128 {
      assert ShouldTrim(name[m.end + k]);
    }
  }

  lemma NextFree(s: string, hi: int, c: char)
    requires 0 <= hi <= |s|
    ensures var i := Next(s, 0, hi, {c}); (i < hi ==> s[i] == c) && forall k :: 0 <= k < i ==> s[k] != c
  {
    hide Next;
    var i := Next(s, 0, hi, {c});
    forall k | 0 <= k < i ensures s[k] != c {
      assert s[k] !in {c};
    }
  }

  lemma PrevFree(s: string, hi: int, c: char)
    requires 0 <= hi <= |s|
    ensures var i := Prev(s, 0, hi, {c}); (i >= 0 ==> s[i] == c) && forall k :: i < k < hi ==> s[k] != c
  {
    hide Prev;
    var i := Prev(s, 0, hi, {c});
    forall k | i < k < hi ensures s[k] != c {
      assert s[k] !in {c};
    }
  }

  lemma SymbolMeans(name: string)
    ensures var m := MarksOf(name);
            && (m.symbolBegin > 0 ==> name[m.symbolBegin - 1] == '/' || name[m.symbolBegin - 1] == '\\')
            && (forall k :: m.symbolBegin <= k < m.symbolEnd ==> name[k] != '/' && name[k] != '\\')
            && (m.symbolEnd < m.mark ==> name[m.symbolEnd] == ';')
            && (forall k :: (if m.symbolEnd == m.mark then 0 else m.symbolEnd + 1) <= k < m.mark ==> name[k] != ';')
  {
    hide Next, TrimEnd, Prev;
    var m := MarksOf(name);
    PrevFree(name, m.mark, ';');
    var slash := Prev(name, 0, m.symbolEnd, SLASHES);
    forall k | slash < k < m.symbolEnd ensures name[k] != '/' && name[k] != '\\' {
      assert name[k] !in SLASHES;
    }
  }

  // ---- Which item names survive ----------------------------------------------------------

  function Composed(item: Item): string {
    item.symbol + (if item.query.Some? then "?" + item.query.value else "")
    + (if item.ref.Some? then "#" + item.ref.value else "")
  }

  const SYMBOL_ENDS := {'/', '\\', ';', '?', '#'}

  ghost predicate Clean(item: Item) {
    && (forall k :: 0 <= k < |item.symbol| ==> item.symbol[k] !in SYMBOL_ENDS)
    && (item.query.Some? ==> forall k :: 0 <= k < |item.query.value| ==> item.query.value[k] != '#')
    && var name := Composed(item); name != [] ==> 32 < name[|name| - 1] as int < 128
  }

  lemma CleanMarks(item: Item)
    requires Clean(item)
    ensures var name := Composed(item); var n := |item.symbol|;
            var h := n + if item.query.Some? then 1 + |item.query.value| else 0;
            MarksOf(name) == Marks(|name|, h, n, 0, n)
  {
    var name := Composed(item);
    var n := |item.symbol|;
    var h := n + if item.query.Some? then 1 + |item.query.value| else 0;
    assert forall k :: 0 <= k < n ==> name[k] == item.symbol[k];
    TrimEndIs(name, 0, |name|, |name|);
    forall k | 0 <= k < h ensures name[k] != '#' {
      if k > n { assert name[k] == item.query.value[k - n - 1]; }
    }
    NextIs(name, 0, |name|, {'#'}, h);
    NextIs(name, 0, h, {'?'}, n);
    PrevIs(name, 0, n, {';'}, -1);
    PrevIs(name, 0, n, SLASHES, -1);
  }

  /** Decomposition gives back symbol, query and reference exactly when the symbol has none of
      the five separators, the query no #, and the whole ends in nothing that is trimmed. */
  lemma DecomposesExactlyWhen(item: Item)
    ensures Decomposed(Composed(item)) == item <==> Clean(item)
  {
    var name := Composed(item);
    DecomposedIs(name);
    if Clean(item) {
      CleanMarks(item);
      CleanPieces(item);
    }
    if Decomposed(name) == item {
      KeptIsClean(item);
    }
  }

  lemma CleanPieces(item: Item)
    ensures var name := Composed(item); var n := |item.symbol|;
            var h := n + if item.query.Some? then 1 + |item.query.value| else 0;
            ItemAt(name, Marks(|name|, h, n, 0, n)) == item
  {
    var name := Composed(item);
    var n := |item.symbol|;
    var h := n + if item.query.Some? then 1 + |item.query.value| else 0;
    assert name[0..n] == item.symbol;
    if item.query.Some? { assert name[n + 1..h] == item.query.value; }
    if item.ref.Some? { assert name[h + 1..|name|] == item.ref.value; }
  }

  /** Nothing can be cut off, because the pieces are as long together as the name. */
  lemma KeptMarks(item: Item)
    requires ItemAt(Composed(item), MarksOf(Composed(item))) == item
    ensures var m := MarksOf(Composed(item));
            && m.end == |Composed(item)| && m.symbolBegin == 0 && m.symbolEnd == m.mark
  {
    var name := Composed(item);
    var m := MarksOf(name);
    hide MarksOf;
    assert |item.symbol| == m.symbolEnd - m.symbolBegin;
    assert |name| == |item.symbol| + (m.hash - m.mark) + (m.end - m.hash);
  }

  lemma KeptIsClean(item: Item)
    requires ItemAt(Composed(item), MarksOf(Composed(item))) == item
    ensures Clean(item)
  {
    hide Composed;
    var name := Composed(item);
    var m := MarksOf(name);
    KeptMarks(item);
    assert item.symbol == name[0..m.mark];
    assert item.query.Some? ==> item.query.value == name[m.mark + 1..m.hash];
  }

  // ---- The query -------------------------------------------------------------------------

  /** A piece of the query, cut at its first =. */
  function Cut(piece: string): (string, string) {
    var eq := Next(piece, 0, |piece|, {'='});
    (piece[..eq], if eq < |piece| then piece[eq + 1..] else "")
  }

  function FirstPiece(q: string): string {
    q[..Next(q, 0, |q|, {'&'})]
  }

  function HasMorePieces(q: string): (more: bool)
    ensures more ==> |FirstPiece(q)| < |q|
  {
    |FirstPiece(q)| < |q|
  }

  /** What is left behind the first ampersand. */
  function Remaining(q: string): (r: string)
    ensures q != "" ==> |r| < |q|
  {
    if HasMorePieces(q) then q[|FirstPiece(q)| + 1..] else ""
  }

  /** The pieces between the ampersands; there is always at least one. */
  function Split(q: string): (pieces: seq<string>)
    ensures pieces != []
    decreases |q|
  {
    if HasMorePieces(q) then [FirstPiece(q)] + Split(Remaining(q)) else [q]
  }

  /** A piece is key and value around its first =, or a key without a value. */
  lemma CutIs(piece: string)
    ensures var pair := Cut(piece);
            && Lacks(pair.0, {'='})
            && (if Lacks(piece, {'='}) then pair == (piece, "") else piece == pair.0 + "=" + pair.1)
  {
    var eq := Next(piece, 0, |piece|, {'='});
    if eq == |piece| { assert piece[..eq] == piece; }
  }

  function JoinPieces(pieces: seq<string>): string
    requires pieces != []
  {
    if |pieces| == 1 then pieces[0] else pieces[0] + ("&" + JoinPieces(pieces[1..]))
  }

  /** The query is its pieces with ampersands between them, and no piece has one. */
  lemma {:induction false} SplitRejoins(q: string, i: nat)
    requires i < |Split(q)|
    ensures JoinPieces(Split(q)) == q && Lacks(Split(q)[i], {'&'})
    decreases |q|
  {
    hide FirstPiece, HasMorePieces, Remaining, Lacks;
    FirstIs(q);
    if HasMorePieces(q) {
      SplitRejoins(Remaining(q), if i > 0 then i - 1 else 0);
      assert Split(q)[1..] == Split(Remaining(q));
    }
  }

  lemma FirstIs(q: string)
    ensures if HasMorePieces(q) then q == FirstPiece(q) + ("&" + Remaining(q)) && Lacks(FirstPiece(q), {'&'}) else Lacks(q, {'&'})
  {
    var amp := Next(q, 0, |q|, {'&'});
    assert amp < |q| ==> q == q[..amp] + ("&" + q[amp + 1..]);
  }

  lemma WholePiece(q: string)
    requires !HasMorePieces(q)
    ensures FirstPiece(q) == q && Remaining(q) == ""
  {
    assert q[..|q|] == q;
  }

  /** Every piece in turn, but for the last when it is empty. */
  function Pairs(q: string): seq<(string, string)> {
    CutAll(DropEmptyLast(Split(q)))
  }

  function CutAll(pieces: seq<string>): (pairs: seq<(string, string)>)
    ensures |pairs| == |pieces|
  {
    if pieces == [] then [] else [Cut(pieces[0])] + CutAll(pieces[1..])
  }

  function DropEmptyLast(pieces: seq<string>): seq<string>
    requires pieces != []
  {
    if pieces[|pieces| - 1] == "" then pieces[..|pieces| - 1] else pieces
  }

  lemma DropAfterFirst(first: string, rest: seq<string>)
    requires rest != []
    ensures DropEmptyLast([first] + rest) == [first] + DropEmptyLast(rest)
  {
    var pieces := [first] + rest;
    assert pieces[|pieces| - 1] == rest[|rest| - 1];
    assert pieces[..|pieces| - 1] == [first] + rest[..|rest| - 1];
  }

  /** Taking the first piece off. */
  lemma PairsStep(q: string)
    requires q != ""
    ensures Pairs(q) == [Cut(FirstPiece(q))] + Pairs(Remaining(q))
  {
    hide Cut, FirstPiece, HasMorePieces, Remaining, DropEmptyLast;
    NoPairs();
    if HasMorePieces(q) {
      DropAfterFirst(FirstPiece(q), Split(Remaining(q)));
      CutFirst(FirstPiece(q), DropEmptyLast(Split(Remaining(q))));
    } else {
      WholePiece(q);
      CutFirst(q, []);
      OnlyPiece(q);
    }
  }

  lemma OnlyPiece(q: string)
    requires q != ""
    ensures DropEmptyLast([q]) == [q] + []
  {
  }

  lemma CutFirst(first: string, rest: seq<string>)
    ensures CutAll([first] + rest) == [Cut(first)] + CutAll(rest)
  {
    assert ([first] + rest)[1..] == rest;
  }

  lemma NoPairs()
    ensures Pairs("") == []
  {
    assert Split("") == [""];
  }

  /** Where the scan finds the end of the key, and the value. */
  datatype Scan = Scan(keyEnd: int, valueBegin: int, valueEnd: int)

  function ScanPair(s: string, begin: int, end: int): (r: Scan)
    requires 0 <= begin <= end <= |s|
    ensures begin <= r.keyEnd <= r.valueBegin <= r.valueEnd <= end
  {
    var keyEnd := Next(s, begin, end, {'&', '='});
    var valueBegin := if keyEnd < end && s[keyEnd] == '=' then keyEnd + 1 else keyEnd;
    Scan(keyEnd, valueBegin, Next(s, valueBegin, end, {'&'}))
  }

  /** The scan finds the first piece and cuts it. */
  lemma ScanIsCut(s: string, begin: int, end: int)
    requires 0 <= begin < end <= |s|
    ensures var q := s[begin..end]; var r := ScanPair(s, begin, end);
            && FirstPiece(q) == s[begin..r.valueEnd]
            && Cut(FirstPiece(q)) == (s[begin..r.keyEnd], s[r.valueBegin..r.valueEnd])
            && Remaining(q) == s[(if r.valueEnd < end then r.valueEnd + 1 else r.valueEnd)..end]
  {
    var q := s[begin..end];
    var r := ScanPair(s, begin, end);
    ScanFindsAmp(s, begin, end);
    assert q[..r.valueEnd - begin] == s[begin..r.valueEnd];
    hide Next;
    ScanCuts(s, begin, end);
  }

  lemma ScanFindsAmp(s: string, begin: int, end: int)
    requires 0 <= begin < end <= |s|
    ensures var q := s[begin..end]; Next(q, 0, |q|, {'&'}) == ScanPair(s, begin, end).valueEnd - begin
  {
    NextIs(s[begin..end], 0, end - begin, {'&'}, ScanPair(s, begin, end).valueEnd - begin);
  }

  lemma ScanCuts(s: string, begin: int, end: int)
    requires 0 <= begin < end <= |s|
    ensures var r := ScanPair(s, begin, end);
            Cut(s[begin..r.valueEnd]) == (s[begin..r.keyEnd], s[r.valueBegin..r.valueEnd])
  {
    var r := ScanPair(s, begin, end);
    var piece := s[begin..r.valueEnd];
    NextIs(piece, 0, |piece|, {'='}, r.keyEnd - begin);
    assert piece[..r.keyEnd - begin] == s[begin..r.keyEnd];
    if r.keyEnd < r.valueEnd {
      assert piece[r.keyEnd - begin + 1..] == s[r.valueBegin..r.valueEnd];
    } else {
      assert s[r.valueBegin..r.valueEnd] == "";
    }
  }

  method ExtractQueryKeyValue(s: string, query: Component) returns (found: bool, rest: Component, key: Component, value: Component)
    requires Within(query, 0, |s|)
    ensures found == query.IsNonempty()
    ensures found ==>
              var r := ScanPair(s, query.begin, query.End());
              && key == MakeRange(query.begin, r.keyEnd) && value == MakeRange(r.valueBegin, r.valueEnd)
              && rest == RestOf(query, r)
  {
    if !query.IsNonempty() {
      return false, query, NONE, NONE;
    }
    var start, cur, end := query.begin, query.begin, query.End();
    while cur < end && s[cur] != '&' && s[cur] != '='
      invariant start <= cur <= end && Next(s, cur, end, {'&', '='}) == Next(s, start, end, {'&', '='})
    {
      cur := cur + 1;
    }
    key := Component(start, cur - start);
    assert cur == Next(s, start, end, {'&', '='});
    if cur < end && s[cur] == '=' {
      cur := cur + 1;
    }
    var valueBegin := cur;
    while cur < end && s[cur] != '&'
      invariant valueBegin <= cur <= end && Next(s, cur, end, {'&'}) == Next(s, valueBegin, end, {'&'})
    {
      cur := cur + 1;
    }
    assert cur == Next(s, valueBegin, end, {'&'});
    value := Component(valueBegin, cur - valueBegin);
    if cur < end && s[cur] == '&' {
      cur := cur + 1;
    }
    rest := MakeRange(cur, end);
    found := true;
  }

  function RestOf(query: Component, r: Scan): Component {
    MakeRange(if r.valueEnd < query.End() then r.valueEnd + 1 else r.valueEnd, query.End())
  }

  /** The period a query asks for, as text. */
  datatype Period = Period(open: Option<string>, close: Option<string>)

  const NO_PERIOD := Period(None, None)

  /** The value of the last pair with the key, if there is one. */
  function LastValue(pairs: seq<(string, string)>, key: string, otherwise: Option<string>): Option<string> {
    if pairs == [] then otherwise
    else if pairs[|pairs| - 1].0 == key then Some(pairs[|pairs| - 1].1)
    else LastValue(pairs[..|pairs| - 1], key, otherwise)
  }

  function PeriodAfter(before: Period, pairs: seq<(string, string)>): Period {
    Period(LastValue(pairs, "open", before.open), LastValue(pairs, "close", before.close))
  }

  /** The opening time is the value of the last pair with the key "open", the closing time that of
      the last with "close"; a key that is missing changes nothing. */
  lemma PeriodMeans(before: Period, pairs: seq<(string, string)>, i: nat)
    ensures (forall j :: 0 <= j < |pairs| ==> pairs[j].0 != "open") ==> PeriodAfter(before, pairs).open == before.open
    ensures (forall j :: 0 <= j < |pairs| ==> pairs[j].0 != "close") ==> PeriodAfter(before, pairs).close == before.close
    ensures i < |pairs| && pairs[i].0 == "open" && (forall j :: i < j < |pairs| ==> pairs[j].0 != "open") ==>
              PeriodAfter(before, pairs).open == Some(pairs[i].1)
    ensures i < |pairs| && pairs[i].0 == "close" && (forall j :: i < j < |pairs| ==> pairs[j].0 != "close") ==>
              PeriodAfter(before, pairs).close == Some(pairs[i].1)
  {
    hide LastValue;
    LastValueIs(pairs, "open", before.open, i);
    LastValueIs(pairs, "close", before.close, i);
  }

  lemma {:induction false} LastValueIs(pairs: seq<(string, string)>, key: string, otherwise: Option<string>, i: nat)
    ensures (forall j :: 0 <= j < |pairs| ==> pairs[j].0 != key) ==> LastValue(pairs, key, otherwise) == otherwise
    ensures i < |pairs| && pairs[i].0 == key && (forall j :: i < j < |pairs| ==> pairs[j].0 != key) ==>
              LastValue(pairs, key, otherwise) == Some(pairs[i].1)
    decreases |pairs|
  {
    if pairs != [] {
      LastValueIs(pairs[..|pairs| - 1], key, otherwise, i);
    }
  }

  lemma LastValueStep(pairs: seq<(string, string)>, pair: (string, string), key: string, otherwise: Option<string>)
    ensures LastValue(pairs + [pair], key, otherwise)
         == if pair.0 == key then Some(pair.1) else LastValue(pairs, key, otherwise)
  {
    assert (pairs + [pair])[..|pairs|] == pairs;
  }

  /** The loop over the query ends, meets exactly the pairs of the query, and keeps the last
      value of either key. */
  method ParseRequest(s: string, query: Component, before: Period) returns (period: Period)
    requires query.IsValid() && Within(query, 0, |s|)
    ensures period == PeriodAfter(before, Pairs(Text(s, query)))
  {
    hide Pairs, ScanPair, PeriodAfter;
    ghost var pairs := [];
    period := before;
    assert period == PeriodAfter(before, []) by { NoValues(before); }
    var left := query;
    var found, rest, key, value := ExtractQueryKeyValue(s, left);
    while found
      invariant left.IsValid() && Within(left, 0, |s|) && found == left.IsNonempty()
      invariant found ==>
                  var r := ScanPair(s, left.begin, left.End());
                  && key == MakeRange(left.begin, r.keyEnd) && value == MakeRange(r.valueBegin, r.valueEnd)
                  && rest == RestOf(left, r)
      invariant Pairs(Text(s, query)) == pairs + Pairs(Text(s, left))
      invariant period == PeriodAfter(before, pairs)
      decreases left.len
    {
      NextPair(s, left, pairs);
      ghost var pair := (Text(s, key), Text(s, value));
      PeriodStep(before, pairs, pair);
      if Text(s, key) == "open" {
        period := period.(open := Some(Text(s, value)));
      } else if Text(s, key) == "close" {
        period := period.(close := Some(Text(s, value)));
      }
      pairs := pairs + [pair];
      left := rest;
      found, rest, key, value := ExtractQueryKeyValue(s, left);
    }
    assert Text(s, left) == "";
    NoPairs();
    assert pairs + [] == pairs;
  }

  lemma PeriodStep(before: Period, pairs: seq<(string, string)>, pair: (string, string))
    ensures PeriodAfter(before, pairs + [pair])
         == var p := PeriodAfter(before, pairs);
            if pair.0 == "open" then p.(open := Some(pair.1)) else if pair.0 == "close" then p.(close := Some(pair.1)) else p
  {
    LastValueStep(pairs, pair, "open", before.open);
    LastValueStep(pairs, pair, "close", before.close);
    hide LastValue;
  }

  lemma NoValues(before: Period)
    ensures PeriodAfter(before, []) == before
  {
  }

  lemma NextPair(s: string, left: Component, done: seq<(string, string)>)
    requires left.IsNonempty() && Within(left, 0, |s|)
    ensures var r := ScanPair(s, left.begin, left.End()); var rest := RestOf(left, r);
            && rest.len < left.len
            && done + Pairs(Text(s, left))
               == done + [(s[left.begin..r.keyEnd], s[r.valueBegin..r.valueEnd])] + Pairs(Text(s, rest))
  {
    var r := ScanPair(s, left.begin, left.End());
    ScanIsCut(s, left.begin, left.End());
    ScanMoves(s, left.begin, left.End());
    TextAt(s, left, RestOf(left, r));
    PairUp(Text(s, left), (s[left.begin..r.keyEnd], s[r.valueBegin..r.valueEnd]), Text(s, RestOf(left, r)), done);
  }

  lemma PairUp(q: string, pair: (string, string), rest: string, done: seq<(string, string)>)
    requires q != "" && Cut(FirstPiece(q)) == pair && Remaining(q) == rest
    ensures done + Pairs(q) == done + [pair] + Pairs(rest)
  {
    hide Pairs, Cut, FirstPiece, Remaining;
    PairsStep(q);
  }

  lemma TextAt(s: string, left: Component, rest: Component)
    requires left.IsNonempty() && Within(left, 0, |s|) && rest.IsValid() && Within(rest, 0, |s|)
    ensures Text(s, left) == s[left.begin..left.End()] && Text(s, left) != ""
    ensures Text(s, rest) == s[rest.begin..rest.End()]
  {
  }

  /** Each round takes at least one character. */
  lemma ScanMoves(s: string, begin: int, end: int)
    requires 0 <= begin < end <= |s|
    ensures ScanPair(s, begin, end).valueEnd < end || ScanPair(s, begin, end).valueEnd > begin
  {
  }

  // ---- Queries that survive --------------------------------------------------------------

  function JoinPairs(pairs: seq<(string, string)>): string {
    if pairs == [] then ""
    else if |pairs| == 1 then pairs[0].0 + "=" + pairs[0].1
    else pairs[0].0 + "=" + pairs[0].1 + "&" + JoinPairs(pairs[1..])
  }

  ghost predicate PlainPair(p: (string, string)) {
    && (forall k :: 0 <= k < |p.0| ==> p.0[k] != '&' && p.0[k] != '=')
    && (forall k :: 0 <= k < |p.1| ==> p.1[k] != '&')
  }

  lemma CutPlain(p: (string, string))
    requires PlainPair(p)
    ensures var piece := p.0 + "=" + p.1; Cut(piece) == p && forall k :: 0 <= k < |piece| ==> piece[k] != '&'
  {
    var piece := p.0 + "=" + p.1;
    assert piece[|p.0|] == '=' && forall k :: 0 <= k < |p.0| ==> piece[k] == p.0[k];
    NextIs(piece, 0, |piece|, {'='}, |p.0|);
    assert piece[..|p.0|] == p.0 && piece[|p.0| + 1..] == p.1;
  }

  lemma JoinStep(pairs: seq<(string, string)>)
    requires pairs != [] && PlainPair(pairs[0])
    ensures var q := JoinPairs(pairs);
            && q != "" && FirstPiece(q) == pairs[0].0 + "=" + pairs[0].1
            && Remaining(q) == if |pairs| == 1 then "" else JoinPairs(pairs[1..])
  {
    var q := JoinPairs(pairs);
    var piece := pairs[0].0 + "=" + pairs[0].1;
    CutPlain(pairs[0]);
    hide Cut, PlainPair, Next;
    assert forall k :: 0 <= k < |piece| ==> q[k] == piece[k];
    NextIs(q, 0, |q|, {'&'}, |piece|);
  }

  /** Keys without & and =, values without &: the loop gives back what was joined. */
  lemma {:induction false} PairsOfJoined(pairs: seq<(string, string)>)
    requires forall i :: 0 <= i < |pairs| ==> PlainPair(pairs[i])
    ensures Pairs(JoinPairs(pairs)) == pairs
  {
    if pairs == [] {
      NoPairs();
    } else {
      CutPlain(pairs[0]);
      JoinStep(pairs);
      if |pairs| == 1 { assert pairs[1..] == [] && JoinPairs([]) == ""; }
      hide *;
      PairsStep(JoinPairs(pairs));
      PairsOfJoined(pairs[1..]);
      assert pairs == [pairs[0]] + pairs[1..];
    }
  }
}
