/** The printer's output in terms of the grammar: whatever is in the strings, the text is harmless
    ASCII, and to a reader that understands \u escapes it denotes the value that was printed. */
module JsonSpelling {
  import opened NumberConversions
  import opened Values
  import opened Wrappers
  import opened JsonRoundTrip
  import G = JsonGrammar
  import W = JsonWriter

  // ---- Strings ---------------------------------------------------------------------------

  /** The piece of the grammar that a character is printed as. */
  function PieceOf(c: char): G.Piece {
    if c == '"' || c == '\\' then G.Short(c)
    else if c as int == 8 then G.Short('b')
    else if c as int == 9 then G.Short('t')
    else if c as int == 10 then G.Short('n')
    else if c as int == 12 then G.Short('f')
    else if c as int == 13 then G.Short('r')
    else if 32 <= c as int <= 126 && c != '<' && c != '>' then G.Raw(c)
    else G.Unicode(W.Hex4(c as int))
  }

  lemma HexDigitBack(d: nat)
    requires d < 16
    ensures G.DigitValue(W.HexChar(d)) == Some(d)
  {
  }

  lemma FourDigits(digits: string)
    requires |digits| == 4
    requires forall i :: 0 <= i < 4 ==> G.DigitValue(digits[i]).Some?
    ensures G.HexNumber(digits) == Some(4096 * G.DigitValue(digits[0]).value + 256 * G.DigitValue(digits[1]).value
                                        + 16 * G.DigitValue(digits[2]).value + G.DigitValue(digits[3]).value)
  {
    hide G.DigitValue;
    assert digits[..3][..2] == digits[..2] && digits[..2][..1] == digits[..1] && digits[..1][..0] == "";
    assert G.HexNumber("") == Some(0);
    assert G.HexNumber(digits[..1]) == G.DigitValue(digits[0]);
    assert G.HexNumber(digits[..2]) == Some(16 * G.DigitValue(digits[0]).value + G.DigitValue(digits[1]).value);
  }

  /** The four digits behind \u denote the character. */
  lemma Hex4Denotes(n: nat)
    requires n < 0x1_0000
    ensures G.HexNumber(W.Hex4(n)) == Some(n)
  {
    hide W.HexChar, G.DigitValue, G.HexNumber;
    HexDigitBack(n / 4096 % 16);
    HexDigitBack(n / 256 % 16);
    HexDigitBack(n / 16 % 16);
    HexDigitBack(n % 16);
    FourDigits(W.Hex4(n));
    FourDigitsOf(n);
  }

  lemma FourDigitsOf(n: nat)
    requires n < 0x1_0000
    ensures 4096 * (n / 4096 % 16) + 256 * (n / 256 % 16) + 16 * (n / 16 % 16) + n % 16 == n
  {
    assert n / 256 == n / 16 / 16 && n / 4096 == n / 256 / 16;
  }

  lemma PieceIs(c: char)
    requires c as int < 256
    ensures G.Spell(PieceOf(c)) == W.EscapeChar(c) && G.PieceMeaning(PieceOf(c)) == Some(c)
  {
    hide W.Hex4, G.HexNumber;
    if PieceOf(c).Unicode? { UnicodePiece(c); }
  }

  lemma UnicodePiece(c: char)
    requires c as int < 256
    ensures G.Byte(W.Hex4(c as int), 4) == Some(c)
  {
    hide G.HexNumber, W.HexChar;
    Hex4Denotes(c as int);
  }

  function PiecesOf(s: string): seq<G.Piece> {
    if s == "" then [] else [PieceOf(s[0])] + PiecesOf(s[1..])
  }

  predicate Bytes(s: string) {
    forall i :: 0 <= i < |s| ==> s[i] as int < 256
  }

  lemma {:induction false} BodyIs(g: G.Dialect, s: string)
    requires g.unicode && Bytes(s)
    ensures G.BodySpelling(PiecesOf(s)) == W.Escape(s) + "\"" && G.LegalText(g, PiecesOf(s))
    ensures G.TextMeaning(g, PiecesOf(s)) == s
  {
    hide W.EscapeChar, PieceOf, G.Spell, G.PieceMeaning;
    if s != "" {
      PieceIs(s[0]);
      BodyIs(g, s[1..]);
      var ps := PiecesOf(s);
      assert ps[1..] == PiecesOf(s[1..]) && s == [s[0]] + s[1..];
      W.Assoc(W.EscapeChar(s[0]), W.Escape(s[1..]), "\"");
    }
  }

  /** A printed string spells pieces of the grammar that mean the string. */
  lemma QuoteIs(g: G.Dialect, s: string)
    requires g.unicode && Bytes(s)
    ensures G.TextSpelling(PiecesOf(s)) == W.Quote(s) && G.LegalText(g, PiecesOf(s)) && G.TextMeaning(g, PiecesOf(s)) == s
  {
    hide PiecesOf, G.BodySpelling, G.LegalText, G.TextMeaning, W.Escape;
    BodyIs(g, s);
    W.Assoc("\"", W.Escape(s), "\"");
  }

  // ---- Values ----------------------------------------------------------------------------

  /** Every string of the tree consists of bytes. */
  ghost predicate AllBytes(v: Value)
    decreases v
  {
    match v
    case Str(s) => Bytes(s)
    case List(items) => forall i :: 0 <= i < |items| ==> AllBytes(items[i])
    case Dict(entries) => forall i :: 0 <= i < |entries| ==> Bytes(entries[i].key) && AllBytes(entries[i].value)
    case _ => true
  }

  ghost predicate Printable(v: Value) {
    WellFormed(v) && NoDoubles(v) && AllBytes(v)
  }

  /** The tree of concrete syntax that is printed. */
  function Tree(f: W.Format, v: Value, d: nat): G.Syntax
    decreases v, 1
  {
    match v
    case Null => G.NullWord
    case Bool(b) => if b then G.TrueWord else G.FalseWord
    case Int(i) => G.Number(G.Numeral(i < 0, DecimalText(if i < 0 then 0 - i else i), "", ""))
    case Double(_) => G.NullWord
    case Str(s) => G.Text(PiecesOf(s))
    case List(items) => G.Array(if items == [] then Gap(f) + Gap(f) else Gap(f), ElementsOf(f, items, d))
    case Dict(entries) =>
      G.Object(if entries == [] then W.When(f.pretty, f.lineEnding) + LineTo(f, d) else LineTo(f, d + 1), MembersOf(f, entries, d))
  }

  function ElementsOf(f: W.Format, items: seq<Value>, d: nat): G.Elements
    decreases items, 0
  {
    if items == [] then G.EndOfArray
    else if items[1..] == [] then G.LastElement(Tree(f, items[0], d), Gap(f))
    else G.Element(Tree(f, items[0], d), "", Gap(f), ElementsOf(f, items[1..], d))
  }

  function MembersOf(f: W.Format, entries: seq<Entry>, d: nat): G.Members
    decreases entries, 0
  {
    if entries == [] then G.EndOfObject
    else
      var pair := G.Pair(PiecesOf(entries[0].key), "", Gap(f), Tree(f, entries[0].value, d + 1));
      if entries[1..] == [] then G.LastMember(pair, LineTo(f, d))
      else G.Member(pair, "", LineTo(f, d + 1), MembersOf(f, entries[1..], d))
  }

  lemma {:induction false} WhiteIsBlanks(s: string)
    requires AllWhite(s)
    ensures G.IsBlanks(s)
    decreases |s|
  {
    if s != "" {
      WhiteIsBlanks(s[1..]);
      assert s[..1] == [s[0]];
      assert G.IsBlank(s[..1]) && G.IsBlanks(s[1..]);
    }
  }

  lemma BlanksAre(f: W.Format, d: nat)
    requires W.ValidFormat(f)
    ensures G.IsBlanks("") && G.IsBlanks(Gap(f)) && G.IsBlanks(Gap(f) + Gap(f)) && G.IsBlanks(LineTo(f, d))
    ensures G.IsBlanks(W.When(f.pretty, f.lineEnding) + LineTo(f, d)) && G.IsBlanks(W.When(f.pretty, f.lineEnding))
  {
    hide Gap, LineTo, G.IsBlanks, AllWhite;
    BlankPieces(f, d);
    assert AllWhite("") && AllWhite(W.When(f.pretty, f.lineEnding)) by { LineEndingWhite(f); }
    WhiteIsBlanks("");
    WhiteIsBlanks(Gap(f));
    WhiteIsBlanks(Gap(f) + Gap(f));
    WhiteIsBlanks(LineTo(f, d));
    WhiteIsBlanks(W.When(f.pretty, f.lineEnding) + LineTo(f, d));
    WhiteIsBlanks(W.When(f.pretty, f.lineEnding));
  }

  lemma LineEndingWhite(f: W.Format)
    requires W.ValidFormat(f)
    ensures AllWhite("") && AllWhite(W.When(f.pretty, f.lineEnding))
  {
  }

  lemma NoBlanksBefore(s: string)
    ensures "" + s == s
  {
  }

  /** What the tree is to be. */
  ghost predicate IsTree(g: G.Dialect, f: W.Format, v: Value, d: nat) {
    var x := Tree(f, v, d);
    G.Spelling(x) == W.Render(f, v, d) && G.Legal(g, x) && G.Meaning(g, x) == v && G.Nesting(x) == Height(v)
  }

  lemma NumeralFor(g: G.Dialect, i: int32)
    ensures var n := G.Numeral(i < 0, DecimalText(if i < 0 then 0 - i else i), "", "");
            && G.IsNumeral(n) && G.NumeralMeaning(g, n) == Some(Int(i)) && G.NumeralSpelling(n) == IntText(i)
  {
    hide DecimalText, DecimalValue, AllDigits, IsDigit;
    var m: nat := if i < 0 then 0 - i else i;
    DecimalRoundTrip(m);
    DecimalTextStart(m);
    var digits := DecimalText(m);
    assert digits + ("" + "") == digits && "" + digits == digits;
  }

  lemma IntIs(g: G.Dialect, f: W.Format, i: int32, d: nat)
    ensures IsTree(g, f, Int(i), d)
  {
    hide G.IsNumeral, G.NumeralMeaning, G.NumeralSpelling, IntText, DecimalText;
    NumeralFor(g, i);
  }

  lemma {:induction false} TreeIs(g: G.Dialect, f: W.Format, v: Value, d: nat)
    requires g.unicode && W.ValidFormat(f) && Printable(v)
    ensures IsTree(g, f, v, d)
    decreases v, 1
  {
    hide DecimalText, DecimalValue, PiecesOf, W.Quote, G.TextSpelling, G.LegalText, G.TextMeaning;
    match v
    case Int(i) => IntIs(g, f, i, d);
    case Str(s) => QuoteIs(g, s);
    case List(items) => ListIs(g, f, items, d);
    case Dict(entries) => DictIs(g, f, entries, d);
    case _ =>
  }

  lemma ItemsPrintable(items: seq<Value>)
    requires items != [] && Printable(List(items))
    ensures Printable(items[0]) && Printable(List(items[1..]))
  {
  }

  /** The elements of a list are the tree of its items. */
  ghost predicate AreElements(g: G.Dialect, f: W.Format, items: seq<Value>, d: nat)
    requires items != []
  {
    var es := ElementsOf(f, items, d);
    && G.ElementsSpelling(es) == W.Render(f, items[0], d) + ItemTail(f, items[1..], d)
    && G.LegalElements(g, es) && G.Items(g, es) == items && G.ElementsNesting(es) == ItemsHeight(items) && !es.EndOfArray?
  }

  lemma LastElementIs(g: G.Dialect, f: W.Format, items: seq<Value>, d: nat)
    requires items != [] && items[1..] == [] && IsTree(g, f, items[0], d) && W.ValidFormat(f)
    ensures AreElements(g, f, items, d)
  {
    hide Gap, G.IsBlanks, G.Spelling, G.Legal, G.Meaning, G.Nesting, ItemTail, W.Render, Tree, Height;
    BlanksAre(f, d);
    ItemTailShape(f, items[1..], d);
    assert items == [items[0]];
    assert ElementsOf(f, items, d) == G.LastElement(Tree(f, items[0], d), Gap(f));
    assert ItemsHeight(items) == Height(items[0]);
  }

  lemma OneElementIs(g: G.Dialect, f: W.Format, items: seq<Value>, d: nat)
    requires items != [] && items[1..] != [] && IsTree(g, f, items[0], d) && W.ValidFormat(f)
    requires AreElements(g, f, items[1..], d)
    ensures AreElements(g, f, items, d)
  {
    hide Gap, G.IsBlanks, G.Spelling, G.Legal, G.Meaning, G.Nesting, ItemTail, W.Render, Tree, Height;
    BlanksAre(f, d);
    ItemTailShape(f, items[1..], d);
    assert items == [items[0]] + items[1..];
    NoBlanksBefore("," + (Gap(f) + G.ElementsSpelling(ElementsOf(f, items[1..], d))));
  }

  lemma {:induction false} ElementsAre(g: G.Dialect, f: W.Format, items: seq<Value>, d: nat)
    requires g.unicode && W.ValidFormat(f) && items != [] && Printable(List(items))
    ensures AreElements(g, f, items, d)
    decreases items, 0
  {
    hide IsTree, AreElements, Printable;
    ItemsPrintable(items);
    TreeIs(g, f, items[0], d);
    if items[1..] == [] {
      LastElementIs(g, f, items, d);
    } else {
      ElementsAre(g, f, items[1..], d);
      OneElementIs(g, f, items, d);
    }
  }

  lemma {:induction false} ListIs(g: G.Dialect, f: W.Format, items: seq<Value>, d: nat)
    requires g.unicode && W.ValidFormat(f) && Printable(List(items))
    ensures IsTree(g, f, List(items), d)
    decreases items, 1
  {
    hide Gap, G.IsBlanks, ItemTail, ElementsOf, G.Items, G.LegalElements, G.ElementsNesting, ItemsHeight, G.ElementsSpelling,
      W.RenderItems, Printable, W.ValidFormat;
    ListShape(f, items, d);
    BlanksAre(f, d);
    if items == [] { NoElements(g, f, d); } else { ElementsAre(g, f, items, d); }
  }

  lemma NoElements(g: G.Dialect, f: W.Format, d: nat)
    ensures var es := ElementsOf(f, [], d);
            && G.ElementsSpelling(es) == "]" && G.LegalElements(g, es) && G.Items(g, es) == []
            && G.ElementsNesting(es) == 0 == ItemsHeight([])
  {
  }

  lemma EntriesPrintable(entries: seq<Entry>)
    requires entries != [] && Printable(Dict(entries))
    ensures Bytes(entries[0].key) && Printable(entries[0].value) && Printable(Dict(entries[1..]))
  {
    SortedTail(entries);
  }

  /** The members of a dictionary are the tree of its entries. */
  ghost predicate AreMembers(g: G.Dialect, f: W.Format, entries: seq<Entry>, d: nat)
    requires entries != []
  {
    var ms := MembersOf(f, entries, d);
    && G.MembersSpelling(ms) == EntryText(f, entries, d)
    && G.LegalMembers(g, ms) && G.Pairs(g, ms) == entries && G.MembersNesting(ms) == EntriesHeight(entries) && !ms.EndOfObject?
  }

  function PairFor(f: W.Format, e: Entry, d: nat): G.Pair {
    G.Pair(PiecesOf(e.key), "", Gap(f), Tree(f, e.value, d + 1))
  }

  lemma PairIs(g: G.Dialect, f: W.Format, e: Entry, d: nat, behind: string)
    requires g.unicode && Bytes(e.key) && IsTree(g, f, e.value, d + 1) && W.ValidFormat(f)
    ensures G.PairSpelling(PairFor(f, e, d), behind) == W.Quote(e.key) + (":" + (Gap(f) + (W.Render(f, e.value, d + 1) + behind)))
    ensures G.LegalPair(g, PairFor(f, e, d)) && G.PairMeaning(g, PairFor(f, e, d)) == e
    ensures G.Nesting(PairFor(f, e, d).value) == Height(e.value)
  {
    hide Gap, G.IsBlanks, G.Spelling, G.Legal, G.Meaning, G.Nesting, W.Render, Tree, Height, PiecesOf, G.TextSpelling, G.LegalText,
      G.TextMeaning, W.Quote, Bytes;
    BlanksAre(f, d);
    QuoteIs(g, e.key);
    NoBlanksBefore(":" + (Gap(f) + (W.Render(f, e.value, d + 1) + behind)));
  }

  lemma LastMemberIs(g: G.Dialect, f: W.Format, entries: seq<Entry>, d: nat)
    requires g.unicode && entries != [] && entries[1..] == [] && W.ValidFormat(f)
    requires Bytes(entries[0].key) && IsTree(g, f, entries[0].value, d + 1)
    ensures AreMembers(g, f, entries, d)
  {
    hide Gap, LineTo, G.IsBlanks, G.PairSpelling, G.LegalPair, G.PairMeaning, G.Nesting, W.Render, W.Quote, Tree, Height, EntryTail,
      PiecesOf, Bytes, IsTree;
    BlanksAre(f, d);
    EntryTailShape(f, entries[1..], d);
    PairIs(g, f, entries[0], d, LineTo(f, d) + "}");
    assert entries == [entries[0]];
    assert MembersOf(f, entries, d) == G.LastMember(PairFor(f, entries[0], d), LineTo(f, d));
    assert EntriesHeight(entries) == Height(entries[0].value);
  }

  lemma OneMemberIs(g: G.Dialect, f: W.Format, entries: seq<Entry>, d: nat)
    requires g.unicode && entries != [] && entries[1..] != [] && W.ValidFormat(f)
    requires Bytes(entries[0].key) && IsTree(g, f, entries[0].value, d + 1) && AreMembers(g, f, entries[1..], d)
    ensures AreMembers(g, f, entries, d)
  {
    hide Gap, LineTo, G.IsBlanks, G.PairSpelling, G.LegalPair, G.PairMeaning, G.Nesting, W.Render, W.Quote, Tree, Height, EntryTail,
      PiecesOf, Bytes, IsTree;
    BlanksAre(f, d);
    BlanksAre(f, d + 1);
    EntryTailShape(f, entries[1..], d);
    var rest := "," + (LineTo(f, d + 1) + G.MembersSpelling(MembersOf(f, entries[1..], d)));
    NoBlanksBefore(rest);
    PairIs(g, f, entries[0], d, rest);
    assert entries == [entries[0]] + entries[1..];
  }

  lemma {:induction false} MembersAre(g: G.Dialect, f: W.Format, entries: seq<Entry>, d: nat)
    requires g.unicode && W.ValidFormat(f) && entries != [] && Printable(Dict(entries))
    ensures AreMembers(g, f, entries, d)
    decreases entries, 0
  {
    hide IsTree, AreMembers, Printable, Bytes;
    EntriesPrintable(entries);
    TreeIs(g, f, entries[0].value, d + 1);
    if entries[1..] == [] {
      LastMemberIs(g, f, entries, d);
    } else {
      MembersAre(g, f, entries[1..], d);
      OneMemberIs(g, f, entries, d);
    }
  }

  lemma {:induction false} DictIs(g: G.Dialect, f: W.Format, entries: seq<Entry>, d: nat)
    requires g.unicode && W.ValidFormat(f) && Printable(Dict(entries))
    ensures IsTree(g, f, Dict(entries), d)
    decreases entries, 1
  {
    hide LineTo, G.IsBlanks, EntryText, MembersOf, G.Pairs, G.LegalMembers, G.MembersNesting, EntriesHeight, G.MembersSpelling,
      W.RenderEntries, Printable, W.ValidFormat, G.Gathered, Sorted;
    DictShape(f, entries, d);
    BlanksAre(f, d);
    BlanksAre(f, d + 1);
    SortedEntries(entries);
    GatheredSorted([], entries);
    assert [] + entries == entries;
    if entries == [] { NoMembers(g, f, d); } else { MembersAre(g, f, entries, d); }
  }

  lemma SortedEntries(entries: seq<Entry>)
    requires Printable(Dict(entries))
    ensures Sorted([] + entries)
  {
    hide Sorted, NoDoubles, AllBytes;
    assert [] + entries == entries;
  }

  lemma NoMembers(g: G.Dialect, f: W.Format, d: nat)
    ensures var ms := MembersOf(f, [], d);
            && G.MembersSpelling(ms) == "}" && G.LegalMembers(g, ms) && G.Pairs(g, ms) == []
            && G.MembersNesting(ms) == 0 == EntriesHeight([])
  {
  }

  /** Pairs in order of their keys are the dictionary. */
  lemma {:induction false} GatheredSorted(done: seq<Entry>, entries: seq<Entry>)
    requires Sorted(done + entries)
    ensures G.Gathered(done, entries) == done + entries
    decreases |entries|
  {
    hide Sorted, SetEntry;
    if entries == [] {
      assert done + entries == done;
    } else {
      AppendsEntry(done, entries);
      assert done + [entries[0]] + entries[1..] == done + entries;
      GatheredSorted(done + [entries[0]], entries[1..]);
    }
  }

  // ---- The whole output ------------------------------------------------------------------

  /** The printer's output denotes the value that was printed, whatever its strings, to every
      reader that understands \u escapes and goes as deep as the value. */
  lemma PrintedDenotes(g: G.Dialect, f: W.Format, v: Value)
    requires g.unicode
    requires W.ValidFormat(f) && WellFormed(v) && NoDoubles(v) && AllBytes(v)
    ensures G.Denotes(g, Height(v), W.WriteText(f, v), v)
  {
    hide W.Render, WellFormed, NoDoubles, AllBytes, W.ValidFormat, G.Spelling, G.Legal, G.Meaning, G.Nesting, Height, Tree, G.IsBlanks;
    TreeIs(g, f, v, 0);
    BlanksAre(f, 0);
    var end := W.When(f.pretty, f.lineEnding);
    var d := G.Document(false, "", Tree(f, v, 0), end);
    assert end[..|end|] == end;
    assert G.IsEnd(end);
    assert G.DocumentSpelling(d) == W.WriteText(f, v);
  }
}
