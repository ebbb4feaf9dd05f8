/** What the parser makes of the printer's output, for every tree without doubles. */
module JsonRoundTrip {
  import opened NumberConversions
  import opened Values
  import opened Wrappers
  import opened JsonReader
  import W = JsonWriter

  // ---- The trees that survive ------------------------------------------------------------

  /** Printable ASCII but for the angle brackets, and the five control characters \b \t \n \f \r. */
  predicate PlainChar(c: char) {
    || (32 <= c as int <= 126 && c != '<' && c != '>')
    || c as int == 8 || c as int == 9 || c as int == 10 || c as int == 12 || c as int == 13
  }

  predicate PlainString(s: string) {
    forall i :: 0 <= i < |s| ==> PlainChar(s[i])
  }

  /** Every other character is printed as a \u escape, which the parser cannot decode. */
  lemma PlainMeans(c: char)
    ensures PlainChar(c) <==> !W.NeedsHex(c)
  {
  }

  predicate Plain(v: Value)
    decreases v, 1
  {
    match v
    case Str(s) => PlainString(s)
    case List(items) => PlainItems(items)
    case Dict(entries) => PlainEntries(entries)
    case _ => true
  }

  predicate PlainItems(items: seq<Value>)
    decreases items, 0
  {
    items == [] || (Plain(items[0]) && PlainItems(items[1..]))
  }

  predicate PlainEntries(entries: seq<Entry>)
    decreases entries, 0
  {
    entries == [] || (PlainString(entries[0].key) && Plain(entries[0].value) && PlainEntries(entries[1..]))
  }

  predicate NoDoubles(v: Value)
    decreases v
  {
    match v
    case Double(_) => false
    case List(items) => forall i :: 0 <= i < |items| ==> NoDoubles(items[i])
    case Dict(entries) => forall i :: 0 <= i < |entries| ==> NoDoubles(entries[i].value)
    case _ => true
  }

  /** The first error the parser meets, in document order, when the value is entered at
      nesting depth `k`. A string it cannot decode leaves the error code as it was. */
  function FirstError(v: Value, k: nat): Option<ErrorCode>
    decreases v, 1
  {
    if k + 1 > STACK_LIMIT then Some(TooMuchNesting)
    else match v
      case Str(s) => if PlainString(s) then None else Some(NoError)
      case List(items) => FirstItemError(items, k + 1)
      case Dict(entries) => FirstEntryError(entries, k + 1)
      case _ => None
  }

  function FirstItemError(items: seq<Value>, k: nat): Option<ErrorCode>
    decreases items, 0
  {
    if items == [] then None
    else if FirstError(items[0], k).Some? then FirstError(items[0], k)
    else FirstItemError(items[1..], k)
  }

  function FirstEntryError(entries: seq<Entry>, k: nat): Option<ErrorCode>
    decreases entries, 0
  {
    if entries == [] then None
    else if !PlainString(entries[0].key) then Some(NoError)
    else if FirstError(entries[0].value, k).Some? then FirstError(entries[0].value, k)
    else FirstEntryError(entries[1..], k)
  }

  /** There is no error exactly for plain trees that stay within the nesting limit, and for a
      plain tree that does not the error is the nesting. */
  lemma {:induction false} FirstErrorMeaning(v: Value, k: nat)
    ensures FirstError(v, k).None? <==> Plain(v) && k + Height(v) <= STACK_LIMIT
    ensures Plain(v) && FirstError(v, k).Some? ==> FirstError(v, k) == Some(TooMuchNesting)
    decreases v, 1
  {
    match v
    case List(items) => ItemErrorMeaning(items, k + 1);
    case Dict(entries) => EntryErrorMeaning(entries, k + 1);
    case _ =>
  }

  lemma {:induction false} ItemErrorMeaning(items: seq<Value>, k: nat)
    ensures FirstItemError(items, k).None? <==> PlainItems(items) && (items == [] || k + ItemsHeight(items) <= STACK_LIMIT)
    ensures PlainItems(items) && FirstItemError(items, k).Some? ==> FirstItemError(items, k) == Some(TooMuchNesting)
    decreases items, 0
  {
    if items != [] {
      FirstErrorMeaning(items[0], k);
      ItemErrorMeaning(items[1..], k);
    }
  }

  lemma {:induction false} EntryErrorMeaning(entries: seq<Entry>, k: nat)
    ensures FirstEntryError(entries, k).None?
       <==> PlainEntries(entries) && (entries == [] || k + EntriesHeight(entries) <= STACK_LIMIT)
    ensures PlainEntries(entries) && FirstEntryError(entries, k).Some?
        ==> FirstEntryError(entries, k) == Some(TooMuchNesting)
    decreases entries, 0
  {
    if entries != [] {
      FirstErrorMeaning(entries[0].value, k);
      EntryErrorMeaning(entries[1..], k);
    }
  }

  // ---- Words and blanks of a text --------------------------------------------------------

  lemma WordSplit(text: string, p: nat, a: string, b: string)
    requires HasWord(text, p, a + b)
    ensures HasWord(text, p, a) && HasWord(text, p + |a|, b)
  {
    var w := text[p..p + |a| + |b|];
    assert w[..|a|] == a && w[|a|..] == b;
    assert text[p..p + |a|] == w[..|a|];
    assert text[p + |a|..p + |a| + |b|] == w[|a|..];
  }

  lemma WordChar(text: string, p: nat, w: string, i: nat)
    requires HasWord(text, p, w) && i < |w|
    ensures text[p + i] == w[i]
  {
    assert text[p..p + |w|][i] == w[i];
  }

  lemma WholeWord(text: string)
    ensures HasWord(text, 0, text)
  {
    assert text[0..|text|] == text;
  }

  predicate AllWhite(s: string) {
    forall i :: 0 <= i < |s| ==> IsWhite(s[i])
  }

  lemma {:induction false} SkipWord(text: string, p: nat, blanks: string)
    requires HasWord(text, p, blanks) && AllWhite(blanks)
    ensures SkipBlanks(text, p) == SkipBlanks(text, p + |blanks|)
    decreases |blanks|
  {
    if blanks != [] {
      WordChar(text, p, blanks, 0);
      assert blanks == [blanks[0]] + blanks[1..];
      WordSplit(text, p, [blanks[0]], blanks[1..]);
      SkipWord(text, p + 1, blanks[1..]);
    }
  }

  predicate NoBlank(c: char) {
    !IsWhite(c) && c != '/'
  }

  /** Blanks and then a word that starts with something else. */
  lemma LexWord(text: string, p: nat, blanks: string, word: string, err: ErrorCode)
    requires HasWord(text, p, blanks + word) && AllWhite(blanks)
    requires word != [] && NoBlank(word[0])
    ensures HasWord(text, p + |blanks|, word)
    ensures text[p + |blanks|] == word[0]
    ensures SkipBlanks(text, p) == p + |blanks|
    ensures var t := TokenAt(text, p + |blanks|, err); Lex(text, p, err) == Lexed(t.0, p + |blanks|, t.1)
  {
    hide TokenAt;
    WordSplit(text, p, blanks, word);
    SkipWord(text, p, blanks);
    WordChar(text, p + |blanks|, word, 0);
  }

  lemma LexHere(text: string, p: nat, word: string, err: ErrorCode)
    requires HasWord(text, p, word) && word != [] && NoBlank(word[0])
    ensures text[p] == word[0] && SkipBlanks(text, p) == p
    ensures var t := TokenAt(text, p, err); Lex(text, p, err) == Lexed(t.0, p, t.1)
  {
    hide TokenAt;
    WordChar(text, p, word, 0);
  }

  // ---- Strings ---------------------------------------------------------------------------

  lemma EscapeShape(c: char)
    ensures var e := W.EscapeChar(c);
            || (e == [c] && c != '\\' && c != '"' && !W.NeedsHex(c))
            || (|e| == 2 && e[0] == '\\' && IsSimpleEscape(e[1]) && Unescaped(e[1]) == c && !W.NeedsHex(c))
            || (|e| == 6 && e[0] == '\\' && e[1] == 'u' && (forall i :: 2 <= i < 6 ==> IsHexDigit(e[i])) && W.NeedsHex(c))
  {
  }

  /** The characters of an escape, where the text holds one. */
  lemma EscapeAt(text: string, p: nat, c: char)
    requires HasWord(text, p, W.EscapeChar(c))
    ensures var e := W.EscapeChar(c);
            || (|e| == 1 && text[p] == c && c != '\\' && c != '"' && !W.NeedsHex(c))
            || (|e| == 2 && text[p] == '\\' && IsSimpleEscape(text[p + 1]) && Unescaped(text[p + 1]) == c && !W.NeedsHex(c))
            || (|e| == 6 && text[p] == '\\' && text[p + 1] == 'u' && HexRun(text, p + 2, 4) && W.NeedsHex(c))
  {
    var e := W.EscapeChar(c);
    EscapeShape(c);
    forall i | 0 <= i < |e| ensures text[p + i] == e[i] {
      WordChar(text, p, e, i);
    }
    assert text[p + 0] == e[0];
    if |e| == 6 {
      forall j | p + 2 <= j < p + 6 ensures IsHexDigit(text[j]) {
        assert text[p + (j - p)] == e[j - p];
      }
    }
  }

  lemma ScanStep(text: string, p: nat, i: nat, c: char)
    requires HasWord(text, p + i, W.EscapeChar(c))
    ensures ScanString(text, p, i) == ScanString(text, p, i + |W.EscapeChar(c)|)
  {
    hide W.EscapeChar, W.NeedsHex, HexRun;
    EscapeAt(text, p + i, c);
  }

  lemma {:induction false} ScanEscaped(text: string, p: nat, i: nat, s: string)
    requires HasWord(text, p + i, W.Escape(s) + "\"")
    ensures ScanString(text, p, i) == Closed(i + |W.Escape(s)| + 1)
    decreases |s|
  {
    hide W.EscapeChar;
    if s == [] {
      assert W.Escape(s) + "\"" == "\"";
      WordChar(text, p + i, "\"", 0);
    } else {
      var e, rest := W.EscapeChar(s[0]), W.Escape(s[1..]) + "\"";
      assert W.Escape(s) + "\"" == e + rest;
      WordSplit(text, p + i, e, rest);
      ScanStep(text, p, i, s[0]);
      assert p + i + |e| == p + (i + |e|);
      ScanEscaped(text, p, i + |e|, s[1..]);
    }
  }

  lemma PlainHeadTail(s: string)
    requires s != []
    ensures PlainString(s) <==> !W.NeedsHex(s[0]) && PlainString(s[1..])
  {
    PlainMeans(s[0]);
    hide W.NeedsHex, PlainChar;
    forall j | 1 <= j < |s| ensures s[j] == s[1..][j - 1] {
    }
  }

  lemma DecodeStep(text: string, p: nat, length: nat, i: nat, c: char)
    requires p + length <= |text| && HasWord(text, p + i, W.EscapeChar(c))
    requires i + |W.EscapeChar(c)| < length
    ensures DecodeFrom(text, p, length, i)
         == if W.NeedsHex(c) then None else Prepend(c, DecodeFrom(text, p, length, i + |W.EscapeChar(c)|))
  {
    hide W.EscapeChar, W.NeedsHex, HexRun;
    EscapeAt(text, p + i, c);
  }

  lemma {:induction false} DecodeEscaped(text: string, p: nat, length: nat, i: nat, s: string)
    requires p + length <= |text| && HasWord(text, p + i, W.Escape(s) + "\"")
    requires length == i + |W.Escape(s)| + 1
    ensures DecodeFrom(text, p, length, i) == if PlainString(s) then Some(s) else None
    decreases |s|
  {
    hide W.EscapeChar, W.NeedsHex, PlainChar;
    if s != [] {
      var e, rest := W.EscapeChar(s[0]), W.Escape(s[1..]) + "\"";
      assert W.Escape(s) + "\"" == e + rest;
      WordSplit(text, p + i, e, rest);
      DecodeStep(text, p, length, i, s[0]);
      PlainHeadTail(s);
      assert p + i + |e| == p + (i + |e|);
      DecodeEscaped(text, p, length, i + |e|, s[1..]);
      assert s == [s[0]] + s[1..];
    }
  }

  /** A printed string is one token, and decodes to the string unless it holds a \u escape. */
  lemma QuotedToken(text: string, p: nat, s: string, err: ErrorCode)
    requires HasWord(text, p, W.Quote(s))
    ensures TokenAt(text, p, err) == (Token(StringToken, |W.Quote(s)|), err)
    ensures DecodeString(text, p, |W.Quote(s)|) == if PlainString(s) then Some(s) else None
  {
    hide HasWord, PlainString, W.Escape, W.NeedsHex;
    assert W.Quote(s) == "\"" + (W.Escape(s) + "\"");
    WordSplit(text, p, "\"", W.Escape(s) + "\"");
    WordChar(text, p, "\"", 0);
    ScanEscaped(text, p, 1, s);
    DecodeEscaped(text, p, |W.Quote(s)|, 1, s);
  }

  // ---- Numbers ---------------------------------------------------------------------------

  /** What may follow a number without becoming part of it. */
  predicate EndsNumber(c: char) {
    !IsDigit(c) && c != '.' && c != 'e' && c != 'E'
  }

  lemma {:induction false} DigitRun(s: string, n: nat)
    requires n <= |s| && forall i :: 0 <= i < n ==> IsDigit(s[i])
    requires n < |s| ==> !IsDigit(s[n])
    ensures LeadingDigits(s) == n
  {
    if n > 0 {
      DigitRun(s[1..], n - 1);
    }
  }

  lemma ReadDecimal(text: string, p: nat, n: nat)
    requires HasWord(text, p, DecimalText(n)) && !IsDigit(At(text, p + |DecimalText(n)|))
    ensures ReadInt(text, p, false) == Some(p + |DecimalText(n)|)
  {
    var digits := DecimalText(n);
    forall i | 0 <= i < |digits| ensures IsDigit(text[p..][i]) {
      WordChar(text, p, digits, i);
    }
    DigitRun(text[p..], |digits|);
    DecimalTextStart(n);
    WordChar(text, p, digits, 0);
  }

  lemma IntEnd(text: string, p: nat, v: int32)
    requires HasWord(text, p, IntText(v)) && EndsNumber(At(text, p + |IntText(v)|))
    ensures NumberEnd(text, p) == Some(p + |IntText(v)|)
    ensures text[p] == '-' || IsDigit(text[p])
  {
    hide ReadInt, DecimalText, HasWord;
    if v < 0 {
      var magnitude: int := 0 - v;
      WordSplit(text, p, "-", DecimalText(magnitude));
      WordChar(text, p, "-", 0);
      ReadDecimal(text, p + 1, magnitude);
    } else {
      ReadDecimal(text, p, v);
      WordChar(text, p, DecimalText(v), 0);
    }
  }

  lemma IntToken(text: string, p: nat, v: int32, err: ErrorCode)
    requires HasWord(text, p, IntText(v)) && EndsNumber(At(text, p + |IntText(v)|))
    ensures TokenAt(text, p, err) == (Token(NumberToken, |IntText(v)|), err)
    ensures ParseInt(text[p..p + |IntText(v)|], HALF_32) == Some(v)
  {
    hide NumberEnd, ParseInt, IntText;
    IntEnd(text, p, v);
    IntRoundTrip(v, HALF_32);
  }

  // ---- The printed text, regrouped as the parser meets it --------------------------------

  function Gap(f: W.Format): string {
    W.When(f.pretty, " ")
  }

  /** What follows an item: the other items and the closing bracket. */
  function ItemTail(f: W.Format, items: seq<Value>, d: nat): string {
    W.RenderItems(f, items, d, false) + (Gap(f) + "]")
  }

  lemma ItemTailShape(f: W.Format, items: seq<Value>, d: nat)
    ensures ItemTail(f, items, d) == if items == [] then Gap(f) + "]"
              else "," + (Gap(f) + (W.Render(f, items[0], d) + ItemTail(f, items[1..], d)))
  {
    hide W.Render;
    if items != [] {
      var value, rest := W.Render(f, items[0], d), W.RenderItems(f, items[1..], d, false);
      Regroup(",", Gap(f), value, rest, Gap(f) + "]");
    }
  }

  lemma Regroup(a: string, b: string, c: string, d: string, e: string)
    ensures (a + b) + (c + d) + e == a + (b + (c + (d + e)))
  {
  }

  lemma ListShape(f: W.Format, items: seq<Value>, d: nat)
    ensures W.Render(f, List(items), d) == "[" + (
              if items == [] then (Gap(f) + Gap(f)) + "]"
              else Gap(f) + (W.Render(f, items[0], d) + ItemTail(f, items[1..], d)))
  {
    if items != [] {
      var value, rest := W.Render(f, items[0], d), W.RenderItems(f, items[1..], d, false);
      W.Assoc(value, rest, Gap(f) + "]");
    }
  }

  function LineTo(f: W.Format, d: nat): string {
    W.When(f.pretty, f.lineEnding + W.Spaces(d * 3))
  }

  /** What follows a member: the other members and the closing brace. */
  function EntryTail(f: W.Format, entries: seq<Entry>, d: nat): string {
    W.RenderEntries(f, entries, d, false) + (LineTo(f, d) + "}")
  }

  /** The text from a member's key on. */
  function EntryText(f: W.Format, entries: seq<Entry>, d: nat): string
    requires entries != []
  {
    W.Quote(entries[0].key) + (":" + (Gap(f) + (W.Render(f, entries[0].value, d + 1) + EntryTail(f, entries[1..], d))))
  }

  lemma KeyedEntries(f: W.Format, entries: seq<Entry>, d: nat, first: bool)
    requires entries != []
    ensures W.RenderEntries(f, entries, d, first) + (LineTo(f, d) + "}")
         == W.EntrySeparator(f, first, d) + EntryText(f, entries, d)
  {
    hide W.Render, W.Quote, LineTo, W.EntrySeparator;
    var sep, key := W.EntrySeparator(f, first, d), W.Quote(entries[0].key);
    var value, rest := W.Render(f, entries[0].value, d + 1), W.RenderEntries(f, entries[1..], d, false);
    var close := LineTo(f, d) + "}";
    W.Assoc(sep, W.KeyText(f, entries[0].key) + (value + rest), close);
    W.Assoc(key + (":" + Gap(f)), value + rest, close);
    W.Assoc(value, rest, close);
    W.Assoc(key, ":" + Gap(f), value + (rest + close));
    W.Assoc(":", Gap(f), value + (rest + close));
  }

  lemma EntryTailShape(f: W.Format, entries: seq<Entry>, d: nat)
    ensures EntryTail(f, entries, d) == if entries == [] then LineTo(f, d) + "}"
              else "," + (LineTo(f, d + 1) + EntryText(f, entries, d))
  {
    hide W.Render, W.Quote, EntryText;
    if entries != [] {
      KeyedEntries(f, entries, d, false);
      assert W.EntrySeparator(f, false, d) == "," + LineTo(f, d + 1);
      W.Assoc(",", LineTo(f, d + 1), EntryText(f, entries, d));
    }
  }

  lemma DictShape(f: W.Format, entries: seq<Entry>, d: nat)
    ensures W.Render(f, Dict(entries), d) == "{" + (
              if entries == [] then (W.When(f.pretty, f.lineEnding) + LineTo(f, d)) + "}"
              else LineTo(f, d + 1) + EntryText(f, entries, d))
  {
    hide W.Quote, EntryText;
    var open := W.When(f.pretty, f.lineEnding);
    if entries == [] {
      W.Assoc(open, LineTo(f, d), "}");
    } else {
      KeyedEntries(f, entries, d, true);
      assert open + W.EntrySeparator(f, true, d) == LineTo(f, d + 1);
      W.Assoc(open, W.EntrySeparator(f, true, d), EntryText(f, entries, d));
    }
  }

  lemma BlankPieces(f: W.Format, d: nat)
    requires W.ValidFormat(f)
    ensures AllWhite(Gap(f)) && AllWhite(Gap(f) + Gap(f)) && AllWhite(LineTo(f, d))
    ensures AllWhite(W.When(f.pretty, f.lineEnding) + LineTo(f, d))
  {
  }

  // ---- Values ----------------------------------------------------------------------------

  /** No printed value starts with a blank, a comment or a closing bracket. */
  lemma RenderStart(f: W.Format, v: Value, d: nat)
    requires NoDoubles(v)
    ensures var r := W.Render(f, v, d); r != [] && NoBlank(r[0]) && r[0] != ']' && r[0] != '}'
    ensures var r := W.Render(f, v, d); r[0] as int < 128
  {
  }

  function KindOf(v: Value): Kind {
    match v
    case Null => NullToken
    case Bool(b) => if b then BoolTrue else BoolFalse
    case Int(_) => NumberToken
    case Double(_) => NumberToken
    case Str(_) => StringToken
    case List(_) => ArrayBegin
    case Dict(_) => ObjectBegin
  }

  /** The token a printed value starts with; for a scalar it is the whole text. */
  lemma ValueToken(text: string, p: nat, f: W.Format, v: Value, d: nat, err: ErrorCode)
    requires NoDoubles(v) && HasWord(text, p, W.Render(f, v, d))
    requires EndsNumber(At(text, p + |W.Render(f, v, d)|))
    ensures var length := if v.List? || v.Dict? then 1 else |W.Render(f, v, d)|;
            TokenAt(text, p, err) == (Token(KindOf(v), length), err)
  {
    hide W.Quote, IntText, NumberEnd;
    match v
    case Int(i) => IntToken(text, p, i, err);
    case Str(s) => QuotedToken(text, p, s, err);
    case Double(_) =>
    case _ => WordChar(text, p, W.Render(f, v, d), 0);
  }

  function Expected(v: Value, error: Option<ErrorCode>, end: nat): Outcome {
    match error
    case None => Built(v, end, NoError)
    case Some(err) => Failed(err)
  }

  function TokenLex(text: string, p: nat): Lexed
    requires p <= |text|
  {
    var t := TokenAt(text, p, NoError);
    Lexed(t.0, p, t.1)
  }

  lemma ScalarDecodes(c: Config, q: nat, f: W.Format, v: Value, d: nat)
    requires HasWord(c.text, q, W.Render(f, v, d)) && EndsNumber(At(c.text, q + |W.Render(f, v, d)|))
    ensures var length := |W.Render(f, v, d)|;
            && (v.Int? ==> DecodeNumber(c, c.text[q..q + length]) == Some(v))
            && (v.Str? ==> DecodeString(c.text, q, length) == if PlainString(v.s) then Some(v.s) else None)
  {
    hide TokenAt, DecodeString, ParseInt;
    match v
    case Int(i) => IntToken(c.text, q, i, NoError);
    case Str(s) => QuotedToken(c.text, q, s, NoError);
    case _ =>
  }

  /** The parser makes of a printed value the value itself, or stops with its first error. */
  lemma {:induction false} ReadsValue(c: Config, p: nat, q: nat, k: nat, f: W.Format, v: Value, d: nat, isRoot: bool)
    requires p <= |c.text| && SkipBlanks(c.text, p) == q && HasWord(c.text, q, W.Render(f, v, d))
    requires EndsNumber(At(c.text, q + |W.Render(f, v, d)|))
    requires W.ValidFormat(f) && WellFormed(v) && NoDoubles(v)
    requires isRoot ==> v.List? || v.Dict?
    ensures Build(c, p, k, NoError, isRoot) == Expected(v, FirstError(v, k), q + |W.Render(f, v, d)|)
    decreases v, 2
  {
    hide HasWord, TokenAt, DecodeString, DecodeNumber, SkipBlanks, W.Render, BuildArray, BuildObject, EndsNumber;
    ValueToken(c.text, q, f, v, d, NoError);
    if k + 1 <= STACK_LIMIT {
      match v
      case Int(_) => ScalarDecodes(c, q, f, v, d);
      case Str(_) => ScalarDecodes(c, q, f, v, d);
      case List(items) => ReadsList(c, q, k + 1, f, items, d);
      case Dict(entries) => ReadsDict(c, q, k + 1, f, entries, d);
      case _ =>
    }
  }

  lemma Punctuation(text: string, p: nat, err: ErrorCode)
    requires p < |text|
    ensures text[p] == ']' ==> TokenAt(text, p, err) == (Token(ArrayEnd, 1), err)
    ensures text[p] == '}' ==> TokenAt(text, p, err) == (Token(ObjectEnd, 1), err)
    ensures text[p] == ',' ==> TokenAt(text, p, err) == (Token(ListSeparator, 1), err)
    ensures text[p] == ':' ==> TokenAt(text, p, err) == (Token(PairSeparator, 1), err)
  {
  }

  lemma ReadsEmptyList(c: Config, q: nat, k: nat, f: W.Format, d: nat)
    requires HasWord(c.text, q, W.Render(f, List([]), d)) && W.ValidFormat(f)
    ensures BuildArray(c, Lex(c.text, q + 1, NoError), k, []) == Built(List([]), q + |W.Render(f, List([]), d)|, NoError)
  {
    hide HasWord, TokenAt, SkipBlanks, W.Render, Build, Gap;
    ListShape(f, [], d);
    BlankPieces(f, d);
    var blanks := Gap(f) + Gap(f);
    WordSplit(c.text, q, "[", blanks + "]");
    LexWord(c.text, q + 1, blanks, "]", NoError);
    Punctuation(c.text, q + 1 + |blanks|, NoError);
  }

  lemma {:induction false} ReadsList(c: Config, q: nat, k: nat, f: W.Format, items: seq<Value>, d: nat)
    requires HasWord(c.text, q, W.Render(f, List(items), d))
    requires W.ValidFormat(f) && WellFormed(List(items)) && NoDoubles(List(items))
    ensures BuildArray(c, Lex(c.text, q + 1, NoError), k, [])
         == Expected(List(items), FirstItemError(items, k), q + |W.Render(f, List(items), d)|)
    decreases items, 2
  {
    hide HasWord, TokenAt, SkipBlanks, W.Render, BuildArray, ItemTail, Gap;
    if items == [] {
      ReadsEmptyList(c, q, k, f, d);
    } else {
      ListShape(f, items, d);
      BlankPieces(f, d);
      var word := W.Render(f, items[0], d) + ItemTail(f, items[1..], d);
      WordSplit(c.text, q, "[", Gap(f) + word);
      RenderStart(f, items[0], d);
      LexWord(c.text, q + 1, Gap(f), word, NoError);
      ReadsItems(c, q + 1 + |Gap(f)|, k, f, items, d, []);
      assert [] + items == items;
    }
  }

  lemma AfterLastItem(c: Config, p: nat, f: W.Format)
    requires HasWord(c.text, p, Gap(f) + "]") && W.ValidFormat(f)
    ensures Lex(c.text, p, NoError) == Lexed(Token(ArrayEnd, 1), p + |Gap(f)|, NoError)
    ensures EndsNumber(At(c.text, p))
  {
    hide HasWord, TokenAt, SkipBlanks;
    BlankPieces(f, 0);
    WordChar(c.text, p, Gap(f) + "]", 0);
    LexWord(c.text, p, Gap(f), "]", NoError);
    Punctuation(c.text, p + |Gap(f)|, NoError);
  }

  /** A comma, blanks and then the text of the next item or member. */
  lemma AfterSeparator(c: Config, p: nat, blanks: string, word: string)
    requires HasWord(c.text, p, "," + (blanks + word)) && AllWhite(blanks)
    requires word != [] && NoBlank(word[0])
    ensures Lex(c.text, p, NoError) == Lexed(Token(ListSeparator, 1), p, NoError)
    ensures HasWord(c.text, p + 1 + |blanks|, word)
    ensures Lex(c.text, p + 1, NoError) == TokenLex(c.text, p + 1 + |blanks|)
    ensures EndsNumber(At(c.text, p))
  {
    hide HasWord, TokenAt, SkipBlanks;
    LexHere(c.text, p, "," + (blanks + word), NoError);
    Punctuation(c.text, p, NoError);
    WordSplit(c.text, p, ",", blanks + word);
    LexWord(c.text, p + 1, blanks, word, NoError);
  }

  /** The token after an item: the closing bracket, or a comma and then the next item. */
  lemma AfterItem(c: Config, p: nat, f: W.Format, items: seq<Value>, d: nat)
    requires HasWord(c.text, p, ItemTail(f, items, d))
    requires W.ValidFormat(f) && NoDoubles(List(items))
    ensures EndsNumber(At(c.text, p))
    ensures var after := Lex(c.text, p, NoError);
            if items == [] then after == Lexed(Token(ArrayEnd, 1), p + |Gap(f)|, NoError)
            else
              && after == Lexed(Token(ListSeparator, 1), p, NoError)
              && var q := p + 1 + |Gap(f)|;
                 && HasWord(c.text, q, W.Render(f, items[0], d) + ItemTail(f, items[1..], d))
                 && Lex(c.text, p + 1, NoError) == TokenLex(c.text, q)
  {
    hide *;
    ItemTailShape(f, items, d);
    if items == [] {
      AfterLastItem(c, p, f);
    } else {
      BlankPieces(f, d);
      HeadHasNoDoubles(items);
      RenderStart(f, items[0], d);
      AfterSeparator(c, p, Gap(f), W.Render(f, items[0], d) + ItemTail(f, items[1..], d));
    }
  }

  /** One turn of the item loop. */
  lemma {:induction false} ReadsItem(c: Config, q: nat, k: nat, f: W.Format, items: seq<Value>, d: nat, done: seq<Value>)
    requires items != [] && HasWord(c.text, q, W.Render(f, items[0], d) + ItemTail(f, items[1..], d))
    requires W.ValidFormat(f) && WellFormed(items[0]) && NoDoubles(items[0]) && NoDoubles(List(items[1..]))
    ensures var p := q + |W.Render(f, items[0], d)|; var more := done + [items[0]]; var next := p + 1 + |Gap(f)|;
            && (items[1..] != [] ==> HasWord(c.text, next, W.Render(f, items[1], d) + ItemTail(f, items[2..], d)))
            && BuildArray(c, TokenLex(c.text, q), k, done)
               == match FirstError(items[0], k)
                  case Some(err) => Failed(err)
                  case None =>
                    if items[1..] == [] then Built(List(more), p + |Gap(f)| + 1, NoError)
                    else BuildArray(c, TokenLex(c.text, next), k, more)
    decreases items, 0
  {
    hide HasWord, TokenAt, SkipBlanks, W.Render, Build, ItemTail, Lex, Gap, EndsNumber, WellFormed, NoDoubles, FirstError,
      W.ValidFormat, BuildObject, ScanString, At;
    var value, tail := W.Render(f, items[0], d), ItemTail(f, items[1..], d);
    var p := q + |value|;
    WordSplit(c.text, q, value, tail);
    AfterItem(c, p, f, items[1..], d);
    RenderStart(f, items[0], d);
    LexHere(c.text, q, value, NoError);
    ValueToken(c.text, q, f, items[0], d, NoError);
    ReadsValue(c, q, q, k, f, items[0], d, false);
    if items[1..] != [] {
      assert items[1..][0] == items[1] && items[1..][1..] == items[2..];
      NextHasNoDoubles(items);
      ValueTokenAt(c, p + 1 + |Gap(f)|, f, items[1], d, ItemTail(f, items[2..], d));
    }
  }

  lemma HeadHasNoDoubles(items: seq<Value>)
    requires items != [] && NoDoubles(List(items))
    ensures NoDoubles(items[0])
  {
  }

  lemma NextHasNoDoubles(items: seq<Value>)
    requires |items| > 1 && NoDoubles(List(items[1..]))
    ensures NoDoubles(items[1])
  {
    assert items[1..][0] == items[1];
  }

  lemma {:induction false} ReadsItems(c: Config, q: nat, k: nat, f: W.Format, items: seq<Value>, d: nat, done: seq<Value>)
    requires items != [] && HasWord(c.text, q, W.Render(f, items[0], d) + ItemTail(f, items[1..], d))
    requires W.ValidFormat(f) && WellFormed(List(items)) && NoDoubles(List(items))
    ensures BuildArray(c, TokenLex(c.text, q), k, done)
         == Expected(List(done + items), FirstItemError(items, k),
                     q + |W.Render(f, items[0], d)| + |ItemTail(f, items[1..], d)|)
    decreases items, 1
  {
    hide HasWord, TokenLex, BuildArray, W.Render, ItemTail, Gap, FirstError, WellFormed, NoDoubles, W.ValidFormat;
    var rest := items[1..];
    ItemsFormed(items);
    ReadsItem(c, q, k, f, items, d, done);
    ItemTailShape(f, rest, d);
    if rest == [] {
      assert done + items == done + [items[0]];
    } else if FirstError(items[0], k).None? {
      assert rest[0] == items[1] && rest[1..] == items[2..];
      assert done + [items[0]] + rest == done + items;
      ReadsItems(c, q + |W.Render(f, items[0], d)| + 1 + |Gap(f)|, k, f, rest, d, done + [items[0]]);
    }
  }

  lemma ItemsFormed(items: seq<Value>)
    requires items != [] && WellFormed(List(items)) && NoDoubles(List(items))
    ensures WellFormed(items[0]) && NoDoubles(items[0])
    ensures WellFormed(List(items[1..])) && NoDoubles(List(items[1..]))
  {
  }

  /** The next item does not look like the end of the list. */
  lemma ValueTokenAt(c: Config, p: nat, f: W.Format, v: Value, d: nat, tail: string)
    requires NoDoubles(v) && HasWord(c.text, p, W.Render(f, v, d) + tail)
    ensures !TokenAt(c.text, p, NoError).0.kind.ArrayEnd?
  {
    RenderStart(f, v, d);
    WordChar(c.text, p, W.Render(f, v, d) + tail, 0);
  }

  lemma ReadsEmptyDict(c: Config, q: nat, k: nat, f: W.Format, d: nat)
    requires HasWord(c.text, q, W.Render(f, Dict([]), d)) && W.ValidFormat(f)
    ensures BuildObject(c, Lex(c.text, q + 1, NoError), k, []) == Built(Dict([]), q + |W.Render(f, Dict([]), d)|, NoError)
  {
    hide HasWord, TokenAt, SkipBlanks, W.Render, Build, LineTo;
    DictShape(f, [], d);
    BlankPieces(f, d);
    var blanks := W.When(f.pretty, f.lineEnding) + LineTo(f, d);
    WordSplit(c.text, q, "{", blanks + "}");
    LexWord(c.text, q + 1, blanks, "}", NoError);
    Punctuation(c.text, q + 1 + |blanks|, NoError);
  }

  lemma {:induction false} ReadsDict(c: Config, q: nat, k: nat, f: W.Format, entries: seq<Entry>, d: nat)
    requires HasWord(c.text, q, W.Render(f, Dict(entries), d))
    requires W.ValidFormat(f) && WellFormed(Dict(entries)) && NoDoubles(Dict(entries))
    ensures BuildObject(c, Lex(c.text, q + 1, NoError), k, [])
         == Expected(Dict(entries), FirstEntryError(entries, k), q + |W.Render(f, Dict(entries), d)|)
    decreases entries, 2
  {
    hide HasWord, TokenAt, SkipBlanks, W.Render, BuildObject, EntryText, LineTo, PlainString;
    if entries == [] {
      ReadsEmptyDict(c, q, k, f, d);
    } else {
      DictShape(f, entries, d);
      BlankPieces(f, d + 1);
      var word := EntryText(f, entries, d);
      WordSplit(c.text, q, "{", LineTo(f, d + 1) + word);
      KeyStart(f, entries, d);
      LexWord(c.text, q + 1, LineTo(f, d + 1), word, NoError);
      assert [] + entries == entries;
      ReadsEntries(c, q + 1 + |LineTo(f, d + 1)|, k, f, entries, d, []);
    }
  }

  lemma KeyStart(f: W.Format, entries: seq<Entry>, d: nat)
    requires entries != []
    ensures EntryText(f, entries, d) != [] && EntryText(f, entries, d)[0] == '"'
  {
  }

  lemma AfterLastMember(c: Config, p: nat, f: W.Format, d: nat)
    requires HasWord(c.text, p, LineTo(f, d) + "}") && W.ValidFormat(f)
    ensures Lex(c.text, p, NoError) == Lexed(Token(ObjectEnd, 1), p + |LineTo(f, d)|, NoError)
    ensures EndsNumber(At(c.text, p))
  {
    hide HasWord, TokenAt, SkipBlanks;
    BlankPieces(f, d);
    WordChar(c.text, p, LineTo(f, d) + "}", 0);
    LexWord(c.text, p, LineTo(f, d), "}", NoError);
    Punctuation(c.text, p + |LineTo(f, d)|, NoError);
  }

  /** The token after a member: the closing brace, or a comma and then the next key. */
  lemma AfterMember(c: Config, p: nat, f: W.Format, entries: seq<Entry>, d: nat)
    requires HasWord(c.text, p, EntryTail(f, entries, d))
    requires W.ValidFormat(f)
    ensures EndsNumber(At(c.text, p))
    ensures var after := Lex(c.text, p, NoError);
            if entries == [] then after == Lexed(Token(ObjectEnd, 1), p + |LineTo(f, d)|, NoError)
            else
              && after == Lexed(Token(ListSeparator, 1), p, NoError)
              && var q := p + 1 + |LineTo(f, d + 1)|;
                 && HasWord(c.text, q, EntryText(f, entries, d))
                 && Lex(c.text, p + 1, NoError) == TokenLex(c.text, q)
  {
    hide HasWord, TokenAt, SkipBlanks, EntryText, EntryTail, LineTo, EndsNumber, Lex, TokenLex;
    EntryTailShape(f, entries, d);
    if entries == [] {
      AfterLastMember(c, p, f, d);
    } else {
      BlankPieces(f, d + 1);
      KeyStart(f, entries, d);
      AfterSeparator(c, p, LineTo(f, d + 1), EntryText(f, entries, d));
    }
  }

  /** From a key to the value behind its colon. */
  lemma KeyAndColon(c: Config, q: nat, f: W.Format, entries: seq<Entry>, d: nat)
    requires entries != [] && HasWord(c.text, q, EntryText(f, entries, d))
    requires W.ValidFormat(f) && NoDoubles(entries[0].value)
    ensures var key := W.Quote(entries[0].key); var p := q + |key| + 1; var start := p + |Gap(f)|;
            && TokenLex(c.text, q) == Lexed(Token(StringToken, |key|), q, NoError)
            && DecodeString(c.text, q, |key|) == (if PlainString(entries[0].key) then Some(entries[0].key) else None)
            && Lex(c.text, q + |key|, NoError) == Lexed(Token(PairSeparator, 1), q + |key|, NoError)
            && HasWord(c.text, start, W.Render(f, entries[0].value, d + 1) + EntryTail(f, entries[1..], d))
            && SkipBlanks(c.text, start) == start
            && Lex(c.text, p, NoError) == TokenLex(c.text, start)
  {
    hide HasWord, TokenAt, SkipBlanks, W.Render, EntryTail, W.Quote, DecodeString, Gap, PlainString;
    var key := W.Quote(entries[0].key);
    var word := W.Render(f, entries[0].value, d + 1) + EntryTail(f, entries[1..], d);
    BlankPieces(f, d);
    WordSplit(c.text, q, key, ":" + (Gap(f) + word));
    QuotedToken(c.text, q, entries[0].key, NoError);
    RenderStart(f, entries[0].value, d + 1);
    ColonAndGap(c.text, q + |key|, Gap(f), word);
  }

  lemma ColonAndGap(text: string, p: nat, gap: string, word: string)
    requires HasWord(text, p, ":" + (gap + word)) && AllWhite(gap)
    requires word != [] && NoBlank(word[0]) && word[0] as int < 128
    ensures var start := p + 1 + |gap|;
            && Lex(text, p, NoError) == Lexed(Token(PairSeparator, 1), p, NoError)
            && HasWord(text, start, word)
            && SkipBlanks(text, start) == start
            && Lex(text, p + 1, NoError) == TokenLex(text, start)
  {
    hide HasWord, TokenAt, SkipBlanks;
    LexHere(text, p, ":" + (gap + word), NoError);
    Punctuation(text, p, NoError);
    WordSplit(text, p, ":", gap + word);
    LexWord(text, p + 1, gap, word, NoError);
    LexHere(text, p + 1 + |gap|, word, NoError);
  }

  /** One turn of the member loop. */
  lemma {:induction false} ReadsMember(c: Config, q: nat, k: nat, f: W.Format, entries: seq<Entry>, d: nat, done: seq<Entry>)
    requires entries != [] && HasWord(c.text, q, EntryText(f, entries, d))
    requires W.ValidFormat(f) && WellFormed(entries[0].value) && NoDoubles(entries[0].value)
    requires entries[1..] != [] ==> NoDoubles(entries[1].value)
    ensures var key := entries[0].key; var p := MemberEnd(f, entries, d, q);
            var more := SetEntry(done, key, entries[0].value); var next := p + 1 + |LineTo(f, d + 1)|;
            && (entries[1..] != [] ==> HasWord(c.text, next, EntryText(f, entries[1..], d)))
            && BuildObject(c, TokenLex(c.text, q), k, done)
               == if !PlainString(key) then Failed(NoError)
                  else match FirstError(entries[0].value, k)
                    case Some(err) => Failed(err)
                    case None =>
                      if entries[1..] == [] then Built(Dict(more), p + |LineTo(f, d)| + 1, NoError)
                      else BuildObject(c, TokenLex(c.text, next), k, more)
    decreases entries, 0
  {
    hide HasWord, TokenAt, SkipBlanks, W.Render, Build, EntryTail, EntryText, Lex, W.Quote, DecodeString, PlainString,
      SetEntry, Gap, LineTo, EndsNumber, WellFormed, NoDoubles, FirstError, W.ValidFormat, KindOf, BuildArray, ScanString, At;
    KeyAndColon(c, q, f, entries, d);
    var start := q + |W.Quote(entries[0].key)| + 1 + |Gap(f)|;
    var p := MemberEnd(f, entries, d, q);
    WordSplit(c.text, start, W.Render(f, entries[0].value, d + 1), EntryTail(f, entries[1..], d));
    AfterMember(c, p, f, entries[1..], d);
    ValueToken(c.text, start, f, entries[0].value, d + 1, NoError);
    ReadsValue(c, start, start, k, f, entries[0].value, d + 1, false);
    if entries[1..] != [] {
      KeyAndColon(c, p + 1 + |LineTo(f, d + 1)|, f, entries[1..], d);
    }
  }

  /** Where the text of the first member's value ends. */
  function MemberEnd(f: W.Format, entries: seq<Entry>, d: nat, q: nat): nat
    requires entries != []
  {
    q + |W.Quote(entries[0].key)| + 1 + |Gap(f)| + |W.Render(f, entries[0].value, d + 1)|
  }

  lemma MemberLength(f: W.Format, entries: seq<Entry>, d: nat, q: nat)
    requires entries != [] && W.ValidFormat(f)
    ensures q + |EntryText(f, entries, d)| == MemberEnd(f, entries, d, q)
         + if entries[1..] == [] then |LineTo(f, d)| + 1 else 1 + |LineTo(f, d + 1)| + |EntryText(f, entries[1..], d)|
  {
    hide W.Render, W.Quote, Gap, LineTo;
    EntryTailShape(f, entries[1..], d);
  }

  lemma {:induction false} ReadsEntries(c: Config, q: nat, k: nat, f: W.Format, entries: seq<Entry>, d: nat, done: seq<Entry>)
    requires entries != [] && HasWord(c.text, q, EntryText(f, entries, d))
    requires W.ValidFormat(f) && Sorted(done + entries)
    requires WellFormed(Dict(entries)) && NoDoubles(Dict(entries))
    ensures BuildObject(c, TokenLex(c.text, q), k, done)
         == Expected(Dict(done + entries), FirstEntryError(entries, k), q + |EntryText(f, entries, d)|)
    decreases entries, 1
  {
    hide HasWord, TokenLex, BuildObject, EntryText, PlainString, SetEntry, LineTo, Sorted, WellFormed, NoDoubles,
      MemberEnd, FirstError;
    HeadFormed(entries);
    if entries[1..] != [] {
      SortedTail(entries);
      HeadFormed(entries[1..]);
    }
    ReadsMember(c, q, k, f, entries, d, done);
    MemberLength(f, entries, d, q);
    AppendsEntry(done, entries);
    if entries[1..] == [] {
      assert done + entries == done + [entries[0]];
    } else if PlainString(entries[0].key) && FirstError(entries[0].value, k).None? {
      assert done + [entries[0]] + entries[1..] == done + entries;
      ReadsEntries(c, MemberEnd(f, entries, d, q) + 1 + |LineTo(f, d + 1)|, k, f, entries[1..], d, done + [entries[0]]);
    }
  }

  lemma HeadFormed(entries: seq<Entry>)
    requires entries != [] && WellFormed(Dict(entries)) && NoDoubles(Dict(entries))
    ensures WellFormed(entries[0].value) && NoDoubles(entries[0].value)
  {
  }

  lemma SortedTail(entries: seq<Entry>)
    requires entries != [] && WellFormed(Dict(entries)) && NoDoubles(Dict(entries))
    ensures WellFormed(Dict(entries[1..])) && NoDoubles(Dict(entries[1..]))
    ensures entries[1..] != [] ==> NoDoubles(entries[1..][0].value)
  {
    forall i, j | 0 <= i < j < |entries[1..]| ensures Less(entries[1..][i].key, entries[1..][j].key) {
      assert Less(entries[i + 1].key, entries[j + 1].key);
    }
  }

  lemma AppendsEntry(done: seq<Entry>, entries: seq<Entry>)
    requires entries != [] && Sorted(done + entries)
    ensures SetEntry(done, entries[0].key, entries[0].value) == done + [entries[0]]
  {
    forall e | e in done ensures Less(e.key, entries[0].key) {
      var i :| 0 <= i < |done| && done[i] == e;
      assert (done + entries)[i] == e && (done + entries)[|done|] == entries[0];
    }
    SetEntryAppends(done, entries[0].key, entries[0].value);
  }

  // ---- The round trip --------------------------------------------------------------------

  /** What reading the printed text gives, for every tree without doubles: the tree, the first
      error, or the complaint about a root that is no container. */
  lemma {:induction false} ReadsWritten(f: W.Format, v: Value, allowTrailingComma: bool,
                                        parseDouble: string -> Option<real>, checkRoot: bool)
    requires W.ValidFormat(f) && WellFormed(v) && NoDoubles(v)
    ensures Read(Config(W.WriteText(f, v), allowTrailingComma, parseDouble), checkRoot)
         == if checkRoot && !v.List? && !v.Dict? then Error(BadRootElementType)
            else match FirstError(v, 0)
              case None => Root(v)
              case Some(err) => Error(if err.NoError? then SyntaxError else err)
  {
    hide HasWord, TokenAt, SkipBlanks, W.Render, Build, EndsNumber, FirstError, WellFormed, NoDoubles, KindOf, BuildArray,
      BuildObject, At;
    var text := W.WriteText(f, v);
    var c := Config(text, allowTrailingComma, parseDouble);
    var r := W.Render(f, v, 0);
    var end := W.When(f.pretty, f.lineEnding);
    WholeWord(text);
    WordSplit(text, 0, r, end);
    RenderStart(f, v, 0);
    LexHere(text, 0, r, NoError);
    assert Start(text) == 0;
    AtEnd(text, |r|, end);
    ValueToken(text, 0, f, v, 0, NoError);
    if checkRoot && !v.List? && !v.Dict? {
      BadRoot(c, v);
    } else {
      ReadsValue(c, 0, 0, 0, f, v, 0, checkRoot);
    }
  }

  lemma AtEnd(text: string, p: nat, end: string)
    requires HasWord(text, p, end) && p + |end| == |text| && AllWhite(end)
    ensures Lex(text, p, NoError) == Lexed(Token(EndOfInput, 0), |text|, NoError)
    ensures EndsNumber(At(text, p))
  {
    SkipWord(text, p, end);
    if end != [] {
      WordChar(text, p, end, 0);
    }
  }

  lemma BadRoot(c: Config, v: Value)
    requires !v.List? && !v.Dict? && Lex(c.text, 0, NoError).token.kind == KindOf(v)
    ensures Build(c, 0, 0, NoError, true) == Failed(BadRootElementType)
  {
  }

  /** Reading undoes writing, compact and pretty, exactly for the trees within the nesting
      limit whose strings need no \u escape. */
  lemma RoundTrip(f: W.Format, v: Value, allowTrailingComma: bool, parseDouble: string -> Option<real>)
    requires W.ValidFormat(f) && WellFormed(v) && NoDoubles(v) && (v.List? || v.Dict?)
    ensures Read(Config(W.WriteText(f, v), allowTrailingComma, parseDouble), true) == Root(v)
       <==> Plain(v) && Height(v) <= STACK_LIMIT
  {
    ReadsWritten(f, v, allowTrailingComma, parseDouble, true);
    FirstErrorMeaning(v, 0);
  }

  /** A taller tree that would otherwise survive is rejected as too much nesting. */
  lemma TallTreeRejected(f: W.Format, v: Value, allowTrailingComma: bool, parseDouble: string -> Option<real>)
    requires W.ValidFormat(f) && WellFormed(v) && NoDoubles(v) && Plain(v) && Height(v) > STACK_LIMIT
    ensures Read(Config(W.WriteText(f, v), allowTrailingComma, parseDouble), true) == Error(TooMuchNesting)
  {
    ReadsWritten(f, v, allowTrailingComma, parseDouble, true);
    FirstErrorMeaning(v, 0);
  }

  // ---- Any text --------------------------------------------------------------------------

  ghost predicate Sound(r: Outcome, k: nat) {
    r.Built? ==> WellFormed(r.value) && k + Height(r.value) <= STACK_LIMIT
  }

  /** Whatever the text, a value the parser builds has ordered dictionaries with distinct
      keys, and the nesting limit bounds its height. */
  lemma {:induction false} BuildSound(c: Config, p: nat, k: nat, err: ErrorCode, isRoot: bool)
    requires p <= |c.text|
    ensures Sound(Build(c, p, k, err, isRoot), k)
    decreases |c.text| - p, 0
  {
    hide TokenAt, SkipBlanks, DecodeString, BuildArray, BuildObject;
    if k + 1 <= STACK_LIMIT {
      var l := Lex(c.text, p, err);
      if l.token.kind.ArrayBegin? {
        ArraySound(c, Lex(c.text, l.pos + l.token.length, l.err), k + 1, []);
      } else if l.token.kind.ObjectBegin? {
        ObjectSound(c, Lex(c.text, l.pos + l.token.length, l.err), k + 1, []);
      }
    }
  }

  lemma {:induction false} ArraySound(c: Config, l: Lexed, k: nat, items: seq<Value>)
    requires IsTokenAt(c.text, l.token, l.pos) && k <= STACK_LIMIT
    requires WellFormed(List(items)) && k + ItemsHeight(items) <= STACK_LIMIT
    ensures k > 0 ==> Sound(BuildArray(c, l, k, items), k - 1)
    decreases |c.text| - l.pos, 1
  {
    hide Lex, Build, ScanString, ItemsHeight;
    BuildSound(c, l.pos, k, l.err, false);
    var r := Build(c, l.pos, k, l.err, false);
    if !l.token.kind.ArrayEnd? && r.Built? {
      ItemsHeightSnoc(items, r.value);
      var after := Lex(c.text, r.pos, r.err);
      if after.token.kind.ListSeparator? {
        ArraySound(c, Lex(c.text, after.pos + after.token.length, after.err), k, items + [r.value]);
      }
    }
  }

  lemma {:induction false} ObjectSound(c: Config, l: Lexed, k: nat, entries: seq<Entry>)
    requires IsTokenAt(c.text, l.token, l.pos) && k <= STACK_LIMIT
    requires WellFormed(Dict(entries)) && k + EntriesHeight(entries) <= STACK_LIMIT
    ensures k > 0 ==> Sound(BuildObject(c, l, k, entries), k - 1)
    decreases |c.text| - l.pos, 1
  {
    hide Lex, Build, ScanString, EntriesHeight, SetEntry, DecodeString, WellFormed;
    if l.token.kind.StringToken? && DecodeString(c.text, l.pos, l.token.length).Some? {
      var key := DecodeString(c.text, l.pos, l.token.length).value;
      var colon := Lex(c.text, l.pos + l.token.length, l.err);
      if colon.token.kind.PairSeparator? {
        var start := Lex(c.text, colon.pos + colon.token.length, colon.err);
        BuildSound(c, start.pos, k, start.err, false);
        var r := Build(c, start.pos, k, start.err, false);
        if r.Built? {
          SetEntryHeight(entries, key, r.value);
          SetEntryFormed(entries, key, r.value);
          var after := Lex(c.text, r.pos, r.err);
          if after.token.kind.ListSeparator? {
            ObjectSound(c, Lex(c.text, after.pos + after.token.length, after.err), k, SetEntry(entries, key, r.value));
          }
        }
      }
    }
  }

  lemma {:induction false} ItemsHeightSnoc(items: seq<Value>, v: Value)
    ensures ItemsHeight(items + [v]) == Max(ItemsHeight(items), Height(v))
  {
    if items == [] {
      assert [v][1..] == [];
    } else {
      ItemsHeightSnoc(items[1..], v);
      assert (items + [v])[1..] == items[1..] + [v];
    }
  }

  lemma {:induction false} SetEntryHeight(entries: seq<Entry>, key: string, v: Value)
    ensures EntriesHeight(SetEntry(entries, key, v)) <= Max(EntriesHeight(entries), Height(v))
  {
    var more := SetEntry(entries, key, v);
    if entries == [] {
      assert more[1..] == [];
    } else if entries[0].key == key {
      assert more[1..] == entries[1..];
    } else if Less(key, entries[0].key) {
      assert more[1..] == entries;
    } else {
      assert more[1..] == SetEntry(entries[1..], key, v);
      SetEntryHeight(entries[1..], key, v);
    }
  }

  lemma SetEntryFormed(entries: seq<Entry>, key: string, v: Value)
    requires WellFormed(Dict(entries)) && WellFormed(v)
    ensures WellFormed(Dict(SetEntry(entries, key, v)))
  {
    SetEntrySorted(entries, key, v);
    SetEntryKeys(entries, key, v);
    var more := SetEntry(entries, key, v);
    forall i | 0 <= i < |more| ensures WellFormed(more[i].value) {
      assert more[i] in more;
    }
  }

  /** A container without doubles that the parser accepted, whatever text it came from, is the
      same after printing and reading it again exactly if no string in it needs a \u escape. */
  lemma AcceptedRoundTrips(c: Config, f: W.Format)
    requires W.ValidFormat(f) && Read(c, true).Root? && NoDoubles(Read(c, true).value)
    ensures Read(c.(text := W.WriteText(f, Read(c, true).value)), true) == Read(c, true) <==> Plain(Read(c, true).value)
  {
    hide TokenAt, SkipBlanks, BuildArray, BuildObject, WellFormed, NoDoubles, Plain, Height;
    var v := Read(c, true).value;
    BuildSound(c, Start(c.text), 0, NoError, true);
    RootIsContainer(c);
    RoundTrip(f, v, c.allowTrailingComma, c.parseDouble);
  }

  lemma RootIsContainer(c: Config)
    requires Read(c, true).Root?
    ensures Read(c, true).value.List? || Read(c, true).value.Dict?
  {
    hide Lex;
    var l := Lex(c.text, Start(c.text), NoError);
    var first := Lex(c.text, l.pos + l.token.length, l.err);
    if l.token.kind.ArrayBegin? {
      ArrayGivesList(c, first, 1, []);
    } else {
      ObjectGivesDict(c, first, 1, []);
    }
  }

  lemma {:induction false} ArrayGivesList(c: Config, l: Lexed, k: nat, items: seq<Value>)
    requires IsTokenAt(c.text, l.token, l.pos)
    ensures BuildArray(c, l, k, items).Built? ==> BuildArray(c, l, k, items).value.List?
    decreases |c.text| - l.pos
  {
    hide Lex, Build, ScanString;
    var r := Build(c, l.pos, k, l.err, false);
    if !l.token.kind.ArrayEnd? && r.Built? {
      var after := Lex(c.text, r.pos, r.err);
      if after.token.kind.ListSeparator? {
        ArrayGivesList(c, Lex(c.text, after.pos + after.token.length, after.err), k, items + [r.value]);
      }
    }
  }

  lemma {:induction false} ObjectGivesDict(c: Config, l: Lexed, k: nat, entries: seq<Entry>)
    requires IsTokenAt(c.text, l.token, l.pos)
    ensures BuildObject(c, l, k, entries).Built? ==> BuildObject(c, l, k, entries).value.Dict?
    decreases |c.text| - l.pos
  {
    hide Lex, Build, ScanString, DecodeString;
    if l.token.kind.StringToken? && DecodeString(c.text, l.pos, l.token.length).Some? {
      var key := DecodeString(c.text, l.pos, l.token.length).value;
      var colon := Lex(c.text, l.pos + l.token.length, l.err);
      if colon.token.kind.PairSeparator? {
        var start := Lex(c.text, colon.pos + colon.token.length, colon.err);
        var r := Build(c, start.pos, k, start.err, false);
        if r.Built? {
          var after := Lex(c.text, r.pos, r.err);
          if after.token.kind.ListSeparator? {
            ObjectGivesDict(c, Lex(c.text, after.pos + after.token.length, after.err), k, SetEntry(entries, key, r.value));
          }
        }
      }
    }
  }

  /** The printer and the parser themselves, one after the other. */
  method WriteThenRead(f: W.Format, v: Value, parseDouble: string -> Option<real>) returns (result: ReadResult)
    requires W.ValidFormat(f) && WellFormed(v) && NoDoubles(v) && (v.List? || v.Dict?)
    ensures result == Root(v) <==> Plain(v) && Height(v) <= STACK_LIMIT
    ensures Plain(v) && Height(v) > STACK_LIMIT ==> result == Error(TooMuchNesting)
  {
    var json := W.WriteWithOptions(v, f);
    var reader := new JsonReader(json, false, parseDouble);
    result := reader.JsonToValue(true);
    RoundTrip(f, v, false, parseDouble);
    if Plain(v) && Height(v) > STACK_LIMIT {
      TallTreeRejected(f, v, false, parseDouble);
    }
  }
}
