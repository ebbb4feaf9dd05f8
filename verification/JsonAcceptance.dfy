/** Which texts the parser accepts, and what it makes of them: exactly those of the grammar, and
    exactly the values they denote. */
module JsonAcceptance {
  import opened NumberConversions
  import opened Values
  import opened Wrappers
  import opened JsonReader
  import opened JsonRoundTrip
  import opened JsonLexemes
  import G = JsonGrammar

  /** What the parser is meant to read: no \u escape, and trailing commas if it is told so. */
  function DialectOf(c: Config): G.Dialect {
    G.Dialect(c.allowTrailingComma, false, c.parseDouble)
  }

  function LexedAt(text: string, q: nat, err: ErrorCode): Lexed
    requires q <= |text|
  {
    var t := TokenAt(text, q, err);
    Lexed(t.0, q, t.1)
  }

  // ---- First characters and punctuation --------------------------------------------------

  /** The characters a value may start with. */
  predicate StartsValue(c: char) {
    c == 'n' || c == 't' || c == 'f' || c == '"' || c == '-' || IsDigit(c) || c == '[' || c == '{'
  }

  predicate IsPunctuation(c: char) {
    c == '[' || c == ']' || c == '{' || c == '}' || c == ',' || c == ':'
  }

  lemma CommaIs()
    ensures IsPunctuation(',')
  {
  }

  lemma SpellingStart(g: G.Dialect, x: G.Syntax)
    requires G.Legal(g, x)
    ensures G.Spelling(x) != "" && StartsValue(G.Spelling(x)[0])
  {
    if x.Number? {
      NumeralStart(x.numeral);
    }
  }

  lemma NumeralStart(n: G.Numeral)
    requires G.IsNumeral(n)
    ensures var s := G.NumeralSpelling(n); s != "" && (s[0] == '-' || IsDigit(s[0]))
  {
  }

  lemma ElementsStart(g: G.Dialect, es: G.Elements)
    requires G.LegalElements(g, es)
    ensures var s := G.ElementsSpelling(es); s != "" && if es.EndOfArray? then s[0] == ']' else StartsValue(s[0])
  {
    if !es.EndOfArray? { SpellingStart(g, es.element); }
  }

  lemma MembersStart(ms: G.Members)
    ensures var s := G.MembersSpelling(ms); s != "" && s[0] == if ms.EndOfObject? then '}' else '"'
  {
  }

  /** Brackets and separators are tokens by themselves, whatever follows. */
  lemma TokenOfChar(text: string, p: nat, err: ErrorCode)
    requires p <= |text|
    ensures var t := TokenAt(text, p, err);
            && (At(text, p) == '[' <==> t.0.kind.ArrayBegin?) && (At(text, p) == ']' <==> t.0.kind.ArrayEnd?)
            && (At(text, p) == '{' <==> t.0.kind.ObjectBegin?) && (At(text, p) == '}' <==> t.0.kind.ObjectEnd?)
            && (At(text, p) == ',' <==> t.0.kind.ListSeparator?) && (At(text, p) == ':' <==> t.0.kind.PairSeparator?)
            && (IsPunctuation(At(text, p)) ==> t.0.length == 1 && t.1 == err)
  {
    hide NumberEnd, ScanString, HasWord;
  }

  lemma Behind(text: string, p: nat, blanks: string, word: string)
    requires HasWord(text, p, blanks + word) && G.IsBlanks(blanks) && word != "" && IsPunctuation(word[0])
    ensures p < |text| && EndsNumber(text[p])
  {
    hide G.IsBlanks, HasWord;
    WordFits(text, p, blanks + word);
    WordChar(text, p, blanks + word, 0);
    if blanks != "" { BlanksStart(blanks); }
  }

  lemma BlanksStart(s: string)
    requires G.IsBlanks(s) && s != ""
    ensures EndsNumber(s[0]) && s[0] as int < 128
  {
    var n :| 1 <= n <= |s| && G.IsBlank(s[..n]) && G.IsBlanks(s[n..]);
    assert s[..n][0] == s[0];
  }

  /** Blanks and then a bracket or separator. */
  lemma LexPunctuation(text: string, p: nat, blanks: string, word: string, err: ErrorCode)
    requires HasWord(text, p, blanks + word) && G.IsBlanks(blanks) && word != "" && IsPunctuation(word[0])
    ensures var l := Lex(text, p, err);
            && HasWord(text, p + |blanks|, word) && l.pos == p + |blanks| && l.token.length == 1 && l.err == err
            && (l.token.kind.ArrayEnd? <==> word[0] == ']') && (l.token.kind.ObjectEnd? <==> word[0] == '}')
            && (l.token.kind.ListSeparator? <==> word[0] == ',') && (l.token.kind.PairSeparator? <==> word[0] == ':')
  {
    hide HasWord, G.IsBlanks, TokenAt, Lex, SkipBlanks;
    LexBlanks(text, p, blanks, word, err);
    WordFits(text, p + |blanks|, word);
    TokenOfChar(text, p + |blanks|, err);
  }

  // ---- What is spelled is read -----------------------------------------------------------

  lemma WordReads(c: Config, q: nat, k: nat, err: ErrorCode, x: G.Syntax)
    requires x.NullWord? || x.TrueWord? || x.FalseWord?
    requires HasWord(c.text, q, G.Spelling(x))
    ensures ValueAt(c, LexedAt(c.text, q, err), k) == Built(G.Meaning(DialectOf(c), x), q + |G.Spelling(x)|, err)
  {
    hide BuildArray, BuildObject, DecodeString, DecodeNumber, ScanString, NumberEnd;
    WordChar(c.text, q, G.Spelling(x), 0);
  }

  lemma ScalarReads(c: Config, q: nat, k: nat, err: ErrorCode, x: G.Syntax)
    requires G.Legal(DialectOf(c), x) && !x.Array? && !x.Object?
    requires HasWord(c.text, q, G.Spelling(x)) && EndsNumber(At(c.text, q + |G.Spelling(x)|))
    ensures ValueAt(c, LexedAt(c.text, q, err), k) == Built(G.Meaning(DialectOf(c), x), q + |G.Spelling(x)|, err)
  {
    hide HasWord, LexedAt, ValueAt, EndsNumber, G.IsNumeral, G.NumeralMeaning, G.NumeralSpelling, G.TextSpelling, G.LegalText,
      G.TextMeaning, At;
    match x
    case Number(n) => NumberReads(c, q, k, err, n);
    case Text(ps) => StringReads(c, q, k, err, ps);
    case _ => WordReads(c, q, k, err, x);
  }

  lemma NumberReads(c: Config, q: nat, k: nat, err: ErrorCode, n: G.Numeral)
    requires G.IsNumeral(n) && G.NumeralMeaning(DialectOf(c), n).Some?
    requires HasWord(c.text, q, G.NumeralSpelling(n)) && EndsNumber(At(c.text, q + |G.NumeralSpelling(n)|))
    ensures ValueAt(c, LexedAt(c.text, q, err), k)
         == Built(G.NumeralMeaning(DialectOf(c), n).value, q + |G.NumeralSpelling(n)|, err)
  {
    hide DecodeNumber, NumberEnd, G.NumeralMeaning, G.NumeralSpelling, G.IsNumeral, BuildArray, BuildObject, DecodeString, ScanString;
    NumeralReads(c.text, q, n);
    NumeralDecodes(c, DialectOf(c), n);
  }

  lemma StringReads(c: Config, q: nat, k: nat, err: ErrorCode, ps: seq<G.Piece>)
    requires G.LegalText(DialectOf(c), ps) && HasWord(c.text, q, G.TextSpelling(ps))
    ensures ValueAt(c, LexedAt(c.text, q, err), k)
         == Built(Str(G.TextMeaning(DialectOf(c), ps)), q + |G.TextSpelling(ps)|, err)
  {
    hide TokenAt, DecodeString, G.TextSpelling, G.LegalText, G.TextMeaning, BuildArray, BuildObject, ScanString;
    TextReads(DialectOf(c), c.text, q, ps, err);
  }

  /** A legal value within the nesting limit is read to its end as what it means. */
  lemma {:induction false} ValueReads(c: Config, p: nat, q: nat, k: nat, err: ErrorCode, isRoot: bool, x: G.Syntax)
    requires p <= |c.text| && SkipBlanks(c.text, p) == q && HasWord(c.text, q, G.Spelling(x))
    requires EndsNumber(At(c.text, q + |G.Spelling(x)|))
    requires G.Legal(DialectOf(c), x) && k + G.Nesting(x) <= STACK_LIMIT
    requires isRoot ==> x.Array? || x.Object?
    ensures Build(c, p, k, err, isRoot) == Built(G.Meaning(DialectOf(c), x), q + |G.Spelling(x)|, err)
    decreases x, 1
  {
    hide HasWord, SkipBlanks, Build, ValueAt, Lex, LexedAt, EndsNumber, At, G.LegalText, G.LegalElements, G.LegalMembers, G.IsBlanks,
      G.IsNumeral, G.NumeralMeaning, G.Items, G.Pairs, G.Gathered, G.TextMeaning;
    WordFits(c.text, q, G.Spelling(x));
    LexIs(c.text, p, q, err);
    BuildStep(c, p, k, err, isRoot);
    match x
    case Array(blanks, es) => ArrayReads(c, q, k + 1, err, blanks, es);
    case Object(blanks, ms) => ObjectReads(c, q, k + 1, err, blanks, ms);
    case _ => ScalarReads(c, q, k + 1, err, x);
  }

  lemma {:induction false} ArrayReads(c: Config, q: nat, k: nat, err: ErrorCode, blanks: string, es: G.Elements)
    requires HasWord(c.text, q, "[" + (blanks + G.ElementsSpelling(es)))
    requires G.IsBlanks(blanks) && G.LegalElements(DialectOf(c), es) && k + G.ElementsNesting(es) <= STACK_LIMIT
    ensures LexedAt(c.text, q, err).token.kind.ArrayBegin?
    ensures ValueAt(c, LexedAt(c.text, q, err), k)
         == Built(List(G.Items(DialectOf(c), es)), q + 1 + |blanks| + |G.ElementsSpelling(es)|, err)
    decreases es, 4
  {
    hide HasWord, TokenAt, BuildArray, BuildObject, DecodeNumber, DecodeString, ScanString, Lex, SkipBlanks, StartsValue, NoBlank,
      G.IsBlanks, G.ElementsSpelling, G.LegalElements, G.Items, G.ElementsNesting, At;
    var word := G.ElementsSpelling(es);
    WordSplit(c.text, q, "[", blanks + word);
    WordChar(c.text, q, "[", 0);
    WordFits(c.text, q, "[");
    AtChar(c.text, q);
    TokenOfChar(c.text, q, err);
    ElementsStart(DialectOf(c), es);
    if es.EndOfArray? { BracketIs(word[0]); } else { ValueStart(word[0]); }
    LexBlanks(c.text, q + 1, blanks, word, err);
    ElementsRead(c, q + 1 + |blanks|, k, err, [], es);
    assert [] + G.Items(DialectOf(c), es) == G.Items(DialectOf(c), es);
  }

  lemma {:induction false} ObjectReads(c: Config, q: nat, k: nat, err: ErrorCode, blanks: string, ms: G.Members)
    requires HasWord(c.text, q, "{" + (blanks + G.MembersSpelling(ms)))
    requires G.IsBlanks(blanks) && G.LegalMembers(DialectOf(c), ms) && k + G.MembersNesting(ms) <= STACK_LIMIT
    ensures LexedAt(c.text, q, err).token.kind.ObjectBegin?
    ensures ValueAt(c, LexedAt(c.text, q, err), k)
         == Built(Dict(G.Gathered([], G.Pairs(DialectOf(c), ms))), q + 1 + |blanks| + |G.MembersSpelling(ms)|, err)
    decreases ms, 5
  {
    hide HasWord, TokenAt, BuildArray, BuildObject, DecodeNumber, DecodeString, ScanString, Lex, SkipBlanks, StartsValue, NoBlank,
      G.IsBlanks, G.MembersSpelling, G.LegalMembers, G.Pairs, G.Gathered, G.MembersNesting, At;
    var word := G.MembersSpelling(ms);
    WordSplit(c.text, q, "{", blanks + word);
    WordChar(c.text, q, "{", 0);
    WordFits(c.text, q, "{");
    AtChar(c.text, q);
    TokenOfChar(c.text, q, err);
    MembersStart(ms);
    BracketIs(word[0]);
    LexBlanks(c.text, q + 1, blanks, word, err);
    MembersRead(c, q + 1 + |blanks|, k, err, [], ms);
  }

  /** A value that was built stands on a token that is none of the invalid ones. */
  lemma BuiltToken(c: Config, p: nat, k: nat, err: ErrorCode, isRoot: bool)
    requires p <= |c.text| && Build(c, p, k, err, isRoot).Built?
    ensures Lex(c.text, p, err).err == err
  {
    hide Lex, BuildArray, BuildObject, DecodeNumber, DecodeString;
  }

  lemma LexIs(text: string, p: nat, q: nat, err: ErrorCode)
    requires p <= |text| && SkipBlanks(text, p) == q
    ensures q <= |text| && Lex(text, p, err) == LexedAt(text, q, err)
  {
    hide TokenAt;
  }

  /** One element, with the blanks and the bracket or comma behind it. */
  lemma {:induction false} ElementReads(c: Config, q: nat, k: nat, err: ErrorCode, x: G.Syntax, after: string, word: string)
    requires HasWord(c.text, q, G.Spelling(x) + (after + word)) && word != "" && IsPunctuation(word[0])
    requires G.Legal(DialectOf(c), x) && G.IsBlanks(after) && k + G.Nesting(x) <= STACK_LIMIT
    ensures var p := q + |G.Spelling(x)|;
            && Build(c, q, k, err, false) == Built(G.Meaning(DialectOf(c), x), p, err)
            && HasWord(c.text, p, after + word)
    ensures LexedAt(c.text, q, err).err == err && StartsValue(At(c.text, q)) && SkipBlanks(c.text, q) == q
    decreases x, 2
  {
    hide HasWord, TokenAt, Lex, Build, G.Spelling, G.Legal, G.Meaning, G.IsBlanks, StartsValue, NoBlank, LexedAt, EndsNumber, G.Nesting;
    var p := q + |G.Spelling(x)|;
    WordSplit(c.text, q, G.Spelling(x), after + word);
    WordFits(c.text, q, G.Spelling(x));
    Behind(c.text, p, after, word);
    SpellingStart(DialectOf(c), x);
    WordChar(c.text, q, G.Spelling(x), 0);
    NoSkip(c.text, q);
    ValueReads(c, q, q, k, err, false, x);
    BuiltToken(c, q, k, err, false);
    LexIs(c.text, q, q, err);
  }

  lemma NoSkip(text: string, q: nat)
    requires q < |text| && (StartsValue(text[q]) || IsPunctuation(text[q]))
    ensures SkipBlanks(text, q) == q && NoBlank(text[q])
  {
  }

  lemma ValueStart(c: char)
    requires StartsValue(c)
    ensures NoBlank(c) && c != ']' && c != '}' && c as int < 128 && c != '\0'
  {
  }

  /** The item loop, one item at a time. */
  lemma ArrayStep(c: Config, l: Lexed, k: nat, items: seq<Value>)
    requires IsTokenAt(c.text, l.token, l.pos) && !l.token.kind.ArrayEnd?
    ensures BuildArray(c, l, k, items)
         == match Build(c, l.pos, k, l.err, false)
            case Failed(err) => Failed(err)
            case Built(item, p, err) =>
              var after := Lex(c.text, p, err);
              if after.token.kind.ListSeparator? then
                var next := Lex(c.text, after.pos + after.token.length, after.err);
                if next.token.kind.ArrayEnd? && !c.allowTrailingComma then Failed(TrailingComma)
                else BuildArray(c, next, k, items + [item])
              else if after.token.kind.ArrayEnd? then Built(List(items + [item]), after.pos + after.token.length, after.err)
              else Failed(after.err)
  {
    hide Lex, Build;
  }

  lemma ArrayDone(c: Config, l: Lexed, k: nat, items: seq<Value>)
    requires IsTokenAt(c.text, l.token, l.pos) && l.token.kind.ArrayEnd?
    ensures BuildArray(c, l, k, items) == Built(List(items), l.pos + l.token.length, l.err)
  {
  }

  lemma {:induction false} LastElementRead(c: Config, q: nat, k: nat, err: ErrorCode, items: seq<Value>, x: G.Syntax, after: string)
    requires HasWord(c.text, q, G.Spelling(x) + (after + "]")) && G.Legal(DialectOf(c), x) && G.IsBlanks(after)
    requires k + G.Nesting(x) <= STACK_LIMIT
    ensures BuildArray(c, LexedAt(c.text, q, err), k, items)
         == Built(List(items + [G.Meaning(DialectOf(c), x)]), q + |G.Spelling(x)| + |after| + 1, err)
    decreases x, 3
  {
    hide HasWord, LexedAt, Lex, Build, BuildArray, G.Spelling, G.ElementsSpelling, G.Legal, G.LegalElements, G.Meaning, G.IsBlanks,
      StartsValue, G.Nesting, At;
    var l := LexedAt(c.text, q, err);
    TokenIsAt(c.text, q, err);
    ElementReads(c, q, k, err, x, after, "]");
    ValueStart(At(c.text, q));
    ArrayStep(c, l, k, items);
    LexPunctuation(c.text, q + |G.Spelling(x)|, after, "]", err);
  }

  lemma {:induction false} OneElementRead(c: Config, q: nat, k: nat, err: ErrorCode, items: seq<Value>,
                                          x: G.Syntax, after: string, before: string, rest: G.Elements)
    requires HasWord(c.text, q, G.Spelling(x) + (after + ("," + (before + G.ElementsSpelling(rest)))))
    requires G.Legal(DialectOf(c), x) && G.IsBlanks(after) && G.IsBlanks(before) && G.LegalElements(DialectOf(c), rest)
    requires k + G.Nesting(x) <= STACK_LIMIT && (rest.EndOfArray? ==> c.allowTrailingComma)
    ensures var next := q + |G.Spelling(x)| + |after| + 1 + |before|;
            && HasWord(c.text, next, G.ElementsSpelling(rest))
            && BuildArray(c, LexedAt(c.text, q, err), k, items)
               == BuildArray(c, LexedAt(c.text, next, err), k, items + [G.Meaning(DialectOf(c), x)])
    decreases x, 3
  {
    hide HasWord, LexedAt, Lex, Build, BuildArray, G.Spelling, G.ElementsSpelling, G.Legal, G.LegalElements, G.Meaning, G.IsBlanks,
      StartsValue, G.Nesting, At;
    var l := LexedAt(c.text, q, err);
    TokenIsAt(c.text, q, err);
    ElementReads(c, q, k, err, x, after, "," + (before + G.ElementsSpelling(rest)));
    ValueStart(At(c.text, q));
    ArrayStep(c, l, k, items);
    AfterElement(c, q + |G.Spelling(x)|, err, after, before, rest);
  }

  /** From an element or the closing bracket, the loop reads what is spelled. */
  lemma {:induction false} ElementsRead(c: Config, q: nat, k: nat, err: ErrorCode, items: seq<Value>, es: G.Elements)
    requires HasWord(c.text, q, G.ElementsSpelling(es)) && G.LegalElements(DialectOf(c), es)
    requires k + G.ElementsNesting(es) <= STACK_LIMIT
    ensures BuildArray(c, LexedAt(c.text, q, err), k, items)
         == Built(List(items + G.Items(DialectOf(c), es)), q + |G.ElementsSpelling(es)|, err)
    decreases es, 3
  {
    hide HasWord, LexedAt, Lex, Build, BuildArray, G.Spelling, G.Legal, G.Meaning, G.IsBlanks, StartsValue, G.Nesting, At;
    var g := DialectOf(c);
    match es
    case EndOfArray => BracketReads(c, q, k, err, items);
    case LastElement(x, after) => LastElementRead(c, q, k, err, items, x, after);
    case Element(x, after, before, rest) =>
      OneElementRead(c, q, k, err, items, x, after, before, rest);
      ElementsRead(c, q + |G.Spelling(x)| + |after| + 1 + |before|, k, err, items + [G.Meaning(g, x)], rest);
      Appended(items, G.Meaning(g, x), G.Items(g, rest));
  }

  lemma BracketReads(c: Config, q: nat, k: nat, err: ErrorCode, items: seq<Value>)
    requires HasWord(c.text, q, "]")
    ensures BuildArray(c, LexedAt(c.text, q, err), k, items) == Built(List(items + []), q + 1, err)
  {
    hide LexedAt, BuildArray, HasWord;
    WordFits(c.text, q, "]");
    TokenIsAt(c.text, q, err);
    WordChar(c.text, q, "]", 0);
    AtChar(c.text, q);
    ArrayDone(c, LexedAt(c.text, q, err), k, items);
    assert items + [] == items;
  }

  lemma BraceReads(c: Config, q: nat, k: nat, err: ErrorCode, entries: seq<Entry>)
    requires HasWord(c.text, q, "}")
    ensures BuildObject(c, LexedAt(c.text, q, err), k, entries) == Built(Dict(G.Gathered(entries, [])), q + 1, err)
  {
    hide LexedAt, BuildObject, HasWord;
    WordFits(c.text, q, "}");
    TokenIsAt(c.text, q, err);
    WordChar(c.text, q, "}", 0);
    AtChar(c.text, q);
    ObjectDone(c, LexedAt(c.text, q, err), k, entries);
  }

  lemma Appended(items: seq<Value>, v: Value, rest: seq<Value>)
    ensures items + [v] + rest == items + ([v] + rest)
  {
  }

  lemma TokenIsAt(text: string, q: nat, err: ErrorCode)
    requires q <= |text|
    ensures var l := LexedAt(text, q, err);
            && l.pos == q && IsTokenAt(text, l.token, q) && (l.token.kind.ArrayEnd? <==> At(text, q) == ']') && (l.token.kind.ObjectEnd? <==> At(text, q) == '}')
            && (IsPunctuation(At(text, q)) ==> l.token.length == 1 && l.err == err)
  {
    hide TokenAt;
    TokenOfChar(text, q, err);
  }

  lemma AfterElement(c: Config, p: nat, err: ErrorCode, after: string, before: string, rest: G.Elements)
    requires HasWord(c.text, p, after + ("," + (before + G.ElementsSpelling(rest))))
    requires G.IsBlanks(after) && G.IsBlanks(before) && G.LegalElements(DialectOf(c), rest)
    ensures var q := p + |after| + 1 + |before|; var comma := Lex(c.text, p, err); var next := Lex(c.text, p + |after| + 1, err);
            && comma.token.kind.ListSeparator? && comma.pos == p + |after| && comma.token.length == 1 && comma.err == err
            && HasWord(c.text, q, G.ElementsSpelling(rest)) && next == LexedAt(c.text, q, err)
            && (next.token.kind.ArrayEnd? ==> rest.EndOfArray?)
  {
    hide *;
    CommaIs();
    LexPunctuation(c.text, p, after, "," + (before + G.ElementsSpelling(rest)), err);
    NextElement(c, p + |after|, err, before, rest);
  }

  lemma AtChar(text: string, q: nat)
    requires q < |text|
    ensures At(text, q) == text[q]
  {
  }

  /** Behind a comma, the next element is found, or the bracket if a trailing comma is allowed. */
  lemma NextElement(c: Config, p: nat, err: ErrorCode, before: string, rest: G.Elements)
    requires HasWord(c.text, p, "," + (before + G.ElementsSpelling(rest)))
    requires G.IsBlanks(before) && G.LegalElements(DialectOf(c), rest)
    ensures var q := p + 1 + |before|; var next := Lex(c.text, p + 1, err);
            && HasWord(c.text, q, G.ElementsSpelling(rest)) && next == LexedAt(c.text, q, err)
            && (next.token.kind.ArrayEnd? ==> rest.EndOfArray?)
  {
    hide HasWord, TokenAt, Lex, SkipBlanks, G.ElementsSpelling, G.LegalElements, G.IsBlanks, StartsValue, At, NoBlank;
    WordSplit(c.text, p, ",", before + G.ElementsSpelling(rest));
    ElementsStart(DialectOf(c), rest);
    var first := G.ElementsSpelling(rest)[0];
    assert NoBlank(first) by { if rest.EndOfArray? { BracketIs(first); } else { ValueStart(first); } }
    LexBlanks(c.text, p + 1, before, G.ElementsSpelling(rest), err);
    var q := p + 1 + |before|;
    WordFits(c.text, q, G.ElementsSpelling(rest));
    AtChar(c.text, q);
    TokenOfChar(c.text, q, err);
    if !rest.EndOfArray? { ValueStart(first); }
  }

  lemma BracketIs(c: char)
    requires IsPunctuation(c) || c == '"'
    ensures NoBlank(c)
  {
  }

  // ---- Members ---------------------------------------------------------------------------

  /** The colon and the blanks around it. */
  lemma ColonReads(text: string, p: nat, err: ErrorCode, before: string, after: string, value: string)
    requires HasWord(text, p, before + (":" + (after + value))) && G.IsBlanks(before) && G.IsBlanks(after)
    requires value != "" && StartsValue(value[0])
    ensures var colon := Lex(text, p, err); var q := p + |before| + 1 + |after|;
            && colon.token.kind.PairSeparator? && colon.pos == p + |before| && colon.token.length == 1 && colon.err == err
            && HasWord(text, q, value) && Lex(text, p + |before| + 1, err) == LexedAt(text, q, err)
  {
    hide HasWord, Lex, SkipBlanks, TokenAt, G.IsBlanks, StartsValue, NoBlank;
    LexPunctuation(text, p, before, ":" + (after + value), err);
    WordSplit(text, p + |before|, ":", after + value);
    ValueStart(value[0]);
    LexBlanks(text, p + |before| + 1, after, value, err);
    WordFits(text, p + |before| + 1 + |after|, value);
  }

  /** A pair is read up to what stands behind its value. */
  lemma {:induction false} PairReads(c: Config, q: nat, k: nat, err: ErrorCode, pair: G.Pair, after: string, word: string)
    requires HasWord(c.text, q, G.PairSpelling(pair, after + word)) && word != "" && IsPunctuation(word[0])
    requires G.LegalPair(DialectOf(c), pair) && G.IsBlanks(after) && k + G.Nesting(pair.value) <= STACK_LIMIT
    ensures var p := q + |G.PairSpelling(pair, after + word)| - |after + word|;
            && BuildMember(c, LexedAt(c.text, q, err), k) == Member(G.PairMeaning(DialectOf(c), pair), p, err)
            && HasWord(c.text, p, after + word)
    ensures LexedAt(c.text, q, err).token.kind.StringToken?
    decreases pair, 3
  {
    hide HasWord, TokenAt, Lex, Build, DecodeString, G.Spelling, G.TextSpelling, G.Legal, G.Meaning, G.IsBlanks, StartsValue,
      G.Nesting, ScanString, SkipBlanks, G.LegalText, G.TextMeaning;
    var g := DialectOf(c);
    var key, value := G.TextSpelling(pair.key), G.Spelling(pair.value) + (after + word);
    WordSplit(c.text, q, key, pair.beforeColon + (":" + (pair.afterColon + value)));
    TextReads(g, c.text, q, pair.key, err);
    SpellingStart(g, pair.value);
    assert value[0] == G.Spelling(pair.value)[0];
    ColonReads(c.text, q + |key|, err, pair.beforeColon, pair.afterColon, value);
    ElementReads(c, q + |key| + |pair.beforeColon| + 1 + |pair.afterColon|, k, err, pair.value, after, word);
  }

  lemma {:induction false} LastMemberRead(c: Config, q: nat, k: nat, err: ErrorCode, entries: seq<Entry>, pair: G.Pair, after: string)
    requires HasWord(c.text, q, G.PairSpelling(pair, after + "}")) && G.LegalPair(DialectOf(c), pair) && G.IsBlanks(after)
    requires k + G.Nesting(pair.value) <= STACK_LIMIT
    ensures var m := G.PairMeaning(DialectOf(c), pair);
            BuildObject(c, LexedAt(c.text, q, err), k, entries)
            == Built(Dict(SetEntry(entries, m.key, m.value)), q + |G.PairSpelling(pair, after + "}")|, err)
    decreases pair, 4
  {
    hide HasWord, LexedAt, Lex, Build, BuildMember, BuildObject, G.PairSpelling, G.MembersSpelling, G.LegalPair, G.LegalMembers,
      G.PairMeaning, G.IsBlanks, G.Nesting, SetEntry;
    WordFits(c.text, q, G.PairSpelling(pair, after + "}"));
    TokenIsAt(c.text, q, err);
    PairReads(c, q, k, err, pair, after, "}");
    ObjectStep(c, LexedAt(c.text, q, err), k, entries);
    LexPunctuation(c.text, q + |G.PairSpelling(pair, after + "}")| - |after + "}"|, after, "}", err);
  }

  /** Where the next member is. */
  function NextMemberAt(q: nat, pair: G.Pair, after: string, before: string, rest: string): int {
    q + |G.PairSpelling(pair, after + ("," + (before + rest)))| - |rest|
  }

  lemma {:induction false} OneMemberRead(c: Config, q: nat, k: nat, err: ErrorCode, entries: seq<Entry>,
                                         pair: G.Pair, after: string, before: string, rest: G.Members)
    requires HasWord(c.text, q, G.PairSpelling(pair, after + ("," + (before + G.MembersSpelling(rest)))))
    requires G.LegalPair(DialectOf(c), pair) && G.IsBlanks(after) && G.IsBlanks(before)
    requires k + G.Nesting(pair.value) <= STACK_LIMIT && (rest.EndOfObject? ==> c.allowTrailingComma)
    ensures var next := NextMemberAt(q, pair, after, before, G.MembersSpelling(rest)); var m := G.PairMeaning(DialectOf(c), pair);
            && next >= 0 && HasWord(c.text, next, G.MembersSpelling(rest))
            && BuildObject(c, LexedAt(c.text, q, err), k, entries)
               == BuildObject(c, LexedAt(c.text, next, err), k, SetEntry(entries, m.key, m.value))
    decreases pair, 4
  {
    hide HasWord, LexedAt, Lex, Build, BuildMember, BuildObject, G.PairSpelling, G.MembersSpelling, G.LegalPair, G.LegalMembers,
      G.PairMeaning, G.IsBlanks, G.Nesting, SetEntry;
    var word := "," + (before + G.MembersSpelling(rest));
    WordFits(c.text, q, G.PairSpelling(pair, after + word));
    TokenIsAt(c.text, q, err);
    PairReads(c, q, k, err, pair, after, word);
    ObjectStep(c, LexedAt(c.text, q, err), k, entries);
    AfterPair(c, q + |G.PairSpelling(pair, after + word)| - |after + word|, err, after, before, rest);
  }

  lemma {:induction false} MembersRead(c: Config, q: nat, k: nat, err: ErrorCode, entries: seq<Entry>, ms: G.Members)
    requires HasWord(c.text, q, G.MembersSpelling(ms)) && G.LegalMembers(DialectOf(c), ms)
    requires k + G.MembersNesting(ms) <= STACK_LIMIT
    ensures BuildObject(c, LexedAt(c.text, q, err), k, entries)
         == Built(Dict(G.Gathered(entries, G.Pairs(DialectOf(c), ms))), q + |G.MembersSpelling(ms)|, err)
    decreases ms, 4
  {
    hide HasWord, LexedAt, Lex, Build, BuildMember, BuildObject, G.PairSpelling, G.LegalPair, G.PairMeaning, G.IsBlanks,
      G.Nesting, SetEntry, At, G.Gathered;
    var g := DialectOf(c);
    match ms
    case EndOfObject => BraceReads(c, q, k, err, entries);
    case LastMember(pair, after) =>
      LastMemberRead(c, q, k, err, entries, pair, after);
      OnePair(entries, G.PairMeaning(g, pair), []);
    case Member(pair, after, before, rest) =>
      var m := G.PairMeaning(g, pair);
      OneMemberRead(c, q, k, err, entries, pair, after, before, rest);
      MembersRead(c, NextMemberAt(q, pair, after, before, G.MembersSpelling(rest)), k, err, SetEntry(entries, m.key, m.value), rest);
      OnePair(entries, m, G.Pairs(g, rest));
  }

  lemma OnePair(entries: seq<Entry>, m: Entry, pairs: seq<Entry>)
    ensures G.Gathered(entries, [m] + pairs) == G.Gathered(SetEntry(entries, m.key, m.value), pairs)
    ensures G.Gathered(entries, [m]) == SetEntry(entries, m.key, m.value)
  {
    hide SetEntry;
    assert ([m] + pairs)[1..] == pairs && [m][1..] == [];
  }

  lemma AfterPair(c: Config, p: nat, err: ErrorCode, after: string, before: string, rest: G.Members)
    requires HasWord(c.text, p, after + ("," + (before + G.MembersSpelling(rest)))) && G.IsBlanks(after) && G.IsBlanks(before)
    ensures var q := p + |after| + 1 + |before|; var comma := Lex(c.text, p, err); var next := Lex(c.text, p + |after| + 1, err);
            && comma.token.kind.ListSeparator? && comma.pos == p + |after| && comma.token.length == 1 && comma.err == err
            && HasWord(c.text, q, G.MembersSpelling(rest)) && next == LexedAt(c.text, q, err)
            && (next.token.kind.ObjectEnd? ==> rest.EndOfObject?)
  {
    hide *;
    CommaIs();
    LexPunctuation(c.text, p, after, "," + (before + G.MembersSpelling(rest)), err);
    NextMember(c, p + |after|, err, before, rest);
  }

  lemma NextMember(c: Config, p: nat, err: ErrorCode, before: string, rest: G.Members)
    requires HasWord(c.text, p, "," + (before + G.MembersSpelling(rest))) && G.IsBlanks(before)
    ensures var q := p + 1 + |before|; var next := Lex(c.text, p + 1, err);
            && HasWord(c.text, q, G.MembersSpelling(rest)) && next == LexedAt(c.text, q, err)
            && (next.token.kind.ObjectEnd? ==> rest.EndOfObject?)
  {
    hide HasWord, TokenAt, Lex, SkipBlanks, G.MembersSpelling, G.IsBlanks, At, NoBlank;
    WordSplit(c.text, p, ",", before + G.MembersSpelling(rest));
    MembersStart(rest);
    BracketIs(G.MembersSpelling(rest)[0]);
    LexBlanks(c.text, p + 1, before, G.MembersSpelling(rest), err);
    var q := p + 1 + |before|;
    WordFits(c.text, q, G.MembersSpelling(rest));
    AtChar(c.text, q);
    TokenOfChar(c.text, q, err);
  }

  // ---- What is read is spelled -----------------------------------------------------------

  /** What stands where a value was built. */
  ghost predicate Spells(c: Config, q: nat, k: nat, err: ErrorCode, x: G.Syntax, r: Outcome) {
    && r.Built? && HasWord(c.text, q, G.Spelling(x)) && r.pos == q + |G.Spelling(x)| && r.err == err
    && G.Legal(DialectOf(c), x) && G.Meaning(DialectOf(c), x) == r.value && k + G.Nesting(x) <= STACK_LIMIT
  }

  /** Blanks were skipped up to a token. */
  lemma BlanksOf(text: string, p: nat, err: ErrorCode)
    requires p <= |text|
    ensures var q := SkipBlanks(text, p);
            && Lex(text, p, err) == LexedAt(text, q, err) && SkipBlanks(text, q) == q
            && (q < |text| ==> G.IsBlanks(text[p..q])) && HasWord(text, p, text[p..q])
  {
    hide TokenAt, SkipBlanks, G.IsBlanks, G.IsEnd;
    SkippedIs(text, p);
  }

  lemma OneChar(text: string, p: nat)
    requires p < |text|
    ensures HasWord(text, p, [text[p]])
  {
  }

  lemma WordOf(c: Config, q: nat, k: nat, err: ErrorCode) returns (x: G.Syntax)
    requires q <= |c.text| && k <= STACK_LIMIT && k > 0
    requires var kind := LexedAt(c.text, q, err).token.kind; kind.NullToken? || kind.BoolTrue? || kind.BoolFalse?
    ensures Spells(c, q, k - 1, err, x, ValueAt(c, LexedAt(c.text, q, err), k)) && !x.Array? && !x.Object?
  {
    hide NumberEnd, ScanString, BuildArray, BuildObject, DecodeNumber, DecodeString;
    var kind := LexedAt(c.text, q, err).token.kind;
    x := if kind.NullToken? then G.NullWord else if kind.BoolTrue? then G.TrueWord else G.FalseWord;
  }

  lemma NumberOf(c: Config, q: nat, k: nat, err: ErrorCode) returns (x: G.Syntax)
    requires q <= |c.text| && k <= STACK_LIMIT && k > 0
    requires LexedAt(c.text, q, err).token.kind.NumberToken? && ValueAt(c, LexedAt(c.text, q, err), k).Built?
    ensures Spells(c, q, k - 1, err, x, ValueAt(c, LexedAt(c.text, q, err), k)) && x.Number?
  {
    hide NumberEnd, ScanString, BuildArray, BuildObject, DecodeNumber, DecodeString, G.NumeralSpelling, G.NumeralMeaning, G.IsNumeral;
    var n := NumeralOf(c.text, q);
    NumeralDecodes(c, DialectOf(c), n);
    x := G.Number(n);
  }

  lemma StringOf(c: Config, q: nat, k: nat, err: ErrorCode) returns (x: G.Syntax)
    requires q <= |c.text| && k <= STACK_LIMIT && k > 0
    requires LexedAt(c.text, q, err).token.kind.StringToken? && ValueAt(c, LexedAt(c.text, q, err), k).Built?
    ensures Spells(c, q, k - 1, err, x, ValueAt(c, LexedAt(c.text, q, err), k)) && x.Text?
  {
    hide TokenAt, HasWord, ScanString, BuildArray, BuildObject, DecodeNumber, DecodeString, G.TextSpelling, G.TextMeaning, G.LegalText;
    var l := LexedAt(c.text, q, err);
    var ps := TextOf(DialectOf(c), c.text, q, l.token.length);
    x := G.Text(ps);
  }

  /** The blanks at `p`. */
  function BlanksAt(c: Config, p: nat): string
    requires p <= |c.text|
  {
    c.text[p..SkipBlanks(c.text, p)]
  }

  /** A value that was built is spelled where its first token stands. */
  lemma {:induction false} ValueOf(c: Config, p: nat, k: nat, err: ErrorCode, isRoot: bool) returns (x: G.Syntax)
    requires p <= |c.text| && Build(c, p, k, err, isRoot).Built?
    ensures SkipBlanks(c.text, p) < |c.text| && G.IsBlanks(BlanksAt(c, p)) && HasWord(c.text, p, BlanksAt(c, p))
    ensures Spells(c, SkipBlanks(c.text, p), k, err, x, Build(c, p, k, err, isRoot))
    ensures isRoot ==> x.Array? || x.Object?
    decreases |c.text| - p, 1
  {
    hide HasWord, TokenAt, Lex, SkipBlanks, Build, BuildArray, BuildObject, DecodeNumber, DecodeString, ScanString, Spells, G.IsBlanks;
    BuildStep(c, p, k, err, isRoot);
    BlanksOf(c.text, p, err);
    var q := SkipBlanks(c.text, p);
    var kind := LexedAt(c.text, q, err).token.kind;
    NoEndToken(c.text, q, err);
    if kind.ArrayBegin? {
      x := ArrayOf(c, q, k + 1, err);
    } else if kind.ObjectBegin? {
      x := ObjectOf(c, q, k + 1, err);
    } else if kind.NumberToken? {
      x := NumberOf(c, q, k + 1, err);
    } else if kind.StringToken? {
      x := StringOf(c, q, k + 1, err);
    } else {
      x := WordOf(c, q, k + 1, err);
    }
  }

  /** What stands where the rest of an array was built. */
  ghost predicate ListSpells(c: Config, q: nat, k: nat, err: ErrorCode, items: seq<Value>, es: G.Elements, r: Outcome) {
    && r.Built? && HasWord(c.text, q, G.ElementsSpelling(es)) && r.pos == q + |G.ElementsSpelling(es)| && r.err == err
    && G.LegalElements(DialectOf(c), es) && r.value == List(items + G.Items(DialectOf(c), es))
    && k + G.ElementsNesting(es) <= STACK_LIMIT
  }

  lemma ArrayJoins(c: Config, q: nat, k: nat, err: ErrorCode, start: nat, es: G.Elements, r: Outcome)
    requires q < start < |c.text| && c.text[q] == '[' && G.IsBlanks(c.text[q + 1..start]) && k > 0
    requires ListSpells(c, start, k, err, [], es, r)
    ensures Spells(c, q, k - 1, err, G.Array(c.text[q + 1..start], es), r)
  {
    hide HasWord, G.IsBlanks, G.Items, G.ElementsNesting, G.LegalElements, G.ElementsSpelling;
    var blanks, word := c.text[q + 1..start], G.ElementsSpelling(es);
    assert [] + G.Items(DialectOf(c), es) == G.Items(DialectOf(c), es);
    OneChar(c.text, q);
    Slice(c.text, q + 1, start);
    WordJoin(c.text, q + 1, blanks, word);
    WordJoin(c.text, q, "[", blanks + word);
  }

  lemma Slice(text: string, a: nat, b: nat)
    requires a <= b <= |text|
    ensures HasWord(text, a, text[a..b])
  {
  }

  lemma {:induction false} ArrayOf(c: Config, q: nat, k: nat, err: ErrorCode) returns (x: G.Syntax)
    requires q < |c.text| && 0 < k <= STACK_LIMIT
    requires LexedAt(c.text, q, err).token.kind.ArrayBegin? && ValueAt(c, LexedAt(c.text, q, err), k).Built?
    ensures Spells(c, q, k - 1, err, x, ValueAt(c, LexedAt(c.text, q, err), k)) && x.Array?
    decreases |c.text| - q, 0
  {
    hide HasWord, TokenAt, Lex, SkipBlanks, BuildArray, BuildObject, DecodeNumber, DecodeString, G.IsBlanks, ListSpells, Spells;
    TokenOfChar(c.text, q, err);
    AtChar(c.text, q);
    BlanksOf(c.text, q + 1, err);
    var start := SkipBlanks(c.text, q + 1);
    var es := ElementsOf(c, start, k, err, []);
    x := G.Array(c.text[q + 1..start], es);
    ArrayJoins(c, q, k, err, start, es, ValueAt(c, LexedAt(c.text, q, err), k));
  }

  /** The token is the same whatever the error code before it was. */
  lemma TokenSame(text: string, q: nat, err: ErrorCode, other: ErrorCode)
    requires q <= |text|
    ensures var t := TokenAt(text, q, err); t.0 == TokenAt(text, q, other).0 && (!t.0.kind.Invalid? ==> t.1 == err)
  {
    hide HasWord, NumberEnd, ScanString;
  }

  /** An item was built from the token at `q`, so that token is valid. */
  lemma ItemToken(c: Config, q: nat, k: nat, err: ErrorCode)
    requires q <= |c.text| && SkipBlanks(c.text, q) == q && Build(c, q, k, LexedAt(c.text, q, err).err, false).Built?
    ensures LexedAt(c.text, q, err).err == err
  {
    hide HasWord, TokenAt, Lex, SkipBlanks, BuildArray, BuildObject, DecodeNumber, DecodeString;
    var e := LexedAt(c.text, q, err).err;
    BuildStep(c, q, k, e, false);
    LexIs(c.text, q, q, e);
    TokenSame(c.text, q, err, e);
    TokenSame(c.text, q, e, err);
  }

  /** From an item or the closing bracket on, what was built is spelled. */
  lemma {:induction false} ElementsOf(c: Config, q: nat, k: nat, err: ErrorCode, items: seq<Value>) returns (es: G.Elements)
    requires q <= |c.text| && SkipBlanks(c.text, q) == q && 0 < k <= STACK_LIMIT
    requires BuildArray(c, LexedAt(c.text, q, err), k, items).Built?
    ensures q < |c.text| && ListSpells(c, q, k, err, items, es, BuildArray(c, LexedAt(c.text, q, err), k, items))
    ensures es.EndOfArray? <==> LexedAt(c.text, q, err).token.kind.ArrayEnd?
    decreases |c.text| - q, 2
  {
    hide HasWord, TokenAt, Lex, LexedAt, SkipBlanks, Build, BuildArray, Spells, ListSpells, G.IsBlanks;
    var l := LexedAt(c.text, q, err);
    TokenIsAt(c.text, q, err);
    if l.token.kind.ArrayEnd? {
      es := G.EndOfArray;
      EndSpells(c, q, k, err, items);
    } else {
      ArrayStep(c, l, k, items);
      ItemToken(c, q, k, err);
      var x := ValueOf(c, q, k, err, false);
      var r := Build(c, q, k, err, false);
      SpelledOn(c, q, k, err, x, r);
      BlanksOf(c.text, r.pos, err);
      var p2 := SkipBlanks(c.text, r.pos);
      TokenIsAt(c.text, p2, err);
      PunctuationKind(c.text, p2, err);
      if LexedAt(c.text, p2, err).token.kind.ArrayEnd? {
        es := G.LastElement(x, c.text[r.pos..p2]);
        LastSpells(c, q, k, err, items, x, r, p2);
      } else {
        BlanksOf(c.text, p2 + 1, err);
        var p3 := SkipBlanks(c.text, p2 + 1);
        var rest := ElementsOf(c, p3, k, err, items + [r.value]);
        es := G.Element(x, c.text[r.pos..p2], c.text[p2 + 1..p3], rest);
        ElementSpells(c, q, k, err, items, x, r, p2, p3, rest, BuildArray(c, LexedAt(c.text, p3, err), k, items + [r.value]));
      }
    }
  }

  lemma SpelledOn(c: Config, q: nat, k: nat, err: ErrorCode, x: G.Syntax, r: Outcome)
    requires Spells(c, q, k, err, x, r)
    ensures r.Built? && r.err == err && q < r.pos <= |c.text|
  {
    SpellingStart(DialectOf(c), x);
    WordFits(c.text, q, G.Spelling(x));
  }

  /** Where a bracket or separator was read, it stands in the text. */
  lemma PunctuationKind(text: string, p: nat, err: ErrorCode)
    requires p <= |text|
    ensures var l := LexedAt(text, p, err); var kind := l.token.kind;
            kind.ArrayEnd? || kind.ObjectEnd? || kind.ListSeparator? || kind.PairSeparator? ==>
              && p < |text| && l.token.length == 1 && l.err == err && l.pos == p
              && text[p] == (if kind.ArrayEnd? then ']' else if kind.ObjectEnd? then '}' else if kind.ListSeparator? then ',' else ':')
  {
    hide TokenAt;
    TokenOfChar(text, p, err);
  }

  lemma EndSpells(c: Config, q: nat, k: nat, err: ErrorCode, items: seq<Value>)
    requires q <= |c.text| && LexedAt(c.text, q, err).token.kind.ArrayEnd? && k <= STACK_LIMIT
    ensures q < |c.text| && ListSpells(c, q, k, err, items, G.EndOfArray, BuildArray(c, LexedAt(c.text, q, err), k, items))
  {
    hide HasWord, TokenAt, LexedAt, BuildArray;
    TokenIsAt(c.text, q, err);
    PunctuationKind(c.text, q, err);
    ArrayDone(c, LexedAt(c.text, q, err), k, items);
    OneChar(c.text, q);
    assert items + [] == items;
  }

  lemma LastSpells(c: Config, q: nat, k: nat, err: ErrorCode, items: seq<Value>, x: G.Syntax, r: Outcome, p2: nat)
    requires Spells(c, q, k, err, x, r) && r.pos <= p2 < |c.text| && G.IsBlanks(c.text[r.pos..p2]) && c.text[p2] == ']'
    ensures ListSpells(c, q, k, err, items, G.LastElement(x, c.text[r.pos..p2]), Built(List(items + [r.value]), p2 + 1, err))
  {
    hide HasWord, G.Spelling, G.Legal, G.Meaning, G.Nesting, G.IsBlanks;
    var after := c.text[r.pos..p2];
    OneChar(c.text, p2);
    Slice(c.text, r.pos, p2);
    WordJoin(c.text, r.pos, after, "]");
    WordJoin(c.text, q, G.Spelling(x), after + "]");
  }

  lemma ElementSpells(c: Config, q: nat, k: nat, err: ErrorCode, items: seq<Value>, x: G.Syntax, r: Outcome, p2: nat, p3: nat,
                      rest: G.Elements, whole: Outcome)
    requires Spells(c, q, k, err, x, r) && r.pos <= p2 < p3 <= |c.text| && c.text[p2] == ','
    requires G.IsBlanks(c.text[r.pos..p2]) && G.IsBlanks(c.text[p2 + 1..p3])
    requires ListSpells(c, p3, k, err, items + [r.value], rest, whole) && (rest.EndOfArray? ==> c.allowTrailingComma)
    ensures ListSpells(c, q, k, err, items, G.Element(x, c.text[r.pos..p2], c.text[p2 + 1..p3], rest), whole)
  {
    hide HasWord, G.Spelling, G.Legal, G.Meaning, G.Nesting, G.IsBlanks;
    var after, before, word := c.text[r.pos..p2], c.text[p2 + 1..p3], G.ElementsSpelling(rest);
    SeparatorJoins(c.text, q, G.Spelling(x), p2, p3, word);
    Appended(items, r.value, G.Items(DialectOf(c), rest));
  }

  /** What stands at `q`, blanks, a separator, blanks, and what stands at `p3`. */
  lemma SeparatorJoins(text: string, q: nat, head: string, p2: nat, p3: nat, word: string)
    requires HasWord(text, q, head) && q + |head| <= p2 < p3 <= |text| && HasWord(text, p3, word)
    ensures HasWord(text, q, head + (text[q + |head|..p2] + ([text[p2]] + (text[p2 + 1..p3] + word))))
  {
    hide HasWord;
    var p := q + |head|;
    OneChar(text, p2);
    Slice(text, p, p2);
    Slice(text, p2 + 1, p3);
    WordJoin(text, p2 + 1, text[p2 + 1..p3], word);
    WordJoin(text, p2, [text[p2]], text[p2 + 1..p3] + word);
    WordJoin(text, p, text[p..p2], [text[p2]] + (text[p2 + 1..p3] + word));
    WordJoin(text, q, head, text[p..p2] + ([text[p2]] + (text[p2 + 1..p3] + word)));
  }

  // ---- Members ---------------------------------------------------------------------------

  ghost predicate DictSpells(c: Config, q: nat, k: nat, err: ErrorCode, entries: seq<Entry>, ms: G.Members, r: Outcome) {
    && r.Built? && HasWord(c.text, q, G.MembersSpelling(ms)) && r.pos == q + |G.MembersSpelling(ms)| && r.err == err
    && G.LegalMembers(DialectOf(c), ms) && r.value == Dict(G.Gathered(entries, G.Pairs(DialectOf(c), ms)))
    && k + G.MembersNesting(ms) <= STACK_LIMIT
  }

  lemma ObjectJoins(c: Config, q: nat, k: nat, err: ErrorCode, start: nat, ms: G.Members, r: Outcome)
    requires q < start < |c.text| && c.text[q] == '{' && G.IsBlanks(c.text[q + 1..start]) && k > 0
    requires DictSpells(c, start, k, err, [], ms, r)
    ensures Spells(c, q, k - 1, err, G.Object(c.text[q + 1..start], ms), r)
  {
    hide HasWord, G.IsBlanks, G.Pairs, G.Gathered, G.MembersNesting, G.LegalMembers, G.MembersSpelling;
    var blanks, word := c.text[q + 1..start], G.MembersSpelling(ms);
    OneChar(c.text, q);
    Slice(c.text, q + 1, start);
    WordJoin(c.text, q + 1, blanks, word);
    WordJoin(c.text, q, "{", blanks + word);
  }

  lemma {:induction false} ObjectOf(c: Config, q: nat, k: nat, err: ErrorCode) returns (x: G.Syntax)
    requires q < |c.text| && 0 < k <= STACK_LIMIT
    requires LexedAt(c.text, q, err).token.kind.ObjectBegin? && ValueAt(c, LexedAt(c.text, q, err), k).Built?
    ensures Spells(c, q, k - 1, err, x, ValueAt(c, LexedAt(c.text, q, err), k)) && x.Object?
    decreases |c.text| - q, 0
  {
    hide HasWord, TokenAt, Lex, SkipBlanks, BuildArray, BuildObject, DecodeNumber, DecodeString, G.IsBlanks, DictSpells, Spells;
    TokenOfChar(c.text, q, err);
    AtChar(c.text, q);
    BlanksOf(c.text, q + 1, err);
    var start := SkipBlanks(c.text, q + 1);
    var ms := MembersOf(c, start, k, err, []);
    x := G.Object(c.text[q + 1..start], ms);
    ObjectJoins(c, q, k, err, start, ms, ValueAt(c, LexedAt(c.text, q, err), k));
  }

  /** What stands where a member was read: the text from `q` to `p` spells the pair. */
  ghost predicate PairSpells(c: Config, q: nat, k: nat, pair: G.Pair, entry: Entry, p: nat) {
    && HasWord(c.text, q, G.PairSpelling(pair, "")) && p == q + |G.PairSpelling(pair, "")|
    && G.LegalPair(DialectOf(c), pair) && G.PairMeaning(DialectOf(c), pair) == entry
    && k + G.Nesting(pair.value) <= STACK_LIMIT
  }

  lemma {:induction false} PairOf(c: Config, q: nat, k: nat, err: ErrorCode) returns (pair: G.Pair)
    requires q <= |c.text| && BuildMember(c, LexedAt(c.text, q, err), k).Member?
    ensures var m := BuildMember(c, LexedAt(c.text, q, err), k);
            PairSpells(c, q, k, pair, m.entry, m.pos) && m.err == err && q < m.pos <= |c.text|
    decreases |c.text| - q, 2
  {
    hide HasWord, TokenAt, Lex, SkipBlanks, Build, DecodeString, ScanString, Spells, PairSpells, G.IsBlanks, G.LegalText, G.TextSpelling,
      G.TextMeaning;
    var l := LexedAt(c.text, q, err);
    var key := TextOf(DialectOf(c), c.text, q, l.token.length);
    var p1 := q + l.token.length;
    BlanksOf(c.text, p1, err);
    var p2 := SkipBlanks(c.text, p1);
    PunctuationKind(c.text, p2, err);
    BlanksOf(c.text, p2 + 1, err);
    var p3 := SkipBlanks(c.text, p2 + 1);
    ItemToken(c, p3, k, err);
    var x := ValueOf(c, p3, k, err, false);
    pair := G.Pair(key, c.text[p1..p2], c.text[p2 + 1..p3], x);
    var r := Build(c, p3, k, err, false);
    SpelledOn(c, p3, k, err, x, r);
    PairJoins(c, q, k, err, key, p1, p2, p3, x, r);
  }

  lemma PairJoins(c: Config, q: nat, k: nat, err: ErrorCode, key: seq<G.Piece>, p1: nat, p2: nat, p3: nat, x: G.Syntax, r: Outcome)
    requires G.LegalText(DialectOf(c), key) && HasWord(c.text, q, G.TextSpelling(key)) && p1 == q + |G.TextSpelling(key)|
    requires p1 <= p2 < p3 < |c.text| && c.text[p2] == ':' && Spells(c, p3, k, err, x, r)
    requires G.IsBlanks(c.text[p1..p2]) && G.IsBlanks(c.text[p2 + 1..p3])
    ensures PairSpells(c, q, k, G.Pair(key, c.text[p1..p2], c.text[p2 + 1..p3], x),
                       Entry(G.TextMeaning(DialectOf(c), key), r.value), r.pos)
  {
    hide HasWord, G.Spelling, G.TextSpelling, G.TextMeaning, G.Legal, G.Meaning, G.Nesting, G.IsBlanks, G.LegalText;
    assert G.Spelling(x) + "" == G.Spelling(x);
    SeparatorJoins(c.text, q, G.TextSpelling(key), p2, p3, G.Spelling(x));
  }

  lemma PairBehind(pair: G.Pair, behind: string)
    ensures G.PairSpelling(pair, behind) == G.PairSpelling(pair, "") + behind
  {
    hide G.Spelling, G.TextSpelling;
    var a, b, d, e := G.TextSpelling(pair.key), pair.beforeColon, pair.afterColon, G.Spelling(pair.value);
    assert e + "" == e;
    assert (d + e) + behind == d + (e + behind);
    assert (":" + (d + e)) + behind == ":" + ((d + e) + behind);
    assert (b + (":" + (d + e))) + behind == b + ((":" + (d + e)) + behind);
    assert (a + (b + (":" + (d + e)))) + behind == a + ((b + (":" + (d + e))) + behind);
  }

  /** From a key or the closing brace on, what was built is spelled. */
  lemma {:induction false} MembersOf(c: Config, q: nat, k: nat, err: ErrorCode, entries: seq<Entry>) returns (ms: G.Members)
    requires q <= |c.text| && SkipBlanks(c.text, q) == q && 0 < k <= STACK_LIMIT
    requires BuildObject(c, LexedAt(c.text, q, err), k, entries).Built?
    ensures q < |c.text| && DictSpells(c, q, k, err, entries, ms, BuildObject(c, LexedAt(c.text, q, err), k, entries))
    ensures ms.EndOfObject? <==> LexedAt(c.text, q, err).token.kind.ObjectEnd?
    decreases |c.text| - q, 3
  {
    hide HasWord, TokenAt, Lex, LexedAt, SkipBlanks, BuildMember, BuildObject, PairSpells, DictSpells, G.IsBlanks, SetEntry;
    var l := LexedAt(c.text, q, err);
    TokenIsAt(c.text, q, err);
    if l.token.kind.ObjectEnd? {
      ms := G.EndOfObject;
      BraceSpells(c, q, k, err, entries);
    } else {
      ObjectStep(c, l, k, entries);
      var pair := PairOf(c, q, k, err);
      var m := BuildMember(c, l, k);
      BlanksOf(c.text, m.pos, err);
      var p2 := SkipBlanks(c.text, m.pos);
      PunctuationKind(c.text, p2, err);
      if LexedAt(c.text, p2, err).token.kind.ObjectEnd? {
        ms := G.LastMember(pair, c.text[m.pos..p2]);
        LastMemberSpells(c, q, k, err, entries, pair, m.entry, m.pos, p2);
      } else {
        BlanksOf(c.text, p2 + 1, err);
        var p3 := SkipBlanks(c.text, p2 + 1);
        var more := SetEntry(entries, m.entry.key, m.entry.value);
        var rest := MembersOf(c, p3, k, err, more);
        ms := G.Member(pair, c.text[m.pos..p2], c.text[p2 + 1..p3], rest);
        MemberSpells(c, q, k, err, entries, pair, m.entry, m.pos, p2, p3, rest, BuildObject(c, LexedAt(c.text, p3, err), k, more));
      }
    }
  }

  lemma BraceSpells(c: Config, q: nat, k: nat, err: ErrorCode, entries: seq<Entry>)
    requires q <= |c.text| && LexedAt(c.text, q, err).token.kind.ObjectEnd? && k <= STACK_LIMIT
    ensures q < |c.text| && DictSpells(c, q, k, err, entries, G.EndOfObject, BuildObject(c, LexedAt(c.text, q, err), k, entries))
  {
    hide HasWord, TokenAt, LexedAt, BuildObject;
    TokenIsAt(c.text, q, err);
    PunctuationKind(c.text, q, err);
    ObjectDone(c, LexedAt(c.text, q, err), k, entries);
    OneChar(c.text, q);
  }

  lemma LastMemberSpells(c: Config, q: nat, k: nat, err: ErrorCode, entries: seq<Entry>, pair: G.Pair, m: Entry, p: nat, p2: nat)
    requires PairSpells(c, q, k, pair, m, p) && p <= p2 < |c.text| && G.IsBlanks(c.text[p..p2]) && c.text[p2] == '}'
    ensures DictSpells(c, q, k, err, entries, G.LastMember(pair, c.text[p..p2]),
                       Built(Dict(SetEntry(entries, m.key, m.value)), p2 + 1, err))
  {
    hide HasWord, G.PairSpelling, G.LegalPair, G.PairMeaning, G.Nesting, G.IsBlanks, SetEntry, G.Gathered;
    var after := c.text[p..p2];
    OneChar(c.text, p2);
    Slice(c.text, p, p2);
    WordJoin(c.text, p, after, "}");
    WordJoin(c.text, q, G.PairSpelling(pair, ""), after + "}");
    PairBehind(pair, after + "}");
    OnePair(entries, m, []);
  }

  lemma MemberSpells(c: Config, q: nat, k: nat, err: ErrorCode, entries: seq<Entry>, pair: G.Pair, m: Entry, p: nat, p2: nat, p3: nat,
                     rest: G.Members, whole: Outcome)
    requires PairSpells(c, q, k, pair, m, p) && p <= p2 < p3 <= |c.text| && c.text[p2] == ','
    requires G.IsBlanks(c.text[p..p2]) && G.IsBlanks(c.text[p2 + 1..p3])
    requires DictSpells(c, p3, k, err, SetEntry(entries, m.key, m.value), rest, whole)
    requires rest.EndOfObject? ==> c.allowTrailingComma
    ensures DictSpells(c, q, k, err, entries, G.Member(pair, c.text[p..p2], c.text[p2 + 1..p3], rest), whole)
  {
    hide HasWord, G.PairSpelling, G.LegalPair, G.PairMeaning, G.Nesting, G.IsBlanks, SetEntry, G.Gathered;
    var after, before, word := c.text[p..p2], c.text[p2 + 1..p3], G.MembersSpelling(rest);
    SeparatorJoins(c.text, q, G.PairSpelling(pair, ""), p2, p3, word);
    PairBehind(pair, after + ("," + (before + word)));
    OnePair(entries, m, G.Pairs(DialectOf(c), rest));
  }

  // ---- Whole texts -----------------------------------------------------------------------

  lemma EndStart(s: string)
    requires G.IsEnd(s) && s != ""
    ensures EndsNumber(s[0])
  {
    var n :| 0 <= n <= |s| && G.IsBlanks(s[..n]) && (n == |s| || s[n] == '\0' || G.IsOpenComment(s[n..]));
    if n > 0 {
      BlanksStart(s[..n]);
      assert s[..n][0] == s[0];
    } else {
      assert s[0..] == s;
    }
  }

  /** The byte-order mark is skipped, and nothing else. */
  lemma StartIs(d: G.Document, g: G.Dialect)
    requires G.IsBlanks(d.blanks) && G.Legal(g, d.root)
    ensures var text := G.DocumentSpelling(d);
            && Start(text) == (if d.mark then 3 else 0)
            && HasWord(text, Start(text), d.blanks + (G.Spelling(d.root) + d.end))
  {
    hide G.IsBlanks, G.IsEnd, G.Spelling, G.Legal;
    var text, word := G.DocumentSpelling(d), d.blanks + (G.Spelling(d.root) + d.end);
    SpellingStart(g, d.root);
    if d.mark {
      assert text[0] == G.BYTE_ORDER_MARK[0] && text[1] == G.BYTE_ORDER_MARK[1] && text[2] == G.BYTE_ORDER_MARK[2];
      assert text[3..] == word;
    } else {
      assert text == word;
      if d.blanks != "" { BlanksStart(d.blanks); } else { ValueStart(G.Spelling(d.root)[0]); }
      assert text[0] == if d.blanks != "" then d.blanks[0] else G.Spelling(d.root)[0];
    }
  }

  lemma DocumentReads(c: Config, checkRoot: bool, d: G.Document)
    requires G.LegalDocument(DialectOf(c), d) && G.DocumentSpelling(d) == c.text && G.Nesting(d.root) <= STACK_LIMIT
    requires checkRoot ==> d.root.Array? || d.root.Object?
    ensures Read(c, checkRoot) == Root(G.Meaning(DialectOf(c), d.root))
  {
    hide HasWord, Lex, SkipBlanks, Build, Start, EndsNumber, G.DocumentSpelling, G.IsBlanks, G.IsEnd, G.Spelling, G.Legal, G.Meaning,
      G.Nesting;
    var g, p := DialectOf(c), Start(c.text);
    StartIs(d, g);
    RootStart(c.text, p, d.blanks, G.Spelling(d.root), d.end, g, d.root);
    var q := p + |d.blanks|;
    var e := q + |G.Spelling(d.root)|;
    assert c.text[e..] == d.end by { EndOfText(c.text, d); }
    EndBehind(c.text, e);
    ValueReads(c, p, q, 0, NoError, checkRoot, d.root);
    EndExactlyWhen(c.text, e, NoError);
  }

  lemma RootStart(text: string, p: nat, blanks: string, word: string, end: string, g: G.Dialect, x: G.Syntax)
    requires HasWord(text, p, blanks + (word + end)) && G.IsBlanks(blanks) && G.Legal(g, x) && word == G.Spelling(x)
    ensures SkipBlanks(text, p) == p + |blanks| && HasWord(text, p + |blanks|, word) && p + |blanks| + |word| <= |text|
  {
    hide HasWord, Lex, SkipBlanks, TokenAt, G.IsBlanks, G.Spelling, G.Legal, StartsValue, NoBlank;
    SpellingStart(g, x);
    ValueStart(word[0]);
    LexBlanks(text, p, blanks, word + end, NoError);
    WordSplit(text, p + |blanks|, word, end);
    WordFits(text, p + |blanks|, word);
  }

  lemma EndOfText(text: string, d: G.Document)
    requires text == G.DocumentSpelling(d)
    ensures var e := (if d.mark then 3 else 0) + |d.blanks| + |G.Spelling(d.root)|; e <= |text| && text[e..] == d.end
  {
  }

  lemma EndBehind(text: string, e: nat)
    requires e <= |text| && G.IsEnd(text[e..])
    ensures EndsNumber(At(text, e))
  {
    if e < |text| {
      EndStart(text[e..]);
      assert text[e..][0] == text[e];
    }
  }

  lemma DocumentOf(c: Config, checkRoot: bool) returns (d: G.Document)
    requires Read(c, checkRoot).Root?
    ensures G.LegalDocument(DialectOf(c), d) && G.DocumentSpelling(d) == c.text && G.Nesting(d.root) <= STACK_LIMIT
    ensures Read(c, checkRoot) == Root(G.Meaning(DialectOf(c), d.root))
    ensures checkRoot ==> d.root.Array? || d.root.Object?
  {
    hide HasWord, Lex, SkipBlanks, Build, Start, Spells, G.IsBlanks, G.IsEnd, G.LegalDocument, G.DocumentSpelling, G.Meaning, BlanksAt;
    var p := Start(c.text);
    var q := SkipBlanks(c.text, p);
    var r := Build(c, p, 0, NoError, checkRoot);
    var x := ValueOf(c, p, 0, NoError, checkRoot);
    SpelledOn(c, q, 0, NoError, x, r);
    EndExactlyWhen(c.text, r.pos, r.err);
    d := G.Document(p == 3, BlanksAt(c, p), x, c.text[r.pos..]);
    DocumentJoins(c, p, q, x, r);
  }

  lemma DocumentJoins(c: Config, p: nat, q: nat, x: G.Syntax, r: Outcome)
    requires p == Start(c.text) && q == SkipBlanks(c.text, p) && q < |c.text| && G.IsBlanks(BlanksAt(c, p))
    requires Spells(c, q, 0, NoError, x, r) && q < r.pos <= |c.text| && G.IsEnd(c.text[r.pos..])
    ensures var d := G.Document(p == 3, BlanksAt(c, p), x, c.text[r.pos..]);
            && G.LegalDocument(DialectOf(c), d) && G.DocumentSpelling(d) == c.text && G.Meaning(DialectOf(c), d.root) == r.value
            && G.Nesting(d.root) <= STACK_LIMIT
  {
    hide HasWord, SkipBlanks, Start, G.IsBlanks, G.IsEnd, G.Spelling, G.Legal, G.Meaning, G.Nesting, G.DocumentSpelling;
    WordIs(c.text, q, G.Spelling(x));
    DocumentCut(c.text, p, q, r.pos, x);
  }

  lemma WordIs(text: string, q: nat, s: string)
    requires HasWord(text, q, s)
    ensures q + |s| <= |text| && text[q..q + |s|] == s
  {
  }

  lemma DocumentCut(text: string, p: nat, q: nat, e: nat, x: G.Syntax)
    requires p == Start(text) && p <= q <= e <= |text| && text[q..e] == G.Spelling(x)
    ensures G.DocumentSpelling(G.Document(p == 3, text[p..q], x, text[e..])) == text
  {
    hide Start, G.Spelling;
    MarkIs(text);
    Cut(text, p, q, e);
  }

  lemma MarkIs(text: string)
    ensures Start(text) == 0 || (Start(text) == 3 && text[..3] == G.BYTE_ORDER_MARK)
  {
  }

  lemma Cut(text: string, a: nat, b: nat, c: nat)
    requires a <= b <= c <= |text|
    ensures text == text[..a] + (text[a..b] + (text[b..c] + text[c..]))
    ensures text[..0] == ""
  {
  }

  /** The parser accepts a text as a value exactly if the grammar has the text, within 100 levels,
      and it denotes that value; with the check of the root, only arrays and objects. */
  lemma ReadsExactlyWhen(c: Config, checkRoot: bool, v: Value)
    ensures Read(c, checkRoot) == Root(v) <==> G.Denotes(DialectOf(c), 100, c.text, v) && (checkRoot ==> G.IsContainer(v))
  {
    hide Read, G.IsBlanks, G.IsEnd, G.Legal, G.Meaning, G.Nesting, G.DocumentSpelling;
    var g := DialectOf(c);
    if Read(c, checkRoot) == Root(v) {
      var d := DocumentOf(c, checkRoot);
      RootKind(g, d);
    }
    if G.Denotes(g, 100, c.text, v) && (checkRoot ==> G.IsContainer(v)) {
      var d :| G.LegalDocument(g, d) && G.DocumentSpelling(d) == c.text && G.Meaning(g, d.root) == v && G.Nesting(d.root) <= 100;
      RootKind(g, d);
      DocumentReads(c, checkRoot, d);
    }
  }

  lemma RootKind(g: G.Dialect, d: G.Document)
    requires G.LegalDocument(g, d)
    ensures G.Legal(g, d.root) && (G.IsContainer(G.Meaning(g, d.root)) <==> d.root.Array? || d.root.Object?)
  {
  }

  /** No text denotes two values. */
  lemma Unambiguous(g: G.Dialect, text: string, v: Value, w: Value)
    requires !g.unicode && G.Denotes(g, 100, text, v) && G.Denotes(g, 100, text, w)
    ensures v == w
  {
    var c := Config(text, g.trailingComma, g.parseDouble);
    assert DialectOf(c) == g;
    hide Read, G.Denotes;
    ReadsExactlyWhen(c, false, v);
    ReadsExactlyWhen(c, false, w);
  }
}
