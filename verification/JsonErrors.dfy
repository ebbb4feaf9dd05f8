/** Why the parser rejects a text that a more generous reader would accept: one that lets commas
    trail, goes deeper, takes any root, or stops behind the root. */
module JsonErrors {
  import opened NumberConversions
  import opened Values
  import opened Wrappers
  import opened JsonReader
  import opened JsonRoundTrip
  import opened JsonLexemes
  import opened JsonAcceptance
  import G = JsonGrammar

  // ---- Trailing commas -------------------------------------------------------------------

  function Lenient(c: Config): Config {
    c.(allowTrailingComma := true)
  }

  /** Where the lenient parser builds a value, the strict one builds the same or stops at a
      trailing comma. */
  predicate SameOrComma(strict: Outcome, lenient: Outcome) {
    lenient.Built? ==> strict == lenient || strict == Failed(TrailingComma)
  }

  lemma {:induction false} StrictValue(c: Config, p: nat, k: nat, err: ErrorCode, isRoot: bool)
    requires p <= |c.text|
    ensures SameOrComma(Build(c, p, k, err, isRoot), Build(Lenient(c), p, k, err, isRoot))
    decreases |c.text| - p, 0
  {
    hide TokenAt, SkipBlanks, DecodeString, BuildArray, BuildObject, Build, ScanString;
    BuildStep(c, p, k, err, isRoot);
    BuildStep(Lenient(c), p, k, err, isRoot);
    var l := Lex(c.text, p, err);
    if l.token.kind.ArrayBegin? {
      StrictArray(c, Lex(c.text, l.pos + l.token.length, l.err), k + 1, []);
    } else if l.token.kind.ObjectBegin? {
      StrictObject(c, Lex(c.text, l.pos + l.token.length, l.err), k + 1, []);
    }
  }

  lemma {:induction false} StrictArray(c: Config, l: Lexed, k: nat, items: seq<Value>)
    requires IsTokenAt(c.text, l.token, l.pos)
    ensures SameOrComma(BuildArray(c, l, k, items), BuildArray(Lenient(c), l, k, items))
    decreases |c.text| - l.pos, 1
  {
    hide Lex, Build, ScanString;
    StrictValue(c, l.pos, k, l.err, false);
    var r := Build(Lenient(c), l.pos, k, l.err, false);
    if !l.token.kind.ArrayEnd? && r.Built? {
      var after := Lex(c.text, r.pos, r.err);
      if after.token.kind.ListSeparator? {
        StrictArray(c, Lex(c.text, after.pos + after.token.length, after.err), k, items + [r.value]);
      }
    }
  }

  lemma {:induction false} StrictMember(c: Config, l: Lexed, k: nat)
    requires IsTokenAt(c.text, l.token, l.pos)
    ensures BuildMember(Lenient(c), l, k).Member? ==>
              BuildMember(c, l, k) == BuildMember(Lenient(c), l, k) || BuildMember(c, l, k) == NoMember(TrailingComma)
    decreases |c.text| - l.pos, 0
  {
    hide Lex, Build, ScanString, DecodeString;
    if l.token.kind.StringToken? && DecodeString(c.text, l.pos, l.token.length).Some? {
      var colon := Lex(c.text, l.pos + l.token.length, l.err);
      if colon.token.kind.PairSeparator? {
        var start := Lex(c.text, colon.pos + colon.token.length, colon.err);
        StrictValue(c, start.pos, k, start.err, false);
      }
    }
  }

  lemma {:induction false} StrictObject(c: Config, l: Lexed, k: nat, entries: seq<Entry>)
    requires IsTokenAt(c.text, l.token, l.pos)
    ensures SameOrComma(BuildObject(c, l, k, entries), BuildObject(Lenient(c), l, k, entries))
    decreases |c.text| - l.pos, 1
  {
    hide Lex, BuildMember, BuildObject, ScanString, SetEntry;
    if l.token.kind.ObjectEnd? {
      ObjectDone(c, l, k, entries);
      ObjectDone(Lenient(c), l, k, entries);
    } else {
      ObjectStep(c, l, k, entries);
      ObjectStep(Lenient(c), l, k, entries);
      StrictMember(c, l, k);
      var m := BuildMember(Lenient(c), l, k);
      if m.Member? {
        var after := Lex(c.text, m.pos, m.err);
        if after.token.kind.ListSeparator? {
          StrictObject(c, Lex(c.text, after.pos + after.token.length, after.err), k, SetEntry(entries, m.entry.key, m.entry.value));
        }
      }
    }
  }

  /** A text that denotes a value only if commas may trail is rejected for its trailing comma. */
  lemma TrailingCommaRejected(c: Config, checkRoot: bool, v: Value)
    requires !c.allowTrailingComma && (checkRoot ==> G.IsContainer(v))
    requires G.Denotes(DialectOf(c).(trailingComma := true), 100, c.text, v) && !G.Denotes(DialectOf(c), 100, c.text, v)
    ensures Read(c, checkRoot) == Error(TrailingComma)
  {
    hide Build, Lex, G.Denotes, Start;
    assert DialectOf(Lenient(c)) == DialectOf(c).(trailingComma := true);
    ReadsExactlyWhen(Lenient(c), checkRoot, v);
    ReadsExactlyWhen(c, checkRoot, v);
    StrictValue(c, Start(c.text), 0, NoError, checkRoot);
  }

  // ---- Nesting ---------------------------------------------------------------------------

  /** A legal value that goes beyond the nesting limit is rejected for that, wherever it starts. */
  lemma {:induction false} DeepValue(c: Config, p: nat, q: nat, k: nat, err: ErrorCode, isRoot: bool, x: G.Syntax)
    requires p <= |c.text| && SkipBlanks(c.text, p) == q && HasWord(c.text, q, G.Spelling(x))
    requires EndsNumber(At(c.text, q + |G.Spelling(x)|))
    requires G.Legal(DialectOf(c), x) && k + G.Nesting(x) > STACK_LIMIT
    requires isRoot ==> x.Array? || x.Object?
    ensures Build(c, p, k, err, isRoot) == Failed(TooMuchNesting)
    decreases x, 1
  {
    hide HasWord, SkipBlanks, Build, ValueAt, Lex, LexedAt, EndsNumber, At, G.LegalText, G.LegalElements, G.LegalMembers, G.IsBlanks,
      G.IsNumeral, G.NumeralMeaning;
    WordFits(c.text, q, G.Spelling(x));
    LexIs(c.text, p, q, err);
    BuildStep(c, p, k, err, isRoot);
    if k + 1 <= STACK_LIMIT {
      match x
      case Array(blanks, es) => DeepArray(c, q, k + 1, err, blanks, es);
      case Object(blanks, ms) => DeepObject(c, q, k + 1, err, blanks, ms);
      case _ =>
    }
  }

  lemma {:induction false} DeepArray(c: Config, q: nat, k: nat, err: ErrorCode, blanks: string, es: G.Elements)
    requires HasWord(c.text, q, "[" + (blanks + G.ElementsSpelling(es)))
    requires G.IsBlanks(blanks) && G.LegalElements(DialectOf(c), es) && k <= STACK_LIMIT < k + G.ElementsNesting(es)
    ensures LexedAt(c.text, q, err).token.kind.ArrayBegin?
    ensures ValueAt(c, LexedAt(c.text, q, err), k) == Failed(TooMuchNesting)
    decreases es, 4
  {
    hide HasWord, TokenAt, BuildArray, BuildObject, DecodeNumber, DecodeString, ScanString, Lex, SkipBlanks, StartsValue, NoBlank,
      G.IsBlanks, G.ElementsSpelling, G.LegalElements, G.ElementsNesting, At;
    var word := G.ElementsSpelling(es);
    WordSplit(c.text, q, "[", blanks + word);
    WordChar(c.text, q, "[", 0);
    WordFits(c.text, q, "[");
    AtChar(c.text, q);
    TokenOfChar(c.text, q, err);
    ElementsStart(DialectOf(c), es);
    if es.EndOfArray? { BracketIs(word[0]); } else { ValueStart(word[0]); }
    LexBlanks(c.text, q + 1, blanks, word, err);
    DeepElements(c, q + 1 + |blanks|, k, err, [], es);
  }

  lemma {:induction false} DeepObject(c: Config, q: nat, k: nat, err: ErrorCode, blanks: string, ms: G.Members)
    requires HasWord(c.text, q, "{" + (blanks + G.MembersSpelling(ms)))
    requires G.IsBlanks(blanks) && G.LegalMembers(DialectOf(c), ms) && k <= STACK_LIMIT < k + G.MembersNesting(ms)
    ensures LexedAt(c.text, q, err).token.kind.ObjectBegin?
    ensures ValueAt(c, LexedAt(c.text, q, err), k) == Failed(TooMuchNesting)
    decreases ms, 5
  {
    hide HasWord, TokenAt, BuildArray, BuildObject, DecodeNumber, DecodeString, ScanString, Lex, SkipBlanks, StartsValue, NoBlank,
      G.IsBlanks, G.MembersSpelling, G.LegalMembers, G.MembersNesting, At;
    var word := G.MembersSpelling(ms);
    WordSplit(c.text, q, "{", blanks + word);
    WordChar(c.text, q, "{", 0);
    WordFits(c.text, q, "{");
    AtChar(c.text, q);
    TokenOfChar(c.text, q, err);
    MembersStart(ms);
    BracketIs(word[0]);
    LexBlanks(c.text, q + 1, blanks, word, err);
    DeepMembers(c, q + 1 + |blanks|, k, err, [], ms);
  }

  /** One element too deep, with what stands behind it. */
  lemma {:induction false} DeepElement(c: Config, q: nat, k: nat, err: ErrorCode, x: G.Syntax, after: string, word: string)
    requires HasWord(c.text, q, G.Spelling(x) + (after + word)) && word != "" && IsPunctuation(word[0])
    requires G.Legal(DialectOf(c), x) && G.IsBlanks(after) && k + G.Nesting(x) > STACK_LIMIT
    ensures Build(c, q, k, LexedAt(c.text, q, err).err, false) == Failed(TooMuchNesting)
    ensures StartsValue(At(c.text, q)) && SkipBlanks(c.text, q) == q
    decreases x, 2
  {
    hide HasWord, TokenAt, Lex, Build, G.Spelling, G.Legal, G.IsBlanks, StartsValue, NoBlank, LexedAt, EndsNumber, G.Nesting;
    WordSplit(c.text, q, G.Spelling(x), after + word);
    WordFits(c.text, q, G.Spelling(x));
    Behind(c.text, q + |G.Spelling(x)|, after, word);
    SpellingStart(DialectOf(c), x);
    WordChar(c.text, q, G.Spelling(x), 0);
    NoSkip(c.text, q);
    DeepValue(c, q, q, k, LexedAt(c.text, q, err).err, false, x);
  }

  lemma {:induction false} DeepElements(c: Config, q: nat, k: nat, err: ErrorCode, items: seq<Value>, es: G.Elements)
    requires HasWord(c.text, q, G.ElementsSpelling(es)) && G.LegalElements(DialectOf(c), es)
    requires k <= STACK_LIMIT < k + G.ElementsNesting(es)
    ensures BuildArray(c, LexedAt(c.text, q, err), k, items) == Failed(TooMuchNesting)
    decreases es, 3
  {
    hide HasWord, LexedAt, Lex, Build, BuildArray, G.Spelling, G.Legal, G.Meaning, G.IsBlanks, StartsValue, G.Nesting, At, IsPunctuation;
    if es.Element? && k + G.Nesting(es.element) <= STACK_LIMIT {
      OneElementRead(c, q, k, err, items, es.element, es.after, es.before, es.rest);
      DeepElements(c, q + |G.Spelling(es.element)| + |es.after| + 1 + |es.before|, k, err,
                   items + [G.Meaning(DialectOf(c), es.element)], es.rest);
    } else {
      var word := if es.LastElement? then "]" else "," + (es.before + G.ElementsSpelling(es.rest));
      PunctuationIs(word[0]);
      DeepElement(c, q, k, err, es.element, es.after, word);
      DeepFirst(c, q, k, err, items);
    }
  }

  lemma PunctuationIs(c: char)
    ensures c == ']' || c == '}' || c == ',' || c == ':' ==> IsPunctuation(c)
  {
  }

  lemma DeepFirst(c: Config, q: nat, k: nat, err: ErrorCode, items: seq<Value>)
    requires q <= |c.text| && StartsValue(At(c.text, q))
    requires Build(c, q, k, LexedAt(c.text, q, err).err, false) == Failed(TooMuchNesting)
    ensures BuildArray(c, LexedAt(c.text, q, err), k, items) == Failed(TooMuchNesting)
  {
    hide LexedAt, Lex, Build, BuildArray, StartsValue, At;
    TokenIsAt(c.text, q, err);
    ValueStart(At(c.text, q));
    ArrayStep(c, LexedAt(c.text, q, err), k, items);
  }

  lemma {:induction false} DeepMembers(c: Config, q: nat, k: nat, err: ErrorCode, entries: seq<Entry>, ms: G.Members)
    requires HasWord(c.text, q, G.MembersSpelling(ms)) && G.LegalMembers(DialectOf(c), ms)
    requires k <= STACK_LIMIT < k + G.MembersNesting(ms)
    ensures BuildObject(c, LexedAt(c.text, q, err), k, entries) == Failed(TooMuchNesting)
    decreases ms, 4
  {
    hide HasWord, LexedAt, Lex, Build, BuildMember, BuildObject, G.PairSpelling, G.LegalPair, G.PairMeaning, G.IsBlanks, G.Nesting,
      SetEntry, At, G.Gathered, IsPunctuation;
    if ms.Member? && k + G.Nesting(ms.pair.value) <= STACK_LIMIT {
      var m := G.PairMeaning(DialectOf(c), ms.pair);
      OneMemberRead(c, q, k, err, entries, ms.pair, ms.after, ms.before, ms.rest);
      DeepMembers(c, NextMemberAt(q, ms.pair, ms.after, ms.before, G.MembersSpelling(ms.rest)), k, err,
                  SetEntry(entries, m.key, m.value), ms.rest);
    } else {
      var word := if ms.LastMember? then "}" else "," + (ms.before + G.MembersSpelling(ms.rest));
      PunctuationIs(word[0]);
      DeepPair(c, q, k, err, ms.pair, ms.after, word);
      DeepMember(c, q, k, err, entries);
    }
  }

  lemma DeepMember(c: Config, q: nat, k: nat, err: ErrorCode, entries: seq<Entry>)
    requires q <= |c.text| && LexedAt(c.text, q, err).token.kind.StringToken?
    requires BuildMember(c, LexedAt(c.text, q, err), k) == NoMember(TooMuchNesting)
    ensures BuildObject(c, LexedAt(c.text, q, err), k, entries) == Failed(TooMuchNesting)
  {
    hide LexedAt, Lex, Build, BuildObject, BuildMember;
    TokenIsAt(c.text, q, err);
    ObjectStep(c, LexedAt(c.text, q, err), k, entries);
  }

  lemma {:induction false} DeepPair(c: Config, q: nat, k: nat, err: ErrorCode, pair: G.Pair, after: string, word: string)
    requires HasWord(c.text, q, G.PairSpelling(pair, after + word)) && word != "" && IsPunctuation(word[0])
    requires G.LegalPair(DialectOf(c), pair) && G.IsBlanks(after) && k + G.Nesting(pair.value) > STACK_LIMIT
    ensures q <= |c.text| && LexedAt(c.text, q, err).token.kind.StringToken?
    ensures BuildMember(c, LexedAt(c.text, q, err), k) == NoMember(TooMuchNesting)
    decreases pair, 3
  {
    hide HasWord, TokenAt, Lex, Build, DecodeString, G.Spelling, G.TextSpelling, G.Legal, G.Meaning, G.IsBlanks, StartsValue,
      G.Nesting, ScanString, SkipBlanks, G.LegalText, G.TextMeaning;
    var g := DialectOf(c);
    var key, value := G.TextSpelling(pair.key), G.Spelling(pair.value) + (after + word);
    WordFits(c.text, q, G.PairSpelling(pair, after + word));
    WordSplit(c.text, q, key, pair.beforeColon + (":" + (pair.afterColon + value)));
    TextReads(g, c.text, q, pair.key, err);
    SpellingStart(g, pair.value);
    assert value[0] == G.Spelling(pair.value)[0];
    ColonReads(c.text, q + |key|, err, pair.beforeColon, pair.afterColon, value);
    DeepElement(c, q + |key| + |pair.beforeColon| + 1 + |pair.afterColon|, k, err, pair.value, after, word);
  }

  /** The places in a document, and what the parser finds there. */
  lemma DocumentPlaces(c: Config, d: G.Document) returns (p: nat, q: nat)
    requires G.IsBlanks(d.blanks) && G.Legal(DialectOf(c), d.root) && G.DocumentSpelling(d) == c.text
    requires EndsNumber(if d.end == "" then '\0' else d.end[0])
    ensures p == Start(c.text) && SkipBlanks(c.text, p) == q && HasWord(c.text, q, G.Spelling(d.root))
    ensures q + |G.Spelling(d.root)| <= |c.text| && c.text[q + |G.Spelling(d.root)|..] == d.end
    ensures EndsNumber(At(c.text, q + |G.Spelling(d.root)|))
  {
    hide HasWord, Lex, SkipBlanks, Start, EndsNumber, G.DocumentSpelling, G.IsBlanks, G.Spelling, G.Legal;
    var g := DialectOf(c);
    p := Start(c.text);
    StartIs(d, g);
    RootStart(c.text, p, d.blanks, G.Spelling(d.root), d.end, g, d.root);
    q := p + |d.blanks|;
    EndOfText(c.text, d);
    BehindRoot(c.text, q + |G.Spelling(d.root)|, d.end);
  }

  lemma BehindRoot(text: string, e: nat, end: string)
    requires e <= |text| && text[e..] == end && EndsNumber(if end == "" then '\0' else end[0])
    ensures EndsNumber(At(text, e))
  {
    if e < |text| { assert text[e..][0] == text[e]; }
  }

  lemma EndFirst(s: string)
    requires G.IsEnd(s)
    ensures EndsNumber(if s == "" then '\0' else s[0])
  {
    if s != "" { EndStart(s); }
  }

  /** A text that denotes a value only to a reader that goes deeper is rejected for its nesting. */
  lemma NestingRejected(c: Config, checkRoot: bool, levels: nat, v: Value)
    requires G.Denotes(DialectOf(c), levels, c.text, v) && !G.Denotes(DialectOf(c), 100, c.text, v)
    requires checkRoot ==> G.IsContainer(v)
    ensures Read(c, checkRoot) == Error(TooMuchNesting)
  {
    hide HasWord, SkipBlanks, Build, Start, EndsNumber, At, G.DocumentSpelling, G.IsBlanks, G.IsEnd, G.Legal, G.Meaning, G.Nesting;
    var g := DialectOf(c);
    var d :| G.LegalDocument(g, d) && G.DocumentSpelling(d) == c.text && G.Meaning(g, d.root) == v && G.Nesting(d.root) <= levels;
    RootKind(g, d);
    EndFirst(d.end);
    var p, q := DocumentPlaces(c, d);
    DeepValue(c, p, q, 0, NoError, checkRoot, d.root);
  }

  // ---- The root --------------------------------------------------------------------------

  /** A text that denotes a scalar is rejected for its root where the root is checked. */
  lemma RootRejected(c: Config, levels: nat, v: Value)
    requires G.Denotes(DialectOf(c), levels, c.text, v) && !G.IsContainer(v)
    ensures Read(c, true) == Error(BadRootElementType)
  {
    hide HasWord, SkipBlanks, Build, Start, EndsNumber, At, G.DocumentSpelling, G.IsBlanks, G.IsEnd, G.Legal, G.Meaning, G.Nesting;
    var g := DialectOf(c);
    var d :| G.LegalDocument(g, d) && G.DocumentSpelling(d) == c.text && G.Meaning(g, d.root) == v && G.Nesting(d.root) <= levels;
    RootKind(g, d);
    EndFirst(d.end);
    var p, q := DocumentPlaces(c, d);
    ScalarRoot(c, p, q, d.root);
  }

  lemma ScalarRoot(c: Config, p: nat, q: nat, x: G.Syntax)
    requires p <= |c.text| && SkipBlanks(c.text, p) == q && HasWord(c.text, q, G.Spelling(x))
    requires G.Legal(DialectOf(c), x) && !x.Array? && !x.Object?
    ensures Build(c, p, 0, NoError, true) == Failed(BadRootElementType)
  {
    hide HasWord, SkipBlanks, Lex, LexedAt, Build, ValueAt, G.Spelling, G.Legal, At;
    ScalarStart(DialectOf(c), x);
    WordFits(c.text, q, G.Spelling(x));
    WordChar(c.text, q, G.Spelling(x), 0);
    AtChar(c.text, q);
    LexIs(c.text, p, q, NoError);
    KindAt(c.text, q, NoError);
    BuildStep(c, p, 0, NoError, true);
  }

  lemma KindAt(text: string, q: nat, err: ErrorCode)
    requires q <= |text|
    ensures LexedAt(text, q, err).token.kind.ArrayBegin? <==> At(text, q) == '['
    ensures LexedAt(text, q, err).token.kind.ObjectBegin? <==> At(text, q) == '{'
  {
    hide TokenAt;
    TokenOfChar(text, q, err);
  }

  lemma ScalarStart(g: G.Dialect, x: G.Syntax)
    requires G.Legal(g, x) && !x.Array? && !x.Object?
    ensures var s := G.Spelling(x); s != "" && s[0] != '[' && s[0] != '{'
  {
    if x.Number? { NumeralStart(x.numeral); }
  }

  /** A text that goes on behind its root is rejected for that. */
  lemma MoreRejected(c: Config, checkRoot: bool, d: G.Document)
    requires G.IsBlanks(d.blanks) && G.Legal(DialectOf(c), d.root) && G.Nesting(d.root) <= STACK_LIMIT
    requires G.DocumentSpelling(d) == c.text && !G.IsEnd(d.end) && EndsNumber(if d.end == "" then '\0' else d.end[0])
    requires checkRoot ==> d.root.Array? || d.root.Object?
    ensures Read(c, checkRoot) == Error(UnexpectedDataAfterRoot)
  {
    hide HasWord, SkipBlanks, Build, Start, EndsNumber, At, Lex, G.DocumentSpelling, G.IsBlanks, G.IsEnd, G.Legal, G.Meaning, G.Nesting,
      G.Spelling;
    var p, q := DocumentPlaces(c, d);
    ValueReads(c, p, q, 0, NoError, checkRoot, d.root);
    EndExactlyWhen(c.text, q + |G.Spelling(d.root)|, NoError);
  }

  // ---- Keys and escapes ------------------------------------------------------------------

  predicate Opens(c: char) {
    c == '[' || c == '{'
  }

  /** What may follow the brace of a dictionary: a quote, the other brace, or a blank. */
  predicate GoesOn(c: char) {
    c == '"' || c == '}' || c == '/' || G.IsBlank([c])
  }

  /** A backslash, a letter, and the rest of the text. */
  function Escaped(letter: char, rest: string): string {
    ['\\', letter] + rest
  }

  lemma RootBracket(c: Config, blanks: string, bracket: char, rest: string, checkRoot: bool)
    requires c.text == blanks + ([bracket] + rest) && G.IsBlanks(blanks) && Opens(bracket)
    ensures Start(c.text) == 0 && |blanks| < |c.text| && HasWord(c.text, |blanks| + 1, rest)
    ensures Build(c, 0, 0, NoError, checkRoot) == ValueAt(c, LexedAt(c.text, |blanks|, NoError), 1)
    ensures var l := LexedAt(c.text, |blanks|, NoError);
            && l.pos == |blanks| && l.token.length == 1 && l.err == NoError
            && (l.token.kind.ArrayBegin? <==> bracket == '[') && (l.token.kind.ObjectBegin? <==> bracket == '{')
  {
    hide HasWord, SkipBlanks, Lex, TokenAt, Build, ValueAt, G.IsBlanks, NoBlank, IsPunctuation;
    WholeWord(c.text);
    assert IsPunctuation(bracket) && NoBlank(bracket) by { BracketStarts(bracket); }
    LexBlanks(c.text, 0, blanks, [bracket] + rest, NoError);
    WordSplit(c.text, |blanks|, [bracket], rest);
    if blanks != "" { BlanksStart(blanks); }
    assert c.text[0] == if blanks != "" then blanks[0] else bracket;
    AtChar(c.text, |blanks|);
    TokenOfChar(c.text, |blanks|, NoError);
    BuildStep(c, 0, 0, NoError, checkRoot);
  }

  lemma BracketStarts(c: char)
    requires Opens(c)
    ensures IsPunctuation(c) && NoBlank(c)
  {
  }

  /** A dictionary that goes on with anything but a quote or its bracket is rejected for its key. */
  lemma KeyRejected(c: Config, checkRoot: bool, before: string, blanks: string, rest: string)
    requires c.text == before + ("{" + (blanks + rest)) && G.IsBlanks(before) && G.IsBlanks(blanks) && rest != ""
    requires !GoesOn(rest[0])
    ensures Read(c, checkRoot) == Error(UnquotedDictionaryKey)
  {
    hide HasWord, SkipBlanks, Lex, TokenAt, Build, BuildArray, BuildObject, G.IsBlanks, G.IsBlank, NoBlank;
    RootBracket(c, before, '{', blanks + rest, checkRoot);
    WhiteIs(rest[0]);
    assert NoBlank(rest[0]) by { NotBlank(rest[0]); }
    LexBlanks(c.text, |before| + 1, blanks, rest, NoError);
    var q := |before| + 1 + |blanks|;
    WordFits(c.text, q, rest);
    NoKey(c, q, 1, NoError);
  }

  lemma NotBlank(c: char)
    ensures !IsWhite(c) && c != '/' ==> NoBlank(c)
  {
  }

  lemma NoKey(c: Config, q: nat, k: nat, err: ErrorCode)
    requires q < |c.text| && c.text[q] != '"' && c.text[q] != '}'
    ensures BuildObject(c, LexedAt(c.text, q, err), k, []) == Failed(UnquotedDictionaryKey)
  {
    hide NumberEnd, ScanString, HasWord, Lex, Build, DecodeString;
  }

  /** The pieces of a string that goes on. */
  function PieceSpelling(pieces: seq<G.Piece>): string {
    if pieces == [] then "" else G.Spell(pieces[0]) + PieceSpelling(pieces[1..])
  }

  lemma {:induction false} BadLetterScans(g: G.Dialect, text: string, p: nat, i: nat, ps: seq<G.Piece>, letter: char, rest: string)
    requires !g.unicode && G.LegalText(g, ps) && HasWord(text, p + i, PieceSpelling(ps) + Escaped(letter, rest))
    requires G.PieceMeaning(G.Short(letter)).None? && letter != 'x' && letter != 'u'
    ensures p + i < |text| && ScanString(text, p, i) == BadEscape
    decreases |ps|
  {
    hide HasWord, ScanString, G.Spell, G.PieceMeaning, PieceAt;
    WordFits(text, p + i, PieceSpelling(ps) + Escaped(letter, rest));
    if ps == [] {
      assert PieceSpelling(ps) + Escaped(letter, rest) == Escaped(letter, rest);
      WordChar(text, p + i, Escaped(letter, rest), 0);
      WordChar(text, p + i, Escaped(letter, rest), 1);
      BadLetter(text, p, i, letter);
    } else {
      var e, more := G.Spell(ps[0]), PieceSpelling(ps[1..]) + Escaped(letter, rest);
      assert PieceSpelling(ps) + Escaped(letter, rest) == e + more;
      WordSplit(text, p + i, e, more);
      assert p + i + |e| == p + (i + |e|);
      IsPieceAt(text, p + i, ps[0]);
      ScanPiece(text, p, i, ps[0]);
      BadLetterScans(g, text, p, i + |e|, ps[1..], letter, rest);
    }
  }

  lemma BadLetter(text: string, p: nat, i: nat, letter: char)
    requires p + i + 1 < |text| && text[p + i] == '\\' && text[p + i + 1] == letter
    requires G.PieceMeaning(G.Short(letter)).None? && letter != 'x' && letter != 'u'
    ensures ScanString(text, p, i) == BadEscape
  {
    hide IsSimpleEscape, G.PieceMeaning;
    ShortIs(letter);
  }

  /** A string with a letter behind a backslash that is no escape is rejected for its escape. */
  lemma EscapeRejected(c: Config, checkRoot: bool, before: string, ps: seq<G.Piece>, letter: char, rest: string)
    requires c.text == before + ("[" + ("\"" + (PieceSpelling(ps) + Escaped(letter, rest))))
    requires G.IsBlanks(before) && G.LegalText(DialectOf(c), ps)
    requires G.PieceMeaning(G.Short(letter)).None? && letter != 'x' && letter != 'u'
    ensures Read(c, checkRoot) == Error(InvalidEscape)
  {
    hide HasWord, SkipBlanks, Lex, TokenAt, Build, BuildArray, BuildObject, G.IsBlanks, G.LegalText, G.PieceMeaning, ScanString, NoBlank;
    var body := PieceSpelling(ps) + Escaped(letter, rest);
    RootBracket(c, before, '[', "\"" + body, checkRoot);
    var q := |before| + 1;
    QuoteStarts();
    LexBlanksNone(c.text, q, "\"" + body, NoError);
    WordSplit(c.text, q, "\"", body);
    BadLetterScans(DialectOf(c), c.text, q, 1, ps, letter, rest);
    BadString(c, q, 1);
  }

  lemma QuoteStarts()
    ensures NoBlank('"')
  {
  }

  lemma LexBlanksNone(text: string, q: nat, word: string, err: ErrorCode)
    requires HasWord(text, q, word) && word != "" && NoBlank(word[0])
    ensures q < |text| && text[q] == word[0] && SkipBlanks(text, q) == q && Lex(text, q, err) == LexedAt(text, q, err)
  {
    hide TokenAt, HasWord, SkipBlanks;
    WordFits(text, q, word);
    LexHere(text, q, word, err);
  }

  lemma BadString(c: Config, q: nat, k: nat)
    requires q < |c.text| && c.text[q] == '"' && ScanString(c.text, q, 1) == BadEscape && SkipBlanks(c.text, q) == q && k < STACK_LIMIT
    ensures BuildArray(c, LexedAt(c.text, q, NoError), k, []) == Failed(InvalidEscape)
  {
    hide ScanString, SkipBlanks, Build, BuildArray;
    var l := LexedAt(c.text, q, NoError);
    assert l == Lexed(Token(Invalid, 0), q, InvalidEscape);
    ArrayStep(c, l, k, []);
    BuildStep(c, q, k, InvalidEscape, false);
  }
}
