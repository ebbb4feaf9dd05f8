/** The JSON texts of the program as a grammar: section 2 of RFC 4627, comments, and the escapes
    the program adds (src/chromium/json/json_reader.hh:5-26).

    A tree of concrete syntax spells a text and denotes a value. Nothing here says how a text is
    read: which trees there are for a text is for the reader to find out. */
module JsonGrammar {
  import opened NumberConversions
  import opened Values
  import opened Wrappers

  /** Whether a comma may stand before a closing bracket, whether \u escapes are understood, and
      what a number that is no 32-bit integer denotes, which lies outside the model. */
  datatype Dialect = Dialect(trailingComma: bool, unicode: bool, parseDouble: string -> Option<real>)

  // ---- Blanks ----------------------------------------------------------------------------

  predicate EndsLine(c: char) {
    c == '\n' || c == '\r'
  }

  predicate IsLineComment(s: string) {
    |s| >= 3 && s[0] == '/' && s[1] == '/' && EndsLine(s[|s| - 1]) && forall i :: 2 <= i < |s| - 1 ==> !EndsLine(s[i])
  }

  predicate Closes(s: string, i: int) {
    0 <= i < |s| - 1 && s[i] == '*' && s[i + 1] == '/'
  }

  predicate IsBlockComment(s: string) {
    |s| >= 4 && s[0] == '/' && s[1] == '*' && Closes(s, |s| - 2) && forall i :: 2 <= i < |s| - 2 ==> !Closes(s, i)
  }

  predicate IsBlank(s: string) {
    || s == " " || s == "\t" || s == "\n" || s == "\r"
    || IsLineComment(s) || IsBlockComment(s)
  }

  ghost predicate IsBlanks(s: string)
    decreases |s|
  {
    s == "" || exists n :: 1 <= n <= |s| && IsBlank(s[..n]) && IsBlanks(s[n..])
  }

  /** A comment that the end of the text cuts off. */
  predicate IsOpenComment(s: string) {
    && |s| >= 2 && s[0] == '/'
    && if s[1] == '/' then forall i :: 2 <= i < |s| ==> !EndsLine(s[i])
       else s[1] == '*' && forall i :: 2 <= i < |s| ==> !Closes(s, i)
  }

  /** What may stand behind the root: blanks, and at most a comment that is not closed, or a NUL
      and then anything at all. */
  ghost predicate IsEnd(s: string) {
    exists n :: 0 <= n <= |s| && IsBlanks(s[..n]) && (n == |s| || s[n] == '\0' || IsOpenComment(s[n..]))
  }

  // ---- Strings ---------------------------------------------------------------------------

  /** A character as such, or one of the escapes \b, \xHH and \uHHHH. */
  datatype Piece = Raw(c: char) | Short(letter: char) | Hex(digits: string) | Unicode(digits: string)

  function Spell(p: Piece): (s: string)
    ensures s != ""
  {
    match p
    case Raw(c) => [c]
    case Short(letter) => ['\\', letter]
    case Hex(digits) => "\\x" + digits
    case Unicode(digits) => "\\u" + digits
  }

  function DigitValue(c: char): Option<nat> {
    if '0' <= c <= '9' then Some(c as int - 48)
    else if 'A' <= c <= 'F' then Some(c as int - 55)
    else if 'a' <= c <= 'f' then Some(c as int - 87)
    else None
  }

  function HexNumber(digits: string): Option<nat> {
    if digits == "" then Some(0)
    else
      match (HexNumber(digits[..|digits| - 1]), DigitValue(digits[|digits| - 1]))
      case (Some(n), Some(d)) => Some(16 * n + d)
      case _ => None
  }

  /** The character a piece stands for. Characters are bytes, so \u reaches no further. */
  function PieceMeaning(p: Piece): Option<char> {
    match p
    case Raw(c) => if c == '"' || c == '\\' then None else Some(c)
    case Short(letter) =>
      if letter == '"' || letter == '\\' || letter == '/' then Some(letter)
      else if letter == 'b' then Some(8 as char)
      else if letter == 't' then Some(9 as char)
      else if letter == 'n' then Some(10 as char)
      else if letter == 'v' then Some(11 as char)
      else if letter == 'f' then Some(12 as char)
      else if letter == 'r' then Some(13 as char)
      else None
    case Hex(digits) => Byte(digits, 2)
    case Unicode(digits) => Byte(digits, 4)
  }

  function Byte(digits: string, length: nat): Option<char> {
    match HexNumber(digits)
    case Some(n) => if |digits| == length && n < 256 then Some(n as char) else None
    case None => None
  }

  predicate LegalPiece(g: Dialect, p: Piece) {
    PieceMeaning(p).Some? && (p.Unicode? ==> g.unicode)
  }

  predicate LegalText(g: Dialect, pieces: seq<Piece>) {
    pieces == [] || (LegalPiece(g, pieces[0]) && LegalText(g, pieces[1..]))
  }

  /** The pieces and the closing quote. */
  function BodySpelling(pieces: seq<Piece>): (s: string)
    ensures s != ""
  {
    if pieces == [] then "\"" else Spell(pieces[0]) + BodySpelling(pieces[1..])
  }

  function TextSpelling(pieces: seq<Piece>): string {
    "\"" + BodySpelling(pieces)
  }

  function TextMeaning(g: Dialect, pieces: seq<Piece>): string
    requires LegalText(g, pieces)
  {
    if pieces == [] then "" else [PieceMeaning(pieces[0]).value] + TextMeaning(g, pieces[1..])
  }

  // ---- Numbers ---------------------------------------------------------------------------

  /** [minus] int [frac] [exp], section 2.4 of RFC 4627. */
  datatype Numeral = Numeral(negative: bool, digits: string, fraction: string, exponent: string)

  function NumeralSpelling(n: Numeral): string {
    (if n.negative then "-" else "") + (n.digits + (n.fraction + n.exponent))
  }

  predicate IsNumeral(n: Numeral) {
    && IsDigits(n.digits) && (n.digits[0] == '0' ==> |n.digits| == 1)
    && (n.fraction == "" || (n.fraction[0] == '.' && IsDigits(n.fraction[1..])))
    && (n.exponent == "" || ((n.exponent[0] == 'e' || n.exponent[0] == 'E') && IsSignedDigits(n.exponent[1..])))
  }

  predicate IsDigits(s: string) {
    s != "" && AllDigits(s)
  }

  predicate IsSignedDigits(s: string) {
    s != "" && if s[0] == '+' || s[0] == '-' then IsDigits(s[1..]) else AllDigits(s)
  }

  function NumeralMeaning(g: Dialect, n: Numeral): Option<Value>
    requires IsNumeral(n)
  {
    var magnitude: int := DecimalValue(n.digits);
    var i := if n.negative then 0 - magnitude else magnitude;
    if n.fraction == "" && n.exponent == "" && -0x8000_0000 <= i < 0x8000_0000 then Some(Int(i))
    else match g.parseDouble(NumeralSpelling(n))
      case Some(d) => Some(Double(d))
      case None => None
  }

  // ---- Values ----------------------------------------------------------------------------

  datatype Syntax =
    | NullWord
    | TrueWord
    | FalseWord
    | Number(numeral: Numeral)
    | Text(pieces: seq<Piece>)
    | Array(blanks: string, elements: Elements)
    | Object(blanks: string, members: Members)

  /** What is left of an array, up to its bracket. */
  datatype Elements =
    | EndOfArray
    | LastElement(element: Syntax, after: string)
    | Element(element: Syntax, after: string, before: string, rest: Elements)

  datatype Pair = Pair(key: seq<Piece>, beforeColon: string, afterColon: string, value: Syntax)

  datatype Members =
    | EndOfObject
    | LastMember(pair: Pair, after: string)
    | Member(pair: Pair, after: string, before: string, rest: Members)

  function Spelling(x: Syntax): string
    decreases x, 0
  {
    match x
    case NullWord => "null"
    case TrueWord => "true"
    case FalseWord => "false"
    case Number(n) => NumeralSpelling(n)
    case Text(pieces) => TextSpelling(pieces)
    case Array(blanks, elements) => "[" + (blanks + ElementsSpelling(elements))
    case Object(blanks, members) => "{" + (blanks + MembersSpelling(members))
  }

  function ElementsSpelling(es: Elements): (s: string)
    decreases es, 0
  {
    match es
    case EndOfArray => "]"
    case LastElement(x, after) => Spelling(x) + (after + "]")
    case Element(x, after, before, rest) => Spelling(x) + (after + ("," + (before + ElementsSpelling(rest))))
  }

  function PairSpelling(p: Pair, behind: string): string
    decreases p, 1
  {
    TextSpelling(p.key) + (p.beforeColon + (":" + (p.afterColon + (Spelling(p.value) + behind))))
  }

  function MembersSpelling(ms: Members): string
    decreases ms, 0
  {
    match ms
    case EndOfObject => "}"
    case LastMember(p, after) => PairSpelling(p, after + "}")
    case Member(p, after, before, rest) => PairSpelling(p, after + ("," + (before + MembersSpelling(rest))))
  }

  ghost predicate Legal(g: Dialect, x: Syntax)
    decreases x, 0
  {
    match x
    case Number(n) => IsNumeral(n) && NumeralMeaning(g, n).Some?
    case Text(pieces) => LegalText(g, pieces)
    case Array(blanks, elements) => IsBlanks(blanks) && LegalElements(g, elements)
    case Object(blanks, members) => IsBlanks(blanks) && LegalMembers(g, members)
    case _ => true
  }

  /** Nothing may follow a comma but another element, unless the dialect says otherwise. */
  ghost predicate LegalElements(g: Dialect, es: Elements)
    decreases es, 0
  {
    match es
    case EndOfArray => true
    case LastElement(x, after) => Legal(g, x) && IsBlanks(after)
    case Element(x, after, before, rest) =>
      && Legal(g, x) && IsBlanks(after) && IsBlanks(before) && LegalElements(g, rest)
      && (rest.EndOfArray? ==> g.trailingComma)
  }

  ghost predicate LegalPair(g: Dialect, p: Pair)
    decreases p, 1
  {
    LegalText(g, p.key) && IsBlanks(p.beforeColon) && IsBlanks(p.afterColon) && Legal(g, p.value)
  }

  ghost predicate LegalMembers(g: Dialect, ms: Members)
    decreases ms, 0
  {
    match ms
    case EndOfObject => true
    case LastMember(p, after) => LegalPair(g, p) && IsBlanks(after)
    case Member(p, after, before, rest) =>
      && LegalPair(g, p) && IsBlanks(after) && IsBlanks(before) && LegalMembers(g, rest)
      && (rest.EndOfObject? ==> g.trailingComma)
  }

  ghost function Meaning(g: Dialect, x: Syntax): Value
    requires Legal(g, x)
    decreases x, 0
  {
    match x
    case NullWord => Null
    case TrueWord => Bool(true)
    case FalseWord => Bool(false)
    case Number(n) => NumeralMeaning(g, n).value
    case Text(pieces) => Str(TextMeaning(g, pieces))
    case Array(_, elements) => List(Items(g, elements))
    case Object(_, members) => Dict(Gathered([], Pairs(g, members)))
  }

  ghost function Items(g: Dialect, es: Elements): seq<Value>
    requires LegalElements(g, es)
    decreases es, 0
  {
    match es
    case EndOfArray => []
    case LastElement(x, _) => [Meaning(g, x)]
    case Element(x, _, _, rest) => [Meaning(g, x)] + Items(g, rest)
  }

  ghost function PairMeaning(g: Dialect, p: Pair): Entry
    requires LegalPair(g, p)
    decreases p, 1
  {
    Entry(TextMeaning(g, p.key), Meaning(g, p.value))
  }

  ghost function Pairs(g: Dialect, ms: Members): seq<Entry>
    requires LegalMembers(g, ms)
    decreases ms, 0
  {
    match ms
    case EndOfObject => []
    case LastMember(p, _) => [PairMeaning(g, p)]
    case Member(p, _, _, rest) => [PairMeaning(g, p)] + Pairs(g, rest)
  }

  /** One pair after the other goes into the dictionary. */
  function Gathered(entries: seq<Entry>, pairs: seq<Entry>): seq<Entry>
    decreases |pairs|
  {
    if pairs == [] then entries else Gathered(SetEntry(entries, pairs[0].key, pairs[0].value), pairs[1..])
  }

  function LastOf(pairs: seq<Entry>, key: string): Option<Value> {
    if pairs == [] then None
    else if pairs[|pairs| - 1].key == key then Some(pairs[|pairs| - 1].value)
    else LastOf(pairs[..|pairs| - 1], key)
  }

  /** The dictionary has each key once, in order, with the value of its last pair. */
  lemma {:induction false} GatheredIs(pairs: seq<Entry>, key: string)
    ensures Sorted(Gathered([], pairs)) && GetEntry(Gathered([], pairs), key) == LastOf(pairs, key)
  {
    if pairs != [] {
      var n := |pairs| - 1;
      var before := Gathered([], pairs[..n]);
      GatheredIs(pairs[..n], key);
      GatheredLast([], pairs);
      SetEntrySorted(before, pairs[n].key, pairs[n].value);
      SetThenGet(before, pairs[n].key, pairs[n].value, key);
    }
  }

  lemma {:induction false} GatheredLast(entries: seq<Entry>, pairs: seq<Entry>)
    requires pairs != []
    ensures var n := |pairs| - 1;
            Gathered(entries, pairs) == SetEntry(Gathered(entries, pairs[..n]), pairs[n].key, pairs[n].value)
    decreases |pairs|
  {
    var n := |pairs| - 1;
    if n > 0 {
      assert pairs[1..][..n - 1] == pairs[..n][1..];
      GatheredLast(SetEntry(entries, pairs[0].key, pairs[0].value), pairs[1..]);
    } else {
      assert pairs[1..] == [] && pairs[..0] == [];
    }
  }

  /** How many values enclose the deepest one that is spelled, itself included. */
  function Nesting(x: Syntax): nat
    decreases x, 0
  {
    match x
    case Array(_, elements) => 1 + ElementsNesting(elements)
    case Object(_, members) => 1 + MembersNesting(members)
    case _ => 1
  }

  function ElementsNesting(es: Elements): nat
    decreases es, 0
  {
    match es
    case EndOfArray => 0
    case LastElement(x, _) => Nesting(x)
    case Element(x, _, _, rest) => Max(Nesting(x), ElementsNesting(rest))
  }

  function MembersNesting(ms: Members): nat
    decreases ms, 0
  {
    match ms
    case EndOfObject => 0
    case LastMember(p, _) => Nesting(p.value)
    case Member(p, _, _, rest) => Max(Nesting(p.value), MembersNesting(rest))
  }

  // ---- Texts -----------------------------------------------------------------------------

  /** A text: a byte-order mark or none, blanks, the root, and the end. */
  datatype Document = Document(mark: bool, blanks: string, root: Syntax, end: string)

  const BYTE_ORDER_MARK := [0xEF as char, 0xBB as char, 0xBF as char]

  function DocumentSpelling(d: Document): string {
    (if d.mark then BYTE_ORDER_MARK else "") + (d.blanks + (Spelling(d.root) + d.end))
  }

  ghost predicate LegalDocument(g: Dialect, d: Document) {
    IsBlanks(d.blanks) && Legal(g, d.root) && IsEnd(d.end)
  }

  predicate IsContainer(v: Value) {
    v.List? || v.Dict?
  }

  /** The text denotes the value within so many levels: some tree spells the one and means the
      other. */
  ghost predicate Denotes(g: Dialect, levels: nat, text: string, v: Value) {
    exists d :: LegalDocument(g, d) && DocumentSpelling(d) == text && Meaning(g, d.root) == v && Nesting(d.root) <= levels
  }
}
