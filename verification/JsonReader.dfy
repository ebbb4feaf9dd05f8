/** The JSON parser (src/chromium/json/json_reader.cc).

    The functions say what the parser makes of a text; the class `JsonReader` is the parser,
    which advances its position, nesting depth and error code in place. */
module JsonReader {
  import opened NumberConversions
  import opened Values
  import opened Wrappers

  datatype ErrorCode =
    | NoError | BadRootElementType | InvalidEscape | SyntaxError | TrailingComma
    | TooMuchNesting | UnexpectedDataAfterRoot | UnquotedDictionaryKey

  datatype Kind =
    | ObjectBegin | ObjectEnd | ArrayBegin | ArrayEnd | StringToken | NumberToken
    | BoolTrue | BoolFalse | NullToken | ListSeparator | PairSeparator | EndOfInput | Invalid

  datatype Token = Token(kind: Kind, length: nat)

  const STACK_LIMIT := 100

  /** The text, the one parser flag, and the conversion of a number that is no 32-bit integer:
      `StringToDouble` followed by the finiteness test, which lies outside the model. */
  datatype Config = Config(text: string, allowTrailingComma: bool, parseDouble: string -> Option<real>)

  /** A read at or before the terminating NUL; the parser never reads past it. */
  function At(text: string, i: nat): char
    requires i <= |text|
  {
    if i < |text| then text[i] else '\0'
  }

  // ---- White space and comments ----------------------------------------------------------

  predicate IsWhite(c: char) {
    c == ' ' || c == '\n' || c == '\r' || c == '\t'
  }

  function LineCommentEnd(text: string, p: nat): (q: nat)
    requires p <= |text|
    ensures p <= q <= |text|
    decreases |text| - p
  {
    if p == |text| then p
    else if text[p] == '\n' || text[p] == '\r' then p + 1
    else LineCommentEnd(text, p + 1)
  }

  function BlockCommentEnd(text: string, p: nat): (q: nat)
    requires p <= |text|
    ensures p <= q <= |text|
    decreases |text| - p
  {
    if p == |text| then p
    else if text[p] == '*' && At(text, p + 1) == '/' then p + 2
    else BlockCommentEnd(text, p + 1)
  }

  /** Where the comment at `p` ends; an unterminated one runs to the end of the text. */
  function CommentEnd(text: string, p: nat): (end: Option<nat>)
    requires p < |text|
    ensures end.Some? ==> p < end.value <= |text|
  {
    if text[p] != '/' then None
    else if At(text, p + 1) == '/' then Some(LineCommentEnd(text, p + 2))
    else if At(text, p + 1) == '*' then Some(BlockCommentEnd(text, p + 2))
    else None
  }

  function SkipBlanks(text: string, p: nat): (q: nat)
    requires p <= |text|
    ensures p <= q <= |text|
    decreases |text| - p
  {
    if p == |text| then p
    else if IsWhite(text[p]) then SkipBlanks(text, p + 1)
    else match CommentEnd(text, p)
      case Some(end) => SkipBlanks(text, end)
      case None => p
  }

  // ---- Tokens ----------------------------------------------------------------------------

  function HasWord(text: string, p: nat, word: string): (r: bool)
    ensures r ==> p + |word| <= |text|
  {
    p + |word| <= |text| && text[p..p + |word|] == word
  }

  predicate IsHexDigit(c: char) {
    IsDigit(c) || 'a' <= c <= 'f' || 'A' <= c <= 'F'
  }

  function HexValue(c: char): (d: nat)
    requires IsHexDigit(c)
    ensures d < 16
  {
    if IsDigit(c) then DigitOf(c) else if 'a' <= c <= 'f' then 10 + (c as int - 'a' as int) else 10 + (c as int - 'A' as int)
  }

  predicate HexRun(text: string, p: nat, n: nat) {
    p + n <= |text| && forall i :: p <= i < p + n ==> IsHexDigit(text[i])
  }

  predicate IsSimpleEscape(c: char) {
    c == '\\' || c == '/' || c == 'b' || c == 'f' || c == 'n' || c == 'r' || c == 't' || c == 'v' || c == '"'
  }

  datatype Scan = Closed(length: nat) | BadEscape | Unterminated

  /** The scan of the string that starts at `p`, of which `length` characters are behind it. */
  function ScanString(text: string, p: nat, length: nat): (r: Scan)
    requires p + length <= |text|
    ensures r.Closed? ==> length < r.length && p + r.length <= |text|
    decreases |text| - length
  {
    var q := p + length;
    if q == |text| then Unterminated
    else if text[q] == '\\' then
      var c := At(text, q + 1);
      if c == 'x' then (if HexRun(text, q + 2, 2) then ScanString(text, p, length + 4) else BadEscape)
      else if c == 'u' then (if HexRun(text, q + 2, 4) then ScanString(text, p, length + 6) else BadEscape)
      else if IsSimpleEscape(c) then ScanString(text, p, length + 2)
      else BadEscape
    else if text[q] == '"' then Closed(length + 1)
    else ScanString(text, p, length + 1)
  }

  /** `ReadInt`: a run of digits from `p`, its end. */
  function ReadInt(text: string, p: nat, canHaveLeadingZeros: bool): (end: Option<nat>)
    requires p <= |text|
    ensures end.Some? ==> p < end.value <= |text|
  {
    var n := LeadingDigits(text[p..]);
    if n == 0 || (!canHaveLeadingZeros && n > 1 && text[p] == '0') then None else Some(p + n)
  }

  /** [minus] int [frac] [exp], section 2.4 of RFC 4627. */
  function NumberEnd(text: string, p: nat): (end: Option<nat>)
    requires p <= |text|
    ensures end.Some? ==> p < end.value <= |text|
  {
    match ReadInt(text, if At(text, p) == '-' then p + 1 else p, false)
    case None => None
    case Some(p1) =>
      match (if At(text, p1) == '.' then ReadInt(text, p1 + 1, true) else Some(p1))
      case None => None
      case Some(p2) =>
        if At(text, p2) == 'e' || At(text, p2) == 'E' then
          var signed := At(text, p2 + 1) == '-' || At(text, p2 + 1) == '+';
          ReadInt(text, if signed then p2 + 2 else p2 + 1, true)
        else Some(p2)
  }

  /** The token at `p`, which stands on no blank, and the error code after reading it. */
  function TokenAt(text: string, p: nat, err: ErrorCode): (r: (Token, ErrorCode))
    requires p <= |text|
    ensures !(r.0.kind.EndOfInput? || r.0.kind.Invalid?) ==> r.0.length > 0 && p + r.0.length <= |text|
    ensures r.0.kind.StringToken? ==> text[p] == '"' && ScanString(text, p, 1) == Closed(r.0.length)
    ensures !r.0.kind.Invalid? ==> r.1 == err
  {
    var c := At(text, p);
    if c == '\0' then (Token(EndOfInput, 0), err)
    else if c == 'n' && HasWord(text, p, "null") then (Token(NullToken, 4), err)
    else if c == 't' && HasWord(text, p, "true") then (Token(BoolTrue, 4), err)
    else if c == 'f' && HasWord(text, p, "false") then (Token(BoolFalse, 5), err)
    else if c == '[' then (Token(ArrayBegin, 1), err)
    else if c == ']' then (Token(ArrayEnd, 1), err)
    else if c == ',' then (Token(ListSeparator, 1), err)
    else if c == '{' then (Token(ObjectBegin, 1), err)
    else if c == '}' then (Token(ObjectEnd, 1), err)
    else if c == ':' then (Token(PairSeparator, 1), err)
    else if IsDigit(c) || c == '-' then
      match NumberEnd(text, p)
      case Some(end) => (Token(NumberToken, end - p), err)
      case None => (Token(Invalid, 0), err)
    else if c == '"' then
      match ScanString(text, p, 1)
      case Closed(length) => (Token(StringToken, length), err)
      case BadEscape => (Token(Invalid, 0), InvalidEscape)
      case Unterminated => (Token(Invalid, 0), err)
    else (Token(Invalid, 0), err)
  }

  datatype Lexed = Lexed(token: Token, pos: nat, err: ErrorCode)

  /** `ParseToken`: the position moves over blanks only, the token is looked at, not consumed. */
  function Lex(text: string, p: nat, err: ErrorCode): (r: Lexed)
    requires p <= |text|
    ensures p <= r.pos <= |text| && IsTokenAt(text, r.token, r.pos)
    ensures !r.token.kind.Invalid? ==> r.err == err
  {
    var q := SkipBlanks(text, p);
    var t := TokenAt(text, q, err);
    Lexed(t.0, q, t.1)
  }

  predicate IsTokenAt(text: string, token: Token, p: nat) {
    && p <= |text|
    && (!(token.kind.EndOfInput? || token.kind.Invalid?) ==> token.length > 0 && p + token.length <= |text|)
    && (token.kind.StringToken? ==> text[p] == '"' && ScanString(text, p, 1) == Closed(token.length))
  }

  // ---- Decoding --------------------------------------------------------------------------

  function Unescaped(c: char): char {
    if c == 'b' then 8 as char
    else if c == 'f' then 12 as char
    else if c == 'n' then '\n'
    else if c == 'r' then '\r'
    else if c == 't' then '\t'
    else if c == 'v' then 11 as char
    else c
  }

  function Prepend(c: char, rest: Option<string>): Option<string> {
    match rest
    case Some(s) => Some([c] + s)
    case None => None
  }

  /** `DecodeString` from index `i` of the token of the given length at `p`. Hex digits of
      `\x` are there, the scan saw to that; `\u` passes the scan but has no decoding. */
  function DecodeFrom(text: string, p: nat, length: nat, i: nat): Option<string>
    requires p + length <= |text|
    decreases length - i
  {
    if i + 1 >= length then Some("")
    else
      var c := text[p + i];
      if c != '\\' then Prepend(c, DecodeFrom(text, p, length, i + 1))
      else
        var e := text[p + i + 1];
        if e == 'x' then
          if i + 3 >= length || !HexRun(text, p + i + 2, 2) then None
          else
            var byte := HexValue(text[p + i + 2]) * 16 + HexValue(text[p + i + 3]);
            Prepend(byte as char, DecodeFrom(text, p, length, i + 4))
        else if IsSimpleEscape(e) then Prepend(Unescaped(e), DecodeFrom(text, p, length, i + 2))
        else None
  }

  function DecodeString(text: string, p: nat, length: nat): Option<string>
    requires p + length <= |text|
  {
    DecodeFrom(text, p, length, 1)
  }

  function DecodeNumber(config: Config, lexeme: string): Option<Value> {
    match ParseInt(lexeme, HALF_32)
    case Some(i) => Some(Int(i))
    case None =>
      match config.parseDouble(lexeme)
      case Some(d) => Some(Double(d))
      case None => None
  }

  // ---- Values ----------------------------------------------------------------------------

  datatype Outcome = Built(value: Value, pos: nat, err: ErrorCode) | Failed(err: ErrorCode)

  function Scalar(value: Option<Value>, pos: nat, err: ErrorCode): Outcome {
    match value
    case Some(v) => Built(v, pos, err)
    case None => Failed(err)
  }

  function StringValue(s: Option<string>): Option<Value> {
    match s
    case Some(t) => Some(Str(t))
    case None => None
  }

  /** `BuildValue` from position `p`, entered at nesting depth `depth`. */
  function Build(config: Config, p: nat, depth: nat, err: ErrorCode, isRoot: bool): (r: Outcome)
    requires p <= |config.text|
    ensures r.Built? ==> p < r.pos <= |config.text|
    decreases |config.text| - p, 0
  {
    if depth + 1 > STACK_LIMIT then Failed(TooMuchNesting)
    else
      var text := config.text;
      var l := Lex(text, p, err);
      var end := l.pos + l.token.length;
      if isRoot && !(l.token.kind.ObjectBegin? || l.token.kind.ArrayBegin?) then Failed(BadRootElementType)
      else match l.token.kind
        case NullToken => Built(Null, end, l.err)
        case BoolTrue => Built(Bool(true), end, l.err)
        case BoolFalse => Built(Bool(false), end, l.err)
        case NumberToken => Scalar(DecodeNumber(config, text[l.pos..end]), end, l.err)
        case StringToken => Scalar(StringValue(DecodeString(text, l.pos, l.token.length)), end, l.err)
        case ArrayBegin =>
          var first := Lex(text, end, l.err);
          BuildArray(config, first, depth + 1, [])
        case ObjectBegin =>
          var first := Lex(text, end, l.err);
          BuildObject(config, first, depth + 1, [])
        case _ => Failed(l.err)
  }

  /** The item loop, with the token it tests in `l` and the items read so far. */
  function BuildArray(config: Config, l: Lexed, depth: nat, items: seq<Value>): (r: Outcome)
    requires IsTokenAt(config.text, l.token, l.pos)
    ensures r.Built? ==> l.pos < r.pos <= |config.text|
    decreases |config.text| - l.pos, 1
  {
    if l.token.kind.ArrayEnd? then Built(List(items), l.pos + l.token.length, l.err)
    else match Build(config, l.pos, depth, l.err, false)
      case Failed(err) => Failed(err)
      case Built(item, p, err) =>
        var after := Lex(config.text, p, err);
        if after.token.kind.ListSeparator? then
          var next := Lex(config.text, after.pos + after.token.length, after.err);
          if next.token.kind.ArrayEnd? && !config.allowTrailingComma then Failed(TrailingComma)
          else BuildArray(config, next, depth, items + [item])
        else if after.token.kind.ArrayEnd? then
          Built(List(items + [item]), after.pos + after.token.length, after.err)
        else Failed(after.err)
  }

  /** The member loop, likewise. */
  function BuildObject(config: Config, l: Lexed, depth: nat, entries: seq<Entry>): (r: Outcome)
    requires IsTokenAt(config.text, l.token, l.pos)
    ensures r.Built? ==> l.pos < r.pos <= |config.text|
    decreases |config.text| - l.pos, 1
  {
    if l.token.kind.ObjectEnd? then Built(Dict(entries), l.pos + l.token.length, l.err)
    else if !l.token.kind.StringToken? then Failed(UnquotedDictionaryKey)
    else match DecodeString(config.text, l.pos, l.token.length)
      case None => Failed(l.err)
      case Some(key) =>
        var colon := Lex(config.text, l.pos + l.token.length, l.err);
        if !colon.token.kind.PairSeparator? then Failed(colon.err)
        else
          var start := Lex(config.text, colon.pos + colon.token.length, colon.err);
          match Build(config, start.pos, depth, start.err, false)
          case Failed(err) => Failed(err)
          case Built(value, p, err) =>
            var after := Lex(config.text, p, err);
            var more := SetEntry(entries, key, value);
            if after.token.kind.ListSeparator? then
              var next := Lex(config.text, after.pos + after.token.length, after.err);
              if next.token.kind.ObjectEnd? && !config.allowTrailingComma then Failed(TrailingComma)
              else BuildObject(config, next, depth, more)
            else if after.token.kind.ObjectEnd? then
              Built(Dict(more), after.pos + after.token.length, after.err)
            else Failed(after.err)
  }

  /** The value whose first token is at `l`. */
  function ValueAt(config: Config, l: Lexed, depth: nat): Outcome
    requires IsTokenAt(config.text, l.token, l.pos)
  {
    var end := l.pos + l.token.length;
    match l.token.kind
    case NullToken => Built(Null, end, l.err)
    case BoolTrue => Built(Bool(true), end, l.err)
    case BoolFalse => Built(Bool(false), end, l.err)
    case NumberToken => Scalar(DecodeNumber(config, config.text[l.pos..end]), end, l.err)
    case StringToken => Scalar(StringValue(DecodeString(config.text, l.pos, l.token.length)), end, l.err)
    case ArrayBegin => BuildArray(config, Lex(config.text, end, l.err), depth, [])
    case ObjectBegin => BuildObject(config, Lex(config.text, end, l.err), depth, [])
    case _ => Failed(l.err)
  }

  lemma BuildStep(config: Config, p: nat, depth: nat, err: ErrorCode, isRoot: bool)
    requires p <= |config.text|
    ensures Build(config, p, depth, err, isRoot)
         == if depth + 1 > STACK_LIMIT then Failed(TooMuchNesting)
            else
              var l := Lex(config.text, p, err);
              if isRoot && !(l.token.kind.ObjectBegin? || l.token.kind.ArrayBegin?) then Failed(BadRootElementType)
              else ValueAt(config, l, depth + 1)
  {
    hide Lex, DecodeString, DecodeNumber, BuildArray, BuildObject;
  }

  datatype MemberOutcome = Member(entry: Entry, pos: nat, err: ErrorCode) | NoMember(err: ErrorCode)

  /** Key, colon and value of the member at `l`. */
  function BuildMember(config: Config, l: Lexed, depth: nat): (r: MemberOutcome)
    requires IsTokenAt(config.text, l.token, l.pos)
    ensures r.Member? ==> l.pos < r.pos <= |config.text|
  {
    if !l.token.kind.StringToken? then NoMember(UnquotedDictionaryKey)
    else match DecodeString(config.text, l.pos, l.token.length)
      case None => NoMember(l.err)
      case Some(key) =>
        var colon := Lex(config.text, l.pos + l.token.length, l.err);
        if !colon.token.kind.PairSeparator? then NoMember(colon.err)
        else
          var start := Lex(config.text, colon.pos + colon.token.length, colon.err);
          match Build(config, start.pos, depth, start.err, false)
          case Failed(err) => NoMember(err)
          case Built(value, p, err) => Member(Entry(key, value), p, err)
  }

  /** The member loop, one member at a time. */
  lemma ObjectStep(config: Config, l: Lexed, depth: nat, entries: seq<Entry>)
    requires IsTokenAt(config.text, l.token, l.pos) && !l.token.kind.ObjectEnd?
    ensures BuildObject(config, l, depth, entries)
         == match BuildMember(config, l, depth)
            case NoMember(err) => Failed(err)
            case Member(e, p, err) =>
              var after := Lex(config.text, p, err);
              var more := SetEntry(entries, e.key, e.value);
              if after.token.kind.ListSeparator? then
                var next := Lex(config.text, after.pos + after.token.length, after.err);
                if next.token.kind.ObjectEnd? && !config.allowTrailingComma then Failed(TrailingComma)
                else BuildObject(config, next, depth, more)
              else if after.token.kind.ObjectEnd? then Built(Dict(more), after.pos + after.token.length, after.err)
              else Failed(after.err)
  {
    hide Lex, DecodeString, Build, SetEntry;
  }

  lemma ObjectDone(config: Config, l: Lexed, depth: nat, entries: seq<Entry>)
    requires IsTokenAt(config.text, l.token, l.pos) && l.token.kind.ObjectEnd?
    ensures BuildObject(config, l, depth, entries) == Built(Dict(entries), l.pos + l.token.length, l.err)
  {
  }

  datatype ReadResult = Root(value: Value) | Error(code: ErrorCode)

  /** A leading byte-order mark is skipped. */
  function Start(text: string): (p: nat)
    ensures p <= |text|
  {
    if |text| >= 3 && text[0] as int == 0xEF && text[1] as int == 0xBB && text[2] as int == 0xBF then 3 else 0
  }

  function Read(config: Config, checkRoot: bool): ReadResult {
    match Build(config, Start(config.text), 0, NoError, checkRoot)
    case Failed(err) => Error(if err.NoError? then SyntaxError else err)
    case Built(value, p, err) =>
      if Lex(config.text, p, err).token.kind.EndOfInput? then Root(value) else Error(UnexpectedDataAfterRoot)
  }

  // ---- The parser ------------------------------------------------------------------------

  class JsonReader {
    const config: Config
    var jsonPos: nat
    var stackDepth: nat
    var errorCode: ErrorCode

    constructor (json: string, allowTrailingComma: bool, parseDouble: string -> Option<real>)
      ensures config == Config(json, allowTrailingComma, parseDouble)
      ensures jsonPos == 0 && stackDepth == 0 && errorCode == NoError
    {
      config := Config(json, allowTrailingComma, parseDouble);
      jsonPos := 0;
      stackDepth := 0;
      errorCode := NoError;
    }

    ghost predicate Valid()
      reads this
    {
      jsonPos <= |config.text|
    }

    /** The comment loops of `EatComment`. */
    method EatComment() returns (eaten: bool)
      requires Valid() && jsonPos < |config.text|
      modifies this`jsonPos
      ensures Valid()
      ensures var end := CommentEnd(config.text, old(jsonPos));
              eaten == end.Some? && jsonPos == if end.Some? then end.value else old(jsonPos)
    {
      var text := config.text;
      if text[jsonPos] != '/' {
        return false;
      }
      var next := At(text, jsonPos + 1);
      if next == '/' {
        jsonPos := jsonPos + 2;
        while jsonPos != |text|
          invariant jsonPos <= |text|
          invariant LineCommentEnd(text, jsonPos) == LineCommentEnd(text, old(jsonPos) + 2)
        {
          if text[jsonPos] == '\n' || text[jsonPos] == '\r' {
            jsonPos := jsonPos + 1;
            return true;
          }
          jsonPos := jsonPos + 1;
        }
      } else if next == '*' {
        jsonPos := jsonPos + 2;
        while jsonPos != |text|
          invariant jsonPos <= |text|
          invariant BlockCommentEnd(text, jsonPos) == BlockCommentEnd(text, old(jsonPos) + 2)
        {
          if text[jsonPos] == '*' && At(text, jsonPos + 1) == '/' {
            jsonPos := jsonPos + 2;
            return true;
          }
          jsonPos := jsonPos + 1;
        }
      } else {
        return false;
      }
      return true;
    }

    method EatWhitespaceAndComments()
      requires Valid()
      modifies this`jsonPos
      ensures Valid() && jsonPos == SkipBlanks(config.text, old(jsonPos))
    {
      while jsonPos != |config.text|
        invariant Valid() && SkipBlanks(config.text, jsonPos) == SkipBlanks(config.text, old(jsonPos))
        decreases |config.text| - jsonPos
      {
        if IsWhite(config.text[jsonPos]) {
          jsonPos := jsonPos + 1;
        } else {
          var eaten := EatComment();
          if !eaten {
            return;
          }
        }
      }
    }

    /** The token grows one character, or one escape, at a time. */
    method ParseStringToken() returns (token: Token)
      requires Valid() && At(config.text, jsonPos) == '"'
      modifies this`errorCode
      ensures (token, errorCode) == TokenAt(config.text, jsonPos, old(errorCode))
    {
      var text := config.text;
      var length := 1;
      while jsonPos + length < |text|
        invariant jsonPos + length <= |text| && errorCode == old(errorCode)
        invariant ScanString(text, jsonPos, length) == ScanString(text, jsonPos, 1)
      {
        var c := text[jsonPos + length];
        if c == '\\' {
          length := length + 1;
          c := At(text, jsonPos + length);
          if c == 'x' || c == 'u' {
            var digits := if c == 'x' then 2 else 4;
            if !HexRun(text, jsonPos + length + 1, digits) {
              errorCode := InvalidEscape;
              return Token(Invalid, 0);
            }
            length := length + digits;
          } else if !IsSimpleEscape(c) {
            errorCode := InvalidEscape;
            return Token(Invalid, 0);
          }
        } else if c == '"' {
          return Token(StringToken, length + 1);
        }
        length := length + 1;
      }
      return Token(Invalid, 0);
    }

    method ParseToken() returns (token: Token)
      requires Valid()
      modifies this`jsonPos, this`errorCode
      ensures Valid() && Lexed(token, jsonPos, errorCode) == Lex(config.text, old(jsonPos), old(errorCode))
    {
      EatWhitespaceAndComments();
      if At(config.text, jsonPos) == '"' {
        token := ParseStringToken();
      } else {
        token := TokenAt(config.text, jsonPos, errorCode).0;
      }
    }

    method DecodeStringToken(token: Token) returns (decoded: Option<string>)
      requires Valid() && IsTokenAt(config.text, token, jsonPos) && token.kind.StringToken?
      ensures decoded == DecodeString(config.text, jsonPos, token.length)
    {
      var text := config.text;
      var str := "";
      var i := 1;
      PrependNothing(DecodeString(text, jsonPos, token.length));
      while i < token.length - 1
        invariant 1 <= i
        invariant DecodeString(text, jsonPos, token.length)
               == PrependAll(str, DecodeFrom(text, jsonPos, token.length, i))
      {
        var c := text[jsonPos + i];
        if c == '\\' {
          i := i + 1;
          c := text[jsonPos + i];
          if c == 'x' {
            if i + 2 >= token.length || !HexRun(text, jsonPos + i + 1, 2) {
              return None;
            }
            c := (HexValue(text[jsonPos + i + 1]) * 16 + HexValue(text[jsonPos + i + 2])) as char;
            i := i + 2;
          } else if IsSimpleEscape(c) {
            c := Unescaped(c);
          } else {
            return None;
          }
        }
        PrependOne(str, c, DecodeFrom(text, jsonPos, token.length, i + 1));
        str := str + [c];
        i := i + 1;
      }
      assert str + "" == str;
      return Some(str);
    }

    method BuildValue(isRoot: bool) returns (value: Option<Value>)
      requires Valid()
      modifies this
      ensures Valid() && Agrees(value, Build(config, old(jsonPos), old(stackDepth), old(errorCode), isRoot))
      ensures value.Some? ==> stackDepth == old(stackDepth)
      decreases |config.text| - jsonPos, 1
    {
      hide Lex, Build, ValueAt, IsTokenAt;
      BuildStep(config, jsonPos, stackDepth, errorCode, isRoot);
      stackDepth := stackDepth + 1;
      if stackDepth > STACK_LIMIT {
        errorCode := TooMuchNesting;
        return None;
      }
      var token := ParseToken();
      if isRoot && token.kind != ObjectBegin && token.kind != ArrayBegin {
        errorCode := BadRootElementType;
        return None;
      }
      token, value := ParseTokenValue(token);
      if value.None? {
        return None;
      }
      jsonPos := jsonPos + token.length;
      stackDepth := stackDepth - 1;
    }

    /** The switch of `BuildValue`, up to the last token of the value. */
    method ParseTokenValue(first: Token) returns (token: Token, value: Option<Value>)
      requires Valid() && IsTokenAt(config.text, first, jsonPos)
      modifies this
      ensures Valid() && (value.Some? ==> jsonPos + token.length <= |config.text|)
      ensures AgreesBefore(token, value, ValueAt(config, Lexed(first, old(jsonPos), old(errorCode)), old(stackDepth)))
      ensures value.Some? ==> stackDepth == old(stackDepth)
      decreases |config.text| - jsonPos, 0
    {
      hide Lex, DecodeString, DecodeNumber, BuildArray, BuildObject, ScanString, SkipBlanks, TokenAt;
      token := first;
      match token.kind {
      case NullToken => value := Some(Null);
      case BoolTrue => value := Some(Bool(true));
      case BoolFalse => value := Some(Bool(false));
      case NumberToken =>
        value := DecodeNumber(config, config.text[jsonPos..jsonPos + token.length]);
      case StringToken =>
        var decoded := DecodeStringToken(token);
        value := StringValue(decoded);
      case ArrayBegin =>
        jsonPos := jsonPos + token.length;
        token := ParseToken();
        token, value := ParseItems(token);
      case ObjectBegin =>
        jsonPos := jsonPos + token.length;
        token := ParseToken();
        token, value := ParseMembers(token);
      case _ =>
        value := None;
      }
    }

    /** What the fields and the returned value say is the given outcome. */
    ghost predicate Agrees(value: Option<Value>, r: Outcome)
      reads this
    {
      match value
      case Some(v) => r == Built(v, jsonPos, errorCode)
      case None => r == Failed(errorCode)
    }

    /** The same while the closing token has been looked at but not consumed. */
    ghost predicate AgreesBefore(token: Token, value: Option<Value>, r: Outcome)
      reads this
    {
      match value
      case Some(v) => r == Built(v, jsonPos + token.length, errorCode)
      case None => r == Failed(errorCode)
    }

    /** The array loop of `BuildValue`. */
    method ParseItems(first: Token) returns (token: Token, value: Option<Value>)
      requires Valid() && IsTokenAt(config.text, first, jsonPos)
      modifies this
      ensures Valid()
      ensures AgreesBefore(token, value,
                BuildArray(config, Lexed(first, old(jsonPos), old(errorCode)), old(stackDepth), []))
      ensures value.Some? ==> stackDepth == old(stackDepth)
      decreases |config.text| - jsonPos, 2
    {
      hide Lex, Build, ScanString;
      token := first;
      var items := [];
      while token.kind != ArrayEnd
        invariant Valid() && IsTokenAt(config.text, token, jsonPos)
        invariant stackDepth == old(stackDepth) && old(jsonPos) <= jsonPos
        invariant BuildArray(config, Lexed(token, jsonPos, errorCode), stackDepth, items)
               == BuildArray(config, Lexed(first, old(jsonPos), old(errorCode)), old(stackDepth), [])
        decreases |config.text| - jsonPos
      {
        var item := BuildValue(false);
        if item.None? {
          return token, None;
        }
        token := ParseToken();
        if token.kind == ListSeparator {
          jsonPos := jsonPos + token.length;
          token := ParseToken();
          if token.kind == ArrayEnd && !config.allowTrailingComma {
            errorCode := TrailingComma;
            return token, None;
          }
        } else if token.kind != ArrayEnd {
          return token, None;
        }
        items := items + [item.value];
      }
      value := Some(List(items));
    }

    /** The object loop of `BuildValue`. */
    method ParseMembers(first: Token) returns (token: Token, value: Option<Value>)
      requires Valid() && IsTokenAt(config.text, first, jsonPos)
      modifies this
      ensures Valid()
      ensures AgreesBefore(token, value,
                BuildObject(config, Lexed(first, old(jsonPos), old(errorCode)), old(stackDepth), []))
      ensures value.Some? ==> stackDepth == old(stackDepth)
      decreases |config.text| - jsonPos, 2
    {
      hide Lex, DecodeString, Build, SetEntry, ScanString, BuildArray, BuildObject, BuildMember, SkipBlanks, TokenAt;
      token := first;
      var entries := [];
      while token.kind != ObjectEnd
        invariant Valid() && IsTokenAt(config.text, token, jsonPos)
        invariant stackDepth == old(stackDepth) && old(jsonPos) <= jsonPos
        invariant BuildObject(config, Lexed(token, jsonPos, errorCode), stackDepth, entries)
               == BuildObject(config, Lexed(first, old(jsonPos), old(errorCode)), old(stackDepth), [])
        decreases |config.text| - jsonPos
      {
        ObjectStep(config, Lexed(token, jsonPos, errorCode), stackDepth, entries);
        var member := ParseMember(token);
        if member.None? {
          return token, None;
        }
        token := ParseToken();
        if token.kind == ListSeparator {
          jsonPos := jsonPos + token.length;
          token := ParseToken();
          if token.kind == ObjectEnd && !config.allowTrailingComma {
            errorCode := TrailingComma;
            return token, None;
          }
        } else if token.kind == ObjectEnd {
          ObjectDone(config, Lexed(token, jsonPos, errorCode), stackDepth, SetEntry(entries, member.value.key, member.value.value));
        } else {
          return token, None;
        }
        entries := SetEntry(entries, member.value.key, member.value.value);
      }
      ObjectDone(config, Lexed(token, jsonPos, errorCode), stackDepth, entries);
      value := Some(Dict(entries));
    }

    /** One member of the loop: its key, the colon and the value. */
    method ParseMember(first: Token) returns (member: Option<Entry>)
      requires Valid() && IsTokenAt(config.text, first, jsonPos)
      modifies this
      ensures Valid()
      ensures BuildMember(config, Lexed(first, old(jsonPos), old(errorCode)), old(stackDepth))
           == if member.Some? then Member(member.value, jsonPos, errorCode) else NoMember(errorCode)
      ensures member.Some? ==> stackDepth == old(stackDepth)
      decreases |config.text| - jsonPos, 0
    {
      hide Lex, DecodeString, Build, ScanString, SkipBlanks, TokenAt, BuildArray, BuildObject;
      if first.kind != StringToken {
        errorCode := UnquotedDictionaryKey;
        return None;
      }
      var key := DecodeStringToken(first);
      if key.None? {
        return None;
      }
      jsonPos := jsonPos + first.length;
      var token := ParseToken();
      if token.kind != PairSeparator {
        return None;
      }
      jsonPos := jsonPos + token.length;
      token := ParseToken();
      var item := BuildValue(false);
      if item.Some? {
        member := Some(Entry(key.value, item.value));
      } else {
        member := None;
      }
    }

    method JsonToValue(checkRoot: bool) returns (result: ReadResult)
      modifies this
      ensures result == Read(config, checkRoot)
    {
      jsonPos := Start(config.text);
      stackDepth := 0;
      errorCode := NoError;
      var root := BuildValue(checkRoot);
      if root.Some? {
        var token := ParseToken();
        if token.kind == EndOfInput {
          return Root(root.value);
        }
        errorCode := UnexpectedDataAfterRoot;
      }
      if errorCode == NoError {
        errorCode := SyntaxError;
      }
      return Error(errorCode);
    }
  }

  function PrependAll(s: string, rest: Option<string>): Option<string> {
    match rest
    case Some(t) => Some(s + t)
    case None => None
  }

  lemma PrependNothing(rest: Option<string>)
    ensures PrependAll("", rest) == rest
  {
    if rest.Some? {
      assert "" + rest.value == rest.value;
    }
  }

  lemma PrependOne(s: string, c: char, rest: Option<string>)
    ensures PrependAll(s, Prepend(c, rest)) == PrependAll(s + [c], rest)
  {
    if rest.Some? {
      assert s + ([c] + rest.value) == s + [c] + rest.value;
    }
  }
}
