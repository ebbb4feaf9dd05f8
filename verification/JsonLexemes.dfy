/** Blanks, strings and numbers: what the parser makes of a spelling of the grammar, and which
    spelling stands where it has read one. */
module JsonLexemes {
  import opened NumberConversions
  import opened Values
  import opened Wrappers
  import opened JsonReader
  import opened JsonRoundTrip
  import G = JsonGrammar

  // ---- Blanks ----------------------------------------------------------------------------

  lemma {:induction false} LineReads(text: string, p: nat, n: nat)
    requires n > 0 && p + n <= |text| && G.EndsLine(text[p + n - 1])
    requires forall i :: p <= i < p + n - 1 ==> !G.EndsLine(text[i])
    ensures LineCommentEnd(text, p) == p + n
    decreases n
  {
    if n > 1 { LineReads(text, p + 1, n - 1); }
  }

  lemma {:induction false} BlockReads(text: string, p: nat, n: nat)
    requires n >= 2 && p + n <= |text| && G.Closes(text, p + n - 2)
    requires forall i :: p <= i < p + n - 2 ==> !G.Closes(text, i)
    ensures BlockCommentEnd(text, p) == p + n
    decreases n
  {
    if n > 2 {
      assert !G.Closes(text, p);
      BlockReads(text, p + 1, n - 1);
    }
  }

  lemma WordChars(text: string, p: nat, s: string)
    requires HasWord(text, p, s)
    ensures forall i :: 0 <= i < |s| ==> text[p + i] == s[i]
  {
    forall i | 0 <= i < |s| ensures text[p + i] == s[i] {
      WordChar(text, p, s, i);
    }
  }

  lemma BlankReads(text: string, p: nat, s: string)
    requires HasWord(text, p, s) && G.IsBlank(s)
    ensures SkipBlanks(text, p) == SkipBlanks(text, p + |s|)
  {
    WordChars(text, p, s);
    if G.IsLineComment(s) {
      assert text[p] == s[0] && text[p + 1] == s[1] && text[p + (|s| - 1)] == s[|s| - 1];
      forall i | p + 2 <= i < p + |s| - 1 ensures !G.EndsLine(text[i]) {
        assert text[p + (i - p)] == s[i - p];
      }
      LineReads(text, p + 2, |s| - 2);
    } else if G.IsBlockComment(s) {
      assert text[p] == s[0] && text[p + 1] == s[1];
      assert G.Closes(text, p + 2 + (|s| - 2) - 2) by {
        assert text[p + (|s| - 2)] == s[|s| - 2] && text[p + (|s| - 1)] == s[|s| - 1];
      }
      forall i | p + 2 <= i < p + |s| - 2 ensures !G.Closes(text, i) {
        assert text[p + (i - p)] == s[i - p] && text[p + (i - p + 1)] == s[i - p + 1];
        assert !G.Closes(s, i - p);
      }
      BlockReads(text, p + 2, |s| - 2);
    } else {
      assert text[p] == s[0];
    }
  }

  lemma {:induction false} BlanksRead(text: string, p: nat, s: string)
    requires HasWord(text, p, s) && G.IsBlanks(s)
    ensures SkipBlanks(text, p) == SkipBlanks(text, p + |s|)
    decreases |s|
  {
    hide SkipBlanks, G.IsBlank;
    if s != "" {
      var n :| 1 <= n <= |s| && G.IsBlank(s[..n]) && G.IsBlanks(s[n..]);
      assert s == s[..n] + s[n..];
      WordSplit(text, p, s[..n], s[n..]);
      BlankReads(text, p, s[..n]);
      BlanksRead(text, p + n, s[n..]);
    }
  }

  /** Blanks and then a word that starts with something else. */
  lemma LexBlanks(text: string, p: nat, blanks: string, word: string, err: ErrorCode)
    requires HasWord(text, p, blanks + word) && G.IsBlanks(blanks)
    requires word != [] && NoBlank(word[0])
    ensures HasWord(text, p + |blanks|, word) && text[p + |blanks|] == word[0]
    ensures SkipBlanks(text, p) == p + |blanks|
    ensures var t := TokenAt(text, p + |blanks|, err); Lex(text, p, err) == Lexed(t.0, p + |blanks|, t.1)
  {
    hide TokenAt, G.IsBlanks, HasWord;
    WordSplit(text, p, blanks, word);
    BlanksRead(text, p, blanks);
    WordChar(text, p + |blanks|, word, 0);
  }

  lemma {:induction false} LineEndIs(text: string, p: nat)
    requires p <= |text|
    ensures var e := LineCommentEnd(text, p);
            || (e > p && G.EndsLine(text[e - 1]) && forall i :: p <= i < e - 1 ==> !G.EndsLine(text[i]))
            || (e == |text| && forall i :: p <= i < |text| ==> !G.EndsLine(text[i]))
    decreases |text| - p
  {
    if p < |text| && !G.EndsLine(text[p]) { LineEndIs(text, p + 1); }
  }

  lemma {:induction false} BlockEndIs(text: string, p: nat)
    requires p <= |text|
    ensures var e := BlockCommentEnd(text, p);
            || (e >= p + 2 && G.Closes(text, e - 2) && forall i :: p <= i < e - 2 ==> !G.Closes(text, i))
            || (e == |text| && forall i :: p <= i < |text| ==> !G.Closes(text, i))
    decreases |text| - p
  {
    if p < |text| && !G.Closes(text, p) {
      BlockEndIs(text, p + 1);
    } else if p < |text| {
      assert BlockCommentEnd(text, p) == p + 2;
    }
  }

  lemma LineCommentIs(text: string, p: nat)
    requires p + 2 <= |text| && text[p] == '/' && text[p + 1] == '/'
    ensures var e := LineCommentEnd(text, p + 2);
            G.IsLineComment(text[p..e]) || (e == |text| && G.IsOpenComment(text[p..]))
  {
    hide LineCommentEnd, G.EndsLine;
    var e := LineCommentEnd(text, p + 2);
    var s, rest := text[p..e], text[p..];
    LineEndIs(text, p + 2);
    if e > p + 2 && G.EndsLine(text[e - 1]) && forall i :: p + 2 <= i < e - 1 ==> !G.EndsLine(text[i]) {
      assert s[|s| - 1] == text[e - 1];
    } else {
      assert rest[0] == text[p] && rest[1] == text[p + 1];
    }
  }

  lemma BlockCommentIs(text: string, p: nat)
    requires p + 2 <= |text| && text[p] == '/' && text[p + 1] == '*'
    ensures var e := BlockCommentEnd(text, p + 2);
            G.IsBlockComment(text[p..e]) || (e == |text| && G.IsOpenComment(text[p..]))
  {
    hide BlockCommentEnd;
    var e := BlockCommentEnd(text, p + 2);
    var s, rest := text[p..e], text[p..];
    BlockEndIs(text, p + 2);
    if e >= p + 4 && G.Closes(text, e - 2) && forall i :: p + 2 <= i < e - 2 ==> !G.Closes(text, i) {
      assert s[0] == text[p] && s[1] == text[p + 1] && s[|s| - 2] == text[e - 2] && s[|s| - 1] == text[e - 1];
      forall i | 2 <= i < |s| - 2 ensures !G.Closes(s, i) {
        assert !G.Closes(text, p + i) && s[i] == text[p + i] && s[i + 1] == text[p + i + 1];
      }
    } else {
      assert rest[0] == text[p] && rest[1] == text[p + 1];
      forall i | 2 <= i < |rest| ensures !G.Closes(rest, i) {
        assert !G.Closes(text, p + i) && (i + 1 < |rest| ==> rest[i] == text[p + i] && rest[i + 1] == text[p + i + 1]);
      }
    }
  }

  /** The comment at `p` is a whole one, or runs to the end of the text. */
  lemma CommentIs(text: string, p: nat)
    requires p < |text| && CommentEnd(text, p).Some?
    ensures var e := CommentEnd(text, p).value;
            G.IsBlank(text[p..e]) || (e == |text| && G.IsOpenComment(text[p..]))
  {
    hide LineCommentEnd, BlockCommentEnd, G.IsLineComment, G.IsBlockComment, G.IsOpenComment;
    if text[p + 1] == '/' { LineCommentIs(text, p); } else { BlockCommentIs(text, p); }
  }

  lemma BlankThen(s: string, n: nat)
    requires 1 <= n <= |s| && G.IsBlank(s[..n])
    ensures G.IsBlanks(s[n..]) ==> G.IsBlanks(s)
    ensures G.IsEnd(s[n..]) ==> G.IsEnd(s)
  {
    hide G.IsEnd, G.IsBlank, G.IsOpenComment;
    if G.IsEnd(s[n..]) { BlankThenEnd(s, n); }
  }

  lemma BlankThenEnd(s: string, n: nat)
    requires 1 <= n <= |s| && G.IsBlank(s[..n]) && G.IsEnd(s[n..])
    ensures G.IsEnd(s)
  {
    hide G.IsBlank, G.IsOpenComment, G.IsBlanks;
    var t := s[n..];
    var m :| 0 <= m <= |t| && G.IsBlanks(t[..m]) && (m == |t| || t[m] == '\0' || G.IsOpenComment(t[m..]));
    assert s[..n + m][..n] == s[..n] && s[..n + m][n..] == t[..m] && s[n + m..] == t[m..];
    BlankFirst(s[..n + m], n);
    assert G.IsBlanks(s[..n + m]);
  }

  lemma BlankFirst(s: string, n: nat)
    requires 1 <= n <= |s| && G.IsBlank(s[..n]) && G.IsBlanks(s[n..])
    ensures G.IsBlanks(s)
  {
    hide G.IsBlank;
  }

  /** What is skipped are blanks, unless an open comment takes the rest of the text. */
  lemma {:induction false} SkippedIs(text: string, p: nat)
    requires p <= |text|
    ensures var q := SkipBlanks(text, p);
            && SkipBlanks(text, q) == q
            && (G.IsBlanks(text[p..q]) || (q == |text| && G.IsEnd(text[p..])))
    decreases |text| - p
  {
    hide CommentEnd, G.IsBlank, G.IsOpenComment, G.IsBlanks, G.IsEnd;
    var q := SkipBlanks(text, p);
    NoBlanks(text[p..p]);
    if p < |text| && IsWhite(text[p]) {
      WhiteIs(text[p]);
      SkippedIs(text, p + 1);
      assert text[p..q][1..] == text[p + 1..q] && text[p..q][..1] == [text[p]];
      assert text[p..][1..] == text[p + 1..] && text[p..][..1] == [text[p]];
      BlankThen(text[p..q], 1);
      BlankThen(text[p..], 1);
    } else if p < |text| && CommentEnd(text, p).Some? {
      var e := CommentEnd(text, p).value;
      CommentIs(text, p);
      SkippedIs(text, e);
      if G.IsBlank(text[p..e]) {
        assert text[p..q][e - p..] == text[e..q] && text[p..q][..e - p] == text[p..e];
        assert text[p..][e - p..] == text[e..] && text[p..][..e - p] == text[p..e];
        BlankThen(text[p..q], e - p);
        BlankThen(text[p..], e - p);
      } else {
        OpenCommentEnds(text[p..]);
      }
    }
  }

  lemma WhiteIs(c: char)
    ensures IsWhite(c) <==> c == ' ' || G.EndsLine(c) || c == '\t'
    ensures IsWhite(c) ==> G.IsBlank([c])
  {
  }

  lemma NoBlanks(s: string)
    ensures s == "" ==> G.IsBlanks(s)
  {
  }

  lemma OpenCommentEnds(s: string)
    requires G.IsOpenComment(s)
    ensures G.IsEnd(s)
  {
    assert s[..0] == "" && s[0..] == s;
  }

  lemma {:induction false} LineRuns(text: string, p: nat)
    requires p <= |text| && forall i :: p <= i < |text| ==> !G.EndsLine(text[i])
    ensures LineCommentEnd(text, p) == |text|
    decreases |text| - p
  {
    if p < |text| { LineRuns(text, p + 1); }
  }

  lemma {:induction false} BlockRuns(text: string, p: nat)
    requires p <= |text| && forall i :: p <= i < |text| ==> !G.Closes(text, i)
    ensures BlockCommentEnd(text, p) == |text|
    decreases |text| - p
  {
    if p < |text| {
      assert !G.Closes(text, p);
      BlockRuns(text, p + 1);
    }
  }

  lemma OpenRuns(text: string, p: nat)
    requires p <= |text| && G.IsOpenComment(text[p..])
    ensures SkipBlanks(text, p) == |text|
  {
    var s := text[p..];
    assert text[p] == s[0] && text[p + 1] == s[1];
    if s[1] == '/' {
      forall i | p + 2 <= i < |text| ensures !G.EndsLine(text[i]) {
        assert text[i] == s[i - p];
      }
      LineRuns(text, p + 2);
    } else {
      forall i | p + 2 <= i < |text| ensures !G.Closes(text, i) {
        assert !G.Closes(s, i - p);
      }
      BlockRuns(text, p + 2);
    }
  }

  /** The end of the input is met exactly behind an end of the grammar. */
  lemma EndExactlyWhen(text: string, p: nat, err: ErrorCode)
    requires p <= |text|
    ensures Lex(text, p, err).token.kind.EndOfInput? <==> G.IsEnd(text[p..])
  {
    hide SkipBlanks, G.IsEnd, TokenAt;
    NoEndToken(text, SkipBlanks(text, p), err);
    if G.IsEnd(text[p..]) { EndReads(text, p); } else { NoEndReads(text, p); }
  }

  lemma EndReads(text: string, p: nat)
    requires p <= |text| && G.IsEnd(text[p..])
    ensures At(text, SkipBlanks(text, p)) == '\0'
  {
    hide *;
    var n := BlanksBefore(text[p..]);
    Within(text, p, n);
    BlanksRead(text, p, text[p..][..n]);
    EndAt(text, p + n);
  }

  lemma BlanksBefore(s: string) returns (n: nat)
    requires G.IsEnd(s)
    ensures n <= |s| && G.IsBlanks(s[..n]) && (n == |s| || s[n] == '\0' || G.IsOpenComment(s[n..]))
  {
    hide G.IsBlanks, G.IsOpenComment;
    n :| 0 <= n <= |s| && G.IsBlanks(s[..n]) && (n == |s| || s[n] == '\0' || G.IsOpenComment(s[n..]));
  }

  lemma Within(text: string, p: nat, n: nat)
    requires p + n <= |text|
    ensures HasWord(text, p, text[p..][..n]) && text[p..][n..] == text[p + n..]
    ensures p + n < |text| ==> text[p..][n] == text[p + n]
  {
    assert text[p..p + n] == text[p..][..n];
  }

  lemma EndAt(text: string, p: nat)
    requires p <= |text| && (p == |text| || text[p] == '\0' || G.IsOpenComment(text[p..]))
    ensures At(text, SkipBlanks(text, p)) == '\0'
  {
    hide SkipBlanks, G.IsOpenComment;
    StopsAt(text, p);
    if p < |text| && text[p] != '\0' { OpenRuns(text, p); }
  }

  lemma NoEndReads(text: string, p: nat)
    requires p <= |text| && !G.IsEnd(text[p..])
    ensures At(text, SkipBlanks(text, p)) != '\0'
  {
    hide SkipBlanks, G.IsBlanks, G.IsOpenComment;
    var s, q := text[p..], SkipBlanks(text, p);
    SkippedIs(text, p);
    assert text[p..q] == s[..q - p] && (q < |text| ==> text[q] == s[q - p]);
  }

  lemma StopsAt(text: string, p: nat)
    requires p <= |text|
    ensures p == |text| || text[p] == '\0' ==> SkipBlanks(text, p) == p
  {
  }

  lemma NoEndToken(text: string, q: nat, err: ErrorCode)
    requires q <= |text|
    ensures TokenAt(text, q, err).0.kind.EndOfInput? <==> At(text, q) == '\0'
  {
  }

  // ---- Strings ---------------------------------------------------------------------------

  lemma HexDigitIs(c: char)
    ensures G.DigitValue(c) == if IsHexDigit(c) then Some(HexValue(c)) else None
  {
  }

  lemma TwoDigits(digits: string)
    requires |digits| == 2
    ensures G.HexNumber(digits)
         == if IsHexDigit(digits[0]) && IsHexDigit(digits[1])
            then Some(16 * HexValue(digits[0]) + HexValue(digits[1])) else None
  {
    hide IsHexDigit, HexValue, G.DigitValue;
    HexDigitIs(digits[0]);
    HexDigitIs(digits[1]);
    assert digits[..1][..0] == "" && G.HexNumber("") == Some(0);
    assert G.HexNumber(digits[..1]) == G.DigitValue(digits[0]);
  }

  /** What the parser knows of a letter behind a backslash. */
  lemma ShortIs(letter: char)
    ensures G.PieceMeaning(G.Short(letter)) == if IsSimpleEscape(letter) then Some(Unescaped(letter)) else None
    ensures IsSimpleEscape(letter) ==> letter != 'x' && letter != 'u'
  {
  }

  predicate PieceAt(text: string, q: nat, p: G.Piece) {
    HasWord(text, q, G.Spell(p)) && G.PieceMeaning(p).Some? && !p.Unicode?
  }

  /** A legal piece as the parser meets it. */
  lemma PieceShape(text: string, q: nat, p: G.Piece)
    requires PieceAt(text, q, p)
    ensures match p
            case Raw(c) => text[q] == c && c != '"' && c != '\\'
            case Short(letter) => text[q] == '\\' && text[q + 1] == letter && IsSimpleEscape(letter)
            case Hex(digits) => text[q] == '\\' && text[q + 1] == 'x' && HexRun(text, q + 2, 2)
                              && G.PieceMeaning(p) == Some((HexValue(text[q + 2]) * 16 + HexValue(text[q + 3])) as char)
            case _ => false
  {
    hide IsHexDigit, HexValue, G.HexNumber;
    WordChars(text, q, G.Spell(p));
    var s := G.Spell(p);
    assert text[q + 0] == s[0] && (|s| > 1 ==> text[q + 1] == s[1]);
    match p
    case Short(letter) => ShortIs(letter);
    case Hex(digits) =>
      TwoDigits(digits);
      assert text[q + 2] == s[2] == digits[0] && text[q + 3] == s[3] == digits[1];
    case _ =>
  }

  lemma ScanPiece(text: string, p: nat, i: nat, piece: G.Piece)
    requires PieceAt(text, p + i, piece)
    ensures ScanString(text, p, i) == ScanString(text, p, i + |G.Spell(piece)|)
  {
    hide PieceAt, G.PieceMeaning, IsHexDigit, HexValue, IsSimpleEscape;
    PieceShape(text, p + i, piece);
    PieceFits(text, p + i, piece);
    if piece.Short? { ShortIs(piece.letter); }
  }

  lemma PieceFits(text: string, q: nat, p: G.Piece)
    requires PieceAt(text, q, p)
    ensures q + |G.Spell(p)| <= |text| && (p.Hex? ==> |p.digits| == 2)
  {
  }

  lemma DecodePiece(text: string, p: nat, length: nat, i: nat, piece: G.Piece)
    requires p + length <= |text| && PieceAt(text, p + i, piece) && i + |G.Spell(piece)| < length
    ensures DecodeFrom(text, p, length, i)
         == Prepend(G.PieceMeaning(piece).value, DecodeFrom(text, p, length, i + |G.Spell(piece)|))
  {
    hide PieceAt, IsHexDigit, HexValue, IsSimpleEscape, Unescaped;
    PieceShape(text, p + i, piece);
    PieceFits(text, p + i, piece);
    if piece.Short? { ShortIs(piece.letter); }
  }

  lemma QuoteCloses(text: string, p: nat, i: nat)
    requires HasWord(text, p + i, "\"")
    ensures p + i + 1 <= |text| && ScanString(text, p, i) == Closed(i + 1) && DecodeFrom(text, p, i + 1, i) == Some("")
  {
    WordChar(text, p + i, "\"", 0);
  }

  lemma {:induction false} BodyRead(g: G.Dialect, text: string, p: nat, i: nat, ps: seq<G.Piece>)
    requires !g.unicode && G.LegalText(g, ps) && HasWord(text, p + i, G.BodySpelling(ps))
    ensures ScanString(text, p, i) == Closed(i + |G.BodySpelling(ps)|)
    ensures DecodeFrom(text, p, i + |G.BodySpelling(ps)|, i) == Some(G.TextMeaning(g, ps))
    decreases |ps|
  {
    hide HasWord, ScanString, DecodeFrom, G.Spell, G.PieceMeaning, PieceAt;
    if ps == [] {
      QuoteCloses(text, p, i);
    } else {
      var e, rest := G.Spell(ps[0]), G.BodySpelling(ps[1..]);
      WordSplit(text, p + i, e, rest);
      assert p + i + |e| == p + (i + |e|);
      IsPieceAt(text, p + i, ps[0]);
      ScanPiece(text, p, i, ps[0]);
      BodyRead(g, text, p, i + |e|, ps[1..]);
      WordFits(text, p + i, G.BodySpelling(ps));
      DecodePiece(text, p, i + |G.BodySpelling(ps)|, i, ps[0]);
    }
  }

  lemma WordFits(text: string, p: nat, s: string)
    requires HasWord(text, p, s)
    ensures p + |s| <= |text|
  {
  }

  lemma IsPieceAt(text: string, q: nat, p: G.Piece)
    requires HasWord(text, q, G.Spell(p)) && G.PieceMeaning(p).Some? && !p.Unicode?
    ensures PieceAt(text, q, p)
  {
  }

  /** A legal string is one token and decodes to its meaning. */
  lemma TextReads(g: G.Dialect, text: string, p: nat, ps: seq<G.Piece>, err: ErrorCode)
    requires !g.unicode && G.LegalText(g, ps) && HasWord(text, p, G.TextSpelling(ps))
    ensures TokenAt(text, p, err) == (Token(StringToken, |G.TextSpelling(ps)|), err)
    ensures DecodeString(text, p, |G.TextSpelling(ps)|) == Some(G.TextMeaning(g, ps))
  {
    hide HasWord, ScanString, DecodeFrom, G.BodySpelling, G.LegalText, G.TextMeaning;
    WordSplit(text, p, "\"", G.BodySpelling(ps));
    WordChar(text, p, "\"", 0);
    BodyRead(g, text, p, 1, ps);
  }

  /** The first piece of what the parser has scanned and could decode. */
  lemma FirstPiece(text: string, p: nat, length: nat, i: nat) returns (piece: G.Piece)
    requires p + length <= |text| && i + 1 < length && ScanString(text, p, i) == Closed(length)
    requires DecodeFrom(text, p, length, i).Some?
    ensures PieceAt(text, p + i, piece)
    ensures i + |G.Spell(piece)| < length
  {
    hide IsHexDigit, HexValue, IsSimpleEscape, Unescaped, G.HexNumber, PieceAt;
    var q := p + i;
    if text[q] != '\\' {
      piece := G.Raw(text[q]);
      RawAt(text, q);
    } else if text[q + 1] == 'x' {
      piece := G.Hex(text[q + 2..q + 4]);
      HexAt(text, q);
    } else {
      piece := G.Short(text[q + 1]);
      ShortAt(text, q);
    }
  }

  lemma RawAt(text: string, q: nat)
    requires q < |text| && text[q] != '\\' && text[q] != '"'
    ensures PieceAt(text, q, G.Raw(text[q]))
  {
    assert text[q..q + 1] == [text[q]];
  }

  lemma HexAt(text: string, q: nat)
    requires q + 4 <= |text| && text[q] == '\\' && text[q + 1] == 'x' && HexRun(text, q + 2, 2)
    ensures PieceAt(text, q, G.Hex(text[q + 2..q + 4]))
  {
    hide IsHexDigit, HexValue, G.HexNumber;
    TwoDigits(text[q + 2..q + 4]);
    assert text[q..q + 4] == "\\x" + text[q + 2..q + 4];
  }

  lemma ShortAt(text: string, q: nat)
    requires q + 2 <= |text| && text[q] == '\\' && IsSimpleEscape(text[q + 1])
    ensures PieceAt(text, q, G.Short(text[q + 1]))
  {
    hide IsSimpleEscape;
    ShortIs(text[q + 1]);
    assert text[q..q + 2] == ['\\', text[q + 1]];
  }

  /** The pieces of a token that could be decoded. */
  lemma {:induction false} BodyOf(g: G.Dialect, text: string, p: nat, length: nat, i: nat) returns (ps: seq<G.Piece>)
    requires !g.unicode && i < length && p + length <= |text| && ScanString(text, p, i) == Closed(length)
    requires DecodeFrom(text, p, length, i).Some?
    ensures G.LegalText(g, ps) && HasWord(text, p + i, G.BodySpelling(ps)) && i + |G.BodySpelling(ps)| == length
    decreases length - i
  {
    hide HasWord, G.Spell, G.PieceMeaning, PieceAt, ScanString, DecodeFrom;
    if i + 1 == length {
      ps := [];
      ClosingQuote(text, p, length, i);
    } else {
      var piece := FirstPiece(text, p, length, i);
      ScanPiece(text, p, i, piece);
      DecodePiece(text, p, length, i, piece);
      var rest := BodyOf(g, text, p, length, i + |G.Spell(piece)|);
      ps := [piece] + rest;
      PieceJoins(g, text, p + i, piece, rest);
    }
  }

  lemma ClosingQuote(text: string, p: nat, length: nat, i: nat)
    requires i + 1 == length && p + length <= |text| && ScanString(text, p, i) == Closed(length)
    ensures HasWord(text, p + i, "\"")
  {
    assert text[p + i] == '"' ==> text[p + i..p + i + 1] == "\"";
    ScanAdvances(text, p, i);
  }

  lemma ScanAdvances(text: string, p: nat, i: nat)
    requires p + i <= |text| && ScanString(text, p, i) == Closed(i + 1)
    ensures p + i < |text| && text[p + i] == '"'
  {
  }

  lemma PieceJoins(g: G.Dialect, text: string, q: nat, piece: G.Piece, rest: seq<G.Piece>)
    requires PieceAt(text, q, piece) && HasWord(text, q + |G.Spell(piece)|, G.BodySpelling(rest)) && G.LegalText(g, rest)
    ensures var ps := [piece] + rest;
            && G.LegalText(g, ps) && HasWord(text, q, G.BodySpelling(ps))
            && G.BodySpelling(ps) == G.Spell(piece) + G.BodySpelling(rest)
  {
    hide G.PieceMeaning, G.Spell;
    var ps := [piece] + rest;
    assert ps[1..] == rest;
    WordJoin(text, q, G.Spell(piece), G.BodySpelling(rest));
  }

  lemma WordJoin(text: string, p: nat, a: string, b: string)
    requires HasWord(text, p, a) && HasWord(text, p + |a|, b)
    ensures HasWord(text, p, a + b)
  {
    assert text[p..p + |a + b|] == text[p..p + |a|] + text[p + |a|..p + |a| + |b|];
  }

  /** A token that was decoded spells a legal string. */
  lemma TextOf(g: G.Dialect, text: string, p: nat, length: nat) returns (ps: seq<G.Piece>)
    requires !g.unicode && p + length <= |text| && p < |text| && text[p] == '"'
    requires ScanString(text, p, 1) == Closed(length) && DecodeString(text, p, length).Some?
    ensures G.LegalText(g, ps) && HasWord(text, p, G.TextSpelling(ps)) && |G.TextSpelling(ps)| == length
    ensures DecodeString(text, p, length) == Some(G.TextMeaning(g, ps))
  {
    hide ScanString, DecodeFrom, G.BodySpelling, G.LegalText, G.TextMeaning;
    ps := BodyOf(g, text, p, length, 1);
    assert text[p..p + 1] == "\"";
    WordJoin(text, p, "\"", G.BodySpelling(ps));
    TextReads(g, text, p, ps, NoError);
  }

  // ---- Numbers ---------------------------------------------------------------------------

  lemma DigitsRead(text: string, p: nat, digits: string, canHaveLeadingZeros: bool)
    requires HasWord(text, p, digits) && G.IsDigits(digits) && !IsDigit(At(text, p + |digits|))
    requires canHaveLeadingZeros || (digits[0] == '0' ==> |digits| == 1)
    ensures ReadInt(text, p, canHaveLeadingZeros) == Some(p + |digits|) && IsDigit(text[p])
  {
    WordChars(text, p, digits);
    forall i | 0 <= i < |digits| ensures IsDigit(text[p..][i]) {
      assert text[p + i] == digits[i];
    }
    DigitRun(text[p..], |digits|);
    assert text[p + 0] == digits[0];
  }

  function AfterFraction(text: string, p: nat): Option<nat>
    requires p <= |text|
  {
    if At(text, p) == '.' then ReadInt(text, p + 1, true) else Some(p)
  }

  function AfterExponent(text: string, p: nat): Option<nat>
    requires p <= |text|
  {
    if At(text, p) == 'e' || At(text, p) == 'E' then
      var signed := At(text, p + 1) == '-' || At(text, p + 1) == '+';
      ReadInt(text, if signed then p + 2 else p + 1, true)
    else Some(p)
  }

  lemma NumberEndIs(text: string, p: nat)
    requires p <= |text|
    ensures NumberEnd(text, p)
         == match ReadInt(text, if At(text, p) == '-' then p + 1 else p, false)
            case None => None
            case Some(p1) =>
              match AfterFraction(text, p1)
              case None => None
              case Some(p2) => AfterExponent(text, p2)
  {
    hide ReadInt;
  }

  lemma FractionReads(text: string, p: nat, s: string)
    requires p <= |text| && HasWord(text, p, s) && (s == "" || (s[0] == '.' && G.IsDigits(s[1..])))
    requires !IsDigit(At(text, p + |s|)) && At(text, p + |s|) != '.'
    ensures AfterFraction(text, p) == Some(p + |s|) && !IsDigit(At(text, p))
  {
    hide ReadInt, G.IsDigits;
    if s != "" {
      assert s == s[..1] + s[1..];
      WordSplit(text, p, s[..1], s[1..]);
      WordChar(text, p, s, 0);
      DigitsRead(text, p + 1, s[1..], true);
    }
  }

  lemma ExponentReads(text: string, p: nat, s: string)
    requires p <= |text| && HasWord(text, p, s)
    requires s == "" || ((s[0] == 'e' || s[0] == 'E') && G.IsSignedDigits(s[1..]))
    requires EndsNumber(At(text, p + |s|))
    ensures AfterExponent(text, p) == Some(p + |s|) && !IsDigit(At(text, p)) && At(text, p) != '.'
  {
    hide ReadInt, G.IsDigits, HasWord;
    if s != "" {
      var t := s[1..];
      assert s == s[..1] + t;
      WordSplit(text, p, s[..1], t);
      WordChar(text, p, s, 0);
      WordChar(text, p + 1, t, 0);
      if t[0] == '+' || t[0] == '-' {
        assert t == t[..1] + t[1..];
        WordSplit(text, p + 1, t[..1], t[1..]);
        DigitsRead(text, p + 2, t[1..], true);
      } else {
        assert G.IsDigits(t) by { SignlessDigits(t); }
        DigitsRead(text, p + 1, t, true);
      }
    }
  }

  lemma SignlessDigits(t: string)
    requires G.IsSignedDigits(t) && t[0] != '+' && t[0] != '-'
    ensures G.IsDigits(t)
  {
  }

  function Sign(n: G.Numeral): string {
    if n.negative then "-" else ""
  }

  lemma NumeralParts(text: string, p: nat, n: G.Numeral)
    requires HasWord(text, p, G.NumeralSpelling(n))
    ensures var p0 := p + |Sign(n)|; var p1 := p0 + |n.digits|; var p2 := p1 + |n.fraction|;
            && HasWord(text, p, Sign(n)) && HasWord(text, p0, n.digits) && HasWord(text, p1, n.fraction)
            && HasWord(text, p2, n.exponent) && p2 + |n.exponent| == p + |G.NumeralSpelling(n)| <= |text|
  {
    hide HasWord;
    var p0 := p + |Sign(n)|;
    var p1 := p0 + |n.digits|;
    WordSplit(text, p, Sign(n), n.digits + (n.fraction + n.exponent));
    WordSplit(text, p0, n.digits, n.fraction + n.exponent);
    WordSplit(text, p1, n.fraction, n.exponent);
    WordFits(text, p, G.NumeralSpelling(n));
  }

  /** A legal number is read to its end where nothing follows that could belong to it. */
  lemma NumeralReads(text: string, p: nat, n: G.Numeral)
    requires G.IsNumeral(n) && HasWord(text, p, G.NumeralSpelling(n))
    requires EndsNumber(At(text, p + |G.NumeralSpelling(n)|))
    ensures NumberEnd(text, p) == Some(p + |G.NumeralSpelling(n)|)
    ensures text[p] == '-' || IsDigit(text[p])
  {
    hide ReadInt, AfterFraction, AfterExponent, HasWord, NumberEnd, G.IsDigits, G.IsSignedDigits, G.NumeralSpelling;
    NumeralParts(text, p, n);
    var p0 := p + |Sign(n)|;
    var p1 := p0 + |n.digits|;
    var p2 := p1 + |n.fraction|;
    ExponentReads(text, p2, n.exponent);
    FractionReads(text, p1, n.fraction);
    DigitsRead(text, p0, n.digits, false);
    NumberEndIs(text, p);
    if n.negative { WordChar(text, p, "-", 0); }
  }

  lemma DigitsOf(text: string, p: nat, canHaveLeadingZeros: bool)
    requires p <= |text| && ReadInt(text, p, canHaveLeadingZeros).Some?
    ensures var digits := text[p..ReadInt(text, p, canHaveLeadingZeros).value];
            && G.IsDigits(digits) && (canHaveLeadingZeros || (digits[0] == '0' ==> |digits| == 1))
  {
    var n := LeadingDigits(text[p..]);
    assert text[p..][..n] == text[p..p + n];
  }

  lemma FractionOf(text: string, p: nat)
    requires p <= |text| && AfterFraction(text, p).Some?
    ensures p <= AfterFraction(text, p).value <= |text|
    ensures var s := text[p..AfterFraction(text, p).value]; s == "" || (s[0] == '.' && G.IsDigits(s[1..]))
  {
    hide ReadInt, G.IsDigits;
    if At(text, p) == '.' {
      DigitsOf(text, p + 1, true);
      var e := ReadInt(text, p + 1, true).value;
      assert text[p..e][1..] == text[p + 1..e];
    }
  }

  lemma ExponentOf(text: string, p: nat)
    requires p <= |text| && AfterExponent(text, p).Some?
    ensures p <= AfterExponent(text, p).value <= |text|
    ensures var s := text[p..AfterExponent(text, p).value];
            s == "" || ((s[0] == 'e' || s[0] == 'E') && G.IsSignedDigits(s[1..]))
  {
    hide ReadInt;
    if At(text, p) == 'e' || At(text, p) == 'E' {
      var signed := At(text, p + 1) == '-' || At(text, p + 1) == '+';
      var start := if signed then p + 2 else p + 1;
      DigitsOf(text, start, true);
      var e := ReadInt(text, start, true).value;
      assert text[p..e][1..] == text[p + 1..e];
      assert signed ==> text[p + 1..e][1..] == text[p + 2..e];
    }
  }

  /** What the parser takes for a number is one. */
  lemma NumeralOf(text: string, p: nat) returns (n: G.Numeral)
    requires p <= |text| && NumberEnd(text, p).Some?
    ensures G.IsNumeral(n) && G.NumeralSpelling(n) == text[p..NumberEnd(text, p).value]
  {
    hide ReadInt, AfterFraction, AfterExponent, HasWord, NumberEnd, G.IsDigits, G.IsSignedDigits;
    NumberEndIs(text, p);
    var negative := At(text, p) == '-';
    var p0 := if negative then p + 1 else p;
    DigitsOf(text, p0, false);
    var p1 := ReadInt(text, p0, false).value;
    FractionOf(text, p1);
    var p2: nat := AfterFraction(text, p1).value;
    ExponentOf(text, p2);
    var e: nat := AfterExponent(text, p2).value;
    n := G.Numeral(negative, text[p0..p1], text[p1..p2], text[p2..e]);
    Pieces(text, p, p0, p1, p2, e);
    assert text[p..p0] == if negative then "-" else "";
  }

  lemma Pieces(text: string, a: nat, b: nat, c: nat, d: nat, e: nat)
    requires a <= b <= c <= d <= e <= |text|
    ensures text[a..e] == text[a..b] + (text[b..c] + (text[c..d] + text[d..e]))
  {
  }

  /** A number with a fraction or an exponent is no integer literal. */
  lemma IsWhole(n: G.Numeral)
    requires G.IsNumeral(n)
    ensures var s := G.NumeralSpelling(n);
            if n.fraction == "" && n.exponent == ""
            then IsIntLiteral(s) && LiteralValue(s) == Signed(n.negative, DecimalValue(n.digits))
            else !IsIntLiteral(s)
  {
    hide DecimalValue;
    var s := G.NumeralSpelling(n);
    var sign := if n.negative then 1 else 0;
    assert s[sign..] == n.digits + (n.fraction + n.exponent);
    assert s[sign] == s[sign..][0] == n.digits[0] && IsDigit(n.digits[0]);
    assert s[..1] == "-" ==> s[1..] == s[1..];
    if n.fraction == "" && n.exponent == "" {
      assert s[sign..] == n.digits;
      assert sign == 0 ==> s[0..] == s;
    } else {
      var k := sign + |n.digits|;
      assert s[k] == s[sign..][|n.digits|];
      assert s[k] == (n.fraction + n.exponent)[0];
      assert !IsDigit(s[k]) && 1 <= k < |s| && s[1..][k - 1] == s[k];
    }
  }

  lemma NumeralDecodes(c: Config, g: G.Dialect, n: G.Numeral)
    requires G.IsNumeral(n) && g.parseDouble == c.parseDouble
    ensures DecodeNumber(c, G.NumeralSpelling(n)) == G.NumeralMeaning(g, n)
  {
    hide DecimalValue, LiteralValue, G.NumeralSpelling, G.IsNumeral, IsIntLiteral;
    IsWhole(n);
  }
}
