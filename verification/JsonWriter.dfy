/** The JSON printer (src/chromium/json/json_writer.cc) and its string escaping
    (src/chromium/json/string_escape.cc). */
module JsonWriter {
  import opened NumberConversions
  import opened Values

  /** What `WriteWithOptions` fixes for a whole run: the layout, the platform's line ending and
      the rendering of doubles, which lies outside the model. */
  datatype Format = Format(pretty: bool, lineEnding: string, doubleText: real -> string)

  ghost predicate ValidFormat(f: Format) {
    f.lineEnding == "\n" || f.lineEnding == "\r\n"
  }

  // ---- Strings --------------------------------------------------------------------------

  function HexChar(d: nat): char
    requires d < 16
  {
    if d < 10 then '0' + d as char else 'A' + (d - 10) as char
  }

  /** `%04X`, of which a byte uses the two low digits. */
  function Hex4(n: nat): string {
    [HexChar(n / 4096 % 16), HexChar(n / 256 % 16), HexChar(n / 16 % 16), HexChar(n % 16)]
  }

  /** The letter of a single-character escape. */
  function SingleEscape(c: char): string {
    if c as int == 8 then "\\b"
    else if c as int == 12 then "\\f"
    else if c == '\n' then "\\n"
    else if c == '\r' then "\\r"
    else if c == '\t' then "\\t"
    else if c == '\\' then "\\\\"
    else if c == '"' then "\\\""
    else ""
  }

  predicate NeedsHex(c: char) {
    SingleEscape(c) == "" && (c as int < 32 || c as int > 126 || c == '<' || c == '>')
  }

  function EscapeChar(c: char): (e: string)
    ensures e != []
  {
    if SingleEscape(c) != "" then SingleEscape(c)
    else if NeedsHex(c) then "\\u" + Hex4(c as int)
    else [c]
  }

  function Escape(s: string): string {
    if s == [] then [] else EscapeChar(s[0]) + Escape(s[1..])
  }

  function Quote(s: string): string {
    "\"" + Escape(s) + "\""
  }

  /** The character may stand in any text, even in the script of a web page. */
  predicate Harmless(c: char) {
    32 <= c as int <= 126 && c != '<' && c != '>'
  }

  lemma EscapeCharHarmless(c: char, i: nat)
    requires i < |EscapeChar(c)|
    ensures Harmless(EscapeChar(c)[i])
  {
  }

  /** Nothing but printable ASCII leaves the printer, and no angle bracket. */
  lemma {:induction false} QuoteHarmless(s: string, i: nat)
    requires i < |Quote(s)|
    ensures 32 <= Quote(s)[i] as int <= 126 && Quote(s)[i] != '<' && Quote(s)[i] != '>'
  {
    if 0 < i < |Quote(s)| - 1 {
      EscapeHarmless(s, i - 1);
      assert Quote(s)[i] == Escape(s)[i - 1];
    }
  }

  lemma AllHarmless(s: string, dst: string)
    ensures var out := dst + Quote(s); forall i :: |dst| <= i < |out| ==> Harmless(out[i])
  {
    hide Quote;
    var out := dst + Quote(s);
    forall i | |dst| <= i < |out| ensures Harmless(out[i]) {
      QuoteHarmless(s, i - |dst|);
      assert out[i] == Quote(s)[i - |dst|];
    }
  }

  lemma {:induction false} EscapeHarmless(s: string, i: nat)
    requires i < |Escape(s)|
    ensures Harmless(Escape(s)[i])
  {
    hide EscapeChar, Harmless;
    var n := |EscapeChar(s[0])|;
    if i < n { EscapeCharHarmless(s[0], i); } else { EscapeHarmless(s[1..], i - n); }
  }

  // ---- The rendered text ----------------------------------------------------------------

  function Spaces(n: nat): (s: string)
    ensures |s| == n && forall i :: 0 <= i < n ==> s[i] == ' '
  {
    seq(n, _ => ' ')
  }

  function When(c: bool, s: string): string {
    if c then s else ""
  }

  function Render(f: Format, v: Value, depth: nat): string
    decreases v, 1
  {
    match v
    case Null => "null"
    case Bool(b) => if b then "true" else "false"
    case Int(i) => IntText(i)
    case Double(d) => f.doubleText(d)
    case Str(s) => Quote(s)
    case List(items) =>
      "[" + (When(f.pretty, " ") + (RenderItems(f, items, depth, true) + (When(f.pretty, " ") + "]")))
    case Dict(entries) =>
      "{" + (When(f.pretty, f.lineEnding)
      + (RenderEntries(f, entries, depth, true)
      + (When(f.pretty, f.lineEnding + Spaces(depth * 3)) + "}")))
  }

  function ItemSeparator(f: Format, first: bool): string {
    When(!first, "," + When(f.pretty, " "))
  }

  function RenderItems(f: Format, items: seq<Value>, depth: nat, first: bool): string
    decreases items, 0
  {
    if items == [] then ""
    else ItemSeparator(f, first) + (Render(f, items[0], depth) + RenderItems(f, items[1..], depth, false))
  }

  function EntrySeparator(f: Format, first: bool, depth: nat): string {
    When(!first, "," + When(f.pretty, f.lineEnding)) + When(f.pretty, Spaces((depth + 1) * 3))
  }

  function KeyText(f: Format, key: string): string {
    Quote(key) + (":" + When(f.pretty, " "))
  }

  function RenderEntries(f: Format, entries: seq<Entry>, depth: nat, first: bool): string
    decreases entries, 0
  {
    if entries == [] then ""
    else
      var rest := RenderEntries(f, entries[1..], depth, false);
      EntrySeparator(f, first, depth) + (KeyText(f, entries[0].key) + (Render(f, entries[0].value, depth + 1) + rest))
  }

  /** The whole output of `WriteWithOptions`. */
  function WriteText(f: Format, v: Value): string {
    Render(f, v, 0) + When(f.pretty, f.lineEnding)
  }

  // ---- The printer ----------------------------------------------------------------------

  /** One round of the loop of `JsonDoubleQuote`. */
  method AppendEscaped(c: char, dst: string) returns (out: string)
    ensures out == dst + EscapeChar(c)
  {
    if SingleEscape(c) != "" {
      out := dst + SingleEscape(c);
    } else if c as int < 32 || c as int > 126 || c == '<' || c == '>' {
      out := dst + ("\\u" + Hex4(c as int));
    } else {
      out := dst + [c];
    }
  }

  /** `JsonDoubleQuote` with quotes: the loop pushing characters onto `dst`. */
  method JsonDoubleQuote(s: string, dst: string) returns (out: string)
    ensures out == dst + Quote(s)
    ensures forall i :: |dst| <= i < |out| ==> 32 <= out[i] as int <= 126 && out[i] != '<' && out[i] != '>'
  {
    out := dst + "\"";
    var it := 0;
    assert s[..0] == "";
    while it < |s|
      invariant it <= |s|
      invariant out == dst + "\"" + Escape(s[..it])
    {
      out := AppendEscaped(s[it], out);
      EscapeLast(s[..it + 1]);
      assert s[..it + 1][..it] == s[..it];
      Assoc(dst + "\"", Escape(s[..it]), EscapeChar(s[it]));
      it := it + 1;
    }
    assert s[..|s|] == s;
    Assoc(dst, "\"", Escape(s));
    Assoc(dst, "\"" + Escape(s), "\"");
    out := out + "\"";
    AllHarmless(s, dst);
  }

  lemma Assoc(a: string, b: string, c: string)
    ensures a + b + c == a + (b + c)
  {
  }

  lemma {:induction false} EscapeLast(s: string)
    requires s != []
    ensures Escape(s) == Escape(s[..|s| - 1]) + EscapeChar(s[|s| - 1])
  {
    var n := |s| - 1;
    if n == 0 {
      assert s[1..] == [];
    } else {
      EscapeLast(s[1..]);
      assert s[..n][1..] == s[1..][..n - 1];
      Assoc(EscapeChar(s[0]), Escape(s[1..][..n - 1]), EscapeChar(s[n]));
    }
  }

  class JsonWriter {
    const format: Format
    var jsonString: string

    constructor (format: Format)
      ensures this.format == format && jsonString == ""
    {
      this.format := format;
      jsonString := "";
    }

    method Append(s: string)
      modifies this
      ensures jsonString == old(jsonString) + s
    {
      jsonString := jsonString + s;
    }

    method BuildJSONString(node: Value, depth: nat)
      modifies this
      ensures jsonString == old(jsonString) + Render(format, node, depth)
      decreases node
    {
      match node
      case Null =>
        Append("null");
      case Bool(b) =>
        Append(if b then "true" else "false");
      case Int(i) =>
        var text := NumberConversions.IntToString(i, HALF_32, true);
        Append(text);
      case Double(d) =>
        Append(format.doubleText(d));
      case Str(s) =>
        jsonString := JsonDoubleQuote(s, jsonString);
      case List(items) =>
        BuildList(items, depth);
      case Dict(entries) =>
        BuildDict(entries, depth);
    }

    method BuildList(items: seq<Value>, depth: nat)
      modifies this
      ensures jsonString == old(jsonString) + Render(format, List(items), depth)
      decreases items, 1
    {
      Append("[");
      if format.pretty {
        Append(" ");
      }
      AppendItems(items, depth);
      if format.pretty {
        Append(" ");
      }
      Append("]");
      ListPieces(old(jsonString), format, items, depth);
    }

    method BuildDict(entries: seq<Entry>, depth: nat)
      modifies this
      ensures jsonString == old(jsonString) + Render(format, Dict(entries), depth)
      decreases entries, 1
    {
      Append("{");
      if format.pretty {
        Append(format.lineEnding);
      }
      assert jsonString == old(jsonString) + "{" + When(format.pretty, format.lineEnding);
      AppendEntries(entries, depth);
      CloseDict(depth);
      DictPieces(old(jsonString), format, entries, depth);
    }

    method CloseDict(depth: nat)
      modifies this
      ensures jsonString == old(jsonString) + When(format.pretty, format.lineEnding + Spaces(depth * 3)) + "}"
    {
      if format.pretty {
        Append(format.lineEnding);
        Append(Spaces(depth * 3));
        Assoc(old(jsonString), format.lineEnding, Spaces(depth * 3));
      }
      Append("}");
    }

    /** The loop over a list's items. */
    method AppendItems(items: seq<Value>, depth: nat)
      modifies this
      ensures jsonString == old(jsonString) + RenderItems(format, items, depth, true)
      decreases items, 0
    {
      var i := 0;
      assert items[0..] == items;
      while i < |items|
        invariant i <= |items|
        invariant jsonString + RenderItems(format, items[i..], depth, i == 0)
               == old(jsonString) + RenderItems(format, items, depth, true)
      {
        ghost var start := jsonString;
        assert items[i..][1..] == items[i + 1..];
        if i != 0 {
          Append(",");
          if format.pretty {
            Append(" ");
          }
        }
        assert jsonString == start + ItemSeparator(format, i == 0);
        BuildJSONString(items[i], depth);
        ItemPieces(start, format, items[i..], depth, i == 0);
        i := i + 1;
      }
    }

    /** The loop over a dictionary's entries. */
    method AppendEntries(entries: seq<Entry>, depth: nat)
      modifies this
      ensures jsonString == old(jsonString) + RenderEntries(format, entries, depth, true)
      decreases entries, 0
    {
      var i := 0;
      assert entries[0..] == entries;
      while i < |entries|
        invariant i <= |entries|
        invariant jsonString + RenderEntries(format, entries[i..], depth, i == 0)
               == old(jsonString) + RenderEntries(format, entries, depth, true)
      {
        ghost var start := jsonString;
        assert entries[i..][1..] == entries[i + 1..];
        AppendEntry(entries[i], depth, i == 0);
        EntryPieces(start, format, entries[i..], depth, i == 0);
        i := i + 1;
      }
    }

    /** One round of that loop. */
    method AppendEntry(entry: Entry, depth: nat, first: bool)
      modifies this
      ensures jsonString == old(jsonString) + EntrySeparator(format, first, depth) + KeyText(format, entry.key)
                            + Render(format, entry.value, depth + 1)
      decreases entry
    {
      if !first {
        Append(",");
        if format.pretty {
          Append(format.lineEnding);
        }
      }
      if format.pretty {
        Append(Spaces((depth + 1) * 3));
      }
      ghost var key := jsonString;
      assert key == old(jsonString) + EntrySeparator(format, first, depth);
      jsonString := JsonDoubleQuote(entry.key, jsonString);
      if format.pretty {
        Append(": ");
      } else {
        Append(":");
      }
      assert jsonString == key + KeyText(format, entry.key);
      BuildJSONString(entry.value, depth + 1);
    }
  }

  method WriteWithOptions(node: Value, format: Format) returns (json: string)
    ensures json == WriteText(format, node)
  {
    var writer := new JsonWriter(format);
    writer.BuildJSONString(node, 0);
    json := writer.jsonString;
    if format.pretty {
      json := json + format.lineEnding;
    }
  }

  // ---- Regrouping of the appended pieces -------------------------------------------------

  lemma ListPieces(start: string, f: Format, items: seq<Value>, depth: nat)
    ensures start + "[" + When(f.pretty, " ") + RenderItems(f, items, depth, true) + When(f.pretty, " ") + "]"
         == start + Render(f, List(items), depth)
  {
  }

  lemma DictPieces(start: string, f: Format, entries: seq<Entry>, depth: nat)
    ensures start + "{" + When(f.pretty, f.lineEnding) + RenderEntries(f, entries, depth, true)
            + When(f.pretty, f.lineEnding + Spaces(depth * 3)) + "}"
         == start + Render(f, Dict(entries), depth)
  {
    FiveAssoc(start, "{", When(f.pretty, f.lineEnding), RenderEntries(f, entries, depth, true),
              When(f.pretty, f.lineEnding + Spaces(depth * 3)), "}");
  }

  lemma FiveAssoc(start: string, a: string, b: string, c: string, d: string, e: string)
    ensures start + a + b + c + d + e == start + (a + (b + (c + (d + e))))
  {
    Assoc(c, d, e);
    Assoc(b, c, d + e);
    Assoc(a, b, c + (d + e));
    Assoc(start, a, b + (c + (d + e)));
    Assoc(start + a, b, c + (d + e));
    Assoc(start + a + b, c, d + e);
    Assoc(start + a + b + c, d, e);
  }

  lemma ItemPieces(start: string, f: Format, items: seq<Value>, depth: nat, first: bool)
    requires items != []
    ensures start + ItemSeparator(f, first) + Render(f, items[0], depth) + RenderItems(f, items[1..], depth, false)
         == start + RenderItems(f, items, depth, first)
  {
  }

  lemma EntryPieces(start: string, f: Format, entries: seq<Entry>, depth: nat, first: bool)
    requires entries != []
    ensures start + EntrySeparator(f, first, depth) + KeyText(f, entries[0].key)
            + Render(f, entries[0].value, depth + 1) + RenderEntries(f, entries[1..], depth, false)
         == start + RenderEntries(f, entries, depth, first)
  {
  }
}
