/**
 * The persisted corpus shared by scripts/build_index.py (writer) and app/deps.py (reader and
 * writer): the FAISS index file, data/chunks/texts.jsonl with one `{"text": ...}` record per line
 * and data/chunks/meta.jsonl with one `{"url": ...}` record per line, line i of both files
 * describing passage i.
 */
module Persist {
  import opened Wrappers
  import opened Text

  const TextKey: string := "text"
  const UrlKey: string := "url"

  /** The three files under the project root; `None` when a file does not exist. The binary FAISS
      index is represented by the texts whose embeddings it holds, in vector order. */
  datatype Disk = Disk(index: Option<seq<string>>, texts: Option<string>, meta: Option<string>)
  {
    /** All three files exist. */
    predicate Complete() {
      index.Some? && texts.Some? && meta.Some?
    }
  }

  // ---------------------------------------------------------------------------
  // JSON string escapes
  // ---------------------------------------------------------------------------

  /** The lower-case hex digit `json.dumps` writes for `d`. */
  function HexDigit(d: nat): (c: char)
    requires d < 16
  {
    if d < 10 then ('0' as int + d) as char else ('a' as int + d - 10) as char
  }

  lemma HexDigitValue(d: nat)
    requires d < 16
    ensures HexValue(HexDigit(d)) == Some(d)
  {
  }

  function HexValue(c: char): (r: Option<nat>)
    ensures r.Some? ==> r.value < 16
  {
    if '0' <= c <= '9' then Some(c as int - '0' as int)
    else if 'a' <= c <= 'f' then Some(c as int - 'a' as int + 10)
    else if 'A' <= c <= 'F' then Some(c as int - 'A' as int + 10)
    else None
  }

  /** How `json.dumps` writes one character inside a string literal. */
  function EscapeChar(c: char): string {
    if c == '\\' then "\\\\"
    else if c == '"' then "\\\""
    else if c == '\n' then "\\n"
    else if c == '\r' then "\\r"
    else if c == '\t' then "\\t"
    else if c == '\U{8}' then "\\b"
    else if c == '\U{c}' then "\\f"
    else if c < ' ' then "\\u00" + [HexDigit(c as int / 16), HexDigit(c as int % 16)]
    else [c]
  }

  /** The body of the JSON string literal for `s`. */
  function Escape(s: string): string {
    if s == [] then "" else EscapeChar(s[0]) + Escape(s[1..])
  }

  /** The character a one-letter escape `\c` stands for. */
  function ShortEscape(c: char): Option<char> {
    if c == '\\' then Some('\\')
    else if c == '"' then Some('"')
    else if c == '/' then Some('/')
    else if c == 'n' then Some('\n')
    else if c == 'r' then Some('\r')
    else if c == 't' then Some('\t')
    else if c == 'b' then Some('\U{8}')
    else if c == 'f' then Some('\U{c}')
    else None
  }

  /** The code point of a `\uXXXX` escape whose four hex digits are `h`. */
  function UnicodeEscape(h: string): Option<char>
    requires |h| == 4
  {
    match (HexValue(h[0]), HexValue(h[1]), HexValue(h[2]), HexValue(h[3]))
    case (Some(a), Some(b), Some(c), Some(d)) =>
      var v := ((a * 16 + b) * 16 + c) * 16 + d;
      if 0xD800 <= v < 0xE000 then None else Some(v as char)
    case _ => None
  }

  /** Decodes the body of a JSON string literal: `None` for a bare quote, a raw control
      character or an unknown escape. */
  function Unescape(s: string): Option<string>
    decreases |s|
  {
    if s == [] then Some("")
    else if s[0] == '\\' then
      if |s| < 2 then None
      else if s[1] == 'u' then
        if |s| < 6 then None
        else
          match (UnicodeEscape(s[2..6]), Unescape(s[6..]))
          case (Some(c), Some(rest)) => Some([c] + rest)
          case _ => None
      else
        match (ShortEscape(s[1]), Unescape(s[2..]))
        case (Some(c), Some(rest)) => Some([c] + rest)
        case _ => None
    else if s[0] == '"' || s[0] < ' ' then None
    else
      match Unescape(s[1..])
      case Some(rest) => Some([s[0]] + rest)
      case None => None
  }

  /** The `\u00XX` escape of a control character decodes back to it. */
  lemma UnescapeControl(c: char, rest: string)
    requires c < ' '
    ensures var s := "\\u00" + [HexDigit(c as int / 16), HexDigit(c as int % 16)] + rest;
            Unescape(s) == match Unescape(rest) case Some(r) => Some([c] + r) case None => None
  {
    var hi, lo := c as int / 16, c as int % 16;
    var s := "\\u00" + [HexDigit(hi), HexDigit(lo)] + rest;
    HexDigitValue(hi);
    HexDigitValue(lo);
    assert UnicodeEscape(s[2..6]) == Some(c) by {
      assert s[2..6] == "00" + [HexDigit(hi), HexDigit(lo)];
    }
    assert s[0] == '\\' && s[1] == 'u' && s[6..] == rest;
  }

  lemma UnescapeChar(c: char, rest: string)
    ensures Unescape(EscapeChar(c) + rest) ==
            match Unescape(rest) case Some(r) => Some([c] + r) case None => None
  {
    var e := EscapeChar(c);
    if c < ' ' && c != '\n' && c != '\r' && c != '\t' && c != '\U{8}' && c != '\U{c}' {
      UnescapeControl(c, rest);
    } else if |e| == 2 {
      assert (e + rest)[2..] == rest;
    } else {
      assert (e + rest)[1..] == rest;
    }
  }

  /** Decoding what was encoded gives the string back. */
  lemma {:induction false} UnescapeEscape(s: string)
    ensures Unescape(Escape(s)) == Some(s)
  {
    if s != [] {
      UnescapeChar(s[0], Escape(s[1..]));
      UnescapeEscape(s[1..]);
      assert [s[0]] + s[1..] == s;
    }
  }

  /** An encoded string never contains a line break. */
  lemma {:induction false} EscapeOneLine(s: string)
    ensures forall i :: 0 <= i < |Escape(s)| ==> !IsNewline(Escape(s)[i])
  {
    if s != [] {
      EscapeOneLine(s[1..]);
      var e := EscapeChar(s[0]);
      assert forall i :: 0 <= i < |e| ==> !IsNewline(e[i]);
      assert forall i :: |e| <= i < |Escape(s)| ==> Escape(s)[i] == Escape(s[1..])[i - |e|];
    }
  }

  // ---------------------------------------------------------------------------
  // Records and files
  // ---------------------------------------------------------------------------

  function RecordPrefix(key: string): string {
    "{\"" + key + "\": \""
  }

  /** `json.dumps({key: value})`. */
  function Record(key: string, value: string): string {
    RecordPrefix(key) + Escape(value) + "\"}"
  }

  /** `json.loads(line)[key]` for a line of the shape `Record` writes. */
  function ParseRecord(key: string, line: string): Option<string> {
    var pre := RecordPrefix(key);
    if StartsWith(line, pre) && |pre| + 2 <= |line| && line[|line| - 2..] == "\"}" then
      Unescape(line[|pre|..|line| - 2])
    else None
  }

  /** A record line parses back to its value. */
  lemma ParseRecordOf(key: string, value: string)
    ensures ParseRecord(key, Record(key, value)) == Some(value)
  {
    var pre := RecordPrefix(key);
    var line := Record(key, value);
    assert line[..|pre|] == pre;
    assert line[|line| - 2..] == "\"}";
    assert line[|pre|..|line| - 2] == Escape(value);
    UnescapeEscape(value);
  }

  predicate OneLine(s: string) {
    forall i :: 0 <= i < |s| ==> !IsNewline(s[i])
  }

  /** A record whose key has no line break is one non-empty line. */
  lemma RecordOneLine(key: string, value: string)
    requires OneLine(key)
    ensures Record(key, value) != [] && OneLine(Record(key, value))
  {
    EscapeOneLine(value);
    var line := Record(key, value);
    var pre := RecordPrefix(key);
    assert forall i :: 0 <= i < |line| ==>
      line[i] == (if i < 2 then "{\""[i]
                  else if i < 2 + |key| then key[i - 2]
                  else if i < |pre| then pre[i]
                  else if i < |pre| + |Escape(value)| then Escape(value)[i - |pre|]
                  else "\"}"[i - |pre| - |Escape(value)|]);
  }

  /** The record lines of `values`, in order. */
  function Records(key: string, values: seq<string>): (lines: seq<string>)
    ensures |lines| == |values|
    ensures forall i :: 0 <= i < |values| ==> lines[i] == Record(key, values[i])
  {
    if values == [] then [] else [Record(key, values[0])] + Records(key, values[1..])
  }

  /** `"\n".join(json.dumps({key: v}) for v in values)`: the content written to a .jsonl file. */
  function WriteRecords(key: string, values: seq<string>): string {
    Join(Records(key, values), "\n")
  }

  /** Parses every line; `None` as soon as one line is not a record (the reader raises). */
  function ParseAll(key: string, lines: seq<string>): Option<seq<string>> {
    if lines == [] then Some([])
    else
      match (ParseRecord(key, lines[0]), ParseAll(key, lines[1..]))
      case (Some(v), Some(vs)) => Some([v] + vs)
      case _ => None
  }

  /** `[json.loads(l)[key] for l in open(path)]`: the values of a .jsonl file, or `None` when
      loading raises. */
  function ReadRecords(key: string, content: string): Option<seq<string>> {
    ParseAll(key, LinesBy(content, IsNewline))
  }

  /** The file written for `values` has one line per value, line i holding record i. */
  lemma {:induction false} WrittenLines(key: string, values: seq<string>)
    requires OneLine(key)
    ensures LinesBy(WriteRecords(key, values), IsNewline) == Records(key, values)
  {
    if |values| == 1 {
      RecordOneLine(key, values[0]);
      LinesOfLine(Record(key, values[0]), IsNewline);
    } else if |values| > 1 {
      RecordOneLine(key, values[0]);
      assert Records(key, values)[1..] == Records(key, values[1..]);
      LinesOfBreak(Record(key, values[0]), WriteRecords(key, values[1..]), IsNewline);
      WrittenLines(key, values[1..]);
    }
  }

  lemma {:induction false} ParseAllRecords(key: string, values: seq<string>)
    ensures ParseAll(key, Records(key, values)) == Some(values)
  {
    if values != [] {
      ParseRecordOf(key, values[0]);
      assert Records(key, values)[1..] == Records(key, values[1..]);
      ParseAllRecords(key, values[1..]);
      assert [values[0]] + values[1..] == values;
    }
  }

  /** Reading a .jsonl file back gives exactly the values written to it, in order. */
  lemma ReadWriteRecords(key: string, values: seq<string>)
    requires OneLine(key)
    ensures ReadRecords(key, WriteRecords(key, values)) == Some(values)
  {
    WrittenLines(key, values);
    ParseAllRecords(key, values);
  }
}
