/**
 * The offline index builder (scripts/build_index.py): read the raw pages written by the
 * scraper, cut each page into overlapping word windows, keep the windows of more than 60 words,
 * and write the FAISS index and the two aligned .jsonl files.
 *
 * The directory listing of data/raw is an input (its order is the order of `glob`); the
 * embedding model is left out, the index being represented by the texts it embeds.
 */
module BuildIndex {
  import opened Wrappers
  import opened Text
  import opened Persist
  import Deps

  /** `chunk`'s defaults: words per window, words shared by consecutive windows, and the number
      of words a chunk must exceed to be kept. */
  const ChunkSize: nat := 900
  const ChunkOverlap: int := 150
  const MinWords: nat := 60

  function Min(a: int, b: int): int {
    if a < b then a else b
  }

  // ===========================================================================
  // chunk
  // ===========================================================================

  /** `words[i:i+size]`: the window at offset `i`, cut short by the end of the words. */
  function Window(words: seq<string>, i: nat, size: nat): seq<string>
    requires i <= |words|
  {
    words[i .. Min(i + size, |words|)]
  }

  /** The word windows of `chunk` from offset `i` on: `words[i:i+size]`, then the windows from
      `i + step`, until the offset passes the last word. */
  function WindowsFrom(words: seq<string>, i: nat, size: nat, step: nat): seq<seq<string>>
    requires step > 0
    decreases |words| - i
  {
    if i >= |words| then []
    else [Window(words, i, size)] + WindowsFrom(words, i + step, size, step)
  }

  /** The offset of window m: `i + m * step`. */
  function StartOf(i: nat, step: nat, m: nat): nat {
    if m == 0 then i else StartOf(i, step, m - 1) + step
  }

  lemma {:induction false} StartOfMultiple(step: nat, m: nat)
    ensures StartOf(0, step, m) == m * step
  {
    if m > 0 {
      StartOfMultiple(step, m - 1);
    }
  }

  lemma {:induction false} StartOfShift(i: nat, step: nat, m: nat)
    ensures StartOf(i + step, step, m) == StartOf(i, step, m + 1)
  {
    if m > 0 {
      StartOfShift(i, step, m - 1);
    }
  }

  /** Window m starts at `i + m * step`, inside the words, and holds the next `size` words, or
      all that remain. */
  lemma {:induction false} WindowAt(words: seq<string>, i: nat, size: nat, step: nat, m: nat)
    requires step > 0 && m < |WindowsFrom(words, i, size, step)|
    ensures var a := StartOf(i, step, m);
            a < |words| && WindowsFrom(words, i, size, step)[m] == words[a .. Min(a + size, |words|)]
    decreases m
  {
    if m > 0 {
      WindowAt(words, i + step, size, step, m - 1);
      StartOfShift(i, step, m - 1);
    }
  }

  /** `" ".join(w)` for each window. */
  function Joined(ws: seq<seq<string>>): (ts: seq<string>)
    ensures |ts| == |ws|
  {
    if ws == [] then [] else [Join(ws[0], " ")] + Joined(ws[1..])
  }

  /** Entry m of the joined windows is window m joined by single spaces. */
  lemma {:induction false} JoinedAt(ws: seq<seq<string>>, m: nat)
    requires m < |ws|
    ensures Joined(ws)[m] == Join(ws[m], " ")
  {
    if m > 0 {
      JoinedAt(ws[1..], m - 1);
    }
  }

  /** `[t for t in out if len(t.split()) > 60]`. */
  function KeepLong(out: seq<string>): seq<string> {
    if out == [] then []
    else
      var rest := KeepLong(out[1..]);
      if |Words(out[0])| > MinWords then [out[0]] + rest else rest
  }

  /** A text is kept exactly when it is one of `out` and has more than 60 words. */
  lemma {:induction false} KeepLongMembers(out: seq<string>)
    ensures forall t :: t in KeepLong(out) <==> t in out && |Words(t)| > MinWords
  {
    if out != [] {
      KeepLongMembers(out[1..]);
      assert forall t :: t in out <==> t == out[0] || t in out[1..];
    }
  }

  /** Nothing is kept when every text has at most 60 words. */
  lemma {:induction false} KeepNone(out: seq<string>)
    requires forall t :: t in out ==> |Words(t)| <= MinWords
    ensures KeepLong(out) == []
  {
    if out != [] {
      assert out[0] in out;
      assert forall t :: t in out[1..] ==> t in out;
      KeepNone(out[1..]);
    }
  }

  /** The chunks `chunk(text, size, overlap)` returns. */
  function Chunks(text: string, size: nat, overlap: int): seq<string>
    requires overlap < size
  {
    KeepLong(Joined(WindowsFrom(Words(text), 0, size, size - overlap)))
  }

  /** `chunk(text, size, overlap)`. The source loops forever when `overlap >= size` and the
      text has a word, so that is required. */
  method Chunk(text: string, size: nat, overlap: int) returns (chunks: seq<string>)
    requires overlap < size
    ensures chunks == Chunks(text, size, overlap)
  {
    var out := JoinWindows(Words(text), size, size - overlap);
    chunks := KeepLong(out);
  }

  /** The `while` loop of `chunk`: one joined window per step. */
  method JoinWindows(words: seq<string>, size: nat, step: nat) returns (out: seq<string>)
    requires step > 0
    ensures out == Joined(WindowsFrom(words, 0, size, step))
  {
    var i: nat := 0;
    out := [];
    while i < |words|
      invariant out + Joined(WindowsFrom(words, i, size, step)) == Joined(WindowsFrom(words, 0, size, step))
      decreases |words| - i
    {
      var piece := Join(Window(words, i, size), " ");
      JoinedStep(words, i, size, step);
      ConcatAssoc(out, [piece], Joined(WindowsFrom(words, i + step, size, step)));
      out := out + [piece];
      i := i + step;
    }
    assert out + [] == out;
  }

  lemma ConcatAssoc(a: seq<string>, b: seq<string>, c: seq<string>)
    ensures a + (b + c) == (a + b) + c
  {
  }

  /** The joined windows from offset `i` are window `i` joined, then the joined windows from
      `i + step`. */
  lemma JoinedStep(words: seq<string>, i: nat, size: nat, step: nat)
    requires step > 0 && i < |words|
    ensures Joined(WindowsFrom(words, i, size, step))
            == [Join(Window(words, i, size), " ")] + Joined(WindowsFrom(words, i + step, size, step))
  {
    var rest := WindowsFrom(words, i + step, size, step);
    var w := Window(words, i, size);
    assert WindowsFrom(words, i, size, step) == [w] + rest;
    assert ([w] + rest)[1..] == rest;
  }

  /** Consecutive windows overlap by `size - step` words when the first one is full. */
  lemma WindowOverlap(words: seq<string>, size: nat, step: nat, m: nat)
    requires 0 < step <= size
    requires m + 1 < |WindowsFrom(words, 0, size, step)|
    requires |WindowsFrom(words, 0, size, step)[m]| == size
    ensures var ws := WindowsFrom(words, 0, size, step);
            |ws[m + 1]| >= size - step && ws[m][step..] == ws[m + 1][..size - step]
  {
    WindowAt(words, 0, size, step, m);
    WindowAt(words, 0, size, step, m + 1);
  }

  /** With a non-negative overlap the windows from `i` on cover every word from `i` on. */
  lemma {:induction false} WindowsCover(words: seq<string>, i: nat, size: nat, step: nat, k: nat)
    requires 0 < step <= size && i <= k < |words|
    ensures var ws := WindowsFrom(words, i, size, step);
            exists m :: 0 <= m < |ws| && StartOf(i, step, m) <= k < StartOf(i, step, m) + |ws[m]|
    decreases |words| - i
  {
    var ws := WindowsFrom(words, i, size, step);
    if k < i + step {
      assert StartOf(i, step, 0) == i && |ws[0]| == Min(i + size, |words|) - i;
    } else {
      WindowsCover(words, i + step, size, step, k);
      var rest := WindowsFrom(words, i + step, size, step);
      var m :| 0 <= m < |rest| && StartOf(i + step, step, m) <= k < StartOf(i + step, step, m) + |rest[m]|;
      StartOfShift(i, step, m);
      assert ws[m + 1] == rest[m];
    }
  }

  /** Window words are words, so a window survives joining and re-splitting. */
  lemma WindowWords(words: seq<string>, i: nat, size: nat, step: nat, m: nat)
    requires step > 0 && m < |WindowsFrom(words, i, size, step)|
    requires forall j :: 0 <= j < |words| ==> IsWord(words[j])
    ensures var w := WindowsFrom(words, i, size, step)[m];
            Words(Join(w, " ")) == w && |w| <= size && |w| <= |words|
  {
    WindowAt(words, i, size, step, m);
    var w := WindowsFrom(words, i, size, step)[m];
    var a := StartOf(i, step, m);
    assert forall j :: 0 <= j < |w| ==> w[j] == words[a + j];
    WordsOfJoin(w);
  }

  /** Each chunk's words are one window of the text's words, and a chunk has more than 60 and
      at most `size` words. */
  lemma {:induction false} ChunkShape(text: string, size: nat, overlap: int, c: string)
    requires overlap < size
    requires c in Chunks(text, size, overlap)
    ensures MinWords < |Words(c)| <= size
    ensures Words(c) in WindowsFrom(Words(text), 0, size, size - overlap)
  {
    var ws := WindowsFrom(Words(text), 0, size, size - overlap);
    KeepLongMembers(Joined(ws));
    assert c in Joined(ws);
    var m :| 0 <= m < |ws| && Joined(ws)[m] == c;
    JoinedAt(ws, m);
    WindowWords(Words(text), 0, size, size - overlap, m);
  }

  /** Windows of at most 60 words are all dropped. */
  lemma ShortWindowsDropped(words: seq<string>, size: nat, step: nat)
    requires step > 0 && |words| <= MinWords
    requires forall j :: 0 <= j < |words| ==> IsWord(words[j])
    ensures KeepLong(Joined(WindowsFrom(words, 0, size, step))) == []
  {
    var ws := WindowsFrom(words, 0, size, step);
    forall t | t in Joined(ws)
      ensures |Words(t)| <= MinWords
    {
      var m :| 0 <= m < |ws| && Joined(ws)[m] == t;
      JoinedAt(ws, m);
      WindowWords(words, 0, size, step, m);
    }
    KeepNone(Joined(ws));
  }

  /** A text of at most 60 words yields no chunk. */
  lemma {:induction false} ShortTextHasNoChunks(text: string, size: nat, overlap: int)
    requires overlap < size
    requires |Words(text)| <= MinWords
    ensures Chunks(text, size, overlap) == []
  {
    ShortWindowsDropped(Words(text), size, size - overlap);
  }

  /** A text of more than 60 words that fits in one step, `size - overlap` words, is one chunk:
      its words joined by single spaces. */
  lemma MediumTextIsOneChunk(text: string, size: nat, overlap: int)
    requires 0 <= overlap < size
    requires MinWords < |Words(text)| <= size - overlap
    ensures Chunks(text, size, overlap) == [Join(Words(text), " ")]
  {
    var words := Words(text);
    var ws := WindowsFrom(words, 0, size, size - overlap);
    assert WindowsFrom(words, size - overlap, size, size - overlap) == [];
    assert words[0 .. Min(size, |words|)] == words;
    assert ws == [words];
    WordsOfJoin(words);
    assert Joined(ws) == [Join(words, " ")];
    assert KeepLong([Join(words, " ")]) == [Join(words, " ")];
  }

  // ===========================================================================
  // load_docs
  // ===========================================================================

  /** A scraped page: its URL and its text. */
  datatype Doc = Doc(url: string, text: string)

  /** The content of a raw page file as the scraper writes it (scripts/scrape.py:79). */
  function SaveFormat(d: Doc): string {
    d.url + "\n\n" + d.text
  }

  /** The parts around a blank line at `i` rebuild the content. */
  lemma RebuildAround(content: string, i: nat)
    requires i + 2 <= |content| && content[i] == '\n' && content[i + 1] == '\n'
    ensures content == content[..i] + "\n\n" + content[i + 2..]
  {
    assert content[i..i + 2] == "\n\n";
    assert content == content[..i] + content[i..i + 2] + content[i + 2..];
  }

  /** No blank line starts before `i`, so none lies in the content up to and including `i`. */
  lemma NoBlankLineBefore(content: string, i: nat)
    requires i < |content|
    requires forall j :: 0 <= j < i ==> !StartsWith(content[j..], "\n\n")
    ensures !Contains(content[..i + 1], "\n\n")
  {
    var u := content[..i + 1];
    forall j | 0 <= j <= |u| - 2
      ensures !StartsWith(u[j..], "\n\n")
    {
      BlankLineAt(content[j..]);
      BlankLineAt(u[j..]);
    }
  }

  /** Cutting at the first blank line: the parts around it rebuild the content, and the part
      before it, with the line break that opens the blank line, holds no blank line. */
  lemma SplitAtFirstBlankLine(content: string, i: nat)
    requires Find(content, "\n\n") == Some(i)
    ensures content == content[..i] + "\n\n" + content[i + 2..]
    ensures !Contains(content[..i] + "\n", "\n\n")
  {
    BlankLineAt(content[i..]);
    RebuildAround(content, i);
    NoBlankLineBefore(content, i);
    assert content[..i] + "\n" == content[..i + 1];
  }

  /** `content.split("\n\n", 1)` unpacked into `url, body`; `None` when there is no blank line,
      where the unpacking raises. Otherwise the file is the URL, a blank line and the text, and
      that blank line is the first one. */
  function ParseRaw(content: string): (r: Option<Doc>)
    ensures r.Some? <==> Contains(content, "\n\n")
    ensures r.Some? ==> content == r.value.url + "\n\n" + r.value.text
                        && !Contains(r.value.url + "\n", "\n\n")
  {
    match Find(content, "\n\n")
    case None => None
    case Some(i) =>
      SplitAtFirstBlankLine(content, i);
      Some(Doc(content[..i], content[i + 2..]))
  }

  /** `Path.read_text`'s universal newlines: each "\r\n" and each lone '\r' is read as '\n'. */
  function ReadText(raw: string): (r: string)
    ensures '\r' !in r && |r| <= |raw|
    decreases |raw|
  {
    if raw == [] then []
    else if raw[0] == '\r' then "\n" + ReadText(if |raw| > 1 && raw[1] == '\n' then raw[2..] else raw[1..])
    else [raw[0]] + ReadText(raw[1..])
  }

  /** A prefix without carriage returns is read as it is. */
  lemma {:induction false} ReadTextPrefix(u: string, t: string)
    requires '\r' !in u
    ensures ReadText(u + t) == u + ReadText(t)
    decreases |u|
  {
    if u == [] {
      assert u + t == t;
    } else {
      assert (u + t)[0] == u[0] && u[0] in u;
      assert (u + t)[1..] == u[1..] + t;
      ReadTextPrefix(u[1..], t);
      assert u + ReadText(t) == [u[0]] + (u[1..] + ReadText(t));
    }
  }

  /** A text without carriage returns is read as written. */
  lemma ReadTextPlain(t: string)
    requires '\r' !in t
    ensures ReadText(t) == t
  {
    ReadTextPrefix(t, []);
    assert t + [] == t;
  }

  /** A lone carriage return inside a page is read as a line break. */
  lemma CarriageReturnRead()
    ensures ReadText("a\rb") == "a\nb"
  {
    assert "a\rb"[1..] == "\rb";
    assert "\rb"[1..] == "b";
  }

  /** A URL that survives the round trip through a raw file: no carriage return and no blank
      line inside it, and no line break at its end. */
  predicate SavableUrl(url: string) {
    '\r' !in url && !Contains(url, "\n\n") && (url == [] || url[|url| - 1] != '\n')
  }

  /** Whether a string starts with a blank line, character by character. */
  lemma BlankLineAt(x: string)
    ensures StartsWith(x, "\n\n") <==> |x| >= 2 && x[0] == '\n' && x[1] == '\n'
  {
    if |x| >= 2 {
      assert x[..2] == [x[0], x[1]];
    }
  }

  /** Splitting a page file at its first blank line gives the URL and the text back. */
  lemma SplitSaved(d: Doc)
    requires SavableUrl(d.url)
    ensures ParseRaw(SaveFormat(d)) == Some(d)
  {
    var s := SaveFormat(d);
    var n := |d.url|;
    BlankLineAt(s[n..]);
    forall j | 0 <= j < n
      ensures !StartsWith(s[j..], "\n\n")
    {
      BlankLineAt(s[j..]);
      if j + 1 < n {
        BlankLineAt(d.url[j..]);
        assert !StartsWith(d.url[j..], "\n\n");
        assert s[j] == d.url[j] && s[j + 1] == d.url[j + 1];
      } else {
        assert s[j] == d.url[n - 1];
      }
    }
    FindAt(s, "\n\n", n);
    assert s[..n] == d.url && s[n + 2..] == d.text;
  }

  /** A saved page is read back with its URL, and its text as `read_text` delivers it; a text
      without carriage returns comes back exactly. */
  lemma ParseSaved(d: Doc)
    requires SavableUrl(d.url)
    ensures ParseRaw(ReadText(SaveFormat(d))) == Some(Doc(d.url, ReadText(d.text)))
    ensures '\r' !in d.text ==> ParseRaw(ReadText(SaveFormat(d))) == Some(d)
  {
    ReadTextPrefix(d.url + "\n\n", d.text);
    assert SaveFormat(Doc(d.url, ReadText(d.text))) == d.url + "\n\n" + ReadText(d.text);
    SplitSaved(Doc(d.url, ReadText(d.text)));
    if '\r' !in d.text {
      ReadTextPlain(d.text);
    }
  }

  /** A URL ending with one line break loses it, and the text gains it. */
  lemma TrailingNewlineMoves(url: string, text: string)
    requires SavableUrl(url)
    ensures ParseRaw(ReadText(SaveFormat(Doc(url + "\n", text)))) == Some(Doc(url, "\n" + ReadText(text)))
  {
    assert SaveFormat(Doc(url + "\n", text)) == SaveFormat(Doc(url, "\n" + text));
    ParseSaved(Doc(url, "\n" + text));
    ReadTextPrefix("\n", text);
  }

  /** The documents of the raw files, in listing order; a file without a blank line makes the
      whole load raise. */
  function DocsOf(files: seq<string>): Result<seq<Doc>, string> {
    if files == [] then Success([])
    else
      match (ParseRaw(ReadText(files[|files| - 1])), DocsOf(files[..|files| - 1]))
      case (Some(d), Success(ds)) => Success(ds + [d])
      case (None, _) => Failure("ValueError: not enough values to unpack")
      case (_, Failure(e)) => Failure(e)
  }

  /** `load_docs()` over the contents of the files `RAW.glob("*.txt")` lists. */
  method LoadDocs(files: seq<string>) returns (r: Result<seq<Doc>, string>)
    ensures r.Success? <==> DocsOf(files).Success?
    ensures r.Success? ==> r == DocsOf(files)
  {
    var docs: seq<Doc> := [];
    for k := 0 to |files|
      invariant DocsOf(files[..k]) == Success(docs)
    {
      assert files[..k + 1][..k] == files[..k];
      var parsed := ParseRaw(ReadText(files[k]));
      if parsed.None? {
        PrefixFailure(files, k + 1);
        return Failure("ValueError: not enough values to unpack");
      }
      docs := docs + [parsed.value];
    }
    assert files[..|files|] == files;
    r := Success(docs);
  }

  /** A prefix that fails to load makes every extension fail. */
  lemma {:induction false} PrefixFailure(files: seq<string>, k: nat)
    requires k <= |files| && DocsOf(files[..k]).Failure?
    ensures DocsOf(files).Failure?
    decreases |files| - k
  {
    if k < |files| {
      assert files[..k + 1][..k] == files[..k];
      PrefixFailure(files, k + 1);
    } else {
      assert files[..k] == files;
    }
  }

  /** The raw files the scraper writes for `pages`, one per page, in order. */
  function SavedFiles(pages: seq<Doc>): (files: seq<string>)
    ensures |files| == |pages|
  {
    if pages == [] then [] else SavedFiles(pages[..|pages| - 1]) + [SaveFormat(pages[|pages| - 1])]
  }

  /** Loading one more file that unpacks adds its document at the end. */
  lemma DocsOfAppend(files: seq<string>, f: string, ds: seq<Doc>, d: Doc)
    requires DocsOf(files) == Success(ds) && ParseRaw(ReadText(f)) == Some(d)
    ensures DocsOf(files + [f]) == Success(ds + [d])
  {
    assert (files + [f])[..|files|] == files;
  }

  /** The pages as `read_text` delivers them: each text read with universal newlines. */
  function AsRead(pages: seq<Doc>): (r: seq<Doc>)
    ensures |r| == |pages|
  {
    if pages == [] then []
    else
      var last := pages[|pages| - 1];
      AsRead(pages[..|pages| - 1]) + [Doc(last.url, ReadText(last.text))]
  }

  lemma AsReadSnoc(init: seq<Doc>, last: Doc)
    ensures AsRead(init + [last]) == AsRead(init) + [Doc(last.url, ReadText(last.text))]
  {
    assert (init + [last])[..|init|] == init;
  }

  /** Pages without carriage returns are read as they are. */
  lemma {:induction false} AsReadPlain(pages: seq<Doc>)
    requires forall j :: 0 <= j < |pages| ==> '\r' !in pages[j].text
    ensures AsRead(pages) == pages
    decreases |pages|
  {
    if pages != [] {
      var init := pages[..|pages| - 1];
      var last := pages[|pages| - 1];
      assert init + [last] == pages;
      AsReadPlain(init);
      ReadTextPlain(last.text);
      AsReadSnoc(init, last);
    }
  }

  lemma SavedFilesSnoc(init: seq<Doc>, last: Doc)
    ensures SavedFiles(init + [last]) == SavedFiles(init) + [SaveFormat(last)]
  {
    assert (init + [last])[..|init|] == init;
  }

  /** Pages saved by the scraper load back, in listing order, with their URLs and their texts
      as `read_text` delivers them. */
  lemma {:induction false} LoadSavedPagesAsRead(pages: seq<Doc>)
    requires forall j :: 0 <= j < |pages| ==> SavableUrl(pages[j].url)
    ensures DocsOf(SavedFiles(pages)) == Success(AsRead(pages))
    decreases |pages|
  {
    if pages != [] {
      var init := pages[..|pages| - 1];
      var last := pages[|pages| - 1];
      assert init + [last] == pages;
      assert forall j :: 0 <= j < |init| ==> init[j] == pages[j];
      LoadSavedPagesAsRead(init);
      ParseSaved(last);
      DocsOfAppend(SavedFiles(init), SaveFormat(last), AsRead(init), Doc(last.url, ReadText(last.text)));
      SavedFilesSnoc(init, last);
      AsReadSnoc(init, last);
    }
  }

  /** Pages saved by the scraper load back as the pages, in listing order, when no text holds a
      carriage return; otherwise each carriage return comes back as a line break. */
  lemma LoadSavedPages(pages: seq<Doc>)
    requires forall j :: 0 <= j < |pages| ==> SavableUrl(pages[j].url)
    ensures DocsOf(SavedFiles(pages)) == Success(AsRead(pages))
    ensures (forall j :: 0 <= j < |pages| ==> '\r' !in pages[j].text) ==> DocsOf(SavedFiles(pages)) == Success(pages)
  {
    LoadSavedPagesAsRead(pages);
    if forall j :: 0 <= j < |pages| ==> '\r' !in pages[j].text {
      AsReadPlain(pages);
    }
  }

  // ===========================================================================
  // main
  // ===========================================================================

  /** The chunk texts of `docs`, document by document, each document's chunks in order. */
  function ChunkTexts(docs: seq<Doc>): seq<string> {
    if docs == [] then []
    else ChunkTexts(docs[..|docs| - 1]) + Chunks(docs[|docs| - 1].text, ChunkSize, ChunkOverlap)
  }

  /** The URL of each chunk: its document's URL, repeated once per chunk. */
  function ChunkUrls(docs: seq<Doc>): seq<string> {
    if docs == [] then []
    else
      var last := docs[|docs| - 1];
      ChunkUrls(docs[..|docs| - 1]) + seq(|Chunks(last.text, ChunkSize, ChunkOverlap)|, _ => last.url)
  }

  /** Texts and URLs stay aligned: same length, and each chunk is one of its document's chunks,
      labelled with that document's URL. */
  lemma {:induction false} ChunksAligned(docs: seq<Doc>)
    ensures |ChunkTexts(docs)| == |ChunkUrls(docs)|
    ensures forall k :: 0 <= k < |ChunkTexts(docs)| ==>
              exists d :: d in docs && d.url == ChunkUrls(docs)[k]
                          && ChunkTexts(docs)[k] in Chunks(d.text, ChunkSize, ChunkOverlap)
    decreases |docs|
  {
    if docs != [] {
      var init := docs[..|docs| - 1];
      var last := docs[|docs| - 1];
      ChunksAligned(init);
      var cs := Chunks(last.text, ChunkSize, ChunkOverlap);
      var n := |ChunkTexts(init)|;
      forall k | 0 <= k < |ChunkTexts(docs)|
        ensures exists d :: d in docs && d.url == ChunkUrls(docs)[k]
                            && ChunkTexts(docs)[k] in Chunks(d.text, ChunkSize, ChunkOverlap)
      {
        if k < n {
          var d :| d in init && d.url == ChunkUrls(init)[k] && ChunkTexts(init)[k] in Chunks(d.text, ChunkSize, ChunkOverlap);
          assert d in docs;
          assert ChunkTexts(docs)[k] == ChunkTexts(init)[k] && ChunkUrls(docs)[k] == ChunkUrls(init)[k];
        } else {
          assert ChunkTexts(docs)[k] == cs[k - n] && ChunkUrls(docs)[k] == last.url;
          assert last in docs;
        }
      }
    }
  }

  /** The two nested loops of `main`. */
  method BuildChunks(docs: seq<Doc>) returns (texts: seq<string>, meta: seq<string>)
    ensures texts == ChunkTexts(docs) && meta == ChunkUrls(docs)
  {
    texts, meta := [], [];
    for k := 0 to |docs|
      invariant texts == ChunkTexts(docs[..k]) && meta == ChunkUrls(docs[..k])
    {
      assert docs[..k + 1][..k] == docs[..k] && docs[..k + 1][k] == docs[k];
      var cs := Chunk(docs[k].text, ChunkSize, ChunkOverlap);
      ghost var before := meta;
      for j := 0 to |cs|
        invariant texts == ChunkTexts(docs[..k]) + cs[..j]
        invariant meta == before + seq(j, _ => docs[k].url)
      {
        texts := texts + [cs[j]];
        meta := meta + [docs[k].url];
        assert cs[..j + 1] == cs[..j] + [cs[j]];
      }
      assert cs[..|cs|] == cs;
    }
    assert docs[..|docs|] == docs;
  }

  /** The files `main` writes: the index over the chunk texts, and the two .jsonl files. */
  function IndexFiles(texts: seq<string>, meta: seq<string>): Disk {
    Disk(Some(texts), Some(WriteRecords(TextKey, texts)), Some(WriteRecords(UrlKey, meta)))
  }

  /** `main()`: the disk it writes, or the exception loading the raw pages raises. */
  method BuildIndexMain(files: seq<string>) returns (r: Result<Disk, string>)
    ensures r.Success? <==> DocsOf(files).Success?
    ensures r.Success? ==>
              r.value == IndexFiles(ChunkTexts(DocsOf(files).value), ChunkUrls(DocsOf(files).value))
  {
    var docs := LoadDocs(files);
    if docs.Failure? {
      return Failure(docs.error);
    }
    var texts, meta := BuildChunks(docs.value);
    r := Success(IndexFiles(texts, meta));
  }

  /** What the builder writes is loaded by the service as an aligned corpus: the texts, their
      URLs, and an index holding exactly those texts. */
  lemma BuiltIndexLoads(docs: seq<Doc>)
    ensures var d := IndexFiles(ChunkTexts(docs), ChunkUrls(docs));
            d.Complete() && Deps.LoadCorpus(d) == Success(Deps.Corpus(ChunkTexts(docs), ChunkUrls(docs), ChunkTexts(docs)))
            && Deps.Aligned(Deps.LoadCorpus(d).value)
  {
    assert OneLine(TextKey) && OneLine(UrlKey);
    ReadWriteRecords(TextKey, ChunkTexts(docs));
    ReadWriteRecords(UrlKey, ChunkUrls(docs));
    ChunksAligned(docs);
  }
}
