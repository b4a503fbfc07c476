/**
 * Start-up of the service (app/deps.py): the three-tier configuration lookup `_get_env`, the
 * decision whether to run the scrape/build pipeline, the construction of the store (load the
 * persisted corpus, or build and persist a seed-only one, then back-fill the seed passages and
 * rebuild BM25 over the final texts), and the lazily created process-wide store.
 *
 * The environment, the .env file, the disk, the pipeline scripts and prompts.yaml are inputs.
 */
module Deps {
  import opened Wrappers
  import opened Text
  import opened Persist
  import opened SeedDataset

  // ===========================================================================
  // Configuration lookup: _get_env
  // ===========================================================================

  /** Python truthiness of an optional string: present and non-empty. */
  predicate Truthy(v: Option<string>) {
    v.Some? && v.value != ""
  }

  /** A line that contains "=" somewhere. */
  predicate HasEquals(line: string) {
    Contains(line, "=")
  }

  /** `line.split("=", 1)[1].strip()`. */
  function ValueAfterEquals(line: string): string
    requires HasEquals(line)
  {
    var i := Find(line, "=").value;
    Strip(line[i + 1..])
  }

  /** `Find` locates the first "=" of a line that has one. */
  lemma FirstEquals(line: string)
    requires HasEquals(line)
    ensures var i := Find(line, "=").value;
            i < |line| && line[i] == '=' && '=' !in line[..i]
  {
    var i := Find(line, "=").value;
    assert line[i..][..1] == "=";
    forall j | 0 <= j < i
      ensures line[j] != '='
    {
      assert !StartsWith(line[j..], "=");
      assert line[j..][..1] == [line[j]];
    }
  }

  /** Whether `line` defines `name`: its stripped form starts with `name=`. */
  predicate Defines(name: string, line: string) {
    StartsWith(Strip(line), name + "=")
  }

  /** A line that defines `name` contains "=". */
  lemma DefinitionHasEquals(name: string, line: string)
    requires Defines(name, line)
    ensures HasEquals(line)
  {
    var s := Strip(line);
    var a := |line| - |TrimStart(line)|;
    assert s[|name|] == '=' && line[a + |name|] == s[|name|];
    assert StartsWith(line[a + |name|..], "=");
  }

  /** The value the .env scanner reads from `line` for `name`: what follows the first "=" of the
      line, stripped, when the line defines `name`. */
  function DefinitionValue(name: string, line: string): (r: Option<string>)
    ensures r.Some? <==> Defines(name, line)
    ensures r.Some? ==> exists k :: 0 <= k < |line| && line[k] == '=' && '=' !in line[..k]
                                    && r.value == Strip(line[k + 1..])
  {
    if Defines(name, line) then
      DefinitionHasEquals(name, line);
      FirstEquals(line);
      Some(ValueAfterEquals(line))
    else None
  }

  /** The value of the first of `lines` that defines `name`. */
  function FirstDefinition(name: string, lines: seq<string>): Option<string> {
    if lines == [] then None
    else if Defines(name, lines[0]) then DefinitionValue(name, lines[0])
    else FirstDefinition(name, lines[1..])
  }

  /** The scan passes over lines that do not define `name`. */
  lemma {:induction false} FirstDefinitionSkip(name: string, before: seq<string>, rest: seq<string>)
    requires forall j :: 0 <= j < |before| ==> !Defines(name, before[j])
    ensures FirstDefinition(name, before + rest) == FirstDefinition(name, rest)
  {
    if before != [] {
      assert !Defines(name, before[0]) && (before + rest)[0] == before[0];
      assert (before + rest)[1..] == before[1..] + rest;
      assert forall j :: 0 <= j < |before| - 1 ==> before[1..][j] == before[j + 1];
      FirstDefinitionSkip(name, before[1..], rest);
    } else {
      assert before + rest == rest;
    }
  }

  /** The scan reads the value of the first line that defines `name`, whatever follows it. */
  lemma FirstDefinitionAfter(name: string, before: seq<string>, line: string, after: seq<string>)
    requires forall j :: 0 <= j < |before| ==> !Defines(name, before[j])
    requires Defines(name, line)
    ensures FirstDefinition(name, before + [line] + after) == DefinitionValue(name, line)
  {
    assert before + [line] + after == before + ([line] + after);
    FirstDefinitionSkip(name, before, [line] + after);
    assert ([line] + after)[0] == line;
  }

  /** `s.lstrip()` leaves a string that starts with a non-space character alone. */
  lemma TrimStartKeeps(s: string)
    requires s != [] && !IsSpace(s[0])
    ensures TrimStart(s) == s
  {
  }

  /** A line `name=value` defines `name` with the stripped value, for a name that starts with a
      non-space character and contains no "=". */
  lemma AssignmentRead(name: string, value: string)
    requires name != [] && !IsSpace(name[0])
    requires forall j :: 0 <= j < |name| ==> name[j] != '='
    ensures DefinitionValue(name, name + "=" + value) == Some(Strip(value))
  {
    var line := name + "=" + value;
    TrimStartKeeps(line);
    var s := Strip(line);
    assert !IsSpace(line[|name|]);
    assert |s| > |name|;
    assert s[..|name| + 1] == line[..|name| + 1] == name + "=";
    assert StartsWith(line[|name|..], "=");
    forall j | 0 <= j < |name|
      ensures !StartsWith(line[j..], "=")
    {
      assert line[j..][0] == name[j];
    }
    assert Find(line, "=") == Some(|name|);
    assert line[|name| + 1..] == value;
  }

  /** The loop of `_get_env` over the lines of the .env text. */
  method ScanEnvFile(name: string, text: string) returns (v: Option<string>)
    ensures v == FirstDefinition(name, SplitLines(text))
  {
    var lines := SplitLines(text);
    var i := 0;
    while i < |lines|
      invariant 0 <= i <= |lines|
      invariant FirstDefinition(name, lines[i..]) == FirstDefinition(name, lines)
    {
      var line := lines[i];
      assert lines[i..][0] == line && lines[i..][1..] == lines[i + 1..];
      if Defines(name, line) {
        DefinitionHasEquals(name, line);
        return Some(ValueAfterEquals(line));
      }
      i := i + 1;
    }
    return None;
  }

  /** `_get_env(name, default)`: the process environment, then the parsed .env file (or
      `default`), then a line scan of the .env text when it exists; a tier is skipped when it
      gives `None` or "". */
  method GetEnv(name: string, default: Option<string>, environ: map<string, string>,
                envFile: map<string, Option<string>>, envText: Option<string>)
    returns (v: Option<string>)
    ensures name in environ && environ[name] != "" ==> v == Some(environ[name])
    ensures var fromFile := if name in envFile then envFile[name] else default;
            !(name in environ && environ[name] != "") && Truthy(fromFile) ==> v == fromFile
    ensures var fromFile := if name in envFile then envFile[name] else default;
            !(name in environ && environ[name] != "") && !Truthy(fromFile) ==>
              v == if envText.Some? && FirstDefinition(name, SplitLines(envText.value)).Some?
                   then FirstDefinition(name, SplitLines(envText.value))
                   else fromFile
    ensures v.Some? ==> (name in environ && v.value == environ[name])
                        || (name in envFile && v == envFile[name]) || v == default
                        || (envText.Some? && v == FirstDefinition(name, SplitLines(envText.value)))
  {
    v := if name in environ then Some(environ[name]) else None;
    if !Truthy(v) {
      v := if name in envFile then envFile[name] else default;
    }
    if !Truthy(v) && envText.Some? {
      var scanned := ScanEnvFile(name, envText.value);
      if scanned.Some? {
        v := scanned;
      }
    }
  }

  /** Reading a .env whose lines before `name=value` do not define `name` gives the stripped
      value. */
  lemma EnvFileAssignment(name: string, value: string, before: seq<string>, after: seq<string>)
    requires name != [] && !IsSpace(name[0])
    requires forall j :: 0 <= j < |name| ==> name[j] != '='
    requires forall j :: 0 <= j < |before| ==> !Defines(name, before[j])
    ensures FirstDefinition(name, before + [name + "=" + value] + after) == Some(Strip(value))
  {
    AssignmentRead(name, value);
    FirstDefinitionAfter(name, before, name + "=" + value, after);
  }

  // ===========================================================================
  // Start-up pipeline decision: ensure_full_index_built
  // ===========================================================================

  /** What `ensure_full_index_built` does. */
  datatype InitAction = IndexPresent | DisabledByFlag | ScriptsMissing | RunScripts

  /** `os.getenv("BUILD_INDEX_ON_START", "1").strip()`. */
  function BuildFlag(env: Option<string>): string {
    match env
    case None => "1"
    case Some(v) => Strip(v)
  }

  /** The branch `ensure_full_index_built` takes for `disk`, the flag variable and whether the
      two pipeline scripts exist. */
  function EnsureFullIndexBuilt(disk: Disk, flag: Option<string>, scrapeExists: bool, buildExists: bool): InitAction {
    if disk.Complete() then IndexPresent
    else if BuildFlag(flag) == "0" then DisabledByFlag
    else if !scrapeExists || !buildExists then ScriptsMissing
    else RunScripts
  }

  /** The scripts run exactly when some file is missing, the flag is not "0" after stripping
      (an unset flag counts as "1") and both scripts exist. */
  lemma RunsScriptsIff(disk: Disk, flag: Option<string>, scrapeExists: bool, buildExists: bool)
    ensures EnsureFullIndexBuilt(disk, flag, scrapeExists, buildExists) == RunScripts <==>
              !disk.Complete() && scrapeExists && buildExists
              && (flag.None? || Strip(flag.value) != "0")
  {
  }

  /** A flag that is "0" once surrounding whitespace is removed turns the pipeline off. */
  lemma PaddedZeroDisables(disk: Disk, scrapeExists: bool, buildExists: bool)
    requires !disk.Complete()
    ensures EnsureFullIndexBuilt(disk, Some(" 0\n"), scrapeExists, buildExists) == DisabledByFlag
  {
    assert TrimStart(" 0\n") == "0\n";
    assert TrimEnd("0\n") == "0";
  }

  /** The flag "0" itself turns the pipeline off. */
  lemma ZeroDisables(disk: Disk, scrapeExists: bool, buildExists: bool)
    requires !disk.Complete()
    ensures EnsureFullIndexBuilt(disk, Some("0"), scrapeExists, buildExists) == DisabledByFlag
  {
    assert TrimStart("0") == "0";
    assert TrimEnd("0") == "0";
  }

  /** The disk once `ensure_full_index_built` has returned. `pipeline` is the effect of running
      scrape.py then build_index.py, whatever they manage to write before finishing or failing. */
  function AfterEnsure(disk: Disk, flag: Option<string>, scrapeExists: bool, buildExists: bool,
                       pipeline: Disk -> Disk): Disk {
    if EnsureFullIndexBuilt(disk, flag, scrapeExists, buildExists) == RunScripts then pipeline(disk)
    else disk
  }

  // ===========================================================================
  // Store construction: Store.__init__
  // ===========================================================================

  /** The passages of a store: `texts[i]` comes from `meta[i]`, and `index` holds the texts
      whose embeddings were added to the FAISS index, in vector order. */
  datatype Corpus = Corpus(texts: seq<string>, meta: seq<string>, index: seq<string>)

  /** Passage i of the store is vector i of the index. */
  predicate Aligned(c: Corpus) {
    |c.texts| == |c.meta| && c.index == c.texts
  }

  /** The load branch: the index file as read, and one value per .jsonl line; a line that is
      not a record makes loading raise. */
  function LoadCorpus(disk: Disk): (r: Result<Corpus, string>)
    requires disk.Complete()
    ensures r.Success? <==> ReadRecords(TextKey, disk.texts.value).Some? && ReadRecords(UrlKey, disk.meta.value).Some?
    ensures r.Success? ==> r.value == Corpus(ReadRecords(TextKey, disk.texts.value).value,
                                             ReadRecords(UrlKey, disk.meta.value).value, disk.index.value)
  {
    match (ReadRecords(TextKey, disk.texts.value), ReadRecords(UrlKey, disk.meta.value))
    case (Some(texts), Some(meta)) => Success(Corpus(texts, meta, disk.index.value))
    case (None, _) => Failure("invalid record in data/chunks/texts.jsonl")
    case (_, None) => Failure("invalid record in data/chunks/meta.jsonl")
  }

  /** The seed branch: the seed passages in file order, embedded in that order. */
  function SeedCorpus(): (c: Corpus)
    ensures Aligned(c) && c.meta == SeedUrls()
  {
    Corpus(SeedTexts(), SeedUrls(), SeedTexts())
  }

  /** The files the seed branch writes, replacing all three. */
  function SeedDisk(): Disk {
    Disk(Some(SeedTexts()), Some(WriteRecords(TextKey, SeedTexts())), Some(WriteRecords(UrlKey, SeedUrls())))
  }

  /** Files written from passages and URLs, with an index of those passages, load back as them. */
  lemma WrittenDiskLoads(texts: seq<string>, urls: seq<string>)
    ensures var disk := Disk(Some(texts), Some(WriteRecords(TextKey, texts)), Some(WriteRecords(UrlKey, urls)));
            disk.Complete() && LoadCorpus(disk) == Success(Corpus(texts, urls, texts))
  {
    assert OneLine(TextKey) && OneLine(UrlKey);
    ReadWriteRecords(TextKey, texts);
    ReadWriteRecords(UrlKey, urls);
  }

  /** The files the seed branch writes load back as the seed corpus. */
  lemma SeedDiskLoads()
    ensures SeedDisk().Complete() && LoadCorpus(SeedDisk()) == Success(SeedCorpus())
  {
    WrittenDiskLoads(SeedTexts(), SeedUrls());
  }

  /** The corpus before the back-fill: loaded when all three files exist, otherwise the seeds. */
  function InitialCorpus(disk: Disk): Result<Corpus, string> {
    if disk.Complete() then LoadCorpus(disk) else Success(SeedCorpus())
  }

  /** The disk after start-up: the seed branch overwrites all three files. */
  function DiskAfterInit(disk: Disk): Disk {
    if disk.Complete() then disk else SeedDisk()
  }

  /** The seed documents of `docs` whose URL is not among `urls`, in order. */
  function MissingSeeds(docs: seq<SeedDoc>, urls: seq<string>): seq<SeedDoc>
    decreases |docs|
  {
    if docs == [] then []
    else
      var prev := MissingSeeds(docs[..|docs| - 1], urls);
      var d := docs[|docs| - 1];
      if d.url in urls then prev else prev + [d]
  }

  /** A seed document is missing exactly when it is one of `docs` and its URL is absent. */
  lemma {:induction false} MissingSeedsMembers(docs: seq<SeedDoc>, urls: seq<string>)
    ensures forall d :: d in MissingSeeds(docs, urls) <==> d in docs && d.url !in urls
    decreases |docs|
  {
    if docs != [] {
      MissingSeedsMembers(docs[..|docs| - 1], urls);
      assert docs == docs[..|docs| - 1] + [docs[|docs| - 1]];
    }
  }

  function TextsOf(docs: seq<SeedDoc>): (ts: seq<string>)
    ensures |ts| == |docs| && forall i :: 0 <= i < |docs| ==> ts[i] == docs[i].text
  {
    seq(|docs|, i requires 0 <= i < |docs| => docs[i].text)
  }

  function UrlsOf(docs: seq<SeedDoc>): (us: seq<string>)
    ensures |us| == |docs| && forall i :: 0 <= i < |docs| ==> us[i] == docs[i].url
  {
    seq(|docs|, i requires 0 <= i < |docs| => docs[i].url)
  }

  /** The corpus after the back-fill: the seed documents whose URL is absent are appended to
      texts, meta and the index, in seed order. */
  function Backfilled(c: Corpus): (r: Corpus)
    ensures c.texts <= r.texts && c.meta <= r.meta && c.index <= r.index
    ensures Aligned(c) ==> Aligned(r)
  {
    var extra := MissingSeeds(SeedDocs, c.meta);
    Corpus(c.texts + TextsOf(extra), c.meta + UrlsOf(extra), c.index + TextsOf(extra))
  }

  /** Every URL of `docs` is among `urls` once the missing ones are appended. */
  lemma MissingCovered(docs: seq<SeedDoc>, urls: seq<string>)
    ensures forall i :: 0 <= i < |docs| ==> docs[i].url in urls + UrlsOf(MissingSeeds(docs, urls))
  {
    var extra := MissingSeeds(docs, urls);
    MissingSeedsMembers(docs, urls);
    forall i | 0 <= i < |docs|
      ensures docs[i].url in urls + UrlsOf(extra)
    {
      if docs[i].url !in urls {
        assert docs[i] in extra;
        var k :| 0 <= k < |extra| && extra[k] == docs[i];
        assert (urls + UrlsOf(extra))[|urls| + k] == docs[i].url;
      }
    }
  }

  /** The URLs appended are exactly the URLs of `docs` that were absent. */
  lemma MissingAdded(docs: seq<SeedDoc>, urls: seq<string>)
    ensures forall u :: u in UrlsOf(MissingSeeds(docs, urls)) <==>
                        u !in urls && exists i :: 0 <= i < |docs| && docs[i].url == u
  {
    var extra := MissingSeeds(docs, urls);
    MissingSeedsMembers(docs, urls);
    forall u
      ensures u in UrlsOf(extra) <==> u !in urls && exists i :: 0 <= i < |docs| && docs[i].url == u
    {
      if u in UrlsOf(extra) {
        var k :| 0 <= k < |extra| && UrlsOf(extra)[k] == u;
        assert extra[k] in extra;
        var i :| 0 <= i < |docs| && docs[i] == extra[k];
      }
      if u !in urls && exists i :: 0 <= i < |docs| && docs[i].url == u {
        var i :| 0 <= i < |docs| && docs[i].url == u;
        assert docs[i] in extra;
        var k :| 0 <= k < |extra| && extra[k] == docs[i];
        assert UrlsOf(extra)[k] == u;
      }
    }
  }

  /** After the back-fill every seed URL is present, and what was added is exactly the seeds
      whose URL was absent. */
  lemma BackfillCoversSeeds(c: Corpus)
    ensures forall i :: 0 <= i < |SeedDocs| ==> SeedDocs[i].url in Backfilled(c).meta
    ensures forall u :: u in Backfilled(c).meta[|c.meta|..] <==>
                        u !in c.meta && exists i :: 0 <= i < |SeedDocs| && SeedDocs[i].url == u
  {
    MissingCovered(SeedDocs, c.meta);
    MissingAdded(SeedDocs, c.meta);
    assert Backfilled(c).meta[|c.meta|..] == UrlsOf(MissingSeeds(SeedDocs, c.meta));
  }

  /** No seed is missing once every seed URL is present. */
  lemma {:induction false} NoneMissing(docs: seq<SeedDoc>, urls: seq<string>)
    requires forall i :: 0 <= i < |docs| ==> docs[i].url in urls
    ensures MissingSeeds(docs, urls) == []
    decreases |docs|
  {
    if docs != [] {
      NoneMissing(docs[..|docs| - 1], urls);
    }
  }

  /** Back-filling twice adds nothing the second time. */
  lemma BackfillIdempotent(c: Corpus)
    ensures Backfilled(Backfilled(c)) == Backfilled(c)
  {
    BackfillCoversSeeds(c);
    var r := Backfilled(c);
    NoneMissing(SeedDocs, r.meta);
    assert r.texts + [] == r.texts && r.meta + [] == r.meta && r.index + [] == r.index;
  }

  /** A store built from the seeds alone gets no extra passages. */
  lemma SeedCorpusComplete()
    ensures Backfilled(SeedCorpus()) == SeedCorpus()
  {
    NoneMissing(SeedDocs, SeedUrls());
    assert SeedTexts() + [] == SeedTexts() && SeedUrls() + [] == SeedUrls();
  }

  /** `[t.split() for t in texts]`: the tokenized corpus BM25 is built over. */
  function Tokenized(texts: seq<string>): (docs: seq<seq<string>>)
    ensures |docs| == |texts| && forall i :: 0 <= i < |texts| ==> docs[i] == Words(texts[i])
  {
    seq(|texts|, i requires 0 <= i < |texts| => Words(texts[i]))
  }

  /** The corpus of the store the service starts with, or the exception start-up raises. */
  function StartCorpus(disk: Disk, flag: Option<string>, scrapeExists: bool, buildExists: bool,
                       pipeline: Disk -> Disk): Result<Corpus, string> {
    match InitialCorpus(AfterEnsure(disk, flag, scrapeExists, buildExists, pipeline))
    case Success(c) => Success(Backfilled(c))
    case Failure(e) => Failure(e)
  }

  /** Whatever the disk held, a store that starts has every seed URL. */
  lemma StartHasSeeds(disk: Disk, flag: Option<string>, scrapeExists: bool, buildExists: bool,
                      pipeline: Disk -> Disk)
    requires StartCorpus(disk, flag, scrapeExists, buildExists, pipeline).Success?
    ensures var c := StartCorpus(disk, flag, scrapeExists, buildExists, pipeline).value;
            forall i :: 0 <= i < |SeedDocs| ==> SeedDocs[i].url in c.meta
  {
    var d := AfterEnsure(disk, flag, scrapeExists, buildExists, pipeline);
    BackfillCoversSeeds(InitialCorpus(d).value);
  }

  /** A complete index on disk is loaded as it is: the pipeline does not run and nothing is
      written. */
  lemma CompleteIndexLoaded(disk: Disk, flag: Option<string>, scrapeExists: bool, buildExists: bool,
                            pipeline: Disk -> Disk)
    requires disk.Complete()
    ensures AfterEnsure(disk, flag, scrapeExists, buildExists, pipeline) == disk
    ensures DiskAfterInit(AfterEnsure(disk, flag, scrapeExists, buildExists, pipeline)) == disk
    ensures StartCorpus(disk, flag, scrapeExists, buildExists, pipeline) ==
              match LoadCorpus(disk) case Success(c) => Success(Backfilled(c)) case Failure(e) => Failure(e)
  {
  }

  /** Restarting from what start-up left on disk gives the same store, whichever branch ran. */
  lemma RestartReproducesStore(disk: Disk, flag: Option<string>, scrapeExists: bool, buildExists: bool,
                               pipeline: Disk -> Disk)
    ensures var written := DiskAfterInit(AfterEnsure(disk, flag, scrapeExists, buildExists, pipeline));
            StartCorpus(written, flag, scrapeExists, buildExists, pipeline)
              == StartCorpus(disk, flag, scrapeExists, buildExists, pipeline)
  {
    var d := AfterEnsure(disk, flag, scrapeExists, buildExists, pipeline);
    if !d.Complete() {
      SeedDiskLoads();
    }
  }

  /** A start-up with no complete index and the pipeline switched off serves exactly the seeds. */
  lemma {:induction false} DisabledServesSeeds(disk: Disk, scrapeExists: bool, buildExists: bool, pipeline: Disk -> Disk)
    requires !disk.Complete()
    ensures StartCorpus(disk, Some("0"), scrapeExists, buildExists, pipeline) == Success(SeedCorpus())
  {
    ZeroDisables(disk, scrapeExists, buildExists);
    var after := AfterEnsure(disk, Some("0"), scrapeExists, buildExists, pipeline);
    assert after == disk;
    assert InitialCorpus(after) == Success(SeedCorpus());
    SeedCorpusComplete();
  }

  /** One more document of `docs` scanned: it is appended exactly when its URL is absent. */
  lemma MissingSeedsStep(docs: seq<SeedDoc>, i: nat, urls: seq<string>)
    requires i < |docs|
    ensures MissingSeeds(docs[..i + 1], urls) ==
              if docs[i].url in urls then MissingSeeds(docs[..i], urls)
              else MissingSeeds(docs[..i], urls) + [docs[i]]
  {
    assert docs[..i + 1][..i] == docs[..i];
  }

  /** The texts and URLs of a list grown by one document. */
  lemma FieldsSnoc(extra: seq<SeedDoc>, d: SeedDoc)
    ensures TextsOf(extra + [d]) == TextsOf(extra) + [d.text]
    ensures UrlsOf(extra + [d]) == UrlsOf(extra) + [d.url]
  {
  }

  /** Step 3 of `Store.__init__`: the text and URL of every document of `docs` whose URL is not
      among `meta`, in order. */
  method CollectMissing(docs: seq<SeedDoc>, meta: seq<string>) returns (extraTexts: seq<string>, extraMeta: seq<string>)
    ensures extraTexts == TextsOf(MissingSeeds(docs, meta))
    ensures extraMeta == UrlsOf(MissingSeeds(docs, meta))
  {
    var existing := set u | u in meta;
    extraTexts, extraMeta := [], [];
    ghost var extra: seq<SeedDoc> := [];
    for i := 0 to |docs|
      invariant extra == MissingSeeds(docs[..i], meta)
      invariant extraTexts == TextsOf(extra) && extraMeta == UrlsOf(extra)
    {
      var doc := docs[i];
      MissingSeedsStep(docs, i, meta);
      if doc.url !in existing {
        FieldsSnoc(extra, doc);
        extraTexts := extraTexts + [doc.text];
        extraMeta := extraMeta + [doc.url];
        extra := extra + [doc];
      }
    }
    assert docs[..|docs|] == docs;
  }

  /** Step 4 of `Store.__init__`: `[t.split() for t in texts]`. */
  method Tokenize(texts: seq<string>) returns (docs: seq<seq<string>>)
    ensures docs == Tokenized(texts)
  {
    docs := [];
    for i := 0 to |texts|
      invariant |docs| == i && forall j :: 0 <= j < i ==> docs[j] == Words(texts[j])
    {
      docs := docs + [Words(texts[i])];
    }
  }

  /** The service's store: the passages, the FAISS index, BM25 over the texts, and the prompt
      templates read from prompts.yaml. */
  class Store {
    var texts: seq<string>
    var meta: seq<string>
    var index: seq<string>
    var bm25: seq<seq<string>>
    var styles: map<string, string>
    var system: string

    function Contents(): Corpus
      reads this
    {
      Corpus(texts, meta, index)
    }

    /** Steps 3 to 5 of `Store.__init__` for the corpus `c` the disk step produced: back-fill the
        missing seeds, build BM25 over all texts and keep the prompts. */
    constructor (c: Corpus, styles: map<string, string>, system: string)
      ensures Contents() == Backfilled(c)
      ensures bm25 == Tokenized(Backfilled(c).texts)
      ensures this.styles == styles && this.system == system
    {
      var extraTexts, extraMeta := CollectMissing(SeedDocs, c.meta);
      var allTexts := c.texts + extraTexts;
      var tokenized := Tokenize(allTexts);
      texts := allTexts;
      meta := c.meta + extraMeta;
      index := c.index + extraTexts;
      bm25 := tokenized;
      this.styles := styles;
      this.system := system;
    }
  }

  /** `Store()`: the pipeline decision, then load or seed-and-persist, then the in-memory steps.
      `written` is the disk afterwards; the result is the store or the exception that escapes. */
  method OpenStore(disk: Disk, flag: Option<string>, scrapeExists: bool, buildExists: bool,
                   pipeline: Disk -> Disk, styles: map<string, string>, system: string)
    returns (r: Result<Store, string>, written: Disk)
    ensures written == DiskAfterInit(AfterEnsure(disk, flag, scrapeExists, buildExists, pipeline))
    ensures r.Success? <==> StartCorpus(disk, flag, scrapeExists, buildExists, pipeline).Success?
    ensures r.Success? ==> fresh(r.value)
                           && r.value.Contents() == StartCorpus(disk, flag, scrapeExists, buildExists, pipeline).value
                           && r.value.bm25 == Tokenized(r.value.texts)
                           && r.value.styles == styles && r.value.system == system
    ensures r.Failure? ==> r.error == StartCorpus(disk, flag, scrapeExists, buildExists, pipeline).error
  {
    var d := disk;
    if EnsureFullIndexBuilt(disk, flag, scrapeExists, buildExists) == RunScripts {
      d := pipeline(disk);
    }
    var initial;
    initial, written := LoadInitial(d);
    if initial.Failure? {
      return Failure(initial.error), written;
    }
    var s := new Store(initial.value, styles, system);
    r := Success(s);
  }

  /** The branch of `Store.__init__` that picks the starting corpus: the three files when they
      all exist, otherwise the seeds, which are then written over all three files. */
  method LoadInitial(d: Disk) returns (r: Result<Corpus, string>, written: Disk)
    ensures r == InitialCorpus(d) && written == DiskAfterInit(d)
  {
    if d.Complete() {
      r := LoadCorpus(d);
      written := d;
    } else {
      r := Success(SeedCorpus());
      written := SeedDisk();
    }
  }

  /** The module-level `STORE` slot behind `get_store`. */
  class StoreCell {
    var store: Store?

    constructor ()
      ensures store == null
    {
      store := null;
    }

    /** `get_store()`: the existing store, or a new one built from the disk on the first
        successful call; a failed construction leaves the slot empty. */
    method GetStore(disk: Disk, flag: Option<string>, scrapeExists: bool, buildExists: bool,
                    pipeline: Disk -> Disk, styles: map<string, string>, system: string)
      returns (r: Result<Store, string>, written: Disk)
      modifies this
      ensures old(store) != null ==> r == Success(old(store)) && store == old(store) && written == disk
      ensures old(store) == null ==>
                (r.Success? <==> StartCorpus(disk, flag, scrapeExists, buildExists, pipeline).Success?)
      ensures old(store) == null && r.Success? ==>
                store == r.value && fresh(r.value)
                && r.value.Contents() == StartCorpus(disk, flag, scrapeExists, buildExists, pipeline).value
      ensures old(store) == null && r.Failure? ==>
                store == null && r.error == StartCorpus(disk, flag, scrapeExists, buildExists, pipeline).error
      ensures old(store) == null ==>
                written == DiskAfterInit(AfterEnsure(disk, flag, scrapeExists, buildExists, pipeline))
    {
      if store != null {
        return Success(store), disk;
      }
      r, written := OpenStore(disk, flag, scrapeExists, buildExists, pipeline, styles, system);
      if r.Success? {
        store := r.value;
      }
    }
  }
}
