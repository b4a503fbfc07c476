# Retrieval-and-grounding core of a company-FAQ assistant, in Dafny

The modelled system answers questions about a company, using retrieval-augmented generation.
Four source files make up the model.

- **app/rag.py** is modelled by module `Rag` in rag.dfy. It covers:
  - the rule-based query rewriter;
  - the hybrid retriever: FAISS hits, then the BM25 hits not already present, then an optional
    code-of-ethics passage put in front, truncated to k;
  - the context formatter;
  - the answer composer: the sensitive-topic refusal, the extra prompt rules chosen by keyword
    class, the style template, and the reply built from the generation outcome (answer, timeout
    or error).
- **app/deps.py** is modelled by module `Deps` in deps.dfy. It covers:
  - `_get_env` and its three sources: the process environment, the parsed `.env` mapping, and a
    line scan of the `.env` text;
  - the start-up decision of `ensure_full_index_built`;
  - `Store.__init__`: load the three index files or write the seed index, back-fill the missing
    seed passages, build BM25, keep the prompts;
  - the `get_store` singleton.
- **scripts/build_index.py** is modelled by module `BuildIndex` in build_index.dfy. It covers
  reading the raw pages, cutting them into overlapping word windows, and writing the index and
  the two aligned `.jsonl` files.
- **scripts/seed_pilars_jina.py** is modelled by module `SeedPilarsJina` in seed_pilars.dfy. It
  covers appending the two proxied pages to a running store.

Four support modules are shared by the four above:
- `Wrappers` holds `Option` and `Result`.
- `Text` holds Python's `str` operations: `in`, `find`, `split()`, `strip()`, `join` and
  `splitlines()`.
- `Persist` holds the three files on disk and the JSON-lines record codec. A `.jsonl` file is
  cut into lines at "\n", "\r" and "\r\n", as Python's text-mode reading does.
- `SeedDataset` holds the four seed documents of app/seed_dataset.py. Each text is reduced to the
  first word of its heading.

External capabilities become function parameters (oracles):
- `str.lower()`;
- the FAISS search, as labels for a query and k;
- the BM25 top-n, over the rewritten query's words;
- the LLM call, as `Prompt -> Outcome`;
- the page download in the seeding script;
- the effect of running scrape.py and build_index.py at start-up, as `Disk -> Disk`.

The FAISS index is represented by the texts whose embeddings it holds, in vector order. So
"passage i is vector i" becomes `index == texts`.

Behaviours of the source that the model makes explicit:
- **FAISS padding.** When k exceeds the number of vectors, FAISS pads with label -1. Python
  reads `texts[-1]`, so the missing neighbours become copies of the last passage
  (`MissingNeighbourIsLastPassage`).
- **Ethics check before truncation.** The injection test looks at all merged hits, before the
  cut to k. An ethics passage ranked beyond k therefore suppresses the injection and is then cut
  off (`EthicsHitBeyondKIsCutOff`).
- **Eager default style.** `s.styles.get(style, s.styles['default'])` evaluates the default
  first. A template table without "default" therefore raises `KeyError` even for a known style,
  outside the `try`.
- **Back-fill not persisted.** The back-filled seed passages are not written to disk.
  Restarting on the written files rebuilds the same store (`RestartReproducesStore`).
- **URLs that end in a line break.** A raw page whose URL ends with a line break does not load
  back as written (`TrailingNewlineMoves`).
- **Carriage returns.** `read_text` reads each "\r\n" and each lone "\r" as "\n". A page whose
  text holds a carriage return therefore loads back with a line break in its place
  (`CarriageReturnRead`, `LoadSavedPages`).
- **One step of words.** With the defaults, a text of 61 to 750 words is one chunk. Above 750
  words a second window starts at word 750.
- **The seeding script.** `seed_pilars_jina.py` has three further behaviours:
  - It never rebuilds BM25 and never writes the index or the `.jsonl` files.
  - Its proxy URLs differ from every seed URL.
  - As a result, a store holding only the seeds gets the pillars and the code of ethics a
    second time, in memory only.

Three facts about the code that a reader might expect otherwise:
- **Timeout.** The worker is not abandoned on a timeout. The code leaves the
  `with ThreadPoolExecutor` block only after the worker has finished, so the 90-second wait does
  not bound the wall time. The model has no time, so this is not visible in it.
- **Re-ranking.** There is no score-based re-ranking. The only change to the order of the hits
  is the code-of-ethics injection, and that is what is modelled.
- **Short chunks.** Exactly the chunks of more than 60 words are kept (`len(t.split()) > 60`).

## Model

| member | source | states |
|---|---|---|
| Rag.RewriteIsFirstMatch | app/rag.py:15-74 | the rewriter is the table rule: a question with a financial term is kept verbatim; otherwise the first topic, in the order pillars, mission, history, ethics, brand usage, that the lowercased question mentions replaces it with that topic's fixed query; otherwise it is kept |
| Rag.RewriteKeepsFinancial | app/rag.py:18-23 | a financial question is returned unchanged, original case included, even when it also mentions a topic |
| Rag.RewriteKeepsUnmatched | app/rag.py:74 | a question that mentions no topic is returned unchanged |
| Rag.RewriteFirstMatchWins | app/rag.py:25-72 | when topic i is mentioned and no earlier topic is, the result is topic i's query, whatever later topics are also mentioned |
| Rag.RewriteReplacesWholesale | app/rag.py:10-74 | the result is the question itself or the fixed query of a topic it mentions; a changed result implies no financial term and some topic |
| Rag.BrandTestsDiffer | app/rag.py:57-104 | the rewriter's brand test and the retriever's injection test differ: "representar a marca" passes the first only, "marca da cloudwalk" the second only |
| Rag.MissingNeighbourIsLastPassage | app/rag.py:85-86 | a FAISS label -1 (a missing neighbour) reads the last passage and its URL |
| Rag.UnseenMembers | app/rag.py:89-93 | the BM25 hits appended are exactly those not among the vector hits, without repeats |
| Rag.MergeProperties | app/rag.py:86-93 | the merged list starts with the vector hits unchanged, holds exactly the vector and BM25 hits, and its appended part is repeat-free and disjoint from the vector hits |
| Rag.MergeLexical | app/rag.py:89-93 | the BM25 loop appends, in BM25 order, each hit not already in the list |
| Rag.EthicsInjection | app/rag.py:97-113 | the hits change exactly when the question needs the ethics passage, no hit cites the code of ethics and some stored URL does; the change puts the first such passage in front and keeps the rest |
| Rag.InjectEthics | app/rag.py:106-113 | the loop over the store inserts the first passage whose URL names the code of ethics, or nothing |
| Rag.Retrieve | app/rag.py:78-115 | `retrieve` returns at most k hits, the merged and injected hits cut to k |
| Rag.RetrieveBound | app/rag.py:115 | at most k hits, and when fewer than k hits were merged, every merged hit is in the result |
| Rag.RetrieveGroundsBrandQuestions | app/rag.py:97-115 | for a brand question whose merged hits cite no ethics URL, the first hit is the first stored ethics passage |
| Rag.EthicsHitBeyondKIsCutOff | app/rag.py:106-115 | an ethics hit present only beyond position k suppresses the injection and is cut off, so the result cites no ethics URL |
| Rag.FormatCtx | app/rag.py:117-123 | the context is the hit blocks joined by blank lines, the references are (j+1, url of hit j), and the context is empty exactly when there are no hits |
| Rag.BlockLabelled | app/rag.py:120-121 | block j carries the label [j] that a citation [j] refers to |
| Rag.BlockExcerpt | app/rag.py:121 | a block ends with the first 1200 characters of its passage, a prefix of the passage |
| Rag.ContextEmptyIff | app/rag.py:123 | the joined context is empty exactly when there are no hits |
| Rag.ExtraRules | app/rag.py:147-193 | the rule blocks are the grounding rules, then the location, representation and policy blocks whose keywords the question mentions, in that order |
| Rag.RulesForUnique | app/rag.py:147-193 | the rule blocks for a question are determined uniquely |
| Rag.PreviewShape | app/rag.py:235 | the timeout preview is the context when it fits in 1500 characters, otherwise exactly its first 1500 characters followed by "...", never more than 1503 characters |
| Rag.RenderOutcomeShape | app/rag.py:221-240 | an answer is followed by its sources line and nothing else; a timeout gives the fixed message, followed by the preview heading and the preview of the context exactly when a hit was retrieved; any other failure becomes a reply with a fixed prefix, not an exception |
| Rag.GenerateAnswer | app/rag.py:125-240 | a sensitive question is refused without calling the LLM; a template table without "default" raises before the LLM is called, even for a known style; otherwise the LLM gets the style template, the rule blocks, the context of the top 6 hits, the question and the 600-token output bound, and the reply is that outcome rendered |
| Deps.DefinitionValue | app/deps.py:33-34 | a `.env` line defines the name exactly when, once stripped, it starts with "name="; the value is what follows the first "=" of the line, stripped |
| Deps.AssignmentRead | app/deps.py:33-34 | the line "name=value" yields the stripped value |
| Deps.FirstDefinitionSkip | app/deps.py:32-35 | lines that do not define the name have no effect on the scan |
| Deps.FirstDefinitionAfter | app/deps.py:32-35 | the scan returns the value of the first line that defines the name, whatever follows |
| Deps.ScanEnvFile | app/deps.py:31-35 | the loop over the `.env` lines returns the first definition, or nothing |
| Deps.GetEnv | app/deps.py:27-36 | a non-empty environment value wins; otherwise the parsed `.env` value or the default; if that is empty or missing and the file exists, the line scan; the result comes from one of these sources |
| Deps.EnvFileAssignment | app/deps.py:32-35 | the first "name=value" line after lines that do not define the name gives the stripped value, whatever follows |
| Deps.RunsScriptsIff | app/deps.py:53-96 | the scripts run exactly when some index file is missing, the stripped flag is not "0" (an unset flag counts as "1") and both scripts exist |
| Deps.ZeroDisables | app/deps.py:68-71 | a flag "0" disables the pipeline |
| Deps.PaddedZeroDisables | app/deps.py:68-71 | a flag " 0\n" is stripped to "0" and disables the pipeline |
| Deps.SeedCorpus | app/deps.py:122-123 | the seed corpus is aligned and its URLs are the seed URLs |
| Deps.WrittenDiskLoads | app/deps.py:108-143 | files written from any passages and URLs, with an index of those passages, load back as exactly those passages, URLs and index |
| Deps.SeedDiskLoads | app/deps.py:119-143 | the files the seed branch writes load back as the seed corpus |
| Deps.LoadInitial | app/deps.py:107-144 | the disk step takes the loaded corpus when all three files exist, and otherwise the seeds written over all three files |
| Deps.MissingSeedsMembers | app/deps.py:147-154 | the seeds to back-fill are exactly the seed documents whose URL is absent |
| Deps.Backfilled | app/deps.py:146-166 | the back-fill keeps the loaded passages, URLs and index as prefixes and preserves alignment |
| Deps.BackfillCoversSeeds | app/deps.py:146-166 | after the back-fill every seed URL is present, and the appended URLs are exactly the seed URLs that were absent |
| Deps.BackfillIdempotent | app/deps.py:146-166 | back-filling twice is back-filling once |
| Deps.SeedCorpusComplete | app/deps.py:122-166 | the seed corpus needs no back-fill |
| Deps.CollectMissing | app/deps.py:147-154 | the loop over the seed documents collects the text and URL of each one whose URL is absent, in seed order |
| Deps.Tokenize | app/deps.py:169 | the comprehension gives token list i as the words of passage i |
| Deps.StartHasSeeds | app/deps.py:104-166 | whatever the disk held, a store that starts has every seed URL |
| Deps.CompleteIndexLoaded | app/deps.py:64-118 | with all three files present, nothing runs or is written and the store is the back-filled loaded corpus |
| Deps.RestartReproducesStore | app/deps.py:104-166 | starting again on the files written at start-up gives the same store |
| Deps.DisabledServesSeeds | app/deps.py:68-123 | with a file missing and the flag "0", the store is exactly the seed corpus |
| Deps.Store.constructor | app/deps.py:146-175 | the store holds the back-filled corpus, BM25 over all its texts, and the given prompts |
| Deps.OpenStore | app/deps.py:100-175 | `Store()` writes the disk of the start-up decision, and either fails with the load error or yields a fresh store holding the start corpus, with BM25 over its texts |
| Deps.StoreCell.GetStore | app/deps.py:188-193 | the first successful call builds and keeps the store; later calls return that store and touch nothing; a failed build leaves the slot empty |
| Persist.UnescapeEscape | scripts/build_index.py:33-34 | decoding a written JSON string body gives the original text back |
| Persist.RecordOneLine | scripts/build_index.py:33-34 | a record is one non-empty line, so line i of a `.jsonl` file is passage i |
| Persist.ReadWriteRecords | app/deps.py:111-118 | reading a written `.jsonl` file gives back the values written, in order |
| Text.WordsOfJoin | scripts/build_index.py:20-21 | splitting words joined by single spaces gives the words back |
| BuildIndex.WindowAt | scripts/build_index.py:18-20 | window m starts inside the text and holds the next `size` words, or all that remain |
| BuildIndex.StartOfMultiple | scripts/build_index.py:20 | window m starts at word m * (size - overlap) |
| BuildIndex.JoinWindows | scripts/build_index.py:18-20 | the `while` loop yields each window joined by single spaces, in order |
| BuildIndex.JoinedAt | scripts/build_index.py:20 | joined window m is window m's words joined by single spaces |
| BuildIndex.KeepLongMembers | scripts/build_index.py:21 | a joined window is kept exactly when it has more than 60 words |
| BuildIndex.Chunk | scripts/build_index.py:17-21 | `chunk` returns the joined windows of more than 60 words |
| BuildIndex.WindowOverlap | scripts/build_index.py:17-20 | consecutive windows share `overlap` words when the first one is full |
| BuildIndex.WindowsCover | scripts/build_index.py:18-20 | with a non-negative overlap every word lies in some window |
| BuildIndex.ChunkShape | scripts/build_index.py:17-21 | each chunk has more than 60 and at most `size` words, and its words are one window of the text |
| BuildIndex.ShortWindowsDropped | scripts/build_index.py:18-21 | when there are at most 60 words, no window survives the filter |
| BuildIndex.ShortTextHasNoChunks | scripts/build_index.py:21 | a text of at most 60 words yields no chunk |
| BuildIndex.MediumTextIsOneChunk | scripts/build_index.py:17-21 | a text of more than 60 words that fits within one step is one chunk, its words joined by single spaces |
| BuildIndex.SplitAtFirstBlankLine | scripts/build_index.py:13 | cutting at the first blank line rebuilds the file from the parts, and no blank line lies before the cut |
| BuildIndex.ParseRaw | scripts/build_index.py:13 | a raw file unpacks exactly when it contains a blank line; the URL is what precedes the first one and the text what follows it |
| BuildIndex.ReadText | scripts/build_index.py:13 | `read_text` with universal newlines delivers no carriage return and never lengthens the file |
| BuildIndex.ReadTextPlain | scripts/build_index.py:13 | a file without carriage returns is read as written |
| BuildIndex.CarriageReturnRead | scripts/build_index.py:13 | a lone carriage return is read as a line break |
| BuildIndex.SplitSaved | scripts/build_index.py:13 | splitting a saved page at its first blank line gives its URL and text back, when the URL has no carriage return, no blank line and no final line break |
| BuildIndex.ParseSaved | scripts/build_index.py:10-15 | a page saved by the scraper, whose URL has no carriage return, no blank line and no final line break, is read back with that URL and its text as `read_text` delivers it; exactly as saved when the text has no carriage return |
| BuildIndex.TrailingNewlineMoves | scripts/build_index.py:13 | a page saved under a URL ending with a line break is read back with that line break moved from the URL to the start of the text |
| BuildIndex.LoadDocs | scripts/build_index.py:10-15 | the documents of the listed files, in listing order, or the unpacking error when a file has no blank line |
| BuildIndex.PrefixFailure | scripts/build_index.py:12-13 | one file without a blank line makes the whole load fail |
| BuildIndex.AsReadPlain | scripts/build_index.py:13 | pages without carriage returns are delivered as they are |
| BuildIndex.LoadSavedPagesAsRead | scripts/build_index.py:10-15 | pages saved by the scraper load back in order, each with its URL and its text as `read_text` delivers it |
| BuildIndex.LoadSavedPages | scripts/build_index.py:10-15 | pages saved by the scraper load back as the pages, in order, when no text holds a carriage return |
| BuildIndex.ChunksAligned | scripts/build_index.py:26-28 | texts and URLs have the same length, and each text is a chunk of the document whose URL stands beside it |
| BuildIndex.BuildChunks | scripts/build_index.py:24-28 | the nested loops collect every document's chunks in order, each labelled with its document's URL |
| BuildIndex.BuildIndexMain | scripts/build_index.py:23-34 | `main` fails exactly when loading fails, and otherwise writes the index of the chunk texts and the two `.jsonl` files |
| BuildIndex.BuiltIndexLoads | scripts/build_index.py:32-34 | the files the builder writes load in the service as an aligned corpus of exactly the chunk texts and their URLs |
| SeedPilarsJina.AddToStore | scripts/seed_pilars_jina.py:10-16 | the page text is appended to the passages and the index and its URL to the URLs; BM25 and the prompts are untouched |
| SeedPilarsJina.PagesToAdd | scripts/seed_pilars_jina.py:20-23 | the pages downloaded are exactly the proxy URLs absent from the store's URLs |
| SeedPilarsJina.Fetched | scripts/seed_pilars_jina.py:25 | page i's text is the download of URL i |
| SeedPilarsJina.SeededStep | scripts/seed_pilars_jina.py:22-28 | visiting one more URL appends its page exactly when the URL was absent at the start |
| SeedPilarsJina.SeedPages | scripts/seed_pilars_jina.py:18-28 | `main` appends, in order, each proxy URL absent when it started, and leaves BM25 and the prompts alone |
| SeedPilarsJina.SeedingCoversUrls | scripts/seed_pilars_jina.py:18-28 | afterwards every proxy URL is present, and the earlier passages, URLs and index are prefixes |
| SeedPilarsJina.NothingToAdd | scripts/seed_pilars_jina.py:22-23 | nothing is downloaded when every URL is present |
| SeedPilarsJina.SeedingIdempotent | scripts/seed_pilars_jina.py:18-28 | a second run adds nothing, whatever the pages then contain |
| SeedPilarsJina.SeedingKeepsAligned | scripts/seed_pilars_jina.py:10-16 | an aligned store stays aligned |
| SeedPilarsJina.Bm25MissesSeededPages | scripts/seed_pilars_jina.py:10-16 | once a page is added, BM25 covers fewer documents than there are passages |
| SeedPilarsJina.ProxyUrlNotSeed | scripts/seed_pilars_jina.py:5-8 | a proxied URL is never a seed URL |
| SeedPilarsJina.SeedStoreGetsBothPages | scripts/seed_pilars_jina.py:5-28 | a store holding only the seeds gains both proxied pages, in order |

## Left out

- `str.lower()` is an oracle. Unicode case mapping is not modelled.
- The embedding model, FAISS, BM25 scoring and the LLM client are oracles. Scores, distances and
  the actual ranking are not modelled.
- The FAISS labels are assumed to come from a search over the current index (`ValidLabels`).
- The BM25 candidates are assumed to be passage indexes (`InCorpus`).
- Rag.Retrieve: k is a `nat`. A negative k is not modelled.
- Rag.Retrieve: passages and URLs are assumed aligned (`SearchReady` requires
  `|texts| == |meta|`). The source would raise `IndexError` at `s.meta[i]`, or pair a text with
  the wrong URL, on misaligned `.jsonl` files. Every writer of these files is proved to keep them
  aligned (`BuiltIndexLoads`, `SeedDiskLoads`, `Backfilled`, `SeedingKeepsAligned`).
- Rag.GenerateAnswer: the prompt keeps the template, the rule blocks, the context, the question
  and the output bound as fields. The fixed wording around them is not modelled, and neither are the system prompt,
  the temperature and the model name.
- Rag.GenerateAnswer: the thread pool, the 90-second wait and the blocking exit from the `with`
  block are not modelled. The timeout is one outcome of the LLM oracle.
- Rag.GenerateAnswer: a reply with `None` content fails inside the `try`. It is covered by the
  `Error` outcome, not modelled separately.
- Logging and every `print` are left out.
- Persist.Record: `json.dumps` writes non-ASCII characters and DEL (U+007F) as `\uXXXX` escapes.
  The model writes them unescaped. The decoded values are the same, but the file bytes are not.
- Persist.ParseRecord: the reader accepts only the one-key layout the writers produce. JSON
  whitespace variants and other keys are not modelled.
- Deps.GetEnv: the process environment, the parsed `.env` mapping and the `.env` text are
  parameters. `load_dotenv` and `dotenv_values` themselves are not modelled.
- Deps.GetEnv: the `OPENAI_API_KEY` check at import time is not modelled.
- Deps.AfterEnsure: running scrape.py and build_index.py, including failures part-way, is one
  `Disk -> Disk` parameter. scrape.py is not part of this model.
- Deps.OpenStore: reading prompts.yaml and creating the OpenAI client are left out. The styles
  and the system prompt are parameters.
- Deps.OpenStore: the binary index file is not decoded. It is represented by the texts it embeds.
- Deps.Store.constructor: embedding failures are not modelled.
- BuildIndex.Chunk: requires `overlap < size`. For a text with a word, the source loops forever
  otherwise.
- BuildIndex.LoadDocs: the file contents are a parameter, in `glob` order.
- BuildIndex.BuildIndexMain: with no chunks at all, the source hands an empty batch to the
  embedding library, whose result is outside this model. The model writes an empty index.
- SeedPilarsJina.SeedPages: the download is an oracle. Network errors are not modelled.
- SeedPilarsJina.SeedPages: an `add_to_store` interrupted between the appends and `index.add` is
  not modelled.
- SeedDataset: each seed text is reduced to the first word of its heading. Only the URLs matter
  to the properties.
- The HTTP layer, app/main.py, the API routes, scripts/add_cloudwalk_core_docs.py and
  scripts/debug.py are not part of this model.
