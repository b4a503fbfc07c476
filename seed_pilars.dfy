/**
 * The one-off seeding script (scripts/seed_pilars_jina.py): for each of two reader-proxy URLs
 * not already among the store's URLs, download the page and append it to the store's passages,
 * URLs and FAISS index.
 *
 * `get_store()` hands every caller the same store, so the store is a parameter here; the
 * download is an oracle `fetch` from URL to page text. The script writes nothing to disk and
 * does not rebuild BM25.
 */
module SeedPilarsJina {
  import opened Deps
  import SeedDataset

  /** The reader proxy that returns a page as text. */
  const JinaPrefix: string := "https://r.jina.ai/"

  /** The pillars and the code of ethics, each fetched through the proxy. */
  const JinaPillarsUrl: string := JinaPrefix + SeedDataset.PillarsUrl
  const JinaEthicsUrl: string := JinaPrefix + SeedDataset.EthicsUrl

  /** `URLS`, in the order the script visits them. */
  const JinaUrls: seq<string> := [JinaPillarsUrl, JinaEthicsUrl]

  /** `add_to_store(text, url)`: the page text joins the passages and the index, its URL joins
      the URLs; BM25 and the prompts are left as they were. */
  method AddToStore(s: Store, text: string, url: string)
    modifies s
    ensures s.texts == old(s.texts) + [text] && s.meta == old(s.meta) + [url]
    ensures s.index == old(s.index) + [text]
    ensures s.bm25 == old(s.bm25) && s.styles == old(s.styles) && s.system == old(s.system)
  {
    s.texts := s.texts + [text];
    s.meta := s.meta + [url];
    s.index := s.index + [text];
  }

  /** The URLs of `urls` that are not among `meta`, in order: the pages the script downloads
      when the store's URLs are `meta`. */
  function PagesToAdd(urls: seq<string>, meta: seq<string>): (pages: seq<string>)
    ensures forall u :: u in pages <==> u in urls && u !in meta
    ensures |pages| <= |urls|
    decreases |urls|
  {
    if urls == [] then []
    else
      var prev := PagesToAdd(urls[..|urls| - 1], meta);
      var u := urls[|urls| - 1];
      assert forall v :: v in urls <==> v in urls[..|urls| - 1] || v == u;
      if u in meta then prev else prev + [u]
  }

  /** The downloaded text of each page, in order. */
  function Fetched(pages: seq<string>, fetch: string -> string): (ts: seq<string>)
    ensures |ts| == |pages| && forall i :: 0 <= i < |pages| ==> ts[i] == fetch(pages[i])
    decreases |pages|
  {
    if pages == [] then [] else Fetched(pages[..|pages| - 1], fetch) + [fetch(pages[|pages| - 1])]
  }

  /** The store's passages after the script visits `urls`, the URLs present beforehand being
      the ones in `c.meta`. */
  function SeededWith(c: Corpus, urls: seq<string>, fetch: string -> string): Corpus {
    var pages := PagesToAdd(urls, c.meta);
    Corpus(c.texts + Fetched(pages, fetch), c.meta + pages, c.index + Fetched(pages, fetch))
  }

  /** Visiting one more URL appends its page exactly when the URL was not present beforehand. */
  lemma SeededStep(c: Corpus, urls: seq<string>, u: string, fetch: string -> string)
    ensures var before := SeededWith(c, urls, fetch);
            SeededWith(c, urls + [u], fetch) ==
              if u in c.meta then before
              else Corpus(before.texts + [fetch(u)], before.meta + [u], before.index + [fetch(u)])
  {
    assert (urls + [u])[..|urls|] == urls;
    var pages := PagesToAdd(urls, c.meta);
    if u !in c.meta {
      assert (pages + [u])[..|pages|] == pages;
    }
  }

  /** `main()`: `existing` is taken once, before the loop, from the store's URLs; each URL of
      `URLS` not in it is downloaded and added. */
  method SeedPages(s: Store, fetch: string -> string)
    modifies s
    ensures s.Contents() == SeededWith(old(s.Contents()), JinaUrls, fetch)
    ensures s.bm25 == old(s.bm25) && s.styles == old(s.styles) && s.system == old(s.system)
  {
    var existing := set m | m in s.meta;
    ghost var c0 := s.Contents();
    for i := 0 to |JinaUrls|
      invariant s.Contents() == SeededWith(c0, JinaUrls[..i], fetch)
      invariant s.bm25 == old(s.bm25) && s.styles == old(s.styles) && s.system == old(s.system)
    {
      var url := JinaUrls[i];
      assert JinaUrls[..i + 1] == JinaUrls[..i] + [url];
      SeededStep(c0, JinaUrls[..i], url, fetch);
      if url !in existing {
        var txt := fetch(url);
        AddToStore(s, txt, url);
      }
    }
    assert JinaUrls[..|JinaUrls|] == JinaUrls;
  }

  /** After the script every visited URL is among the store's URLs, and what was there before
      is kept as a prefix. */
  lemma SeedingCoversUrls(c: Corpus, urls: seq<string>, fetch: string -> string)
    ensures var r := SeededWith(c, urls, fetch);
            (forall u :: u in urls ==> u in r.meta) && c.texts <= r.texts && c.meta <= r.meta && c.index <= r.index
  {
    var pages := PagesToAdd(urls, c.meta);
    forall u | u in urls
      ensures u in c.meta + pages
    {
      if u !in c.meta {
        assert u in pages;
      }
    }
  }

  /** Nothing is downloaded when every URL is already present. */
  lemma {:induction false} NothingToAdd(urls: seq<string>, meta: seq<string>)
    requires forall u :: u in urls ==> u in meta
    ensures PagesToAdd(urls, meta) == []
    decreases |urls|
  {
    if urls != [] {
      assert forall u :: u in urls[..|urls| - 1] ==> u in urls;
      NothingToAdd(urls[..|urls| - 1], meta);
      assert urls[|urls| - 1] in urls;
    }
  }

  /** Running the script a second time, whatever the pages then say, changes nothing. */
  lemma SeedingIdempotent(c: Corpus, urls: seq<string>, fetch: string -> string, fetch2: string -> string)
    ensures SeededWith(SeededWith(c, urls, fetch), urls, fetch2) == SeededWith(c, urls, fetch)
  {
    var r := SeededWith(c, urls, fetch);
    SeedingCoversUrls(c, urls, fetch);
    NothingToAdd(urls, r.meta);
    assert r.texts + [] == r.texts && r.meta + [] == r.meta && r.index + [] == r.index;
  }

  /** A store whose passage i is vector i of the index, and has a URL, stays so. */
  lemma SeedingKeepsAligned(c: Corpus, urls: seq<string>, fetch: string -> string)
    requires Aligned(c)
    ensures Aligned(SeededWith(c, urls, fetch))
  {
  }

  /** BM25 is not rebuilt: once a page is added, BM25 covers fewer documents than the store has
      passages, so BM25 no longer lines up with `texts` and `meta`. */
  lemma Bm25MissesSeededPages(c: Corpus, bm25: seq<seq<string>>, urls: seq<string>, fetch: string -> string)
    requires |bm25| == |c.texts|
    requires exists u :: u in urls && u !in c.meta
    ensures |bm25| < |SeededWith(c, urls, fetch).texts|
  {
    var u :| u in urls && u !in c.meta;
    assert u in PagesToAdd(urls, c.meta);
  }

  /** The proxy URLs differ from every seed URL, so a store holding only the seeds gets both
      pages, the pillars and the code of ethics then appearing twice under different URLs. */
  lemma SeedStoreGetsBothPages(fetch: string -> string)
    ensures var c := SeedCorpus();
            SeededWith(c, JinaUrls, fetch) ==
              Corpus(c.texts + [fetch(JinaPillarsUrl), fetch(JinaEthicsUrl)], c.meta + JinaUrls,
                     c.index + [fetch(JinaPillarsUrl), fetch(JinaEthicsUrl)])
  {
    var c := SeedCorpus();
    ProxyUrlNotSeed(SeedDataset.PillarsUrl);
    ProxyUrlNotSeed(SeedDataset.EthicsUrl);
    SeededStep(c, [JinaPillarsUrl], JinaEthicsUrl, fetch);
    assert [JinaPillarsUrl] + [JinaEthicsUrl] == JinaUrls;
    SeededStep(c, [], JinaPillarsUrl, fetch);
    assert [] + [JinaPillarsUrl] == [JinaPillarsUrl];
  }

  /** A URL behind the reader proxy is not a seed URL. */
  lemma ProxyUrlNotSeed(u: string)
    ensures JinaPrefix + u !in SeedCorpus().meta
  {
    assert (JinaPrefix + u)[8] == 'r';
    forall i | 0 <= i < |SeedDataset.SeedDocs|
      ensures SeedDataset.SeedDocs[i].url[8] == 'w'
    {
    }
  }
}
