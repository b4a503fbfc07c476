/**
 * The retrieval-and-grounding pipeline of app/rag.py: the rule-based query rewriter, the hybrid
 * retriever (FAISS hits, then unseen BM25 hits, then an optional code-of-ethics passage in front,
 * truncated to k), the context formatter, and the answer composer (sensitive-topic gate, extra
 * prompt rules by keyword class, and the mapping of the generation outcome to the reply text).
 *
 * `str.lower()`, the FAISS search, the BM25 ranking and the LLM call are oracles passed in as
 * function parameters.
 */
module Rag {
  import opened Wrappers
  import opened Text

  /** The output bound, in tokens, the composer asks the LLM for. */
  const LlmMaxTokens: nat := 600

  /** `retrieve`'s default k, the one `generate_answer` uses. */
  const DefaultK: nat := 6

  // ===========================================================================
  // Query rewriter: build_retrieval_query
  // ===========================================================================

  /** Terms that mark a question as financial; such questions are never rewritten. */
  const FinancialTerms: seq<string> := [
    "preço", "preco", "taxa", "tarifa", "cobrança",
    "cobranca", "faturamento", "receita", "valuation"
  ]

  /** The topics the rewriter recognises. */
  datatype Topic = Pillars | Mission | History | Ethics | BrandUsage

  /** The order in which the rewriter tests the topics; the first match wins. */
  const TopicOrder: seq<Topic> := [Pillars, Mission, History, Ethics, BrandUsage]

  predicate AsksAboutPillars(q: string) {
    Contains(q, "valor") || Contains(q, "pilar")
  }

  predicate AsksAboutMission(q: string) {
    Contains(q, "missao") || Contains(q, "missão") || Contains(q, "mission")
  }

  predicate AsksAboutHistory(q: string) {
    Contains(q, "historia") || Contains(q, "história") || Contains(q, "fundador") || Contains(q, "fundada")
  }

  predicate AsksAboutEthics(q: string) {
    Contains(q, "etica") || Contains(q, "ética") || Contains(q, "conduta") || Contains(q, "codigo de etica")
  }

  /** Mentions "marca" and "cloudwalk" together with "regras" or "diretrizes". */
  predicate AsksBrandRules(q: string) {
    Contains(q, "marca") && Contains(q, "cloudwalk") && (Contains(q, "regras") || Contains(q, "diretrizes"))
  }

  /** The rewriter's brand-usage test. */
  predicate AsksAboutBrandUsage(q: string) {
    Contains(q, "uso da marca")
    || Contains(q, "usar a marca")
    || Contains(q, "usar a marca da cloudwalk")
    || Contains(q, "representar a marca")
    || Contains(q, "representar a cloudwalk")
    || Contains(q, "representantes usar a marca")
    || AsksBrandRules(q)
  }

  /** Whether the lowercased question `q` is about topic `t`. */
  predicate Asks(t: Topic, q: string) {
    match t
    case Pillars => AsksAboutPillars(q)
    case Mission => AsksAboutMission(q)
    case History => AsksAboutHistory(q)
    case Ethics => AsksAboutEthics(q)
    case BrandUsage => AsksAboutBrandUsage(q)
  }

  const PillarsQuery: string :=
    "valores da CloudWalk enquanto cultura, pilares, princípios, filosofia, "
    + "our pillars, Best Product, Customer Engagement, Disruptive Economics, "
    + "código de ética, princípios culturais da CloudWalk"

  const MissionQuery: string :=
    "missão da CloudWalk criar a melhor rede de pagamentos na Terra e em outros planetas "
    + "democratizar a indústria financeira empoderar empreendedores soluções tecnológicas "
    + "inclusivas e transformadoras our mission"

  const HistoryQuery: string :=
    "história da CloudWalk fundador Luis Silva sede São Paulo fatos essenciais "
    + "fundação objetivo transformar a indústria de pagamentos relação com InfinitePay"

  const EthicsQuery: string :=
    "código de ética e conduta da CloudWalk conflitos de interesse uso da marca "
    + "lavagem de dinheiro financiamento ao terrorismo ambiente de trabalho "
    + "integridade transparência compliance"

  const BrandUsageQuery: string :=
    "código de ética e conduta da CloudWalk uso da marca e comunicação externa "
    + "quem representa a CloudWalk em eventos entrevistas podcasts ou painéis "
    + "uso do logotipo identidade visual e demais ativos de marca "
    + "alinhamento prévio com liderança e time responsável pela marca "
    + "diretrizes para representantes e uso da marca da CloudWalk"

  /** The fixed retrieval query that replaces a question about topic `t`. */
  function TopicQuery(t: Topic): string {
    match t
    case Pillars => PillarsQuery
    case Mission => MissionQuery
    case History => HistoryQuery
    case Ethics => EthicsQuery
    case BrandUsage => BrandUsageQuery
  }

  /** `build_retrieval_query(user_query)`. */
  function BuildRetrievalQuery(lower: string -> string, userQuery: string): string {
    var q := lower(userQuery);
    if ContainsAny(q, FinancialTerms) then userQuery
    else if AsksAboutPillars(q) then PillarsQuery
    else if AsksAboutMission(q) then MissionQuery
    else if AsksAboutHistory(q) then HistoryQuery
    else if AsksAboutEthics(q) then EthicsQuery
    else if AsksAboutBrandUsage(q) then BrandUsageQuery
    else userQuery
  }

  /** Reference definition of the rule table: the position in `TopicOrder` of the first topic
      the lowercased question `q` asks about. */
  function FirstTopic(q: string): Option<nat> {
    FirstWhere(TopicOrder, t => Asks(t, q))
  }

  /** The rewriter is the table-driven rule "financial questions are kept; otherwise the first
      topic in `TopicOrder` the question asks about replaces it; otherwise it is kept". */
  lemma RewriteIsFirstMatch(lower: string -> string, userQuery: string)
    ensures var q := lower(userQuery);
            BuildRetrievalQuery(lower, userQuery) ==
              if ContainsAny(q, FinancialTerms) then userQuery
              else match FirstTopic(q)
                   case Some(i) => TopicQuery(TopicOrder[i])
                   case None => userQuery
  {
    var q := lower(userQuery);
    if ContainsAny(q, FinancialTerms) {
      RewriteKeepsFinancial(lower, userQuery);
    } else {
      match FirstTopic(q)
      case Some(i) =>
        RewriteFirstMatchWins(lower, userQuery, i);
      case None =>
        forall t
          ensures !Asks(t, q)
        {
          assert t == TopicOrder[TopicIndex(t)];
        }
        RewriteKeepsUnmatched(lower, userQuery);
    }
  }

  /** The position of topic `t` in `TopicOrder`. */
  function TopicIndex(t: Topic): (i: nat)
    ensures i < |TopicOrder| && TopicOrder[i] == t
  {
    match t
    case Pillars => 0
    case Mission => 1
    case History => 2
    case Ethics => 3
    case BrandUsage => 4
  }

  /** A financial question is used verbatim, original case included. */
  lemma RewriteKeepsFinancial(lower: string -> string, userQuery: string)
    requires ContainsAny(lower(userQuery), FinancialTerms)
    ensures BuildRetrievalQuery(lower, userQuery) == userQuery
  {
  }

  /** A question about none of the topics is used verbatim. */
  lemma RewriteKeepsUnmatched(lower: string -> string, userQuery: string)
    requires forall t :: !Asks(t, lower(userQuery))
    ensures BuildRetrievalQuery(lower, userQuery) == userQuery
  {
    assert !Asks(Pillars, lower(userQuery)) && !Asks(Mission, lower(userQuery));
    assert !Asks(History, lower(userQuery)) && !Asks(Ethics, lower(userQuery));
    assert !Asks(BrandUsage, lower(userQuery));
  }

  /** First match wins: the earliest topic of `TopicOrder` the question asks about replaces the
      whole question with that topic's fixed query. */
  lemma RewriteFirstMatchWins(lower: string -> string, userQuery: string, i: nat)
    requires i < |TopicOrder|
    requires !ContainsAny(lower(userQuery), FinancialTerms)
    requires Asks(TopicOrder[i], lower(userQuery))
    requires forall j :: 0 <= j < i ==> !Asks(TopicOrder[j], lower(userQuery))
    ensures BuildRetrievalQuery(lower, userQuery) == TopicQuery(TopicOrder[i])
  {
    var q := lower(userQuery);
    if i > 0 {
      assert !Asks(TopicOrder[0], q) && !AsksAboutPillars(q);
    }
    if i > 1 {
      assert !Asks(TopicOrder[1], q) && !AsksAboutMission(q);
    }
    if i > 2 {
      assert !Asks(TopicOrder[2], q) && !AsksAboutHistory(q);
    }
    if i > 3 {
      assert !Asks(TopicOrder[3], q) && !AsksAboutEthics(q);
    }
  }

  /** The rewriter never appends: it returns the question itself or one of the five fixed
      queries, and it replaces the question only when it is not financial and names a topic. */
  lemma RewriteReplacesWholesale(lower: string -> string, userQuery: string)
    ensures var r := BuildRetrievalQuery(lower, userQuery);
            r == userQuery || exists t :: r == TopicQuery(t) && Asks(t, lower(userQuery))
    ensures BuildRetrievalQuery(lower, userQuery) != userQuery ==>
              !ContainsAny(lower(userQuery), FinancialTerms) && exists t :: Asks(t, lower(userQuery))
  {
    var q := lower(userQuery);
    var r := BuildRetrievalQuery(lower, userQuery);
    if !ContainsAny(q, FinancialTerms) {
      if AsksAboutPillars(q) { assert r == TopicQuery(Pillars) && Asks(Pillars, q); }
      else if AsksAboutMission(q) { assert r == TopicQuery(Mission) && Asks(Mission, q); }
      else if AsksAboutHistory(q) { assert r == TopicQuery(History) && Asks(History, q); }
      else if AsksAboutEthics(q) { assert r == TopicQuery(Ethics) && Asks(Ethics, q); }
      else if AsksAboutBrandUsage(q) { assert r == TopicQuery(BrandUsage) && Asks(BrandUsage, q); }
    }
  }

  // ===========================================================================
  // Hybrid retriever: retrieve
  // ===========================================================================

  /** A retrieved passage: `(text, url)`, compared structurally. */
  datatype Hit = Hit(text: string, url: string)

  /** The marker in the URL of the canonical code-of-ethics document. */
  const EthicsMarker: string := "code-of-ethics-and-conduct"

  predicate IsEthicsUrl(url: string) {
    Contains(url, EthicsMarker)
  }

  /** `any("code-of-ethics-and-conduct" in str(u) for _, u in hits)`. */
  predicate CitesEthics(hits: seq<Hit>) {
    exists j :: 0 <= j < |hits| && IsEthicsUrl(hits[j].url)
  }

  /** The retriever's own brand test (`precisa_etica_marca`); it differs from the rewriter's
      `AsksAboutBrandUsage`. */
  predicate NeedsEthicsPassage(q: string) {
    Contains(q, "uso da marca")
    || Contains(q, "usar a marca")
    || Contains(q, "marca da cloudwalk")
    || Contains(q, "representantes usar a marca")
    || AsksBrandRules(q)
  }

  /** A string lacking one of the characters of `t` does not contain `t`. */
  lemma MissingCharNotContained(s: string, t: string, c: char)
    requires c in t && c !in s
    ensures !Contains(s, t)
  {
    var k :| 0 <= k < |t| && t[k] == c;
    forall i | 0 <= i <= |s| - |t|
      ensures !StartsWith(s[i..], t)
    {
      assert s[i..][k] == s[i + k];
    }
  }

  /** The two brand tests disagree in both directions, so they are modelled separately:
      "representar a marca" is rewritten as a brand question but gets no forced ethics passage,
      and "marca da cloudwalk" gets the forced passage but is not rewritten as a brand question. */
  lemma BrandTestsDiffer()
    ensures AsksAboutBrandUsage("representar a marca") && !NeedsEthicsPassage("representar a marca")
    ensures NeedsEthicsPassage("marca da cloudwalk") && !AsksAboutBrandUsage("marca da cloudwalk")
  {
    RepresentingIsBrandUsage();
    BrandAndNameNeedEthics();
  }

  /** "representar a marca" is a brand-usage question that does not trigger the injection. */
  lemma RepresentingIsBrandUsage()
    ensures AsksAboutBrandUsage("representar a marca") && !NeedsEthicsPassage("representar a marca")
  {
    var a := "representar a marca";
    assert StartsWith(a[0..], "representar a marca");
    MissingCharNotContained(a, "uso da marca", 'u');
    MissingCharNotContained(a, "usar a marca", 'u');
    MissingCharNotContained(a, "marca da cloudwalk", 'k');
    MissingCharNotContained(a, "representantes usar a marca", 'u');
    MissingCharNotContained(a, "cloudwalk", 'k');
  }

  /** "marca da cloudwalk" triggers the injection but is not a brand-usage question. */
  lemma BrandAndNameNeedEthics()
    ensures NeedsEthicsPassage("marca da cloudwalk") && !AsksAboutBrandUsage("marca da cloudwalk")
  {
    var b := "marca da cloudwalk";
    assert StartsWith(b[0..], "marca da cloudwalk");
    MissingCharNotContained(b, "uso da marca", 's');
    MissingCharNotContained(b, "usar a marca", 's');
    MissingCharNotContained(b, "usar a marca da cloudwalk", 's');
    MissingCharNotContained(b, "representar a marca", 's');
    MissingCharNotContained(b, "representar a cloudwalk", 's');
    MissingCharNotContained(b, "representantes usar a marca", 's');
    MissingCharNotContained(b, "regras", 's');
    MissingCharNotContained(b, "diretrizes", 's');
  }

  /** FAISS labels for a corpus of `n` passages: a passage index, or -1 for a missing
      neighbour (FAISS pads with -1 when k exceeds the number of vectors). */
  predicate ValidLabels(ids: seq<int>, n: nat) {
    forall j :: 0 <= j < |ids| ==> 0 <= ids[j] < n || (ids[j] == -1 && n > 0)
  }

  /** BM25 results: passage indices. */
  predicate InCorpus(ids: seq<int>, n: nat) {
    forall j :: 0 <= j < |ids| ==> 0 <= ids[j] < n
  }

  /** Python's `xs[i]` index on a list of length `n`: negative indices count from the end. */
  function PyIndex(n: nat, i: int): nat
    requires -(n as int) <= i < n
  {
    if i < 0 then n + i else i
  }

  /** `[(s.texts[i], s.meta[i]) for i in ids]`. */
  function HitsAt(texts: seq<string>, meta: seq<string>, ids: seq<int>): (hits: seq<Hit>)
    requires |texts| == |meta| && ValidLabels(ids, |texts|)
    ensures |hits| == |ids|
  {
    seq(|ids|, j requires 0 <= j < |ids| =>
      var p := PyIndex(|texts|, ids[j]);
      Hit(texts[p], meta[p]))
  }

  /** A missing neighbour (-1) reads the LAST passage of the corpus, so a corpus smaller than k
      yields that passage several times among the vector hits. */
  lemma MissingNeighbourIsLastPassage(texts: seq<string>, meta: seq<string>, ids: seq<int>, j: nat)
    requires |texts| == |meta| && ValidLabels(ids, |texts|)
    requires j < |ids| && ids[j] == -1
    ensures HitsAt(texts, meta, ids)[j] == Hit(texts[|texts| - 1], meta[|meta| - 1])
  {
  }

  predicate NoDuplicates<T(==)>(s: seq<T>) {
    forall i, j :: 0 <= i < j < |s| ==> s[i] != s[j]
  }

  /** The candidates that are not in `seen`, each at its first occurrence, in candidate order:
      what the BM25 loop appends after the vector hits. */
  function Unseen(cands: seq<Hit>, seen: seq<Hit>): seq<Hit>
    decreases |cands|
  {
    if cands == [] then []
    else
      var prev := Unseen(cands[..|cands| - 1], seen);
      var c := cands[|cands| - 1];
      if c in seen || c in prev then prev else prev + [c]
  }

  /** The appended hits are exactly the candidates not already present, with no repeats. */
  lemma {:induction false} UnseenMembers(cands: seq<Hit>, seen: seq<Hit>)
    ensures forall x :: x in Unseen(cands, seen) <==> x in cands && x !in seen
    ensures NoDuplicates(Unseen(cands, seen))
    decreases |cands|
  {
    if cands != [] {
      var init := cands[..|cands| - 1];
      UnseenMembers(init, seen);
      assert cands == init + [cands[|cands| - 1]];
    }
  }

  /** The merge of vector hits `vec` with BM25 hits `lex`: the vector hits stay in front in
      their order (not de-duplicated among themselves), a BM25 hit is appended only if an equal
      hit is not already there, and nothing else is added. */
  lemma MergeProperties(vec: seq<Hit>, lex: seq<Hit>)
    ensures var m := vec + Unseen(lex, vec);
            && m[..|vec|] == vec
            && (forall x :: x in m <==> x in vec || x in lex)
            && NoDuplicates(m[|vec|..])
            && (forall j :: |vec| <= j < |m| ==> m[j] !in vec)
  {
    UnseenMembers(lex, vec);
    var m := vec + Unseen(lex, vec);
    assert m[|vec|..] == Unseen(lex, vec);
  }

  /** `hits` after the code-of-ethics step of `retrieve` for the lowercased question `q`. */
  function WithEthicsPassage(hits: seq<Hit>, q: string, texts: seq<string>, meta: seq<string>): seq<Hit>
    requires |texts| == |meta|
  {
    if NeedsEthicsPassage(q) && !CitesEthics(hits) then
      match FirstWhere(meta, IsEthicsUrl)
      case Some(i) => [Hit(texts[i], meta[i])] + hits
      case None => hits
    else hits
  }

  /** At most one passage is inserted, always at the front; it is the first passage of the
      corpus from the code of ethics, and it is inserted exactly when the question needs it,
      no hit cites the code of ethics and the corpus has such a passage. */
  lemma EthicsInjection(hits: seq<Hit>, q: string, texts: seq<string>, meta: seq<string>)
    requires |texts| == |meta|
    ensures var r := WithEthicsPassage(hits, q, texts, meta);
            r == hits || (|r| == |hits| + 1 && r[1..] == hits)
    ensures var r := WithEthicsPassage(hits, q, texts, meta);
            r != hits <==> NeedsEthicsPassage(q) && !CitesEthics(hits) && exists i :: 0 <= i < |meta| && IsEthicsUrl(meta[i])
    ensures var r := WithEthicsPassage(hits, q, texts, meta);
            r != hits ==> exists i :: 0 <= i < |meta| && r[0] == Hit(texts[i], meta[i]) && IsEthicsUrl(meta[i])
                            && forall j :: 0 <= j < i ==> !IsEthicsUrl(meta[j])
  {
    var r := WithEthicsPassage(hits, q, texts, meta);
    if NeedsEthicsPassage(q) && !CitesEthics(hits) {
      match FirstWhere(meta, IsEthicsUrl)
      case Some(i) =>
        assert r[1..] == hits;
        assert r != hits by { assert |r| == |hits| + 1; }
      case None =>
    }
  }

  /** What `retrieve` needs of its inputs: texts and meta aligned, FAISS labels within the
      corpus (or -1), BM25 indices within the corpus. */
  predicate SearchReady(texts: seq<string>, meta: seq<string>, query: string, k: nat,
                        lower: string -> string, vectorSearch: (string, nat) -> seq<int>,
                        lexicalTopN: (seq<string>, nat) -> seq<int>)
  {
    var rq := BuildRetrievalQuery(lower, query);
    |texts| == |meta|
    && ValidLabels(vectorSearch(rq, k), |texts|)
    && InCorpus(lexicalTopN(Words(rq), k), |texts|)
  }

  /** The hits of vector search followed by the unseen BM25 hits, both run on the rewritten query. */
  function MergedHits(texts: seq<string>, meta: seq<string>, query: string, k: nat,
                      lower: string -> string, vectorSearch: (string, nat) -> seq<int>,
                      lexicalTopN: (seq<string>, nat) -> seq<int>): seq<Hit>
    requires SearchReady(texts, meta, query, k, lower, vectorSearch, lexicalTopN)
  {
    var rq := BuildRetrievalQuery(lower, query);
    var vec := HitsAt(texts, meta, vectorSearch(rq, k));
    vec + Unseen(HitsAt(texts, meta, lexicalTopN(Words(rq), k)), vec)
  }

  /** The result of `retrieve(query, k)`. */
  function Ranked(texts: seq<string>, meta: seq<string>, query: string, k: nat,
                  lower: string -> string, vectorSearch: (string, nat) -> seq<int>,
                  lexicalTopN: (seq<string>, nat) -> seq<int>): (r: seq<Hit>)
    requires SearchReady(texts, meta, query, k, lower, vectorSearch, lexicalTopN)
    ensures |r| <= k
  {
    var merged := MergedHits(texts, meta, query, k, lower, vectorSearch, lexicalTopN);
    Take(WithEthicsPassage(merged, lower(query), texts, meta), k)
  }

  /** The BM25 merge loop: appends each BM25 hit not already among the hits. */
  method MergeLexical(texts: seq<string>, meta: seq<string>, vec: seq<Hit>, bm: seq<int>)
    returns (hits: seq<Hit>)
    requires |texts| == |meta| && InCorpus(bm, |texts|)
    ensures hits == vec + Unseen(HitsAt(texts, meta, bm), vec)
  {
    ghost var lex := HitsAt(texts, meta, bm);
    hits := vec;
    for i := 0 to |bm|
      invariant hits == vec + Unseen(lex[..i], vec)
    {
      var par := Hit(texts[bm[i]], meta[bm[i]]);
      assert lex[..i + 1] == lex[..i] + [par];
      if par !in hits {
        hits := hits + [par];
      }
    }
    assert lex[..|bm|] == lex;
  }

  /** The code-of-ethics step: for a question `q` that needs it, when no hit cites the code of
      ethics, the first corpus passage from it is put in front. */
  method InjectEthics(hits: seq<Hit>, q: string, texts: seq<string>, meta: seq<string>)
    returns (r: seq<Hit>)
    requires |texts| == |meta|
    ensures r == WithEthicsPassage(hits, q, texts, meta)
  {
    r := hits;
    if NeedsEthicsPassage(q) && !CitesEthics(hits) {
      for i := 0 to |texts|
        invariant forall j :: 0 <= j < i ==> !IsEthicsUrl(meta[j])
      {
        if IsEthicsUrl(meta[i]) {
          FirstWhereAt(meta, IsEthicsUrl, i);
          return [Hit(texts[i], meta[i])] + hits;
        }
      }
    }
  }

  /** `retrieve(query, k)`: vector hits, then BM25 hits not already present, then possibly the
      first code-of-ethics passage in front, truncated to k. */
  method Retrieve(texts: seq<string>, meta: seq<string>, query: string, k: nat,
                  lower: string -> string, vectorSearch: (string, nat) -> seq<int>,
                  lexicalTopN: (seq<string>, nat) -> seq<int>) returns (result: seq<Hit>)
    requires SearchReady(texts, meta, query, k, lower, vectorSearch, lexicalTopN)
    ensures |result| <= k
    ensures result == Ranked(texts, meta, query, k, lower, vectorSearch, lexicalTopN)
  {
    var rq := BuildRetrievalQuery(lower, query);
    var vec := HitsAt(texts, meta, vectorSearch(rq, k));
    var hits := MergeLexical(texts, meta, vec, lexicalTopN(Words(rq), k));
    hits := InjectEthics(hits, lower(query), texts, meta);
    result := Take(hits, k);
  }

  /** The result never holds more than k hits, and when k is not exceeded by the merged hits,
      nothing is lost to truncation. */
  lemma RetrieveBound(texts: seq<string>, meta: seq<string>, query: string, k: nat,
                      lower: string -> string, vectorSearch: (string, nat) -> seq<int>,
                      lexicalTopN: (seq<string>, nat) -> seq<int>)
    requires SearchReady(texts, meta, query, k, lower, vectorSearch, lexicalTopN)
    ensures var merged := MergedHits(texts, meta, query, k, lower, vectorSearch, lexicalTopN);
            var r := Ranked(texts, meta, query, k, lower, vectorSearch, lexicalTopN);
            |r| <= k && (|merged| < k ==> |r| >= |merged|)
  ensures var merged := MergedHits(texts, meta, query, k, lower, vectorSearch, lexicalTopN);
          var r := Ranked(texts, meta, query, k, lower, vectorSearch, lexicalTopN);
          |merged| < k ==> forall h :: h in merged ==> h in r
  {
    var merged := MergedHits(texts, meta, query, k, lower, vectorSearch, lexicalTopN);
    EthicsInjection(merged, lower(query), texts, meta);
  }

  /** A brand-usage question whose merged hits cite no code-of-ethics passage gets the first
      such passage of the corpus at the top of the result, for every k >= 1. */
  lemma RetrieveGroundsBrandQuestions(texts: seq<string>, meta: seq<string>, query: string, k: nat,
                                      lower: string -> string, vectorSearch: (string, nat) -> seq<int>,
                                      lexicalTopN: (seq<string>, nat) -> seq<int>, i: nat)
    requires SearchReady(texts, meta, query, k, lower, vectorSearch, lexicalTopN)
    requires k >= 1
    requires NeedsEthicsPassage(lower(query))
    requires !CitesEthics(MergedHits(texts, meta, query, k, lower, vectorSearch, lexicalTopN))
    requires i < |meta| && IsEthicsUrl(meta[i]) && forall j :: 0 <= j < i ==> !IsEthicsUrl(meta[j])
    ensures Ranked(texts, meta, query, k, lower, vectorSearch, lexicalTopN)[0] == Hit(texts[i], meta[i])
  {
    FirstWhereAt(meta, IsEthicsUrl, i);
  }

  /** The code-of-ethics check looks at the merged hits before truncation: when the only
      code-of-ethics hits sit at positions k or later, nothing is injected and truncation then
      drops them, so the result cites no code-of-ethics passage even for a question that needs
      one (for instance k = 1, a vector hit from another page and the ethics passage found by
      BM25 only). */
  lemma EthicsHitBeyondKIsCutOff(texts: seq<string>, meta: seq<string>, query: string, k: nat,
                                 lower: string -> string, vectorSearch: (string, nat) -> seq<int>,
                                 lexicalTopN: (seq<string>, nat) -> seq<int>)
    requires SearchReady(texts, meta, query, k, lower, vectorSearch, lexicalTopN)
    requires var merged := MergedHits(texts, meta, query, k, lower, vectorSearch, lexicalTopN);
             CitesEthics(merged) && forall j :: 0 <= j < k && j < |merged| ==> !IsEthicsUrl(merged[j].url)
    ensures !CitesEthics(Ranked(texts, meta, query, k, lower, vectorSearch, lexicalTopN))
  {
    var merged := MergedHits(texts, meta, query, k, lower, vectorSearch, lexicalTopN);
    var r := Ranked(texts, meta, query, k, lower, vectorSearch, lexicalTopN);
    assert r == Take(merged, k);
    assert forall j :: 0 <= j < |r| ==> r[j] == merged[j];
  }

  // ===========================================================================
  // Context formatter: format_ctx
  // ===========================================================================

  /** A citation `(j, url)`. */
  datatype Ref = Ref(index: nat, url: string)

  /** Characters of a passage kept in its context block. */
  const ExcerptCap: nat := 1200

  /** The context block of the j-th hit (1-based). */
  function Block(j: nat, h: Hit): string {
    "[" + NatToString(j) + "] Fonte: " + h.url + "\nTrecho: " + Take(h.text, ExcerptCap)
  }

  /** The blocks of `hits`, numbered from 1. */
  function Blocks(hits: seq<Hit>): (bs: seq<string>)
    ensures |bs| == |hits|
  {
    seq(|hits|, j requires 0 <= j < |hits| => Block(j + 1, hits[j]))
  }

  /** The context text: the blocks separated by blank lines. */
  function Context(hits: seq<Hit>): string {
    Join(Blocks(hits), "\n\n")
  }

  /** The citations: one `(j, url)` per hit, j counting from 1 in hit order. */
  function RefsOf(hits: seq<Hit>): (refs: seq<Ref>)
    ensures |refs| == |hits|
    ensures forall j :: 0 <= j < |hits| ==> refs[j] == Ref(j + 1, hits[j].url)
  {
    seq(|hits|, j requires 0 <= j < |hits| => Ref(j + 1, hits[j].url))
  }

  /** The number a block is labelled with: the digits between its leading "[" and the "]". */
  function BlockLabel(block: string): Option<nat> {
    if block == [] || block[0] != '[' then None
    else
      var n := DigitRun(block[1..]);
      if n == 0 || n + 1 >= |block| || block[n + 1] != ']' then None
      else Some(ParseDecimal(block[1..n + 1]))
  }

  /** A numeral in brackets at the start of a text is read back as its number. */
  lemma LabelOf(j: nat, rest: string)
    requires rest != [] && rest[0] == ']'
    ensures BlockLabel("[" + NatToString(j) + rest) == Some(j)
  {
    var num := NatToString(j);
    var b := "[" + num + rest;
    assert b[1..] == num + rest;
    DigitRunOfNumeral(j, rest);
    assert b[|num| + 1] == rest[0];
    assert b[1..|num| + 1] == num;
    ParseNatToString(j);
  }

  /** Every block is labelled with its hit's 1-based position. */
  lemma BlockLabelled(j: nat, h: Hit)
    ensures BlockLabel(Block(j, h)) == Some(j)
  {
    var rest := "] Fonte: " + h.url + "\nTrecho: " + Take(h.text, ExcerptCap);
    assert Block(j, h) == "[" + NatToString(j) + rest;
    LabelOf(j, rest);
  }

  /** A block ends with at most `ExcerptCap` characters taken from the start of its passage. */
  lemma BlockExcerpt(j: nat, h: Hit)
    ensures var e := Take(h.text, ExcerptCap);
            |e| <= ExcerptCap && StartsWith(h.text, e) && EndsWith(Block(j, h), e)
  {
    var e := Take(h.text, ExcerptCap);
    var b := Block(j, h);
    var front := "[" + NatToString(j) + "] Fonte: " + h.url + "\nTrecho: ";
    assert b == front + e;
    assert b[|b| - |e|..] == e;
  }

  predicate EndsWith(s: string, p: string) {
    |p| <= |s| && s[|s| - |p|..] == p
  }

  /** The context is empty exactly when there are no hits. */
  lemma ContextEmptyIff(hits: seq<Hit>)
    ensures Context(hits) == "" <==> hits == []
  {
    if hits != [] {
      JoinStartsWithFirst(Blocks(hits), "\n\n");
    }
  }

  /** `format_ctx(hits)`. */
  method FormatCtx(hits: seq<Hit>) returns (ctx: string, refs: seq<Ref>)
    ensures ctx == Context(hits)
    ensures |refs| == |hits| && forall j :: 0 <= j < |hits| ==> refs[j] == Ref(j + 1, hits[j].url)
    ensures ctx == "" <==> hits == []
  {
    var blocks: seq<string> := [];
    refs := [];
    for j := 0 to |hits|
      invariant blocks == Blocks(hits)[..j]
      invariant refs == RefsOf(hits)[..j]
    {
      blocks := blocks + [Block(j + 1, hits[j])];
      refs := refs + [Ref(j + 1, hits[j].url)];
    }
    assert blocks == Blocks(hits);
    ctx := Join(blocks, "\n\n");
    ContextEmptyIff(hits);
  }

  // ===========================================================================
  // Answer composer: generate_answer
  // ===========================================================================

  /** Questions containing any of these get the fixed refusal. */
  const SensitiveTerms: seq<string> := [
    "faturamento", "receita", "receita anual", "lucro", "prejuízo", "prejuizo",
    "valuation", "avaliacao", "avaliação", "preço de mercado", "preco de mercado",
    "quantos clientes", "quantidade de clientes", "número de clientes",
    "volume transacionado", "volume processado", "gmv", "market cap",
    "quantas transações", "quantas vendas", "metrics", "indicadores"
  ]

  const Refusal: string :=
    "Não encontrei informações suficientes nos contextos para responder com precisão. "
    + "Este assistente nunca apresenta números, estimativas, métricas financeiras ou "
    + "quantidade de clientes sem evidência direta nos trechos recuperados."

  /** The blocks of prompt rules; their wording is not modelled. */
  datatype RuleBlock = Grounding | Location | Representation | Policy

  /** The position of each block in the prompt. */
  function Rank(r: RuleBlock): nat {
    match r
    case Grounding => 0
    case Location => 1
    case Representation => 2
    case Policy => 3
  }

  const LocationTerms: seq<string> := ["país", "pais", "sede", "onde fica", "de qual país"]

  const RepresentationTerms: seq<string> := [
    "representa", "representar", "representante", "representantes",
    "eventos", "entrevista", "podcast", "painel", "uso da marca", "usar a marca"
  ]

  const PolicyTerms: seq<string> := ["regras", "regra", "diretrizes", "diretriz", "política", "politica"]

  /** A list of rule blocks that starts with the grounding rules, holds the location,
      representation and policy blocks exactly when `loc`, `rep` and `pol` hold, and lists its
      blocks in rank order. */
  predicate RulesShape(loc: bool, rep: bool, pol: bool, rules: seq<RuleBlock>) {
    && |rules| >= 1 && rules[0] == Grounding
    && (Location in rules <==> loc)
    && (Representation in rules <==> rep)
    && (Policy in rules <==> pol)
    && forall i, j :: 0 <= i < j < |rules| ==> Rank(rules[i]) < Rank(rules[j])
  }

  /** The rule blocks the prompt carries for the lowercased question `q`: the grounding rules
      first, then each situational block whose keyword class `q` mentions, in rank order. */
  predicate RulesFor(q: string, rules: seq<RuleBlock>) {
    RulesShape(ContainsAny(q, LocationTerms), ContainsAny(q, RepresentationTerms),
               ContainsAny(q, PolicyTerms), rules)
  }

  /** Appending the situational blocks that apply, in rank order, to the grounding rules gives
      the shape `RulesShape` asks for. */
  lemma AppendedBlocksShape(loc: bool, rep: bool, pol: bool)
    ensures RulesShape(loc, rep, pol, [Grounding] + (if loc then [Location] else [])
                                      + (if rep then [Representation] else [])
                                      + (if pol then [Policy] else []))
  {
  }

  lemma RankInjective(x: RuleBlock, y: RuleBlock)
    requires Rank(x) == Rank(y)
    ensures x == y
  {
  }

  /** Rank-sorted rule-block lists with the same members are equal. */
  lemma {:induction false} RanksDetermine(a: seq<RuleBlock>, b: seq<RuleBlock>)
    requires forall i, j :: 0 <= i < j < |a| ==> Rank(a[i]) < Rank(a[j])
    requires forall i, j :: 0 <= i < j < |b| ==> Rank(b[i]) < Rank(b[j])
    requires forall r :: r in a <==> r in b
    ensures a == b
    decreases |a| + |b|
  {
    assert a != [] ==> a[0] in b;
    assert b != [] ==> b[0] in a;
    if a != [] {
      var i :| 0 <= i < |b| && b[i] == a[0];
      var j :| 0 <= j < |a| && a[j] == b[0];
      assert Rank(b[0]) <= Rank(b[i]);
      assert Rank(a[0]) <= Rank(a[j]);
      RankInjective(a[0], b[0]);
      forall r
        ensures r in a[1..] <==> r in b[1..]
      {
        assert r in a[1..] <==> r in a && r != a[0];
        assert r in b[1..] <==> r in b && r != b[0];
      }
      RanksDetermine(a[1..], b[1..]);
      assert a == [a[0]] + a[1..] && b == [b[0]] + b[1..];
    }
  }

  /** Two rule-block lists that both satisfy `RulesFor` for the same question are equal. */
  lemma RulesForUnique(q: string, a: seq<RuleBlock>, b: seq<RuleBlock>)
    requires RulesFor(q, a) && RulesFor(q, b)
    ensures a == b
  {
    forall r
      ensures r in a <==> r in b
    {
      if r == Grounding {
        assert a[0] == Grounding && b[0] == Grounding;
      }
    }
    RanksDetermine(a, b);
  }

  /** The `extra_req +=` steps: the grounding rules, then the location, representation and
      policy blocks for the keyword classes the question mentions. */
  method ExtraRules(q: string) returns (rules: seq<RuleBlock>)
    ensures RulesFor(q, rules)
  {
    ghost var loc, rep, pol := ContainsAny(q, LocationTerms), ContainsAny(q, RepresentationTerms),
                               ContainsAny(q, PolicyTerms);
    rules := [Grounding];
    if ContainsAny(q, LocationTerms) {
      rules := rules + [Location];
    }
    if ContainsAny(q, RepresentationTerms) {
      rules := rules + [Representation];
    }
    if ContainsAny(q, PolicyTerms) {
      rules := rules + [Policy];
    }
    AppendedBlocksShape(loc, rep, pol);
    assert rules == [Grounding] + (if loc then [Location] else []) + (if rep then [Representation] else [])
                    + (if pol then [Policy] else []);
  }

  /** `s.styles.get(style, s.styles['default'])`. Python evaluates the default argument first,
      so a style table without "default" raises `KeyError` whatever style is asked for. */
  function StyleTemplate(styles: map<string, string>, style: string): (r: Option<string>)
    ensures r.None? <==> "default" !in styles
    ensures r.Some? ==> r.value == (if style in styles then styles[style] else styles["default"])
  {
    if "default" !in styles then None
    else if style in styles then Some(styles[style])
    else Some(styles["default"])
  }

  /** The message of the `KeyError` raised by a style table without "default". */
  const MissingDefaultStyle: string := "KeyError: 'default'"

  /** The request handed to the LLM: the style template, the rule blocks, the context, the
      question (the fixed wording around them is not modelled) and the output bound. */
  datatype Prompt = Prompt(template: string, rules: seq<RuleBlock>, context: string, question: string,
                           maxTokens: nat)

  /** How the bounded LLM call ended: the answer text, the 90-second timeout, or any other
      exception, by type name and message. */
  datatype Outcome = Ok(text: string) | Timeout | Error(name: string, message: string)

  const TimeoutMessage: string :=
    "Erro: tempo limite ao gerar resposta. Tente novamente ou peça uma resposta mais concisa."

  const PreviewHeading: string := "\n\nTrechos recuperados (prévia):\n"

  /** Characters of context shown after a timeout. */
  const PreviewCap: nat := 1500

  /** `ctx[:1500] + ("..." if len(ctx) > 1500 else "")`. */
  function Preview(ctx: string): string {
    Take(ctx, PreviewCap) + (if |ctx| > PreviewCap then "..." else "")
  }

  /** The preview is the context itself when it fits, and otherwise its first `PreviewCap`
      characters followed by "..."; it never exceeds `PreviewCap` + 3 characters. */
  lemma PreviewShape(ctx: string)
    ensures |Preview(ctx)| <= PreviewCap + 3
    ensures |ctx| <= PreviewCap ==> Preview(ctx) == ctx
    ensures |ctx| > PreviewCap ==> Preview(ctx) == ctx[..PreviewCap] + "..."
  {
  }

  /** `" ".join(f"[{i}] {u}" for i, u in refs)`. */
  function Citations(refs: seq<Ref>): string {
    Join(seq(|refs|, i requires 0 <= i < |refs| => "[" + NatToString(refs[i].index) + "] " + refs[i].url), " ")
  }

  /** The reply for a generation outcome, given the context and citations it was asked with. */
  function RenderOutcome(o: Outcome, ctx: string, refs: seq<Ref>): string {
    match o
    case Ok(text) => text + "\n\n" + "Fontes: " + Citations(refs)
    case Timeout =>
      if ctx != "" then TimeoutMessage + PreviewHeading + Preview(ctx) else TimeoutMessage
    case Error(name, message) => "Erro ao gerar resposta: " + name + ": " + message
  }

  /** On success the reply is the answer followed by the sources line; on a timeout it is the
      fixed message, followed by a preview exactly when some hit was retrieved; any other
      failure is reported in the reply rather than raised. */
  lemma RenderOutcomeShape(o: Outcome, hits: seq<Hit>)
    ensures var r := RenderOutcome(o, Context(hits), RefsOf(hits));
            o.Ok? ==> var tail := "\n\nFontes: " + Citations(RefsOf(hits));
                      StartsWith(r, o.text) && EndsWith(r, tail) && |r| == |o.text| + |tail|
    ensures var r := RenderOutcome(o, Context(hits), RefsOf(hits));
            o.Timeout? ==> StartsWith(r, TimeoutMessage) && (r == TimeoutMessage <==> hits == [])
                           && (hits != [] ==> EndsWith(r, PreviewHeading + Preview(Context(hits)))
                                              && |r| == |TimeoutMessage| + |PreviewHeading + Preview(Context(hits))|)
    ensures var r := RenderOutcome(o, Context(hits), RefsOf(hits));
            o.Error? ==> StartsWith(r, "Erro ao gerar resposta: ")
  {
    ContextEmptyIff(hits);
    match o
    case Ok(text) => RenderOkShape(text, Context(hits), RefsOf(hits));
    case Timeout => RenderTimeoutShape(Context(hits), RefsOf(hits));
    case Error(name, message) => RenderErrorShape(name, message, Context(hits), RefsOf(hits));
  }

  /** An answer is followed by its sources line. */
  lemma RenderOkShape(text: string, ctx: string, refs: seq<Ref>)
    ensures var r := RenderOutcome(Ok(text), ctx, refs);
            var tail := "\n\nFontes: " + Citations(refs);
            StartsWith(r, text) && EndsWith(r, tail) && |r| == |text| + |tail|
  {
    var r := RenderOutcome(Ok(text), ctx, refs);
    var tail := "\n\nFontes: " + Citations(refs);
    assert r == text + tail;
    assert r[..|text|] == text;
    assert r[|r| - |tail|..] == tail;
  }

  /** A timeout gives the fixed message, with a preview exactly when there is context. */
  lemma RenderTimeoutShape(ctx: string, refs: seq<Ref>)
    ensures var r := RenderOutcome(Timeout, ctx, refs);
            StartsWith(r, TimeoutMessage) && (r == TimeoutMessage <==> ctx == "")
            && (ctx != "" ==> EndsWith(r, PreviewHeading + Preview(ctx))
                              && |r| == |TimeoutMessage| + |PreviewHeading + Preview(ctx)|)
  {
    var r := RenderOutcome(Timeout, ctx, refs);
    if ctx != "" {
      assert r == TimeoutMessage + (PreviewHeading + Preview(ctx));
      assert r[..|TimeoutMessage|] == TimeoutMessage;
      assert |r| > |TimeoutMessage|;
      assert r[|TimeoutMessage|..] == PreviewHeading + Preview(ctx);
    }
  }

  /** Any other failure is reported after a fixed prefix. */
  lemma RenderErrorShape(name: string, message: string, ctx: string, refs: seq<Ref>)
    ensures StartsWith(RenderOutcome(Error(name, message), ctx, refs), "Erro ao gerar resposta: ")
  {
    var r := RenderOutcome(Error(name, message), ctx, refs);
    assert r == "Erro ao gerar resposta: " + (name + ": " + message);
  }

  /** `generate_answer(query, style)`. The reply is `Success` with its text, or `Failure` with
      the exception that escapes (a style table without "default"); `sent` is the request handed
      to the LLM, `None` when the LLM is not called. */
  method GenerateAnswer(texts: seq<string>, meta: seq<string>, styles: map<string, string>,
                        query: string, style: string, lower: string -> string,
                        vectorSearch: (string, nat) -> seq<int>,
                        lexicalTopN: (seq<string>, nat) -> seq<int>,
                        llm: Prompt -> Outcome)
    returns (answer: Result<string, string>, sent: Option<Prompt>)
    requires !ContainsAny(lower(query), SensitiveTerms) ==>
               SearchReady(texts, meta, query, DefaultK, lower, vectorSearch, lexicalTopN)
    ensures ContainsAny(lower(query), SensitiveTerms) ==> answer == Success(Refusal) && sent == None
    ensures !ContainsAny(lower(query), SensitiveTerms) && "default" !in styles ==>
              answer == Failure(MissingDefaultStyle) && sent == None
    ensures !ContainsAny(lower(query), SensitiveTerms) && "default" in styles ==>
              var hits := Ranked(texts, meta, query, DefaultK, lower, vectorSearch, lexicalTopN);
              && sent.Some?
              && sent.value.template == (if style in styles then styles[style] else styles["default"])
              && RulesFor(lower(query), sent.value.rules)
              && sent.value.context == Context(hits)
              && sent.value.question == query
              && sent.value.maxTokens == LlmMaxTokens
              && answer == Success(RenderOutcome(llm(sent.value), Context(hits), RefsOf(hits)))
  {
    var qLower := lower(query);
    if ContainsAny(qLower, SensitiveTerms) {
      return Success(Refusal), None;
    }
    var hits := Retrieve(texts, meta, query, DefaultK, lower, vectorSearch, lexicalTopN);
    var ctx, refs := FormatCtx(hits);
    assert refs == RefsOf(hits);
    var rules := ExtraRules(qLower);
    var template := StyleTemplate(styles, style);
    if template.None? {
      return Failure(MissingDefaultStyle), None;
    }
    var prompt := Prompt(template.value, rules, ctx, query, LlmMaxTokens);
    var outcome := llm(prompt);
    answer := Success(RenderOutcome(outcome, ctx, refs));
    sent := Some(prompt);
  }
}
