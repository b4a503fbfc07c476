/**
 * The embedded seed corpus (app/seed_dataset.py): four canonical passages that are always
 * present in the store. Only their URLs matter to the model; each text stands for its passage by
 * the first word of the passage's heading.
 */
module SeedDataset {

  datatype SeedDoc = SeedDoc(url: string, text: string)

  /** The company site every seed URL belongs to. */
  const Site: string := "https://www.cloudwalk.io/"

  const MissionUrl: string := Site + "#our-mission"
  const PillarsUrl: string := Site + "#our-pillars"
  const FactsUrl: string := Site + "#facts"
  const EthicsUrl: string := Site + "code-of-ethics-and-conduct"

  /** `SEED_DOCS`, in file order. */
  const SeedDocs: seq<SeedDoc> := [
    SeedDoc(MissionUrl, "Missão"),
    SeedDoc(PillarsUrl, "Pilares"),
    SeedDoc(FactsUrl, "Fatos"),
    SeedDoc(EthicsUrl, "Código")
  ]

  /** `[doc["text"] for doc in SEED_DOCS]`. */
  function SeedTexts(): (ts: seq<string>)
    ensures |ts| == |SeedDocs| && forall i :: 0 <= i < |ts| ==> ts[i] == SeedDocs[i].text
  {
    seq(|SeedDocs|, i requires 0 <= i < |SeedDocs| => SeedDocs[i].text)
  }

  /** `[doc["url"] for doc in SEED_DOCS]`. */
  function SeedUrls(): (us: seq<string>)
    ensures |us| == |SeedDocs| && forall i :: 0 <= i < |us| ==> us[i] == SeedDocs[i].url
  {
    seq(|SeedDocs|, i requires 0 <= i < |SeedDocs| => SeedDocs[i].url)
  }

  /** No two seed documents share a URL. */
  lemma SeedUrlsDistinct()
    ensures forall i, j :: 0 <= i < j < |SeedDocs| ==> SeedDocs[i].url != SeedDocs[j].url
  {
    assert |MissionUrl| == |PillarsUrl| == 37 && |FactsUrl| == 31 && |EthicsUrl| == 51;
    assert MissionUrl[30] == 'm' && PillarsUrl[30] == 'p';
  }
}
