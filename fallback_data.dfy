/** fallback_data.py: five fixed sample articles, processed into the stored shape with
  * ids made by the store's formula and one shared timestamp. */
module FallbackData {
  import opened Wrappers
  import Database

  /** A sample article before processing. */
  datatype Seed = Seed(title: string, content: string, sourceName: string, sourceUrl: string,
                       imageUrl: string)

  const ElderScrollsContent :=
    "Bethesda has shared a rare update on The Elder Scrolls 6, confirming that the game is still in pre-production while the team focuses on completing Starfield and its expansions. Todd Howard mentioned that they have a clear vision for the game and are excited to share more details in the future. The Elder Scrolls 6 was first announced in 2018 with a brief teaser trailer showing a mountainous landscape."
  const PlayStation6Content :=
    "According to industry insiders, Sony is targeting a 2028 release window for the PlayStation 6. Internal documents suggest that the company is already working on the hardware specifications, with a focus on advanced AI capabilities and fully immersive VR integration. This timeline would give the PS5 a lifecycle of approximately 8 years, similar to the PS4. Sony has not officially commented on these reports."
  const Switch2Content :=
    "An anonymous developer working on a launch title for the Nintendo Switch 2 has leaked several key features of the upcoming console. According to the leak, the Switch 2 will support 4K output when docked, feature improved Joy-Con controllers with better drift resistance, and include backward compatibility with original Switch games. The battery life is said to be significantly improved, offering 5-7 hours of gameplay on demanding titles. Nintendo has not confirmed these details and typically does not comment on rumors or speculation."
  const Gta6Content :=
    "Take-Two Interactive's latest financial report suggests that Grand Theft Auto 6 might be delayed until early 2026. While not explicitly stating a delay, the company has adjusted its long-term financial projections in a way that analysts interpret as indicating a shift in the release window. Rockstar Games has not made any official announcement regarding a delay from the previously announced 2025 target. The highly anticipated title has been in development for several years and is expected to return to Vice City with the series' first female protagonist."
  const BlackOps6Content :=
    "Activision has revealed extensive details about the Zombies mode in the upcoming Call of Duty: Black Ops 6. The mode will feature a new storyline separate from the Dark Aether saga, with a focus on more open-world elements and RPG progression systems. Players can expect four maps at launch, with a mix of traditional round-based experiences and larger objective-based missions. The developer has also promised improved server stability and cross-play features for all platforms."

  /** The sample articles, in source order. */
  const Seeds: seq<Seed> := [
    Seed("The Elder Scrolls 6 Development Update", ElderScrollsContent, "IGN",
      "https://www.ign.com/articles/elder-scrolls-6-development-update",
      "https://assets-prd.ignimgs.com/2022/06/13/elder-scrolls-6-button-1655161203683.jpg"),
    Seed("PlayStation 6 Reportedly Targeting 2028 Release Window", PlayStation6Content, "GameSpot",
      "https://www.gamespot.com/articles/playstation-6-reportedly-targeting-2028-release-window/1100-6510001/",
      "https://www.gamespot.com/a/uploads/screen_kubrick/1179/11799911/4212246-screenshot2023-07-26at11.47.57am.png"),
    Seed("Nintendo Switch 2 Features Leaked by Developer", Switch2Content, "Eurogamer",
      "https://www.eurogamer.net/nintendo-switch-2-features-leaked-by-developer",
      "https://assetsio.reedpopcdn.com/switch-pro.jpg?width=1200&height=1200&fit=crop&quality=100&format=png&enable=upscale&auto=webp"),
    Seed("GTA 6 Release Date Potentially Delayed to 2026", Gta6Content, "PC Gamer",
      "https://www.pcgamer.com/gta-6-release-date-potentially-delayed-to-2026/",
      "https://cdn.mos.cms.futurecdn.net/yS8AdDpYKGPQHkDVmNPQ6P-970-80.jpg"),
    Seed("Call of Duty: Black Ops 6 Zombies Mode Detailed", BlackOps6Content, "GameRant",
      "https://gamerant.com/call-of-duty-black-ops-6-zombies-mode-detailed/",
      "https://static0.gamerantimages.com/wordpress/wp-content/uploads/2023/02/call-of-duty-black-ops-cold-war-zombies-mode-key-art.jpg")
  ]

  /** The dictionary get_fallback_articles builds from a sample article. */
  function Process(s: Seed, md5: string -> string, now: string): Database.Exported
  {
    Database.Exported(md5(s.title + s.sourceUrl), s.title, s.content, s.sourceName, s.sourceUrl,
                      s.imageUrl, "", now)
  }

  /** The dictionary handed to the store's add_article, read key by key. */
  function AsInput(e: Database.Exported): Database.Input
  {
    Database.Input(e.title, "", e.content, e.sourceName, e.sourceUrl, "", e.imageUrl,
                   e.localImagePath, None)
  }

  /** get_fallback_articles. `md5` is the hash, `now` the single clock reading. */
  method GetFallbackArticles(md5: string -> string, now: string) returns (out: seq<Database.Exported>)
    ensures |out| == |Seeds| == 5
    ensures forall i :: 0 <= i < |out| ==>
      && out[i].id == Database.ArticleId(md5, AsInput(out[i]))
      && out[i].title == Seeds[i].title && out[i].content == Seeds[i].content
      && out[i].sourceName == Seeds[i].sourceName && out[i].sourceUrl == Seeds[i].sourceUrl
      && out[i].imageUrl == Seeds[i].imageUrl
      && out[i].localImagePath == "" && out[i].scrapeTimestamp == now
  {
    out := [];
    for i := 0 to |Seeds|
      invariant |out| == i
      invariant forall k :: 0 <= k < i ==> out[k] == Process(Seeds[k], md5, now)
    {
      out := out + [Process(Seeds[i], md5, now)];
    }
  }

  /** save_fallback_data: the document written, and the count returned. `timestamp` is
    * the clock reading for the document, taken after the articles' own. */
  method SaveFallbackData(md5: string -> string, now: string, timestamp: string)
    returns (count: nat, file: Database.ExportFile)
    ensures count == file.articleCount == |file.articles| == 5
    ensures file.scrapeTimestamp == timestamp
    ensures forall i :: 0 <= i < count ==> file.articles[i] == Process(Seeds[i], md5, now)
  {
    var articles := GetFallbackArticles(md5, now);
    count := |articles|;
    file := Database.ExportFile(timestamp, count, articles);
  }

  /** The five source URLs are pairwise distinct, and so are the five titles. */
  lemma SeedsDistinct()
    ensures forall i, j :: 0 <= i < j < |Seeds| ==>
      Seeds[i].sourceUrl != Seeds[j].sourceUrl && Seeds[i].title != Seeds[j].title
  {
  }

  /** The processed sample articles as dictionaries for the store. */
  function SeedInputs(md5: string -> string, now: string): (r: seq<Database.Input>)
    ensures |r| == |Seeds|
    ensures forall i :: 0 <= i < |Seeds| ==> r[i] == AsInput(Process(Seeds[i], md5, now))
  {
    seq(|Seeds|, i requires 0 <= i < |Seeds| => AsInput(Process(Seeds[i], md5, now)))
  }

  /** All five sample articles go into an empty store, as long as MD5 gives their five
    * distinct title-and-URL texts five distinct digests. */
  lemma SeedsFillEmptyStore(md5: string -> string, now: string, clock: nat -> string,
                            files: map<string, string>)
    requires forall i, j :: 0 <= i < j < |Seeds| ==>
      md5(Seeds[i].title + Seeds[i].sourceUrl) != md5(Seeds[j].title + Seeds[j].sourceUrl)
    ensures Database.AddAll([], md5, SeedInputs(md5, now), clock, files, 0).added == 5
  {
    SeedsDistinct();
    Database.FreshBatchAllAdded(md5, SeedInputs(md5, now), clock, files);
  }
}
