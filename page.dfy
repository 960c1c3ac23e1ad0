/** What the page derives for each shown track: its card, with the audio
    source, the download link, the download count on the link, and the file
    the link's click handler records. */
module Page {
  import opened Catalog
  import opened Downloads

  const AssetPrefix: string := "/bgm/"

  /** The path under which the static asset server serves a track's file;
      the audio player and the download link both use it. */
  function AssetPath(file: string): (r: string)
    ensures |r| == |AssetPrefix| + |file|
    ensures AssetPrefix <= r && r[|AssetPrefix|..] == file
  {
    AssetPrefix + file
  }

  datatype Option<T> = None | Some(value: T)

  /** The file an asset path names, if it is an asset path at all. */
  function FileOfAssetPath(path: string): Option<string>
  {
    if AssetPrefix <= path then Some(path[|AssetPrefix|..]) else None
  }

  /** An asset path names exactly the file it was built from, so distinct
      files never share a path. */
  lemma AssetPathRoundTrip(file: string)
    ensures FileOfAssetPath(AssetPath(file)) == Some(file)
  {
    assert AssetPath(file)[..|AssetPrefix|] == AssetPrefix;
    assert AssetPath(file)[|AssetPrefix|..] == file;
  }

  lemma AssetPathInjective(a: string, b: string)
    requires AssetPath(a) == AssetPath(b)
    ensures a == b
  {
    AssetPathRoundTrip(a);
    AssetPathRoundTrip(b);
  }

  /** Every path that names a file is that file's asset path. */
  lemma FileOfAssetPathSound(path: string)
    requires FileOfAssetPath(path).Some?
    ensures AssetPath(FileOfAssetPath(path).value) == path
  {
    assert path == path[..|AssetPrefix|] + path[|AssetPrefix|..];
  }

  /** One track's card. */
  datatype Card = Card(
    title: string,
    description: string,
    audioSrc: string,
    downloadHref: string,
    downloadCount: nat,
    clickRecords: string)

  /** A track's card shows the track's title and description, plays and
      downloads the track's file from its asset path, shows the file's count
      (0 when it has none) and records that file when clicked. */
  function CardOf(t: Track, counts: Counts): (c: Card)
    ensures c.title == t.title && c.description == t.description
    ensures c.audioSrc == c.downloadHref
    ensures FileOfAssetPath(c.audioSrc) == Some(t.file)
    ensures c.downloadCount == (if t.file in counts then counts[t.file] else 0)
    ensures c.clickRecords == t.file
  {
    AssetPathRoundTrip(t.file);
    Card(t.title, t.description, AssetPath(t.file), AssetPath(t.file), Count(counts, t.file), t.file)
  }

  datatype SectionView = SectionView(heading: string, cards: seq<Card>)

  function Cards(ts: seq<Track>, counts: Counts): (cs: seq<Card>)
    ensures |cs| == |ts|
    ensures forall k :: 0 <= k < |ts| ==>
              cs[k].title == ts[k].title && cs[k].clickRecords == ts[k].file &&
              cs[k].downloadCount == Count(counts, ts[k].file)
  {
    seq(|ts|, k requires 0 <= k < |ts| => CardOf(ts[k], counts))
  }

  /** The page: one section per category of the shown tracks, each holding
      the cards of that category's shown tracks. */
  function Render(tracks: seq<Track>, search: string, counts: Counts): (r: seq<SectionView>)
    ensures |r| == |Categories(Filtered(tracks, search))|
    ensures forall k :: 0 <= k < |r| ==>
              r[k].heading == Categories(Filtered(tracks, search))[k] &&
              |r[k].cards| == |InCategory(Filtered(tracks, search), r[k].heading)|
  {
    var ss := Sections(Filtered(tracks, search));
    seq(|ss|, k requires 0 <= k < |ss| => SectionView(ss[k].category, Cards(ss[k].tracks, counts)))
  }

  /** Every card of the page shows the track in that place of its section:
      the audio source and the download link are both that track's asset
      path, the count is its stored count or 0, and clicking records its
      file. */
  lemma RenderCard(tracks: seq<Track>, search: string, counts: Counts, k: nat, j: nat)
    requires k < |Render(tracks, search, counts)|
    requires j < |Render(tracks, search, counts)[k].cards|
    ensures var ss := Sections(Filtered(tracks, search));
            var t := ss[k].tracks[j];
            var c := Render(tracks, search, counts)[k].cards[j];
            && Render(tracks, search, counts)[k].heading == ss[k].category == t.category
            && c.title == t.title && c.description == t.description
            && c.audioSrc == c.downloadHref
            && FileOfAssetPath(c.audioSrc) == Some(t.file)
            && c.clickRecords == t.file
            && c.downloadCount == (if t.file in counts then counts[t.file] else 0)
  {
    var filtered := Filtered(tracks, search);
    var ss := Sections(filtered);
    var t := ss[k].tracks[j];
    SectionContents(filtered, k, t);
    AssetPathRoundTrip(t.file);
  }

  /** Clicking the download link of a card raises the count on every card
      of the same file by one and leaves every other card as it was. */
  lemma ClickUpdatesPage(tracks: seq<Track>, search: string, counts: Counts, k: nat, j: nat, k': nat, j': nat)
    requires k < |Render(tracks, search, counts)| && j < |Render(tracks, search, counts)[k].cards|
    requires k' < |Render(tracks, search, counts)| && j' < |Render(tracks, search, counts)[k'].cards|
    ensures var before := Render(tracks, search, counts);
            var after := Render(tracks, search, RecordDownload(counts, before[k].cards[j].clickRecords));
            var c := before[k'].cards[j'];
            after[k'].cards[j'] ==
              c.(downloadCount := c.downloadCount + if c.clickRecords == before[k].cards[j].clickRecords then 1 else 0)
  {
    var before := Render(tracks, search, counts);
    var file := before[k].cards[j].clickRecords;
    var c := before[k'].cards[j'];
    if c.clickRecords != file {
      RecordDownloadOthers(counts, file, c.clickRecords);
    }
  }
}
