# music-dl catalog view-model in Dafny

music-dl is a one-page site for browsing and downloading music samples. Its
`Home` page holds a static catalog of four tracks. Each track has a title, a
description, a file name and a category. From the catalog the page derives:

- **the search filter**: the tracks whose lower-cased title followed by the
  description contains the lower-cased query. Catalog order is kept.
- **the categories**: the distinct categories of the shown tracks, in order of
  first occurrence (a JavaScript Set turned back into an array).
- **one section per category**: the shown tracks of that category, in order.
- **a card per shown track**: the audio source and the download link are both
  `/bgm/<file>`, and the link shows the file's download count, or 0 when the
  file has no entry.
- **the download counter**: a record from file name to count. Each click on a
  download link replaces the record with an updated copy, where the clicked
  file's count goes up by one.

The model is written in a functional style, because the page computes these
values as expressions over immutable data:

- `seqs.dfy` (module `Seqs`): an order-preserving filter and the
  distinct-in-first-seen-order construction.
- `text.dfy` (module `Text`): lower-casing as a per-character map, and
  `includes` together with its substring characterisation.
- `catalog.dfy` (module `Catalog`): `Track`, the seeded catalog, the search
  filter, the categories and the sections.
- `downloads.dfy` (module `Downloads`): the count update. A sequence of clicks
  is modelled as a left fold (`Replay`) of that update.
- `page.dfy` (module `Page`): asset paths, cards, the whole rendered page, and
  what one click changes on it.
- `scenarios.dfy` (module `Scenarios`): the seeded catalog under the empty
  query and under the query "ドライブ".

What `pages/index.tsx` does not contain is not modelled either: it has no
favorites, no "only favorites" gate, no social sharing and no persisted
theme, and it calls `JSON.parse` on the saved counts without a guard, so a
corrupt saved value is not replaced by defaults.

## Model

| member | source | states |
|---|---|---|
| Catalog.SeedFilesUnique | pages/index.tsx:30-55 | the four seeded tracks have pairwise distinct file names |
| Text.LowerChar | pages/index.tsx:85 | the lower case of a character is never an ASCII capital; a character changes only when it is a capital A-Z, and then it moves 32 code points to its small letter |
| Text.Lower | pages/index.tsx:85 | lower-casing keeps the length and maps every character through the same per-character function |
| Text.LowerIdempotent | pages/index.tsx:85 | lower-casing a lower-cased string changes nothing |
| Text.LowerConcat | pages/index.tsx:85 | lower-casing title+description is the same as joining the lower-cased parts |
| Text.Includes | pages/index.tsx:85 | a string includes every prefix of itself, and never a query longer than itself (the full characterisation is `Text.IncludesIff`) |
| Text.IncludesIff | pages/index.tsx:85 | `includes` holds if and only if the query occurs as a contiguous substring at some position |
| Text.IncludesEmpty | pages/index.tsx:85 | every string includes the empty query |
| Seqs.FilterBy | pages/index.tsx:84-86 | the filter result is no longer than its input and every element it keeps satisfies the predicate (membership, multiplicity and order are `Seqs.FilterByMembership`, `Seqs.FilterByMultiset`, `Seqs.FilterBySubsequence`) |
| Seqs.FilterByMembership | pages/index.tsx:84-86 | an element is kept by the filter if and only if it is in the input and satisfies the predicate |
| Seqs.FilterByMultiset | pages/index.tsx:84-86 | a satisfying element is kept exactly as often as it occurs; a failing element is dropped |
| Seqs.FilterBySubsequence | pages/index.tsx:84-86 | the filter result embeds in the input at strictly increasing positions, so input order is kept |
| Seqs.FilterByAll | pages/index.tsx:84-86 | when the predicate holds for every element, the filter returns its input unchanged |
| Seqs.Distinct | pages/index.tsx:87 | the distinct elements are never more than the input and are all taken from it (exactness, no duplicates and first-seen order are the three lemmas below) |
| Seqs.DistinctElements | pages/index.tsx:87 | the distinct elements in first-seen order are exactly the elements of the input |
| Seqs.DistinctNoDuplicates | pages/index.tsx:87 | the distinct elements in first-seen order contain no element twice |
| Seqs.DistinctFirstSeenOrder | pages/index.tsx:87 | the distinct elements are listed in strictly increasing order of their first index in `xs` |
| Catalog.SearchText | pages/index.tsx:85 | the searched text is the title immediately followed by the description, with no separator |
| Catalog.Matches | pages/index.tsx:85 | a track matches if and only if lower(search) occurs at some position of lower(title ++ description) |
| Catalog.Filtered | pages/index.tsx:84-86 | `filtered` is no longer than the catalog and every track in it matches the query (the converse is `Catalog.FilteredMembership`) |
| Catalog.FilteredMembership | pages/index.tsx:84-86 | a track is in `filtered` if and only if it is in the catalog and lower(title ++ description) contains lower(search) at some position |
| Catalog.FilteredSubsequence | pages/index.tsx:84-86 | `filtered` is a subsequence of the catalog, and each matching track keeps its multiplicity while a non-matching track is dropped |
| Catalog.FilteredEmptySearch | pages/index.tsx:85 | with the empty query, `filtered` equals the whole catalog |
| Catalog.MatchesIgnoresQueryCase | pages/index.tsx:85 | the query and its lower-cased form match the same tracks |
| Catalog.MatchesAcrossBoundary | pages/index.tsx:85 | no separator joins title and description: "bc" matches title "ab" with description "cd", although neither part contains it |
| Catalog.Categories | pages/index.tsx:87 | `categories` is no longer than `filtered` and holds only categories of shown tracks (exactness, no duplicates, order: `Catalog.CategoriesSpec`) |
| Catalog.InCategory | pages/index.tsx:136-137 | a section's tracks are no more than the shown tracks and all have the section's category (exactness and order: `Catalog.SectionContents`) |
| Catalog.CategoriesSpec | pages/index.tsx:87 | `categories` has no duplicates; it holds exactly the categories of shown tracks; it lists them in order of first occurrence in `filtered` |
| Catalog.Sections | pages/index.tsx:132-137 | there is one section per category, and section k has heading `categories[k]` |
| Catalog.SectionContents | pages/index.tsx:136-137 | each section is a subsequence of `filtered` holding exactly the shown tracks of its category |
| Catalog.SectionOfTrack | pages/index.tsx:132-137 | every shown track appears in exactly one section, the one for its own category |
| Catalog.SectionsPartition | pages/index.tsx:132-137 | all sections together contain exactly the multiset of `filtered` |
| Downloads.Count | pages/index.tsx:158 | the count shown is the stored value when the file has an entry and 0 otherwise, and is never negative |
| Downloads.RecordDownload | pages/index.tsx:91 | after a click, the clicked file's count is its previous count (0 when absent) plus one; the key set gains only that file; every other entry is unchanged |
| Downloads.RecordDownloadOthers | pages/index.tsx:91 | a click leaves the shown count of every other file unchanged |
| Downloads.Replay | pages/index.tsx:90-92 | a sequence of clicks never removes an entry and never lowers a shown count (exact counts and keys: `Downloads.ReplayCount`, `Downloads.ReplayKeys`) |
| Downloads.ReplayAppend | pages/index.tsx:90-92 | replaying two click sequences one after the other is the same as replaying their concatenation |
| Downloads.ReplayCount | pages/index.tsx:90-92 | after any click sequence, a file's count is its initial count plus the number of clicks on it |
| Downloads.ReplayKeys | pages/index.tsx:90-92 | after replay, the files with an entry are the initial ones plus every file clicked |
| Downloads.ReplaySameFile | pages/index.tsx:63 | from the empty record, n clicks on a file give it count n |
| Downloads.ReplayOtherFiles | pages/index.tsx:91 | clicks on other files never change a file's count |
| Downloads.ReplayOrderIrrelevant | pages/index.tsx:91 | two click sequences with the same multiset of files give the same record |
| Page.AssetPath | pages/index.tsx:150-153 | a track's asset path is `/bgm/` followed by exactly its file name (the inverse is `Page.FileOfAssetPath`, `Page.AssetPathRoundTrip`) |
| Page.AssetPathRoundTrip | pages/index.tsx:150 | the file named by `/bgm/<file>` is `file` |
| Page.AssetPathInjective | pages/index.tsx:153 | distinct files have distinct asset paths |
| Page.FileOfAssetPathSound | pages/index.tsx:150 | every path that names a file is exactly that file's asset path |
| Page.CardOf | pages/index.tsx:143-158 | a card shows its track's title and description; its audio source equals its download link, which names the track's file; it shows the stored count or 0; its click records the track's file |
| Page.Cards | pages/index.tsx:138-158 | there is one card per track of a section, in order, each with that track's title, file and count |
| Page.Render | pages/index.tsx:132-159 | the page has one section per category, headed by `categories[k]`, with as many cards as that category has shown tracks |
| Page.RenderCard | pages/index.tsx:132-159 | each card sits under its track's category heading; it shows its track's title and description; its audio source equals its download link; that path names the track's file; its click records that file; it shows the stored count or 0 |
| Page.ClickUpdatesPage | pages/index.tsx:155-158 | clicking a card's link adds one to the count on every card of the same file and leaves everything else on the page unchanged |
| Scenarios.SeedCategories | pages/index.tsx:30-55 | the seeded tracks' categories, in first-seen order, are リラックス then アップテンポ |
| Scenarios.SeedEmptySearch | pages/index.tsx:30-87 | with the empty query all four seeded tracks are shown, under the categories リラックス then アップテンポ |
| Scenarios.SeedSearchDrive | pages/index.tsx:30-86 | the query "ドライブ" shows exactly the track of sample4.mp3 |

## Left out

- Text.LowerChar: only the ASCII letters A-Z are lower-cased. The rest of JavaScript's Unicode case mapping is not modelled, including mappings that change the length of a string (such as U+0130). Text.LowerIdempotent, Text.LowerNoCapitals, Catalog.MatchesIgnoresQueryCase, Catalog.MatchesAcrossBoundary and the Scenarios lemmas rely on this ASCII map.
- Text.LowerConcat: JavaScript's lower-casing is not a per-character map everywhere. Context-dependent mappings, such as Greek capital sigma becoming final sigma at the end of a word, are not modelled, and for them lower-casing title and description separately can differ from lower-casing their concatenation.
- JavaScript strings are sequences of UTF-16 code units. Dafny's `string` here is a sequence of Unicode characters, so characters outside the Basic Multilingual Plane are treated as one unit.
- Downloads.RecordDownload: counts are unbounded natural numbers. JavaScript numbers lose precision above 2^53, and a saved record could hold values that are not natural numbers (negative or fractional numbers, or no number at all), which the page would display. Neither is modelled.
- Downloads.RecordDownload: the record is a plain JavaScript object, so a file name such as "constructor" reads an inherited property instead of a missing entry, and the update would not add one to 0. The model's map has no inherited keys. This is not modelled because the click handler (pages/index.tsx:155) only ever receives the file names of the seeded tracks, sample1.mp3 to sample4.mp3.
- Loading the counts from `localStorage`, writing them back, and `JSON.parse`/`JSON.stringify` (pages/index.tsx:65-74) are browser storage and a serialisation library. They are left out, including the uncaught exception on a corrupt saved value.
- React state and effect scheduling is left out. The sequence of clicks is modelled as a left fold of the updater that `setDownloadCounts` receives.
- The dark-mode flag and the `dark` class on the root element (pages/index.tsx:76-81, 116) are a DOM side effect.
- JSX markup, styling, `Head`, `Image` and the font setup (pages/index.tsx:10-18, 97-173) are presentation. Only the values the cards show are modelled.
- The search box's `onChange` (pages/index.tsx:124-130) only replaces the query. Every lemma about the filter holds for an arbitrary query.
