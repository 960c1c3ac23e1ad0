/** The catalog view-model of the `Home` page: the static track list, the
    search filter, the categories of the filtered tracks and the per-category
    sections the page renders. */
module Catalog {
  import opened Seqs
  import opened Text

  /** One catalog entry. `file` identifies the track. */
  datatype Track = Track(title: string, description: string, file: string, category: string)

  /** The catalog as seeded at build time. */
  const Tracks: seq<Track> := [
    Track("ゆったりBGM", "穏やかな気分にさせてくれる曲です。", "sample1.mp3", "リラックス"),
    Track("朝のランニング", "テンションを上げたいときに。", "sample2.mp3", "アップテンポ"),
    Track("夜のチルアウト", "睡眠前に最適。", "sample3.mp3", "リラックス"),
    Track("ドライブ", "車で聴きたい爽快な曲。", "sample4.mp3", "アップテンポ")
  ]

  /** The seeded tracks have distinct file identifiers. */
  lemma SeedFilesUnique()
    ensures forall i, j :: 0 <= i < j < |Tracks| ==> Tracks[i].file != Tracks[j].file
  {
  }

  /** The text searched: title and description joined with no separator,
      so a query may match across the boundary between them. */
  function SearchText(t: Track): (r: string)
    ensures |r| == |t.title| + |t.description|
    ensures r[..|t.title|] == t.title && r[|t.title|..] == t.description
  {
    t.title + t.description
  }

  /** The search condition: the lower-cased search text includes the
      lower-cased query, that is, the query occurs in it at some position. */
  function Matches(t: Track, search: string): (b: bool)
    ensures b <==> exists i: nat :: OccursAt(Lower(t.title + t.description), Lower(search), i)
  {
    IncludesIff(Lower(SearchText(t)), Lower(search));
    assert Includes(Lower(SearchText(t)), Lower(search)) <==>
           exists i: nat :: OccursAt(Lower(t.title + t.description), Lower(search), i);
    Includes(Lower(SearchText(t)), Lower(search))
  }

  /** `filtered`: the tracks that match the search, in catalog order. */
  function Filtered(tracks: seq<Track>, search: string): (r: seq<Track>)
    ensures |r| <= |tracks|
    ensures forall t :: t in r ==> Matches(t, search)
  {
    FilterBy(tracks, t => Matches(t, search))
  }

  /** A track is shown exactly when it is in the catalog and its lower-cased
      title+description contains the lower-cased query somewhere. */
  lemma FilteredMembership(tracks: seq<Track>, search: string, t: Track)
    ensures t in Filtered(tracks, search) <==>
              t in tracks && exists i: nat :: OccursAt(Lower(t.title + t.description), Lower(search), i)
  {
    FilterByMembership(tracks, t => Matches(t, search), t);
    IncludesIff(Lower(t.title + t.description), Lower(search));
    assert t in Filtered(tracks, search) <==> t in tracks && Matches(t, search);
    assert Matches(t, search) <==> Includes(Lower(t.title + t.description), Lower(search));
  }

  /** `filtered` is a subsequence of the catalog: nothing is added and the
      catalog's relative order is kept; a matching track is kept as often as
      it occurs, a non-matching one not at all. */
  lemma FilteredSubsequence(tracks: seq<Track>, search: string, t: Track)
    ensures IsSubsequence(Filtered(tracks, search), tracks)
    ensures multiset(Filtered(tracks, search))[t] == if Matches(t, search) then multiset(tracks)[t] else 0
  {
    var _ := FilterBySubsequence(tracks, t => Matches(t, search));
    FilterByMultiset(tracks, t => Matches(t, search), t);
  }

  /** With an empty query every track is shown, in catalog order. */
  lemma FilteredEmptySearch(tracks: seq<Track>)
    ensures Filtered(tracks, "") == tracks
  {
    forall t | t in tracks ensures Matches(t, "") {
      IncludesEmpty(Lower(SearchText(t)));
    }
    FilterByAll(tracks, t => Matches(t, ""));
  }

  /** Matching ignores the case of the query. */
  lemma MatchesIgnoresQueryCase(t: Track, search: string)
    ensures Matches(t, search) <==> Matches(t, Lower(search))
  {
    LowerIdempotent(search);
  }

  /** The query may straddle the title/description boundary: "bc" is found
      in a track titled "ab" with description "cd", though neither part
      contains it. */
  lemma MatchesAcrossBoundary()
    ensures Matches(Track("ab", "cd", "f", "c"), "bc")
    ensures !Includes(Lower("ab"), Lower("bc")) && !Includes(Lower("cd"), Lower("bc"))
  {
    var t := Track("ab", "cd", "f", "c");
    assert Lower("bc") == "bc";
    assert Lower(SearchText(t)) == "abcd";
    assert OccursAt("abcd", "bc", 1);
    IncludesIff("abcd", "bc");
    assert Lower("ab") == "ab";
    assert Lower("cd") == "cd";
    IncludesFirstChar("cd", "bc");
    IncludesIff("ab", "bc");
    forall i: nat ensures !OccursAt("ab", "bc", i) {
      if i == 0 {
        assert "ab"[0..2] == "ab";
      }
    }
  }

  // ---------------------------------------------------------------------
  // Categories and sections
  // ---------------------------------------------------------------------

  function CategoryList(ts: seq<Track>): (cs: seq<string>)
    ensures |cs| == |ts| && forall k :: 0 <= k < |ts| ==> cs[k] == ts[k].category
  {
    seq(|ts|, k requires 0 <= k < |ts| => ts[k].category)
  }

  /** `categories`: the distinct categories of the shown tracks. */
  function Categories(filtered: seq<Track>): (r: seq<string>)
    ensures |r| <= |filtered|
    ensures forall c :: c in r ==> c in CategoryList(filtered)
  {
    Distinct(CategoryList(filtered))
  }

  /** `categories` lists every category of a shown track and nothing else,
      each once, in the order the categories first occur in `filtered`. */
  lemma CategoriesSpec(filtered: seq<Track>)
    ensures NoDuplicates(Categories(filtered))
    ensures forall c :: c in Categories(filtered) <==> exists t :: t in filtered && t.category == c
    ensures forall i, j :: 0 <= i < j < |Categories(filtered)| ==>
              FirstIndex(CategoryList(filtered), Categories(filtered)[i]) <
              FirstIndex(CategoryList(filtered), Categories(filtered)[j])
  {
    var cs := CategoryList(filtered);
    DistinctNoDuplicates(cs);
    DistinctFirstSeenOrder(cs);
    forall c ensures c in Categories(filtered) <==> exists t :: t in filtered && t.category == c {
      DistinctElements(cs, c);
      if c in cs {
        var k :| 0 <= k < |cs| && cs[k] == c;
        assert filtered[k] in filtered;
      }
      if t :| t in filtered && t.category == c {
        var k :| 0 <= k < |filtered| && filtered[k] == t;
        assert cs[k] == c;
      }
    }
  }

  /** The tracks of one section: the shown tracks whose category is `cat`,
      in `filtered` order. */
  function InCategory(filtered: seq<Track>, cat: string): (r: seq<Track>)
    ensures |r| <= |filtered|
    ensures forall t :: t in r ==> t.category == cat
  {
    FilterBy(filtered, (t: Track) => t.category == cat)
  }

  /** A section of the page: a category heading and its tracks. */
  datatype Section = Section(category: string, tracks: seq<Track>)

  /** One section per entry of `categories`, in that order. */
  function Sections(filtered: seq<Track>): (r: seq<Section>)
    ensures |r| == |Categories(filtered)|
    ensures forall k :: 0 <= k < |r| ==> r[k].category == Categories(filtered)[k]
  {
    var cs := Categories(filtered);
    seq(|cs|, k requires 0 <= k < |cs| => Section(cs[k], InCategory(filtered, cs[k])))
  }

  /** The tracks of every section, one section after another. */
  function Flatten(ss: seq<Section>): seq<Track>
  {
    if ss == [] then [] else ss[0].tracks + Flatten(ss[1..])
  }

  /** Each section lists, in `filtered` order, exactly the shown tracks of
      its own category. */
  lemma SectionContents(filtered: seq<Track>, k: nat, t: Track)
    requires k < |Sections(filtered)|
    ensures IsSubsequence(Sections(filtered)[k].tracks, filtered)
    ensures t in Sections(filtered)[k].tracks <==> t in filtered && t.category == Sections(filtered)[k].category
  {
    var cat := Sections(filtered)[k].category;
    var _ := FilterBySubsequence(filtered, (t: Track) => t.category == cat);
    FilterByMembership(filtered, (t: Track) => t.category == cat, t);
  }

  /** Each shown track appears in exactly one section, the one for its
      own category. */
  lemma SectionOfTrack(filtered: seq<Track>, t: Track) returns (k: nat)
    requires t in filtered
    ensures k < |Sections(filtered)| && Sections(filtered)[k].category == t.category
    ensures t in Sections(filtered)[k].tracks
    ensures forall j :: 0 <= j < |Sections(filtered)| && t in Sections(filtered)[j].tracks ==> j == k
  {
    var ss := Sections(filtered);
    var cs := Categories(filtered);
    CategoriesSpec(filtered);
    assert t.category in cs;
    k :| 0 <= k < |cs| && cs[k] == t.category;
    SectionContents(filtered, k, t);
    forall j | 0 <= j < |ss| && t in ss[j].tracks ensures j == k {
      SectionContents(filtered, j, t);
    }
  }

  /** The shown tracks whose category is one of `cats`. */
  function InCategories(filtered: seq<Track>, cats: set<string>): seq<Track>
  {
    FilterBy(filtered, (t: Track) => t.category in cats)
  }

  /** Splitting off one category from a set of categories splits the
      selected tracks accordingly, counted with multiplicity. */
  lemma InCategoriesSplit(filtered: seq<Track>, c: string, cats: set<string>)
    requires c !in cats
    ensures multiset(InCategories(filtered, {c} + cats)) ==
              multiset(InCategory(filtered, c)) + multiset(InCategories(filtered, cats))
  {
    var all := multiset(InCategories(filtered, {c} + cats));
    var one := multiset(InCategory(filtered, c));
    var some := multiset(InCategories(filtered, cats));
    forall y: Track ensures all[y] == one[y] + some[y] {
      FilterByMultiset(filtered, (t: Track) => t.category in {c} + cats, y);
      FilterByMultiset(filtered, (t: Track) => t.category == c, y);
      FilterByMultiset(filtered, (t: Track) => t.category in cats, y);
    }
  }

  function SectionsFor(filtered: seq<Track>, cs: seq<string>): (r: seq<Section>)
    ensures |r| == |cs|
  {
    if cs == [] then [] else [Section(cs[0], InCategory(filtered, cs[0]))] + SectionsFor(filtered, cs[1..])
  }

  /** The set of elements of a list of categories. */
  function CategorySet(cs: seq<string>): (r: set<string>)
    ensures forall c :: c in r <==> c in cs
  {
    set c | c in cs
  }

  /** Laying out the sections for a duplicate-free list of categories shows
      exactly the tracks of those categories, counted with multiplicity. */
  lemma {:induction false} SectionsForPartition(filtered: seq<Track>, cs: seq<string>)
    requires NoDuplicates(cs)
    ensures multiset(Flatten(SectionsFor(filtered, cs))) == multiset(InCategories(filtered, CategorySet(cs)))
  {
    if cs == [] {
      assert CategorySet(cs) == {};
      NoCategoriesNoTracks(filtered);
    } else {
      var rest := cs[1..];
      NoDuplicatesTail(cs);
      SectionsForPartition(filtered, rest);
      assert CategorySet(cs) == {cs[0]} + CategorySet(rest) by {
        assert cs == [cs[0]] + rest;
      }
      InCategoriesSplit(filtered, cs[0], CategorySet(rest));
      var head := InCategory(filtered, cs[0]);
      var tail := Flatten(SectionsFor(filtered, rest));
      assert Flatten(SectionsFor(filtered, cs)) == head + tail by {
        assert SectionsFor(filtered, cs)[1..] == SectionsFor(filtered, rest);
      }
      assert multiset(head + tail) == multiset(head) + multiset(tail);
    }
  }

  /** With no categories, no track is selected. */
  lemma {:induction false} NoCategoriesNoTracks(filtered: seq<Track>)
    ensures InCategories(filtered, {}) == []
  {
    if filtered != [] {
      NoCategoriesNoTracks(filtered[1..]);
    }
  }

  lemma SectionsAreSectionsFor(filtered: seq<Track>)
    ensures Sections(filtered) == SectionsFor(filtered, Categories(filtered))
  {
    var cs := Categories(filtered);
    var a := Sections(filtered);
    var b := SectionsFor(filtered, cs);
    forall k | 0 <= k < |cs| ensures a[k] == b[k] {
      SectionsForAt(filtered, cs, k);
    }
  }

  lemma {:induction false} SectionsForAt(filtered: seq<Track>, cs: seq<string>, k: nat)
    requires k < |cs|
    ensures SectionsFor(filtered, cs)[k] == Section(cs[k], InCategory(filtered, cs[k]))
  {
    if k > 0 {
      SectionsForAt(filtered, cs[1..], k - 1);
    }
  }

  /** The sections partition `filtered`: taken together they show every
      shown track exactly as often as `filtered` holds it, and nothing else. */
  lemma SectionsPartition(filtered: seq<Track>)
    ensures multiset(Flatten(Sections(filtered))) == multiset(filtered)
  {
    var cs := Categories(filtered);
    CategoriesSpec(filtered);
    SectionsAreSectionsFor(filtered);
    SectionsForPartition(filtered, cs);
    FilterByAll(filtered, (t: Track) => t.category in CategorySet(cs));
  }
}
