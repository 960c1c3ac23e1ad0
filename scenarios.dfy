/** The seeded catalog under two searches: the empty query and the query
    "ドライブ". */
module Scenarios {
  import opened Seqs
  import opened Text
  import opened Catalog

  /** A query that starts with a character other than a lower-case ASCII
      letter, and that character never occurs in the track's text, does not
      match. */
  lemma NoMatchWithoutFirstChar(t: Track, search: string)
    requires search != [] && !('a' <= Lower(search)[0] <= 'z')
    requires Lower(search)[0] !in SearchText(t)
    ensures !Matches(t, search)
  {
    IncludesFirstChar(Lower(SearchText(t)), Lower(search));
  }

  /** The seeded tracks' categories, listed once each in order of first
      occurrence. */
  lemma SeedCategories()
    ensures Categories(Tracks) == ["リラックス", "アップテンポ"]
  {
    var cs := CategoryList(Tracks);
    assert cs == ["リラックス", "アップテンポ", "リラックス", "アップテンポ"];
    assert cs[..3][..2] == cs[..2];
    assert cs[..2][..1] == cs[..1];
    assert cs[..1][..0] == [];
    assert Distinct(cs[..1]) == ["リラックス"];
    assert Distinct(cs[..2]) == ["リラックス", "アップテンポ"];
    assert Distinct(cs[..3]) == ["リラックス", "アップテンポ"];
  }

  /** With the empty query all four seeded tracks are shown, under the
      categories リラックス and then アップテンポ. */
  lemma SeedEmptySearch()
    ensures Filtered(Tracks, "") == Tracks
    ensures Categories(Filtered(Tracks, "")) == ["リラックス", "アップテンポ"]
  {
    FilteredEmptySearch(Tracks);
    SeedCategories();
  }

  /** The query is its own lower case. */
  lemma DriveQueryLower()
    ensures Lower("ドライブ") == "ドライブ"
  {
    LowerNoCapitals("ドライブ");
  }

  /** The character ド occurs in none of the first three seeded tracks. */
  lemma SeedNoDo(k: nat)
    requires k < 3
    ensures 'ド' !in SearchText(Tracks[k])
  {
    if k == 0 {
      assert 'ド' !in Tracks[0].title + Tracks[0].description;
    } else if k == 1 {
      assert 'ド' !in Tracks[1].title + Tracks[1].description;
    } else {
      assert 'ド' !in Tracks[2].title + Tracks[2].description;
    }
  }

  /** None of the first three seeded tracks contains "ドライブ". */
  lemma SeedDriveMismatch(k: nat)
    requires k < 3
    ensures !Matches(Tracks[k], "ドライブ")
  {
    DriveQueryLower();
    SeedNoDo(k);
    NoMatchWithoutFirstChar(Tracks[k], "ドライブ");
  }

  /** The fourth seeded track's title is "ドライブ". */
  lemma SeedDriveMatch()
    ensures Matches(Tracks[3], "ドライブ")
  {
    DriveQueryLower();
    var s3 := SearchText(Tracks[3]);
    LowerNoCapitals(s3);
    assert "ドライブ" <= s3;
  }

  /** Filtering four elements of which only the last satisfies `p`. */
  lemma FilterOnlyLast<T>(a: T, b: T, c: T, d: T, p: T -> bool)
    requires !p(a) && !p(b) && !p(c) && p(d)
    ensures FilterBy([a, b, c, d], p) == [d]
  {
    assert [a, b, c, d][1..] == [b, c, d];
    assert [b, c, d][1..] == [c, d];
    assert [c, d][1..] == [d];
    assert [d][1..] == [];
    assert FilterBy([d], p) == [d];
    assert FilterBy([c, d], p) == [d];
    assert FilterBy([b, c, d], p) == [d];
  }

  /** The query "ドライブ" shows exactly the track of sample4.mp3. */
  lemma SeedSearchDrive()
    ensures Filtered(Tracks, "ドライブ") == [Tracks[3]]
    ensures Tracks[3].file == "sample4.mp3"
  {
    SeedDriveMismatch(0);
    SeedDriveMismatch(1);
    SeedDriveMismatch(2);
    SeedDriveMatch();
    FilterOnlyLast(Tracks[0], Tracks[1], Tracks[2], Tracks[3], (t: Track) => Matches(t, "ドライブ"));
  }
}
