/**
 * The catalogue filter of `useNovelFilters`: approved novels only, then a
 * case-insensitive search over title, description and author, then "has at
 * least one selected genre", and a sort by last update when asked for.
 */
module NovelFilters {
  import opened Wrappers
  import Text
  import Lists
  import Sorting
  import opened ClientTypes

  datatype SortBy = Relevance | Popular | Updated

  /** `n.updatedAt || 0` */
  function UpdatedKey(n: Novel): int {
    n.updatedAt.GetOr(0)
  }

  predicate IsApproved(n: Novel) {
    n.status == Approved
  }

  /** The lowercased title, description or author name contains `query` (already lowercased). */
  predicate MatchesQuery(n: Novel, query: string) {
    || Text.Contains(Text.ToLower(n.title), query)
    || Text.Contains(Text.ToLower(n.description), query)
    || Text.Contains(Text.ToLower(n.authorName), query)
  }

  /** Some selected genre is among the novel's tags. */
  predicate HasAnyGenre(n: Novel, genres: seq<string>) {
    exists i :: 0 <= i < |genres| && genres[i] in n.tags
  }

  /** What survives the three filter steps: an empty query and an empty genre list filter nothing. */
  predicate Keep(n: Novel, searchQuery: string, selectedGenres: seq<string>) {
    && IsApproved(n)
    && (searchQuery == "" || MatchesQuery(n, Text.ToLower(searchQuery)))
    && (selectedGenres == [] || HasAnyGenre(n, selectedGenres))
  }

  function Keeps(searchQuery: string, selectedGenres: seq<string>): Novel -> bool {
    (n: Novel) => Keep(n, searchQuery, selectedGenres)
  }

  function Matching(query: string): Novel -> bool {
    (n: Novel) => MatchesQuery(n, query)
  }

  function AnyGenreOf(genres: seq<string>): Novel -> bool {
    (n: Novel) => HasAnyGenre(n, genres)
  }

  /** The filter steps of `getFilteredNovels`, taken in turn, keep exactly what `Keep` accepts. */
  lemma FilterSteps(novelList: seq<Novel>, searchQuery: string, selectedGenres: seq<string>)
    ensures
      var approved := Lists.Filter(novelList, IsApproved);
      var query := Text.ToLower(searchQuery);
      var searched := if searchQuery != "" then Lists.Filter(approved, Matching(query)) else approved;
      var genred := if |selectedGenres| > 0 then Lists.Filter(searched, AnyGenreOf(selectedGenres)) else searched;
      genred == Lists.Filter(novelList, Keeps(searchQuery, selectedGenres))
  {
    var query := Text.ToLower(searchQuery);
    var matches := Matching(query);
    var anyGenre := AnyGenreOf(selectedGenres);
    Lists.FilterSame(novelList, IsApproved, Keeps("", []));
    if searchQuery != "" {
      Lists.FilterCompose(novelList, Keeps("", []), matches, Keeps(searchQuery, []));
    } else {
      Lists.FilterSame(novelList, Keeps("", []), Keeps(searchQuery, []));
    }
    if |selectedGenres| > 0 {
      Lists.FilterCompose(novelList, Keeps(searchQuery, []), anyGenre, Keeps(searchQuery, selectedGenres));
    } else {
      Lists.FilterSame(novelList, Keeps(searchQuery, []), Keeps(searchQuery, selectedGenres));
    }
  }

  /** What `Keep` lets through is exactly the input's novels that it accepts. */
  lemma KeptMembers(novelList: seq<Novel>, searchQuery: string, selectedGenres: seq<string>)
    ensures forall x :: x in Lists.Filter(novelList, Keeps(searchQuery, selectedGenres)) ==>
      x in novelList && Keep(x, searchQuery, selectedGenres)
    ensures forall i :: 0 <= i < |novelList| && Keep(novelList[i], searchQuery, selectedGenres) ==>
      novelList[i] in Lists.Filter(novelList, Keeps(searchQuery, selectedGenres))
  {
    var kept := Lists.Filter(novelList, Keeps(searchQuery, selectedGenres));
    forall x | x in kept
      ensures x in novelList && Keep(x, searchQuery, selectedGenres)
    {
      var i :| 0 <= i < |kept| && kept[i] == x;
      assert Keeps(searchQuery, selectedGenres)(kept[i]);
    }
  }

  /**
   * `getFilteredNovels`: the filter steps reassign the local list one after
   * the other; only `Updated` sorts, by `updatedAt` descending, and the other
   * orders keep the input order; the sort keeps the input order of novels
   * updated at the same time.
   */
  method GetFilteredNovels(novelList: seq<Novel>, searchQuery: string, selectedGenres: seq<string>, sortBy: SortBy)
    returns (filtered: seq<Novel>)
    ensures sortBy != Updated ==> filtered == Lists.Filter(novelList, Keeps(searchQuery, selectedGenres))
    ensures sortBy == Updated ==>
      && Sorting.SortedDesc(filtered, UpdatedKey)
      && multiset(filtered) == multiset(Lists.Filter(novelList, Keeps(searchQuery, selectedGenres)))
      && Sorting.Stable(filtered, Lists.Filter(novelList, Keeps(searchQuery, selectedGenres)), UpdatedKey)
    ensures forall i :: 0 <= i < |filtered| ==> filtered[i] in novelList && Keep(filtered[i], searchQuery, selectedGenres)
    ensures forall i :: 0 <= i < |novelList| && Keep(novelList[i], searchQuery, selectedGenres) ==> novelList[i] in filtered
  {
    filtered := Lists.Filter(novelList, IsApproved);
    if searchQuery != "" {
      var query := Text.ToLower(searchQuery);
      filtered := Lists.Filter(filtered, Matching(query));
    }
    if |selectedGenres| > 0 {
      filtered := Lists.Filter(filtered, AnyGenreOf(selectedGenres));
    }
    FilterSteps(novelList, searchQuery, selectedGenres);
    var kept := filtered;
    assert kept == Lists.Filter(novelList, Keeps(searchQuery, selectedGenres));
    KeptMembers(novelList, searchQuery, selectedGenres);
    forall i | 0 <= i < |novelList| && Keep(novelList[i], searchQuery, selectedGenres)
      ensures novelList[i] in kept
    {
    }

    if sortBy == Updated {
      filtered := Sorting.SortDesc(kept, UpdatedKey);
      Sorting.SameElements(filtered, kept);
      forall i | 0 <= i < |filtered|
        ensures filtered[i] in novelList && Keep(filtered[i], searchQuery, selectedGenres)
      {
        assert filtered[i] in kept;
      }
    } else {
      forall i | 0 <= i < |kept|
        ensures kept[i] in novelList && Keep(kept[i], searchQuery, selectedGenres)
      {
        assert kept[i] in kept;
      }
    }
  }
}
