/**
 * The home page's catalogue (`HomePage`): approved novels newest first, the
 * sorted list of every genre, a search over title and author that demands
 * every selected genre, the three orders, and the genre toggle.
 */
module HomePage {
  import opened Wrappers
  import Text
  import Lists
  import Sorting
  import Services
  import opened ClientTypes
  import NovelFilters

  type SortBy = NovelFilters.SortBy

  /** `visibleNovels`: the approved novels, most recently updated first, ties in list order. */
  function VisibleNovels(novels: seq<Novel>): (r: seq<Novel>)
    ensures Sorting.SortedDesc(r, NovelFilters.UpdatedKey)
    ensures multiset(r) == multiset(Lists.Filter(novels, NovelFilters.IsApproved))
    ensures Sorting.Stable(r, Lists.Filter(novels, NovelFilters.IsApproved), NovelFilters.UpdatedKey)
    ensures forall n :: n in r <==> n in novels && n.status == Approved
  {
    var approved := Lists.Filter(novels, NovelFilters.IsApproved);
    var r := Sorting.SortDesc(approved, NovelFilters.UpdatedKey);
    Sorting.SameElements(r, approved);
    assert forall n :: n in approved <==> n in novels && n.status == Approved by {
      forall n ensures n in approved <==> n in novels && n.status == Approved {
        if n in novels && n.status == Approved {
          var i :| 0 <= i < |novels| && novels[i] == n;
        }
      }
    }
    r
  }

  /** Some novel carries `tag`. */
  predicate Tagged(novels: seq<Novel>, tag: string) {
    exists i :: 0 <= i < |novels| && tag in novels[i].tags
  }

  /**
   * `allGenres`: every tag of every novel, approved or not, added to a set
   * one by one and then sorted.
   */
  method AllGenres(novels: seq<Novel>) returns (genres: seq<string>)
    ensures Text.LexSorted(genres)
    ensures Lists.Distinct(genres)
    ensures forall t :: t in genres <==> Tagged(novels, t)
  {
    var tags: seq<string> := [];
    for i := 0 to |novels|
      invariant Lists.Distinct(tags)
      invariant forall t :: t in tags <==> Tagged(novels[..i], t)
    {
      for j := 0 to |novels[i].tags|
        invariant Lists.Distinct(tags)
        invariant forall t :: t in tags <==> Tagged(novels[..i], t) || t in novels[i].tags[..j]
      {
        var t := novels[i].tags[j];
        if t !in tags {
          tags := tags + [t];
        }
      }
      TaggedExtend(novels, i);
    }
    assert novels[..|novels|] == novels;
    genres := Text.LexSort(tags);
    Lists.DistinctPermutation(genres, tags);
    Sorting.SameElements(genres, tags);
  }

  /** The tags of the first `i + 1` novels are those of the first `i` and those of novel `i`. */
  lemma TaggedExtend(novels: seq<Novel>, i: nat)
    requires i < |novels|
    ensures forall t :: Tagged(novels[..i + 1], t) <==> Tagged(novels[..i], t) || t in novels[i].tags
  {
    forall t ensures Tagged(novels[..i + 1], t) <==> Tagged(novels[..i], t) || t in novels[i].tags {
      if Tagged(novels[..i + 1], t) {
        var k :| 0 <= k < i + 1 && t in novels[..i + 1][k].tags;
        if k < i {
          assert novels[..i][k] == novels[k];
        }
      }
      if Tagged(novels[..i], t) {
        var k :| 0 <= k < i && t in novels[..i][k].tags;
        assert novels[..i + 1][k] == novels[k];
      }
      if t in novels[i].tags {
        assert novels[..i + 1][i] == novels[i];
      }
    }
  }

  /** The search of the home page: the lowercased title or author name contains the lowercased query. */
  predicate MatchesSearch(n: Novel, searchQuery: string) {
    || Text.Contains(Text.ToLower(n.title), Text.ToLower(searchQuery))
    || Text.Contains(Text.ToLower(n.authorName), Text.ToLower(searchQuery))
  }

  /** Every selected genre is among the novel's tags. */
  predicate HasAllGenres(n: Novel, selectedGenres: seq<string>) {
    forall i :: 0 <= i < |selectedGenres| ==> selectedGenres[i] in n.tags
  }

  predicate Matches(n: Novel, searchQuery: string, selectedGenres: seq<string>) {
    MatchesSearch(n, searchQuery) && HasAllGenres(n, selectedGenres)
  }

  function MatchesFn(searchQuery: string, selectedGenres: seq<string>): Novel -> bool {
    (n: Novel) => Matches(n, searchQuery, selectedGenres)
  }

  /** The sort key of `'popular'`: the novel's total reads. */
  function TotalReads(n: Novel): int {
    Services.CalculateTotalReads(Some(n.chapters))
  }

  /**
   * `filteredNovels`: the visible novels that match, kept in order for
   * `'relevance'`, by total reads descending for `'popular'` and by update
   * time descending for `'updated'`.
   */
  function FilteredNovels(visible: seq<Novel>, searchQuery: string, selectedGenres: seq<string>, sortBy: SortBy): (r: seq<Novel>)
    ensures sortBy == NovelFilters.Relevance ==> r == Lists.Filter(visible, MatchesFn(searchQuery, selectedGenres))
    ensures sortBy == NovelFilters.Popular ==> Sorting.SortedDesc(r, TotalReads)
    ensures sortBy == NovelFilters.Updated ==> Sorting.SortedDesc(r, NovelFilters.UpdatedKey)
    ensures multiset(r) == multiset(Lists.Filter(visible, MatchesFn(searchQuery, selectedGenres)))
    ensures sortBy == NovelFilters.Popular ==> Sorting.Stable(r, Lists.Filter(visible, MatchesFn(searchQuery, selectedGenres)), TotalReads)
    ensures sortBy == NovelFilters.Updated ==>
      Sorting.Stable(r, Lists.Filter(visible, MatchesFn(searchQuery, selectedGenres)), NovelFilters.UpdatedKey)
    ensures forall n :: n in r <==> n in visible && Matches(n, searchQuery, selectedGenres)
  {
    var result := Lists.Filter(visible, MatchesFn(searchQuery, selectedGenres));
    MatchedMembers(visible, searchQuery, selectedGenres);
    var r := match sortBy
      case Relevance => result
      case Popular => Sorting.SortDesc(result, TotalReads)
      case Updated => Sorting.SortDesc(result, NovelFilters.UpdatedKey);
    Sorting.SameElements(r, result);
    r
  }

  lemma MatchedMembers(visible: seq<Novel>, searchQuery: string, selectedGenres: seq<string>)
    ensures forall n :: n in Lists.Filter(visible, MatchesFn(searchQuery, selectedGenres)) <==>
      n in visible && Matches(n, searchQuery, selectedGenres)
  {
    var result := Lists.Filter(visible, MatchesFn(searchQuery, selectedGenres));
    forall n ensures n in result <==> n in visible && Matches(n, searchQuery, selectedGenres) {
      if n in result {
        var i :| 0 <= i < |result| && result[i] == n;
        assert MatchesFn(searchQuery, selectedGenres)(result[i]);
      }
      if n in visible && Matches(n, searchQuery, selectedGenres) {
        var i :| 0 <= i < |visible| && visible[i] == n;
        assert MatchesFn(searchQuery, selectedGenres)(visible[i]);
      }
    }
  }

  /** With an empty search and no genre selected, `'relevance'` shows every visible novel in order. */
  lemma NoFilterShowsAll(visible: seq<Novel>)
    ensures FilteredNovels(visible, "", [], NovelFilters.Relevance) == visible
  {
    forall i | 0 <= i < |visible| ensures MatchesFn("", [])(visible[i]) {
      assert Text.StartsWith(Text.ToLower(visible[i].title), "");
    }
    Lists.FilterAll(visible, MatchesFn("", []));
  }

  /**
   * The two catalogue filters differ on genres: demanding every selected
   * genre implies having one of them, but a novel tagged with only one of
   * two selected genres passes `useNovelFilters` and not the home page.
   */
  lemma AllGenresStricterThanAny(n: Novel, selectedGenres: seq<string>)
    ensures selectedGenres != [] && HasAllGenres(n, selectedGenres) ==> NovelFilters.HasAnyGenre(n, selectedGenres)
    ensures |selectedGenres| == 2 && selectedGenres[0] in n.tags && selectedGenres[1] !in n.tags ==>
      NovelFilters.HasAnyGenre(n, selectedGenres) && !HasAllGenres(n, selectedGenres)
  {
    if selectedGenres != [] && HasAllGenres(n, selectedGenres) {
      assert selectedGenres[0] in n.tags;
    }
  }

  /** The predicate `toggleGenre` filters by: every genre but `genre`. */
  function OtherGenre(genre: string): string -> bool {
    g => g != genre
  }

  /** The selection with every copy of `genre` removed. */
  function WithoutGenre(selectedGenres: seq<string>, genre: string): (r: seq<string>)
    ensures genre !in r && forall g :: g in r <==> g in selectedGenres && g != genre
  {
    var r := Lists.Filter(selectedGenres, OtherGenre(genre));
    assert forall g :: g in r <==> g in selectedGenres && g != genre by {
      forall g ensures g in r <==> g in selectedGenres && g != genre {
        if g in selectedGenres && g != genre {
          var i :| 0 <= i < |selectedGenres| && selectedGenres[i] == g;
        }
      }
    }
    r
  }

  /**
   * The other genres stay in selection order: removing from a concatenation
   * removes from each part, and a single genre is kept exactly when it differs.
   */
  lemma WithoutGenreAppend(a: seq<string>, b: seq<string>, genre: string)
    ensures WithoutGenre(a + b, genre) == WithoutGenre(a, genre) + WithoutGenre(b, genre)
    ensures forall g :: WithoutGenre([g], genre) == (if g != genre then [g] else [])
  {
    Lists.FilterAppend(a, b, OtherGenre(genre));
  }

  /** `toggleGenre` on a list of selected genres: remove every copy if present, append otherwise. */
  function Toggled(selectedGenres: seq<string>, genre: string): (r: seq<string>)
    ensures genre in selectedGenres ==> r == WithoutGenre(selectedGenres, genre)
    ensures genre in selectedGenres ==> genre !in r && forall g :: g in r <==> g in selectedGenres && g != genre
    ensures genre !in selectedGenres ==> r == selectedGenres + [genre]
  {
    if genre in selectedGenres then WithoutGenre(selectedGenres, genre)
    else selectedGenres + [genre]
  }

  /** Toggling a genre that was not selected twice restores the selection. */
  lemma ToggleTwice(selectedGenres: seq<string>, genre: string)
    requires genre !in selectedGenres
    ensures Toggled(Toggled(selectedGenres, genre), genre) == selectedGenres
  {
    Lists.FilterAppend(selectedGenres, [genre], OtherGenre(genre));
    Lists.FilterAll(selectedGenres, OtherGenre(genre));
  }

  /** The filter controls of the home page. */
  class HomeFilters {
    var searchQuery: string
    var selectedGenres: seq<string>
    var sortBy: SortBy

    constructor()
      ensures searchQuery == "" && selectedGenres == [] && sortBy == NovelFilters.Relevance
    {
      searchQuery := "";
      selectedGenres := [];
      sortBy := NovelFilters.Relevance;
    }

    /** `toggleGenre` */
    method ToggleGenre(genre: string)
      modifies this`selectedGenres
      ensures selectedGenres == Toggled(old(selectedGenres), genre)
    {
      if genre in selectedGenres {
        selectedGenres := Lists.Filter(selectedGenres, OtherGenre(genre));
      } else {
        selectedGenres := selectedGenres + [genre];
      }
    }
  }
}
