/**
 * The offline reader (`OfflineReader`): loads a stored novel and its chapters,
 * resumes at the saved position, navigates between chapters, and on every
 * chapter change writes the read position and the novel's progress back to
 * the offline store.
 */
module OfflineReader {
  import opened Wrappers
  import OfflineStore
  import Sorting

  /** `chapters.findIndex(c => c.chapterNumber === number)` */
  function FindIndex(chapters: seq<OfflineStore.StoredChapter>, number: int): (r: int)
    ensures -1 <= r < |chapters|
    ensures r >= 0 ==> chapters[r].chapterNumber == number
    ensures r >= 0 ==> forall j :: 0 <= j < r ==> chapters[j].chapterNumber != number
    ensures r == -1 <==> forall j :: 0 <= j < |chapters| ==> chapters[j].chapterNumber != number
  {
    if chapters == [] then -1
    else if chapters[0].chapterNumber == number then 0
    else
      var k := FindIndex(chapters[1..], number);
      if k == -1 then -1 else k + 1
  }

  /** `((index + 1) / length) * 100`, exactly. */
  function Progress(index: nat, length: nat): (p: real)
    requires index < length
    ensures 0.0 < p <= 100.0
    ensures p == 100.0 <==> index == length - 1
  {
    var p := (index + 1) as real / length as real * 100.0;
    assert (index + 1) as real <= length as real;
    assert p == 100.0 ==> (index + 1) as real == length as real;
    p
  }

  /** The index the reader resumes at: the saved chapter if it is still there, else the first. */
  function ResumeIndex(chapters: seq<OfflineStore.StoredChapter>, position: Option<OfflineStore.ReadPosition>): (r: nat)
    ensures chapters != [] ==> r < |chapters|
    ensures chapters == [] ==> r == 0
    ensures position.Some? && (exists j :: 0 <= j < |chapters| && chapters[j].chapterNumber == position.value.chapterNumber) ==>
      chapters[r].chapterNumber == position.value.chapterNumber
    ensures position.None? ==> r == 0
  {
    if position.Some? && FindIndex(chapters, position.value.chapterNumber) >= 0 then
      FindIndex(chapters, position.value.chapterNumber)
    else 0
  }

  /** The read positions after the save effect: the current chapter of a loaded novel, at scroll 0. */
  function SavedPositions(positions: map<string, OfflineStore.ReadPosition>, novel: Option<OfflineStore.StoredNovel>,
                          chapters: seq<OfflineStore.StoredChapter>, index: nat, now: int): map<string, OfflineStore.ReadPosition>
    requires chapters == [] || index < |chapters|
  {
    if novel.None? || chapters == [] then positions
    else positions[novel.value.id :=
      OfflineStore.ReadPosition(novel.value.id, chapters[index].id, chapters[index].chapterNumber, 0, now)]
  }

  /** The novels after the save effect: the loaded novel re-stamped with its last read chapter and progress. */
  function SavedNovels(novels: map<string, OfflineStore.StoredNovel>, novel: Option<OfflineStore.StoredNovel>,
                       chapters: seq<OfflineStore.StoredChapter>, index: nat, now: int): map<string, OfflineStore.StoredNovel>
    requires chapters == [] || index < |chapters|
  {
    if novel.None? || chapters == [] then novels
    else novels[novel.value.id := OfflineStore.Stamped(
      novel.value.(lastReadChapter := Some(chapters[index].chapterNumber),
                   readProgress := Some(Progress(index, |chapters|))), now)]
  }

  /**
   * A saved position brings the reader back to the same chapter: when the
   * chapter numbers are distinct, resuming from the position the save effect
   * wrote gives the index it was written at.
   */
  lemma ResumeAfterSave(positions: map<string, OfflineStore.ReadPosition>, novel: OfflineStore.StoredNovel,
                        chapters: seq<OfflineStore.StoredChapter>, index: nat, now: int)
    requires index < |chapters|
    requires forall i, j :: 0 <= i < j < |chapters| ==> chapters[i].chapterNumber != chapters[j].chapterNumber
    ensures var saved := SavedPositions(positions, Some(novel), chapters, index, now);
      novel.id in saved && ResumeIndex(chapters, Some(saved[novel.id])) == index
  {
    assert FindIndex(chapters, chapters[index].chapterNumber) >= 0;
  }

  datatype View = Loading | NotFound | Reading(chapter: OfflineStore.StoredChapter)

  class Reader {
    const store: OfflineStore.IndexedDBService
    const novelId: string
    var novel: Option<OfflineStore.StoredNovel>
    var chapters: seq<OfflineStore.StoredChapter>
    var index: int
    var loading: bool
    var showChapterList: bool

    /** The current index always names a chapter (or is 0 with no chapters). */
    ghost predicate Valid()
      reads this, store
    {
      store.Valid() && 0 <= index && (index < |chapters| || index == 0)
    }

    constructor (store: OfflineStore.IndexedDBService, novelId: string)
      requires store.Valid()
      ensures Valid() && this.store == store && this.novelId == novelId
      ensures novel.None? && chapters == [] && index == 0 && loading && !showChapterList
    {
      this.store := store;
      this.novelId := novelId;
      novel, chapters, index := None, [], 0;
      loading, showChapterList := true, false;
    }

    /** What the component renders. */
    function CurrentView(): (v: View)
      reads this
      requires 0 <= index && (index < |chapters| || index == 0)
      ensures v.Loading? <==> loading
      ensures v.NotFound? <==> !loading && (novel.None? || chapters == [])
      ensures v.Reading? ==> v.chapter == chapters[index]
    {
      if loading then Loading
      else if novel.None? || chapters == [] then NotFound
      else Reading(chapters[index])
    }

    /**
     * The effect that runs after the index (or the loaded data) changed: it
     * saves the read position of the current chapter with scroll position 0,
     * and re-saves the novel with the chapter as last read and the progress.
     */
    method SaveProgress(now: int)
      requires Valid()
      modifies store
      ensures Valid()
      ensures store.positions == SavedPositions(old(store.positions), novel, chapters, index, now)
      ensures store.novels == SavedNovels(old(store.novels), novel, chapters, index, now)
      ensures store.chapters == old(store.chapters) && store.images == old(store.images)
      ensures store.syncQueue == old(store.syncQueue) && store.nextSyncId == old(store.nextSyncId)
      ensures store.initState == old(store.initState)
    {
      if novel.Some? && |chapters| > 0 {
        var current := chapters[index];
        store.SaveReadPosition(OfflineStore.ReadPosition(novel.value.id, current.id, current.chapterNumber, 0, now), now);
        store.SaveNovel(novel.value.(lastReadChapter := Some(current.chapterNumber),
                                     readProgress := Some(Progress(index, |chapters|))), now);
      }
    }

    /**
     * `loadNovelData`, run once on mount (index 0): a missing novel stops
     * loading before chapters are read; otherwise the chapters are loaded in
     * chapter order and the index resumes at the first chapter with the stored
     * position's number, if there is one. Once loaded, the save effect runs
     * for the resumed chapter.
     */
    method LoadNovelData(now: int)
      requires Valid() && index == 0
      modifies this`novel, this`chapters, this`index, this`loading, store
      ensures Valid() && !loading
      ensures novelId !in old(store.novels) ==>
        novel == old(novel) && chapters == old(chapters) && index == 0
        && store.novels == old(store.novels) && store.positions == old(store.positions)
      ensures novelId in old(store.novels) ==>
        && novel == Some(old(store.novels)[novelId])
        && Sorting.SortedAsc(chapters, (c: OfflineStore.StoredChapter) => c.chapterNumber)
        && (forall c :: c in chapters <==> c in old(store.chapters).Values && c.novelId == novelId)
        && index == ResumeIndex(chapters, if novelId in old(store.positions) then Some(old(store.positions)[novelId]) else None)
        && store.positions == SavedPositions(old(store.positions), novel, chapters, index, now)
        && store.novels == SavedNovels(old(store.novels), novel, chapters, index, now)
      ensures store.chapters == old(store.chapters) && store.images == old(store.images)
      ensures store.syncQueue == old(store.syncQueue) && store.nextSyncId == old(store.nextSyncId)
      ensures store.initState == old(store.initState)
    {
      loading := true;
      var found := store.GetNovel(novelId);
      if found.None? {
        loading := false;
        return;
      }
      novel := found;
      var loaded := store.GetChaptersByNovel(novelId);
      chapters := loaded;
      var position := store.GetReadPosition(novelId);
      if position.Some? {
        var i := FindIndex(loaded, position.value.chapterNumber);
        if i >= 0 {
          index := i;
        }
      }
      loading := false;
      SaveProgress(now);
    }

    method GoToPrevious(now: int)
      requires Valid()
      modifies this`index, store
      ensures Valid()
      ensures old(index) > 0 ==>
        && index == old(index) - 1
        && store.novels == SavedNovels(old(store.novels), novel, chapters, index, now)
        && store.positions == SavedPositions(old(store.positions), novel, chapters, index, now)
      ensures old(index) <= 0 ==> index == old(index) && store.novels == old(store.novels) && store.positions == old(store.positions)
      ensures store.chapters == old(store.chapters) && store.images == old(store.images)
      ensures store.syncQueue == old(store.syncQueue) && store.nextSyncId == old(store.nextSyncId)
      ensures store.initState == old(store.initState)
    {
      if index > 0 {
        index := index - 1;
        SaveProgress(now);
      }
    }

    method GoToNext(now: int)
      requires Valid()
      modifies this`index, store
      ensures Valid()
      ensures old(index) < |chapters| - 1 ==>
        && index == old(index) + 1
        && store.novels == SavedNovels(old(store.novels), novel, chapters, index, now)
        && store.positions == SavedPositions(old(store.positions), novel, chapters, index, now)
      ensures old(index) >= |chapters| - 1 ==> index == old(index) && store.novels == old(store.novels) && store.positions == old(store.positions)
      ensures store.chapters == old(store.chapters) && store.images == old(store.images)
      ensures store.syncQueue == old(store.syncQueue) && store.nextSyncId == old(store.nextSyncId)
      ensures store.initState == old(store.initState)
    {
      if index < |chapters| - 1 {
        index := index + 1;
        SaveProgress(now);
      }
    }

    /** A click in the chapter list (which lists exactly the loaded chapters). */
    method GoToChapter(target: nat, now: int)
      requires Valid() && target < |chapters|
      modifies this`index, this`showChapterList, store
      ensures Valid() && index == target && !showChapterList
      ensures target != old(index) ==>
        && store.novels == SavedNovels(old(store.novels), novel, chapters, index, now)
        && store.positions == SavedPositions(old(store.positions), novel, chapters, index, now)
      ensures target == old(index) ==> store.novels == old(store.novels) && store.positions == old(store.positions)
      ensures store.chapters == old(store.chapters) && store.images == old(store.images)
      ensures store.syncQueue == old(store.syncQueue) && store.nextSyncId == old(store.nextSyncId)
      ensures store.initState == old(store.initState)
    {
      var changed := target != index;
      index := target;
      showChapterList := false;
      if changed {
        SaveProgress(now);
      }
    }
  }
}
