/**
 * The download dialog (`DownloadNovelModal`): checks whether a novel is
 * already stored, downloads a novel and its chapters into the offline store,
 * and deletes a stored novel.
 *
 * The remote API is an input: the outcome of fetching the novel, and for each
 * chapter id the outcome of fetching that chapter.
 */
module DownloadModal {
  import opened Wrappers
  import OfflineStore

  const NotFoundMessage := "Không tìm thấy truyện"
  const DefaultErrorMessage := "Lỗi khi tải truyện"
  const UnknownAuthor := "Unknown"
  const OtherGenre := "Khác"

  /** A chapter as listed in the remote novel. */
  datatype RemoteChapterRef = RemoteChapterRef(id: string, chapterNumber: int, title: string)

  /**
   * The fields of the remote novel the download reads; `authorName` is
   * `author?.name`, and every optional field may be missing.
   */
  datatype RemoteNovel = RemoteNovel(
    id: string,
    title: string,
    description: string,
    authorName: Option<string>,
    coverUrl: Option<string>,
    status: OfflineStore.NovelStatus,
    genre: Option<string>,
    viewCount: Option<int>,
    rating: Option<int>,
    chapters: Option<seq<RemoteChapterRef>>)

  /** `getNovelById`: no novel, a novel, or a thrown error (with its message when it is an `Error`). */
  datatype NovelFetch = NovelMissing | NovelFound(novel: RemoteNovel) | NovelFetchThrew(message: Option<string>)

  /** `getChapter`: the chapter's content (missing or empty alike), or a thrown error. */
  datatype ChapterFetch = Fetched(content: Option<string>) | FetchFailed

  datatype Status = Idle | Checking | Downloading | Complete | Error

  /** JavaScript's `s || fallback` on an optional string. */
  function OrDefault(s: Option<string>, fallback: string): (r: string)
    ensures s.Some? && s.value != "" ==> r == s.value
    ensures s.None? || s.value == "" ==> r == fallback
  {
    if s.Some? && s.value != "" then s.value else fallback
  }

  /** The record `handleDownload` saves for the novel before any chapter is fetched. */
  function BuildStoredNovel(rn: RemoteNovel, now: int): (n: OfflineStore.StoredNovel)
    ensures n.id == rn.id && n.title == rn.title && n.description == rn.description
    ensures n.coverImage == rn.coverUrl && n.status == rn.status
    ensures n.author == (if rn.authorName.Some? && rn.authorName.value != "" then rn.authorName.value else UnknownAuthor)
    ensures n.genre == (if rn.genre.Some? && rn.genre.value != "" then rn.genre.value else OtherGenre)
    ensures n.viewCount == (if rn.viewCount.Some? then rn.viewCount.value else 0)
    ensures n.rating == (if rn.rating.Some? then rn.rating.value else 0)
    ensures n.totalChapters == (if rn.chapters.Some? then |rn.chapters.value| else 0)
    ensures n.lastReadChapter.None? && n.readProgress == Some(0.0)
    ensures n.savedAt == now && n.fromCache
  {
    OfflineStore.StoredNovel(
      rn.id, rn.title, rn.description,
      OrDefault(rn.authorName, UnknownAuthor),
      rn.coverUrl, rn.status,
      OrDefault(rn.genre, OtherGenre),
      rn.viewCount.GetOr(0), rn.rating.GetOr(0),
      if rn.chapters.Some? then |rn.chapters.value| else 0,
      None, Some(0.0), now, true)
  }

  /** The stored chapter built from a listed chapter and its fetched content. */
  function ChapterRecord(novelId: string, ref: RemoteChapterRef, content: Option<string>, now: int): (c: OfflineStore.StoredChapter)
    ensures c.id == ref.id && c.novelId == novelId && c.chapterNumber == ref.chapterNumber && c.title == ref.title
    ensures c.content == OrDefault(content, "") && c.compressed.None?
  {
    OfflineStore.StoredChapter(ref.id, novelId, ref.chapterNumber, ref.title, OrDefault(content, ""), None, now, true)
  }

  /** The chapters the download loop collects: the fetched ones, in list order; failures are skipped. */
  function Collected(refs: seq<RemoteChapterRef>, fetch: string -> ChapterFetch, novelId: string, now: int): (r: seq<OfflineStore.StoredChapter>)
    ensures |r| <= |refs|
    ensures forall c :: c in r ==> c.novelId == novelId
  {
    if refs == [] then []
    else
      var rest := Collected(refs[1..], fetch, novelId, now);
      match fetch(refs[0].id)
      case Fetched(content) => [ChapterRecord(novelId, refs[0], content, now)] + rest
      case FetchFailed => rest
  }

  /**
   * The collected chapters keep list order under any mix of outcomes: the
   * chapters of a concatenation are those of each part in turn, and one
   * listed chapter gives its record exactly when its fetch succeeded.
   */
  lemma {:induction false} CollectedAppend(a: seq<RemoteChapterRef>, b: seq<RemoteChapterRef>, fetch: string -> ChapterFetch, novelId: string, now: int)
    ensures Collected(a + b, fetch, novelId, now) == Collected(a, fetch, novelId, now) + Collected(b, fetch, novelId, now)
    ensures forall ref ::
      Collected([ref], fetch, novelId, now) ==
        if fetch(ref.id).Fetched? then [ChapterRecord(novelId, ref, fetch(ref.id).content, now)] else []
  {
    if a == [] {
      assert a + b == b;
    } else {
      assert (a + b)[1..] == a[1..] + b;
      assert (a + b)[0] == a[0];
      CollectedAppend(a[1..], b, fetch, novelId, now);
    }
    forall ref ensures Collected([ref], fetch, novelId, now) ==
      (if fetch(ref.id).Fetched? then [ChapterRecord(novelId, ref, fetch(ref.id).content, now)] else [])
    {
      assert [ref][1..] == [];
    }
  }

  /** Without failures, every listed chapter is kept, one for one and in order. */
  lemma {:induction false} CollectedAllSucceed(refs: seq<RemoteChapterRef>, fetch: string -> ChapterFetch, novelId: string, now: int)
    requires forall i :: 0 <= i < |refs| ==> fetch(refs[i].id).Fetched?
    ensures |Collected(refs, fetch, novelId, now)| == |refs|
    ensures forall i :: 0 <= i < |refs| ==>
      Collected(refs, fetch, novelId, now)[i] == ChapterRecord(novelId, refs[i], fetch(refs[i].id).content, now)
  {
    if refs != [] {
      CollectedAllSucceed(refs[1..], fetch, novelId, now);
      var rest := Collected(refs[1..], fetch, novelId, now);
      assert fetch(refs[0].id).Fetched?;
      assert Collected(refs, fetch, novelId, now) == [ChapterRecord(novelId, refs[0], fetch(refs[0].id).content, now)] + rest;
      forall i | 0 <= i < |refs|
        ensures Collected(refs, fetch, novelId, now)[i] == ChapterRecord(novelId, refs[i], fetch(refs[i].id).content, now)
      {
        if i > 0 {
          assert refs[1..][i - 1] == refs[i];
        }
      }
    }
  }

  /** Every kept chapter comes from a listed chapter whose fetch succeeded. */
  lemma {:induction false} CollectedFromSucceeded(refs: seq<RemoteChapterRef>, fetch: string -> ChapterFetch, novelId: string, now: int, c: OfflineStore.StoredChapter)
    requires c in Collected(refs, fetch, novelId, now)
    ensures exists i ::
      && 0 <= i < |refs|
      && fetch(refs[i].id).Fetched?
      && c == ChapterRecord(novelId, refs[i], fetch(refs[i].id).content, now)
  {
    var rest := Collected(refs[1..], fetch, novelId, now);
    if c in rest {
      CollectedFromSucceeded(refs[1..], fetch, novelId, now, c);
      var i :| 0 <= i < |refs[1..]| && fetch(refs[1..][i].id).Fetched? &&
        c == ChapterRecord(novelId, refs[1..][i], fetch(refs[1..][i].id).content, now);
      assert refs[1..][i] == refs[i + 1];
    } else {
      assert fetch(refs[0].id).Fetched?;
    }
  }

  class Modal {
    const store: OfflineStore.IndexedDBService
    const novelId: string
    var status: Status
    /** `downloadedChapters` */
    var downloaded: nat
    var error: Option<string>
    var isDownloaded: bool

    constructor (store: OfflineStore.IndexedDBService, novelId: string)
      ensures this.store == store && this.novelId == novelId
      ensures status == Idle && downloaded == 0 && error.None? && !isDownloaded
    {
      this.store := store;
      this.novelId := novelId;
      status, downloaded, error, isDownloaded := Idle, 0, None, false;
    }

    /** `checkIfDownloaded`: the flag says whether the store holds this novel id. */
    method CheckIfDownloaded()
      requires store.Valid()
      modifies this`status, this`isDownloaded
      ensures isDownloaded <==> novelId in store.novels
      ensures status == Idle
    {
      status := Checking;
      var found := store.GetNovel(novelId);
      isDownloaded := found.Some?;
      status := Idle;
    }

    /**
     * `handleDownload`: saves the novel record, then fetches every listed
     * chapter, keeps the successes and saves them in one batch when there is
     * at least one. A missing novel or a failed novel fetch ends in the error
     * state with nothing stored.
     */
    method HandleDownload(remote: NovelFetch, fetch: string -> ChapterFetch, now: int)
      requires store.Valid()
      modifies this`status, this`downloaded, this`error, this`isDownloaded, store`novels, store`chapters
      ensures store.Valid()
      ensures remote.NovelMissing? ==>
        status == Error && error == Some(NotFoundMessage) && downloaded == 0 && isDownloaded == old(isDownloaded)
        && store.novels == old(store.novels) && store.chapters == old(store.chapters)
      ensures remote.NovelFetchThrew? ==>
        status == Error && error == Some(remote.message.GetOr(DefaultErrorMessage)) && downloaded == 0
        && isDownloaded == old(isDownloaded)
        && store.novels == old(store.novels) && store.chapters == old(store.chapters)
      ensures remote.NovelFound? ==>
        var rn := remote.novel;
        var kept := if rn.chapters.Some? then Collected(rn.chapters.value, fetch, novelId, now) else [];
        && status == Complete && error.None? && isDownloaded
        && store.novels == old(store.novels)[rn.id := OfflineStore.Stamped(BuildStoredNovel(rn, now), now)]
        && store.chapters == OfflineStore.PutChapters(old(store.chapters), kept, now)
        && downloaded == |kept|
    {
      status := Downloading;
      error := None;
      downloaded := 0;
      match remote {
        case NovelMissing =>
          status, error := Error, Some(NotFoundMessage);
        case NovelFetchThrew(message) =>
          status, error := Error, Some(message.GetOr(DefaultErrorMessage));
        case NovelFound(rn) =>
          store.SaveNovel(BuildStoredNovel(rn, now), now);
          if rn.chapters.Some? && |rn.chapters.value| > 0 {
            var toSave := CollectChapters(rn.chapters.value, fetch, now);
            if |toSave| > 0 {
              store.SaveChapters(toSave, now);
            }
          }
          status, isDownloaded := Complete, true;
      }
    }

    /** The `for` loop of `handleDownload`: one fetch per listed chapter, counting each kept chapter. */
    method CollectChapters(refs: seq<RemoteChapterRef>, fetch: string -> ChapterFetch, now: int) returns (toSave: seq<OfflineStore.StoredChapter>)
      modifies this`downloaded
      ensures toSave == Collected(refs, fetch, novelId, now)
      ensures downloaded == old(downloaded) + |toSave|
    {
      toSave := [];
      var i := |refs|;
      // Collected is built from the end, so the loop collects the suffix refs[i..].
      while i > 0
        invariant 0 <= i <= |refs|
        invariant toSave == Collected(refs[i..], fetch, novelId, now)
        invariant downloaded == old(downloaded) + |toSave|
      {
        i := i - 1;
        assert refs[i..][1..] == refs[i + 1..];
        match fetch(refs[i].id) {
          case Fetched(content) =>
            toSave := [ChapterRecord(novelId, refs[i], content, now)] + toSave;
            downloaded := downloaded + 1;
          case FetchFailed =>
        }
      }
      assert refs[0..] == refs;
    }

    /** `handleDelete`: unless the user cancels, the novel and its chapters and images leave the store. */
    method HandleDelete(confirmed: bool)
      requires store.Valid()
      modifies this`isDownloaded, this`downloaded, store`novels, store`chapters, store`images
      ensures store.Valid()
      ensures !confirmed ==>
        && isDownloaded == old(isDownloaded) && downloaded == old(downloaded)
        && store.novels == old(store.novels) && store.chapters == old(store.chapters) && store.images == old(store.images)
      ensures confirmed ==>
        && !isDownloaded && downloaded == 0
        && store.novels == old(store.novels) - {novelId}
        && (forall k :: k in store.chapters <==> k in old(store.chapters) && old(store.chapters)[k].novelId != novelId)
        && (forall k :: k in store.chapters ==> store.chapters[k] == old(store.chapters)[k])
        && (forall u :: u in store.images <==> u in old(store.images) && old(store.images)[u].novelId != novelId)
        && (forall u :: u in store.images ==> store.images[u] == old(store.images)[u])
    {
      if !confirmed {
        return;
      }
      store.DeleteNovel(novelId);
      isDownloaded, downloaded := false, 0;
    }
  }
}
