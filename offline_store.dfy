/**
 * The browser-side offline store (`IndexedDBService`): five object stores of
 * the `novelReaderDB` database (schema version 2), each modelled as a map from
 * its key path to the stored record. Every transaction is one atomic method;
 * `Date.now()` is the `now` parameter.
 */
module OfflineStore {
  import opened Wrappers
  import Sorting
  import Lists

  const DbName := "novelReaderDB"
  const DbVersion := 2

  datatype NovelStatus = Draft | Pending | Approved | Rejected

  datatype StoredNovel = StoredNovel(
    id: string,
    title: string,
    description: string,
    author: string,
    coverImage: Option<string>,
    status: NovelStatus,
    genre: string,
    viewCount: int,
    rating: int,
    totalChapters: int,
    lastReadChapter: Option<int>,
    readProgress: Option<real>,
    savedAt: int,
    fromCache: bool)

  datatype StoredChapter = StoredChapter(
    id: string,
    novelId: string,
    chapterNumber: int,
    title: string,
    content: string,
    compressed: Option<bool>,
    savedAt: int,
    fromCache: bool)

  /** The compound key path `['novelId', 'chapterNumber']`. */
  datatype ChapterKey = ChapterKey(novelId: string, chapterNumber: int)

  datatype ReadPosition = ReadPosition(
    novelId: string,
    chapterId: string,
    chapterNumber: int,
    scrollPosition: int,
    readAt: int)

  datatype OfflineImage = OfflineImage(
    url: string,
    novelId: string,
    data: string,
    size: nat,
    cachedAt: int)

  datatype SyncKind = SyncUpdate | SyncDelete | SyncDownload
  datatype SyncStatus = SyncPending | SyncComplete
  datatype SyncOperation = SyncOperation(kind: SyncKind, novelId: string, data: Option<string>)
  datatype SyncEntry = SyncEntry(
    id: nat,
    op: SyncOperation,
    queuedAt: int,
    status: SyncStatus,
    completedAt: Option<int>)

  /** What `navigator.storage.estimate()` reports. */
  datatype Estimate = Estimate(usage: Option<int>, quota: Option<int>)
  datatype StorageInfo = StorageInfo(usage: Option<int>, quota: Option<int>, novelsCount: nat, chaptersCount: nat)

  /** The connection singleton: `db` set, or `initPromise` holding a rejection. */
  datatype InitState = NotStarted | Connected | OpenFailed

  function KeyOf(c: StoredChapter): ChapterKey {
    ChapterKey(c.novelId, c.chapterNumber)
  }

  /** `{...novel, savedAt: Date.now(), fromCache: true}` */
  function Stamped(n: StoredNovel, now: int): (r: StoredNovel)
    ensures r.savedAt == now && r.fromCache
    ensures r.(savedAt := n.savedAt, fromCache := n.fromCache) == n
  {
    n.(savedAt := now, fromCache := true)
  }

  /** `{...chapter, savedAt: Date.now(), fromCache: true}` */
  function StampedChapter(c: StoredChapter, now: int): (r: StoredChapter)
    ensures r.savedAt == now && r.fromCache && KeyOf(r) == KeyOf(c)
    ensures r.(savedAt := c.savedAt, fromCache := c.fromCache) == c
  {
    c.(savedAt := now, fromCache := true)
  }

  /** The chapters store after `put` of every chapter of `batch`, in order. */
  function PutChapters(store: map<ChapterKey, StoredChapter>, batch: seq<StoredChapter>, now: int): map<ChapterKey, StoredChapter>
  {
    if batch == [] then store
    else
      var last := batch[|batch| - 1];
      PutChapters(store, batch[..|batch| - 1], now)[KeyOf(last) := StampedChapter(last, now)]
  }

  /** The last chapter of `batch` whose key is `k`, if any. */
  function LastWithKey(batch: seq<StoredChapter>, k: ChapterKey): (r: Option<StoredChapter>)
    ensures r.Some? ==> r.value in batch && KeyOf(r.value) == k
    ensures r.Some? ==>
      exists i :: 0 <= i < |batch| && batch[i] == r.value && forall j :: i < j < |batch| ==> KeyOf(batch[j]) != k
    ensures r.None? ==> forall i :: 0 <= i < |batch| ==> KeyOf(batch[i]) != k
  {
    if batch == [] then None
    else if KeyOf(batch[|batch| - 1]) == k then Some(batch[|batch| - 1])
    else
      var r := LastWithKey(batch[..|batch| - 1], k);
      assert r.Some? ==>
        exists i :: 0 <= i < |batch| - 1 && batch[i] == r.value && forall j :: i < j < |batch| ==> KeyOf(batch[j]) != k;
      r
  }

  /**
   * A batch save keeps exactly one record per key: the stamped copy of the
   * last chapter of the batch with that key, or the record already stored.
   */
  lemma {:induction false} PutChaptersLookup(store: map<ChapterKey, StoredChapter>, batch: seq<StoredChapter>, now: int, k: ChapterKey)
    ensures k in PutChapters(store, batch, now) <==> (k in store || LastWithKey(batch, k).Some?)
    ensures k in PutChapters(store, batch, now) ==>
      PutChapters(store, batch, now)[k] ==
        (if LastWithKey(batch, k).Some? then StampedChapter(LastWithKey(batch, k).value, now) else store[k])
  {
    if batch != [] {
      PutChaptersLookup(store, batch[..|batch| - 1], now, k);
    }
  }

  /** Saving two chapters with the same key leaves only the later one. */
  lemma SaveSameKeyTwice(store: map<ChapterKey, StoredChapter>, c1: StoredChapter, c2: StoredChapter, now1: int, now2: int)
    requires KeyOf(c1) == KeyOf(c2)
    ensures PutChapters(PutChapters(store, [c1], now1), [c2], now2) == PutChapters(store, [c2], now2)
  {
    assert [c1][..0] == [] && [c2][..0] == [];
  }

  /** The result of `searchNovels(author, genre)`: an absent or empty argument is not given. */
  predicate SearchMatch(n: StoredNovel, author: Option<string>, genre: Option<string>) {
    if author.Some? && author.value != [] then
      n.author == author.value && (genre.None? || genre.value == [] || n.genre == genre.value)
    else if genre.Some? && genre.value != [] then
      n.genre == genre.value
    else
      true
  }

  /** `Date.now() - daysOld * 24 * 60 * 60 * 1000` */
  function Cutoff(now: int, daysOld: int): int {
    now - daysOld * 86400000
  }

  /** Ids of the novels that `IDBKeyRange.upperBound(cutoff)` on `savedAt` selects. */
  function ExpiredIds(novels: map<string, StoredNovel>, cutoff: int): (r: set<string>)
    ensures forall id :: id in r <==> id in novels && novels[id].savedAt <= cutoff
  {
    set id | id in novels && novels[id].savedAt <= cutoff
  }

  /** Bytes of `new Blob([s])`: the UTF-8 length of `s`. */
  function Utf8Width(c: char): nat {
    if c as int < 0x80 then 1
    else if c as int < 0x800 then 2
    else if c as int < 0x10000 then 3
    else 4
  }

  function Utf8Size(s: string): (r: nat)
    ensures |s| <= r <= 4 * |s|
  {
    if s == [] then 0 else Utf8Size(s[..|s| - 1]) + Utf8Width(s[|s| - 1])
  }

  /** Base64 image data is ASCII, so its blob size is its length. */
  lemma {:induction false} AsciiSize(s: string)
    requires forall i :: 0 <= i < |s| ==> s[i] as int < 0x80
    ensures Utf8Size(s) == |s|
  {
    if s != [] {
      AsciiSize(s[..|s| - 1]);
    }
  }

  /** The keys of `m` whose record satisfies `p`. */
  ghost function Selected<K, V>(m: map<K, V>, p: V -> bool): set<K> {
    set k | k in m && p(m[k])
  }

  /** The records `IndexGetAll` returns are as many as the keys it selects. */
  lemma GetAllCount<K, V>(m: map<K, V>, p: V -> bool, keys: seq<K>)
    requires Lists.Distinct(keys)
    requires forall i :: 0 <= i < |keys| ==> keys[i] in m && p(m[keys[i]])
    requires forall k :: k in m && p(m[k]) ==> k in keys
    ensures |keys| == |Selected(m, p)|
  {
    Lists.DistinctCard(keys);
    assert (set i | 0 <= i < |keys| :: keys[i]) == Selected(m, p);
  }

  /**
   * `getAll` on an object store or on one value of an index: every record whose
   * value satisfies `p`, once each, with its key. The engine's order of records
   * is not modelled.
   */
  method IndexGetAll<K(==), V>(m: map<K, V>, p: V -> bool) returns (keys: seq<K>, vals: seq<V>)
    ensures |keys| == |vals| && Lists.Distinct(keys)
    ensures forall i :: 0 <= i < |keys| ==> keys[i] in m && vals[i] == m[keys[i]] && p(vals[i])
    ensures forall k :: k in m && p(m[k]) ==> k in keys
  {
    var rest := m.Keys;
    keys, vals := [], [];
    while rest != {}
      invariant rest <= m.Keys
      invariant |keys| == |vals| && Lists.Distinct(keys)
      invariant forall i :: 0 <= i < |keys| ==> keys[i] in m && keys[i] !in rest && vals[i] == m[keys[i]] && p(vals[i])
      invariant forall k :: k in m && k !in rest && p(m[k]) ==> k in keys
      decreases rest
    {
      var k :| k in rest;
      if p(m[k]) {
        keys, vals := keys + [k], vals + [m[k]];
      }
      rest := rest - {k};
    }
  }

  class IndexedDBService {
    var initState: InitState
    var novels: map<string, StoredNovel>
    var chapters: map<ChapterKey, StoredChapter>
    var positions: map<string, ReadPosition>
    var images: map<string, OfflineImage>
    var syncQueue: map<nat, SyncEntry>
    /** The sync store's key generator; `clear()` does not reset it. */
    var nextSyncId: nat

    /** Every record sits under its own key path. */
    ghost predicate Valid()
      reads this
    {
      && (forall id :: id in novels ==> novels[id].id == id)
      && (forall k :: k in chapters ==> KeyOf(chapters[k]) == k)
      && (forall id :: id in positions ==> positions[id].novelId == id)
      && (forall u :: u in images ==> images[u].url == u)
      && (forall n :: n in syncQueue ==> syncQueue[n].id == n && 1 <= n < nextSyncId)
      && 1 <= nextSyncId
    }

    /** The keys of the chapters that belong to one of `ids`. */
    ghost function ChapterKeysOf(ids: set<string>): set<ChapterKey>
      reads this
    {
      set k | k in chapters && k.novelId in ids
    }

    lemma ChapterKeysAdd(done: set<string>, id: string)
      requires id !in done
      ensures |ChapterKeysOf(done + {id})| == |ChapterKeysOf(done)| + |ChapterKeysOf({id})|
    {
      assert ChapterKeysOf(done + {id}) == ChapterKeysOf(done) + ChapterKeysOf({id});
      assert ChapterKeysOf(done) !! ChapterKeysOf({id});
    }

    constructor ()
      ensures Valid() && initState == NotStarted
      ensures novels == map[] && chapters == map[] && positions == map[] && images == map[] && syncQueue == map[]
      ensures nextSyncId == 1
    {
      initState := NotStarted;
      novels, chapters, positions, images, syncQueue := map[], map[], map[], map[], map[];
      nextSyncId := 1;
    }

    /**
     * `init()`: the first call opens the database; later calls return the
     * cached connection, or the cached rejection when the first open failed.
     */
    method Init(openSucceeds: bool) returns (ok: bool)
      modifies this`initState
      ensures old(initState) == NotStarted ==> initState == (if openSucceeds then Connected else OpenFailed)
      ensures old(initState) != NotStarted ==> initState == old(initState)
      ensures ok <==> initState == Connected
    {
      if initState == NotStarted {
        initState := if openSucceeds then Connected else OpenFailed;
      }
      ok := initState == Connected;
    }

    // ============ NOVELS ============

    method SaveNovel(novel: StoredNovel, now: int)
      requires Valid()
      modifies this`novels
      ensures Valid()
      ensures novels == old(novels)[novel.id := Stamped(novel, now)]
    {
      novels := novels[novel.id := Stamped(novel, now)];
    }

    method GetNovel(novelId: string) returns (r: Option<StoredNovel>)
      requires Valid()
      ensures r.Some? <==> novelId in novels
      ensures r.Some? ==> r.value == novels[novelId] && r.value.id == novelId
    {
      r := if novelId in novels then Some(novels[novelId]) else None;
    }

    method GetAllNovels() returns (r: seq<StoredNovel>)
      requires Valid()
      ensures |r| == |novels|
      ensures forall i :: 0 <= i < |r| ==> r[i].id in novels && novels[r[i].id] == r[i]
      ensures forall id :: id in novels ==> novels[id] in r
      ensures forall i, j :: 0 <= i < j < |r| ==> r[i].id != r[j].id
    {
      var any := (n: StoredNovel) => true;
      var ids;
      ids, r := IndexGetAll(novels, any);
      GetAllCount(novels, any, ids);
      assert Selected(novels, any) == novels.Keys;
    }

    /**
     * Removes the novel, its chapters (found through the `novelId` index) and
     * its images in one transaction.
     */
    method DeleteNovel(novelId: string)
      requires Valid()
      modifies this`novels, this`chapters, this`images
      ensures Valid()
      ensures novels == old(novels) - {novelId}
      ensures forall k :: k in chapters <==> k in old(chapters) && old(chapters)[k].novelId != novelId
      ensures forall k :: k in chapters ==> chapters[k] == old(chapters)[k]
      ensures forall u :: u in images <==> u in old(images) && old(images)[u].novelId != novelId
      ensures forall u :: u in images ==> images[u] == old(images)[u]
    {
      novels := novels - {novelId};
      DeleteChaptersForNovel(novelId);
      DeleteImagesForNovel(novelId);
    }

    /** The `forEach` over the `novelId` index of the images store, deleting by url. */
    method DeleteImagesForNovel(novelId: string)
      requires Valid()
      modifies this`images
      ensures Valid()
      ensures forall u :: u in images <==> u in old(images) && old(images)[u].novelId != novelId
      ensures forall u :: u in images ==> images[u] == old(images)[u]
    {
      var urls, found := IndexGetAll(images, (img: OfflineImage) => img.novelId == novelId);
      var i := 0;
      while i < |found|
        invariant 0 <= i <= |found|
        invariant Valid()
        invariant forall u :: u in images <==> u in old(images) && u !in urls[..i]
        invariant forall u :: u in images ==> images[u] == old(images)[u]
      {
        assert found[i].url == urls[i];
        images := images - {found[i].url};
        i := i + 1;
      }
      assert urls[..i] == urls;
    }

    /** Search through the `author` or `genre` index, or the whole store. */
    method SearchNovels(author: Option<string>, genre: Option<string>) returns (r: seq<StoredNovel>)
      requires Valid()
      ensures forall i :: 0 <= i < |r| ==> r[i].id in novels && novels[r[i].id] == r[i] && SearchMatch(r[i], author, genre)
      ensures forall id :: id in novels && SearchMatch(novels[id], author, genre) ==> novels[id] in r
      ensures Lists.Distinct(r)
    {
      var ids;
      ids, r := IndexGetAll(novels, (n: StoredNovel) => SearchMatch(n, author, genre));
    }

    // ============ CHAPTERS ============

    method SaveChapter(chapter: StoredChapter, now: int)
      requires Valid()
      modifies this`chapters
      ensures Valid()
      ensures chapters == PutChapters(old(chapters), [chapter], now)
    {
      chapters := chapters[KeyOf(chapter) := StampedChapter(chapter, now)];
      assert [chapter][..0] == [];
    }

    /** Puts every chapter of the batch in one transaction (`forEach` order). */
    method SaveChapters(batch: seq<StoredChapter>, now: int)
      requires Valid()
      modifies this`chapters
      ensures Valid()
      ensures chapters == PutChapters(old(chapters), batch, now)
    {
      var i := 0;
      while i < |batch|
        invariant 0 <= i <= |batch|
        invariant Valid()
        invariant chapters == PutChapters(old(chapters), batch[..i], now)
      {
        assert batch[..i + 1][..i] == batch[..i];
        chapters := chapters[KeyOf(batch[i]) := StampedChapter(batch[i], now)];
        i := i + 1;
      }
      assert batch[..i] == batch;
    }

    method GetChapter(novelId: string, chapterNumber: int) returns (r: Option<StoredChapter>)
      requires Valid()
      ensures r.Some? <==> ChapterKey(novelId, chapterNumber) in chapters
      ensures r.Some? ==>
        r.value == chapters[ChapterKey(novelId, chapterNumber)] && r.value.novelId == novelId && r.value.chapterNumber == chapterNumber
    {
      var k := ChapterKey(novelId, chapterNumber);
      r := if k in chapters then Some(chapters[k]) else None;
    }

    /** The chapters of one novel, in ascending `chapterNumber` order. */
    method GetChaptersByNovel(novelId: string) returns (r: seq<StoredChapter>)
      requires Valid()
      ensures Sorting.SortedAsc(r, (c: StoredChapter) => c.chapterNumber)
      ensures forall c :: c in r <==> c in chapters.Values && c.novelId == novelId
      ensures |r| == |ChapterKeysOf({novelId})|
    {
      var ofNovel := (c: StoredChapter) => c.novelId == novelId;
      var keys, found := IndexGetAll(chapters, ofNovel);
      r := Sorting.SortAsc(found, (c: StoredChapter) => c.chapterNumber);
      Sorting.SameElements(r, found);
      GetAllCount(chapters, ofNovel, keys);
      assert Selected(chapters, ofNovel) == ChapterKeysOf({novelId});
      forall c | c in chapters.Values && c.novelId == novelId ensures c in found {
        var k :| k in chapters && chapters[k] == c;
        assert k in keys;
        var i :| 0 <= i < |keys| && keys[i] == k;
        assert found[i] == c;
      }
    }

    /** The cursor loop over the `novelId` index, deleting each record it visits. */
    method DeleteChaptersForNovel(novelId: string)
      requires Valid()
      modifies this`chapters
      ensures Valid()
      ensures forall k :: k in chapters <==> k in old(chapters) && old(chapters)[k].novelId != novelId
      ensures forall k :: k in chapters ==> chapters[k] == old(chapters)[k]
    {
      var keys, found := IndexGetAll(chapters, (c: StoredChapter) => c.novelId == novelId);
      var i := 0;
      while i < |found|
        invariant 0 <= i <= |found|
        invariant Valid()
        invariant forall k :: k in chapters <==> k in old(chapters) && k !in keys[..i]
        invariant forall k :: k in chapters ==> chapters[k] == old(chapters)[k]
      {
        assert ChapterKey(novelId, found[i].chapterNumber) == keys[i];
        chapters := chapters - {ChapterKey(novelId, found[i].chapterNumber)};
        i := i + 1;
      }
      assert keys[..i] == keys;
    }

    // ============ READ POSITIONS ============

    /** One position per novel; `readAt` is always the save time. */
    method SaveReadPosition(position: ReadPosition, now: int)
      requires Valid()
      modifies this`positions
      ensures Valid()
      ensures positions == old(positions)[position.novelId := position.(readAt := now)]
    {
      positions := positions[position.novelId := position.(readAt := now)];
    }

    method GetReadPosition(novelId: string) returns (r: Option<ReadPosition>)
      requires Valid()
      ensures r.Some? <==> novelId in positions
      ensures r.Some? ==> r.value == positions[novelId] && r.value.novelId == novelId
    {
      r := if novelId in positions then Some(positions[novelId]) else None;
    }

    // ============ IMAGES ============

    method CacheImage(url: string, novelId: string, imageData: string, now: int)
      requires Valid()
      modifies this`images
      ensures Valid()
      ensures images == old(images)[url := OfflineImage(url, novelId, imageData, Utf8Size(imageData), now)]
    {
      images := images[url := OfflineImage(url, novelId, imageData, Utf8Size(imageData), now)];
    }

    /** `request.result?.data` */
    method GetCachedImage(url: string) returns (r: Option<string>)
      requires Valid()
      ensures r.Some? <==> url in images
      ensures r.Some? ==> r.value == images[url].data
    {
      r := if url in images then Some(images[url].data) else None;
    }

    method GetImagesForNovel(novelId: string) returns (r: seq<OfflineImage>)
      requires Valid()
      ensures forall i :: 0 <= i < |r| ==> r[i].url in images && images[r[i].url] == r[i] && r[i].novelId == novelId
      ensures forall u :: u in images && images[u].novelId == novelId ==> images[u] in r
      ensures Lists.Distinct(r)
    {
      var urls;
      urls, r := IndexGetAll(images, (img: OfflineImage) => img.novelId == novelId);
    }

    // ============ SYNC QUEUE ============

    /** `add` with a fresh auto-increment key and status `'pending'`. */
    method QueueSync(op: SyncOperation, now: int)
      requires Valid()
      modifies this`syncQueue, this`nextSyncId
      ensures Valid()
      ensures old(nextSyncId) !in old(syncQueue)
      ensures syncQueue == old(syncQueue)[old(nextSyncId) := SyncEntry(old(nextSyncId), op, now, SyncPending, None)]
      ensures nextSyncId == old(nextSyncId) + 1
    {
      syncQueue := syncQueue[nextSyncId := SyncEntry(nextSyncId, op, now, SyncPending, None)];
      nextSyncId := nextSyncId + 1;
    }

    /** The pending entries, in key order. */
    method GetSyncQueue() returns (r: seq<SyncEntry>)
      requires Valid()
      ensures forall i :: 0 <= i < |r| ==> r[i].id in syncQueue && syncQueue[r[i].id] == r[i] && r[i].status == SyncPending
      ensures forall id :: id in syncQueue && syncQueue[id].status == SyncPending ==> syncQueue[id] in r
      ensures forall i, j :: 0 <= i < j < |r| ==> r[i].id < r[j].id
    {
      r := [];
      var id := 1;
      while id < nextSyncId
        invariant 1 <= id <= nextSyncId
        invariant forall i :: 0 <= i < |r| ==> r[i].id in syncQueue && syncQueue[r[i].id] == r[i] && r[i].status == SyncPending && r[i].id < id
        invariant forall n :: n in syncQueue && n < id && syncQueue[n].status == SyncPending ==> syncQueue[n] in r
        invariant forall i, j :: 0 <= i < j < |r| ==> r[i].id < r[j].id
      {
        if id in syncQueue && syncQueue[id].status == SyncPending {
          r := r + [syncQueue[id]];
        }
        id := id + 1;
      }
    }

    /** Marks one entry complete; an unknown id changes nothing. */
    method MarkSyncComplete(id: nat, now: int)
      requires Valid()
      modifies this`syncQueue
      ensures Valid()
      ensures id in old(syncQueue) ==>
        syncQueue == old(syncQueue)[id := old(syncQueue)[id].(status := SyncComplete, completedAt := Some(now))]
      ensures id !in old(syncQueue) ==> syncQueue == old(syncQueue)
    {
      if id in syncQueue {
        syncQueue := syncQueue[id := syncQueue[id].(status := SyncComplete, completedAt := Some(now))];
      }
    }

    // ============ STORAGE MANAGEMENT ============

    /**
     * Counts the stored novels and, novel by novel, their chapters (so a
     * chapter whose novel is not stored is not counted). A failed estimate
     * makes the whole call return null.
     */
    method GetStorageInfo(estimate: Option<Estimate>) returns (r: Option<StorageInfo>)
      requires Valid()
      ensures estimate.None? ==> r.None?
      ensures estimate.Some? ==>
        && r.Some?
        && r.value.usage == estimate.value.usage && r.value.quota == estimate.value.quota
        && r.value.novelsCount == |novels|
        && r.value.chaptersCount == |ChapterKeysOf(novels.Keys)|
    {
      if estimate.None? {
        return None;
      }
      var all := GetAllNovels();
      var total := 0;
      var i := 0;
      ghost var done: set<string> := {};
      while i < |all|
        invariant 0 <= i <= |all|
        invariant forall j :: 0 <= j < i ==> all[j].id in done
        invariant forall j :: i <= j < |all| ==> all[j].id !in done
        invariant done <= novels.Keys
        invariant total == |ChapterKeysOf(done)|
      {
        var ofNovel := GetChaptersByNovel(all[i].id);
        ChapterKeysAdd(done, all[i].id);
        total := total + |ofNovel|;
        done := done + {all[i].id};
        i := i + 1;
      }
      assert done == novels.Keys by {
        forall id | id in novels ensures id in done {
          var j :| 0 <= j < |all| && all[j] == novels[id];
        }
      }
      r := Some(StorageInfo(estimate.value.usage, estimate.value.quota, |all|, total));
    }

    /**
     * The cursor loop over the `savedAt` index bounded above (inclusively) by
     * the cutoff: deletes each novel it visits and counts it. The chapters
     * store is part of the transaction but is never touched.
     */
    method CleanupOldData(daysOld: int, now: int) returns (deletedCount: nat)
      requires Valid()
      modifies this`novels
      ensures Valid()
      ensures forall id :: id in novels <==> id in old(novels) && old(novels)[id].savedAt > Cutoff(now, daysOld)
      ensures forall id :: id in novels ==> novels[id] == old(novels)[id]
      ensures deletedCount == |ExpiredIds(old(novels), Cutoff(now, daysOld))|
      ensures chapters == old(chapters)
    {
      var cutoff := Cutoff(now, daysOld);
      var expired := (n: StoredNovel) => n.savedAt <= cutoff;
      var ids, visited := IndexGetAll(novels, expired);
      ghost var before := novels;
      assert before == old(novels);
      GetAllCount(before, expired, ids);
      assert Selected(before, expired) == ExpiredIds(before, cutoff);
      deletedCount := 0;
      while deletedCount < |ids|
        invariant deletedCount <= |ids|
        invariant Valid()
        invariant forall id :: id in novels <==> id in before && id !in ids[..deletedCount]
        invariant forall id :: id in novels ==> novels[id] == before[id]
      {
        assert ids[..deletedCount + 1] == ids[..deletedCount] + [ids[deletedCount]];
        novels := novels - {ids[deletedCount]};
        deletedCount := deletedCount + 1;
      }
      assert ids[..deletedCount] == ids;
    }

    // ============ UTILITIES ============

    /** Clears every store; the sync key generator keeps counting. */
    method ClearAll()
      requires Valid()
      modifies this`novels, this`chapters, this`positions, this`images, this`syncQueue
      ensures Valid()
      ensures novels == map[] && chapters == map[] && positions == map[] && images == map[] && syncQueue == map[]
      ensures nextSyncId == old(nextSyncId)
    {
      novels, chapters, positions, images, syncQueue := map[], map[], map[], map[], map[];
    }
  }
}
