/**
 * The top-level screen logic of the client (`App`): tab changes behind the
 * login wall, reading a chapter (which counts a read), comments, new
 * chapters, the review workflow, the reader's previous/next buttons and the
 * derived lists.
 *
 * The logged-in user comes from the authentication hook and is a field
 * here; `Date.now()` is a parameter; whether the list update threw is an
 * input of each handler.
 */
module App {
  import opened Wrappers
  import Text
  import Lists
  import Services
  import opened ClientTypes
  import UseNovels

  datatype Tab = Home | Library | Offline | Write | Admin | Profile

  /** The tabs behind the login wall. */
  predicate NeedsUser(tab: Tab) {
    tab == Library || tab == Write || tab == Admin
  }

  function HasId(id: string): Novel -> bool {
    (n: Novel) => n.id == id
  }

  function ChapterHasId(id: string): Chapter -> bool {
    (c: Chapter) => c.id == id
  }

  /** Index of `novels.find(n => n.id === id)`, or -1. */
  function NovelIndex(novels: seq<Novel>, id: string): int {
    Lists.FindIndex(novels, HasId(id))
  }

  /** Index of the first chapter with that id, or -1. */
  function ChapterIndexOf(chapters: seq<Chapter>, id: string): int {
    Lists.FindIndex(chapters, ChapterHasId(id))
  }

  /** No two chapters share an id, and no id is empty (an empty id closes the reader). */
  predicate UniqueChapterIds(chapters: seq<Chapter>) {
    && (forall i, j :: 0 <= i < j < |chapters| ==> chapters[i].id != chapters[j].id)
    && (forall i :: 0 <= i < |chapters| ==> chapters[i].id != "")
  }

  /** With unique ids, looking a chapter up by its own id finds its position. */
  lemma ChapterIndexOfOwnId(chapters: seq<Chapter>, k: nat)
    requires UniqueChapterIds(chapters) && k < |chapters|
    ensures ChapterIndexOf(chapters, chapters[k].id) == k
  {
    var r := ChapterIndexOf(chapters, chapters[k].id);
    assert ChapterHasId(chapters[k].id)(chapters[k]);
    if r != k {
      assert ChapterHasId(chapters[k].id)(chapters[r]);
    }
  }

  // ------------------------------------------------------------ reading a chapter

  /** The chapters with the read count of chapter `chapterId` raised by one, or nothing if there is no such chapter. */
  function ReadChapters(chapters: seq<Chapter>, chapterId: string): (r: Option<seq<Chapter>>)
    ensures r.Some? <==> ChapterIndexOf(chapters, chapterId) != -1
    ensures r.Some? ==>
      var k := ChapterIndexOf(chapters, chapterId);
      && |r.value| == |chapters|
      && r.value[k] == chapters[k].(readCount := chapters[k].readCount + 1)
      && forall j :: 0 <= j < |chapters| && j != k ==> r.value[j] == chapters[j]
  {
    var k := ChapterIndexOf(chapters, chapterId);
    if k == -1 then None
    else Some(chapters[k := chapters[k].(readCount := chapters[k].readCount + 1)])
  }

  /** Counting a read adds exactly one to the novel's total reads. */
  lemma ReadAddsOne(chapters: seq<Chapter>, chapterId: string)
    requires ReadChapters(chapters, chapterId).Some?
    ensures Services.SumReads(ReadChapters(chapters, chapterId).value) == Services.SumReads(chapters) + 1
  {
    SumReadsBump(chapters, ChapterIndexOf(chapters, chapterId), ReadChapters(chapters, chapterId).value);
  }

  lemma {:induction false} SumReadsBump(chapters: seq<Chapter>, k: nat, bumped: seq<Chapter>)
    requires k < |chapters| && |bumped| == |chapters|
    requires bumped[k].readCount == chapters[k].readCount + 1
    requires forall j :: 0 <= j < |chapters| && j != k ==> bumped[j] == chapters[j]
    ensures Services.SumReads(bumped) == Services.SumReads(chapters) + 1
    decreases |chapters|
  {
    var n := |chapters|;
    if k == n - 1 {
      assert bumped[..n - 1] == chapters[..n - 1];
    } else {
      SumReadsBump(chapters[..n - 1], k, bumped[..n - 1]);
    }
  }

  /** Counting a read keeps every chapter id. */
  lemma ReadKeepsIds(chapters: seq<Chapter>, chapterId: string)
    requires ReadChapters(chapters, chapterId).Some?
    ensures forall j :: 0 <= j < |chapters| ==> ReadChapters(chapters, chapterId).value[j].id == chapters[j].id
  {
  }

  /**
   * The chapters `handleReadChapter` writes back: only for a logged-in user,
   * a novel with that id and a chapter with that id in it.
   */
  function ReadUpdate(novels: seq<Novel>, loggedIn: bool, novelId: string, chapterId: string): (r: Option<seq<Chapter>>)
    ensures r.Some? <==>
      && loggedIn && NovelIndex(novels, novelId) != -1
      && ChapterIndexOf(novels[NovelIndex(novels, novelId)].chapters, chapterId) != -1
    ensures r.Some? ==> r == ReadChapters(novels[NovelIndex(novels, novelId)].chapters, chapterId)
  {
    var i := NovelIndex(novels, novelId);
    if !loggedIn || i == -1 then None else ReadChapters(novels[i].chapters, chapterId)
  }

  /**
   * The novel list after `handleReadChapter`: the read-count bump lands on
   * the novel only when there is one to write back and `updateNovel` did
   * not throw; otherwise the list is as before.
   */
  function AfterRead(novels: seq<Novel>, loggedIn: bool, novelId: string, chapterId: string, apiThrew: bool): (r: seq<Novel>)
    ensures |r| == |novels|
    ensures ReadUpdate(novels, loggedIn, novelId, chapterId).None? || apiThrew ==> r == novels
    ensures forall i :: 0 <= i < |r| && novels[i].id != novelId ==> r[i] == novels[i]
  {
    var update := ReadUpdate(novels, loggedIn, novelId, chapterId);
    if update.Some? && !apiThrew then UseNovels.ApplyUpdate(novels, novelId, ChaptersPatch(update.value)) else novels
  }

  // ------------------------------------------------------------ comments

  /** The comment `handleAddComment` builds. */
  function NewComment(user: User, content: string, now: int): Comment {
    Comment("cmt-" + Text.IntToString(now), user.id, user.name, user.avatarUrl, content, now)
  }

  /** The chapters with `comment` put first in chapter `chapterId`'s comments. */
  function Commented(chapters: seq<Chapter>, chapterId: string, comment: Comment): (r: Option<seq<Chapter>>)
    ensures r.Some? <==> ChapterIndexOf(chapters, chapterId) != -1
    ensures r.Some? ==>
      var k := ChapterIndexOf(chapters, chapterId);
      && |r.value| == |chapters|
      && r.value[k] == chapters[k].(comments := [comment] + chapters[k].comments)
      && forall j :: 0 <= j < |chapters| && j != k ==> r.value[j] == chapters[j]
  {
    var k := ChapterIndexOf(chapters, chapterId);
    if k == -1 then None
    else Some(chapters[k := chapters[k].(comments := [comment] + chapters[k].comments)])
  }

  /** A non-null, non-empty id (`!id` is false). */
  predicate Present(id: Option<string>) {
    id.Some? && id.value != ""
  }

  /** The novel and chapters `handleAddComment` writes back, if the user, novel and chapter all exist. */
  function CommentUpdate(novels: seq<Novel>, user: Option<User>, viewNovelId: Option<string>, readChapterId: Option<string>,
                         content: string, now: int): (r: Option<seq<Chapter>>)
    ensures r.Some? ==> user.Some? && Present(viewNovelId) && Present(readChapterId) && NovelIndex(novels, viewNovelId.value) != -1
    ensures r.Some? ==>
      r == Commented(novels[NovelIndex(novels, viewNovelId.value)].chapters, readChapterId.value,
                     NewComment(user.value, content, now))
    ensures (&& user.Some? && Present(viewNovelId) && Present(readChapterId) && NovelIndex(novels, viewNovelId.value) != -1
             && ChapterIndexOf(novels[NovelIndex(novels, viewNovelId.value)].chapters, readChapterId.value) != -1)
      ==> r.Some?
  {
    if user.None? || !Present(viewNovelId) || !Present(readChapterId) then None
    else
      var i := NovelIndex(novels, viewNovelId.value);
      if i == -1 then None
      else Commented(novels[i].chapters, readChapterId.value, NewComment(user.value, content, now))
  }

  // ------------------------------------------------------------ new chapters

  /** The chapter `handleAddChapter` appends to a novel with `count` chapters. */
  function NewChapter(count: nat, now: int): Chapter {
    Chapter("ch-" + Text.IntToString(now), "Chương " + Text.NatToString(count + 1), "", count + 1, 0, None, [], now)
  }

  /** The appended chapter is numbered by its 1-based position, titled with that number, empty and unread. */
  lemma NewChapterNumbering(chapters: seq<Chapter>, now: int)
    ensures var cs := chapters + [NewChapter(|chapters|, now)];
      && cs[..|chapters|] == chapters
      && cs[|cs| - 1].order == |cs|
      && cs[|cs| - 1].title == "Chương " + Text.NatToString(|cs|)
      && cs[|cs| - 1].content == "" && cs[|cs| - 1].readCount == 0 && cs[|cs| - 1].comments == []
      && Services.SumReads(cs) == Services.SumReads(chapters)
  {
    var cs := chapters + [NewChapter(|chapters|, now)];
    assert cs[..|cs| - 1] == chapters;
  }

  // ------------------------------------------------------------ review workflow

  /** Submission needs the novel to exist and have at least one chapter. */
  predicate CanSubmit(novels: seq<Novel>, novelId: string) {
    NovelIndex(novels, novelId) != -1 && |novels[NovelIndex(novels, novelId)].chapters| > 0
  }

  // ------------------------------------------------------------ reader navigation

  /** The reader's position: the index of the open chapter in the open novel, or -1. */
  function ReaderIndex(novels: seq<Novel>, viewNovelId: Option<string>, readChapterId: Option<string>): (r: int)
    ensures r != -1 ==> viewNovelId.Some? && NovelIndex(novels, viewNovelId.value) != -1
    ensures r != -1 ==> 0 <= r < |novels[NovelIndex(novels, viewNovelId.value)].chapters|
  {
    if viewNovelId.None? || !Present(readChapterId) then -1
    else
      var i := NovelIndex(novels, viewNovelId.value);
      if i == -1 then -1 else ChapterIndexOf(novels[i].chapters, readChapterId.value)
  }

  /** `hasPrev` */
  predicate HasPrev(index: int) {
    index > 0
  }

  /** `hasNext` */
  predicate HasNext(index: int, count: nat) {
    index < count - 1
  }

  /** After counting a read in novel `novelId`, the same novel is found first and holds the new chapters. */
  lemma UpdatedNovelFound(novels: seq<Novel>, novelId: string, chapters: seq<Chapter>)
    requires NovelIndex(novels, novelId) != -1
    ensures var after := UseNovels.ApplyUpdate(novels, novelId, ChaptersPatch(chapters));
      && NovelIndex(after, novelId) == NovelIndex(novels, novelId)
      && after[NovelIndex(novels, novelId)].chapters == chapters
  {
    var after := UseNovels.ApplyUpdate(novels, novelId, ChaptersPatch(chapters));
    Lists.FindIndexSame(after, novels, HasId(novelId), HasId(novelId));
  }

  // ------------------------------------------------------------ derived lists

  /** `libraryNovels`: the novels in the user's library; none without a user. */
  function LibraryNovels(novels: seq<Novel>, user: Option<User>): (r: seq<Novel>)
    ensures user.None? ==> r == []
    ensures user.Some? ==> forall i :: 0 <= i < |r| ==> r[i] in novels && r[i].id in user.value.library
    ensures user.Some? ==> forall i :: 0 <= i < |novels| && novels[i].id in user.value.library ==> novels[i] in r
  {
    if user.None? then [] else Lists.Filter(novels, (n: Novel) => n.id in user.value.library)
  }

  /** `myNovels`: the novels the user wrote; none without a user. */
  function MyNovels(novels: seq<Novel>, user: Option<User>): (r: seq<Novel>)
    ensures user.None? ==> r == []
    ensures user.Some? ==> forall i :: 0 <= i < |r| ==> r[i] in novels && r[i].authorId == user.value.id
    ensures user.Some? ==> forall i :: 0 <= i < |novels| && novels[i].authorId == user.value.id ==> novels[i] in r
  {
    if user.None? then [] else Lists.Filter(novels, (n: Novel) => n.authorId == user.value.id)
  }

  /** `pendingNovels`: the novels waiting for review. */
  function PendingNovels(novels: seq<Novel>): (r: seq<Novel>)
    ensures forall i :: 0 <= i < |r| ==> r[i] in novels && r[i].status == Pending
    ensures forall i :: 0 <= i < |novels| && novels[i].status == Pending ==> novels[i] in r
  {
    Lists.Filter(novels, (n: Novel) => n.status == Pending)
  }

  // ------------------------------------------------------------ the screen state

  class AppState {
    const novelsHook: UseNovels.NovelsHook
    var currentUser: Option<User>
    var activeTab: Tab
    var showAuthModal: bool
    var isEditingProfile: bool
    var viewNovelId: Option<string>
    var readChapterId: Option<string>

    constructor(novelsHook: UseNovels.NovelsHook, currentUser: Option<User>)
      ensures this.novelsHook == novelsHook && this.currentUser == currentUser
      ensures activeTab == Home && !showAuthModal && !isEditingProfile
      ensures viewNovelId.None? && readChapterId.None?
    {
      this.novelsHook := novelsHook;
      this.currentUser := currentUser;
      activeTab := Home;
      showAuthModal := false;
      isEditingProfile := false;
      viewNovelId := None;
      readChapterId := None;
    }

    /**
     * `handleTabChange`: a tab behind the login wall opens the login dialog
     * instead when no one is logged in; leaving for any tab but the profile
     * ends profile editing.
     */
    method HandleTabChange(tab: Tab)
      modifies this`activeTab, this`showAuthModal, this`isEditingProfile
      ensures NeedsUser(tab) && currentUser.None? ==>
        showAuthModal && activeTab == old(activeTab) && isEditingProfile == old(isEditingProfile)
      ensures !(NeedsUser(tab) && currentUser.None?) ==>
        && activeTab == tab && showAuthModal == old(showAuthModal)
        && isEditingProfile == (if tab == Profile then old(isEditingProfile) else false)
    {
      if NeedsUser(tab) && currentUser.None? {
        showAuthModal := true;
        return;
      }
      activeTab := tab;
      if tab != Profile {
        isEditingProfile := false;
      }
    }

    /** `handleReadChapter`: opens the chapter and, for a logged-in reader, counts the read. */
    method HandleReadChapter(novelId: string, chapterId: string, apiThrew: bool)
      modifies this`viewNovelId, this`readChapterId, novelsHook`novels
      ensures viewNovelId == Some(novelId) && readChapterId == Some(chapterId)
      ensures novelsHook.novels == AfterRead(old(novelsHook.novels), currentUser.Some?, novelId, chapterId, apiThrew)
    {
      viewNovelId := Some(novelId);
      readChapterId := Some(chapterId);
      var i := NovelIndex(novelsHook.novels, novelId);
      if i != -1 && currentUser.Some? {
        var updated := ReadChapters(novelsHook.novels[i].chapters, chapterId);
        if updated.Some? {
          var _ := novelsHook.UpdateNovel(novelId, ChaptersPatch(updated.value), apiThrew);
        }
      }
    }

    /** `handleAddComment`: prepends the user's comment to the open chapter. */
    method HandleAddComment(content: string, now: int, apiThrew: bool)
      modifies novelsHook`novels
      ensures
        var update := CommentUpdate(old(novelsHook.novels), currentUser, viewNovelId, readChapterId, content, now);
        novelsHook.novels ==
          if update.Some? && !apiThrew then UseNovels.ApplyUpdate(old(novelsHook.novels), viewNovelId.value, ChaptersPatch(update.value))
          else old(novelsHook.novels)
    {
      if currentUser.None? || !Present(viewNovelId) || !Present(readChapterId) {
        return;
      }
      var i := NovelIndex(novelsHook.novels, viewNovelId.value);
      if i == -1 {
        return;
      }
      var chapters := novelsHook.novels[i].chapters;
      var k := ChapterIndexOf(chapters, readChapterId.value);
      if k == -1 {
        return;
      }
      var comment := NewComment(currentUser.value, content, now);
      var updated := chapters[k := chapters[k].(comments := [comment] + chapters[k].comments)];
      assert novelsHook.novels[i].id == viewNovelId.value;
      var _ := novelsHook.UpdateNovel(novelsHook.novels[i].id, ChaptersPatch(updated), apiThrew);
    }

    /** `handleAddChapter`: appends a new empty chapter to the novel, if it exists. */
    method HandleAddChapter(novelId: string, now: int, apiThrew: bool)
      modifies novelsHook`novels
      ensures
        var i := NovelIndex(old(novelsHook.novels), novelId);
        novelsHook.novels ==
          if i != -1 && !apiThrew then
            var chapters := old(novelsHook.novels)[i].chapters;
            UseNovels.ApplyUpdate(old(novelsHook.novels), novelId, ChaptersPatch(chapters + [NewChapter(|chapters|, now)]))
          else old(novelsHook.novels)
    {
      var i := NovelIndex(novelsHook.novels, novelId);
      if i == -1 {
        return;
      }
      var chapters := novelsHook.novels[i].chapters;
      var _ := novelsHook.UpdateNovel(novelId, ChaptersPatch(chapters + [NewChapter(|chapters|, now)]), apiThrew);
    }

    /** `handleSubmitForReview`: refused without a novel or chapters, otherwise marks the novel pending. */
    method HandleSubmitForReview(novelId: string, apiThrew: bool) returns (accepted: bool)
      modifies novelsHook`novels
      ensures accepted == CanSubmit(old(novelsHook.novels), novelId)
      ensures novelsHook.novels ==
        if accepted && !apiThrew then UseNovels.ApplyUpdate(old(novelsHook.novels), novelId, StatusPatch(Pending))
        else old(novelsHook.novels)
    {
      var i := NovelIndex(novelsHook.novels, novelId);
      if i == -1 || |novelsHook.novels[i].chapters| == 0 {
        return false;
      }
      var _ := novelsHook.UpdateNovel(novelId, StatusPatch(Pending), apiThrew);
      return true;
    }

    /** `handleApproveNovel` */
    method HandleApproveNovel(novelId: string, apiThrew: bool)
      modifies novelsHook`novels
      ensures novelsHook.novels ==
        if apiThrew then old(novelsHook.novels) else UseNovels.ApplyUpdate(old(novelsHook.novels), novelId, StatusPatch(Approved))
    {
      var _ := novelsHook.UpdateNovel(novelId, StatusPatch(Approved), apiThrew);
    }

    /** `handleRejectNovel` */
    method HandleRejectNovel(novelId: string, apiThrew: bool)
      modifies novelsHook`novels
      ensures novelsHook.novels ==
        if apiThrew then old(novelsHook.novels) else UseNovels.ApplyUpdate(old(novelsHook.novels), novelId, StatusPatch(Rejected))
    {
      var _ := novelsHook.UpdateNovel(novelId, StatusPatch(Rejected), apiThrew);
    }

    /**
     * The reader's previous button: opens the chapter before the current one
     * when there is one. With unique chapter ids the reader then stands
     * exactly one chapter earlier.
     */
    method OnPrev(apiThrew: bool)
      requires ReaderIndex(novelsHook.novels, viewNovelId, readChapterId) != -1
      modifies this`viewNovelId, this`readChapterId, novelsHook`novels
      ensures
        var k := ReaderIndex(old(novelsHook.novels), old(viewNovelId), old(readChapterId));
        var chapters := old(novelsHook.novels)[NovelIndex(old(novelsHook.novels), old(viewNovelId).value)].chapters;
        && (HasPrev(k) ==> viewNovelId == old(viewNovelId) && readChapterId == Some(chapters[k - 1].id))
        && (HasPrev(k) ==>
              novelsHook.novels == AfterRead(old(novelsHook.novels), currentUser.Some?, old(viewNovelId).value, chapters[k - 1].id, apiThrew))
        && (HasPrev(k) && UniqueChapterIds(chapters) ==> ReaderIndex(novelsHook.novels, viewNovelId, readChapterId) == k - 1)
        && (!HasPrev(k) ==> viewNovelId == old(viewNovelId) && readChapterId == old(readChapterId)
                            && novelsHook.novels == old(novelsHook.novels))
    {
      var i := NovelIndex(novelsHook.novels, viewNovelId.value);
      var k := ReaderIndex(novelsHook.novels, viewNovelId, readChapterId);
      if k > 0 {
        var target := novelsHook.novels[i].chapters[k - 1].id;
        if UniqueChapterIds(novelsHook.novels[i].chapters) {
          ChapterIndexOfOwnId(novelsHook.novels[i].chapters, k - 1);
        }
        Step(viewNovelId.value, target, apiThrew);
      }
    }

    /**
     * The reader's next button: opens the chapter after the current one when
     * there is one. With unique chapter ids the reader then stands exactly
     * one chapter later.
     */
    method OnNext(apiThrew: bool)
      requires ReaderIndex(novelsHook.novels, viewNovelId, readChapterId) != -1
      modifies this`viewNovelId, this`readChapterId, novelsHook`novels
      ensures
        var k := ReaderIndex(old(novelsHook.novels), old(viewNovelId), old(readChapterId));
        var chapters := old(novelsHook.novels)[NovelIndex(old(novelsHook.novels), old(viewNovelId).value)].chapters;
        && (HasNext(k, |chapters|) ==> viewNovelId == old(viewNovelId) && readChapterId == Some(chapters[k + 1].id))
        && (HasNext(k, |chapters|) ==>
              novelsHook.novels == AfterRead(old(novelsHook.novels), currentUser.Some?, old(viewNovelId).value, chapters[k + 1].id, apiThrew))
        && (HasNext(k, |chapters|) && UniqueChapterIds(chapters) ==>
              ReaderIndex(novelsHook.novels, viewNovelId, readChapterId) == k + 1)
        && (!HasNext(k, |chapters|) ==> viewNovelId == old(viewNovelId) && readChapterId == old(readChapterId)
                                        && novelsHook.novels == old(novelsHook.novels))
    {
      var i := NovelIndex(novelsHook.novels, viewNovelId.value);
      var k := ReaderIndex(novelsHook.novels, viewNovelId, readChapterId);
      if k < |novelsHook.novels[i].chapters| - 1 {
        var target := novelsHook.novels[i].chapters[k + 1].id;
        if UniqueChapterIds(novelsHook.novels[i].chapters) {
          ChapterIndexOfOwnId(novelsHook.novels[i].chapters, k + 1);
        }
        Step(viewNovelId.value, target, apiThrew);
      }
    }

    /** `handleReadChapter` on a chapter of the open novel, with what it does to the reader's position. */
    method Step(novelId: string, chapterId: string, apiThrew: bool)
      requires NovelIndex(novelsHook.novels, novelId) != -1
      requires ChapterIndexOf(novelsHook.novels[NovelIndex(novelsHook.novels, novelId)].chapters, chapterId) != -1
      modifies this`viewNovelId, this`readChapterId, novelsHook`novels
      ensures viewNovelId == Some(novelId) && readChapterId == Some(chapterId)
      ensures novelsHook.novels == AfterRead(old(novelsHook.novels), currentUser.Some?, novelId, chapterId, apiThrew)
      ensures
        var chapters := old(novelsHook.novels)[NovelIndex(old(novelsHook.novels), novelId)].chapters;
        chapterId != "" && UniqueChapterIds(chapters) ==>
          ReaderIndex(novelsHook.novels, viewNovelId, readChapterId) == ChapterIndexOf(chapters, chapterId)
    {
      ghost var before := novelsHook.novels;
      ghost var i := NovelIndex(before, novelId);
      ghost var chapters := before[i].chapters;
      HandleReadChapter(novelId, chapterId, apiThrew);
      var update := ReadUpdate(before, currentUser.Some?, novelId, chapterId);
      if update.Some? && !apiThrew {
        UpdatedNovelFound(before, novelId, update.value);
        ReadKeepsIds(chapters, chapterId);
        Lists.FindIndexSame(update.value, chapters, ChapterHasId(chapterId), ChapterHasId(chapterId));
      }
    }
  }
}
