/**
 * The chapter and comment handlers of the server (`chapterController.ts`):
 * each looks the novel up by id, then the chapter by id inside it, edits the
 * chapter list or one chapter in place and saves the novel.
 *
 * `Date.now()` is a parameter; a failed save (status 500) is not modelled.
 */
module ChapterController {
  import opened Wrappers
  import Lists
  import Text
  import opened ServerTypes

  const ChapterFieldsRequired := "title, content, and order are required"
  const CommentFieldsRequired := "userId, userName, and content are required"
  const CommentNotFound := "Comment not found"

  /** The body of `createChapter` and `updateChapter`; a missing key is `None`. */
  datatype ChapterBody = ChapterBody(title: Option<string>, content: Option<string>, order: Option<int>)

  /** The body of `addComment`. */
  datatype CommentBody = CommentBody(
    userId: Option<string>, userName: Option<string>, userAvatar: Option<string>, content: Option<string>)

  /** Where a chapter was found: its novel is missing, it is missing, or it is the first at index `k`. */
  datatype Lookup = NoNovel | NoChapter | Found(k: nat)

  function Locate(docs: map<string, ServerNovel>, novelId: string, chapterId: string): (r: Lookup)
    ensures r.NoNovel? <==> novelId !in docs
    ensures r.NoChapter? ==> novelId in docs && forall j :: 0 <= j < |docs[novelId].chapters| ==> docs[novelId].chapters[j].id != chapterId
    ensures r.Found? ==>
      && novelId in docs && r.k < |docs[novelId].chapters| && docs[novelId].chapters[r.k].id == chapterId
      && forall j :: 0 <= j < r.k ==> docs[novelId].chapters[j].id != chapterId
  {
    if novelId !in docs then NoNovel
    else
      var k := ChapterIndex(docs[novelId].chapters, chapterId);
      if k == -1 then NoChapter else Found(k)
  }

  /** The 404 reply of a failed lookup. */
  function NotFound<T>(l: Lookup): (r: Reply<T>)
    ensures r.Fail? && r.status == 404
    ensures l.NoNovel? ==> r.error == NovelNotFound
    ensures l.NoChapter? ==> r.error == ChapterNotFound
  {
    if l.NoNovel? then Fail(404, NovelNotFound) else Fail(404, ChapterNotFound)
  }

  /** The collection with chapter `k` of novel `novelId` replaced by `c`. */
  function ReplaceChapter(docs: map<string, ServerNovel>, novelId: string, k: nat, c: ServerChapter): map<string, ServerNovel>
    requires novelId in docs && k < |docs[novelId].chapters|
  {
    docs[novelId := docs[novelId].(chapters := docs[novelId].chapters[k := c])]
  }

  // ------------------------------------------------------------ chapters

  /** `createChapter` refuses a falsy title or content and a missing order (0 is an order). */
  predicate ChapterBodyInvalid(body: ChapterBody) {
    Falsy(body.title) || Falsy(body.content) || body.order.None?
  }

  /** The chapter `createChapter` appends: unread, unliked and uncommented. */
  function NewChapter(novelId: string, body: ChapterBody, now: int): (c: ServerChapter)
    requires !ChapterBodyInvalid(body)
    ensures c.novelId == novelId && c.title == body.title.value && c.content == body.content.value && c.order == body.order.value
    ensures c.readCount == Some(0) && c.likeCount == Some(0) && c.comments == [] && c.publishedAt == now
  {
    ServerChapter("ch-" + Text.IntToString(now), novelId, body.title.value, body.content.value, body.order.value,
                  Some(0), Some(0), [], now)
  }

  /** `updateChapter`: the title, content and order given in the body replace the chapter's; nothing else changes. */
  function UpdatedChapter(c: ServerChapter, body: ChapterBody): (r: ServerChapter)
    ensures r.title == body.title.GetOr(c.title) && r.content == body.content.GetOr(c.content) && r.order == body.order.GetOr(c.order)
    ensures r.(title := c.title, content := c.content, order := c.order) == c
  {
    c.(title := body.title.GetOr(c.title), content := body.content.GetOr(c.content), order := body.order.GetOr(c.order))
  }

  /** Counters: a missing count is 0. */
  function Reads(c: ServerChapter): int {
    c.readCount.GetOr(0)
  }

  function Likes(c: ServerChapter): int {
    c.likeCount.GetOr(0)
  }

  /** `incrementReadCount` on one chapter. */
  function CountedRead(c: ServerChapter): (r: ServerChapter)
    ensures Reads(r) == Reads(c) + 1 && r.(readCount := c.readCount) == c
  {
    c.(readCount := Some(Reads(c) + 1))
  }

  /** `toggleLike` on one chapter: it only ever adds a like. */
  function Liked(c: ServerChapter): (r: ServerChapter)
    ensures Likes(r) == Likes(c) + 1 && r.(likeCount := c.likeCount) == c
  {
    c.(likeCount := Some(Likes(c) + 1))
  }

  /** Despite its name, toggling twice does not undo a like: it adds two. */
  lemma ToggleTwiceAddsTwo(c: ServerChapter)
    ensures Likes(Liked(Liked(c))) == Likes(c) + 2
    ensures Liked(Liked(c)) != c
  {
  }

  /** `createChapter`: checks the body first, then the novel, and appends the new chapter last. */
  method CreateChapter(db: NovelCollection, novelId: string, body: ChapterBody, now: int) returns (reply: Reply<ServerChapter>)
    requires db.Valid()
    modifies db
    ensures db.Valid()
    ensures ChapterBodyInvalid(body) ==> reply == Fail(400, ChapterFieldsRequired) && db.docs == old(db.docs)
    ensures !ChapterBodyInvalid(body) && novelId !in old(db.docs) ==> reply == Fail(404, NovelNotFound) && db.docs == old(db.docs)
    ensures !ChapterBodyInvalid(body) && novelId in old(db.docs) ==>
      && reply == Ok(201, NewChapter(novelId, body, now))
      && db.docs == old(db.docs)[novelId := old(db.docs)[novelId].(chapters := old(db.docs)[novelId].chapters + [reply.data])]
  {
    if ChapterBodyInvalid(body) {
      return Fail(400, ChapterFieldsRequired);
    }
    if novelId !in db.docs {
      return Fail(404, NovelNotFound);
    }
    var novel := db.docs[novelId];
    var chapter := NewChapter(novelId, body, now);
    db.docs := db.docs[novelId := novel.(chapters := novel.chapters + [chapter])];
    return Ok(201, chapter);
  }

  /** `updateChapter` */
  method UpdateChapter(db: NovelCollection, novelId: string, chapterId: string, body: ChapterBody) returns (reply: Reply<ServerChapter>)
    requires db.Valid()
    modifies db
    ensures db.Valid()
    ensures
      var l := Locate(old(db.docs), novelId, chapterId);
      if l.Found? then
        var c := UpdatedChapter(old(db.docs)[novelId].chapters[l.k], body);
        reply == Ok(200, c) && db.docs == ReplaceChapter(old(db.docs), novelId, l.k, c)
      else reply == NotFound(l) && db.docs == old(db.docs)
  {
    var l := Locate(db.docs, novelId, chapterId);
    if !l.Found? {
      return NotFound(l);
    }
    var c := UpdatedChapter(db.docs[novelId].chapters[l.k], body);
    db.docs := ReplaceChapter(db.docs, novelId, l.k, c);
    return Ok(200, c);
  }

  /** `deleteChapter`: removes the first chapter with that id; the rest keep their order. */
  method DeleteChapter(db: NovelCollection, novelId: string, chapterId: string) returns (reply: Reply<()>)
    requires db.Valid()
    modifies db
    ensures db.Valid()
    ensures
      var l := Locate(old(db.docs), novelId, chapterId);
      if l.Found? then
        var n := old(db.docs)[novelId];
        reply == Ok(200, ()) && db.docs == old(db.docs)[novelId := n.(chapters := Lists.RemoveAt(n.chapters, l.k))]
      else reply == NotFound(l) && db.docs == old(db.docs)
  {
    var l := Locate(db.docs, novelId, chapterId);
    if !l.Found? {
      return NotFound(l);
    }
    var n := db.docs[novelId];
    db.docs := db.docs[novelId := n.(chapters := Lists.RemoveAt(n.chapters, l.k))];
    return Ok(200, ());
  }

  /** `getChapter`: the first chapter with that id, or 404 for a missing novel or chapter. */
  function GetChapter(docs: map<string, ServerNovel>, novelId: string, chapterId: string): (reply: Reply<ServerChapter>)
    ensures reply.Ok? <==> novelId in docs && exists j :: 0 <= j < |docs[novelId].chapters| && docs[novelId].chapters[j].id == chapterId
    ensures reply.Ok? ==> reply.status == 200 && reply.data.id == chapterId && reply.data in docs[novelId].chapters
    ensures reply.Fail? ==> reply.status == 404
  {
    var l := Locate(docs, novelId, chapterId);
    if l.Found? then Ok(200, docs[novelId].chapters[l.k]) else NotFound(l)
  }

  /** `incrementReadCount` */
  method IncrementReadCount(db: NovelCollection, novelId: string, chapterId: string) returns (reply: Reply<()>)
    requires db.Valid()
    modifies db
    ensures db.Valid()
    ensures
      var l := Locate(old(db.docs), novelId, chapterId);
      if l.Found? then
        reply == Ok(200, ()) && db.docs == ReplaceChapter(old(db.docs), novelId, l.k, CountedRead(old(db.docs)[novelId].chapters[l.k]))
      else reply == NotFound(l) && db.docs == old(db.docs)
  {
    var l := Locate(db.docs, novelId, chapterId);
    if !l.Found? {
      return NotFound(l);
    }
    db.docs := ReplaceChapter(db.docs, novelId, l.k, CountedRead(db.docs[novelId].chapters[l.k]));
    return Ok(200, ());
  }

  /** `toggleLike` */
  method ToggleLike(db: NovelCollection, novelId: string, chapterId: string) returns (reply: Reply<()>)
    requires db.Valid()
    modifies db
    ensures db.Valid()
    ensures
      var l := Locate(old(db.docs), novelId, chapterId);
      if l.Found? then
        reply == Ok(200, ()) && db.docs == ReplaceChapter(old(db.docs), novelId, l.k, Liked(old(db.docs)[novelId].chapters[l.k]))
      else reply == NotFound(l) && db.docs == old(db.docs)
  {
    var l := Locate(db.docs, novelId, chapterId);
    if !l.Found? {
      return NotFound(l);
    }
    db.docs := ReplaceChapter(db.docs, novelId, l.k, Liked(db.docs[novelId].chapters[l.k]));
    return Ok(200, ());
  }

  // ------------------------------------------------------------ comments

  predicate CommentBodyInvalid(body: CommentBody) {
    Falsy(body.userId) || Falsy(body.userName) || Falsy(body.content)
  }

  function NewComment(body: CommentBody, now: int): ServerComment
    requires !CommentBodyInvalid(body)
  {
    ServerComment("cmt-" + Text.IntToString(now), body.userId.value, body.userName.value, body.userAvatar,
                  body.content.value, now)
  }

  /** The server puts a new comment last, after the existing ones, while the client puts it first: the two orders disagree as soon as there was another comment. */
  lemma ServerAppendsClientPrepends(comments: seq<ServerComment>, comment: ServerComment)
    ensures var server := comments + [comment];
      server[|server| - 1] == comment && server[..|comments|] == comments
    ensures comments != [] && comment !in comments ==> comments + [comment] != [comment] + comments
  {
    if comments != [] && comment !in comments {
      assert (comments + [comment])[0] == comments[0] != comment;
    }
  }

  /** `addComment`: checks the body first, then looks the chapter up, and appends the comment. */
  method AddComment(db: NovelCollection, novelId: string, chapterId: string, body: CommentBody, now: int)
    returns (reply: Reply<ServerComment>)
    requires db.Valid()
    modifies db
    ensures db.Valid()
    ensures CommentBodyInvalid(body) ==> reply == Fail(400, CommentFieldsRequired) && db.docs == old(db.docs)
    ensures !CommentBodyInvalid(body) ==>
      var l := Locate(old(db.docs), novelId, chapterId);
      if l.Found? then
        var c := old(db.docs)[novelId].chapters[l.k];
        && reply == Ok(201, NewComment(body, now))
        && db.docs == ReplaceChapter(old(db.docs), novelId, l.k, c.(comments := c.comments + [reply.data]))
      else reply == NotFound(l) && db.docs == old(db.docs)
  {
    if CommentBodyInvalid(body) {
      return Fail(400, CommentFieldsRequired);
    }
    var l := Locate(db.docs, novelId, chapterId);
    if !l.Found? {
      return NotFound(l);
    }
    var comment := NewComment(body, now);
    var c := db.docs[novelId].chapters[l.k];
    db.docs := ReplaceChapter(db.docs, novelId, l.k, c.(comments := c.comments + [comment]));
    return Ok(201, comment);
  }

  /** `deleteComment`: removes the first comment with that id, or 404 when there is none. */
  method DeleteComment(db: NovelCollection, novelId: string, chapterId: string, commentId: string) returns (reply: Reply<()>)
    requires db.Valid()
    modifies db
    ensures db.Valid()
    ensures
      var l := Locate(old(db.docs), novelId, chapterId);
      if !l.Found? then reply == NotFound(l) && db.docs == old(db.docs)
      else
        var c := old(db.docs)[novelId].chapters[l.k];
        var j := Lists.FindIndex(c.comments, (m: ServerComment) => m.id == commentId);
        if j == -1 then reply == Fail(404, CommentNotFound) && db.docs == old(db.docs)
        else reply == Ok(200, ()) && db.docs == ReplaceChapter(old(db.docs), novelId, l.k, c.(comments := Lists.RemoveAt(c.comments, j)))
  {
    var l := Locate(db.docs, novelId, chapterId);
    if !l.Found? {
      return NotFound(l);
    }
    var c := db.docs[novelId].chapters[l.k];
    var j := Lists.FindIndex(c.comments, (m: ServerComment) => m.id == commentId);
    if j == -1 {
      return Fail(404, CommentNotFound);
    }
    db.docs := ReplaceChapter(db.docs, novelId, l.k, c.(comments := Lists.RemoveAt(c.comments, j)));
    return Ok(200, ());
  }
}
