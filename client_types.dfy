/**
 * The client's records (`types.ts`) and the object spread `{...n, ...updates}`
 * with which the client applies a partial update to a novel.
 */
module ClientTypes {
  import opened Wrappers

  datatype NovelStatus = Draft | Pending | Approved | Rejected

  datatype UserRole = RoleUser | RoleAdmin

  datatype Comment = Comment(
    id: string, userId: string, userName: string, userAvatar: string, content: string, timestamp: int)

  /** A chapter; `likeCount` is optional in the type. */
  datatype Chapter = Chapter(
    id: string,
    title: string,
    content: string,
    order: int,
    readCount: int,
    likeCount: Option<int>,
    comments: seq<Comment>,
    publishedAt: int)

  datatype Novel = Novel(
    id: string,
    authorId: string,
    authorName: string,
    title: string,
    description: string,
    coverUrl: string,
    status: NovelStatus,
    tags: seq<string>,
    createdAt: Option<int>,
    updatedAt: Option<int>,
    chapters: seq<Chapter>)

  datatype User = User(
    id: string,
    email: string,
    password: string,
    name: string,
    avatarUrl: string,
    role: UserRole,
    library: seq<string>,
    downloadedChapters: seq<string>)

  /** `Partial<User>` */
  datatype UserPatch = UserPatch(
    id: Option<string>, email: Option<string>, password: Option<string>, name: Option<string>,
    avatarUrl: Option<string>, role: Option<UserRole>, library: Option<seq<string>>,
    downloadedChapters: Option<seq<string>>)

  /** `{...user, ...patch}` */
  function MergeUser(u: User, p: UserPatch): User {
    User(
      p.id.GetOr(u.id), p.email.GetOr(u.email), p.password.GetOr(u.password), p.name.GetOr(u.name),
      p.avatarUrl.GetOr(u.avatarUrl), p.role.GetOr(u.role), p.library.GetOr(u.library),
      p.downloadedChapters.GetOr(u.downloadedChapters))
  }

  /** `Partial<Novel>`: a key that is absent leaves the field as it is. */
  datatype NovelPatch = NovelPatch(
    id: Option<string>,
    authorId: Option<string>,
    authorName: Option<string>,
    title: Option<string>,
    description: Option<string>,
    coverUrl: Option<string>,
    status: Option<NovelStatus>,
    tags: Option<seq<string>>,
    createdAt: Option<int>,
    updatedAt: Option<int>,
    chapters: Option<seq<Chapter>>)

  const NoChanges := NovelPatch(None, None, None, None, None, None, None, None, None, None, None)

  function ChaptersPatch(chapters: seq<Chapter>): NovelPatch {
    NoChanges.(chapters := Some(chapters))
  }

  function StatusPatch(status: NovelStatus): NovelPatch {
    NoChanges.(status := Some(status))
  }

  /** `{...n, ...updates}` */
  function Merge(n: Novel, u: NovelPatch): (r: Novel)
    ensures r.id == u.id.GetOr(n.id) && r.authorId == u.authorId.GetOr(n.authorId)
    ensures r.authorName == u.authorName.GetOr(n.authorName) && r.title == u.title.GetOr(n.title)
    ensures r.description == u.description.GetOr(n.description) && r.coverUrl == u.coverUrl.GetOr(n.coverUrl)
    ensures r.status == u.status.GetOr(n.status) && r.tags == u.tags.GetOr(n.tags)
    ensures r.createdAt == (if u.createdAt.Some? then u.createdAt else n.createdAt)
    ensures r.updatedAt == (if u.updatedAt.Some? then u.updatedAt else n.updatedAt)
    ensures r.chapters == u.chapters.GetOr(n.chapters)
  {
    Novel(
      u.id.GetOr(n.id), u.authorId.GetOr(n.authorId), u.authorName.GetOr(n.authorName),
      u.title.GetOr(n.title), u.description.GetOr(n.description), u.coverUrl.GetOr(n.coverUrl),
      u.status.GetOr(n.status), u.tags.GetOr(n.tags),
      if u.createdAt.Some? then u.createdAt else n.createdAt,
      if u.updatedAt.Some? then u.updatedAt else n.updatedAt,
      u.chapters.GetOr(n.chapters))
  }

  /** An empty update changes nothing, and merging the same update twice is merging it once. */
  lemma MergeLaws(n: Novel, u: NovelPatch)
    ensures Merge(n, NoChanges) == n
    ensures Merge(Merge(n, u), u) == Merge(n, u)
  {
  }
}
