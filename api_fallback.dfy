/**
 * The offline-tolerant client (`api.ts`): every call returns the response
 * body, or on any failure a fallback value built from the mock data.
 *
 * An HTTP exchange is an input: the body of a successful response, or a failure.
 */
module ApiFallback {
  import opened Wrappers
  import Text
  import Lists
  import opened ClientTypes

  datatype Outcome<T> = Success(data: T) | Failure

  /** A fallback is a value, or a function called only when it is needed. */
  datatype Fallback<T> = Value(v: T) | Compute(f: () -> T)

  /** `withFallback` */
  function WithFallback<T>(x: Outcome<T>, fallback: Fallback<T>): (r: T)
    ensures x.Success? ==> r == x.data
    ensures x.Failure? && fallback.Value? ==> r == fallback.v
    ensures x.Failure? && fallback.Compute? ==> r == fallback.f()
  {
    match x
    case Success(data) => data
    case Failure => (match fallback case Value(v) => v case Compute(f) => f())
  }

  /** The demo user of the mock data. */
  const MockUser := User(
    "user-1", "user@example.com", "password", "Người Dùng Mẫu",
    "https://images.unsplash.com/photo-1472099645785-5658abf4ff4e?w=100&h=100&fit=crop",
    RoleUser, ["novel-1"], [])

  /** `email.split("@")[0]` */
  function LocalPart(email: string): (r: string)
    ensures '@' !in r
    ensures '@' in email ==> r == email[..Text.IndexOf(email, '@')]
    ensures '@' !in email ==> r == email
  {
    Text.SplitJoin(email, '@');
    Text.Split(email, '@')[0]
  }

  /** `api.login`: the server's user, or the mock user with this email, named after its local part. */
  function Login(x: Outcome<User>, email: string): (r: User)
    ensures x.Success? ==> r == x.data
    ensures x.Failure? ==> r == MockUser.(email := email, name := LocalPart(email))
  {
    WithFallback(x, Compute(() => MockUser.(email := email, name := LocalPart(email))))
  }

  /** `api.register`: the server's user, or the mock user overridden by the supplied fields and given the id `mock-<now>`. */
  function Register(x: Outcome<User>, data: UserPatch, now: int): (r: User)
    ensures x.Success? ==> r == x.data
    ensures x.Failure? ==>
      && r.id == "mock-" + Text.IntToString(now)
      && r.email == data.email.GetOr(MockUser.email) && r.password == data.password.GetOr(MockUser.password)
      && r.name == data.name.GetOr(MockUser.name) && r.avatarUrl == data.avatarUrl.GetOr(MockUser.avatarUrl)
      && r.role == data.role.GetOr(MockUser.role) && r.library == data.library.GetOr(MockUser.library)
      && r.downloadedChapters == data.downloadedChapters.GetOr(MockUser.downloadedChapters)
  {
    WithFallback(x, Compute(() => MergeUser(MockUser, data).(id := "mock-" + Text.IntToString(now))))
  }

  /** `api.updateUser`: the server's user, or the mock user overridden by the update. */
  function UpdateUser(x: Outcome<User>, data: UserPatch): (r: User)
    ensures x.Success? ==> r == x.data
    ensures x.Failure? ==> r == MergeUser(MockUser, data)
  {
    WithFallback(x, Compute(() => MergeUser(MockUser, data)))
  }

  /** `api.getNovels`: the server's list, or the mock novels. */
  function GetNovels(x: Outcome<seq<Novel>>, mockNovels: seq<Novel>): (r: seq<Novel>)
    ensures x.Success? ==> r == x.data
    ensures x.Failure? ==> r == mockNovels
  {
    WithFallback(x, Value(mockNovels))
  }

  /** `api.createNovel`: the server's novel, or the novel that was sent. */
  function CreateNovel<T>(x: Outcome<T>, novel: T): (r: T)
    ensures x.Success? ==> r == x.data
    ensures x.Failure? ==> r == novel
  {
    WithFallback(x, Value(novel))
  }

  /** A novel as a patch that sets every field it has. */
  function AsPatch(n: Novel): NovelPatch {
    NovelPatch(Some(n.id), Some(n.authorId), Some(n.authorName), Some(n.title), Some(n.description),
               Some(n.coverUrl), Some(n.status), Some(n.tags), n.createdAt, n.updatedAt, Some(n.chapters))
  }

  /** `{...original, ...updates}` on partial records: a key of the update wins. */
  function MergePatch(a: NovelPatch, b: NovelPatch): NovelPatch {
    NovelPatch(
      if b.id.Some? then b.id else a.id,
      if b.authorId.Some? then b.authorId else a.authorId,
      if b.authorName.Some? then b.authorName else a.authorName,
      if b.title.Some? then b.title else a.title,
      if b.description.Some? then b.description else a.description,
      if b.coverUrl.Some? then b.coverUrl else a.coverUrl,
      if b.status.Some? then b.status else a.status,
      if b.tags.Some? then b.tags else a.tags,
      if b.createdAt.Some? then b.createdAt else a.createdAt,
      if b.updatedAt.Some? then b.updatedAt else a.updatedAt,
      if b.chapters.Some? then b.chapters else a.chapters)
  }

  /**
   * The `updateNovel` fallback: the first mock novel with that id (or `{}`)
   * merged with the updates. The result is partial when there is no such mock novel.
   */
  function UpdateNovelFallback(mockNovels: seq<Novel>, id: string, updates: NovelPatch): (r: NovelPatch)
    ensures Lists.FindIndex(mockNovels, (n: Novel) => n.id == id) == -1 ==> r == updates
  {
    var k := Lists.FindIndex(mockNovels, (n: Novel) => n.id == id);
    if k == -1 then MergePatch(NoChanges, updates)
    else MergePatch(AsPatch(mockNovels[k]), updates)
  }

  /** Merging a known mock novel with an update agrees with the client's own `{...n, ...updates}`. */
  lemma UpdateNovelFallbackMerges(mockNovels: seq<Novel>, id: string, updates: NovelPatch, k: nat)
    requires k < |mockNovels| && mockNovels[k].id == id
    requires forall j :: 0 <= j < k ==> mockNovels[j].id != id
    ensures UpdateNovelFallback(mockNovels, id, updates) == AsPatch(Merge(mockNovels[k], updates))
  {
    var p := (n: Novel) => n.id == id;
    assert Lists.FindIndex(mockNovels, p) == k;
  }

  /** `api.updateNovel` */
  function UpdateNovel(x: Outcome<NovelPatch>, mockNovels: seq<Novel>, id: string, updates: NovelPatch): (r: NovelPatch)
    ensures x.Success? ==> r == x.data
    ensures x.Failure? ==> r == UpdateNovelFallback(mockNovels, id, updates)
  {
    WithFallback(x, Compute(() => UpdateNovelFallback(mockNovels, id, updates)))
  }

  /** `api.deleteNovel` resolves whether or not the request failed. */
  function DeleteNovel(x: Outcome<()>): (r: Outcome<()>)
    ensures r.Success?
  {
    Success(())
  }
}
