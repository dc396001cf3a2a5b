/**
 * The server's records (`types/index.ts`, the Mongoose schemas) and its two
 * collections, each kept as a map from the unique `id` to the stored
 * document; the handlers' JSON replies are a status and a body.
 */
module ServerTypes {
  import opened Wrappers
  import Lists
  import ClientTypes

  type NovelStatus = ClientTypes.NovelStatus

  datatype Role = User | Admin | Banned

  datatype ServerComment = ServerComment(
    id: string, userId: string, userName: string, userAvatar: Option<string>, content: string, timestamp: int)

  /** A stored chapter; the counters may be missing on documents written before the schema had them. */
  datatype ServerChapter = ServerChapter(
    id: string,
    novelId: string,
    title: string,
    content: string,
    order: int,
    readCount: Option<int>,
    likeCount: Option<int>,
    comments: seq<ServerComment>,
    publishedAt: int)

  /** A stored novel; `updatedAt` is the timestamp the schema maintains. */
  datatype ServerNovel = ServerNovel(
    id: string,
    authorId: string,
    authorName: string,
    title: string,
    description: string,
    coverUrl: string,
    status: NovelStatus,
    tags: seq<string>,
    updatedAt: int,
    chapters: seq<ServerChapter>)

  datatype ServerUser = ServerUser(
    id: string,
    email: string,
    password: string,
    name: string,
    avatarUrl: Option<string>,
    role: Role,
    library: seq<string>,
    downloadedChapters: seq<string>)

  /** A JSON reply: `{success: true, data}` with a status, or `{success: false, error}` with a status. */
  datatype Reply<T> = Ok(status: int, data: T) | Fail(status: int, error: string)

  const NovelNotFound := "Novel not found"
  const ChapterNotFound := "Chapter not found"
  const UserNotFound := "User not found"

  /** `!value` on an optional string: missing or empty. */
  predicate Falsy(value: Option<string>) {
    value.None? || value.value == ""
  }

  /** Index of the first chapter with that id, or -1. */
  function ChapterIndex(chapters: seq<ServerChapter>, id: string): int {
    Lists.FindIndex(chapters, (c: ServerChapter) => c.id == id)
  }

  /** The `novels` collection. */
  class NovelCollection {
    var docs: map<string, ServerNovel>

    /** Every document is stored under its own id. */
    ghost predicate Valid()
      reads this
    {
      forall id :: id in docs ==> docs[id].id == id
    }

    constructor()
      ensures docs == map[] && Valid()
    {
      docs := map[];
    }

    /** `Novel.find(filter)`: every stored novel satisfying `p`, each once, in no particular order. */
    method Select(p: ServerNovel -> bool) returns (found: seq<ServerNovel>)
      requires Valid()
      ensures forall n :: n in found <==> n.id in docs && docs[n.id] == n && p(n)
      ensures Lists.Distinct(found)
    {
      var rest := docs.Keys;
      found := [];
      while rest != {}
        invariant rest <= docs.Keys
        invariant forall n :: n in found <==> n.id in docs.Keys - rest && docs[n.id] == n && p(n)
        invariant Lists.Distinct(found)
        decreases |rest|
      {
        var id :| id in rest;
        if p(docs[id]) {
          found := found + [docs[id]];
        }
        rest := rest - {id};
      }
    }
  }

  /** The `users` collection: ids and emails are unique. */
  class UserCollection {
    var docs: map<string, ServerUser>

    ghost predicate Valid()
      reads this
    {
      && (forall id :: id in docs ==> docs[id].id == id)
      && (forall a, b :: a in docs && b in docs && docs[a].email == docs[b].email ==> a == b)
    }

    constructor()
      ensures docs == map[] && Valid()
    {
      docs := map[];
    }
  }
}
