/**
 * The novel handlers of the server (`novelController.ts`): listing newest
 * first, creating a draft after checking the required fields, and updating or
 * deleting by id.
 *
 * `Date.now()` is a parameter. A save that the store refuses because the new
 * id is taken replies 500, as the unique index makes it.
 */
module NovelController {
  import opened Wrappers
  import Lists
  import Text
  import Sorting
  import ClientTypes
  import UseNovels
  import opened ServerTypes

  /** The body of `createNovel`; a missing key is `None`. */
  datatype CreateBody = CreateBody(
    authorId: Option<string>, authorName: Option<string>, title: Option<string>, description: Option<string>,
    coverUrl: Option<string>, tags: Option<seq<string>>)

  /** The body of `updateNovel`: the keys of the update request that are present. */
  datatype UpdateBody = UpdateBody(
    title: Option<string>, description: Option<string>, coverUrl: Option<string>, status: Option<NovelStatus>,
    tags: Option<seq<string>>)

  /** The fields `createNovel` requires, in the order it checks them. */
  datatype Field = AuthorId | AuthorName | Title | Description | CoverUrl

  const RequiredFields: seq<Field> := [AuthorId, AuthorName, Title, Description, CoverUrl]
  const MissingPrefix := "Missing required fields: "
  const DuplicateId := "duplicate key"

  /** The key of a field in the request body. */
  function Name(f: Field): string {
    match f
    case AuthorId => "authorId"
    case AuthorName => "authorName"
    case Title => "title"
    case Description => "description"
    case CoverUrl => "coverUrl"
  }

  function Names(fs: seq<Field>): (r: seq<string>)
    ensures |r| == |fs| && forall i :: 0 <= i < |fs| ==> r[i] == Name(fs[i])
  {
    if fs == [] then [] else [Name(fs[0])] + Names(fs[1..])
  }

  /** Whether `createNovel` reports `f` as missing: a falsy value, except that an empty description is accepted. */
  predicate IsMissing(body: CreateBody, f: Field) {
    match f
    case AuthorId => Falsy(body.authorId)
    case AuthorName => Falsy(body.authorName)
    case Title => Falsy(body.title)
    case Description => body.description.None?
    case CoverUrl => Falsy(body.coverUrl)
  }

  function MissingIn(body: CreateBody): Field -> bool {
    (f: Field) => IsMissing(body, f)
  }

  /** The one-name list `createNovel` pushes for a field, or nothing. */
  function Push(body: CreateBody, f: Field): seq<Field> {
    if IsMissing(body, f) then [f] else []
  }

  /** The fields `createNovel` collects: exactly the missing ones, each once. */
  function MissingFields(body: CreateBody): (r: seq<Field>)
    ensures forall f :: f in r <==> IsMissing(body, f)
    ensures Lists.Distinct(r)
  {
    Push(body, AuthorId) + Push(body, AuthorName) + Push(body, Title) + Push(body, Description) + Push(body, CoverUrl)
  }

  /** The missing fields come in the fixed order of `RequiredFields`. */
  lemma MissingFieldsInOrder(body: CreateBody)
    ensures MissingFields(body) == Lists.Filter(RequiredFields, MissingIn(body))
  {
    var p := MissingIn(body);
    var s := RequiredFields;
    assert s[1..][1..][1..][1..][1..] == [];
    calc {
      Lists.Filter(s, p);
      Push(body, AuthorId) + Lists.Filter(s[1..], p);
      Push(body, AuthorId) + Push(body, AuthorName) + Lists.Filter(s[1..][1..], p);
      Push(body, AuthorId) + Push(body, AuthorName) + Push(body, Title) + Lists.Filter(s[1..][1..][1..], p);
      Push(body, AuthorId) + Push(body, AuthorName) + Push(body, Title) + Push(body, Description)
        + Lists.Filter(s[1..][1..][1..][1..], p);
      MissingFields(body);
    }
  }

  /** The validation of `createNovel`, pushing one name per missing field. */
  method CollectMissing(body: CreateBody) returns (missing: seq<Field>)
    ensures missing == MissingFields(body)
  {
    missing := [];
    if Falsy(body.authorId) { missing := missing + [AuthorId]; }
    assert missing == Push(body, AuthorId);
    if Falsy(body.authorName) { missing := missing + [AuthorName]; }
    assert missing == Push(body, AuthorId) + Push(body, AuthorName);
    if Falsy(body.title) { missing := missing + [Title]; }
    ghost var three := missing;
    assert three == Push(body, AuthorId) + Push(body, AuthorName) + Push(body, Title);
    if Falsy(body.description) && body.description != Some("") { missing := missing + [Description]; }
    assert missing == three + Push(body, Description);
    ghost var four := missing;
    if Falsy(body.coverUrl) { missing := missing + [CoverUrl]; }
    assert missing == four + Push(body, CoverUrl);
  }

  /** The reply text of a refused body. */
  function MissingMessage(missing: seq<Field>): string {
    MissingPrefix + Text.Join(Names(missing), ", ")
  }

  /** An empty description passes the check while an empty title does not. */
  lemma EmptyDescriptionAccepted(body: CreateBody)
    requires body.description == Some("") && body.title == Some("")
    ensures Description !in MissingFields(body) && Title in MissingFields(body)
  {
  }

  /** Joining two names puts the separator between them. */
  lemma JoinTwo(a: string, b: string, sep: string)
    ensures Text.Join([a, b], sep) == a + sep + b
  {
    assert [a, b][1..] == [b];
  }

  /** The error message names the missing fields separated by commas. */
  lemma MissingMessageExample()
    ensures var body := CreateBody(Some("u1"), Some("An"), Some("T"), None, None, None);
      MissingFields(body) == [Description, CoverUrl]
      && MissingMessage(MissingFields(body)) == MissingPrefix + "description, coverUrl"
  {
    var body := CreateBody(Some("u1"), Some("An"), Some("T"), None, None, None);
    assert Push(body, AuthorId) == [] && Push(body, AuthorName) == [] && Push(body, Title) == [];
    assert Push(body, Description) == [Description] && Push(body, CoverUrl) == [CoverUrl];
    assert MissingFields(body) == [Description, CoverUrl];
    assert Names([Description, CoverUrl]) == ["description", "coverUrl"];
    JoinTwo("description", "coverUrl", ", ");
  }

  /** What the client's `createNovel` sends always passes the server's check. */
  lemma ClientPayloadAccepted(novel: ClientTypes.NovelPatch)
    ensures var p := UseNovels.CreatePayload(novel);
      MissingFields(CreateBody(Some(p.authorId), Some(p.authorName), Some(p.title), Some(p.description),
                               Some(p.coverUrl), Some(p.tags))) == []
  {
    UseNovels.PayloadDefaults(novel);
  }

  /** The novel `createNovel` saves: a draft without chapters, tags defaulting to none. */
  function NewNovel(body: CreateBody, now: int): (n: ServerNovel)
    requires MissingFields(body) == []
    ensures n.id == "novel-" + Text.IntToString(now) && n.status == ClientTypes.Draft && n.chapters == []
    ensures n.tags == body.tags.GetOr([]) && n.title == body.title.value && n.description == body.description.value
    ensures n.authorId == body.authorId.value && n.authorName == body.authorName.value && n.coverUrl == body.coverUrl.value
    ensures n.updatedAt == now
  {
    assert !IsMissing(body, Description);
    ServerNovel("novel-" + Text.IntToString(now), body.authorId.value, body.authorName.value, body.title.value,
                body.description.value, body.coverUrl.value, ClientTypes.Draft, body.tags.GetOr([]), now, [])
  }

  /** `createNovel` */
  method CreateNovel(db: NovelCollection, body: CreateBody, now: int) returns (reply: Reply<ServerNovel>)
    requires db.Valid()
    modifies db
    ensures db.Valid()
    ensures MissingFields(body) != [] ==>
      reply == Fail(400, MissingMessage(MissingFields(body))) && db.docs == old(db.docs)
    ensures MissingFields(body) == [] ==>
      var n := NewNovel(body, now);
      if n.id in old(db.docs) then reply == Fail(500, DuplicateId) && db.docs == old(db.docs)
      else reply == Ok(201, n) && db.docs == old(db.docs)[n.id := n]
  {
    var missing := CollectMissing(body);
    if |missing| > 0 {
      return Fail(400, MissingMessage(missing));
    }
    var n := NewNovel(body, now);
    if n.id in db.docs {
      return Fail(500, DuplicateId);
    }
    db.docs := db.docs[n.id := n];
    return Ok(201, n);
  }

  function UpdatedAt(n: ServerNovel): int {
    n.updatedAt
  }

  /** `getNovels`: every stored novel once, most recently updated first. */
  method GetNovels(db: NovelCollection) returns (reply: Reply<seq<ServerNovel>>)
    requires db.Valid()
    ensures reply.Ok? && reply.status == 200
    ensures Sorting.SortedDesc(reply.data, UpdatedAt)
    ensures forall n :: n in reply.data <==> n.id in db.docs && db.docs[n.id] == n
    ensures Lists.Distinct(reply.data)
  {
    var found := db.Select((n: ServerNovel) => true);
    var sorted := Sorting.SortDesc(found, UpdatedAt);
    Sorting.SameElements(sorted, found);
    Lists.DistinctPermutation(sorted, found);
    return Ok(200, sorted);
  }

  /** The stored novel with the update's present keys written over it. */
  function Patched(n: ServerNovel, body: UpdateBody): (r: ServerNovel)
    ensures r.id == n.id && r.authorId == n.authorId && r.authorName == n.authorName && r.chapters == n.chapters
    ensures r.title == body.title.GetOr(n.title) && r.description == body.description.GetOr(n.description)
    ensures r.coverUrl == body.coverUrl.GetOr(n.coverUrl) && r.status == body.status.GetOr(n.status)
    ensures r.tags == body.tags.GetOr(n.tags) && r.updatedAt == n.updatedAt
  {
    n.(title := body.title.GetOr(n.title), description := body.description.GetOr(n.description),
       coverUrl := body.coverUrl.GetOr(n.coverUrl), status := body.status.GetOr(n.status), tags := body.tags.GetOr(n.tags))
  }

  /** An update with no keys leaves the novel as it was. */
  lemma PatchedNothing(n: ServerNovel)
    ensures Patched(n, UpdateBody(None, None, None, None, None)) == n
  {
  }

  /** `updateNovel` */
  method UpdateNovel(db: NovelCollection, id: string, body: UpdateBody) returns (reply: Reply<ServerNovel>)
    requires db.Valid()
    modifies db
    ensures db.Valid()
    ensures id !in old(db.docs) ==> reply == Fail(404, NovelNotFound) && db.docs == old(db.docs)
    ensures id in old(db.docs) ==>
      var n := Patched(old(db.docs)[id], body);
      reply == Ok(200, n) && db.docs == old(db.docs)[id := n]
  {
    if id !in db.docs {
      return Fail(404, NovelNotFound);
    }
    var n := Patched(db.docs[id], body);
    db.docs := db.docs[id := n];
    return Ok(200, n);
  }

  /** `deleteNovel` */
  method DeleteNovel(db: NovelCollection, id: string) returns (reply: Reply<()>)
    requires db.Valid()
    modifies db
    ensures db.Valid()
    ensures id !in old(db.docs) ==> reply == Fail(404, NovelNotFound) && db.docs == old(db.docs)
    ensures id in old(db.docs) ==> reply == Ok(200, ()) && db.docs == old(db.docs) - {id}
  {
    if id !in db.docs {
      return Fail(404, NovelNotFound);
    }
    db.docs := db.docs - {id};
    return Ok(200, ());
  }
}
