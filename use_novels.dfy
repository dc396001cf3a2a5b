/**
 * The novel list of the client (`useNovels`): loading it, merging an
 * update into the novel with a given id, creating a novel from a payload
 * with defaults, and deleting by id.
 *
 * What the client API resolved to (or that it threw) is an input of each operation.
 */
module UseNovels {
  import opened Wrappers
  import Lists
  import opened ClientTypes

  /** What `api.getNovels()` resolved to: an array, some other value, or a thrown error. */
  datatype Fetched = NovelArray(items: seq<Novel>) | NotArray | Threw

  /** `prev.map(n => n.id === id ? {...n, ...updates} : n)` */
  function ApplyUpdate(novels: seq<Novel>, id: string, updates: NovelPatch): (r: seq<Novel>)
    ensures |r| == |novels|
    ensures forall i :: 0 <= i < |novels| ==> r[i] == if novels[i].id == id then Merge(novels[i], updates) else novels[i]
  {
    if novels == [] then []
    else
      var n := novels[0];
      [if n.id == id then Merge(n, updates) else n] + ApplyUpdate(novels[1..], id, updates)
  }

  /** An update with no keys leaves the list as it was. */
  lemma ApplyNoChanges(novels: seq<Novel>, id: string)
    ensures ApplyUpdate(novels, id, NoChanges) == novels
  {
    forall i | 0 <= i < |novels| ensures ApplyUpdate(novels, id, NoChanges)[i] == novels[i] {
      ClientTypes.MergeLaws(novels[i], NoChanges);
    }
  }

  /** Applying an update that keeps the id a second time changes nothing more. */
  lemma ApplyUpdateIdempotent(novels: seq<Novel>, id: string, updates: NovelPatch)
    requires updates.id.None?
    ensures ApplyUpdate(ApplyUpdate(novels, id, updates), id, updates) == ApplyUpdate(novels, id, updates)
  {
    var once := ApplyUpdate(novels, id, updates);
    forall i | 0 <= i < |novels| ensures ApplyUpdate(once, id, updates)[i] == once[i] {
      ClientTypes.MergeLaws(novels[i], updates);
    }
  }

  /** `prev.filter(n => n.id !== id)` */
  function Without(novels: seq<Novel>, id: string): (r: seq<Novel>)
    ensures forall i :: 0 <= i < |r| ==> r[i].id != id && r[i] in novels
    ensures forall i :: 0 <= i < |novels| && novels[i].id != id ==> novels[i] in r
    ensures multiset(r) <= multiset(novels)
  {
    Lists.FilterSubMultiset(novels, Other(id));
    Lists.Filter(novels, Other(id))
  }

  /** The filter's test: a novel other than `id`. */
  function Other(id: string): Novel -> bool {
    (n: Novel) => n.id != id
  }

  /**
   * The kept novels stay in list order: deleting from a concatenation deletes
   * from each part, and a single novel is kept exactly when its id differs.
   */
  lemma WithoutAppend(a: seq<Novel>, b: seq<Novel>, id: string)
    ensures Without(a + b, id) == Without(a, id) + Without(b, id)
    ensures forall n: Novel :: Without([n], id) == (if n.id != id then [n] else [])
  {
    Lists.FilterAppend(a, b, Other(id));
  }

  /** Deleting an id no novel has keeps the whole list in order. */
  lemma WithoutAbsent(novels: seq<Novel>, id: string)
    requires forall i :: 0 <= i < |novels| ==> novels[i].id != id
    ensures Without(novels, id) == novels
  {
    Lists.FilterAll(novels, Other(id));
  }

  /** The fields `createNovel` sends to the server. */
  datatype NovelPayload = NovelPayload(
    authorId: string, authorName: string, title: string, description: string, coverUrl: string, tags: seq<string>)

  const DefaultCoverUrl := "https://images.unsplash.com/photo-1507842217343-583f20270319?w=300&h=450&fit=crop"

  /** `value || fallback` for an optional string: a missing or empty value takes the fallback. */
  function OrText(value: Option<string>, fallback: string): (r: string)
    ensures value.Some? && value.value != "" ==> r == value.value
    ensures value.None? || value.value == "" ==> r == fallback
  {
    if value.Some? && value.value != "" then value.value else fallback
  }

  /**
   * The payload of `createNovel`: each missing or empty text field takes a
   * fixed default; the tags default only when they are missing, since an
   * empty array is truthy.
   */
  function CreatePayload(novel: NovelPatch): NovelPayload {
    NovelPayload(
      OrText(novel.authorId, "unknown"), OrText(novel.authorName, "Tác giả"), OrText(novel.title, "Truyện mới"),
      OrText(novel.description, "Mô tả truyện"), OrText(novel.coverUrl, DefaultCoverUrl), novel.tags.GetOr(["Truyện"]))
  }

  /**
   * A non-empty field of the caller is sent as given and any other takes its
   * default, so every text field of the payload is non-empty; tags given
   * (even none) are sent as given.
   */
  lemma PayloadDefaults(novel: NovelPatch)
    ensures var p := CreatePayload(novel);
      && p.authorId != "" && p.authorName != "" && p.title != "" && p.description != "" && p.coverUrl != ""
      && (novel.title.Some? && novel.title.value != "" ==> p.title == novel.title.value)
      && (novel.title.None? || novel.title.value == "" ==> p.title == "Truyện mới")
      && (novel.authorId.Some? && novel.authorId.value != "" ==> p.authorId == novel.authorId.value)
      && (novel.authorId.None? || novel.authorId.value == "" ==> p.authorId == "unknown")
      && (novel.authorName.Some? && novel.authorName.value != "" ==> p.authorName == novel.authorName.value)
      && (novel.authorName.None? || novel.authorName.value == "" ==> p.authorName == "Tác giả")
      && (novel.description.Some? && novel.description.value != "" ==> p.description == novel.description.value)
      && (novel.description.None? || novel.description.value == "" ==> p.description == "Mô tả truyện")
      && (novel.coverUrl.Some? && novel.coverUrl.value != "" ==> p.coverUrl == novel.coverUrl.value)
      && (novel.coverUrl.None? || novel.coverUrl.value == "" ==> p.coverUrl == DefaultCoverUrl)
      && (novel.tags.Some? ==> p.tags == novel.tags.value)
      && (novel.tags.None? ==> p.tags == ["Truyện"])
  {
  }

  /** The hook's state. */
  class NovelsHook {
    var novels: seq<Novel>
    var loading: bool

    constructor()
      ensures novels == [] && loading
    {
      novels := [];
      loading := true;
    }

    /** `loadNovels`: an array is kept, anything else or an error gives `[]`, and loading ends either way. */
    method LoadNovels(result: Fetched)
      modifies this
      ensures novels == (if result.NovelArray? then result.items else [])
      ensures !loading
    {
      match result {
        case NovelArray(items) => novels := items;
        case NotArray => novels := [];
        case Threw => novels := [];
      }
      loading := false;
    }

    /** `updateNovel`: once the API call returns, the update is merged into every novel with that id. */
    method UpdateNovel(id: string, updates: NovelPatch, apiThrew: bool) returns (ok: bool)
      modifies this`novels
      ensures ok == !apiThrew
      ensures novels == if apiThrew then old(novels) else ApplyUpdate(old(novels), id, updates)
    {
      if apiThrew {
        return false;
      }
      novels := ApplyUpdate(novels, id, updates);
      return true;
    }

    /**
     * `createNovel`: sends the payload, then appends what the API resolved to
     * (`created`); nothing changes when the call threw.
     */
    method CreateNovel(novel: NovelPatch, created: Novel, apiThrew: bool) returns (payload: NovelPayload)
      modifies this`novels
      ensures payload == CreatePayload(novel)
      ensures novels == if apiThrew then old(novels) else old(novels) + [created]
    {
      payload := CreatePayload(novel);
      if !apiThrew {
        novels := novels + [created];
      }
    }

    /** `deleteNovel`: removes every novel with that id once the API call returns. */
    method DeleteNovel(id: string, apiThrew: bool)
      modifies this`novels
      ensures novels == if apiThrew then old(novels) else Without(old(novels), id)
    {
      if !apiThrew {
        novels := Lists.Filter(novels, (n: Novel) => n.id != id);
      }
    }
  }
}
