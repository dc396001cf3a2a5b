/**
 * The moderation handlers of the server (`adminController.ts`): banning and
 * unbanning users, listing novels by status or all but drafts, approving,
 * rejecting and deleting novels.
 */
module AdminController {
  import opened Wrappers
  import Lists
  import Text
  import ClientTypes
  import NovelController
  import opened ServerTypes

  const StatusRequired := "Status query parameter is required"

  /** The stored spelling of a status. */
  function StatusName(s: NovelStatus): string {
    match s
    case Draft => "DRAFT"
    case Pending => "PENDING"
    case Approved => "APPROVED"
    case Rejected => "REJECTED"
  }

  /** `user.role = banned ? 'BANNED' : 'USER'`, where `banned` is the truthiness of the body's flag. */
  function WithBan(u: ServerUser, banned: bool): (r: ServerUser)
    ensures r.role == (if banned then Banned else User)
    ensures r.(role := u.role) == u
  {
    u.(role := if banned then Banned else User)
  }

  /** Banning and then unbanning an administrator leaves a plain user: the former role is not restored. */
  lemma UnbanDemotesAdmin(u: ServerUser)
    requires u.role == Admin
    ensures WithBan(WithBan(u, true), false).role == User
    ensures WithBan(u, false) != u
  {
  }

  /** `banUser` */
  method BanUser(users: UserCollection, id: string, banned: bool) returns (reply: Reply<ServerUser>)
    requires users.Valid()
    modifies users
    ensures users.Valid()
    ensures id !in old(users.docs) ==> reply == Fail(404, UserNotFound) && users.docs == old(users.docs)
    ensures id in old(users.docs) ==>
      var u := WithBan(old(users.docs)[id], banned);
      reply == Ok(200, u) && users.docs == old(users.docs)[id := u]
  {
    if id !in users.docs {
      return Fail(404, UserNotFound);
    }
    var u := WithBan(users.docs[id], banned);
    users.docs := users.docs[id := u];
    return Ok(200, u);
  }

  /** The filter of `getNovelsByStatus`: the stored status spelled as the upper-cased query. */
  function HasStatusNamed(query: string): ServerNovel -> bool {
    (n: ServerNovel) => StatusName(n.status) == Text.ToUpper(query)
  }

  /** The query is matched without regard to case. */
  lemma StatusQueryIgnoresCase(query: string)
    ensures Text.ToUpper(Text.ToLower(query)) == Text.ToUpper(query)
    ensures forall n :: HasStatusNamed(Text.ToLower(query))(n) == HasStatusNamed(query)(n)
  {
    assert Text.ToUpper(Text.ToLower(query)) == Text.ToUpper(query) by {
      forall i | 0 <= i < |query|
        ensures Text.ToUpper(Text.ToLower(query))[i] == Text.ToUpper(query)[i]
      {
      }
    }
  }

  /** `?status=approved` selects exactly the approved novels. */
  lemma ApprovedQuery(n: ServerNovel)
    ensures HasStatusNamed("approved")(n) <==> n.status == ClientTypes.Approved
  {
    var up := Text.ToUpper("approved");
    assert up == "APPROVED" by {
      assert up[0] == 'A' && up[1] == 'P' && up[2] == 'P' && up[3] == 'R';
      assert up[4] == 'O' && up[5] == 'V' && up[6] == 'E' && up[7] == 'D';
    }
    if n.status != ClientTypes.Approved {
      assert StatusName(n.status)[1] != 'P' || StatusName(n.status)[0] != 'A';
    }
  }

  /** `getNovelsByStatus`: a missing or empty query is refused; otherwise the novels with that status. */
  method GetNovelsByStatus(db: NovelCollection, status: Option<string>) returns (reply: Reply<seq<ServerNovel>>)
    requires db.Valid()
    ensures Falsy(status) ==> reply == Fail(400, StatusRequired)
    ensures !Falsy(status) ==>
      && reply.Ok? && reply.status == 200 && Lists.Distinct(reply.data)
      && forall n :: n in reply.data <==>
           n.id in db.docs && db.docs[n.id] == n && StatusName(n.status) == Text.ToUpper(status.value)
  {
    if Falsy(status) {
      return Fail(400, StatusRequired);
    }
    var found := db.Select(HasStatusNamed(status.value));
    return Ok(200, found);
  }

  /** `getAllNovels`: every novel that is not a draft. */
  method GetAllNovels(db: NovelCollection) returns (reply: Reply<seq<ServerNovel>>)
    requires db.Valid()
    ensures reply.Ok? && reply.status == 200 && Lists.Distinct(reply.data)
    ensures forall n :: n in reply.data <==> n.id in db.docs && db.docs[n.id] == n && n.status != ClientTypes.Draft
  {
    var found := db.Select((n: ServerNovel) => n.status != ClientTypes.Draft);
    return Ok(200, found);
  }

  /** Overwrites the status of the novel `id`, whatever it was. */
  method SetStatus(db: NovelCollection, id: string, status: NovelStatus) returns (reply: Reply<ServerNovel>)
    requires db.Valid()
    modifies db
    ensures db.Valid()
    ensures id !in old(db.docs) ==> reply == Fail(404, NovelNotFound) && db.docs == old(db.docs)
    ensures id in old(db.docs) ==>
      var n := old(db.docs)[id].(status := status);
      reply == Ok(200, n) && db.docs == old(db.docs)[id := n]
  {
    if id !in db.docs {
      return Fail(404, NovelNotFound);
    }
    var n := db.docs[id].(status := status);
    db.docs := db.docs[id := n];
    return Ok(200, n);
  }

  /** `approveNovel` */
  method ApproveNovel(db: NovelCollection, id: string) returns (reply: Reply<ServerNovel>)
    requires db.Valid()
    modifies db
    ensures db.Valid()
    ensures id !in old(db.docs) ==> reply == Fail(404, NovelNotFound) && db.docs == old(db.docs)
    ensures id in old(db.docs) ==>
      var n := old(db.docs)[id].(status := ClientTypes.Approved);
      reply == Ok(200, n) && db.docs == old(db.docs)[id := n]
  {
    reply := SetStatus(db, id, ClientTypes.Approved);
  }

  /** `rejectNovel`: the reason in the body is read but not stored. */
  method RejectNovel(db: NovelCollection, id: string, reason: Option<string>) returns (reply: Reply<ServerNovel>)
    requires db.Valid()
    modifies db
    ensures db.Valid()
    ensures id !in old(db.docs) ==> reply == Fail(404, NovelNotFound) && db.docs == old(db.docs)
    ensures id in old(db.docs) ==>
      var n := old(db.docs)[id].(status := ClientTypes.Rejected);
      reply == Ok(200, n) && db.docs == old(db.docs)[id := n]
  {
    reply := SetStatus(db, id, ClientTypes.Rejected);
  }

  /** `deleteNovel` of the admin routes, which behaves as the author's. */
  method DeleteNovel(db: NovelCollection, id: string) returns (reply: Reply<()>)
    requires db.Valid()
    modifies db
    ensures db.Valid()
    ensures id !in old(db.docs) ==> reply == Fail(404, NovelNotFound) && db.docs == old(db.docs)
    ensures id in old(db.docs) ==> reply == Ok(200, ()) && db.docs == old(db.docs) - {id}
  {
    reply := NovelController.DeleteNovel(db, id);
  }
}
