/**
 * src/app/api/novels/route.ts. `GET /api/novels` lists the caller's novels,
 * newest update first, each with its chapters in number order.
 * `POST /api/novels` validates the request, finds the caller's user record
 * or creates it from the identity provider's profile, and creates the novel.
 */
module NovelsRoute {
  import opened Wrappers
  import Js
  import opened Store
  import opened Http

  /** The fields `request.json()` yields; a field the client left out is None. */
  datatype CreateNovelBody = CreateNovelBody(title: Option<string>, genre: Option<string>,
                                             description: Option<string>, style: Option<string>)

  /** The part of the identity provider's user profile the handler reads. */
  datatype ClerkUser = ClerkUser(emailAddresses: seq<string>, username: Option<string>, firstName: Option<string>)

  /** Fetching the profile: its JSON, or a thrown error. */
  datatype ClerkLookup = Fetched(profile: ClerkUser) | FetchFailed

  /** The rows the request inserts, if any, and the response. */
  datatype Effect = Effect(createdUser: Option<User>, createdNovel: Option<Novel>, response: Response)

  /** The caller is identified and the body names a title and a genre. */
  predicate RequestComplete(userId: Option<string>, body: Option<CreateNovelBody>) {
    Js.Truthy(userId) && body.Some? && Js.Truthy(body.value.title) && Js.Truthy(body.value.genre)
  }

  const MissingFields: Response := Response(400, ErrorJson("标题和类型为必填项"))

  const DefaultStyle: string := "modern"

  const DefaultUsername: string := "User"

  /** `email_addresses[0]?.email_address || ''`. */
  function ClerkEmail(profile: ClerkUser): (r: string)
    ensures profile.emailAddresses == [] ==> r == ""
    ensures profile.emailAddresses != [] ==> r == profile.emailAddresses[0]
  {
    if profile.emailAddresses == [] then "" else Js.Or(Some(profile.emailAddresses[0]), "")
  }

  /** `username || first_name || 'User'`: never empty. */
  function ClerkUsername(profile: ClerkUser): (r: string)
    ensures r != ""
    ensures Js.Truthy(profile.username) ==> r == profile.username.value
    ensures !Js.Truthy(profile.username) && Js.Truthy(profile.firstName) ==> r == profile.firstName.value
    ensures !Js.Truthy(profile.username) && !Js.Truthy(profile.firstName) ==> r == DefaultUsername
  {
    Js.Or(profile.username, Js.Or(profile.firstName, DefaultUsername))
  }

  /** The novel row POST inserts for owner `ownerId`. */
  function NewNovel(body: CreateNovelBody, newNovelId: string, ownerId: string, now: int): (r: Novel)
    requires Js.Truthy(body.title) && Js.Truthy(body.genre)
    ensures r.id == newNovelId && r.userId == ownerId && r.updatedAt == now
    ensures r.title == body.title.value && r.genre == body.genre.value && r.description == body.description
    ensures Js.Truthy(body.style) ==> r.style == body.style.value
    ensures !Js.Truthy(body.style) ==> r.style == "modern"
    ensures r.title != "" && r.genre != "" && r.style != ""
  {
    Novel(newNovelId, body.title.value, body.genre.value, body.description,
          Js.Or(body.style, DefaultStyle), ownerId, now)
  }

  /** Insert the novel for `owner`, or fail when its id is already in use. */
  function InsertNovel(novels: seq<Novel>, body: CreateNovelBody, createdUser: Option<User>, owner: User,
                       newNovelId: string, now: int): (r: Effect)
    requires Js.Truthy(body.title) && Js.Truthy(body.genre)
    ensures r.createdUser == createdUser
    ensures r.createdNovel.Some? <==> newNovelId !in NovelIds(novels)
    ensures r.createdNovel.Some? ==>
      && r.createdNovel.value == NewNovel(body, newNovelId, owner.id, now)
      && r.response == Response(201, NovelJson(NovelWithChapters(r.createdNovel.value, [])))
    ensures r.createdNovel.None? ==> r.response == ServerError
  {
    if newNovelId in NovelIds(novels) then Effect(createdUser, None, ServerError)
    else
      var novel := NewNovel(body, newNovelId, owner.id, now);
      Effect(createdUser, Some(novel), Response(201, NovelJson(NovelWithChapters(novel, []))))
  }

  /**
   * What the POST handler does in a given state. `clerk` answers the profile
   * fetch for a Clerk id; `newUserId` and `newNovelId` are the ids the
   * database assigns; `now` is the insert time. A failure after the user was
   * inserted leaves that user in place: the two inserts are not one
   * transaction.
   */
  function CreateNovel(users: seq<User>, novels: seq<Novel>, userId: Option<string>,
                       body: Option<CreateNovelBody>, clerk: string -> ClerkLookup,
                       newUserId: string, newNovelId: string, now: int): (e: Effect)
    ensures e.response.status in {201, 400, 401, 500}
    ensures e.createdNovel.Some? <==> e.response.status == 201
    ensures e.createdUser.Some? ==>
      userId.Some? && e.createdUser.value.id !in UserIds(users) && e.createdUser.value.clerkId == userId.value
    ensures e.createdNovel.Some? ==> e.createdNovel.value.id !in NovelIds(novels)
  {
    if !Js.Truthy(userId) then Effect(None, None, Unauthorized)
    else if body.None? then Effect(None, None, ServerError)
    else if !Js.Truthy(body.value.title) || !Js.Truthy(body.value.genre) then Effect(None, None, MissingFields)
    else
      match FindUserByClerkId(users, userId.value)
      case Some(user) => InsertNovel(novels, body.value, None, user, newNovelId, now)
      case None =>
        match clerk(userId.value)
        case FetchFailed => Effect(None, None, ServerError)
        case Fetched(profile) =>
          if newUserId in UserIds(users) then Effect(None, None, ServerError)
          else
            var user := User(newUserId, userId.value, ClerkEmail(profile), ClerkUsername(profile));
            InsertNovel(novels, body.value, Some(user), user, newNovelId, now)
  }

  function AppendIf<T>(rows: seq<T>, row: Option<T>): seq<T> {
    if row.Some? then rows + [row.value] else rows
  }

  /**
   * No identity: 401; missing title or genre: 400, before any lookup, and no
   * user is created. Every other failure ends in the handler's `catch` and
   * answers 500: a body that is not JSON, a failed profile fetch or a user
   * id already in use (creating nothing), and a novel id already in use.
   */
  lemma CreateNovelRejections(users: seq<User>, novels: seq<Novel>, userId: Option<string>,
                              body: Option<CreateNovelBody>, clerk: string -> ClerkLookup,
                              newUserId: string, newNovelId: string, now: int)
    ensures var e := CreateNovel(users, novels, userId, body, clerk, newUserId, newNovelId, now);
      && (!Js.Truthy(userId) ==> e == Effect(None, None, Unauthorized))
      && (Js.Truthy(userId) && body.Some? && (!Js.Truthy(body.value.title) || !Js.Truthy(body.value.genre)) ==>
            e == Effect(None, None, MissingFields))
      && (Js.Truthy(userId) && body.None? ==> e == Effect(None, None, ServerError))
      && (RequestComplete(userId, body) && FindUserByClerkId(users, userId.value).None?
          && (clerk(userId.value).FetchFailed? || newUserId in UserIds(users)) ==>
            e == Effect(None, None, ServerError))
      && (RequestComplete(userId, body) && e.createdNovel.None? ==> e.response == ServerError)
  {
  }

  /**
   * An existing user record is reused; otherwise at most one user is
   * created, carrying the caller's Clerk id and the profile's name and email.
   */
  lemma CreateNovelFindOrCreateUser(users: seq<User>, novels: seq<Novel>, userId: Option<string>,
                                    body: Option<CreateNovelBody>, clerk: string -> ClerkLookup,
                                    newUserId: string, newNovelId: string, now: int)
    ensures var e := CreateNovel(users, novels, userId, body, clerk, newUserId, newNovelId, now);
      && (e.createdUser.Some? ==>
            && Js.Truthy(userId)
            && (forall u :: u in users ==> u.clerkId != userId.value)
            && clerk(userId.value).Fetched?
            && e.createdUser.value == User(newUserId, userId.value, ClerkEmail(clerk(userId.value).profile),
                                           ClerkUsername(clerk(userId.value).profile)))
      && (Js.Truthy(userId) && (exists u :: u in users && u.clerkId == userId.value) ==> e.createdUser.None?)
      && (e.createdUser.Some? <==>
            && Js.Truthy(userId) && body.Some? && Js.Truthy(body.value.title) && Js.Truthy(body.value.genre)
            && FindUserByClerkId(users, userId.value).None?
            && clerk(userId.value).Fetched?
            && newUserId !in UserIds(users))
  {
  }

  /**
   * A novel is created exactly when the request is valid, the caller's user
   * record exists or could be created, and the new novel id is free. It
   * carries the request's fields, the style "modern" when
   * none is given, and the found or created user as owner; it is returned
   * with an empty chapter list.
   */
  lemma CreatedNovel(users: seq<User>, novels: seq<Novel>, userId: Option<string>,
                     body: Option<CreateNovelBody>, clerk: string -> ClerkLookup,
                     newUserId: string, newNovelId: string, now: int)
    ensures var e := CreateNovel(users, novels, userId, body, clerk, newUserId, newNovelId, now);
      e.createdNovel.Some? <==>
        && Js.Truthy(userId) && body.Some? && Js.Truthy(body.value.title) && Js.Truthy(body.value.genre)
        && (|| FindUserByClerkId(users, userId.value).Some?
            || (clerk(userId.value).Fetched? && newUserId !in UserIds(users)))
        && newNovelId !in NovelIds(novels)
    ensures var e := CreateNovel(users, novels, userId, body, clerk, newUserId, newNovelId, now);
      e.createdNovel.Some? ==>
        var n := e.createdNovel.value;
        && Js.Truthy(userId) && body.Some? && Js.Truthy(body.value.title) && Js.Truthy(body.value.genre)
        && n.id == newNovelId && n.id !in NovelIds(novels)
        && n.title == body.value.title.value && n.genre == body.value.genre.value
        && n.description == body.value.description
        && (Js.Truthy(body.value.style) ==> n.style == body.value.style.value)
        && (!Js.Truthy(body.value.style) ==> n.style == "modern")
        && (exists u :: u in users + AppendIf([], e.createdUser) && u.id == n.userId && u.clerkId == userId.value)
        && e.response == Response(201, NovelJson(NovelWithChapters(n, [])))
  {
  }

  /** POST keeps the schema's constraints, and the new novel has no chapters. */
  lemma CreateNovelKeepsInvariants(users: seq<User>, novels: seq<Novel>, chapters: seq<Chapter>,
                                   userId: Option<string>, body: Option<CreateNovelBody>,
                                   clerk: string -> ClerkLookup, newUserId: string, newNovelId: string, now: int)
    requires Consistent(users, novels, chapters)
    ensures var e := CreateNovel(users, novels, userId, body, clerk, newUserId, newNovelId, now);
      && Consistent(AppendIf(users, e.createdUser), AppendIf(novels, e.createdNovel), chapters)
      && (e.createdNovel.Some? ==> ChaptersOf(chapters, e.createdNovel.value.id) == [])
  {
    var e := CreateNovel(users, novels, userId, body, clerk, newUserId, newNovelId, now);
    var users', novels' := AppendIf(users, e.createdUser), AppendIf(novels, e.createdNovel);
    if e.createdUser.Some? {
      var u := e.createdUser.value;
      assert u.id !in UserIds(users);
      forall i, j | 0 <= i < j < |users'| ensures users'[i].id != users'[j].id && users'[i].clerkId != users'[j].clerkId {
        if j == |users| {
          assert users'[i] in users;
        }
      }
    }
    assert UserIds(users) <= UserIds(users') by {
      forall x | x in UserIds(users) ensures x in UserIds(users') {
        var u :| u in users && u.id == x;
        assert u in users';
      }
    }
    if e.createdNovel.Some? {
      var n := e.createdNovel.value;
      var found := FindUserByClerkId(users, userId.value);
      if found.Some? {
        assert found.value in users;
      } else {
        assert e.createdUser.value in users';
      }
      assert n.userId in UserIds(users');
      forall i, j | 0 <= i < j < |novels'| ensures novels'[i].id != novels'[j].id {
        if j == |novels| {
          assert novels'[i] in novels;
        }
      }
      FreshNovelHasNoChapters(users, novels, chapters, n.id);
    }
    assert NovelIds(novels) <= NovelIds(novels') by {
      forall x | x in NovelIds(novels) ensures x in NovelIds(novels') {
        var n :| n in novels && n.id == x;
        assert n in novels';
      }
    }
  }

  /**
   * The POST handler: early returns for identity, body and fields, then
   * find-or-create of the user, then the novel insert. Chapters are never
   * written.
   */
  method Post(db: Db, userId: Option<string>, body: Option<CreateNovelBody>, clerk: string -> ClerkLookup,
              newUserId: string, newNovelId: string, now: int)
    returns (response: Response)
    requires db.Valid()
    modifies db
    ensures db.Valid()
    ensures var e := CreateNovel(old(db.users), old(db.novels), userId, body, clerk, newUserId, newNovelId, now);
      && response == e.response
      && db.users == AppendIf(old(db.users), e.createdUser)
      && db.novels == AppendIf(old(db.novels), e.createdNovel)
    ensures db.chapters == old(db.chapters)
  {
    CreateNovelKeepsInvariants(db.users, db.novels, db.chapters, userId, body, clerk, newUserId, newNovelId, now);
    if !Js.Truthy(userId) {
      return Unauthorized;
    }
    if body.None? {
      return ServerError;
    }
    var request := body.value;
    if !Js.Truthy(request.title) || !Js.Truthy(request.genre) {
      return MissingFields;
    }
    var user := FindUserByClerkId(db.users, userId.value);
    if user.None? {
      var lookup := clerk(userId.value);
      if lookup.FetchFailed? {
        return ServerError;
      }
      if newUserId in UserIds(db.users) {
        return ServerError;
      }
      var created := User(newUserId, userId.value, ClerkEmail(lookup.profile), ClerkUsername(lookup.profile));
      db.users := db.users + [created];
      user := Some(created);
    }
    if newNovelId in NovelIds(db.novels) {
      return ServerError;
    }
    var novel := NewNovel(request, newNovelId, user.value.id, now);
    db.novels := db.novels + [novel];
    return Response(201, NovelJson(NovelWithChapters(novel, [])));
  }

  // ---------------------------------------------------------------------
  // GET

  /** `orderBy: { updatedAt: 'desc' }` as an ascending key. */
  function NewestFirst(n: Novel): int {
    -n.updatedAt
  }

  /** `orderBy: { chapterNumber: 'asc' }`. */
  function ByNumber(c: Chapter): int {
    c.chapterNumber
  }

  /** Rows with the same multiset of elements have the same members. */
  lemma SameMembers<T>(a: seq<T>, b: seq<T>)
    requires multiset(a) == multiset(b)
    ensures forall x :: x in a <==> x in b
  {
    forall x ensures x in a <==> x in b {
      assert x in a <==> x in multiset(a);
      assert x in b <==> x in multiset(b);
    }
  }

  /** One novel with exactly its own chapters, in ascending number order. */
  function WithChapters(novel: Novel, chapters: seq<Chapter>): (r: NovelWithChapters)
    ensures r.novel == novel
    ensures multiset(r.chapters) == multiset(ChaptersOf(chapters, novel.id))
    ensures forall c :: c in r.chapters <==> c in chapters && c.novelId == novel.id
    ensures forall k, m :: 0 <= k < m < |r.chapters| ==> r.chapters[k].chapterNumber <= r.chapters[m].chapterNumber
  {
    var own := ChaptersOf(chapters, novel.id);
    var sorted := SortBy(own, ByNumber);
    SameMembers(sorted, own);
    forall k, m | 0 <= k < m < |sorted| ensures sorted[k].chapterNumber <= sorted[m].chapterNumber {
      assert ByNumber(sorted[k]) <= ByNumber(sorted[m]);
    }
    NovelWithChapters(novel, sorted)
  }

  function NovelsIn(list: seq<NovelWithChapters>): (r: seq<Novel>)
    ensures |r| == |list|
    ensures forall i :: 0 <= i < |list| ==> r[i] == list[i].novel
  {
    seq(|list|, i requires 0 <= i < |list| => list[i].novel)
  }

  /**
   * The listing: exactly the novels `userId` owns, each once per row, most
   * recently updated first, each with exactly its own chapters in ascending
   * number order.
   */
  function ListNovels(novels: seq<Novel>, chapters: seq<Chapter>, userId: string): (r: seq<NovelWithChapters>)
    ensures multiset(NovelsIn(r)) == multiset(OwnedNovels(novels, userId))
    ensures forall n :: n in NovelsIn(r) <==> n in novels && n.userId == userId
    ensures forall i, j :: 0 <= i < j < |r| ==> r[i].novel.updatedAt >= r[j].novel.updatedAt
    ensures forall i :: 0 <= i < |r| ==> r[i] == WithChapters(r[i].novel, chapters)
  {
    var owned := OwnedNovels(novels, userId);
    var sorted := SortBy(owned, NewestFirst);
    SameMembers(sorted, owned);
    forall i, j | 0 <= i < j < |sorted| ensures sorted[i].updatedAt >= sorted[j].updatedAt {
      assert NewestFirst(sorted[i]) <= NewestFirst(sorted[j]);
    }
    Listing(sorted, chapters)
  }

  /** Each novel of `rows`, in the same order, with its chapters. */
  function Listing(rows: seq<Novel>, chapters: seq<Chapter>): (r: seq<NovelWithChapters>)
    ensures NovelsIn(r) == rows
    ensures forall i :: 0 <= i < |r| ==> r[i] == WithChapters(rows[i], chapters)
  {
    var r := seq(|rows|, i requires 0 <= i < |rows| => WithChapters(rows[i], chapters));
    assert NovelsIn(r) == rows;
    r
  }

  /**
   * The GET handler, a query: 401 without identity, 404 when the caller has
   * no user record (none is created), otherwise 200 with the listing.
   */
  function Get(users: seq<User>, novels: seq<Novel>, chapters: seq<Chapter>, userId: Option<string>): (r: Response)
    ensures !Js.Truthy(userId) ==> r == Unauthorized
    ensures Js.Truthy(userId) && (forall u :: u in users ==> u.clerkId != userId.value) ==> r == UserNotFound
    ensures r.status == 200 ==>
      Js.Truthy(userId) && exists u :: u in users && u.clerkId == userId.value
                                  && r == Response(200, NovelListJson(ListNovels(novels, chapters, u.id)))
    ensures Js.Truthy(userId) && (exists u :: u in users && u.clerkId == userId.value) ==>
      r == Response(200, NovelListJson(ListNovels(novels, chapters, FindUserByClerkId(users, userId.value).value.id)))
  {
    if !Js.Truthy(userId) then Unauthorized
    else match FindUserByClerkId(users, userId.value)
      case None => UserNotFound
      case Some(user) => Response(200, NovelListJson(ListNovels(novels, chapters, user.id)))
  }
}
