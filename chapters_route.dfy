/**
 * src/app/api/chapters/route.ts, `POST /api/chapters`: create a chapter in a
 * novel the caller owns. The checks run in a fixed order, each answering
 * at once when it fails: caller identity (401), request body (500 when it is
 * not JSON), required fields (400), user record (404), novel ownership (404).
 * The new chapter takes the next number in its novel and starts `pending`.
 */
module ChaptersRoute {
  import opened Wrappers
  import Js
  import Utils
  import opened Store
  import opened Http

  /** The fields `request.json()` yields; a field the client left out is None. */
  datatype CreateChapterBody = CreateChapterBody(novelId: Option<string>, title: Option<string>, summary: Option<string>)

  /** The caller is identified and the body names a novel and a title. */
  predicate RequestComplete(userId: Option<string>, body: Option<CreateChapterBody>) {
    Js.Truthy(userId) && body.Some? && Js.Truthy(body.value.novelId) && Js.Truthy(body.value.title)
  }

  /** The chapter the request creates, if any, and the response. */
  datatype Effect = Effect(created: Option<Chapter>, response: Response)

  const MissingFields: Response := Response(400, ErrorJson("小说ID和标题为必填项"))

  const NovelNotFound: Response := Response(404, ErrorJson("小说不存在或无权限"))

  /**
   * What the handler does in a given state. `body` is None when the request
   * is not valid JSON; `newId` is the id the database assigns to the new row
   * (an id already in use makes the insert fail).
   */
  function CreateChapter(users: seq<User>, novels: seq<Novel>, chapters: seq<Chapter>,
                         userId: Option<string>, body: Option<CreateChapterBody>, newId: string): (e: Effect)
    ensures e.response.status in {201, 400, 401, 404, 500}
    ensures e.created.Some? <==> e.response.status == 201
    ensures e.created.Some? ==>
      && e.created.value.id !in ChapterIds(chapters)
      && e.created.value.status == Utils.Pending
      && exists n :: n in novels && n.id == e.created.value.novelId
  {
    if !Js.Truthy(userId) then Effect(None, Unauthorized)
    else if body.None? then Effect(None, ServerError)
    else if !Js.Truthy(body.value.novelId) || !Js.Truthy(body.value.title) then Effect(None, MissingFields)
    else
      match FindUserByClerkId(users, userId.value)
      case None => Effect(None, UserNotFound)
      case Some(user) =>
        var novelId := body.value.novelId.value;
        if FindOwnedNovel(novels, novelId, user.id).None? then Effect(None, NovelNotFound)
        else if newId in ChapterIds(chapters) then Effect(None, ServerError)
        else
          var chapter := Chapter(newId, novelId, body.value.title.value, body.value.summary,
                                 NextChapterNumber(chapters, novelId), Utils.Pending);
          Effect(Some(chapter), Response(201, ChapterJson(chapter)))
  }

  /** The chapter table after the request. */
  function Apply(chapters: seq<Chapter>, e: Effect): seq<Chapter> {
    if e.created.Some? then chapters + [e.created.value] else chapters
  }

  /**
   * Each failed check gives its own response, in this order, and creates
   * nothing: a body that is not JSON and an id already in use both end in
   * the handler's `catch`, which answers 500.
   */
  lemma CreateChapterCheckOrder(users: seq<User>, novels: seq<Novel>, chapters: seq<Chapter>,
                                userId: Option<string>, body: Option<CreateChapterBody>, newId: string)
    ensures var e := CreateChapter(users, novels, chapters, userId, body, newId);
      && (!Js.Truthy(userId) ==> e == Effect(None, Unauthorized))
      && (Js.Truthy(userId) && body.Some? && (!Js.Truthy(body.value.novelId) || !Js.Truthy(body.value.title)) ==>
            e == Effect(None, MissingFields))
      && (RequestComplete(userId, body) && FindUserByClerkId(users, userId.value).None? ==>
            e == Effect(None, UserNotFound))
      && (RequestComplete(userId, body) && FindUserByClerkId(users, userId.value).Some?
          && (forall n :: n in novels ==>
                (n.id != body.value.novelId.value || n.userId != FindUserByClerkId(users, userId.value).value.id)) ==>
            e == Effect(None, NovelNotFound))
      && (Js.Truthy(userId) && body.None? ==> e == Effect(None, ServerError))
      && (RequestComplete(userId, body) && FindUserByClerkId(users, userId.value).Some?
          && FindOwnedNovel(novels, body.value.novelId.value, FindUserByClerkId(users, userId.value).value.id).Some?
          && newId in ChapterIds(chapters) ==>
            e == Effect(None, ServerError))
  {
  }

  /** Identity and field checks come before any lookup: their answer does not depend on the tables. */
  lemma ValidationPrecedesLookups(users1: seq<User>, novels1: seq<Novel>, chapters1: seq<Chapter>,
                                  users2: seq<User>, novels2: seq<Novel>, chapters2: seq<Chapter>,
                                  userId: Option<string>, body: Option<CreateChapterBody>, newId: string)
    requires !RequestComplete(userId, body)
    ensures CreateChapter(users1, novels1, chapters1, userId, body, newId)
         == CreateChapter(users2, novels2, chapters2, userId, body, newId)
    ensures CreateChapter(users1, novels1, chapters1, userId, body, newId).created.None?
  {
  }

  /**
   * A chapter is created exactly when the caller has a user record that owns
   * the named novel; it carries the request's fields, status `pending`, and
   * the number one above the novel's largest (1 for the first chapter).
   */
  lemma CreatedChapter(users: seq<User>, novels: seq<Novel>, chapters: seq<Chapter>,
                       userId: Option<string>, body: Option<CreateChapterBody>, newId: string)
    ensures var e := CreateChapter(users, novels, chapters, userId, body, newId);
      e.created.Some? <==>
        && RequestComplete(userId, body)
        && FindUserByClerkId(users, userId.value).Some?
        && (exists n :: n in novels && n.id == body.value.novelId.value
                        && n.userId == FindUserByClerkId(users, userId.value).value.id)
        && newId !in ChapterIds(chapters)
    ensures var e := CreateChapter(users, novels, chapters, userId, body, newId);
      e.created.Some? ==>
        var c := e.created.value;
        && e.response == Response(201, ChapterJson(c))
        && c.id == newId && c.novelId == body.value.novelId.value && c.title == body.value.title.value
        && c.summary == body.value.summary && c.status == Utils.Pending
        && (forall d :: d in chapters && d.novelId == c.novelId ==> d.chapterNumber < c.chapterNumber)
        && ((forall d :: d in chapters ==> d.novelId != c.novelId) ==> c.chapterNumber == 1)
        && ((exists d :: d in chapters && d.novelId == c.novelId) ==>
              exists d :: d in chapters && d.novelId == c.novelId && d.chapterNumber == c.chapterNumber - 1)
  {
  }

  /** Creating a chapter keeps the schema's constraints and the numbering sound. */
  lemma CreateChapterKeepsInvariants(users: seq<User>, novels: seq<Novel>, chapters: seq<Chapter>,
                                     userId: Option<string>, body: Option<CreateChapterBody>, newId: string)
    requires Consistent(users, novels, chapters)
    ensures var after := Apply(chapters, CreateChapter(users, novels, chapters, userId, body, newId));
      && Consistent(users, novels, after)
      && (WellNumbered(chapters) ==> WellNumbered(after))
  {
    var e := CreateChapter(users, novels, chapters, userId, body, newId);
    if e.created.Some? {
      var c := e.created.value;
      var n := FindOwnedNovel(novels, c.novelId, FindUserByClerkId(users, userId.value).value.id).value;
      assert n in novels && c.novelId in NovelIds(novels);
      assert c.id !in ChapterIds(chapters);
      var after := chapters + [c];
      forall i, j | 0 <= i < j < |after| ensures after[i].id != after[j].id {
        if j == |chapters| {
          assert after[i] in chapters;
        }
      }
      if WellNumbered(chapters) {
        AppendNextNumberKeepsWellNumbered(chapters, c);
      }
    }
  }

  /** Only the target novel's chapter list changes, and only by the new chapter at its end. */
  lemma CreateChapterTouchesOnlyItsNovel(users: seq<User>, novels: seq<Novel>, chapters: seq<Chapter>,
                                         userId: Option<string>, body: Option<CreateChapterBody>, newId: string,
                                         novelId: string)
    ensures var e := CreateChapter(users, novels, chapters, userId, body, newId);
      ChaptersOf(Apply(chapters, e), novelId) ==
        ChaptersOf(chapters, novelId) + (if e.created.Some? && e.created.value.novelId == novelId
                                         then [e.created.value] else [])
  {
    var e := CreateChapter(users, novels, chapters, userId, body, newId);
    if e.created.Some? {
      ChaptersOfAppend(chapters, e.created.value, novelId);
    }
  }

  /**
   * The handler: checks in order with an early return each, then one insert.
   * Users and novels are never written.
   */
  method Post(db: Db, userId: Option<string>, body: Option<CreateChapterBody>, newId: string)
    returns (response: Response)
    requires db.Valid()
    modifies db
    ensures db.Valid()
    ensures var e := CreateChapter(old(db.users), old(db.novels), old(db.chapters), userId, body, newId);
      response == e.response && db.chapters == Apply(old(db.chapters), e)
    ensures db.users == old(db.users) && db.novels == old(db.novels)
    ensures WellNumbered(old(db.chapters)) ==> WellNumbered(db.chapters)
  {
    CreateChapterKeepsInvariants(db.users, db.novels, db.chapters, userId, body, newId);
    if !Js.Truthy(userId) {
      return Unauthorized;
    }
    if body.None? {
      return ServerError;
    }
    var request := body.value;
    if !Js.Truthy(request.novelId) || !Js.Truthy(request.title) {
      return MissingFields;
    }
    var user := FindUserByClerkId(db.users, userId.value);
    if user.None? {
      return UserNotFound;
    }
    var novelId := request.novelId.value;
    var novel := FindOwnedNovel(db.novels, novelId, user.value.id);
    if novel.None? {
      return NovelNotFound;
    }
    var chapterNumber := NextChapterNumber(db.chapters, novelId);
    if newId in ChapterIds(db.chapters) {
      return ServerError;
    }
    var chapter := Chapter(newId, novelId, request.title.value, request.summary, chapterNumber, Utils.Pending);
    db.chapters := db.chapters + [chapter];
    return Response(201, ChapterJson(chapter));
  }
}
