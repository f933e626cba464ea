/**
 * The database the two route files talk to, as plain tables: users, novels
 * and chapters, the lookups and orderings the routes ask of it, and the
 * constraints the schema enforces (unique ids, unique Clerk id, every novel
 * owned by a user, every chapter in a novel).
 */
module Store {
  import opened Wrappers
  import Utils

  datatype User = User(id: string, clerkId: string, email: string, username: string)

  datatype Novel = Novel(id: string, title: string, genre: string, description: Option<string>,
                         style: string, userId: string, updatedAt: int)

  datatype Chapter = Chapter(id: string, novelId: string, title: string, summary: Option<string>,
                             chapterNumber: int, status: Utils.ChapterStatus)

  /** A novel as returned with `include: { chapters }`. */
  datatype NovelWithChapters = NovelWithChapters(novel: Novel, chapters: seq<Chapter>)

  function UserIds(users: seq<User>): set<string> {
    set u | u in users :: u.id
  }

  function NovelIds(novels: seq<Novel>): set<string> {
    set n | n in novels :: n.id
  }

  function ChapterIds(chapters: seq<Chapter>): set<string> {
    set c | c in chapters :: c.id
  }

  // ---------------------------------------------------------------------
  // Lookups

  /** `user.findUnique({ where: { clerkId } })`. */
  function FindUserByClerkId(users: seq<User>, clerkId: string): (r: Option<User>)
    ensures r.Some? ==> r.value in users && r.value.clerkId == clerkId
    ensures r.None? <==> forall u :: u in users ==> u.clerkId != clerkId
  {
    if users == [] then None
    else if users[0].clerkId == clerkId then Some(users[0])
    else FindUserByClerkId(users[1..], clerkId)
  }

  /** `novel.findFirst({ where: { id: novelId, userId } })`. */
  function FindOwnedNovel(novels: seq<Novel>, novelId: string, userId: string): (r: Option<Novel>)
    ensures r.Some? ==> r.value in novels && r.value.id == novelId && r.value.userId == userId
    ensures r.None? <==> forall n :: n in novels ==> n.id != novelId || n.userId != userId
  {
    if novels == [] then None
    else if novels[0].id == novelId && novels[0].userId == userId then Some(novels[0])
    else FindOwnedNovel(novels[1..], novelId, userId)
  }

  /** The chapters of one novel, in table order. */
  function ChaptersOf(chapters: seq<Chapter>, novelId: string): (r: seq<Chapter>)
    ensures forall c :: c in r <==> c in chapters && c.novelId == novelId
    ensures forall c :: multiset(r)[c] == if c.novelId == novelId then multiset(chapters)[c] else 0
    ensures |r| <= |chapters|
  {
    if chapters == [] then []
    else
      assert chapters == [chapters[0]] + chapters[1..];
      if chapters[0].novelId == novelId then [chapters[0]] + ChaptersOf(chapters[1..], novelId)
      else ChaptersOf(chapters[1..], novelId)
  }

  /** The novels owned by one user, in table order. */
  function OwnedNovels(novels: seq<Novel>, userId: string): (r: seq<Novel>)
    ensures forall n :: n in r <==> n in novels && n.userId == userId
    ensures forall n :: multiset(r)[n] == if n.userId == userId then multiset(novels)[n] else 0
  {
    if novels == [] then []
    else
      assert novels == [novels[0]] + novels[1..];
      if novels[0].userId == userId then [novels[0]] + OwnedNovels(novels[1..], userId)
      else OwnedNovels(novels[1..], userId)
  }

  /**
   * The number of the chapter `chapter.findFirst({ where: { novelId },
   * orderBy: { chapterNumber: 'desc' } })` finds: the largest number in the
   * novel, or nothing when the novel has no chapters.
   */
  function LastChapterNumber(chapters: seq<Chapter>, novelId: string): (r: Option<int>)
    ensures r.None? <==> forall c :: c in chapters ==> c.novelId != novelId
    ensures r.Some? ==> exists c :: c in chapters && c.novelId == novelId && c.chapterNumber == r.value
    ensures r.Some? ==> forall c :: c in chapters && c.novelId == novelId ==> c.chapterNumber <= r.value
  {
    if chapters == [] then None
    else
      var rest := LastChapterNumber(chapters[1..], novelId);
      var c := chapters[0];
      if c.novelId != novelId then rest
      else if rest.None? || rest.value < c.chapterNumber then Some(c.chapterNumber)
      else rest
  }

  /**
   * `(lastChapter?.chapterNumber || 0) + 1`: one more than the largest number
   * in the novel, and 1 for a novel without chapters.
   */
  function NextChapterNumber(chapters: seq<Chapter>, novelId: string): (r: int)
    ensures forall c :: c in chapters && c.novelId == novelId ==> c.chapterNumber < r
    ensures (forall c :: c in chapters ==> c.novelId != novelId) ==> r == 1
    ensures (exists c :: c in chapters && c.novelId == novelId) ==>
      exists c :: c in chapters && c.novelId == novelId && c.chapterNumber == r - 1
  {
    var last := LastChapterNumber(chapters, novelId);
    (if last.Some? && last.value != 0 then last.value else 0) + 1
  }

  // ---------------------------------------------------------------------
  // Ordering (`orderBy`)

  predicate SortedBy<T>(s: seq<T>, key: T -> int) {
    forall i, j :: 0 <= i < j < |s| ==> key(s[i]) <= key(s[j])
  }

  lemma SortedCons<T>(h: T, t: seq<T>, key: T -> int)
    requires SortedBy(t, key)
    requires forall k :: 0 <= k < |t| ==> key(h) <= key(t[k])
    ensures SortedBy([h] + t, key)
  {
  }

  function InsertBy<T>(x: T, s: seq<T>, key: T -> int): (r: seq<T>)
    requires SortedBy(s, key)
    ensures SortedBy(r, key)
    ensures multiset(r) == multiset(s) + multiset{x}
    ensures forall k :: 0 <= k < |r| ==> r[k] == x || r[k] in s
  {
    if s == [] then [x]
    else if key(x) <= key(s[0]) then
      SortedCons(x, s, key);
      [x] + s
    else
      var tail := InsertBy(x, s[1..], key);
      assert s == [s[0]] + s[1..];
      HeadBelowInsert(s, x, tail, key);
      SortedCons(s[0], tail, key);
      [s[0]] + tail
  }

  /** The head of a sorted row is below every row of its tail with `x` inserted, when it is below `x`. */
  lemma HeadBelowInsert<T>(s: seq<T>, x: T, tail: seq<T>, key: T -> int)
    requires s != [] && SortedBy(s, key) && key(s[0]) <= key(x)
    requires forall k :: 0 <= k < |tail| ==> tail[k] == x || tail[k] in s[1..]
    ensures forall k :: 0 <= k < |tail| ==> key(s[0]) <= key(tail[k])
  {
    forall k | 0 <= k < |tail| ensures key(s[0]) <= key(tail[k]) {
      if tail[k] != x {
        var m :| 0 <= m < |s[1..]| && s[1..][m] == tail[k];
        assert s[m + 1] == tail[k];
      }
    }
  }

  /**
   * The rows of `s` ordered by ascending key. By construction, rows with
   * equal keys keep their relative order; the contract does not state it.
   */
  function SortBy<T>(s: seq<T>, key: T -> int): (r: seq<T>)
    ensures SortedBy(r, key)
    ensures multiset(r) == multiset(s)
  {
    if s == [] then []
    else
      assert s == [s[0]] + s[1..];
      InsertBy(s[0], SortBy(s[1..], key), key)
  }

  // ---------------------------------------------------------------------
  // Constraints

  /** What the schema enforces on every state: unique keys and foreign keys. */
  predicate Consistent(users: seq<User>, novels: seq<Novel>, chapters: seq<Chapter>) {
    && (forall i, j :: 0 <= i < j < |users| ==> users[i].id != users[j].id)
    && (forall i, j :: 0 <= i < j < |users| ==> users[i].clerkId != users[j].clerkId)
    && (forall i, j :: 0 <= i < j < |novels| ==> novels[i].id != novels[j].id)
    && (forall i, j :: 0 <= i < j < |chapters| ==> chapters[i].id != chapters[j].id)
    && (forall n :: n in novels ==> n.userId in UserIds(users))
    && (forall c :: c in chapters ==> c.novelId in NovelIds(novels))
  }

  /**
   * Chapter numbering as chapter creation keeps it (the schema does not):
   * numbers are positive and, within one novel, strictly increase in the
   * order the chapters were created, so no number repeats.
   */
  predicate WellNumbered(chapters: seq<Chapter>) {
    && (forall i :: 0 <= i < |chapters| ==> chapters[i].chapterNumber >= 1)
    && (forall i, j :: 0 <= i < j < |chapters| && chapters[i].novelId == chapters[j].novelId ==>
          chapters[i].chapterNumber < chapters[j].chapterNumber)
  }

  lemma {:induction false} ChaptersOfAppend(chapters: seq<Chapter>, c: Chapter, novelId: string)
    ensures ChaptersOf(chapters + [c], novelId) ==
      ChaptersOf(chapters, novelId) + (if c.novelId == novelId then [c] else [])
  {
    if chapters == [] {
      assert chapters + [c] == [c];
    } else {
      assert (chapters + [c])[1..] == chapters[1..] + [c];
      ChaptersOfAppend(chapters[1..], c, novelId);
    }
  }

  /** Appending a chapter numbered by NextChapterNumber keeps the numbering sound. */
  lemma AppendNextNumberKeepsWellNumbered(chapters: seq<Chapter>, c: Chapter)
    requires WellNumbered(chapters)
    requires c.chapterNumber == NextChapterNumber(chapters, c.novelId)
    ensures WellNumbered(chapters + [c])
  {
  }

  /** A novel id no novel has yet owns no chapter. */
  lemma FreshNovelHasNoChapters(users: seq<User>, novels: seq<Novel>, chapters: seq<Chapter>, novelId: string)
    requires Consistent(users, novels, chapters)
    requires novelId !in NovelIds(novels)
    ensures ChaptersOf(chapters, novelId) == []
  {
  }

  /**
   * The tables, updated in place by the route handlers. The schema's
   * constraints hold in every state the database can be in.
   */
  class Db {
    var users: seq<User>
    var novels: seq<Novel>
    var chapters: seq<Chapter>

    ghost predicate Valid()
      reads this
    {
      Consistent(users, novels, chapters)
    }

    constructor ()
      ensures Valid()
      ensures users == [] && novels == [] && chapters == []
    {
      users, novels, chapters := [], [], [];
    }
  }
}
