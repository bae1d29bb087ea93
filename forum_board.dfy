/** The community forum of ForumScreen.tsx: the posts received from the
    store, shown newest first and narrowed by a search query, with the
    "time ago" label of each post, the checks made before a post is
    created and the like toggle. */
module ForumBoard {
  import opened Results
  import opened Lists
  import opened Text
  import opened Accounts

  /** A document of the `forumPosts` collection. `content` and `userName`
      may be missing; `createdAt` holds the seconds of the server
      time-stamp, missing until the server has set it. */
  datatype Post = Post(
    id: string,
    content: Option<string>,
    imageUrl: Option<string>,
    userId: string,
    userName: Option<string>,
    createdAt: Option<int>,
    likes: seq<string>,
    likesCount: int,
    commentsCount: int)

  /** `createdAt?.seconds || 0`. */
  function SortKey(p: Post): int {
    p.createdAt.GetOr(0)
  }

  /** Newest first: the sort keys never increase along the sequence. */
  predicate NewestFirst(s: seq<Post>) {
    forall i, j :: 0 <= i < j < |s| ==> SortKey(s[i]) >= SortKey(s[j])
  }

  /** The keys of `a[lo..hi]` never increase. */
  predicate SortedSlice(a: array<Post>, lo: int, hi: int)
    requires 0 <= lo <= hi <= a.Length
    reads a
  {
    forall i, j :: lo <= i < j < hi ==> SortKey(a[i]) >= SortKey(a[j])
  }

  /** `postsData.sort((a, b) => bTime - aTime)`, done in place by
      insertion. */
  method SortNewestFirst(a: array<Post>)
    modifies a
    ensures NewestFirst(a[..])
    ensures multiset(a[..]) == multiset(old(a[..]))
  {
    if a.Length == 0 {
      return;
    }
    var i := 1;
    while i < a.Length
      invariant 1 <= i <= a.Length
      invariant SortedSlice(a, 0, i)
      invariant multiset(a[..]) == multiset(old(a[..]))
    {
      Insert(a, i);
      i := i + 1;
    }
  }

  /** Moves `a[i]` down into the sorted run `a[..i]`. */
  method Insert(a: array<Post>, i: int)
    requires 0 < i < a.Length && SortedSlice(a, 0, i)
    modifies a
    ensures SortedSlice(a, 0, i + 1)
    ensures multiset(a[..]) == multiset(old(a[..]))
  {
    var j := i;
    while j > 0 && SortKey(a[j - 1]) < SortKey(a[j])
      invariant 0 <= j <= i
      invariant Inserting(a[..], j, i)
      invariant multiset(a[..]) == multiset(old(a[..]))
    {
      ghost var before := a[..];
      a[j - 1], a[j] := a[j], a[j - 1];
      assert a[..] == Swap(before, j - 1, j);
      InsertingStep(before, j, i);
      j := j - 1;
    }
    InsertingDone(a[..], j, i);
  }

  /** The state of `Insert` while the moving post sits at `j`: the run up
      to `i` is newest first apart from it, it is newer than everything
      after it, and its neighbours are in order with each other. */
  ghost predicate Inserting(s: seq<Post>, j: nat, i: nat) {
    && j <= i < |s|
    && (forall x, y :: 0 <= x < y <= i && x != j && y != j ==> SortKey(s[x]) >= SortKey(s[y]))
    && (forall y :: j < y <= i ==> SortKey(s[j]) > SortKey(s[y]))
    && (0 < j < i ==> SortKey(s[j - 1]) >= SortKey(s[j + 1]))
  }

  lemma InsertingStep(s: seq<Post>, j: nat, i: nat)
    requires 0 < j && Inserting(s, j, i) && SortKey(s[j - 1]) < SortKey(s[j])
    ensures Inserting(Swap(s, j - 1, j), j - 1, i)
  {
    var t := Swap(s, j - 1, j);
    forall x, y | 0 <= x < y <= i && x != j - 1 && y != j - 1
      ensures SortKey(t[x]) >= SortKey(t[y])
    {
      if y == j {
        assert t[y] == s[j - 1];
        if x < j - 1 {
          assert SortKey(s[x]) >= SortKey(s[j - 1]);
        }
      } else if x == j {
        assert t[x] == s[j - 1] && t[y] == s[y];
        assert SortKey(s[j - 1]) >= SortKey(s[j + 1]);
        if y > j + 1 {
          assert SortKey(s[j + 1]) >= SortKey(s[y]);
        }
      }
    }
  }

  lemma InsertingDone(s: seq<Post>, j: nat, i: nat)
    requires Inserting(s, j, i) && (j == 0 || SortKey(s[j - 1]) >= SortKey(s[j]))
    ensures forall x, y :: 0 <= x < y <= i ==> SortKey(s[x]) >= SortKey(s[y])
  {
    forall x, y | 0 <= x < y <= i
      ensures SortKey(s[x]) >= SortKey(s[y])
    {
      if y == j && x < j - 1 {
        assert SortKey(s[x]) >= SortKey(s[j - 1]);
      }
    }
  }

  /** The post matches a lower-cased query in its lower-cased content or
      author name; a missing field never matches. */
  predicate Matches(p: Post, query: string) {
    || (p.content.Some? && Includes(Lower(p.content.value), query))
    || (p.userName.Some? && Includes(Lower(p.userName.value), query))
  }

  /** `filteredPosts`: every post for a query that is blank once trimmed;
      otherwise the posts that match the lower-cased query as typed, in
      their order. */
  function Visible(posts: seq<Post>, query: string): (r: seq<Post>)
    ensures IsBlank(query) ==> r == posts
    ensures !IsBlank(query) ==> forall p :: p in r <==> p in posts && Matches(p, Lower(query))
    ensures IsSubsequence(r, posts)
  {
    TrimEmptyIffBlank(query);
    if Trim(query) == "" then
      IsSubsequenceRefl(posts);
      posts
    else
      var q := Lower(query);
      FilterIsSubsequence(posts, p => Matches(p, q));
      Filter(posts, p => Matches(p, q))
  }

  lemma {:induction false} IsSubsequenceRefl<T>(s: seq<T>)
    ensures IsSubsequence(s, s)
  {
    if s != [] {
      IsSubsequenceRefl(s[1..]);
    }
  }

  /** Whether the post's content or author name holds a space. */
  predicate HasSpace(p: Post) {
    || (p.content.Some? && ' ' in p.content.value)
    || (p.userName.Some? && ' ' in p.userName.value)
  }

  /** The search is on the query as typed: a trailing space is part of
      what must be found, so it only narrows the list, down to posts whose
      content or author name holds a space. */
  lemma SearchIsUntrimmed(posts: seq<Post>, query: string, p: Post)
    requires !IsBlank(query)
    requires p in Visible(posts, query + " ")
    ensures p in Visible(posts, query)
    ensures HasSpace(p)
  {
    AppendKeepsNonBlank(query, ' ');
    assert Lower(query + " ") == Lower(query) + " ";
    MatchesDropSpace(p, Lower(query));
  }

  lemma AppendKeepsNonBlank(s: string, c: char)
    requires !IsBlank(s)
    ensures !IsBlank(s + [c])
  {
    var k :| 0 <= k < |s| && !IsSpace(s[k]);
    assert (s + [c])[k] == s[k];
  }

  lemma MatchesDropSpace(p: Post, q: string)
    requires Matches(p, q + " ")
    ensures Matches(p, q) && HasSpace(p)
  {
    if p.content.Some? && Includes(Lower(p.content.value), q + " ") {
      IncludesDropLast(Lower(p.content.value), q, ' ');
      LowerKeepsSpace(p.content.value);
    } else {
      IncludesDropLast(Lower(p.userName.value), q, ' ');
      LowerKeepsSpace(p.userName.value);
    }
  }

  /** A text that contains `sub + [c]` contains `sub`, and `c`. */
  lemma IncludesDropLast(s: string, sub: string, c: char)
    requires Includes(s, sub + [c])
    ensures Includes(s, sub) && c in s
  {
    var i :| 0 <= i <= |s| - |sub + [c]| && OccursAt(s, sub + [c], i);
    assert s[i..i + |sub|] == (sub + [c])[..|sub|] == sub;
    assert OccursAt(s, sub, i);
    assert s[i + |sub|] == (sub + [c])[|sub|] == c;
  }

  /** Lower-casing turns no other character into a space. */
  lemma LowerKeepsSpace(s: string)
    requires ' ' in Lower(s)
    ensures ' ' in s
  {
    var k :| 0 <= k < |s| && Lower(s)[k] == ' ';
    assert s[k] == ' ';
  }

  /** What `formatTime` shows: the largest whole unit elapsed. */
  datatype Elapsed = JustNow | MinutesAgo(n: int) | HoursAgo(n: int) | DaysAgo(n: int)

  /** `formatTime(timestamp)` at the time `nowMs` (milliseconds): the
      whole seconds elapsed since `createdAt`, bucketed. */
  function FormatTime(createdAt: Option<int>, nowMs: int): (r: Elapsed)
    ensures createdAt.None? ==> r == JustNow
    ensures createdAt.Some? ==>
              var s := (nowMs - createdAt.value * 1000) / 1000;
              && (r == JustNow <==> s < 60)
              && (r.MinutesAgo? <==> 60 <= s < 3600)
              && (r.HoursAgo? <==> 3600 <= s < 86400)
              && (r.DaysAgo? <==> 86400 <= s)
              && (r.MinutesAgo? ==> r.n * 60 <= s < (r.n + 1) * 60 && 1 <= r.n < 60)
              && (r.HoursAgo? ==> r.n * 3600 <= s < (r.n + 1) * 3600 && 1 <= r.n < 24)
              && (r.DaysAgo? ==> r.n * 86400 <= s < (r.n + 1) * 86400 && 1 <= r.n)
  {
    match createdAt
    case None => JustNow
    case Some(t) =>
      var s := (nowMs - t * 1000) / 1000;
      if s < 60 then JustNow
      else if s < 3600 then MinutesAgo(s / 60)
      else if s < 86400 then HoursAgo(s / 3600)
      else DaysAgo(s / 86400)
  }

  /** A post never shows a younger label as time goes on. */
  lemma FormatTimeMonotone(t: int, now1: int, now2: int)
    requires now1 <= now2
    ensures Rank(FormatTime(Some(t), now1)) <= Rank(FormatTime(Some(t), now2))
  {
    var s1, s2 := (now1 - t * 1000) / 1000, (now2 - t * 1000) / 1000;
    assert s1 <= s2;
  }

  /** The order of the buckets, for comparing labels. */
  function Rank(e: Elapsed): int {
    match e
    case JustNow => 0
    case MinutesAgo(_) => 1
    case HoursAgo(_) => 2
    case DaysAgo(_) => 3
  }

  datatype PostError =
    | NothingToPost   // "Please add some content or an image"
    | NotSignedIn     // "Please log in to post"

  /** `handleCreatePost`: refused when the content is blank once trimmed
      and no image is chosen, then when nobody is signed in; otherwise the
      document written, under the id and time-stamp the store assigns. */
  function NewPost(content: string, image: Option<string>, user: Option<User>, id: string, now: int): (r: Result<Post, PostError>)
    ensures IsBlank(content) && image.None? <==> r == Err(NothingToPost)
    ensures r == Err(NotSignedIn) <==> !(IsBlank(content) && image.None?) && user.None?
    ensures r.Ok? ==> user.Some? && r.value == Post(id, Some(Trim(content)), image, user.value.uid,
                                                    Some(NameOrAnonymous(user.value)), Some(now), [], 0, 0)
  {
    TrimEmptyIffBlank(content);
    if Trim(content) == "" && image.None? then Err(NothingToPost)
    else if user.None? then Err(NotSignedIn)
    else Ok(Post(id, Some(Trim(content)), image, user.value.uid, Some(NameOrAnonymous(user.value)), Some(now), [], 0, 0))
  }

  /** `handleLike` for the user `uid`: a present like is removed (every
      copy, as `arrayRemove` does) and the counter decremented; an absent
      one is appended and the counter incremented. */
  function Liked(p: Post, uid: string): (r: Post)
    ensures r == p.(likes := r.likes, likesCount := r.likesCount)
    ensures uid in p.likes ==> uid !in r.likes && r.likesCount == p.likesCount - 1
    ensures uid !in p.likes ==> r.likes == p.likes + [uid] && r.likesCount == p.likesCount + 1
    ensures forall x :: x != uid ==> (x in r.likes <==> x in p.likes)
  {
    if uid in p.likes then p.(likes := RemoveAll(p.likes, uid), likesCount := p.likesCount - 1)
    else p.(likes := p.likes + [uid], likesCount := p.likesCount + 1)
  }

  /** A like counter that counts a list without repeats keeps doing so. */
  lemma LikeKeepsCount(p: Post, uid: string)
    requires NoDup(p.likes) && p.likesCount == |p.likes|
    ensures NoDup(Liked(p, uid).likes) && Liked(p, uid).likesCount == |Liked(p, uid).likes|
  {
    RemoveAllNoDup(p.likes, uid);
  }

  /** Liking and then unliking leaves the post as it was. */
  lemma LikeTwiceRestores(p: Post, uid: string)
    requires uid !in p.likes
    ensures Liked(Liked(p, uid), uid) == p
  {
    RemoveAllAppended(p.likes, uid);
  }

  /** The screen's list of posts and its search box. */
  class Board {
    var posts: seq<Post>
    var query: string

    ghost predicate Valid()
      reads this
    {
      NewestFirst(posts)
    }

    constructor()
      ensures Valid() && posts == [] && query == ""
    {
      posts := [];
      query := "";
    }

    /** The snapshot listener: the received posts, sorted newest first. */
    method Receive(snapshot: seq<Post>)
      modifies this
      ensures Valid() && multiset(posts) == multiset(snapshot) && query == old(query)
    {
      var a := new Post[|snapshot|](k requires 0 <= k < |snapshot| => snapshot[k]);
      assert a[..] == snapshot;
      SortNewestFirst(a);
      posts := a[..];
    }

    /** `setSearchQuery`. */
    method Search(text: string)
      modifies this
      ensures query == text && posts == old(posts)
    {
      query := text;
    }

    /** The posts on screen. */
    function Shown(): (r: seq<Post>)
      reads this
      ensures IsSubsequence(r, posts)
    {
      Visible(posts, query)
    }

    /** `handleLike` on the post at `i`: without a signed-in user nothing
        changes. The posts stay in order. */
    method HandleLike(i: nat, user: Option<User>)
      requires Valid() && i < |posts|
      modifies this
      ensures Valid() && query == old(query)
      ensures user.None? ==> posts == old(posts)
      ensures user.Some? ==> posts == old(posts)[i := Liked(old(posts)[i], user.value.uid)]
    {
      if user.Some? {
        posts := posts[i := Liked(posts[i], user.value.uid)];
        assert forall k :: 0 <= k < |posts| ==> SortKey(posts[k]) == SortKey(old(posts)[k]);
      }
    }
  }
}
