/** forumService.ts over an in-memory store: the `forum_posts`,
    `forum_votes` and `forum_comments` collections become maps, and each
    post's `upvotes`, `downvotes` and `commentCount` counters are kept by
    the service's updates alongside the vote and comment records they
    count. */
module ForumService {
  import opened Results

  datatype ForumPost = ForumPost(
    title: string,
    content: string,
    userId: string,
    userName: string,
    avatar: string,
    category: string,
    isPinned: bool,
    createdAt: int,
    updatedAt: int,
    upvotes: int,
    downvotes: int,
    commentCount: int)

  /** What a caller of `createPost` supplies. */
  datatype PostDraft = PostDraft(
    title: string,
    content: string,
    userId: string,
    userName: string,
    avatar: string,
    category: string,
    isPinned: bool)

  datatype Comment = Comment(
    postId: string,
    content: string,
    userId: string,
    userName: string,
    avatar: string,
    createdAt: int)

  /** What a caller of `addComment` supplies: a comment without its id and
      its time-stamp. */
  datatype CommentDraft = CommentDraft(
    postId: string,
    content: string,
    userId: string,
    userName: string,
    avatar: string)

  /** The vote record of a user on a post, keyed by (post, user):
      `isUpvote`. */
  type Votes = map<(string, string), bool>

  datatype VoteOutcome =
    | Withdrawn      // the same vote again: the record is deleted
    | Cast           // a first vote
    | Switched       // the other direction than the recorded vote
    | PostNotFound   // the counter update fails after the record was written

  /** The users whose recorded vote on `p` goes in direction `up`. */
  function Voters(votes: Votes, p: string, up: bool): set<string> {
    set k | k in votes && k.0 == p && votes[k] == up :: k.1
  }

  /** The comments on `p`. */
  function CommentsOn(comments: map<string, Comment>, p: string): set<string> {
    set c | c in comments && comments[c].postId == p
  }

  /** Writing a vote record moves the user into the voters of its
      direction and out of the other, on that post only. */
  lemma VotersAfterSet(votes: Votes, p: string, u: string, b: bool, q: string, up: bool)
    ensures Voters(votes[(p, u) := b], q, up) ==
              if q != p then Voters(votes, q, up)
              else if b == up then Voters(votes, q, up) + {u}
              else Voters(votes, q, up) - {u}
  {
    var after := votes[(p, u) := b];
    if q == p && b != up {
      forall x | x in Voters(votes, q, up) - {u} ensures x in Voters(after, q, up) {
        assert (q, x) in votes && votes[(q, x)] == up;
        assert after[(q, x)] == up;
      }
    } else if q == p {
      forall x | x in Voters(votes, q, up) ensures x in Voters(after, q, up) {
        assert (q, x) in votes && votes[(q, x)] == up;
        if x != u { assert after[(q, x)] == up; }
      }
      assert (p, u) in after && after[(p, u)] == up;
    } else {
      forall x | x in Voters(votes, q, up) ensures x in Voters(after, q, up) {
        assert (q, x) in votes && votes[(q, x)] == up;
        assert after[(q, x)] == up;
      }
    }
  }

  /** Deleting a vote record takes the user out of that post's voters. */
  lemma VotersAfterDelete(votes: Votes, p: string, u: string, q: string, up: bool)
    ensures Voters(votes - {(p, u)}, q, up) == if q == p then Voters(votes, q, up) - {u} else Voters(votes, q, up)
  {
    var after := votes - {(p, u)};
    forall x | x in Voters(votes, q, up) && (q != p || x != u) ensures x in Voters(after, q, up) {
      assert (q, x) in votes && votes[(q, x)] == up;
      assert (q, x) in after;
    }
  }

  /** The counters of `post` after a vote in direction `up` by a user whose
      recorded vote was `current`. */
  function Tally(post: ForumPost, current: Option<bool>, up: bool): (r: ForumPost)
    ensures r == post.(upvotes := r.upvotes, downvotes := r.downvotes)
    ensures current == Some(up) ==>
              if up then r.upvotes == post.upvotes - 1 && r.downvotes == post.downvotes
              else r.downvotes == post.downvotes - 1 && r.upvotes == post.upvotes
    ensures current == None ==>
              if up then r.upvotes == post.upvotes + 1 && r.downvotes == post.downvotes
              else r.downvotes == post.downvotes + 1 && r.upvotes == post.upvotes
    ensures current == Some(!up) ==> r.upvotes + r.downvotes == post.upvotes + post.downvotes
    ensures current == Some(!up) ==> if up then r.upvotes == post.upvotes + 1 else r.downvotes == post.downvotes + 1
  {
    if current == Some(up) then
      if up then post.(upvotes := post.upvotes - 1) else post.(downvotes := post.downvotes - 1)
    else
      var p := if current == Some(true) then post.(upvotes := post.upvotes - 1)
               else if current == Some(false) then post.(downvotes := post.downvotes - 1)
               else post;
      if up then p.(upvotes := p.upvotes + 1) else p.(downvotes := p.downvotes + 1)
  }

  /** Voting twice in the same direction leaves the counters as they
      were. */
  lemma VoteTwiceRestores(post: ForumPost, up: bool)
    ensures Tally(Tally(post, None, up), Some(up), up) == post
  {
  }

  /** `getPosts(category)` filters only for a category that is given, not
      empty and not `'All'`. */
  predicate FiltersBy(category: Option<string>) {
    category.Some? && category.value != "" && category.value != "All"
  }

  /** The posts `getPosts(category)` lists. */
  function Listed(posts: map<string, ForumPost>, category: Option<string>): (ids: set<string>)
    ensures ids <= posts.Keys
    ensures !FiltersBy(category) ==> ids == posts.Keys
    ensures FiltersBy(category) ==> forall id :: id in ids <==> id in posts && posts[id].category == category.value
  {
    set id | id in posts && (!FiltersBy(category) || posts[id].category == category.value)
  }

  /** Every category filter lists a part of what "All" lists. */
  lemma CategoryNarrows(posts: map<string, ForumPost>, c: string)
    ensures Listed(posts, Some(c)) <= Listed(posts, Some("All"))
    ensures Listed(posts, Some("All")) == Listed(posts, None)
  {
  }

  /** The counters of post `p`, if it is stored, count its vote and
      comment records. */
  predicate CountsAt(posts: map<string, ForumPost>, votes: Votes, comments: map<string, Comment>, p: string) {
    p in posts ==>
      && posts[p].upvotes == |Voters(votes, p, true)|
      && posts[p].downvotes == |Voters(votes, p, false)|
      && posts[p].commentCount == |CommentsOn(comments, p)|
  }

  /** Every post's counters count its vote and comment records. */
  ghost predicate Consistent(posts: map<string, ForumPost>, votes: Votes, comments: map<string, Comment>) {
    forall p :: CountsAt(posts, votes, comments, p)
  }

  /** No vote or comment record refers to `p`. */
  ghost predicate NoRecordsOf(votes: Votes, comments: map<string, Comment>, p: string) {
    (forall k :: k in votes ==> k.0 != p) && (forall c :: c in comments ==> comments[c].postId != p)
  }

  /** A post stored with zero counters under an id no record refers to
      keeps every counter in step. */
  lemma CreateKeepsConsistent(posts: map<string, ForumPost>, votes: Votes, comments: map<string, Comment>,
                              id: string, post: ForumPost)
    requires Consistent(posts, votes, comments) && NoRecordsOf(votes, comments, id)
    requires post.upvotes == 0 && post.downvotes == 0 && post.commentCount == 0
    ensures Consistent(posts[id := post], votes, comments)
  {
    assert Voters(votes, id, true) == {} && Voters(votes, id, false) == {};
    assert CommentsOn(comments, id) == {};
    var after := posts[id := post];
    forall q ensures CountsAt(after, votes, comments, q) {
      assert CountsAt(posts, votes, comments, q);
    }
  }

  /** The record written by a vote. */
  function VotesAfter(votes: Votes, p: string, u: string, up: bool): Votes {
    if (p, u) in votes && votes[(p, u)] == up then votes - {(p, u)} else votes[(p, u) := up]
  }

  /** The vote recorded before, if any. */
  function CurrentVote(votes: Votes, p: string, u: string): Option<bool> {
    if (p, u) in votes then Some(votes[(p, u)]) else None
  }

  /** A vote on a stored post keeps every post's counters in step with the
      records. */
  lemma VoteKeepsConsistent(posts: map<string, ForumPost>, votes: Votes, comments: map<string, Comment>,
                            p: string, u: string, up: bool)
    requires Consistent(posts, votes, comments) && p in posts
    ensures Consistent(posts[p := Tally(posts[p], CurrentVote(votes, p, u), up)], VotesAfter(votes, p, u, up), comments)
  {
    assert CountsAt(posts, votes, comments, p);
    VoteKeepsCounts(posts[p], votes, p, u, up);
    var posts', votes' := posts[p := Tally(posts[p], CurrentVote(votes, p, u), up)], VotesAfter(votes, p, u, up);
    forall q ensures CountsAt(posts', votes', comments, q) {
      assert CountsAt(posts, votes, comments, q);
    }
  }

  class ForumStore {
    var posts: map<string, ForumPost>
    var votes: Votes
    var comments: map<string, Comment>

    ghost predicate Valid()
      reads this
    {
      Consistent(posts, votes, comments)
    }

    /** No vote or comment refers to `p`. */
    ghost predicate Unreferenced(p: string)
      reads this
    {
      NoRecordsOf(votes, comments, p)
    }

    constructor()
      ensures Valid() && posts == map[] && votes == map[] && comments == map[]
    {
      posts := map[];
      votes := map[];
      comments := map[];
    }

    /** `createPost`: the post is stored under the id the store assigns,
        with both time-stamps `now` and every counter at zero. */
    method CreatePost(id: string, draft: PostDraft, now: int)
      requires id !in posts
      modifies this
      ensures posts == old(posts)[id := ForumPost(draft.title, draft.content, draft.userId, draft.userName,
                                                  draft.avatar, draft.category, draft.isPinned, now, now, 0, 0, 0)]
      ensures votes == old(votes) && comments == old(comments)
      ensures old(Valid()) && old(Unreferenced(id)) ==> Valid()
    {
      var post := ForumPost(draft.title, draft.content, draft.userId, draft.userName,
                            draft.avatar, draft.category, draft.isPinned, now, now, 0, 0, 0);
      if Valid() && Unreferenced(id) {
        CreateKeepsConsistent(posts, votes, comments, id, post);
      }
      posts := posts[id := post];
    }

    /** `vote(postId, userId, isUpvote)`: the same direction as the
        recorded vote withdraws it; otherwise the vote is recorded, the old
        direction's counter is taken back and the new one counted. The
        record is written before the post is updated, so on a missing post
        only the record changes. */
    method Vote(postId: string, userId: string, isUpvote: bool) returns (outcome: VoteOutcome)
      modifies this
      ensures var key := (postId, userId);
              var current := if key in old(votes) then Some(old(votes)[key]) else None;
              && (current == Some(isUpvote) ==> votes == old(votes) - {key})
              && (current != Some(isUpvote) ==> votes == old(votes)[key := isUpvote])
              && (postId in old(posts) ==> posts == old(posts)[postId := Tally(old(posts)[postId], current, isUpvote)])
              && (postId in old(posts) ==> outcome == (if current == Some(isUpvote) then Withdrawn
                                                       else if current == None then Cast else Switched))
      ensures postId !in old(posts) ==> posts == old(posts) && outcome == PostNotFound
      ensures comments == old(comments)
      ensures old(Valid()) && postId in old(posts) ==> Valid()
    {
      if postId in posts && Valid() {
        VoteKeepsConsistent(posts, votes, comments, postId, userId, isUpvote);
      }
      var key := (postId, userId);
      var current := if key in votes then Some(votes[key]) else None;
      if current == Some(isUpvote) {
        votes := votes - {key};
        outcome := Withdrawn;
      } else {
        votes := votes[key := isUpvote];
        outcome := if current == None then Cast else Switched;
      }
      if postId !in posts {
        return PostNotFound;
      }
      posts := posts[postId := Tally(posts[postId], current, isUpvote)];
    }

    /** `addComment`: the comment, stamped with the time of the call, and
        the counter update are one batch, so on a missing post neither is
        written. */
    method AddComment(id: string, draft: CommentDraft, now: int) returns (ok: bool)
      requires id !in comments
      modifies this
      ensures ok <==> draft.postId in old(posts)
      ensures ok ==> comments == old(comments)[id := Comment(draft.postId, draft.content, draft.userId,
                                                             draft.userName, draft.avatar, now)]
      ensures ok ==> comments[id].createdAt == now && comments[id].postId == draft.postId
      ensures ok ==> posts == old(posts)[draft.postId := old(posts)[draft.postId].(commentCount := old(posts)[draft.postId].commentCount + 1, updatedAt := now)]
      ensures !ok ==> comments == old(comments) && posts == old(posts)
      ensures votes == old(votes)
      ensures old(Valid()) ==> Valid()
    {
      if draft.postId !in posts {
        return false;
      }
      var c := Comment(draft.postId, draft.content, draft.userId, draft.userName, draft.avatar, now);
      var post := posts[c.postId];
      if Valid() {
        AddCommentKeepsConsistent(posts, votes, comments, id, c, now);
      }
      comments := comments[id := c];
      posts := posts[c.postId := post.(commentCount := post.commentCount + 1, updatedAt := now)];
      ok := true;
    }

    /** `deleteComment(comment)`: deletes the comment and takes one off the
        counter of `comment.postId`, as one batch that fails on a missing
        post. The counter is decremented whether or not the comment was
        still stored. */
    method DeleteComment(id: string, c: Comment, now: int) returns (ok: bool)
      modifies this
      ensures ok <==> c.postId in old(posts)
      ensures ok ==> comments == old(comments) - {id}
      ensures ok ==> posts == old(posts)[c.postId := old(posts)[c.postId].(commentCount := old(posts)[c.postId].commentCount - 1, updatedAt := now)]
      ensures !ok ==> comments == old(comments) && posts == old(posts)
      ensures votes == old(votes)
      ensures old(Valid()) && id in old(comments) && old(comments)[id] == c ==> Valid()
    {
      if c.postId !in posts {
        return false;
      }
      var post := posts[c.postId];
      if Valid() && id in comments && comments[id] == c {
        DeleteCommentKeepsConsistent(posts, votes, comments, id, now);
      }
      comments := comments - {id};
      posts := posts[c.postId := post.(commentCount := post.commentCount - 1, updatedAt := now)];
      ok := true;
    }
  }

  /** A user is among the voters of `p` in direction `b` exactly when
      their record on `p` says `b`. */
  lemma VoterMember(votes: Votes, p: string, u: string, b: bool)
    ensures u in Voters(votes, p, b) <==> (p, u) in votes && votes[(p, u)] == b
  {
    if (p, u) in votes && votes[(p, u)] == b {
      assert (p, u).1 == u;
    }
  }

  /** How many voters of `p` in direction `b` a vote adds or removes: the
      vote's own direction gains the user unless the vote withdraws, and
      the recorded direction loses them unless it is kept. */
  lemma VoterCountAfter(votes: Votes, p: string, u: string, up: bool, b: bool)
    ensures var current := CurrentVote(votes, p, u);
            |Voters(VotesAfter(votes, p, u, up), p, b)|
              == |Voters(votes, p, b)|
                 + (if current != Some(up) && b == up then 1 else 0)
                 - (if current == Some(b) && (current == Some(up) || b != up) then 1 else 0)
  {
    var current := CurrentVote(votes, p, u);
    VoterMember(votes, p, u, b);
    if current == Some(up) {
      VotersAfterDelete(votes, p, u, p, b);
    } else {
      VotersAfterSet(votes, p, u, up, p, b);
    }
  }

  /** The vote's effect on the records and on the counters agree: counters
      that counted the post's records before the vote count them after
      it, and no other post's records change. */
  lemma VoteKeepsCounts(post: ForumPost, votes: Votes, p: string, u: string, up: bool)
    requires post.upvotes == |Voters(votes, p, true)| && post.downvotes == |Voters(votes, p, false)|
    ensures var after := VotesAfter(votes, p, u, up);
            var r := Tally(post, CurrentVote(votes, p, u), up);
            && r.upvotes == |Voters(after, p, true)| && r.downvotes == |Voters(after, p, false)|
            && forall q, b :: q != p ==> Voters(after, q, b) == Voters(votes, q, b)
  {
    forall q, b | q != p
      ensures Voters(VotesAfter(votes, p, u, up), q, b) == Voters(votes, q, b)
    {
      if CurrentVote(votes, p, u) == Some(up) {
        VotersAfterDelete(votes, p, u, q, b);
      } else {
        VotersAfterSet(votes, p, u, up, q, b);
      }
    }
    VoterCountAfter(votes, p, u, up, true);
    VoterCountAfter(votes, p, u, up, false);
  }

  /** Storing a comment under a fresh id adds it to its post's comments. */
  lemma CommentsAfterAdd(comments: map<string, Comment>, id: string, c: Comment)
    requires id !in comments
    ensures forall p :: CommentsOn(comments[id := c], p) ==
                          if p == c.postId then CommentsOn(comments, p) + {id} else CommentsOn(comments, p)
    ensures id !in CommentsOn(comments, c.postId)
  {
  }

  /** Deleting a stored comment takes it out of its post's comments. */
  lemma CommentsAfterDelete(comments: map<string, Comment>, id: string)
    requires id in comments
    ensures forall p :: CommentsOn(comments - {id}, p) ==
                          if p == comments[id].postId then CommentsOn(comments, p) - {id} else CommentsOn(comments, p)
    ensures id in CommentsOn(comments, comments[id].postId)
  {
  }

  /** Adding a comment to a stored post together with the counter
      increment keeps every counter in step. */
  lemma AddCommentKeepsConsistent(posts: map<string, ForumPost>, votes: Votes, comments: map<string, Comment>,
                                  id: string, c: Comment, now: int)
    requires Consistent(posts, votes, comments) && id !in comments && c.postId in posts
    ensures var post := posts[c.postId];
            Consistent(posts[c.postId := post.(commentCount := post.commentCount + 1, updatedAt := now)],
                       votes, comments[id := c])
  {
    CommentsAfterAdd(comments, id, c);
    var post := posts[c.postId];
    var posts', comments' := posts[c.postId := post.(commentCount := post.commentCount + 1, updatedAt := now)],
                             comments[id := c];
    forall q ensures CountsAt(posts', votes, comments', q) {
      assert CountsAt(posts, votes, comments, q);
    }
  }

  /** Deleting a stored comment together with the counter decrement of its
      post keeps every counter in step. */
  lemma DeleteCommentKeepsConsistent(posts: map<string, ForumPost>, votes: Votes, comments: map<string, Comment>,
                                     id: string, now: int)
    requires Consistent(posts, votes, comments) && id in comments && comments[id].postId in posts
    ensures var p := comments[id].postId;
            Consistent(posts[p := posts[p].(commentCount := posts[p].commentCount - 1, updatedAt := now)],
                       votes, comments - {id})
  {
    CommentsAfterDelete(comments, id);
    var p := comments[id].postId;
    var posts', comments' := posts[p := posts[p].(commentCount := posts[p].commentCount - 1, updatedAt := now)],
                             comments - {id};
    forall q ensures CountsAt(posts', votes, comments', q) {
      assert CountsAt(posts, votes, comments, q);
    }
  }
}
