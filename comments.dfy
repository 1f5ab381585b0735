/**
 * The state of `MovieDetails` (components/App.js): the selected id, the fetched details, the comment
 * list, the compose field, the submitting flag, the author map, the rating and the rating counter kept in
 * `countRef`.
 */
module CommentThread {
  import opened Wrappers
  import opened JsText
  import Seqs
  import AppState
  import WatchList

  /** A row of the comments table as the client selects it: `id, created_at, content, user_id`. */
  datatype Comment = Comment(id: string, createdAt: string, content: string, userId: string)

  /** A row of the `get_emails_for_user_ids` answer. */
  datatype AuthorRow = AuthorRow(id: string, email: string)

  /** The body `handleAddComment` posts to `/api/comments/add`. */
  datatype CommentRequest = CommentRequest(movieId: string, content: string)

  /** How the thread query of `fetchComments` ends. */
  datatype CommentListing =
    | Listed(rows: Option<seq<Comment>>)  // `data`, which may be null
    | ListingFailed(message: string)

  /** How the post of `handleAddComment` ends. */
  datatype PostReply =
    | Posted(row: Comment)              // `response.ok`: the body is the stored row
    | Refused(error: Option<string>)    // not ok: the body's `error`, when it has one
    | Threw(message: string)            // `fetch` or `response.json()` threw

  /** How the author lookup `supabase.rpc("get_emails_for_user_ids")` ends. */
  datatype AuthorLookup =
    | Found(rows: seq<AuthorRow>)
    | LookupFailed(message: string)

  /** The label shown when an author's email is not known. */
  const Placeholder := "..."

  // ---------------------------------------------------------------------------------------------
  // Pure parts

  /** `comments.filter(c => c.id !== commentId)`: exactly the comments with that id are gone. */
  function RemoveComment(comments: seq<Comment>, commentId: string): (r: seq<Comment>)
    ensures |r| <= |comments|
    ensures forall c :: multiset(r)[c] == if c.id == commentId then 0 else multiset(comments)[c]
  {
    Seqs.Filter(comments, (c: Comment) => c.id != commentId)
  }

  /** Deleting a comment keeps the rest of the thread in its order. */
  lemma RemoveCommentConcat(a: seq<Comment>, b: seq<Comment>, commentId: string)
    ensures RemoveComment(a + b, commentId) == RemoveComment(a, commentId) + RemoveComment(b, commentId)
  {
    Seqs.FilterConcat(a, b, (c: Comment) => c.id != commentId);
  }

  /** `comments.map(c => c.user_id)` */
  function UserIds(comments: seq<Comment>): (ids: seq<string>)
    ensures |ids| == |comments|
    ensures forall i :: 0 <= i < |comments| ==> ids[i] == comments[i].userId
  {
    if comments == [] then [] else [comments[0].userId] + UserIds(comments[1..])
  }

  /** `[...new Set(comments.map(c => c.user_id))]`: every author of the thread, each once. */
  function AuthorIds(comments: seq<Comment>): (ids: seq<string>)
    ensures Seqs.NoDuplicates(ids)
    ensures forall u :: u in ids <==> exists i :: 0 <= i < |comments| && comments[i].userId == u
    ensures comments == [] <==> ids == []
  {
    var all := UserIds(comments);
    assert comments != [] ==> all[0] in all;
    Seqs.Distinct(all)
  }

  /**
   * `authorsData.reduce((acc, a) => { acc[a.id] = a.email; return acc }, {})`: the keys are the ids of the
   * rows, and each id maps to the email of its LAST row.
   */
  function AuthorsMap(rows: seq<AuthorRow>): (m: map<string, string>)
    ensures m.Keys == set i | 0 <= i < |rows| :: rows[i].id
    ensures forall i :: (0 <= i < |rows| && (forall j :: i < j < |rows| ==> rows[j].id != rows[i].id)) ==>
                          m[rows[i].id] == rows[i].email
  {
    if rows == [] then map[]
    else
      var last := rows[|rows| - 1];
      var front := rows[..|rows| - 1];
      assert forall i :: 0 <= i < |front| ==> front[i] == rows[i];
      AuthorsMap(front)[last.id := last.email]
  }

  /** `authors[comment.user_id] || "..."`: the email when it is known and non-empty, the placeholder otherwise. */
  function AuthorLabel(authors: map<string, string>, userId: string): (shown: string)
    ensures shown != ""
    ensures shown != Placeholder ==> userId in authors && authors[userId] == shown
    ensures userId in authors && authors[userId] != "" ==> shown == authors[userId]
  {
    if userId in authors && authors[userId] != "" then authors[userId] else Placeholder
  }

  /** With the lookup's rows in the map, an author whose (last) row has a non-empty email is shown by that email, and an author with no row shows the placeholder. */
  lemma AuthorLabelAfterLookup(rows: seq<AuthorRow>, userId: string)
    ensures (forall i :: 0 <= i < |rows| ==> rows[i].id != userId) ==> AuthorLabel(AuthorsMap(rows), userId) == Placeholder
    ensures forall i :: (0 <= i < |rows| && rows[i].id == userId && rows[i].email != ""
      && (forall j :: i < j < |rows| ==> rows[j].id != userId)) ==> AuthorLabel(AuthorsMap(rows), userId) == rows[i].email
  {
  }

  /** `user && user.id === comment.user_id`: the delete button is offered only to the comment's author. */
  predicate ShowDeleteControl(user: Option<AppState.User>, comment: Comment)
    ensures ShowDeleteControl(user, comment) ==> user.Some? && user.value.id == comment.userId
    ensures user.None? ==> !ShowDeleteControl(user, comment)
  {
    user.Some? && user.value.id == comment.userId
  }

  /** Why a post failed, as `handleAddComment` alerts it (`result.error || "Failed to post comment."`). */
  function FailureMessage(reply: PostReply): (message: string)
    requires !reply.Posted?
    ensures reply.Refused? && reply.error.Some? && reply.error.value != "" ==> message == reply.error.value
    ensures reply.Refused? && (reply.error.None? || reply.error.value == "") ==> message == "Failed to post comment."
    ensures reply.Threw? ==> message == reply.message
  {
    match reply
    case Refused(Some(e)) => if e != "" then e else "Failed to post comment."
    case Refused(None) => "Failed to post comment."
    case Threw(m) => m
  }

  // ---------------------------------------------------------------------------------------------
  // The details view's state cells

  /**
   * The view is rendered without a `key`, so choosing another movie while it is open keeps every cell
   * below and only replaces `selectedId`; closing it and choosing again builds a fresh one.
   */
  class MovieDetails {
    var selectedId: string
    /** The details as last fetched; `{}` (every default applied) until the first fetch ends. */
    var movie: WatchList.MovieDetail
    var comments: seq<Comment>
    var authors: map<string, string>
    var newComment: string
    var isSubmitting: bool
    /** The star rating; 0 stands for the initial `""`, which is falsy like 0. */
    var userRating: nat
    /** `countRef.current`: how many times a new rating was chosen. */
    var countRatingDecisions: nat

    /** The view opened on a movie, before any effect has run. */
    constructor (selectedId: string)
      ensures this.selectedId == selectedId && movie == WatchList.NoDetail
      ensures comments == [] && authors == map[] && newComment == "" && !isSubmitting
      ensures userRating == 0 && countRatingDecisions == 0
    {
      this.selectedId := selectedId;
      movie := WatchList.NoDetail;
      comments := [];
      authors := map[];
      newComment := "";
      isSubmitting := false;
      userRating := 0;
      countRatingDecisions := 0;
    }

    /** `handleSelectMovie` while the view is open: only the selected id changes; nothing is reset. */
    method SelectMovie(id: string)
      modifies this
      ensures selectedId == id && movie == old(movie)
      ensures comments == old(comments) && authors == old(authors) && newComment == old(newComment)
      ensures isSubmitting == old(isSubmitting)
      ensures userRating == old(userRating) && countRatingDecisions == old(countRatingDecisions)
    {
      selectedId := id;
    }

    /** `getMovieDetails` after its `await`: the fetched details replace the ones shown. */
    method LoadDetails(detail: WatchList.MovieDetail)
      modifies this
      ensures movie == detail && selectedId == old(selectedId)
      ensures comments == old(comments) && authors == old(authors) && newComment == old(newComment)
      ensures isSubmitting == old(isSubmitting)
      ensures userRating == old(userRating) && countRatingDecisions == old(countRatingDecisions)
    {
      movie := detail;
    }

    /**
     * `handleAdd`: the record handed to `onAddWatched`, built from the cells as they are now; the view
     * then closes, which the caller models by dropping it.
     */
    method Add() returns (m: WatchList.WatchedMovie)
      ensures m == WatchList.NewWatchedMovie(selectedId, movie, userRating, countRatingDecisions)
    {
      m := WatchList.NewWatchedMovie(selectedId, movie, userRating, countRatingDecisions);
    }

    /** `fetchComments`: a result replaces the thread (null rows give an empty thread); a failure keeps it. */
    method LoadComments(listing: CommentListing)
      modifies this
      ensures selectedId == old(selectedId) && movie == old(movie)
      ensures comments == if listing.Listed? then listing.rows.GetOr([]) else old(comments)
      ensures authors == old(authors) && newComment == old(newComment) && isSubmitting == old(isSubmitting)
      ensures userRating == old(userRating) && countRatingDecisions == old(countRatingDecisions)
    {
      if listing.Listed? {
        comments := listing.rows.GetOr([]);
      }
    }

    /** The textarea's `onChange`. */
    method EditComment(text: string)
      modifies this
      ensures selectedId == old(selectedId) && movie == old(movie)
      ensures newComment == text
      ensures comments == old(comments) && authors == old(authors) && isSubmitting == old(isSubmitting)
      ensures userRating == old(userRating) && countRatingDecisions == old(countRatingDecisions)
    {
      newComment := text;
    }

    /**
     * `handleAddComment` up to its `await`: a blank compose field sends nothing and changes nothing;
     * otherwise the flag goes up and the untrimmed text is posted under the folded movie id.
     */
    method BeginAddComment() returns (request: Option<CommentRequest>)
      modifies this
      ensures selectedId == old(selectedId) && movie == old(movie)
      ensures request.None? <==> IsBlank(newComment)
      ensures request.Some? ==> request.value == CommentRequest(ToLower(selectedId), newComment)
      ensures isSubmitting == if request.Some? then true else old(isSubmitting)
      ensures comments == old(comments) && authors == old(authors) && newComment == old(newComment)
      ensures userRating == old(userRating) && countRatingDecisions == old(countRatingDecisions)
    {
      var text := newComment;
      var blank := IsBlank(text);
      if blank {
        return None;
      }
      var movieId := ToLower(selectedId);
      isSubmitting := true;
      request := Some(CommentRequest(movieId, text));
    }

    /**
     * `handleAddComment` after its `await`: a stored row is put in front of the thread as it is then and the
     * compose field is cleared; a failure alerts and keeps both; the flag is down either way.
     */
    method FinishAddComment(reply: PostReply) returns (alert: Option<string>)
      modifies this
      ensures selectedId == old(selectedId) && movie == old(movie)
      ensures !isSubmitting
      ensures reply.Posted? ==> comments == [reply.row] + old(comments) && newComment == "" && alert.None?
      ensures !reply.Posted? ==> comments == old(comments) && newComment == old(newComment)
      ensures !reply.Posted? ==> alert == Some("Error: " + FailureMessage(reply))
      ensures authors == old(authors)
      ensures userRating == old(userRating) && countRatingDecisions == old(countRatingDecisions)
    {
      if reply.Posted? {
        comments := [reply.row] + comments;
        newComment := "";
        alert := None;
      } else {
        alert := Some("Error: " + FailureMessage(reply));
      }
      isSubmitting := false;
    }

    /** `handleDeleteComment`: the comment leaves the thread at once; the request's answer is not looked at. */
    method DeleteComment(commentId: string) returns (path: string)
      modifies this
      ensures selectedId == old(selectedId) && movie == old(movie)
      ensures comments == RemoveComment(old(comments), commentId)
      ensures path == "/api/comments/delete/" + commentId
      ensures authors == old(authors) && newComment == old(newComment) && isSubmitting == old(isSubmitting)
      ensures userRating == old(userRating) && countRatingDecisions == old(countRatingDecisions)
    {
      comments := RemoveComment(comments, commentId);
      path := "/api/comments/delete/" + commentId;
    }

    /**
     * `fetchAuthors`, run whenever the thread changes: an empty thread empties the map with no lookup;
     * otherwise one lookup asks for the distinct author ids, and its rows replace the map unless it failed.
     */
    method FetchAuthors(lookup: AuthorLookup) returns (requested: Option<seq<string>>)
      modifies this
      ensures selectedId == old(selectedId) && movie == old(movie)
      ensures requested.None? <==> comments == []
      ensures requested.Some? ==> requested.value == AuthorIds(comments)
      ensures authors == if comments == [] then map[]
                         else if lookup.Found? then AuthorsMap(lookup.rows) else old(authors)
      ensures comments == old(comments) && newComment == old(newComment) && isSubmitting == old(isSubmitting)
      ensures userRating == old(userRating) && countRatingDecisions == old(countRatingDecisions)
    {
      if |comments| == 0 {
        authors := map[];
        return None;
      }
      requested := Some(AuthorIds(comments));
      if lookup.Found? {
        authors := AuthorsMap(lookup.rows);
      }
    }

    /**
     * `onSetRating` followed by the `[userRating]` effect: the effect runs only when the value changes,
     * and counts the change only when the new rating is set (non-zero).
     */
    method SetUserRating(rating: nat)
      modifies this
      ensures selectedId == old(selectedId) && movie == old(movie)
      ensures userRating == rating
      ensures countRatingDecisions == old(countRatingDecisions) + if rating != old(userRating) && rating != 0 then 1 else 0
      ensures comments == old(comments) && authors == old(authors)
      ensures newComment == old(newComment) && isSubmitting == old(isSubmitting)
    {
      if rating != userRating {
        userRating := rating;
        if rating != 0 {
          countRatingDecisions := countRatingDecisions + 1;
        }
      }
    }
  }

  /** A blank post sends nothing; a post that is stored shows first and is deletable by its author. */
  method PostScenario(user: AppState.User, movieId: string, stored: Comment)
    requires stored.userId == user.id
  {
    var view := new MovieDetails(movieId);
    view.EditComment(" \n\t");
    var none := view.BeginAddComment();
    assert IsBlank(" \n\t");
    assert none.None? && view.comments == [];
    view.EditComment("Great movie");
    assert !IsJsWhitespace('G');
    var sent := view.BeginAddComment();
    assert sent.Some? && sent.value.content == "Great movie";
    var alert := view.FinishAddComment(Posted(stored));
    assert view.comments == [stored] && view.newComment == "" && !view.isSubmitting;
    assert ShowDeleteControl(Some(user), view.comments[0]);
  }

  /**
   * Choosing another movie while the view is open keeps the rating and its counter, so once the new
   * movie's details arrive a single click adds it with the old movie's rating.
   */
  method SwitchKeepsRatingScenario(first: string, second: string, detail: WatchList.MovieDetail)
    returns (m: WatchList.WatchedMovie)
    ensures m.imdbID == second && m.title == detail.title
    ensures m.userRating == 8 && m.countRatingDecisions == 1
  {
    var view := new MovieDetails(first);
    view.SetUserRating(8);
    view.SelectMovie(second);
    view.LoadDetails(detail);
    m := view.Add();
  }

  /**
   * A post sent from one movie's view whose reply arrives after another movie's thread has loaded is put
   * in front of that other thread.
   */
  method SwitchCarriesPostScenario(first: string, second: string, stored: Comment, secondThread: seq<Comment>)
    returns (thread: seq<Comment>, sentUnder: string)
    ensures sentUnder == ToLower(first)
    ensures thread == [stored] + secondThread
  {
    var view := new MovieDetails(first);
    view.EditComment("Great movie");
    assert !IsJsWhitespace('G');
    var sent := view.BeginAddComment();
    sentUnder := sent.value.movieId;
    view.SelectMovie(second);
    view.LoadComments(Listed(Some(secondThread)));
    var alert := view.FinishAddComment(Posted(stored));
    thread := view.comments;
  }
}
