/**
 * The client handlers of components/App.js joined to the route handlers they call: what reaches the
 * server, and how the server's answer decides the client's state.
 */
module Flows {
  import opened Wrappers
  import opened JsText
  import WatchList
  import AppState
  import CommentThread
  import MoviesAddRoute
  import CommentsAddRoute

  /**
   * `JSON.stringify(movieToAdd)` as the movies route reads it: the two required members and the other text
   * fields. The numeric members (imdbRating, runtime, userRating, countRatingDecisions) are also sent but
   * are not carried here, since the route only passes them on to the store.
   */
  function MovieJson(m: WatchList.WatchedMovie): (body: MoviesAddRoute.RequestBody)
    ensures body.Json? && body.movie.imdbID == Some(m.imdbID) && body.movie.title == Some(m.title)
  {
    MoviesAddRoute.Json(MoviesAddRoute.MovieRecord(Some(m.imdbID), Some(m.title), [("year", m.year), ("poster", m.poster)]))
  }

  /** How `handleAddWatched` reads the route's answer: a 2xx status is `response.ok`; otherwise it throws with the body's message. */
  function ClientAddReply(response: MoviesAddRoute.Response): (reply: AppState.AddReply)
    ensures reply.Accepted? <==> 200 <= response.status < 300
  {
    if 200 <= response.status < 300 then AppState.Accepted else AppState.Refused(response.body.message)
  }

  /** The client appends the movie exactly when the store took it; a record with an empty title (built from the view's initial `{}` details) is never added. */
  lemma AddAppendsIffStored(movie: WatchList.WatchedMovie, insert: MoviesAddRoute.InsertResult)
    ensures var h := MoviesAddRoute.Post(MovieJson(WatchList.Normalized(movie)), insert);
            ClientAddReply(h.response).Accepted? <==> movie.imdbID != "" && movie.title != "" && insert.Inserted?
    ensures movie.title == "" ==>
              !ClientAddReply(MoviesAddRoute.Post(MovieJson(WatchList.Normalized(movie)), insert).response).Accepted?
  {
    assert |ToLower(movie.imdbID)| == |movie.imdbID|;
  }

  /** The body `handleAddComment` posts, as the comments route reads it (the client sends no user id). */
  function CommentJson(request: CommentThread.CommentRequest): (payload: CommentsAddRoute.CommentPayload)
    ensures payload.content == Some(request.content) && payload.movieId == Some(request.movieId)
    ensures payload.userId.None?
  {
    CommentsAddRoute.CommentPayload(Some(request.movieId), Some(request.content), None)
  }

  /** The client and the route agree on blankness: whatever the client sends passes the route's content check, so a signed-in post reaches the store. */
  lemma ClientPostReachesStore(request: CommentThread.CommentRequest, userId: string, insert: CommentsAddRoute.InsertResult)
    requires !IsBlank(request.content)
    ensures CommentsAddRoute.Post(CommentJson(request), Some(userId), insert).inserted
            == Some(CommentsAddRoute.NewComment(Some(request.movieId), request.content, userId))
  {
  }

  /**
   * How `handleAddComment` reads the route's answer: `response.ok` (any 2xx) with a row posts that row;
   * any other status is refused with its error text.
   */
  function ClientPostReply(response: CommentsAddRoute.Response): (reply: CommentThread.PostReply)
    ensures reply.Posted? <==> 200 <= response.status < 300 && response.body.RowBody?
    ensures reply.Posted? ==> reply.row.id == response.body.row.id && reply.row.userId == response.body.row.userId
    ensures !(200 <= response.status < 300) && response.body.ErrorBody? ==> reply == CommentThread.Refused(Some(response.body.error))
  {
    if 200 <= response.status < 300 && response.body.RowBody? then
      var row := response.body.row;
      CommentThread.Posted(CommentThread.Comment(row.id, row.createdAt, row.content, row.userId))
    else if response.body.ErrorBody? then CommentThread.Refused(Some(response.body.error))
    else CommentThread.Refused(None)
  }

  /**
   * When the store echoes the author of the row it was given, a comment the user posts comes back under
   * the signed-in user's id (the route inserts that id, not the client's), so the thread offers its author
   * the delete button for it; an anonymous post is alerted with the route's message.
   */
  lemma PostedCommentDeletableByAuthor(request: CommentThread.CommentRequest, user: AppState.User, stored: CommentsAddRoute.StoredComment)
    requires !IsBlank(request.content)
    requires var h := CommentsAddRoute.Post(CommentJson(request), Some(user.id), CommentsAddRoute.Inserted(stored));
             h.inserted.Some? && stored.userId == h.inserted.value.userId
    ensures var reply := ClientPostReply(CommentsAddRoute.Post(CommentJson(request), Some(user.id), CommentsAddRoute.Inserted(stored)).response);
            reply.Posted? && CommentThread.ShowDeleteControl(Some(user), reply.row)
    ensures var reply := ClientPostReply(CommentsAddRoute.Post(CommentJson(request), None, CommentsAddRoute.Inserted(stored)).response);
            !reply.Posted? && CommentThread.FailureMessage(reply) == "You must be logged in to comment."
  {
  }

  /** A record built from the view's initial `{}` details has an empty title, so the route refuses it and the list does not grow. */
  lemma UnloadedDetailsNeverAdded(selectedId: string, userRating: nat, count: nat, insert: MoviesAddRoute.InsertResult)
    ensures var m := WatchList.NewWatchedMovie(selectedId, WatchList.NoDetail, userRating, count);
            !ClientAddReply(MoviesAddRoute.Post(MovieJson(WatchList.Normalized(m)), insert).response).Accepted?
  {
    var m := WatchList.NewWatchedMovie(selectedId, WatchList.NoDetail, userRating, count);
    WatchList.NoDetailRecord(selectedId, userRating, count);
    AddAppendsIffStored(m, insert);
  }
}
