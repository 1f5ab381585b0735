/**
 * The `POST` handler of app/api/comments/add/route.js: a chain of early returns from the signed-in
 * user and the request body to a status and a JSON body. The store's insert is an argument; the handler
 * reaches it only when both guards pass.
 */
module CommentsAddRoute {
  import opened Wrappers
  import opened JsText

  /** The request body's fields the handler reads; `userId` is whatever the client put there, if anything. */
  datatype CommentPayload = CommentPayload(movieId: Option<string>, content: Option<string>, userId: Option<string>)

  /** The row handed to the comments table. */
  datatype NewComment = NewComment(movieId: Option<string>, content: string, userId: string)

  /** The row the store gives back from `.select().single()`. */
  datatype StoredComment = StoredComment(id: string, createdAt: string, movieId: Option<string>, content: string, userId: string)

  datatype InsertResult = Inserted(row: StoredComment) | InsertFailed(details: string)

  datatype Body = ErrorBody(error: string) | RowBody(row: StoredComment)

  datatype Response = Response(status: int, body: Body)

  /** The response, and the row the handler asked the store to insert, if it got that far. */
  datatype Handled = Handled(response: Response, inserted: Option<NewComment>)

  const NotSignedIn := Response(401, ErrorBody("You must be logged in to comment."))
  const EmptyComment := Response(400, ErrorBody("Comment cannot be empty."))
  const InsertError := Response(500, ErrorBody("Failed to add comment."))

  /** `!content || content.trim() === ""` */
  predicate IsEmptyContent(content: Option<string>)
    ensures IsEmptyContent(content) <==>
              content.None? || forall i :: 0 <= i < |content.value| ==> IsJsWhitespace(content.value[i])
  {
    content.None? || IsBlank(content.value)
  }

  /**
   * `POST`: without a user the answer is 401 before the content is looked at; empty or blank content is
   * 400; the insert carries the signed-in user's id (never the client's), the movie id as sent and the content
   * untrimmed; a failed insert is 500 and a stored one is answered with exactly the stored row.
   */
  function Post(payload: CommentPayload, userId: Option<string>, insert: InsertResult): (h: Handled)
    ensures h.inserted.Some? <==> userId.Some? && !IsEmptyContent(payload.content)
    ensures h.inserted.Some? ==> h.inserted.value == NewComment(payload.movieId, payload.content.value, userId.value)
    ensures userId.None? ==> h.response == NotSignedIn
    ensures userId.Some? && IsEmptyContent(payload.content) ==> h.response == EmptyComment
    ensures h.inserted.Some? && insert.InsertFailed? ==> h.response == InsertError
    ensures h.inserted.Some? && insert.Inserted? ==> h.response == Response(200, RowBody(insert.row))
    ensures h.response.status == 200 <==> h.inserted.Some? && insert.Inserted?
  {
    if userId.None? then Handled(NotSignedIn, None)
    else if IsEmptyContent(payload.content) then Handled(EmptyComment, None)
    else
      var row := NewComment(payload.movieId, payload.content.value, userId.value);
      match insert
      case InsertFailed(_) => Handled(InsertError, Some(row))
      case Inserted(stored) => Handled(Response(200, RowBody(stored)), Some(row))
  }

  /** Whatever user id the client sends has no influence on the outcome. */
  lemma ClientUserIdIgnored(payload: CommentPayload, forged: Option<string>, userId: Option<string>, insert: InsertResult)
    ensures Post(payload.(userId := forged), userId, insert) == Post(payload, userId, insert)
  {
  }

  /** An anonymous request for an empty comment is told to sign in, not that the comment is empty. */
  lemma AuthCheckedFirst(payload: CommentPayload, insert: InsertResult)
    requires IsEmptyContent(payload.content)
    ensures Post(payload, None, insert).response.status == 401
  {
  }

  /**
   * Content that is not blank is stored exactly as sent, surrounding whitespace included: `" hi "` is
   * stored as `" hi "`, not as `"hi"`.
   */
  lemma ContentNotTrimmed(payload: CommentPayload, userId: string, insert: InsertResult)
    requires payload.content.Some? && !IsBlank(payload.content.value)
    ensures Post(payload, Some(userId), insert).inserted.Some?
    ensures Post(payload, Some(userId), insert).inserted.value.content == payload.content.value
  {
  }
}
