/**
 * The `POST` handler of app/api/movies/add/route.js: the body is parsed inside a `try`, two required
 * fields are checked, and the store's insert is an argument. Anything thrown inside the `try`, including a
 * body that does not parse, is answered as an invalid body.
 */
module MoviesAddRoute {
  import opened Wrappers

  /** The request body's members the handler reads; `rest` stands for every other member, passed on as is. */
  datatype MovieRecord = MovieRecord(imdbID: Option<string>, title: Option<string>, rest: seq<(string, string)>)

  /**
   * What `req.json()` gives: no JSON at all, the JSON `null` (whose `.imdbID` throws), or a value whose
   * members are read (a primitive reads as a record with no members).
   */
  datatype RequestBody = Unparseable | JsonNull | Json(movie: MovieRecord)

  /** How the store's `insert([movie])` ends: a value, a returned error, or a thrown exception. */
  datatype InsertResult = Inserted(data: Option<string>) | StoreError(message: string) | InsertThrew

  datatype Body = MessageBody(message: string) | AddedBody(message: string, data: Option<string>)

  datatype Response = Response(status: int, body: Body)

  /** The response, and the record handed to the store, if the handler got that far. */
  datatype Handled = Handled(response: Response, inserted: Option<MovieRecord>)

  const MissingFields := Response(400, MessageBody("Missing required fields"))
  const InvalidBody := Response(400, MessageBody("Invalid request body"))

  /** `!value`: absent or empty. */
  predicate Falsy(value: Option<string>)
    ensures Falsy(value) <==> value.None? || |value.value| == 0
  {
    value.None? || value.value == ""
  }

  /**
   * `POST`: a body that does not parse (or is `null`) is 400 "Invalid request body"; a body without a
   * non-empty `imdbID` or `title` is 400 "Missing required fields" with nothing inserted; otherwise the
   * whole record is inserted as it is, and the answer is 500 with the store's message, 201 on success, or
   * the invalid-body 400 when the insert throws.
   */
  function Post(body: RequestBody, insert: InsertResult): (h: Handled)
    ensures h.inserted.Some? <==> body.Json? && !Falsy(body.movie.imdbID) && !Falsy(body.movie.title)
    ensures h.inserted.Some? ==> h.inserted.value == body.movie
    ensures !body.Json? ==> h.response == InvalidBody
    ensures body.Json? && (Falsy(body.movie.imdbID) || Falsy(body.movie.title)) ==> h.response == MissingFields
    ensures h.inserted.Some? && insert.StoreError? ==> h.response == Response(500, MessageBody(insert.message))
    ensures h.inserted.Some? && insert.InsertThrew? ==> h.response == InvalidBody
    ensures h.inserted.Some? && insert.Inserted? ==>
              h.response == Response(201, AddedBody("Movie added successfully", insert.data))
    ensures 200 <= h.response.status < 300 <==> h.inserted.Some? && insert.Inserted?
  {
    match body
    case Unparseable => Handled(InvalidBody, None)
    case JsonNull => Handled(InvalidBody, None)
    case Json(movie) =>
      if Falsy(movie.imdbID) || Falsy(movie.title) then Handled(MissingFields, None)
      else
        match insert
        case StoreError(message) => Handled(Response(500, MessageBody(message)), Some(movie))
        case InsertThrew => Handled(InvalidBody, Some(movie))
        case Inserted(data) => Handled(Response(201, AddedBody("Movie added successfully", data)), Some(movie))
  }
}
