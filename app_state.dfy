/**
 * The state cells `watched` and `session` of `App` (components/App.js) and the handlers that
 * update them. Every network or identity-service answer arrives as an argument.
 */
module AppState {
  import opened Wrappers
  import opened JsText
  import opened WatchList

  datatype User = User(id: string, email: string)

  datatype Session = Session(user: User)

  /** How the `POST /api/movies/add` call of `handleAddWatched` ends. */
  datatype AddReply =
    | Accepted                  // `response.ok` and the body parsed
    | Refused(message: string)  // not ok: `throw new Error(data.message)`
    | Threw(message: string)    // `fetch` or `response.json()` threw

  /** How the mount-time `select("*")` on the watched table ends. */
  datatype WatchedListing =
    | Listed(rows: Option<seq<WatchedMovie>>)  // `data`, which may be null
    | ListingFailed(message: string)

  class App {
    var watched: seq<WatchedMovie>
    var session: Option<Session>
    var loading: bool

    /** The initial render: no session known yet, an empty list, the loader shown. */
    constructor ()
      ensures watched == [] && session == None && loading
    {
      watched := [];
      session := None;
      loading := true;
    }

    /**
     * `getSessionAndMovies`, run once at mount: the session is stored; only with a session is the list
     * loaded, replacing the list with the rows (an empty list for null rows) unless the query failed.
     */
    method Mount(current: Option<Session>, listing: WatchedListing)
      modifies this
      ensures session == current && !loading
      ensures watched == if current.Some? && listing.Listed? then listing.rows.GetOr([]) else old(watched)
    {
      session := current;
      if current.Some? {
        match listing
        case Listed(rows) => watched := rows.GetOr([]);
        case ListingFailed(_) =>
      }
      loading := false;
    }

    /**
     * `handleAddWatched` up to its `await`: a movie whose id EXACTLY equals a stored id is refused with no
     * request and no change; otherwise the request carries the movie with its id folded to lower case.
     */
    method RequestAddWatched(movie: WatchedMovie) returns (request: Option<WatchedMovie>)
      ensures request.None? <==> HasExactId(watched, movie.imdbID)
      ensures request.Some? ==> request.value == Normalized(movie)
    {
      if HasExactId(watched, movie.imdbID) {
        return None;
      }
      request := Some(Normalized(movie));
    }

    /**
     * `handleAddWatched` after its `await`: only an accepted reply appends, at the end and onto the list
     * as it is then (`prev => [...prev, movieToAdd]`); a refusal or a throw leaves every cell alone.
     */
    method ReceiveAddWatched(movieToAdd: WatchedMovie, reply: AddReply)
      modifies this
      ensures watched == if reply.Accepted? then old(watched) + [movieToAdd] else old(watched)
      ensures session == old(session) && loading == old(loading)
    {
      if reply.Accepted? {
        watched := watched + [movieToAdd];
      }
    }

    /**
     * `handleDeleteWatched`: the entries go before the request is sent, and no reply brings them back
     * (the reply only reaches the console). The request path carries the folded id.
     */
    method DeleteWatched(imdbID: string) returns (path: string)
      modifies this
      ensures watched == RemoveWatched(old(watched), imdbID)
      ensures path == "/api/movies/delete/" + ToLower(imdbID)
      ensures session == old(session) && loading == old(loading)
    {
      watched := RemoveWatched(watched, imdbID);
      path := "/api/movies/delete/" + ToLower(imdbID);
    }

    /** The `onAuthStateChange` listener: the new session is stored, and losing the session empties the list. */
    method AuthStateChange(next: Option<Session>)
      modifies this
      ensures session == next
      ensures watched == if next.None? then [] else old(watched)
      ensures loading == old(loading)
    {
      session := next;
      if next.None? {
        watched := [];
      }
    }

    /**
     * `handleLogout`: the sign-out request goes to the identity service and nothing here changes; the list is
     * emptied only when the resulting notification arrives through AuthStateChange.
     */
    method Logout()
      ensures watched == old(watched) && session == old(session) && loading == old(loading)
    {
    }
  }

  /** Adding a lower-case id twice: the second attempt is refused locally and the list keeps one entry. */
  method AddTwiceScenario(user: User, movie: WatchedMovie)
    requires IsLower(movie.imdbID)
  {
    var app := new App();
    app.Mount(Some(Session(user)), Listed(Some([])));
    var first := app.RequestAddWatched(movie);
    assert !HasExactId([], movie.imdbID);
    app.ReceiveAddWatched(first.value, Accepted);
    assert app.watched == [Normalized(movie)];
    var second := app.RequestAddWatched(movie);
    ExactTestCatchesLowerDuplicate(app.watched, movie);
    assert second.None? && |app.watched| == 1;
    app.AuthStateChange(None);
    assert app.watched == [];
  }

  /**
   * The duplicate test looks at the list at the click, the append at the list at the reply: two adds of
   * the same movie sent before either answer both pass, and both accepted replies append.
   */
  method AddsInFlightScenario(user: User, movie: WatchedMovie) returns (watched: seq<WatchedMovie>)
    ensures watched == [Normalized(movie), Normalized(movie)]
    ensures !NoCaseDuplicates(watched)
  {
    var app := new App();
    app.Mount(Some(Session(user)), Listed(Some([])));
    var first := app.RequestAddWatched(movie);
    var second := app.RequestAddWatched(movie);
    app.ReceiveAddWatched(first.value, Accepted);
    app.ReceiveAddWatched(second.value, Accepted);
    watched := app.watched;
    assert EqualsIgnoreCase(watched[0].imdbID, watched[1].imdbID);
  }

  /**
   * An add answered after sign-out appends to the emptied list, and since the list is loaded only at
   * mount, the next user to sign in sees that entry.
   */
  method ReplyAfterSignOutScenario(first: User, next: User, movie: WatchedMovie)
    returns (watched: seq<WatchedMovie>, session: Option<Session>)
    ensures session == Some(Session(next))
    ensures watched == [Normalized(movie)]
  {
    var app := new App();
    app.Mount(Some(Session(first)), Listed(Some([])));
    var request := app.RequestAddWatched(movie);
    app.AuthStateChange(None);
    app.ReceiveAddWatched(request.value, Accepted);
    app.AuthStateChange(Some(Session(next)));
    watched, session := app.watched, app.session;
  }
}
