# Movies watch list: client state and add routes

A Dafny model of the client-side state of a movie watch-list web application and of two of its
server routes. The client keeps a user's watched list, the comment thread of the selected movie and the
results of a debounced movie search; the routes validate a new comment and a new watched movie before
handing them to the hosted database.

Every network, database or identity-service answer is an argument of the event that receives it
(an oracle value); nothing is fetched. An `async` handler that awaits and then updates state from the
state *at that time* (`prev => [...prev, x]`) is split into two events, the part before the `await`
and the part after it, so that other events may come between them.

- `JsText`: `trim` (with the ECMAScript whitespace set) and `toLowerCase` (ASCII letters).
- `Seqs`: `Array.prototype.filter` and `[...new Set(xs)]`, with their characterising contracts.
- `WatchList`: the watched record, the case-folding "is watched" test and rating lookup, the deletion
  filter, the record `handleAdd` builds, and lemmas about the case asymmetry between them.
- `AppState`: the `App` component's `watched` and `session` cells as a class with one method per handler.
- `CommentThread`: the selected id, the details, the comment thread, compose field, submitting flag,
  author map and rating counter of `MovieDetails` as a class, with the pure filters and the author map
  beside it. The view has no `key`, so choosing another movie while it is open keeps all its other cells.
- `MovieSearch`: the `useMovies` hook as a state machine over query changes, timer firings, fetch
  settlements and unmounting; each run of the effect is numbered, and the run number is its abort token.
- `CommentsAddRoute`, `MoviesAddRoute`: the two `POST` handlers as functions from their inputs to a
  status, a body and the row they asked the store to insert.
- `Flows`: the client handlers joined to the routes they call.

## Behaviour worth knowing

- Adding to the watched list is not optimistic. The entry is appended only after the server accepts it
  (`AppState.App.ReceiveAddWatched`).
- The duplicate test on add compares ids exactly, while the stored id is lower-cased. Against a list of
  lower-case ids, a movie whose id has an upper-case letter always passes the test, even when it is already
  there (`WatchList.ExactTestAdmitsCaseDuplicate`). The add button, which hides itself for a movie that is
  watched ignoring case, keeps such duplicates out (`WatchList.GuardedAddKeepsNoCaseDuplicates`) as long as
  no earlier add of the movie is still waiting for its reply. Both tests look at the list at the click and
  the append happens at the reply, so two adds in flight both pass and both append
  (`AppState.AddsInFlightScenario`).
- An add answered after sign-out appends to the emptied list. The list is loaded only at mount, so the
  next user to sign in sees that entry (`AppState.ReplyAfterSignOutScenario`).
- Deletion lower-cases only its argument, does not trim, and compares it with the stored id as stored. An
  entry loaded from the server with an upper-case id is shown as watched but is never deleted
  (`WatchList.RemoveWatchedMissesMixedCase`).
- On sign-out the session listener empties only the watched list. The comment state goes away because its
  view is no longer shown, not because a handler clears it.
- A non-OK search status keeps the old result list and shows an error. Of the failures, only a provider
  refusal (`Response: "False"`) empties the list.

## Model

| member | source | states |
|---|---|---|
| `JsText.TrimStart` | app/api/comments/add/route.js:22 | what is dropped is whitespace, and the rest is a suffix that starts with a non-blank |
| `JsText.TrimEnd` | app/api/comments/add/route.js:22 | what is dropped is whitespace, and the rest is a prefix that ends with a non-blank |
| `JsText.Trim` | app/api/comments/add/route.js:22 | `trim()` is empty exactly when every character is whitespace |
| `JsText.LowerChar` | components/App.js:35 | folding one character never yields an upper-case letter and changes only upper-case letters |
| `JsText.ToLower` | components/App.js:35 | `toLowerCase()` keeps the length, folds each character and leaves no upper-case letter |
| `JsText.ToLowerOfLower` | components/App.js:35 | folding a string with no upper-case letter changes nothing |
| `JsText.ToLowerIdempotent` | components/App.js:305-307 | folding twice is folding once |
| `JsText.LowerMatchesIgnoringCase` | components/App.js:54 | a lower-case stored id equals the folded argument exactly when the two are equal ignoring case |
| `Seqs.Filter` | components/App.js:54 | `filter` keeps each passing element as often as it occurred and removes every failing one |
| `Seqs.FilterConcat` | components/App.js:369 | `filter` works piecewise over a concatenation, so survivors keep their order |
| `Seqs.Distinct` | components/App.js:413 | `[...new Set(xs)]` has no repeats and holds exactly the elements of `xs` |
| `WatchList.Normalized` | components/App.js:35 | the record sent and stored has the folded id and every other field copied |
| `WatchList.FoldedIds` | components/App.js:305-306 | the mapped list holds each entry's folded id, in order |
| `WatchList.IsWatched` | components/App.js:305-307 | a movie is watched exactly when some entry's id equals it ignoring case |
| `WatchList.FindWatched` | components/App.js:308-310 | `find` stops at the first entry that matches ignoring case, and finds none exactly when the movie is not watched |
| `WatchList.WatchedUserRating` | components/App.js:308-310 | the shown rating is the first matching entry's, and is absent exactly when the movie is not watched |
| `WatchList.AddControlPassesDuplicateTest` | components/App.js:469-480 | whenever the add button shows, the exact duplicate test of the add handler passes |
| `WatchList.RemoveWatched` | components/App.js:53-55 | deletion removes exactly the entries whose stored id equals the folded argument, keeping the others with their counts |
| `WatchList.RemoveWatchedConcat` | components/App.js:53-55 | deletion keeps the survivors in their original order |
| `WatchList.RemoveWatchedOfLowerIds` | components/App.js:53-55 | with lower-case stored ids, deletion removes exactly the entries equal ignoring case, and the movie is then not watched |
| `WatchList.RemoveWatchedMissesMixedCase` | components/App.js:54 | an entry with an upper-case stored id is watched under its own id but survives deletion by that id |
| `WatchList.RemoveKeepsIdsLower` | components/App.js:53-55 | deletion keeps all stored ids lower case when they all were |
| `WatchList.AppendKeepsIdsLower` | components/App.js:45 | appending the normalised record keeps all stored ids lower case |
| `WatchList.GuardedAddKeepsNoCaseDuplicates` | components/App.js:26-45 | adding a movie that is not watched keeps the list free of duplicates ignoring case |
| `WatchList.ExactTestAdmitsCaseDuplicate` | components/App.js:26-35 | a mixed-case id passes the exact duplicate test against lower-case ids, and re-adding it creates a duplicate ignoring case |
| `WatchList.ExactTestCatchesLowerDuplicate` | components/App.js:26-33 | a lower-case id added before is caught by the duplicate test |
| `WatchList.FirstToken` | components/App.js:326 | `split(" ").at(0)` is the prefix before the first space and holds no space |
| `WatchList.RuntimeMinutesOfProviderText` | components/App.js:326-333 | a runtime of "N min" gives N and "N/A" gives 0 |
| `WatchList.AddControlRecordIsWatched` | components/App.js:325-336 | whenever the add button shows, the record it builds passes the exact duplicate test, and once appended the movie is watched ignoring case with the rating just given |
| `WatchList.NewWatchedMovie` | components/App.js:326-336 | the record carries the selected id as it is, the details' text fields, the rating and the rating-change count, with `runtime` the first token's number or 0; `AddControlRecordIsWatched` and `NoDetailRecord` state what it means for the list |
| `WatchList.NoDetailRecord` | components/App.js:312-336 | a record built from the view's initial `{}` details state has an empty title and a runtime of 0 |
| `AppState.App.constructor` | components/App.js:18-22 | the first render has an empty list, no session and the loader |
| `AppState.App.Mount` | components/App.js:83-105 | the session is stored; with a session a listing replaces the list (null rows give an empty list), a failed one keeps it |
| `AppState.App.RequestAddWatched` | components/App.js:25-40 | an exact duplicate sends nothing and changes nothing; otherwise the request carries the normalised record |
| `AppState.App.ReceiveAddWatched` | components/App.js:42-48 | only an accepted reply appends, at the end of the list as it is then; a refusal or a throw changes nothing |
| `AppState.App.DeleteWatched` | components/App.js:51-64 | the entries are removed before the request and never restored; the path carries the folded id |
| `AppState.App.AuthStateChange` | components/App.js:109-119 | the new session is stored; losing the session empties the list, a session leaves it alone |
| `AppState.App.Logout` | components/App.js:67-72 | signing out changes none of the client's cells |
| `AppState.AddsInFlightScenario` | components/App.js:25-45 | two adds of one movie sent before either reply both pass the duplicate test, and both accepted replies append, leaving a case duplicate |
| `AppState.ReplyAfterSignOutScenario` | components/App.js:25-45 | an add answered after sign-out lands in the emptied list and is still there when the next user signs in |
| `CommentThread.RemoveComment` | components/App.js:369 | deletion removes exactly the comments with that id, keeping the others with their counts |
| `CommentThread.RemoveCommentConcat` | components/App.js:369 | deletion keeps the rest of the thread in order |
| `CommentThread.UserIds` | components/App.js:413 | the mapped list holds each comment's author id, in order |
| `CommentThread.AuthorIds` | components/App.js:413 | the lookup asks for each author of the thread exactly once, and for none when the thread is empty |
| `CommentThread.AuthorsMap` | components/App.js:423-426 | the map's keys are the answer's ids, each mapped to the email of its last row |
| `CommentThread.AuthorLabel` | components/App.js:514 | a comment shows its author's non-empty email when known and "..." otherwise |
| `CommentThread.AuthorLabelAfterLookup` | components/App.js:413-427 | after a lookup an author with no row shows "...", and one with a non-empty email shows that email |
| `CommentThread.FailureMessage` | components/App.js:355-362 | a failed post is reported with the route's error text, "Failed to post comment." when there is none, or the thrown message |
| `CommentThread.MovieDetails.constructor` | components/App.js:294-303 | the view opens on the selected movie with the `{}` details, an empty thread, map and compose field, no submission and no rating |
| `CommentThread.MovieDetails.SelectMovie` | components/App.js:74-76 | choosing another movie while the view is open replaces only the selected id; the details, rating, counter, draft, thread and author map carry over |
| `CommentThread.MovieDetails.LoadDetails` | components/App.js:380-389 | fetched details replace the ones shown and nothing else changes |
| `CommentThread.MovieDetails.Add` | components/App.js:325-338 | the record handed to `onAddWatched` is built from the selected id, the details, the rating and the counter as they are at the click |
| `CommentThread.SwitchKeepsRatingScenario` | components/App.js:294-303 | after rating one movie 8 and switching to another, the add builds the second movie's record with rating 8 and one rating decision |
| `CommentThread.SwitchCarriesPostScenario` | components/App.js:341-358 | a post sent under the first movie whose reply lands after the second movie's thread loaded goes in front of the second thread |
| `CommentThread.MovieDetails.LoadComments` | components/App.js:392-405 | a thread result replaces the thread (null rows give an empty one); a failure keeps it |
| `CommentThread.MovieDetails.EditComment` | components/App.js:500 | typing replaces the compose field and nothing else |
| `CommentThread.MovieDetails.BeginAddComment` | components/App.js:341-353 | a blank field sends nothing and changes nothing; otherwise the flag goes up and the untrimmed text is posted under the folded movie id |
| `CommentThread.MovieDetails.FinishAddComment` | components/App.js:354-365 | a stored row goes first and the field clears; a failure alerts and keeps both; the flag is down after either |
| `CommentThread.MovieDetails.DeleteComment` | components/App.js:368-373 | the comment leaves the thread at once and the answer is ignored |
| `CommentThread.MovieDetails.FetchAuthors` | components/App.js:407-431 | an empty thread empties the map with no lookup; otherwise one lookup for the distinct authors, whose rows replace the map unless it failed |
| `CommentThread.MovieDetails.SetUserRating` | components/App.js:377-379 | the counter grows by one exactly when the rating changes to a set value |
| `MovieSearch.SettledView` | components/useMovies.js:20-36 | a refusal empties the list and shows the provider's reason; an answer shows its results or none and clears the error; a non-OK status or failure shows an error and keeps the list |
| `MovieSearch.SearchState.constructor` | components/useMovies.js:4-8 | the hook starts with no results, no error, no loader, and a timer only for a long query |
| `MovieSearch.SearchState.SetQuery` | components/useMovies.js:42-56 | a changed query aborts the current run; a short one empties results and error with nothing scheduled, a long one only sets a new timer |
| `MovieSearch.SearchState.TimerFires` | components/useMovies.js:11-18 | a fetch starts only when the timer fires, shows the loader, clears the error and sends the query unencoded |
| `MovieSearch.SearchState.FetchSettles` | components/useMovies.js:20-39 | only the current run's answer changes results or error; an aborted fetch only hides the loader; every settled fetch hides it |
| `MovieSearch.SearchState.Unmount` | components/useMovies.js:52-55 | teardown clears the timer and aborts the request without touching the view |
| `CommentsAddRoute.Post` | app/api/comments/add/route.js:7-47 | 401 without a user before the content is checked; 400 for empty content; the insert uses the signed-in id with movie id and content as sent; 500 on failure; the stored row on success |
| `CommentsAddRoute.ClientUserIdIgnored` | app/api/comments/add/route.js:29-35 | a user id sent by the client has no influence on the outcome |
| `CommentsAddRoute.AuthCheckedFirst` | app/api/comments/add/route.js:15-27 | an anonymous empty comment gets 401, not 400 |
| `CommentsAddRoute.ContentNotTrimmed` | app/api/comments/add/route.js:29-35 | any non-blank content from a signed-in user is inserted exactly as sent, surrounding whitespace included |
| `MoviesAddRoute.Post` | app/api/movies/add/route.js:5-35 | an unparseable or null body is 400 "Invalid request body"; a missing imdbID or title is 400 with no insert; the record is inserted as sent; 500 with the store's message, or 201 |
| `Flows.MovieJson` | components/App.js:36-40 | the posted JSON carries the record's id and title as the route's required members |
| `Flows.ClientAddReply` | components/App.js:42-43 | the client accepts exactly a 2xx status |
| `Flows.AddAppendsIffStored` | components/App.js:34-45 | the client appends exactly when the store took the movie, never for an empty title |
| `Flows.CommentJson` | components/App.js:346-353 | the posted JSON carries the folded movie id and the text, and no user id |
| `Flows.ClientPostReachesStore` | app/api/comments/add/route.js:22-35 | whatever the client posts passes the route's content check, so a signed-in post reaches the store |
| `Flows.ClientPostReply` | components/App.js:354-358 | the client takes any 2xx answer with a row as posted, with that row's id and author; a non-2xx answer is refused with the route's error text |
| `Flows.PostedCommentDeletableByAuthor` | components/App.js:516 | when the store echoes the inserted author, a posted comment comes back deletable by the signed-in user who posted it; an anonymous post is alerted with the sign-in message |
| `Flows.UnloadedDetailsNeverAdded` | components/App.js:312-336 | a record built from the view's initial `{}` details state is refused by the movies route, so the watched list does not grow |
| `JsText.BlankIffAllWhitespace` | components/App.js:343 | a text is blank, as `!newComment.trim()` tests, exactly when every character is whitespace |
| `WatchList.HasExactId` | components/App.js:26-28 | an exact id match is also a match ignoring case |
| `WatchList.ShowAddControl` | components/App.js:469-480 | the add button shows only for a movie with no watched rating |
| `WatchList.RuntimeMinutes` | components/App.js:326-333 | a runtime whose first token is empty or starts with a non-digit gives 0 |
| `CommentThread.ShowDeleteControl` | components/App.js:516 | `user && user.id === comment.user_id`, which no anonymous visitor meets; `Flows.PostedCommentDeletableByAuthor` states what it means for a posted comment |
| `CommentsAddRoute.IsEmptyContent` | app/api/comments/add/route.js:22 | content is empty exactly when it is missing or all whitespace |
| `MoviesAddRoute.Falsy` | app/api/movies/add/route.js:11 | `!value` for an optional string: missing or the empty string; `MoviesAddRoute.Post` states the 400 with no insert it guards |

## Left out

- Rendering: JSX markup, the loader and error components, `useKey` focus and Escape handling, `document.title`, and the star-rating widget (only its chosen value enters the model).
- The details request itself and its loader flag in `getMovieDetails`: the answer arrives as the argument of `LoadDetails`, and a details answer for a movie no longer selected is not told apart. Closing the view is modelled by dropping the object; choosing a movie again builds a new one with the constructor.
- Floating point: `average`, the watched summary and `Number(imdbRating)`; the rating is carried as an optional real that the model never computes with.
- `WatchList.RuntimeMinutes`: gives 0 for every first token that is not plain digits, while `Number` also accepts signs, decimals, exponents, hex and surrounding whitespace.
- `JsText.ToLower`: folds only the ASCII letters A to Z; the Unicode case mappings of `toLowerCase` are not modelled (IMDb ids are ASCII).
- `MovieSearch.SearchState.SetQuery`: compares query length in Unicode scalar values, while JavaScript counts UTF-16 code units, so astral characters count once here and twice there.
- Time: the 500 ms delay is the `TimerFires` event; event order is free, so the model allows an aborted fetch to settle after a newer fetch starts, which real timing makes unlikely.
- `MovieSearch.SettledView`: an absent provider `Error` shows as the empty error, because `undefined` and `""` are both falsy to the view.
- The disabled form while a post is pending: like the handler, the model does not refuse a second post that begins while one is outstanding, and the flag goes down at the first reply; only the disabled textarea and button, which are not modelled, prevent the second post.
- Interleaving of the author lookup with later thread changes: the lookup's answer is applied in the same event that asks for it.
- Console logging and `alert` for a duplicate add: they change no state.
- A body that does not parse on the comments route: `request.json()` runs before any guard and outside a `try`, so the framework's error response applies, which is not part of this model. So are non-string `content`, `imdbID` and `title` values.
- The delete routes, the list, insert and search forwarding routes, the authentication form and the layout. Each route has at most one guard and otherwise forwards to the store or the provider: both delete routes answer 401 "Unauthorized" without a signed-in user, and the search route answers 400 with `Response: "False"` and `Error: "Missing query"` for an empty `q`. The client ignores the delete replies, and the search hook never sends a query shorter than three characters.
- Server-side ownership checks on delete: they live in the database's row-level policies, which are not part of this model.
- `Flows.ClientPostReply`: a 2xx answer whose body is not a row is taken as refused, while the client would put that body in front of the thread as a comment; the route never sends such an answer.
- `Flows.MovieJson`: carries only the text members; the numeric members of the posted record (imdbRating, runtime, userRating, countRatingDecisions) are passed to the store unchecked and are not modelled.
- `AppState.App.Mount`: the session and the watched list arrive in one event, while `getSessionAndMovies` awaits twice (App.js:87, 91); a sign-out between the two awaits, after which the source would still fill the list, is not modelled.
- `CommentThread.MovieDetails.FetchAuthors`: nothing forces a lookup after each change of `comments`, as the source's effect on `[comments]` does (App.js:431); the lookup is a separate event a caller may or may not take.
