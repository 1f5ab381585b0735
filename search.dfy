/**
 * The search hook `useMovies` (components/useMovies.js) as a state machine. Its events are a query
 * change, the 500 ms debounce timer firing, a fetch settling, and the component going away. Each run of
 * the effect owns one timer and one AbortController; a run is named by its number, and the cleanup that
 * precedes the next run (or unmounting) aborts it.
 */
module MovieSearch {
  import opened Wrappers

  datatype MovieSummary = MovieSummary(imdbID: string, title: string, year: string, poster: string)

  /** The provider's JSON as the hook reads it: `Response`, `Error` and `Search`, each possibly absent. */
  datatype SearchBody = SearchBody(
    response: Option<string>,
    errorText: Option<string>,
    search: Option<seq<MovieSummary>>)

  /** How `fetch("/api/movies?q=...")` and `res.json()` end for a request that was not aborted. */
  datatype FetchOutcome =
    | HttpOk(body: SearchBody)
    | HttpNotOk
    | Rejected(message: string)  // the transport failed or the body was not JSON: the error's message

  /** Queries shorter than this are never sent. */
  const MinQueryLength := 3

  /** The message a non-OK status is reported with. */
  const NotOkMessage := "Something went wrong with fetching movies"

  /** What a search shows: the result list and the error text ("" for none). */
  datatype View = View(movies: seq<MovieSummary>, error: string)

  /**
   * The view after a fetch that was not aborted, given the list shown before it. A provider refusal
   * (`Response === "False"`) empties the list and shows the provider's reason (an absent reason shows
   * nothing); an answer shows its results, or none when `Search` is absent, and clears the error; a
   * non-OK status or a failure shows an error and keeps the list.
   */
  function SettledView(prior: seq<MovieSummary>, outcome: FetchOutcome): (v: View)
    ensures v.movies != prior ==> outcome.HttpOk?
    ensures outcome.HttpNotOk? ==> v == View(prior, NotOkMessage)
    ensures outcome.Rejected? ==> v == View(prior, outcome.message)
    ensures outcome.HttpOk? && outcome.body.response == Some("False") ==>
              v == View([], outcome.body.errorText.GetOr(""))
    ensures outcome.HttpOk? && outcome.body.response != Some("False") ==>
              v == View(outcome.body.search.GetOr([]), "")
  {
    match outcome
    case HttpNotOk => View(prior, NotOkMessage)
    case Rejected(message) => View(prior, message)
    case HttpOk(body) =>
      if body.response == Some("False") then View([], body.errorText.GetOr(""))
      else View(body.search.GetOr([]), "")
  }

  class SearchState {
    var movies: seq<MovieSummary>
    var isLoading: bool
    var error: string
    /** The query the current run of the effect was started for. */
    var query: string
    /** The number of the current run of the effect; only its controller has not been aborted. */
    var run: nat
    /** The current run's timer is set and has not fired. */
    var timerArmed: bool
    /** The runs whose fetch has started and not settled. */
    var inFlight: set<nat>
    var mounted: bool
    /** The query each run's fetch was sent with. */
    ghost var sent: map<nat, string>

    ghost predicate Valid()
      reads this
    {
      && (forall r :: r in sent ==> r <= run)
      && (forall r :: r in inFlight ==> r in sent)
      && (run in sent ==> sent[run] == query)
      && (timerArmed ==> mounted && |query| >= MinQueryLength && run !in sent)
    }

    /** The first run, at mount: a short query resets the (already empty) view, a long one sets the timer. */
    constructor (initialQuery: string)
      ensures Valid() && mounted && query == initialQuery && run == 0 && inFlight == {}
      ensures movies == [] && error == "" && !isLoading
      ensures timerArmed <==> |initialQuery| >= MinQueryLength
    {
      movies, isLoading, error := [], false, "";
      query, run, inFlight, mounted := initialQuery, 0, {}, true;
      sent := map[];
      timerArmed := |initialQuery| >= MinQueryLength;
    }

    /**
     * `setQuery`: an unchanged query does not re-run the effect. A changed one runs the cleanup (the timer
     * is cleared and the current request aborted) and then a new run: a short query empties the list and the
     * error with nothing scheduled, a long one sets a new timer and leaves the view alone.
     */
    method SetQuery(q: string)
      requires Valid() && mounted
      modifies this
      ensures Valid() && mounted && query == q
      ensures inFlight == old(inFlight) && isLoading == old(isLoading) && sent == old(sent)
      ensures q == old(query) ==>
                run == old(run) && timerArmed == old(timerArmed) && movies == old(movies) && error == old(error)
      ensures q != old(query) ==> run == old(run) + 1
      ensures q != old(query) && |q| < MinQueryLength ==> movies == [] && error == "" && !timerArmed
      ensures q != old(query) && |q| >= MinQueryLength ==> movies == old(movies) && error == old(error) && timerArmed
    {
      if q == query {
        return;
      }
      timerArmed := false;
      run := run + 1;
      query := q;
      if |q| < MinQueryLength {
        movies := [];
        error := "";
      } else {
        timerArmed := true;
      }
    }

    /**
     * The timer fires and `fetchMovies` starts: the loader shows, the error clears, the list stays, and the
     * query goes out unencoded in the URL.
     */
    method TimerFires() returns (url: string)
      requires Valid() && timerArmed
      modifies this
      ensures Valid() && !timerArmed && isLoading && error == "" && movies == old(movies)
      ensures inFlight == old(inFlight) + {run} && sent == old(sent)[run := query]
      ensures url == "/api/movies?q=" + query
      ensures query == old(query) && run == old(run) && mounted == old(mounted)
    {
      timerArmed := false;
      isLoading := true;
      error := "";
      inFlight := inFlight + {run};
      sent := sent[run := query];
      url := "/api/movies?q=" + query;
    }

    /**
     * The fetch of run `r` settles. After unmounting nothing changes. The fetch of an earlier run has been
     * aborted, so whatever the network did it ends in an AbortError: the error and the list stay and only the
     * loader goes. The current run's fetch applies its outcome and hides the loader. So only the current
     * query's answer is ever shown.
     */
    method FetchSettles(r: nat, outcome: FetchOutcome)
      requires Valid() && r in inFlight
      modifies this
      ensures Valid() && inFlight == old(inFlight) - {r} && sent == old(sent)
      ensures query == old(query) && run == old(run) && timerArmed == old(timerArmed) && mounted == old(mounted)
      ensures (movies != old(movies) || error != old(error)) ==> mounted && r == run && r in sent && sent[r] == query
      ensures !mounted ==> movies == old(movies) && error == old(error) && isLoading == old(isLoading)
      ensures mounted && r != run ==> movies == old(movies) && error == old(error) && !isLoading
      ensures mounted && r == run ==> View(movies, error) == SettledView(old(movies), outcome) && !isLoading
    {
      inFlight := inFlight - {r};
      if !mounted {
        return;
      }
      if r == run {
        var v := SettledView(movies, outcome);
        movies, error := v.movies, v.error;
      }
      isLoading := false;
    }

    /** The component goes away: the cleanup clears the timer and aborts the current request. */
    method Unmount()
      requires Valid() && mounted
      modifies this
      ensures Valid() && !mounted && !timerArmed
      ensures movies == old(movies) && error == old(error) && isLoading == old(isLoading)
      ensures query == old(query) && run == old(run) && inFlight == old(inFlight) && sent == old(sent)
    {
      mounted := false;
      timerArmed := false;
    }
  }

  /** A short query shows nothing with no request; a superseded answer never shows; the current one does. */
  method SearchScenario(found: seq<MovieSummary>, stale: seq<MovieSummary>)
  {
    var s := new SearchState("");
    s.SetQuery("in");
    assert s.movies == [] && !s.timerArmed;
    s.SetQuery("Incep");
    var first := s.TimerFires();
    var firstRun := s.run;
    s.SetQuery("Inception");
    var second := s.TimerFires();
    s.FetchSettles(firstRun, HttpOk(SearchBody(Some("True"), None, Some(stale))));
    assert s.movies == [] && s.isLoading == false;
    s.FetchSettles(s.run, HttpOk(SearchBody(Some("True"), None, Some(found))));
    assert s.movies == found && s.error == "" && !s.isLoading;
  }
}
