/**
 * The pure part of the watch list kept by `App` (components/App.js): the record a user adds,
 * the case-folding "is watched" test and rating lookup, and the filter used by deletion.
 */
module WatchList {
  import opened Wrappers
  import opened JsText
  import Seqs

  /** A watch-list record as the client builds it in `handleAdd` and keeps it in `watched`. */
  datatype WatchedMovie = WatchedMovie(
    imdbID: string,
    title: string,
    year: string,
    poster: string,
    imdbRating: Option<real>,  // None stands for NaN, what `Number("N/A")` gives
    runtime: nat,
    userRating: nat,
    countRatingDecisions: nat)

  /** The fields of the selected movie's details that `handleAdd` reads, after their defaults. */
  datatype MovieDetail = MovieDetail(
    title: string,
    year: string,
    poster: string,
    runtime: string,
    imdbRating: Option<real>)

  /** What the details view holds before the details have arrived: `{}` with every default applied. */
  const NoDetail := MovieDetail("", "", "", "N/A", None)

  // ---------------------------------------------------------------------------------------------
  // Ids

  /** `watched.some(m => m.imdbID === id)`: the duplicate test of `handleAddWatched` (exact, case-sensitive). */
  predicate HasExactId(watched: seq<WatchedMovie>, id: string)
    ensures HasExactId(watched, id) ==> IsWatched(watched, id)
  {
    exists i :: 0 <= i < |watched| && watched[i].imdbID == id
  }

  /** `{ ...movie, imdbID: movie.imdbID.toLowerCase() }`: the record `handleAddWatched` sends and stores. */
  function Normalized(movie: WatchedMovie): (m: WatchedMovie)
    ensures m.imdbID == ToLower(movie.imdbID) && IsLower(m.imdbID)
    ensures m.(imdbID := movie.imdbID) == movie
  {
    movie.(imdbID := ToLower(movie.imdbID))
  }

  /** Every stored id is lower case: true of what the add handler appends, not of what the server returns. */
  predicate AllIdsLower(watched: seq<WatchedMovie>) {
    forall i :: 0 <= i < |watched| ==> IsLower(watched[i].imdbID)
  }

  /** No two entries name the same movie once case is folded. */
  predicate NoCaseDuplicates(watched: seq<WatchedMovie>) {
    forall i, j :: 0 <= i < j < |watched| ==> !EqualsIgnoreCase(watched[i].imdbID, watched[j].imdbID)
  }

  // ---------------------------------------------------------------------------------------------
  // isWatched and watchedUserRating (both fold case on both sides)

  /** `watched.map(m => m.imdbID.toLowerCase())` */
  function FoldedIds(watched: seq<WatchedMovie>): (ids: seq<string>)
    ensures |ids| == |watched|
    ensures forall i :: 0 <= i < |watched| ==> ids[i] == ToLower(watched[i].imdbID)
  {
    if watched == [] then [] else [ToLower(watched[0].imdbID)] + FoldedIds(watched[1..])
  }

  /** `isWatched`: some entry's id equals `selectedId` once both are folded. */
  function IsWatched(watched: seq<WatchedMovie>, selectedId: string): (b: bool)
    ensures b <==> exists i :: 0 <= i < |watched| && EqualsIgnoreCase(watched[i].imdbID, selectedId)
  {
    ToLower(selectedId) in FoldedIds(watched)
  }

  /** The index `watched.find(m => fold(m.imdbID) === fold(selectedId))` stops at: the first match. */
  function FindWatched(watched: seq<WatchedMovie>, selectedId: string): (r: Option<nat>)
    ensures r.Some? ==> r.value < |watched| && EqualsIgnoreCase(watched[r.value].imdbID, selectedId)
    ensures r.Some? ==> forall j :: 0 <= j < r.value ==> !EqualsIgnoreCase(watched[j].imdbID, selectedId)
    ensures r.None? <==> !IsWatched(watched, selectedId)
  {
    if watched == [] then None
    else if EqualsIgnoreCase(watched[0].imdbID, selectedId) then Some(0)
    else
      match FindWatched(watched[1..], selectedId)
      case None => None
      case Some(k) => Some(k + 1)
  }

  /** `watchedUserRating`: the rating of the first entry that matches, absent exactly when not watched. */
  function WatchedUserRating(watched: seq<WatchedMovie>, selectedId: string): (r: Option<nat>)
    ensures r.Some? <==> IsWatched(watched, selectedId)
    ensures r.Some? ==> exists i :: (0 <= i < |watched| && watched[i].userRating == r.value
      && EqualsIgnoreCase(watched[i].imdbID, selectedId)
      && forall j :: 0 <= j < i ==> !EqualsIgnoreCase(watched[j].imdbID, selectedId))
  {
    match FindWatched(watched, selectedId)
    case None => None
    case Some(i) => Some(watched[i].userRating)
  }

  /** The "+ Add to list" button: shown only for a movie not yet watched that has been given a rating. */
  predicate ShowAddControl(watched: seq<WatchedMovie>, selectedId: string, userRating: nat)
    ensures ShowAddControl(watched, selectedId, userRating) ==> WatchedUserRating(watched, selectedId).None?
  {
    !IsWatched(watched, selectedId) && userRating > 0
  }

  /** An exact id match is also a match ignoring case, so whenever the add button shows, the exact duplicate test passes. */
  lemma AddControlPassesDuplicateTest(watched: seq<WatchedMovie>, selectedId: string, userRating: nat)
    requires ShowAddControl(watched, selectedId, userRating)
    ensures !HasExactId(watched, selectedId)
  {
  }

  // ---------------------------------------------------------------------------------------------
  // Deletion (compares the STORED id as it is against the folded argument)

  /** `watched.filter(m => m.imdbID !== imdbID.toLowerCase())`: every entry whose stored id is not the folded argument survives, as often as it occurred. */
  function RemoveWatched(watched: seq<WatchedMovie>, imdbID: string): (r: seq<WatchedMovie>)
    ensures |r| <= |watched|
    ensures forall m :: multiset(r)[m] == if m.imdbID == ToLower(imdbID) then 0 else multiset(watched)[m]
  {
    Seqs.Filter(watched, (m: WatchedMovie) => m.imdbID != ToLower(imdbID))
  }

  /** Deletion works piecewise, so the survivors stay in their original order. */
  lemma RemoveWatchedConcat(a: seq<WatchedMovie>, b: seq<WatchedMovie>, imdbID: string)
    ensures RemoveWatched(a + b, imdbID) == RemoveWatched(a, imdbID) + RemoveWatched(b, imdbID)
  {
    Seqs.FilterConcat(a, b, (m: WatchedMovie) => m.imdbID != ToLower(imdbID));
  }

  /** When every stored id is lower case, deletion removes exactly the entries that match ignoring case, so the movie is no longer watched. */
  lemma RemoveWatchedOfLowerIds(watched: seq<WatchedMovie>, imdbID: string)
    requires AllIdsLower(watched)
    ensures forall m :: m in watched ==> (m in RemoveWatched(watched, imdbID) <==> !EqualsIgnoreCase(m.imdbID, imdbID))
    ensures !IsWatched(RemoveWatched(watched, imdbID), imdbID)
  {
    var r := RemoveWatched(watched, imdbID);
    forall m | m in watched
      ensures m in r <==> !EqualsIgnoreCase(m.imdbID, imdbID)
    {
      var i :| 0 <= i < |watched| && watched[i] == m;
      LowerMatchesIgnoringCase(m.imdbID, imdbID);
    }
    forall i | 0 <= i < |r|
      ensures !EqualsIgnoreCase(r[i].imdbID, imdbID)
    {
      assert r[i] in multiset(r);
    }
  }

  /** An entry whose stored id has an upper-case letter counts as watched under its own id, but deleting by that id leaves it in place. */
  lemma RemoveWatchedMissesMixedCase(watched: seq<WatchedMovie>, m: WatchedMovie)
    requires m in watched && !IsLower(m.imdbID)
    ensures IsWatched(watched, m.imdbID)
    ensures m in RemoveWatched(watched, m.imdbID)
  {
    var i :| 0 <= i < |watched| && watched[i] == m;
    assert EqualsIgnoreCase(watched[i].imdbID, m.imdbID);
    assert m.imdbID != ToLower(m.imdbID);
    assert m in multiset(watched);
  }

  /** Deletion keeps every stored id lower case when they all were. */
  lemma RemoveKeepsIdsLower(watched: seq<WatchedMovie>, imdbID: string)
    requires AllIdsLower(watched)
    ensures AllIdsLower(RemoveWatched(watched, imdbID))
  {
    var r := RemoveWatched(watched, imdbID);
    forall i | 0 <= i < |r|
      ensures IsLower(r[i].imdbID)
    {
      assert r[i] in multiset(r);
      var j :| 0 <= j < |watched| && watched[j] == r[i];
    }
  }

  // ---------------------------------------------------------------------------------------------
  // Adding

  /** Appending the record the add handler stores keeps every stored id lower case. */
  lemma AppendKeepsIdsLower(watched: seq<WatchedMovie>, movie: WatchedMovie)
    requires AllIdsLower(watched)
    ensures AllIdsLower(watched + [Normalized(movie)])
  {
  }

  /** Adding through the button (the movie is not watched ignoring case) keeps the list free of duplicates ignoring case. */
  lemma GuardedAddKeepsNoCaseDuplicates(watched: seq<WatchedMovie>, movie: WatchedMovie)
    requires NoCaseDuplicates(watched)
    requires !IsWatched(watched, movie.imdbID)
    ensures NoCaseDuplicates(watched + [Normalized(movie)])
  {
    var w := watched + [Normalized(movie)];
    ToLowerIdempotent(movie.imdbID);
    forall i, j | 0 <= i < j < |w|
      ensures !EqualsIgnoreCase(w[i].imdbID, w[j].imdbID)
    {
      if j == |watched| {
        assert !EqualsIgnoreCase(watched[i].imdbID, movie.imdbID);
      }
    }
  }

  /**
   * The duplicate test is exact while the stored id is folded: against a list of lower-case ids a movie
   * whose id has an upper-case letter always passes it, even when that movie was added before.
   */
  lemma ExactTestAdmitsCaseDuplicate(watched: seq<WatchedMovie>, movie: WatchedMovie)
    requires AllIdsLower(watched) && !IsLower(movie.imdbID)
    ensures !HasExactId(watched, movie.imdbID)
    ensures Normalized(movie) in watched ==> !NoCaseDuplicates(watched + [Normalized(movie)])
  {
    if Normalized(movie) in watched {
      var i :| 0 <= i < |watched| && watched[i] == Normalized(movie);
      var w := watched + [Normalized(movie)];
      assert w[i] == w[|watched|];
    }
  }

  /** A lower-case id that was added before is caught by the duplicate test. */
  lemma ExactTestCatchesLowerDuplicate(watched: seq<WatchedMovie>, movie: WatchedMovie)
    requires IsLower(movie.imdbID) && Normalized(movie) in watched
    ensures HasExactId(watched, movie.imdbID)
  {
    ToLowerOfLower(movie.imdbID);
    var i :| 0 <= i < |watched| && watched[i] == Normalized(movie);
  }

  // ---------------------------------------------------------------------------------------------
  // handleAdd: the record built from the details view

  predicate IsDigit(c: char) {
    '0' as int <= c as int <= '9' as int
  }

  /** `s.split(" ").at(0)`: everything before the first space. */
  function FirstToken(s: string): (t: string)
    ensures t <= s && ' ' !in t
    ensures |t| < |s| ==> s[|t|] == ' '
  {
    if s == [] || s[0] == ' ' then [] else [s[0]] + FirstToken(s[1..])
  }

  /** The value of a string of decimal digits (the empty string is 0, as `Number("")` is). */
  function DecimalValue(digits: string): (n: nat)
    requires forall i :: 0 <= i < |digits| ==> IsDigit(digits[i])
  {
    if digits == [] then 0
    else
      assert IsDigit(digits[|digits| - 1]);
      10 * DecimalValue(digits[..|digits| - 1]) + (digits[|digits| - 1] as int - '0' as int)
  }

  /**
   * `Number(runtime.split(" ").at(0))`, with NaN replaced by 0: a first token of digits gives its value,
   * any other token gives 0.
   */
  function RuntimeMinutes(runtime: string): (n: nat)
    ensures runtime == [] || runtime[0] == ' ' ==> n == 0
    ensures runtime != [] && runtime[0] != ' ' && !IsDigit(runtime[0]) ==> n == 0
  {
    var t := FirstToken(runtime);
    if forall i :: 0 <= i < |t| ==> IsDigit(t[i]) then DecimalValue(t) else 0
  }

  /** The provider's "142 min" form gives 142 and its "N/A" gives 0. */
  lemma RuntimeMinutesOfProviderText(digits: string)
    requires forall i :: 0 <= i < |digits| ==> IsDigit(digits[i])
    ensures RuntimeMinutes(digits + " min") == DecimalValue(digits)
    ensures RuntimeMinutes("N/A") == 0
  {
    var s := digits + " min";
    var t := FirstToken(s);
    assert t <= s && |t| >= |digits|;
    assert s[|digits|] == ' ';
    assert t == digits;
    assert FirstToken("N/A") == "N/A";
  }

  /** `handleAdd`: the record carries the selected id as it is, the details' fields, the rating and the rating-change count. */
  function NewWatchedMovie(selectedId: string, detail: MovieDetail, userRating: nat, count: nat): (m: WatchedMovie)
    ensures m.imdbID == selectedId && m.title == detail.title && m.year == detail.year && m.poster == detail.poster
    ensures m.imdbRating == detail.imdbRating && m.userRating == userRating && m.countRatingDecisions == count
    ensures m.runtime == RuntimeMinutes(detail.runtime)
  {
    WatchedMovie(selectedId, detail.title, detail.year, detail.poster, detail.imdbRating,
                 RuntimeMinutes(detail.runtime), userRating, count)
  }

  /**
   * The record the add button builds passes the duplicate test, and once the accepted reply appends it the
   * movie is watched with the rating just given.
   */
  lemma AddControlRecordIsWatched(watched: seq<WatchedMovie>, selectedId: string, detail: MovieDetail,
                                 userRating: nat, count: nat)
    requires ShowAddControl(watched, selectedId, userRating)
    ensures var m := NewWatchedMovie(selectedId, detail, userRating, count);
            && !HasExactId(watched, m.imdbID)
            && IsWatched(watched + [Normalized(m)], selectedId)
            && WatchedUserRating(watched + [Normalized(m)], selectedId) == Some(userRating)
  {
    var m := NewWatchedMovie(selectedId, detail, userRating, count);
    var w := watched + [Normalized(m)];
    ToLowerIdempotent(selectedId);
    assert EqualsIgnoreCase(w[|watched|].imdbID, selectedId);
    forall j | 0 <= j < |watched|
      ensures !EqualsIgnoreCase(w[j].imdbID, selectedId)
    {
      assert w[j] == watched[j];
    }
  }

  /** A record built from the view's initial `{}` details has an empty title and a runtime of 0. */
  lemma NoDetailRecord(selectedId: string, userRating: nat, count: nat)
    ensures NewWatchedMovie(selectedId, NoDetail, userRating, count).title == ""
    ensures NewWatchedMovie(selectedId, NoDetail, userRating, count).runtime == 0
  {
    RuntimeMinutesOfProviderText("");
  }
}
