/**
 * The activities hook: a paged fetch that keeps only activities with path
 * geometry, colours them and appends them to the route list; the list of
 * years with their check boxes, merged from the routes' years; and the
 * visible subset of routes whose year is checked.
 *
 * The activity feed is a parameter `feed` from requested page to response;
 * `random` gives the successive `Math.random()` draws of one fetch;
 * `yearOf` stands for the local-time year of a `start_date`.
 */
module StravaActivities {
  import opened Wrappers
  import opened StravaTypes
  import opened Sequences

  datatype YearEntry = YearEntry(year: int, checked: bool)

  /** What the feed request gave: a thrown error, or a response with its status and parsed body. */
  datatype FeedResponse =
    | FeedThrown(message: string)
    | FeedReceived(ok: bool, status: int, activities: seq<Activity>)

  // ---------------------------------------------------------------- filtering and colouring

  /** The fetched activities that are kept: those with path geometry. */
  function Retained(activities: seq<Activity>): (kept: seq<Activity>)
    ensures |kept| <= |activities|
    ensures forall a :: a in kept <==> a in activities && HasGeometry(a)
  {
    FilterMembershipAll(HasGeometry, activities);
    Filter(HasGeometry, activities)
  }

  /** The kept activities are exactly those with geometry, every occurrence of them, in fetch order. */
  lemma RetainedSpec(activities: seq<Activity>)
    ensures forall i :: 0 <= i < |Retained(activities)| ==> HasGeometry(Retained(activities)[i])
    ensures IsSubsequence(Retained(activities), activities)
    ensures forall a ::
              multiset(Retained(activities))[a] == if HasGeometry(a) then multiset(activities)[a] else 0
  {
    FilterIsSubsequence(HasGeometry, activities);
    forall a ensures multiset(Retained(activities))[a] == if HasGeometry(a) then multiset(activities)[a] else 0 {
      FilterCount(HasGeometry, activities, a);
    }
  }

  /** `Math.floor(draw * n)` for a draw of `Math.random()`: always an index into a palette of `n` colours. */
  function PaletteIndex(draw: real, n: nat): (k: nat)
    requires 0.0 <= draw < 1.0 && n > 0
    ensures k < n
  {
    assert 0.0 <= draw * (n as real) < n as real;
    (draw * (n as real)).Floor
  }

  /** `COLORS[Math.floor(draw * COLORS.length)]`. */
  function DrawColor(draw: real, palette: seq<string>): (c: string)
    requires 0.0 <= draw < 1.0 && |palette| > 0
    ensures c in palette
  {
    palette[PaletteIndex(draw, |palette|)]
  }

  /** Gives each route a colour picked by its draw; `random(i)` is the draw for the `i`-th route. */
  function ColorRoutes(routes: seq<Activity>, random: nat -> real, palette: seq<string>): (r: seq<Activity>)
    requires |palette| > 0
    requires forall i: nat :: 0.0 <= random(i) < 1.0
    ensures |r| == |routes|
    ensures forall i :: 0 <= i < |r| ==> r[i] == routes[i].(color := r[i].color) && r[i].color in palette
  {
    var r := seq(|routes|, i requires 0 <= i < |routes| => routes[i].(color := DrawColor(random(i), palette)));
    assert forall i :: 0 <= i < |r| ==> r[i] == routes[i].(color := DrawColor(random(i), palette));
    r
  }

  /** The routes one fetch appends: the coloured kept activities of a successful response, nothing otherwise. */
  function Arrived(response: FeedResponse, random: nat -> real, palette: seq<string>): (r: seq<Activity>)
    requires |palette| > 0
    requires forall i: nat :: 0.0 <= random(i) < 1.0
    ensures !(response.FeedReceived? && response.ok) ==> r == []
    ensures forall i :: 0 <= i < |r| ==> HasGeometry(r[i]) && r[i].color in palette
    ensures response.FeedReceived? && response.ok ==>
      |r| == |Retained(response.activities)| &&
      forall i :: 0 <= i < |r| ==> r[i].(color := "") == Retained(response.activities)[i].(color := "")
  {
    if response.FeedReceived? && response.ok then
      RetainedSpec(response.activities);
      ColorRoutes(Retained(response.activities), random, palette)
    else []
  }

  // ---------------------------------------------------------------- years

  function YearsOf(entries: seq<YearEntry>): seq<int> {
    seq(|entries|, i requires 0 <= i < |entries| => entries[i].year)
  }

  /** The year of each route's `start_date`, in route order. */
  function RouteYears(routes: seq<Activity>, yearOf: string -> int): seq<int> {
    seq(|routes|, i requires 0 <= i < |routes| => yearOf(routes[i].start_date))
  }

  function NotListed(existing: seq<int>): int -> bool {
    y => y !in existing
  }

  /** The years merge: the route years not yet listed, once each in first-seen order, appended checked. */
  function MergeYears(prev: seq<YearEntry>, routeYears: seq<int>): (merged: seq<YearEntry>)
    ensures |prev| <= |merged| && merged[..|prev|] == prev
    ensures forall i :: |prev| <= i < |merged| ==>
      merged[i].checked && merged[i].year in routeYears && merged[i].year !in YearsOf(prev)
  {
    DedupSpec(routeYears);
    FilterMembershipAll(NotListed(YearsOf(prev)), Dedup(routeYears));
    var toAdd := Filter(NotListed(YearsOf(prev)), Dedup(routeYears));
    prev + seq(|toAdd|, i requires 0 <= i < |toAdd| => YearEntry(toAdd[i], true))
  }

  /**
   * Existing entries stay, flags included, as a prefix; what follows are
   * exactly the route years not listed before, each once and checked.
   */
  lemma MergeYearsAppendsNewYears(prev: seq<YearEntry>, routeYears: seq<int>)
    ensures |MergeYears(prev, routeYears)| >= |prev|
    ensures MergeYears(prev, routeYears)[..|prev|] == prev
    ensures var added := MergeYears(prev, routeYears)[|prev|..];
      && (forall i :: 0 <= i < |added| ==> added[i].checked)
      && NoDup(YearsOf(added))
      && (forall y :: y in YearsOf(added) <==> y in routeYears && y !in YearsOf(prev))
  {
    var toAdd := Filter(NotListed(YearsOf(prev)), Dedup(routeYears));
    var added := MergeYears(prev, routeYears)[|prev|..];
    DedupSpec(routeYears);
    assert YearsOf(added) == toAdd;
    forall y ensures y in toAdd <==> y in routeYears && y !in YearsOf(prev) {
      FilterMembership(NotListed(YearsOf(prev)), Dedup(routeYears), y);
    }
    FilterKeepsNoDup(NotListed(YearsOf(prev)), Dedup(routeYears));
  }

  /** Years listed once stay listed once after the merge. */
  lemma MergeYearsKeepsYearsDistinct(prev: seq<YearEntry>, routeYears: seq<int>)
    requires NoDup(YearsOf(prev))
    ensures NoDup(YearsOf(MergeYears(prev, routeYears)))
  {
    var r := MergeYears(prev, routeYears);
    MergeYearsAppendsNewYears(prev, routeYears);
    var added := r[|prev|..];
    assert r == prev + added;
    forall i, j | 0 <= i < j < |r| ensures YearsOf(r)[i] != YearsOf(r)[j] {
      if j < |prev| {
        assert YearsOf(prev)[i] != YearsOf(prev)[j];
      } else if i >= |prev| {
        assert YearsOf(added)[i - |prev|] != YearsOf(added)[j - |prev|];
      } else {
        assert YearsOf(added)[j - |prev|] in YearsOf(added);
        assert YearsOf(prev)[i] in YearsOf(prev);
      }
    }
  }

  /** After the merge every route year has an entry. */
  lemma MergeYearsCoversRouteYears(prev: seq<YearEntry>, routeYears: seq<int>)
    ensures forall y :: y in routeYears ==> y in YearsOf(MergeYears(prev, routeYears))
  {
    var r := MergeYears(prev, routeYears);
    MergeYearsAppendsNewYears(prev, routeYears);
    forall y | y in routeYears ensures y in YearsOf(r) {
      if y in YearsOf(prev) {
        var i :| 0 <= i < |prev| && YearsOf(prev)[i] == y;
        assert YearsOf(r)[i] == y;
      } else {
        var added := r[|prev|..];
        var k :| 0 <= k < |added| && YearsOf(added)[k] == y;
        assert YearsOf(r)[|prev| + k] == y;
      }
    }
  }

  /** Running the merge again on the same routes changes nothing. */
  lemma MergeYearsIdempotent(prev: seq<YearEntry>, routeYears: seq<int>)
    ensures MergeYears(MergeYears(prev, routeYears), routeYears) == MergeYears(prev, routeYears)
  {
    var r := MergeYears(prev, routeYears);
    MergeYearsCoversRouteYears(prev, routeYears);
    DedupSpec(routeYears);
    var toAdd := Filter(NotListed(YearsOf(r)), Dedup(routeYears));
    if toAdd != [] {
      FilterMembership(NotListed(YearsOf(r)), Dedup(routeYears), toAdd[0]);
      assert false;
    }
  }

  // ---------------------------------------------------------------- toggling a year

  function Flip(e: YearEntry, year: int): YearEntry {
    if e.year == year then e.(checked := !e.checked) else e
  }

  /** Flips the check box of the entries for `year`; every other entry and the order stay as they were. */
  function ToggleYear(entries: seq<YearEntry>, year: int): (r: seq<YearEntry>)
    ensures |r| == |entries|
    ensures forall i :: 0 <= i < |r| ==>
      r[i].year == entries[i].year &&
      r[i].checked == (if entries[i].year == year then !entries[i].checked else entries[i].checked)
  {
    if entries == [] then [] else [Flip(entries[0], year)] + ToggleYear(entries[1..], year)
  }

  lemma {:induction false} ToggleYearInvolution(entries: seq<YearEntry>, year: int)
    ensures ToggleYear(ToggleYear(entries, year), year) == entries
  {
    if entries != [] {
      var once := ToggleYear(entries, year);
      assert once[1..] == ToggleYear(entries[1..], year);
      ToggleYearInvolution(entries[1..], year);
    }
  }

  /** Toggles of two years give the same list in either order. */
  lemma {:induction false} ToggleYearsCommute(entries: seq<YearEntry>, a: int, b: int)
    ensures ToggleYear(ToggleYear(entries, a), b) == ToggleYear(ToggleYear(entries, b), a)
  {
    if entries != [] {
      assert ToggleYear(entries, a)[1..] == ToggleYear(entries[1..], a);
      assert ToggleYear(entries, b)[1..] == ToggleYear(entries[1..], b);
      ToggleYearsCommute(entries[1..], a, b);
    }
  }

  // ---------------------------------------------------------------- the visible subset

  /** Some entry for `year` is checked. */
  predicate IsChecked(entries: seq<YearEntry>, year: int) {
    exists i :: 0 <= i < |entries| && entries[i].year == year && entries[i].checked
  }

  /** The years of the checked entries. */
  function SelectedYears(entries: seq<YearEntry>): seq<int> {
    YearsOf(Filter((e: YearEntry) => e.checked, entries))
  }

  function ShownIn(selected: seq<int>, yearOf: string -> int): Activity -> bool {
    (r: Activity) => yearOf(r.start_date) in selected
  }

  /** The routes whose year is among the checked years, in route order. */
  function DisplayedRoutes(routes: seq<Activity>, entries: seq<YearEntry>, yearOf: string -> int): (shown: seq<Activity>)
    ensures |shown| <= |routes|
    ensures forall a :: a in shown <==> a in routes && IsChecked(entries, yearOf(a.start_date))
  {
    SelectedYearsAll(entries);
    FilterMembershipAll(ShownIn(SelectedYears(entries), yearOf), routes);
    Filter(ShownIn(SelectedYears(entries), yearOf), routes)
  }

  lemma SelectedYearsSpec(entries: seq<YearEntry>, year: int)
    ensures year in SelectedYears(entries) <==> IsChecked(entries, year)
  {
    var checked := Filter((e: YearEntry) => e.checked, entries);
    if year in SelectedYears(entries) {
      var k :| 0 <= k < |checked| && checked[k].year == year;
      FilterMembership((e: YearEntry) => e.checked, entries, checked[k]);
    }
    if IsChecked(entries, year) {
      var i :| 0 <= i < |entries| && entries[i].year == year && entries[i].checked;
      FilterMembership((e: YearEntry) => e.checked, entries, entries[i]);
      var k :| 0 <= k < |checked| && checked[k] == entries[i];
      assert SelectedYears(entries)[k] == year;
    }
  }

  lemma SelectedYearsAll(entries: seq<YearEntry>)
    ensures forall year :: year in SelectedYears(entries) <==> IsChecked(entries, year)
  {
    forall year ensures year in SelectedYears(entries) <==> IsChecked(entries, year) {
      SelectedYearsSpec(entries, year);
    }
  }

  /**
   * The visible subset is the routes whose year has a checked entry, every
   * occurrence of them, in route order.
   */
  lemma DisplayedRoutesSpec(routes: seq<Activity>, entries: seq<YearEntry>, yearOf: string -> int)
    ensures IsSubsequence(DisplayedRoutes(routes, entries, yearOf), routes)
    ensures forall r :: r in DisplayedRoutes(routes, entries, yearOf) <==>
      r in routes && IsChecked(entries, yearOf(r.start_date))
    ensures forall r ::
              multiset(DisplayedRoutes(routes, entries, yearOf))[r] ==
              if IsChecked(entries, yearOf(r.start_date)) then multiset(routes)[r] else 0
  {
    var p := ShownIn(SelectedYears(entries), yearOf);
    FilterIsSubsequence(p, routes);
    forall r ensures multiset(DisplayedRoutes(routes, entries, yearOf))[r] ==
      if IsChecked(entries, yearOf(r.start_date)) then multiset(routes)[r] else 0
    {
      FilterCount(p, routes, r);
      SelectedYearsSpec(entries, yearOf(r.start_date));
    }
    forall r ensures r in DisplayedRoutes(routes, entries, yearOf) <==>
      r in routes && IsChecked(entries, yearOf(r.start_date))
    {
      FilterMembership(p, routes, r);
      SelectedYearsSpec(entries, yearOf(r.start_date));
    }
  }

  /** Appending a page appends its visible part: earlier visible routes keep their order. */
  lemma DisplayedRoutesAppend(routes: seq<Activity>, more: seq<Activity>, entries: seq<YearEntry>, yearOf: string -> int)
    ensures DisplayedRoutes(routes + more, entries, yearOf) ==
      DisplayedRoutes(routes, entries, yearOf) + DisplayedRoutes(more, entries, yearOf)
  {
    FilterAppend(ShownIn(SelectedYears(entries), yearOf), routes, more);
  }

  /**
   * With one entry per year, toggling a listed year flips whether that
   * year is shown and leaves every other year as it was.
   */
  lemma ToggleYearIsChecked(entries: seq<YearEntry>, year: int, other: int)
    requires NoDup(YearsOf(entries)) && year in YearsOf(entries)
    ensures IsChecked(ToggleYear(entries, year), year) <==> !IsChecked(entries, year)
    ensures other != year ==> (IsChecked(ToggleYear(entries, year), other) <==> IsChecked(entries, other))
  {
    var t := ToggleYear(entries, year);
    var k :| 0 <= k < |entries| && YearsOf(entries)[k] == year;
    forall i | 0 <= i < |entries| && entries[i].year == year ensures i == k {
      assert YearsOf(entries)[i] == year;
    }
    if IsChecked(t, year) {
      var i :| 0 <= i < |t| && t[i].year == year && t[i].checked;
      assert i == k;
    }
    if IsChecked(entries, year) {
      var i :| 0 <= i < |entries| && entries[i].year == year && entries[i].checked;
      assert i == k;
    } else {
      assert t[k].year == year && t[k].checked;
    }
    if other != year {
      if IsChecked(entries, other) {
        var i :| 0 <= i < |entries| && entries[i].year == other && entries[i].checked;
        assert t[i].year == other && t[i].checked;
      }
    }
  }

  // ---------------------------------------------------------------- the hook

  /**
   * The hook's state cells. `Valid`: every route has geometry and a
   * palette colour, the years are listed once each, every route's year is
   * listed, and the page cursor is at least 1.
   */
  class ActivityFeed {
    var routes: seq<Activity>
    var loading: bool
    var years: seq<YearEntry>
    var page: int
    const palette: seq<string>
    const yearOf: string -> int

    ghost predicate RoutesValid()
      reads this
    {
      && |palette| > 0
      && page >= 1
      && (forall i :: 0 <= i < |routes| ==> HasGeometry(routes[i]) && routes[i].color in palette)
      && NoDup(YearsOf(years))
    }

    ghost predicate Valid()
      reads this
    {
      && RoutesValid()
      && forall i :: 0 <= i < |routes| ==> yearOf(routes[i].start_date) in YearsOf(years)
    }

    /** No routes, not loading, no years, page cursor at 1. */
    constructor (palette: seq<string>, yearOf: string -> int)
      requires |palette| > 0
      ensures Valid()
      ensures routes == [] && !loading && years == [] && page == 1
      ensures this.palette == palette && this.yearOf == yearOf
    {
      routes := [];
      loading := false;
      years := [];
      page := 1;
      this.palette := palette;
      this.yearOf := yearOf;
    }

    /** The effect that runs when `routes` changes: merge the routes' years into the list. */
    method SyncYears()
      requires RoutesValid()
      modifies this`years
      ensures Valid()
      ensures years == MergeYears(old(years), RouteYears(routes, yearOf))
    {
      MergeYearsKeepsYearsDistinct(years, RouteYears(routes, yearOf));
      MergeYearsCoversRouteYears(years, RouteYears(routes, yearOf));
      years := MergeYears(years, RouteYears(routes, yearOf));
      assert forall i :: 0 <= i < |routes| ==> yearOf(routes[i].start_date) == RouteYears(routes, yearOf)[i];
    }

    /**
     * Fetches one page. A successful response appends its coloured kept
     * activities and merges their years; any failure leaves routes and years
     * as they were. Loading is off afterwards either way.
     */
    method FetchActivities(pageNumber: int, feed: int -> FeedResponse, random: nat -> real)
      requires Valid()
      requires forall i: nat :: 0.0 <= random(i) < 1.0
      modifies this`routes, this`loading, this`years
      ensures Valid()
      ensures !loading
      ensures routes == old(routes) + Arrived(feed(pageNumber), random, palette)
      ensures feed(pageNumber).FeedReceived? && feed(pageNumber).ok ==>
        years == MergeYears(old(years), RouteYears(routes, yearOf))
      ensures !(feed(pageNumber).FeedReceived? && feed(pageNumber).ok) ==>
        routes == old(routes) && years == old(years)
    {
      loading := true;
      var response := feed(pageNumber);
      if response.FeedReceived? && response.ok {
        var filtered := Retained(response.activities);
        var withColor := ColorRoutes(filtered, random, palette);
        assert withColor == Arrived(response, random, palette);
        if |routes| == 0 {
          routes := withColor;
        } else {
          routes := routes + withColor;
        }
        SyncYears();
      }
      loading := false;
    }

    /** Fetches the page after the cursor, then advances the cursor whether or not the fetch succeeded. */
    method FetchMoreActivities(feed: int -> FeedResponse, random: nat -> real)
      requires Valid()
      requires forall i: nat :: 0.0 <= random(i) < 1.0
      modifies this`routes, this`loading, this`years, this`page
      ensures Valid()
      ensures page == old(page) + 1 && !loading
      ensures routes == old(routes) + Arrived(feed(old(page) + 1), random, palette)
      ensures feed(old(page) + 1).FeedReceived? && feed(old(page) + 1).ok ==>
        years == MergeYears(old(years), RouteYears(routes, yearOf))
      ensures !(feed(old(page) + 1).FeedReceived? && feed(old(page) + 1).ok) ==> years == old(years)
    {
      var nextPage := page + 1;
      FetchActivities(nextPage, feed, random);
      page := nextPage;
    }

    /**
     * The effect on a new access token: fetch the first page when there is a
     * token, merging its years on success and keeping them on failure.
     */
    method OnAccessToken(accessToken: Option<string>, feed: int -> FeedResponse, random: nat -> real)
      requires Valid()
      requires forall i: nat :: 0.0 <= random(i) < 1.0
      modifies this`routes, this`loading, this`years
      ensures Valid()
      ensures Truthy(accessToken) ==> routes == old(routes) + Arrived(feed(1), random, palette) && !loading
      ensures Truthy(accessToken) && feed(1).FeedReceived? && feed(1).ok ==>
        years == MergeYears(old(years), RouteYears(routes, yearOf))
      ensures Truthy(accessToken) && !(feed(1).FeedReceived? && feed(1).ok) ==> years == old(years)
      ensures !Truthy(accessToken) ==> routes == old(routes) && years == old(years) && loading == old(loading)
    {
      if Truthy(accessToken) {
        FetchActivities(1, feed, random);
      }
    }

    /** The check box handler. */
    method HandleYearChange(year: int)
      requires Valid()
      modifies this`years
      ensures Valid()
      ensures years == ToggleYear(old(years), year)
    {
      assert YearsOf(ToggleYear(years, year)) == YearsOf(years);
      years := ToggleYear(years, year);
    }

    /** `displayedRoutes`, recomputed from the current routes and years. */
    function Displayed(): (shown: seq<Activity>)
      reads this
      ensures |shown| <= |routes|
      ensures forall a :: a in shown <==> a in routes && IsChecked(years, yearOf(a.start_date))
    {
      DisplayedRoutes(routes, years, yearOf)
    }
  }
}
