/** Where selecting an item of the menu leads: a movie result navigates to its
    detail route, the shortcuts to fixed routes, and the portfolio entry opens
    an external page in a new tab. */
module Routes {
  import opened Text
  import opened Optional

  datatype Selection =
    | MovieItem(id: nat)
    | MoviesShortcut
    | SeriesShortcut
    | HomeShortcut
    | PortfolioShortcut

  datatype Target =
    | Navigate(path: string)     // `router.push(path)`
    | OpenInNewTab(url: string)  // `window.open(url, '_blank')`

  const MoviePrefix: string := "/movies/"
  const PortfolioUrl: string := "https://www.mohamedgado.info/"

  /** The command run when an item is selected. */
  function TargetOf(s: Selection): Target
  {
    match s
    case MovieItem(id) => Navigate(MoviePrefix + Decimal(id))
    case MoviesShortcut => Navigate("/movies")
    case SeriesShortcut => Navigate("/tv-shows")
    case HomeShortcut => Navigate("/")
    case PortfolioShortcut => OpenInNewTab(PortfolioUrl)
  }

  /** Recovers the movie id from a movie detail route `/movies/<digits>`. */
  function MovieIdOf(path: string): Option<nat>
  {
    if |path| > |MoviePrefix| && path[..|MoviePrefix|] == MoviePrefix && AllDigits(path[|MoviePrefix|..])
    then Some(ParseDecimal(path[|MoviePrefix|..]))
    else None
  }

  /** Selecting a movie result navigates to `/movies/<id>`, and the id can be
      read back from that route; every other item's route is not a movie route. */
  lemma MovieRouteRoundTrip(s: Selection)
    ensures s.MovieItem? ==>
      TargetOf(s).Navigate? && TargetOf(s).path[..|MoviePrefix|] == MoviePrefix &&
      MovieIdOf(TargetOf(s).path) == Some(s.id)
    ensures !s.MovieItem? && TargetOf(s).Navigate? ==> MovieIdOf(TargetOf(s).path) == None
  {
    if s.MovieItem? {
      var path := MoviePrefix + Decimal(s.id);
      assert path[..|MoviePrefix|] == MoviePrefix;
      assert path[|MoviePrefix|..] == Decimal(s.id);
      ParseDecimalOfDecimal(s.id);
    }
  }

  /** The shortcut items target `/movies`, `/tv-shows` and `/`; only the
      portfolio item leaves the application. */
  lemma ShortcutTargets()
    ensures TargetOf(MoviesShortcut) == Navigate("/movies")
    ensures TargetOf(SeriesShortcut) == Navigate("/tv-shows")
    ensures TargetOf(HomeShortcut) == Navigate("/")
    ensures forall s: Selection :: TargetOf(s).OpenInNewTab? <==> s == PortfolioShortcut
  {
  }

  /** Different items lead to different places. */
  lemma TargetsDistinct(s: Selection, t: Selection)
    requires s != t
    ensures TargetOf(s) != TargetOf(t)
  {
    MovieRouteRoundTrip(s);
    MovieRouteRoundTrip(t);
  }
}
