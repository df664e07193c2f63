/**
 * The bottle scale's home view: it polls the scale once a second for the load on it and
 * the CO2 the bottle held, and shows the CO2 used (the magnitude of the load) and the CO2
 * still available (the held weight minus the used weight).
 */
module ScaleHome {
  import opened Wrappers
  import opened Algorithms

  /** The fields of the `/api/v1/load` response the view reads. */
  datatype LoadResponse = LoadResponse(load: real, containedCo2: real)

  /** The view's state. Before the first response `load` is the empty string, which
      `Math.abs` reads as 0; that is `None` here. */
  datatype HomeState = HomeState(load: Option<real>, containedCo2: real)

  const Initial := HomeState(None, 0.0)

  /** The CO2 used: the magnitude of the load, whichever sign the scale reports. */
  function Used(s: HomeState): (r: real)
    ensures r >= 0.0
    ensures s.load.Some? ==> r == s.load.value || r == -s.load.value
    ensures s.load.None? ==> r == 0.0
  {
    match s.load
    case None => 0.0
    case Some(l) => Magnitude(l)
  }

  /** The CO2 still available; it is not clamped and goes negative once more than the
      held weight has been drawn. */
  function Available(s: HomeState): (r: real)
    ensures r + Used(s) == s.containedCo2
    ensures r <= s.containedCo2
  {
    s.containedCo2 - Used(s)
  }

  /** A poll result replaces both fields, whatever the view showed before. */
  function AfterPoll(s: HomeState, response: LoadResponse): (r: HomeState)
    ensures r.load == Some(response.load) && r.containedCo2 == response.containedCo2
  {
    HomeState(Some(response.load), response.containedCo2)
  }

  /** Loads of equal magnitude and opposite sign show the same figures. */
  lemma SignDoesNotMatter(co2: real, load: real)
    ensures Used(HomeState(Some(load), co2)) == Used(HomeState(Some(-load), co2))
    ensures Available(HomeState(Some(load), co2)) == Available(HomeState(Some(-load), co2))
  {
  }

  /** Used and available CO2 always add up to the held weight, and the available figure
      falls below zero exactly when the magnitude of the load exceeds it. */
  lemma AvailableGoesNegative(s: HomeState)
    ensures Used(s) + Available(s) == s.containedCo2
    ensures Available(s) < 0.0 <==> Used(s) > s.containedCo2
  {
  }

  /** The figures after a poll depend on the response alone. */
  lemma PollForgetsEarlierState(s: HomeState, t: HomeState, response: LoadResponse)
    ensures AfterPoll(s, response) == AfterPoll(t, response)
    ensures Used(AfterPoll(s, response)) == Magnitude(response.load)
  {
  }

  /** The `Home` component: its state and whether its one-second poll interval is set. */
  class HomeView {
    var state: HomeState
    var polling: bool

    constructor ()
      ensures state == Initial && !polling
    {
      state := Initial;
      polling := false;
    }

    /** `componentDidMount`: starts the poll interval. */
    method Mount()
      modifies this
      ensures polling && state == old(state)
    {
      polling := true;
    }

    /** A poll of the interval whose response arrived; after the interval is cleared no
        poll happens. */
    method Poll(response: LoadResponse)
      modifies this
      ensures polling == old(polling)
      ensures state == if polling then AfterPoll(old(state), response) else old(state)
    {
      if polling {
        state := AfterPoll(state, response);
      }
    }

    /** `componentWillUnmount`: clears the interval. */
    method Unmount()
      modifies this
      ensures !polling && state == old(state)
    {
      polling := false;
    }
  }
}
