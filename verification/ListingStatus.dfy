/** What the listing's state says about its requests: status, error, key and totals, for any
    sequence of actions whatever. */
module ListingStatus {
  import opened Wrappers
  import opened InfiniteListing
  import opened FeedServer
  import F = FeedRange

  function Reduced(state: State, actions: seq<Action>): State {
    if actions == [] then state else Reduce(Reduced(state, actions[..|actions| - 1]), actions[|actions| - 1])
  }

  /** An error is shown exactly in the error status; what is loading says whether there is
      something to add to; an idle listing has nothing. */
  predicate Coherent(state: State) {
    && (state.status == ErrorStatus <==> state.error.Some?)
    && (state.status == InitialLoading ==> state.items == [])
    && (state.status == LoadingMore ==> state.items != [])
    && (state.status == Idle ==> state.items == [] && !state.exhausted)
  }

  /** The key and page size of the last restart. */
  function Labels(key: string, pageSize: int, actions: seq<Action>): (string, int) {
    if actions == [] then (key, pageSize)
    else
      match actions[|actions| - 1]
      case Disable(_, k, p) => (k, p)
      case Reset(_, k, p, _) => (k, p)
      case Hydrate(_, k, p, _, _, _, _, _, _) => (k, p)
      case _ => Labels(key, pageSize, actions[..|actions| - 1])
  }

  lemma {:induction false} StatusIsCoherent(key: string, pageSize: int, actions: seq<Action>)
    ensures var state := Reduced(Empty(key, pageSize), actions);
      Coherent(state) && (state.key, state.pageSize) == Labels(key, pageSize, actions)
  {
    if actions != [] { StatusIsCoherent(key, pageSize, actions[..|actions| - 1]); }
  }

  /** A failed load says so and loses nothing: the very same page is asked for next.  The
      failure of a superseded load is not heard. */
  lemma FailureLosesNothing(state: State, id: nat, error: string)
    ensures var failed := Reduce(state, LoadFailure(id, error));
      if id == state.requestID then
        && failed.status == ErrorStatus && failed.error == Some(error)
        && failed.items == state.items && failed.total == state.total && failed.receivedAt == state.receivedAt
        && NextListingRequest(failed) == NextListingRequest(state)
        && failed.feedToken == state.feedToken && failed.requestedCount == state.requestedCount
      else failed == state
  {}

  /** An applied response ends the load without error, at its own moment, and reports the
      size of the snapshot it is from; any other changes nothing. */
  lemma ResponseSettles(server: Server, s: Session, e: Event)
    requires Inv(server, s) && Honest(server, s, e) && e.action.LoadSuccess?
    ensures var s' := Step(s, server, e);
      if Accepts(s.state, e.action) then
        && s'.state.status == ReadyStatus && s'.state.error.None? && s'.state.receivedAt == e.action.receivedAt
        && s'.state.total == |s'.snapshot|
        && (s'.state.exhausted <==> s'.state.requestedCount == |s'.snapshot|)
      else s'.state == s.state
  {}

  /** A load takes over under its id, over what is listed. */
  lemma LoadTakesOver(state: State, id: nat)
    ensures var loading := Reduce(state, LoadStart(id));
      && loading.requestID == id && loading.error.None?
      && loading.status == (if state.items == [] then InitialLoading else LoadingMore)
      && loading.items == state.items && NextListingRequest(loading) == NextListingRequest(state)
  {}

  /** A cached list is listed as it was cached, and goes on from where it got to. */
  lemma CachedListIsShown(state: State, id: nat, key: string, pageSize: int, cached: State)
    ensures var shown := Reduce(state, Hydrate(id, key, pageSize, cached.items, cached.total, cached.feedToken,
                                               cached.requestedCount, cached.exhausted, cached.receivedAt));
      && shown.requestID == id && shown.status == ReadyStatus && shown.error.None?
      && shown == cached.(key := key, requestID := id, pageSize := pageSize, status := ReadyStatus, error := None)
  {}

  /** For a saved list, the cache serves exactly if it is of the saved snapshot and got at
      least as far. */
  lemma CacheServesExactly(cached: Session, saved: Session)
    requires 0 < |saved.state.feedToken| && 0 < saved.state.requestedCount
    ensures CacheMatchesRestore(cached.state.feedToken, cached.state.requestedCount,
                                saved.state.feedToken, saved.state.requestedCount)
      <==> cached.state.feedToken == saved.state.feedToken
           && saved.state.requestedCount <= cached.state.requestedCount
  {}
}
