/** The session cache of the tag list: the steps of `fetchTags` and `invalidateTagsCache`,
    and what every run of them keeps. Requests are numbered as they begin. */
module TagCacheProtocol {
  import opened Wrappers

  /** `requests[r]` is the version request `r` remembers; an answer is stored before the
      request is finished, and other steps may come between. */
  datatype State<T> = State(cached: Option<T>, pending: Option<nat>, version: nat, requests: seq<nat>)
  datatype Event<T> = Fetch | Invalidate | Answered(request: nat, tags: T) | Finished(request: nat)
  datatype Reply<T> = Tags(tags: T) | Request(request: nat)

  function Initial<T>(): State<T> {
    State(None, None, 0, [])
  }

  function Step<T>(s: State<T>, e: Event<T>): State<T> {
    match e
    case Fetch =>
      if s.cached.Some? || s.pending.Some? then s
      else s.(pending := Some(|s.requests|), requests := s.requests + [s.version])
    case Invalidate => State(None, None, s.version + 1, s.requests)
    case Answered(r, tags) =>
      if r < |s.requests| && s.requests[r] == s.version then s.(cached := Some(tags)) else s
    case Finished(r) => if s.pending == Some(r) then s.(pending := None) else s
  }

  /** What a caller of `fetchTags` is handed. */
  function ReplyTo<T>(s: State<T>): Reply<T> {
    match s.cached
    case Some(tags) => Tags(tags)
    case None => Request(s.pending.GetOr(|s.requests|))
  }

  function After<T>(run: seq<Event<T>>): State<T> {
    if run == [] then Initial() else Step(After(run[..|run| - 1]), run[|run| - 1])
  }

  /** Request `r` begins with event `b`. */
  predicate Begins<T>(run: seq<Event<T>>, b: nat, r: nat)
    requires b < |run|
  {
    run[b] == Fetch && |After(run[..b]).requests| == r && |After(run[..b + 1]).requests| == r + 1
  }

  predicate NoInvalidationSince<T>(run: seq<Event<T>>, b: nat) {
    forall i :: b <= i < |run| ==> run[i] != Invalidate
  }

  /** Request `r` began after the last invalidation of the run. */
  ghost predicate Current<T(!new)>(run: seq<Event<T>>, r: nat) {
    exists b: nat :: b < |run| && Begins(run, b, r) && NoInvalidationSince(run, b)
  }

  /** These tags are the answer to such a request. */
  ghost predicate AnswersCurrent<T(!new)>(run: seq<Event<T>>, tags: T) {
    exists r: nat :: Current(run, r) && Answered(r, tags) in run
  }

  lemma CurrentGoesOn<T(!new)>(run: seq<Event<T>>, e: Event<T>, r: nat)
    requires Current(run, r) && e != Invalidate
    ensures Current(run + [e], r)
  {
    var b: nat :| b < |run| && Begins(run, b, r) && NoInvalidationSince(run, b);
    assert (run + [e])[..b] == run[..b] && (run + [e])[..b + 1] == run[..b + 1];
    assert Begins(run + [e], b, r);
  }

  /** Whatever order fetches, invalidations and answers come in, a request that still
      remembers the version, a pending request and the cached tags are all current. */
  lemma {:induction false} CacheIsCurrent<T(!new)>(run: seq<Event<T>>)
    ensures forall r :: 0 <= r < |After(run).requests| ==> After(run).requests[r] <= After(run).version
    ensures forall r :: 0 <= r < |After(run).requests| ==>
      (After(run).requests[r] == After(run).version ==> Current(run, r))
    ensures forall r :: After(run).pending == Some(r) ==> Current(run, r) && r < |After(run).requests|
    ensures forall tags :: After(run).cached == Some(tags) ==> AnswersCurrent(run, tags)
  {
    if run != [] {
      var front, e := run[..|run| - 1], run[|run| - 1];
      assert run == front + [e];
      CacheIsCurrent(front);
      var s := After(front);
      if e != Invalidate {
        forall r | Current(front, r) ensures Current(run, r) { CurrentGoesOn(front, e, r); }
        var n := |s.requests|;
        assert run[..|run|] == run;
        assert |After(run).requests| == n + 1 ==> Begins(run, |run| - 1, n) && NoInvalidationSince(run, |run| - 1);
        forall tags | After(run).cached == Some(tags) ensures AnswersCurrent(run, tags) {
          if s.cached == Some(tags) {
            var r: nat :| Current(front, r) && Answered(r, tags) in front;
            assert Current(run, r) && Answered(r, tags) in run;
          } else {
            assert Current(run, e.request) && Answered(e.request, tags) in run;
          }
        }
      }
    }
  }

  /** No call is ever answered with tags that were asked for before the last invalidation
      preceding the call: it gets cached tags of a current request, or a current request. */
  lemma FetchIsCurrent<T(!new)>(run: seq<Event<T>>)
    ensures ReplyTo(After(run)).Tags? ==> AnswersCurrent(run, ReplyTo(After(run)).tags)
    ensures ReplyTo(After(run)).Request? ==> Current(run + [Fetch], ReplyTo(After(run)).request)
  {
    CacheIsCurrent(run);
    CacheIsCurrent(run + [Fetch]);
    assert (run + [Fetch])[..|run|] == run;
  }

  /** An answer to a request that still remembers the version is what calls get from then
      on; one that does not leaves the cache as it is. */
  lemma AnswerIsCached<T>(s: State<T>, r: nat, tags: T)
    requires r < |s.requests|
    ensures var s' := Step(s, Answered(r, tags));
      if s.requests[r] == s.version then ReplyTo(s') == Tags(tags) && Step(s', Fetch) == s'
      else s' == s
  {}

  /** A pending request that is finished with nothing in the cache frees the next call to
      ask again; a call in between gets that very request. */
  lemma FinishFreesTheNext<T>(s: State<T>, r: nat)
    requires s.cached.None? && s.pending == Some(r)
    ensures ReplyTo(s) == Request(r) && Step(s, Fetch) == s
    ensures var s' := Step(s, Finished(r));
      && ReplyTo(s') == Request(|s.requests|)
      && Step(s', Fetch).requests == s.requests + [s.version] && Step(s', Fetch).pending == Some(|s.requests|)
  {}

  /** An invalidation empties the cache and makes the next call ask anew. */
  lemma InvalidationAsksAnew<T>(s: State<T>)
    ensures var s' := Step(s, Invalidate);
      && s'.cached.None? && ReplyTo(s') == Request(|s.requests|)
      && Step(s', Fetch).requests == s.requests + [s.version + 1]
  {}

  predicate SameEra<T>(run: seq<Event<T>>, i: nat, j: nat)
    requires i < j <= |run|
  {
    forall k :: i <= k < j ==> run[k] != Invalidate
  }

  /** While a request is out, calls share it: within one era a second request begins only
      once the first has itself been finished without leaving anything in the cache. */
  lemma {:induction false} RequestsAreShared<T>(run: seq<Event<T>>, b: nat, c: nat, r: nat)
    requires b < c < |run| && Begins(run, b, r) && SameEra(run, b, c)
    requires |After(run[..c + 1]).requests| > |After(run[..c]).requests|
    ensures exists k :: b < k < c && run[k] == Finished(r)
    ensures forall tags :: Answered(r, tags) !in run[b..c]
  {
    Shared(run, b, c, r);
    assert run[..c + 1][..c] == run[..c];
  }

  lemma {:induction false} Shared<T>(run: seq<Event<T>>, b: nat, c: nat, r: nat)
    requires b < c < |run| && Begins(run, b, r) && SameEra(run, b, c)
    ensures var s := After(run[..c]);
      && r < |s.requests| && s.requests[r] == s.version
      && (s.cached.None? ==> forall tags :: Answered(r, tags) !in run[b..c])
      && (s.pending == Some(r) || exists k :: b < k < c && run[k] == Finished(r))
    decreases c
  {
    assert run[..c][..c - 1] == run[..c - 1];
    if c == b + 1 {
      assert run[b..c] == [run[b]];
    } else {
      Shared(run, b, c - 1, r);
      assert run[b..c] == run[b..c - 1] + [run[c - 1]];
    }
  }
}
