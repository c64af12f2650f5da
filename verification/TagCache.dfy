/** The module state of `fetchTags` as an object; its runs are those of the protocol. */
module TagCache {
  import opened Wrappers
  import P = TagCacheProtocol

  class TagCache<T> {
    var cachedTags: Option<T>
    var pendingTags: Option<nat>
    var version: nat
    /** The version each request remembers, in the order the requests begin. */
    var requests: seq<nat>
    ghost var run: seq<P.Event<T>>

    ghost predicate Valid()
      reads this
    {
      P.After(run) == P.State(cachedTags, pendingTags, version, requests)
    }

    constructor ()
      ensures Valid() && run == []
    {
      cachedTags, pendingTags, version, requests, run := None, None, 0, [], [];
    }

    method InvalidateTagsCache()
      requires Valid()
      modifies this
      ensures Valid() && run == old(run) + [P.Invalidate]
    {
      version := version + 1;
      cachedTags := None;
      pendingTags := None;
      run := run + [P.Invalidate];
    }

    method FetchTags() returns (reply: P.Reply<T>)
      requires Valid()
      modifies this
      ensures Valid() && run == old(run) + [P.Fetch]
      ensures reply == P.ReplyTo(P.After(old(run)))
    {
      run := run + [P.Fetch];
      if cachedTags.Some? {
        reply := P.Tags(cachedTags.value);
      } else if pendingTags.Some? {
        reply := P.Request(pendingTags.value);
      } else {
        var request := |requests|;
        requests := requests + [version];
        pendingTags := Some(request);
        reply := P.Request(request);
      }
    }

    method RequestAnswered(request: nat, tags: T)
      requires Valid() && request < |requests|
      modifies this
      ensures Valid() && run == old(run) + [P.Answered(request, tags)]
    {
      if requests[request] == version { cachedTags := Some(tags); }
      run := run + [P.Answered(request, tags)];
    }

    method RequestFinished(request: nat)
      requires Valid()
      modifies this
      ensures Valid() && run == old(run) + [P.Finished(request)]
    {
      if pendingTags == Some(request) { pendingTags := None; }
      run := run + [P.Finished(request)];
    }
  }
}
