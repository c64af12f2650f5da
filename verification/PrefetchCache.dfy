/** The prefetch Maps of the detail page as objects: the pruning and trimming loops, and
    methods whose runs are those of the protocol. */
module PrefetchCache {
  import P = PrefetchProtocol

  class PrefetchCache {
    const kind: P.Kind
    /** The Map's entries in the order `for (const [id, entry] of map)` visits them. */
    var entries: seq<P.Entry>
    /** The requests sent so far; a request is known by its number. */
    var begun: seq<P.Begun>
    ghost var run: seq<P.Event>

    ghost predicate Valid()
      reads this
    {
      P.After(kind, run) == Model()
    }

    constructor (kind: P.Kind)
      ensures Valid() && run == [] && this.kind == kind
    {
      this.kind := kind;
      entries, begun, run := [], [], [];
    }

    ghost function Model(): P.State
      reads this
    {
      P.State(entries, begun)
    }

    /** Notes the event about to be handled; the handler then catches up with it. */
    ghost method Observe(e: P.Event)
      requires Valid()
      modifies this`run
      ensures run == old(run) + [e]
      ensures P.After(kind, run) == P.Step(kind, Model(), e)
    {
      P.AfterSnoc(kind, run, e);
      run := run + [e];
    }

    method Prune(now: int)
      modifies this`entries
      ensures entries == P.Live(old(entries), now)
    {
      var i := 0;
      while i < |entries|
        invariant i <= |entries|
        invariant entries[..i] + P.Live(entries[i..], now) == P.Live(old(entries), now)
        decreases |entries| - i
      {
        ghost var rest := entries[i..];
        if entries[i].expiresAt <= now {
          entries := entries[..i] + entries[i + 1..];
          assert entries[i..] == rest[1..];
        } else {
          assert entries[i + 1..] == rest[1..] && entries[..i + 1] == entries[..i] + [rest[0]];
          i := i + 1;
        }
      }
      assert entries[..i] == entries && entries[i..] == [];
    }

    method Trim()
      modifies this`entries
      ensures entries == P.Trim(old(entries))
    {
      while |entries| > P.LIMIT
        invariant P.Trim(entries) == P.Trim(old(entries))
      {
        assert entries[1 + P.Excess(entries[1..])..] == entries[1..][P.Excess(entries[1..])..];
        var oldestID := entries[0].id;
        if oldestID == "" { return; }
        entries := entries[1..];
      }
    }

    method Prefetch(id: string, now: int) returns (request: nat)
      requires Valid()
      modifies this
      ensures Valid() && run == old(run) + [P.Prefetch(id, now)]
      ensures request == P.PrefetchResult(P.After(kind, old(run)), id, now)
    {
      Observe(P.Prefetch(id, now));
      request := Fetch(id, now);
    }

    method Fetch(id: string, now: int) returns (request: nat)
      modifies this`entries, this`begun
      ensures Model() == P.Step(kind, old(Model()), P.Prefetch(id, now))
      ensures request == P.PrefetchResult(old(Model()), id, now)
    {
      P.LiveIsPart(entries, now);
      Prune(now);
      var i := P.Find(entries, id);
      if i < |entries| && entries[i].expiresAt > now { return entries[i].request; }
      request := |begun|;
      entries := P.Set(entries, P.Entry(id, now + P.TTL, request));
      begun := begun + [P.Begun(id, now)];
      Trim();
    }

    /** A failure, or for details the answer that there is no such video. */
    method RequestDropped(request: nat)
      requires Valid() && request < |begun|
      modifies this
      ensures Valid() && run == old(run) + [P.Dropped(request)]
      ensures forall e :: e in entries <==> e in old(entries) && e.request != request
    {
      P.SettlementSparesOthers(kind, run, request);
      Observe(P.Dropped(request));
      var id := begun[request].id;
      var i := P.Find(entries, id);
      if i < |entries| && entries[i].request == request {
        entries := P.Delete(entries, id);
      }
    }

    method Consume(id: string, now: int, deleted: bool) returns (result: P.Consumed)
      requires Valid()
      modifies this
      ensures Valid() && run == old(run) + [P.Consume(id, now, deleted)]
      ensures result == P.ResultAt(kind, run, |old(run)|)
    {
      Observe(P.Consume(id, now, deleted));
      assert run[..|old(run)|] == old(run);
      if kind == P.Details && deleted { return P.NoVideo; }
      var i := P.Find(entries, id);
      var present := i < |entries|;
      var entry := if present then entries[i] else P.Entry(id, now, 0);
      entries := P.Delete(entries, id);
      if !present || entry.expiresAt <= now { return P.Nothing; }
      return P.Handed(entry.request);
    }

    method VideoDeleted(id: string)
      requires Valid()
      modifies this
      ensures Valid() && run == old(run) + [P.Deleted(id)]
    {
      Observe(P.Deleted(id));
      entries := if kind == P.Details then P.Delete(entries, id) else [];
    }
  }
}
