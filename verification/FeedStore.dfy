/** The server's table of feed snapshots (a `Video` here is an id): shared tokens, expiry, and eviction of the
    snapshot read longest ago. */
module FeedStore {
  import opened Wrappers
  import opened FeedServer

  const TTL: int := 24 * 60 * 60
  const MAX_SESSIONS: nat := 64
  const MAX_TOKEN: nat := 128

  /** What makes two listings one feed. */
  datatype Key = Key(keyword: string, tag: string, sort: string)

  datatype Feed = Feed(ids: Snapshot, lastAccess: int, sharedKey: Option<Key>)

  function Unexpired(feeds: map<string, Feed>, now: int): map<string, Feed> {
    map t | t in feeds && now - feeds[t].lastAccess < 86_400 :: feeds[t]
  }

  /** The index entries whose feeds are among `feeds`. */
  function Indexed(shared: map<Key, string>, feeds: map<string, Feed>): map<Key, string> {
    map k | k in shared && shared[k] in feeds :: shared[k]
  }

  /** The index points at live feeds of its keys. */
  predicate IndexesLive(shared: map<Key, string>, feeds: map<string, Feed>) {
    forall k :: k in shared ==> shared[k] in feeds && feeds[shared[k]].sharedKey == Some(k)
  }

  /** Of the feeds before, only some read no later than all that are left, but for `kept`,
      are gone. */
  ghost predicate OldestGone(before: map<string, Feed>, after: map<string, Feed>, kept: string) {
    forall t, u :: t in before && t !in after && u in after && u != kept ==>
      before[t].lastAccess <= after[u].lastAccess
  }

  predicate ReadLongestAgo(feeds: map<string, Feed>, token: string) {
    token in feeds && forall u :: u in feeds ==> feeds[token].lastAccess <= feeds[u].lastAccess
  }

  ghost predicate Sound(feeds: map<string, Feed>, shared: map<Key, string>, issued: map<string, Snapshot>) {
    && (forall t :: t in feeds ==> 0 < |t| <= MAX_TOKEN && t in issued && issued[t] == feeds[t].ids)
    && IndexesLive(shared, feeds)
    && |feeds| <= 64
  }

  lemma SoundWithout(feeds: map<string, Feed>, shared: map<Key, string>, issued: map<string, Snapshot>, token: string)
    requires Sound(feeds, shared, issued) && token in feeds
    ensures Sound(feeds - {token}, Indexed(shared, feeds - {token}), issued)
    ensures var key := feeds[token].sharedKey;
      Indexed(shared, feeds - {token})
        == if key.Some? && key.value in shared && shared[key.value] == token then shared - {key.value} else shared
  {
    CountWithout(feeds, token);
    IndexWithout(shared, feeds, token);
  }

  class FeedStore {
    var feeds: map<string, Feed>
    var shared: map<Key, string>
    /** Every token ever handed out, with the list it was handed out for. */
    ghost var issued: map<string, Snapshot>

    /** A token names one list for good; the index points at live feeds of its keys. */
    ghost predicate Valid()
      reads this
    {
      Sound(feeds, shared, issued)
    }

    constructor ()
      ensures Valid() && issued == map[]
    {
      feeds, shared, issued := map[], map[], map[];
    }

    method Delete(token: string)
      requires Valid()
      modifies this`feeds, this`shared
      ensures Valid() && feeds == old(feeds) - {token} && shared == Indexed(old(shared), feeds)
    {
      if token !in feeds { return; }
      var feed := feeds[token];
      SoundWithout(feeds, shared, issued, token);
      feeds := feeds - {token};
      if feed.sharedKey.Some? && feed.sharedKey.value in shared && shared[feed.sharedKey.value] == token {
        shared := shared - {feed.sharedKey.value};
      }
    }

    method Prune(now: int)
      requires Valid()
      modifies this`feeds, this`shared
      ensures Valid() && feeds == Unexpired(old(feeds), now) && shared == Indexed(old(shared), feeds)
    {
      var todo := feeds.Keys;
      while todo != {}
        invariant Valid() && todo <= feeds.Keys <= old(feeds).Keys
        invariant forall t :: t in feeds ==> feeds[t] == old(feeds)[t]
        invariant forall t :: t in old(feeds) && now - old(feeds)[t].lastAccess < TTL ==> t in feeds
        invariant forall t :: t in feeds && t !in todo ==> now - feeds[t].lastAccess < TTL
        invariant shared == Indexed(old(shared), feeds)
        decreases |todo|
      {
        var t :| t in todo;
        todo := todo - {t};
        if now - feeds[t].lastAccess >= TTL {
          IndexedTwice(old(shared), feeds, feeds - {t});
          Delete(t);
        }
      }
    }

    /** The scan for the feed read longest ago. */
    method Oldest() returns (token: string)
      requires feeds != map[] && "" !in feeds
      ensures ReadLongestAgo(feeds, token)
    {
      token := "";
      var oldestAccess := 0;
      var todo := feeds.Keys;
      while todo != {}
        invariant todo <= feeds.Keys
        invariant token == "" ==> todo == feeds.Keys
        invariant token != "" ==> token in feeds && oldestAccess == feeds[token].lastAccess
        invariant token != "" ==> forall u :: u in feeds && u !in todo ==> oldestAccess <= feeds[u].lastAccess
        decreases |todo|
      {
        var t :| t in todo;
        todo := todo - {t};
        if token == "" || feeds[t].lastAccess < oldestAccess {
          token, oldestAccess := t, feeds[t].lastAccess;
        }
      }
    }

    method MakeRoom()
      requires Valid()
      modifies this`feeds, this`shared
      ensures Valid() && |feeds| < MAX_SESSIONS
      ensures feeds.Keys <= old(feeds).Keys && forall t :: t in feeds ==> feeds[t] == old(feeds)[t]
      ensures shared == Indexed(old(shared), feeds)
      ensures OldestGone(old(feeds), feeds, "")
      ensures |old(feeds)| < MAX_SESSIONS ==> feeds == old(feeds)
    {
      while |feeds| >= MAX_SESSIONS
        invariant Valid()
        invariant feeds.Keys <= old(feeds).Keys && forall t :: t in feeds ==> feeds[t] == old(feeds)[t]
        invariant shared == Indexed(old(shared), feeds)
        invariant OldestGone(old(feeds), feeds, "")
        invariant |old(feeds)| < MAX_SESSIONS ==> feeds == old(feeds)
        decreases |feeds|
      {
        var oldestToken := Oldest();
        CountWithout(feeds, oldestToken);
        IndexedTwice(old(shared), feeds, feeds - {oldestToken});
        Delete(oldestToken);
      }
    }

    /** A list already kept under its key is shared, with its token.  Whatever token comes
        back, it names exactly the list it was asked for, now and for as long as it can be
        loaded; every token handed out before still does.  Only expired feeds and feeds read
        no later than all the others make room. */
    method Store(candidate: string, ids: Snapshot, sharedKey: Option<Key>, now: int)
      returns (token: string, stored: Snapshot)
      requires Valid() && 0 < |candidate| <= MAX_TOKEN && candidate !in issued
      modifies this
      ensures Valid() && stored == ids
      ensures token in feeds && feeds[token].ids == ids && feeds[token].lastAccess == now
      ensures issued == old(issued)[token := ids]
      ensures token in old(issued) ==> old(issued)[token] == ids && sharedKey.Some? && token in old(feeds)
      ensures var live := Unexpired(old(feeds), now);
        var kept := Indexed(old(shared), live);
        && token == (if sharedKey.Some? && sharedKey.value in kept && live[kept[sharedKey.value]].ids == ids
                     then kept[sharedKey.value] else candidate)
        && (token != candidate || |live| < MAX_SESSIONS ==> live.Keys <= feeds.Keys)
      ensures sharedKey.Some? ==> sharedKey.value in shared && shared[sharedKey.value] == token
      ensures forall t :: t in feeds && t != token ==> t in old(feeds) && feeds[t] == old(feeds)[t]
      ensures OldestGone(Unexpired(old(feeds), now), feeds, token)
    {
      Prune(now);
      if sharedKey.Some? && sharedKey.value in shared && feeds[shared[sharedKey.value]].ids == ids {
        token := shared[sharedKey.value];
        Touch(token, now);
        return token, feeds[token].ids;
      }
      Add(candidate, Feed(ids, now, sharedKey));
      return candidate, ids;
    }

    method Add(token: string, feed: Feed)
      requires Valid() && 0 < |token| <= MAX_TOKEN && token !in issued
      modifies this
      ensures Valid() && issued == old(issued)[token := feed.ids]
      ensures token in feeds && feeds[token] == feed
      ensures forall t :: t in feeds && t != token ==> t in old(feeds) && feeds[t] == old(feeds)[t]
      ensures OldestGone(old(feeds), feeds, token)
      ensures |old(feeds)| < MAX_SESSIONS ==> old(feeds).Keys <= feeds.Keys
      ensures feed.sharedKey.Some? ==> feed.sharedKey.value in shared && shared[feed.sharedKey.value] == token
    {
      MakeRoom();
      InsertKeepsOldestGone(old(feeds), feeds, token, feed);
      Insert(token, feed);
    }

    method Touch(token: string, now: int)
      requires Valid() && token in feeds
      modifies this`feeds
      ensures Valid() && feeds == old(feeds)[token := old(feeds)[token].(lastAccess := now)]
    {
      CountWith(feeds, token, feeds[token].(lastAccess := now));
      feeds := feeds[token := feeds[token].(lastAccess := now)];
    }

    method Insert(token: string, feed: Feed)
      requires Valid() && 0 < |token| <= MAX_TOKEN && token !in issued && |feeds| < MAX_SESSIONS
      modifies this
      ensures Valid() && feeds == old(feeds)[token := feed] && issued == old(issued)[token := feed.ids]
      ensures shared == if feed.sharedKey.Some? then old(shared)[feed.sharedKey.value := token] else old(shared)
    {
      CountWith(feeds, token, feed);
      feeds := feeds[token := feed];
      issued := issued[token := feed.ids];
      if feed.sharedKey.Some? { shared := shared[feed.sharedKey.value := token]; }
    }

    /** A load gives the list its token was handed out for, or nothing. */
    method Load(token: string, now: int) returns (ids: Option<Snapshot>)
      requires Valid()
      modifies this`feeds, this`shared
      ensures Valid()
      ensures ids.Some? <==> token in old(feeds) && now - old(feeds)[token].lastAccess < TTL
      ensures ids.Some? ==> token in issued && ids.value == issued[token]
      ensures var left := Unexpired(old(feeds), now);
        feeds == if ids.Some? then left[token := left[token].(lastAccess := now)] else left
    {
      Prune(now);
      if token !in feeds { return None; }
      Touch(token, now);
      return Some(feeds[token].ids);
    }
  }

  lemma CountWithout(feeds: map<string, Feed>, token: string)
    requires token in feeds
    ensures |feeds - {token}| == |feeds| - 1
  {
    assert (feeds - {token}).Keys == feeds.Keys - {token};
  }

  lemma CountWith(feeds: map<string, Feed>, token: string, feed: Feed)
    ensures |feeds[token := feed]| == |feeds| + if token in feeds then 0 else 1
  {
    assert feeds[token := feed].Keys == feeds.Keys + {token};
  }

  lemma IndexedTwice(shared: map<Key, string>, a: map<string, Feed>, b: map<string, Feed>)
    requires b.Keys <= a.Keys
    ensures Indexed(Indexed(shared, a), b) == Indexed(shared, b)
  {}

  lemma IndexWithout(shared: map<Key, string>, feeds: map<string, Feed>, token: string)
    requires IndexesLive(shared, feeds) && token in feeds
    ensures var key := feeds[token].sharedKey;
      Indexed(shared, feeds - {token})
        == if key.Some? && key.value in shared && shared[key.value] == token then shared - {key.value} else shared
  {}

  lemma InsertKeepsOldestGone(before: map<string, Feed>, left: map<string, Feed>, token: string, feed: Feed)
    requires OldestGone(before, left, "") && "" !in left && token !in before
    ensures OldestGone(before, left[token := feed], token)
  {
    var after := left[token := feed];
    forall t, u | t in before && t !in after && u in after && u != token
      ensures before[t].lastAccess <= after[u].lastAccess
    {
      assert t !in left && u in left && u != "";
    }
  }
}
