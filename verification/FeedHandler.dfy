/** The handler behind /api/feed: what it answers is what the client's checks demand and
    what its reducer takes for granted. */
module FeedHandler {
  import opened Wrappers
  import opened FeedServer
  import F = FeedRange
  import opened FeedStore

  predicate Malformed(count: int, cursor: int, feedToken: string) {
    || count < 1 || count > F.MAX_BATCH || cursor < 0 || |feedToken| > MAX_TOKEN
    || (feedToken == "" && cursor != 0)
  }

  ghost predicate Loadable(feeds: map<string, Feed>, feedToken: string, now: int) {
    feedToken in feeds && now - feeds[feedToken].lastAccess < TTL
  }

  /** `seed` is the list a new feed starts from, `candidate` the random token drawn for it.
      Malformed requests fail and unknown or expired tokens are gone; everything else is
      answered, with a batch that passes the client's checks and shows the public part of
      the stretch it moved over - of the one list the token was handed out for. */
  method HandleVideoFeed(
      store: FeedStore, shown: Video -> bool, count: int, cursor: int, feedToken: string,
      seed: Snapshot, sharedKey: Option<Key>, candidate: string, now: int)
    returns (reply: F.Reply)
    requires store.Valid() && 0 < |candidate| <= MAX_TOKEN && candidate !in store.issued
    modifies store
    ensures store.Valid()
    ensures forall t :: t in old(store.issued) ==> t in store.issued && store.issued[t] == old(store.issued)[t]
    ensures Malformed(count, cursor, feedToken) ==> reply == F.Failed && store.feeds == old(store.feeds)
    ensures reply.Gone? <==>
      !Malformed(count, cursor, feedToken) && feedToken != "" && !Loadable(old(store.feeds), feedToken, now)
    ensures feedToken != "" && !Malformed(count, cursor, feedToken) && !reply.Gone? ==>
      feedToken in store.issued
      && reply == F.ServerReply(shown, store.issued[feedToken], F.Cursor(feedToken, cursor), count)
    ensures feedToken == "" && !Malformed(count, cursor, feedToken) ==> reply.Delivered?
    ensures reply.Delivered? && feedToken == "" && !reply.response.exhausted ==>
      reply.response.feedToken in store.issued && store.issued[reply.response.feedToken] == seed
    ensures reply.Delivered? ==>
      && 0 <= cursor && (feedToken != "" ==> feedToken in store.issued)
      && var from := F.Cursor(feedToken, cursor);
         var batch := F.Checked(from, reply);
         && batch.Ok? && |batch.value.items| <= count
         && F.Shows(shown, if feedToken == "" then seed else store.issued[feedToken], from, batch.value)
  {
    if count < 1 || count > F.MAX_BATCH { return F.Failed; }
    if cursor < 0 { return F.Failed; }
    if |feedToken| > MAX_TOKEN { return F.Failed; }
    var token := feedToken;
    var videos := seed;
    if feedToken == "" {
      if cursor != 0 { return F.Failed; }
    } else {
      var loaded := store.Load(feedToken, now);
      if loaded.None? { return F.Gone; }
      videos := loaded.value;
    }
    if cursor > |videos| { return F.Failed; }
    var items, nextCursor := LoadVisibleBatch(shown, videos, cursor, count);
    var exhausted := nextCursor >= |videos|;
    if feedToken == "" && !exhausted {
      token, videos := store.Store(candidate, videos, sharedKey, now);
    }
    reply := F.Delivered(F.Response(items, |videos|, token, nextCursor, exhausted));
    AnswerPasses(shown, videos, F.Cursor(feedToken, cursor), count, reply);
  }

  /** A batch of a list, answered under the token asked with or a fresh one, passes the
      client's checks and shows what is public of its stretch. */
  lemma AnswerPasses(shown: Video -> bool, videos: Snapshot, from: F.Cursor, count: nat, reply: F.Reply)
    requires from.position <= |videos| && 0 < count && |from.feedToken| <= 128 && reply.Delivered?
    requires var r, next := reply.response, BatchEnd(shown, videos, from.position, count);
      && r.items == Visible(shown, videos[from.position..next]) && r.total == |videos|
      && r.nextCursor == next && r.exhausted == (next >= |videos|)
      && (if from.feedToken != "" then r.feedToken == from.feedToken
          else if r.exhausted then r.feedToken == "" else 0 < |r.feedToken| <= 128)
    ensures var batch := F.Checked(from, reply);
      batch.Ok? && |batch.value.items| <= count && F.Shows(shown, videos, from, batch.value)
  {
    var next := BatchEnd(shown, videos, from.position, count);
    BatchHolds(shown, videos, from.position, count);
    VisibleIsPicked(shown, videos[from.position..next]);
    F.AcceptedExactly(from, reply.response);
  }
}
