/** The two prefetch Maps: what prefetching, settling, consuming and deleting do to an
    insertion-ordered map, and what every run keeps. Requests are numbered as they begin. */
module PrefetchProtocol {
  const TTL := 30_000
  const LIMIT := 20

  /** Details forget one deleted video; recommendations may contain it anywhere. */
  datatype Kind = Details | Recommendations

  datatype Entry = Entry(id: string, expiresAt: int, request: nat)
  datatype Begun = Begun(id: string, at: int)

  /** `entries` in the Map's order; `begun[r]` is what request `r` was begun for, and when. */
  datatype State = State(entries: seq<Entry>, begun: seq<Begun>)

  /** `Dropped` is a settlement that gives nothing to keep: a failure, or no such video. */
  datatype Event =
    | Prefetch(id: string, now: int)
    | Dropped(request: nat)
    | Consume(id: string, now: int, deleted: bool)
    | Deleted(id: string)

  datatype Consumed = Nothing | NoVideo | Handed(request: nat)

  // ----- The Map ---------------------------------------------------------------------------

  /** The place of `id`, or one past the end. */
  function Find(entries: seq<Entry>, id: string): (i: nat)
    ensures i <= |entries|
    ensures i < |entries| ==> entries[i].id == id
    ensures forall k :: 0 <= k < i ==> entries[k].id != id
  {
    if entries == [] || entries[0].id == id then 0 else 1 + Find(entries[1..], id)
  }

  function Where(keep: Entry -> bool, entries: seq<Entry>): seq<Entry> {
    if entries == [] then []
    else (if keep(entries[0]) then [entries[0]] else []) + Where(keep, entries[1..])
  }

  function Delete(entries: seq<Entry>, id: string): seq<Entry> {
    Where((e: Entry) => e.id != id, entries)
  }

  function Live(entries: seq<Entry>, now: int): seq<Entry> {
    Where((e: Entry) => e.expiresAt > now, entries)
  }

  /** A key that is there keeps its place. */
  function Set(entries: seq<Entry>, e: Entry): seq<Entry> {
    var i := Find(entries, e.id);
    if i == |entries| then entries + [e] else entries[i := e]
  }

  /** How many entries trimming takes from the front: it gives up at an empty id. */
  function Excess(entries: seq<Entry>): (k: nat)
    ensures k <= |entries|
  {
    if |entries| > LIMIT && entries[0].id != "" then 1 + Excess(entries[1..]) else 0
  }

  function Trim(entries: seq<Entry>): seq<Entry> {
    entries[Excess(entries)..]
  }

  // ----- The steps ---------------------------------------------------------------------------

  function Initial(): State {
    State([], [])
  }

  function Step(kind: Kind, s: State, e: Event): State {
    match e
    case Prefetch(id, now) =>
      var live := Live(s.entries, now);
      if Find(live, id) < |live| then s.(entries := live)
      else State(Trim(Set(live, Entry(id, now + TTL, |s.begun|))), s.begun + [Begun(id, now)])
    case Dropped(r) =>
      if r < |s.begun| then
        var i := Find(s.entries, s.begun[r].id);
        if i < |s.entries| && s.entries[i].request == r
        then s.(entries := Delete(s.entries, s.begun[r].id)) else s
      else s
    case Consume(id, now, deleted) =>
      if kind == Details && deleted then s else s.(entries := Delete(s.entries, id))
    case Deleted(id) => s.(entries := if kind == Details then Delete(s.entries, id) else [])
  }

  /** The request a prefetch returns: the live one for the video, or else the one it begins. */
  function PrefetchResult(s: State, id: string, now: int): nat {
    var live := Live(s.entries, now);
    var i := Find(live, id);
    if i < |live| then live[i].request else |s.begun|
  }

  function ConsumeResult(kind: Kind, s: State, id: string, now: int, deleted: bool): Consumed {
    var i := Find(s.entries, id);
    if kind == Details && deleted then NoVideo
    else if i == |s.entries| || s.entries[i].expiresAt <= now then Nothing
    else Handed(s.entries[i].request)
  }

  function After(kind: Kind, run: seq<Event>): State {
    if run == [] then Initial() else Step(kind, After(kind, run[..|run| - 1]), run[|run| - 1])
  }

  // ----- What every run keeps ----------------------------------------------------------------

  /** The Map holds requests in the order they were begun, each under the id it was begun
      for, and never an older one when a newer was begun for the same id. */
  predicate InOrder(entries: seq<Entry>) {
    forall i, j :: 0 <= i < j < |entries| ==> entries[i].request < entries[j].request
  }

  predicate Genuine(begun: seq<Begun>, e: Entry) {
    && e.request < |begun|
    && begun[e.request] == Begun(e.id, e.expiresAt - TTL)
    && forall r :: e.request < r < |begun| ==> begun[r].id != e.id
  }

  predicate Inv(s: State) {
    && InOrder(s.entries)
    && forall i :: 0 <= i < |s.entries| ==> Genuine(s.begun, s.entries[i])
  }

  lemma {:induction false} WhereIsPart(keep: Entry -> bool, entries: seq<Entry>)
    ensures forall e :: e in Where(keep, entries) <==> e in entries && keep(e)
    ensures |Where(keep, entries)| <= |entries|
  {
    if entries != [] {
      WhereIsPart(keep, entries[1..]);
      assert entries == [entries[0]] + entries[1..];
    }
  }

  lemma {:induction false} WhereInOrder(keep: Entry -> bool, entries: seq<Entry>)
    requires InOrder(entries)
    ensures InOrder(Where(keep, entries))
  {
    if entries != [] {
      var rest := Where(keep, entries[1..]);
      WhereInOrder(keep, entries[1..]);
      WhereIsPart(keep, entries[1..]);
      forall i | 0 <= i < |rest| ensures entries[0].request < rest[i].request {
        assert rest[i] in entries[1..];
      }
    }
  }

  lemma WhereKeepsInv(s: State, keep: Entry -> bool)
    requires Inv(s)
    ensures Inv(s.(entries := Where(keep, s.entries)))
    ensures forall e :: e in Where(keep, s.entries) <==> e in s.entries && keep(e)
  {
    WhereIsPart(keep, s.entries);
    WhereInOrder(keep, s.entries);
    var left := Where(keep, s.entries);
    forall i | 0 <= i < |left| ensures Genuine(s.begun, left[i]) { assert left[i] in s.entries; }
  }

  lemma LiveIsPart(entries: seq<Entry>, now: int)
    ensures forall e :: e in Live(entries, now) <==> e in entries && e.expiresAt > now
    ensures |Live(entries, now)| <= |entries|
    ensures forall i :: 0 <= i < |Live(entries, now)| ==> Live(entries, now)[i].expiresAt > now
  {
    WhereIsPart((e: Entry) => e.expiresAt > now, entries);
    forall i | 0 <= i < |Live(entries, now)| ensures Live(entries, now)[i].expiresAt > now {
      assert Live(entries, now)[i] in Live(entries, now);
    }
  }

  predicate BlankBefore(entries: seq<Entry>, n: int) {
    exists i :: 0 <= i < n && i < |entries| && entries[i].id == ""
  }

  lemma {:induction false} ExcessIsExact(entries: seq<Entry>)
    ensures var left := |entries| - Excess(entries);
      && (Excess(entries) > 0 ==> left >= LIMIT)
      && (left > LIMIT <==> BlankBefore(entries, |entries| - LIMIT))
  {
    if |entries| > LIMIT && entries[0].id != "" {
      var tail := entries[1..];
      ExcessIsExact(tail);
      assert forall i :: 0 < i < |entries| ==> entries[i] == tail[i - 1];
    }
  }

  lemma DeleteKeepsInv(s: State, id: string)
    requires Inv(s)
    ensures Inv(s.(entries := Delete(s.entries, id)))
    ensures forall e :: e in Delete(s.entries, id) <==> e in s.entries && e.id != id
    ensures |Delete(s.entries, id)| <= |s.entries|
  {
    WhereIsPart((e: Entry) => e.id != id, s.entries);
    WhereKeepsInv(s, (e: Entry) => e.id != id);
  }

  lemma LiveKeepsInv(s: State, now: int)
    requires Inv(s)
    ensures Inv(s.(entries := Live(s.entries, now)))
  {
    WhereKeepsInv(s, (e: Entry) => e.expiresAt > now);
  }

  /** A prefetch that begins a request puts it last, behind other videos' requests. */
  lemma BeginKeepsInv(live: State, id: string, now: int)
    requires Inv(live) && Find(live.entries, id) == |live.entries|
    ensures Inv(State(live.entries + [Entry(id, now + TTL, |live.begun|)], live.begun + [Begun(id, now)]))
  {
    var entries := live.entries + [Entry(id, now + TTL, |live.begun|)];
    var begun := live.begun + [Begun(id, now)];
    forall i | 0 <= i < |entries| ensures Genuine(begun, entries[i]) {
      if i < |live.entries| { assert Genuine(live.begun, live.entries[i]) && live.entries[i].id != id; }
    }
  }

  lemma TailKeepsInv(s: State, k: nat)
    requires Inv(s) && k <= |s.entries|
    ensures Inv(s.(entries := s.entries[k..]))
  {}

  /** The Map before a prefetch trims it. */
  function Filled(s: State, id: string, now: int): State {
    var live := Live(s.entries, now);
    if Find(live, id) < |live| then s.(entries := live)
    else State(live + [Entry(id, now + TTL, |s.begun|)], s.begun + [Begun(id, now)])
  }

  predicate Begins(s: State, id: string, now: int) {
    Find(Live(s.entries, now), id) == |Live(s.entries, now)|
  }

  lemma PrefetchTrims(kind: Kind, s: State, id: string, now: int)
    requires Inv(s)
    ensures var filled := Filled(s, id, now);
      && Inv(filled)
      && Step(kind, s, Prefetch(id, now)) ==
        if Begins(s, id, now) then filled.(entries := Trim(filled.entries)) else filled
  {
    LiveKeepsInv(s, now);
    var live := s.(entries := Live(s.entries, now));
    if Begins(s, id, now) { BeginKeepsInv(live, id, now); }
  }

  lemma {:induction false} RunKeepsInv(kind: Kind, run: seq<Event>)
    ensures Inv(After(kind, run))
  {
    if run != [] {
      RunKeepsInv(kind, run[..|run| - 1]);
      StepKeepsInv(kind, After(kind, run[..|run| - 1]), run[|run| - 1]);
    }
  }

  lemma StepKeepsInv(kind: Kind, s: State, e: Event)
    requires Inv(s)
    ensures Inv(Step(kind, s, e))
  {
    if e.Prefetch? {
      PrefetchTrims(kind, s, e.id, e.now);
      var filled := Filled(s, e.id, e.now);
      TailKeepsInv(filled, Excess(filled.entries));
    } else if e.Dropped? {
      if e.request < |s.begun| { DeleteKeepsInv(s, s.begun[e.request].id); }
    } else {
      DeleteKeepsInv(s, e.id);
    }
  }

  lemma AfterSnoc(kind: Kind, run: seq<Event>, e: Event)
    ensures After(kind, run + [e]) == Step(kind, After(kind, run), e)
  {
    assert (run + [e])[..|run|] == run;
  }

  lemma DroppedSparesOthers(kind: Kind, s: State, r: nat)
    requires Inv(s)
    ensures forall e :: e in Step(kind, s, Dropped(r)).entries <==> e in s.entries && e.request != r
  {
    if r < |s.begun| { DeleteKeepsInv(s, s.begun[r].id); }
    assert forall k :: 0 <= k < |s.entries| ==> Genuine(s.begun, s.entries[k]);
  }

  /** A request that comes to nothing takes away its own entry, if that is still there, and
      no other: never that of a newer request for the same video. */
  lemma SettlementSparesOthers(kind: Kind, run: seq<Event>, r: nat)
    ensures forall e ::
      e in After(kind, run + [Dropped(r)]).entries <==> e in After(kind, run).entries && e.request != r
  {
    RunKeepsInv(kind, run);
    AfterSnoc(kind, run, Dropped(r));
    DroppedSparesOthers(kind, After(kind, run), r);
  }

  // ----- Consuming ---------------------------------------------------------------------------

  function ResultAt(kind: Kind, run: seq<Event>, i: nat): Consumed
    requires i < |run|
  {
    var e := run[i];
    if e.Consume? then ConsumeResult(kind, After(kind, run[..i]), e.id, e.now, e.deleted) else Nothing
  }

  predicate Gone(s: State, r: nat) {
    r < |s.begun| && forall x :: x in s.entries ==> x.request != r
  }

  /** Nothing enters the Map but the request a step begins. */
  lemma EntriesComeFrom(kind: Kind, s: State, e: Event)
    requires Inv(s)
    ensures |s.begun| <= |Step(kind, s, e).begun|
    ensures !e.Prefetch? ==> |Step(kind, s, e).entries| <= |s.entries|
    ensures forall x :: x in Step(kind, s, e).entries ==>
      x in s.entries || (e.Prefetch? && x == Entry(e.id, e.now + TTL, |s.begun|))
  {
    if e.Prefetch? {
      PrefetchTrims(kind, s, e.id, e.now);
      LiveIsPart(s.entries, e.now);
      assert forall x :: x in Trim(Filled(s, e.id, e.now).entries) ==> x in Filled(s, e.id, e.now).entries;
    } else if e.Dropped? {
      if e.request < |s.begun| { DeleteKeepsInv(s, s.begun[e.request].id); }
    } else {
      DeleteKeepsInv(s, e.id);
    }
  }

  lemma ConsumptionTakes(kind: Kind, s: State, e: Event)
    requires Inv(s) && e.Consume? && ConsumeResult(kind, s, e.id, e.now, e.deleted).Handed?
    ensures Gone(Step(kind, s, e), ConsumeResult(kind, s, e.id, e.now, e.deleted).request)
  {
    var i := Find(s.entries, e.id);
    assert Genuine(s.begun, s.entries[i]);
    DeleteKeepsInv(s, e.id);
    forall x | x in s.entries && x.id != e.id ensures x.request != s.entries[i].request {
      var k :| 0 <= k < |s.entries| && s.entries[k] == x;
      assert Genuine(s.begun, s.entries[k]);
    }
  }

  lemma GoneStaysGone(kind: Kind, s: State, e: Event, r: nat)
    requires Inv(s) && Gone(s, r)
    ensures Gone(Step(kind, s, e), r)
  {
    EntriesComeFrom(kind, s, e);
  }

  lemma AfterPrefix(kind: Kind, run: seq<Event>, j: nat)
    requires 0 < j <= |run|
    ensures After(kind, run[..j]) == Step(kind, After(kind, run[..j - 1]), run[j - 1])
    ensures Inv(After(kind, run[..j - 1]))
  {
    assert run[..j][..j - 1] == run[..j - 1];
    RunKeepsInv(kind, run[..j - 1]);
  }

  lemma {:induction false} ConsumedIsGone(kind: Kind, run: seq<Event>, i: nat, j: nat, r: nat)
    requires i < j <= |run| && ResultAt(kind, run, i) == Handed(r)
    ensures Gone(After(kind, run[..j]), r)
    decreases j
  {
    AfterPrefix(kind, run, j);
    var s := After(kind, run[..j - 1]);
    if j == i + 1 {
      ConsumptionTakes(kind, s, run[i]);
    } else {
      ConsumedIsGone(kind, run, i, j - 1, r);
      GoneStaysGone(kind, s, run[j - 1], r);
    }
  }

  /** Over a whole run, no request is handed out by two consumptions. */
  lemma HandedOutAtMostOnce(kind: Kind, run: seq<Event>, i: nat, j: nat)
    requires i < j < |run| && ResultAt(kind, run, i).Handed?
    ensures ResultAt(kind, run, j) != ResultAt(kind, run, i)
  {
    ConsumedIsGone(kind, run, i, j, ResultAt(kind, run, i).request);
  }

  /** What is handed out was begun for the video asked for, within the time to live, and
      is the last request begun for it. */
  lemma HandedOutIsNewest(kind: Kind, run: seq<Event>, i: nat)
    requires i < |run| && ResultAt(kind, run, i).Handed?
    ensures var r, begun := ResultAt(kind, run, i).request, After(kind, run[..i]).begun;
      && r < |begun| && begun[r].id == run[i].id && begun[r].at > run[i].now - TTL
      && forall later :: r < later < |begun| ==> begun[later].id != run[i].id
  {
    RunKeepsInv(kind, run[..i]);
  }

  /** What a prefetch returns was begun for its video, is not too old, and is the last one
      begun for it: another request is sent exactly if the Map holds none that is live. */
  lemma PrefetchIsShared(kind: Kind, run: seq<Event>, id: string, now: int)
    ensures var s := After(kind, run);
      var r, begun := PrefetchResult(s, id, now), Step(kind, s, Prefetch(id, now)).begun;
      && r < |begun| && begun[r].id == id && begun[r].at > now - TTL
      && (forall later :: r < later < |begun| ==> begun[later].id != id)
      && (if exists e :: e in s.entries && e.id == id && e.expiresAt > now then begun == s.begun
          else begun == s.begun + [Begun(id, now)] && r == |s.begun|)
  {
    RunKeepsInv(kind, run);
    var s := After(kind, run);
    LiveKeepsInv(s, now);
    LiveIsPart(s.entries, now);
    var live := Live(s.entries, now);
    var i := Find(live, id);
    if i < |live| { assert live[i] in live && Genuine(s.begun, live[i]); }
    assert forall k :: 0 <= k < |live| ==> live[k] in live;
  }

  /** A consumption is served exactly from a live entry of its video. */
  lemma {:induction false} ConsumeExactly(kind: Kind, run: seq<Event>, id: string, now: int, deleted: bool, r: nat)
    ensures var s := After(kind, run);
      ConsumeResult(kind, s, id, now, deleted) == Handed(r) <==>
        && !(kind == Details && deleted)
        && exists e :: e in s.entries && e.id == id && e.request == r && e.expiresAt > now
  {
    RunKeepsInv(kind, run);
    var s := After(kind, run);
    var i := Find(s.entries, id);
    if i < |s.entries| { assert s.entries[i] in s.entries; }
    assert forall k :: 0 <= k < |s.entries| ==> Genuine(s.begun, s.entries[k]);
  }

  /** What was prefetched can be had for half a minute from when it was begun: consuming
      right after a prefetch hands out the very request the prefetch returned, and after
      that nothing more. */
  lemma {:induction false} PrefetchThenConsume(kind: Kind, run: seq<Event>, id: string, now: int, later: int)
    requires var s := After(kind, run);
      var r := PrefetchResult(s, id, now);
      later < (if r < |s.begun| then s.begun[r].at else now) + 30_000
    ensures var s := After(kind, run);
      var fetched := Step(kind, s, Prefetch(id, now));
      && ConsumeResult(kind, fetched, id, later, false) == Handed(PrefetchResult(s, id, now))
      && ConsumeResult(kind, Step(kind, fetched, Consume(id, later, false)), id, later, false) == Nothing
  {
    RunKeepsInv(kind, run);
    var s := After(kind, run);
    var fetched := Step(kind, s, Prefetch(id, now));
    StepKeepsInv(kind, s, Prefetch(id, now));
    StepBegins(kind, s, Prefetch(id, now));
    var e := PrefetchIsIn(kind, s, id, now);
    LiveEntryServes(kind, fetched, e, later);
  }

  lemma LiveEntryServes(kind: Kind, s: State, e: Entry, later: int)
    requires Inv(s) && e in s.entries && e.expiresAt > later
    ensures ConsumeResult(kind, s, e.id, later, false) == Handed(e.request)
    ensures ConsumeResult(kind, Step(kind, s, Consume(e.id, later, false)), e.id, later, false) == Nothing
  {
    assert forall k :: 0 <= k < |s.entries| ==> Genuine(s.begun, s.entries[k]);
    DeleteKeepsInv(s, e.id);
    var left := Delete(s.entries, e.id);
    assert forall k :: 0 <= k < |left| ==> left[k] in left;
  }

  lemma LastSurvives(entries: seq<Entry>)
    requires entries != []
    ensures entries[|entries| - 1] in Trim(entries)
  {
    ExcessIsExact(entries);
    assert Trim(entries)[|Trim(entries)| - 1] == entries[|entries| - 1];
  }

  /** What a prefetch returns is in the Map, with its time. */
  lemma PrefetchIsIn(kind: Kind, s: State, id: string, now: int) returns (e: Entry)
    requires Inv(s)
    ensures e in Step(kind, s, Prefetch(id, now)).entries && e.id == id && e.request == PrefetchResult(s, id, now)
    ensures e.expiresAt == (if e.request < |s.begun| then s.begun[e.request].at else now) + TTL
  {
    PrefetchTrims(kind, s, id, now);
    var live := Live(s.entries, now);
    var i := Find(live, id);
    if i < |live| {
      e := live[i];
      LiveIsPart(s.entries, now);
      assert e in s.entries;
      assert forall k :: 0 <= k < |s.entries| ==> Genuine(s.begun, s.entries[k]);
    } else {
      e := Entry(id, now + TTL, |s.begun|);
      LastSurvives(Filled(s, id, now).entries);
    }
  }

  /** A deleted video is forgotten: by the details alone, by the recommendations with
      everything else; and no detail of it is handed out. */
  lemma {:induction false} DeletionForgets(kind: Kind, run: seq<Event>, id: string, now: int)
    ensures var s, s' := After(kind, run), Step(kind, After(kind, run), Deleted(id));
      && (forall e :: e in s'.entries <==> e in s.entries && kind == Details && e.id != id)
      && ConsumeResult(kind, s', id, now, false) == Nothing
      && ConsumeResult(Details, s, id, now, true) == NoVideo
  {
    RunKeepsInv(kind, run);
    var s := After(kind, run);
    DeleteKeepsInv(s, id);
    var left := Delete(s.entries, id);
    assert forall k :: 0 <= k < |left| ==> left[k] in left;
  }

  // ----- Trimming ----------------------------------------------------------------------------

  /** The clock never goes back. */
  predicate ClockGoesOn(run: seq<Event>) {
    forall i, j :: 0 <= i < j < |run| && run[i].Prefetch? && run[j].Prefetch? ==> run[i].now <= run[j].now
  }

  predicate BegunBy(begun: seq<Begun>, now: int) {
    && (forall i, j :: 0 <= i < j < |begun| ==> begun[i].at <= begun[j].at)
    && (forall i :: 0 <= i < |begun| ==> begun[i].at <= now)
  }

  lemma StepBegins(kind: Kind, s: State, e: Event)
    ensures Step(kind, s, e).begun == s.begun
      || (e.Prefetch? && Step(kind, s, e).begun == s.begun + [Begun(e.id, e.now)])
  {}

  lemma {:induction false} BegunInOrder(kind: Kind, run: seq<Event>, now: int)
    requires ClockGoesOn(run) && forall i :: 0 <= i < |run| && run[i].Prefetch? ==> run[i].now <= now
    ensures BegunBy(After(kind, run).begun, now)
  {
    if run != [] {
      var front, e := run[..|run| - 1], run[|run| - 1];
      BegunInOrder(kind, front, if e.Prefetch? then e.now else now);
      StepBegins(kind, After(kind, front), e);
    }
  }

  predicate ExpiryOrder(entries: seq<Entry>) {
    forall i, j :: 0 <= i < j < |entries| ==> entries[i].expiresAt <= entries[j].expiresAt
  }

  /** While the clock does not go back, the Map's order is the order of expiry. */
  lemma {:induction false} MapOrderIsExpiryOrder(kind: Kind, run: seq<Event>, now: int)
    requires ClockGoesOn(run) && forall i :: 0 <= i < |run| && run[i].Prefetch? ==> run[i].now <= now
    ensures ExpiryOrder(After(kind, run).entries)
  {
    RunKeepsInv(kind, run);
    BegunInOrder(kind, run, now);
    var s := After(kind, run);
    assert forall i :: 0 <= i < |s.entries| ==> Genuine(s.begun, s.entries[i]);
  }

  lemma {:induction false} WhereKeepsExpiryOrder(keep: Entry -> bool, entries: seq<Entry>)
    requires ExpiryOrder(entries)
    ensures ExpiryOrder(Where(keep, entries))
  {
    if entries != [] {
      assert ExpiryOrder(entries[1..]);
      WhereKeepsExpiryOrder(keep, entries[1..]);
      WhereIsPart(keep, entries[1..]);
      var rest := Where(keep, entries[1..]);
      forall i | 0 <= i < |rest| ensures entries[0].expiresAt <= rest[i].expiresAt {
        assert rest[i] in entries[1..];
      }
    }
  }

  lemma DroppedGoFirst(all: seq<Entry>, k: nat, dropped: Entry, kept: Entry)
    requires ExpiryOrder(all) && k <= |all|
    requires dropped in all && dropped !in all[k..] && kept in all[k..]
    ensures k > 0 && dropped.expiresAt <= kept.expiresAt
  {
    var i :| 0 <= i < |all| && all[i] == dropped;
    var j :| 0 <= j < |all[k..]| && all[k..][j] == kept;
    assert all[k + j] == kept && forall m :: k <= m < |all| ==> all[k..][m - k] == all[m];
  }

  lemma FilledInExpiryOrder(s: State, id: string, now: int)
    requires ExpiryOrder(s.entries) && forall e :: e in s.entries ==> e.expiresAt <= now + TTL
    ensures ExpiryOrder(Filled(s, id, now).entries)
    ensures forall e :: e in s.entries && e.expiresAt > now ==> e in Filled(s, id, now).entries
  {
    LiveIsPart(s.entries, now);
    WhereKeepsExpiryOrder((e: Entry) => e.expiresAt > now, s.entries);
    var live := Live(s.entries, now);
    assert forall i :: 0 <= i < |live| ==> live[i] in s.entries;
    if Begins(s, id, now) {
      assert Filled(s, id, now).entries == live + [Entry(id, now + TTL, |s.begun|)];
    }
  }

  /** So what trimming drops is live, and expires no later than anything it keeps. */
  lemma TrimDropsTheEarliest(kind: Kind, run: seq<Event>, id: string, now: int, dropped: Entry, kept: Entry)
    requires ClockGoesOn(run + [Prefetch(id, now)])
    requires dropped in After(kind, run).entries && dropped.expiresAt > now
    requires dropped !in After(kind, run + [Prefetch(id, now)]).entries
    requires kept in After(kind, run + [Prefetch(id, now)]).entries
    ensures dropped.expiresAt <= kept.expiresAt
    ensures |After(kind, run + [Prefetch(id, now)]).entries| >= 20
  {
    var run' := run + [Prefetch(id, now)];
    assert forall i :: 0 <= i < |run| ==> run[i] == run'[i];
    assert run'[|run|] == Prefetch(id, now);
    AfterSnoc(kind, run, Prefetch(id, now));
    RunKeepsInv(kind, run);
    MapOrderIsExpiryOrder(kind, run, now);
    ExpiresLast(kind, run, now);
    var s := After(kind, run);
    FilledInExpiryOrder(s, id, now);
    PrefetchTrims(kind, s, id, now);
    var filled := Filled(s, id, now).entries;
    ExcessIsExact(filled);
    DroppedGoFirst(filled, if Begins(s, id, now) then Excess(filled) else 0, dropped, kept);
  }

  lemma ExpiresLast(kind: Kind, run: seq<Event>, now: int)
    requires ClockGoesOn(run) && forall i :: 0 <= i < |run| && run[i].Prefetch? ==> run[i].now <= now
    ensures forall e :: e in After(kind, run).entries ==> e.expiresAt <= now + TTL
  {
    RunKeepsInv(kind, run);
    BegunInOrder(kind, run, now);
    var s := After(kind, run);
    assert forall i :: 0 <= i < |s.entries| ==> Genuine(s.begun, s.entries[i]);
  }

  /** A Map within its limit leaves it with a prefetch exactly when the oldest of twenty
      live entries has an empty id. */
  lemma {:induction false} LimitBreaks(kind: Kind, s: State, id: string, now: int)
    requires Inv(s) && |Live(s.entries, now)| <= LIMIT
    ensures var live := Live(s.entries, now);
      var breaks := Begins(s, id, now) && |live| == LIMIT && live[0].id == "";
      |Step(kind, s, Prefetch(id, now)).entries| > LIMIT <==> breaks
  {
    PrefetchTrims(kind, s, id, now);
    var filled := Filled(s, id, now).entries;
    ExcessIsExact(filled);
    assert |filled| <= LIMIT + 1 && (|filled| > LIMIT ==> filled[0] == Live(s.entries, now)[0]);
  }

  predicate Named(run: seq<Event>) {
    forall i :: 0 <= i < |run| && run[i].Prefetch? ==> run[i].id != ""
  }

  predicate Within(s: State) {
    |s.entries| <= 20 && forall x :: x in s.entries ==> x.id != ""
  }

  lemma NamedStepStaysWithin(kind: Kind, s: State, e: Event)
    requires Inv(s) && Within(s) && (e.Prefetch? ==> e.id != "")
    ensures Within(Step(kind, s, e))
  {
    EntriesComeFrom(kind, s, e);
    if e.Prefetch? {
      LiveIsPart(s.entries, e.now);
      LimitBreaks(kind, s, e.id, e.now);
      var live := Live(s.entries, e.now);
      assert live != [] ==> live[0] in s.entries;
    }
  }

  /** Without empty ids the limit holds throughout. */
  lemma {:induction false} NamedRunsStayWithin(kind: Kind, run: seq<Event>)
    requires Named(run)
    ensures Within(After(kind, run))
  {
    if run != [] {
      NamedRunsStayWithin(kind, run[..|run| - 1]);
      RunKeepsInv(kind, run[..|run| - 1]);
      NamedStepStaysWithin(kind, After(kind, run[..|run| - 1]), run[|run| - 1]);
    }
  }

  /** An empty id prefetched first, then `n` others at the same moment. */
  function Flood(n: nat): seq<Event> {
    if n == 0 then [Prefetch("", 0)] else Flood(n - 1) + [Prefetch(seq(n, _ => 'v'), 0)]
  }

  predicate Flooded(s: State, n: nat) {
    && |s.entries| == n + 1 && s.entries[0].id == ""
    && forall x :: x in s.entries ==> |x.id| <= n && x.expiresAt == TTL
  }

  lemma FloodStep(kind: Kind, s: State, n: nat)
    requires n > 0 && Flooded(s, n - 1) && Inv(s)
    ensures Flooded(Step(kind, s, Prefetch(seq(n, _ => 'v'), 0)), n)
  {
    var id := seq(n, _ => 'v');
    WhereAll((e: Entry) => e.expiresAt > 0, s.entries);
    assert forall i :: 0 <= i < |s.entries| ==> s.entries[i] in s.entries && s.entries[i].id != id;
    PrefetchTrims(kind, s, id, 0);
    var filled := Filled(s, id, 0).entries;
    assert filled == s.entries + [Entry(id, TTL, |s.begun|)];
    assert filled[0] == s.entries[0] && Excess(filled) == 0;
  }

  lemma FloodStarts(kind: Kind)
    ensures Flooded(After(kind, Flood(0)), 0)
  {
    var s := Initial();
    AfterSnoc(kind, [], Prefetch("", 0));
    assert Flood(0) == [] + [Prefetch("", 0)] && After(kind, []) == s;
    PrefetchTrims(kind, s, "", 0);
    var filled := Filled(s, "", 0).entries;
    assert filled == [Entry("", TTL, 0)] && Excess(filled) == 0;
  }

  /** With an empty id in front the Map grows without bound. */
  lemma {:induction false} FloodIsKept(kind: Kind, n: nat)
    ensures Flooded(After(kind, Flood(n)), n)
  {
    if n == 0 {
      FloodStarts(kind);
    } else {
      FloodIsKept(kind, n - 1);
      AfterSnoc(kind, Flood(n - 1), Prefetch(seq(n, _ => 'v'), 0));
      RunKeepsInv(kind, Flood(n - 1));
      FloodStep(kind, After(kind, Flood(n - 1)), n);
    }
  }

  lemma {:induction false} WhereAll(keep: Entry -> bool, entries: seq<Entry>)
    requires forall x :: x in entries ==> keep(x)
    ensures Where(keep, entries) == entries
  {
    if entries != [] { WhereAll(keep, entries[1..]); }
  }
}
