/** Held-arrow seeking as a state machine.  The player's duration and current time
    belong to the environment and come with each event; `duration` is None when the
    media reports none that is finite and positive. */
module SeekProtocol {
  import opened Wrappers

  const STEP: real := 15.0

  datatype Key = ArrowLeft | ArrowRight

  function Delta(key: Key): real { if key == ArrowLeft then -STEP else STEP }

  function Clamp(n: real, min: real, max: real): real {
    if n < min then min else if n > max then max else n
  }

  type Duration = d: Option<real> | d.Some? ==> d.value > 0.0 witness None

  /** A committed seek; `base` and `presses` say which burst it ends. */
  datatype Seek = Seek(base: real, presses: seq<Key>, target: real)

  /** `base`, `presses`, `starts`, `abandoned` and `seeks` are history. */
  datatype State = State(
    bound: bool,
    target: Option<real>,
    timer: bool,
    held: set<Key>,
    base: real,
    presses: seq<Key>,
    starts: nat,
    abandoned: nat,
    seeks: seq<Seek>)

  function Bind(): State { State(true, None, false, {}, 0.0, [], 0, 0, []) }

  datatype Event =
    | Press(key: Key, duration: Duration, currentTime: real)
    | Release(key: Key, duration: Duration)
    | Interrupt(duration: Duration)
    | TimeUpdate(duration: Duration)
    | IdleTimer(duration: Duration)
    | Unbind

  function InRange(target: real, duration: Duration): real {
    if duration.Some? then Clamp(target, 0.0, duration.value) else target
  }

  function Preview(s: State, key: Key, duration: Duration, currentTime: real): State {
    if duration.None? then s
    else
      s.(held := s.held + {key},
         target := Some(Clamp(s.target.GetOr(currentTime) + Delta(key), 0.0, duration.value)),
         timer := true,
         base := if s.target.None? then currentTime else s.base,
         presses := (if s.target.None? then [] else s.presses) + [key],
         starts := s.starts + if s.target.None? then 1 else 0)
  }

  function Commit(s: State, duration: Duration): State {
    if s.target.None? then s
    else
      s.(target := None, timer := false, held := {},
         seeks := s.seeks + [Seek(s.base, s.presses, InRange(s.target.value, duration))])
  }

  function Step(s: State, e: Event): State {
    if !s.bound then s
    else
      match e
      case Press(key, duration, currentTime) => Preview(s, key, duration, currentTime)
      case Release(key, duration) =>
        if s.target.None? then s
        else
          var released := s.(held := s.held - {key});
          if released.held == {} then Commit(released, duration) else released
      case Interrupt(duration) => Commit(s, duration)
      case TimeUpdate(duration) =>
        if s.target.Some? then s.(target := Some(InRange(s.target.value, duration))) else s
      case IdleTimer(duration) => if s.timer then Commit(s.(timer := false), duration) else s
      case Unbind =>
        s.(bound := false, timer := false, target := None, held := {},
           abandoned := s.abandoned + if s.target.Some? then 1 else 0)
  }

  function RunFrom(s: State, es: seq<Event>): State {
    if es == [] then s else Step(RunFrom(s, es[..|es| - 1]), es[|es| - 1])
  }

  predicate Inv(s: State) {
    && (s.target.Some? <==> s.timer)
    && (s.target.Some? <==> s.held != {})
    && (!s.bound ==> s.target.None?)
    && s.starts == |s.seeks| + s.abandoned + (if s.target.Some? then 1 else 0)
    && s.abandoned <= (if s.bound then 0 else 1)
    && (s.target.Some? ==> s.presses != [])
    && (forall seek :: seek in s.seeks ==> seek.presses != [])
  }

  lemma StepKeepsInv(s: State, e: Event)
    requires Inv(s)
    ensures Inv(Step(s, e))
  {
    if e.Press? && e.duration.Some? && s.bound { assert e.key in Step(s, e).held; }
  }

  /** In every reachable state a target is set exactly while keys are held, exactly
      while the idle timer is pending.  Every burst of presses ends in exactly one
      seek, except one that unbinding abandons. */
  lemma {:induction false} BurstsCommitOnce(es: seq<Event>)
    ensures var s := RunFrom(Bind(), es);
      && (s.target.Some? <==> s.timer) && (s.target.Some? <==> s.held != {})
      && s.starts == |s.seeks| + s.abandoned + (if s.target.Some? then 1 else 0)
      && s.abandoned <= (if s.bound then 0 else 1)
      && (forall seek :: seek in s.seeks ==> seek.presses != [])
      && Inv(s)
  {
    if es != [] {
      BurstsCommitOnce(es[..|es| - 1]);
      StepKeepsInv(RunFrom(Bind(), es[..|es| - 1]), es[|es| - 1]);
    }
  }

  // ----- A fixed duration ------------------------------------------------------------

  /** The saturating sum of the presses. */
  function Sum(base: real, presses: seq<Key>, duration: real): real {
    if presses == [] then base
    else Clamp(Sum(base, presses[..|presses| - 1], duration) + Delta(presses[|presses| - 1]), 0.0, duration)
  }

  predicate At(e: Event, duration: real) {
    duration > 0.0 && !e.Unbind? ==> e.duration == Some(duration)
  }

  predicate Exact(s: State, duration: real) {
    && (s.target.Some? ==> s.presses != [] && s.target == Some(Sum(s.base, s.presses, duration)))
    && (forall seek :: seek in s.seeks ==>
          seek.presses != [] && seek.target == Sum(seek.base, seek.presses, duration) && 0.0 <= seek.target <= duration)
  }

  lemma SumInRange(base: real, presses: seq<Key>, duration: real)
    requires presses != [] && duration > 0.0
    ensures 0.0 <= Sum(base, presses, duration) <= duration
  {}

  lemma StepKeepsExact(s: State, e: Event, duration: real)
    requires Exact(s, duration) && duration > 0.0 && At(e, duration)
    ensures Exact(Step(s, e), duration)
  {
    var s' := Step(s, e);
    if s.target.Some? { SumInRange(s.base, s.presses, duration); }
    if e.Press? && s.bound {
      assert s'.presses[..|s'.presses| - 1] == (if s.target.None? then [] else s.presses);
    }
  }

  /** With a fixed duration every committed seek is the saturating sum of its burst's
      presses from the time the burst began at, and lies within the media. */
  lemma {:induction false} SeeksAreSums(es: seq<Event>, duration: real)
    requires duration > 0.0 && forall e :: e in es ==> At(e, duration)
    ensures forall seek :: seek in RunFrom(Bind(), es).seeks ==>
      seek.presses != [] && seek.target == Sum(seek.base, seek.presses, duration) && 0.0 <= seek.target <= duration
    ensures Exact(RunFrom(Bind(), es), duration)
  {
    if es != [] {
      SeeksAreSums(es[..|es| - 1], duration);
      StepKeepsExact(RunFrom(Bind(), es[..|es| - 1]), es[|es| - 1], duration);
    }
  }

  // ----- What each key does ------------------------------------------------------------------

  /** How often a key was pressed. */
  function Presses(presses: seq<Key>, key: Key): nat {
    if presses == [] then 0
    else Presses(presses[..|presses| - 1], key) + if presses[|presses| - 1] == key then 1 else 0
  }

  /** No press of the burst runs into either end of the media. */
  predicate NeverClamped(base: real, presses: seq<Key>, duration: real) {
    presses == [] ||
    (var front := presses[..|presses| - 1];
     && NeverClamped(base, front, duration)
     && 0.0 <= Sum(base, front, duration) + Delta(presses[|presses| - 1]) <= duration)
  }

  /** Away from the ends a burst seeks fifteen seconds ahead for each press of the right
      arrow and fifteen back for each press of the left. */
  lemma {:induction false} FifteenSecondsEach(base: real, presses: seq<Key>, duration: real)
    requires NeverClamped(base, presses, duration)
    ensures Sum(base, presses, duration)
      == base + 15.0 * (Presses(presses, ArrowRight) as real) - 15.0 * (Presses(presses, ArrowLeft) as real)
  {
    if presses != [] { FifteenSecondsEach(base, presses[..|presses| - 1], duration); }
  }

  /** A single press, from wherever the playing or the burst is, within the media. */
  lemma PressAims(s: State, key: Key, d: real, currentTime: real)
    requires s.bound && d > 0.0
    ensures var from := s.target.GetOr(currentTime);
      var s' := Step(s, Press(key, Some(d), currentTime));
      && s'.target == Some(Clamp(if key == ArrowRight then from + 15.0 else from - 15.0, 0.0, d))
      && s'.held == s.held + {key} && s'.timer && s'.seeks == s.seeks
    ensures Step(s, Press(key, None, currentTime)) == s
  {}

  /** One more seek, to the target within what is then known of the media, and all is quiet. */
  predicate Commits(s: State, s': State, duration: Duration)
    requires s.target.Some?
  {
    && s'.seeks == s.seeks + [Seek(s.base, s.presses,
         if duration.Some? then Clamp(s.target.value, 0.0, duration.value) else s.target.value)]
    && s'.target.None? && !s'.timer && s'.held == {}
  }

  /** In every reachable state with a target: letting go of the last key, the idle timer,
      and every interruption commit it; letting go of one of two keys does not, and neither
      does the player's clock, which only keeps the target within the media. */
  lemma {:induction false} WhatCommits(es: seq<Event>, key: Key, duration: Duration)
    requires RunFrom(Bind(), es).target.Some?
    ensures var s := RunFrom(Bind(), es);
      && Commits(s, Step(s, Interrupt(duration)), duration)
      && Commits(s, Step(s, IdleTimer(duration)), duration)
      && (if s.held - {key} == {} then Commits(s, Step(s, Release(key, duration)), duration)
          else Step(s, Release(key, duration)) == s.(held := s.held - {key}))
      && Step(s, TimeUpdate(duration)) == s.(target := Some(
           if duration.Some? then Clamp(s.target.value, 0.0, duration.value) else s.target.value))
  {
    BurstsCommitOnce(es);
  }

  /** Without a target only a press does anything, and after unbinding nothing does. */
  lemma {:induction false} QuietOtherwise(es: seq<Event>, e: Event)
    ensures var s := RunFrom(Bind(), es);
      && (s.target.None? && !e.Press? && !e.Unbind? ==> Step(s, e) == s)
      && (!s.bound ==> Step(s, e) == s)
      && (s.bound && e.Unbind? ==> !Step(s, e).bound && Step(s, e).target.None? && Step(s, e).seeks == s.seeks)
  {
    BurstsCommitOnce(es);
  }
}
