/** The closure behind the player's arrow keys: its three variables, reassigned by
    the handlers it installs. */
module KeyboardSeek {
  import opened Wrappers
  import P = SeekProtocol

  class KeyboardSeek {
    var bound: bool
    var keyboardSeekTarget: Option<real>
    var keyboardSeekIdleTimer: bool
    var heldSeekKeys: set<P.Key>
    ghost var base: real
    ghost var presses: seq<P.Key>
    ghost var starts: nat
    ghost var abandoned: nat
    ghost var seeks: seq<P.Seek>
    ghost var run: seq<P.Event>

    ghost function Model(): P.State
      reads this
    {
      P.State(bound, keyboardSeekTarget, keyboardSeekIdleTimer, heldSeekKeys, base, presses, starts, abandoned, seeks)
    }

    ghost predicate Valid()
      reads this
    {
      Model() == P.RunFrom(P.Bind(), run)
    }

    constructor ()
      ensures Valid() && run == []
    {
      bound, keyboardSeekTarget, keyboardSeekIdleTimer, heldSeekKeys := true, None, false, {};
      base, presses, starts, abandoned, seeks, run := 0.0, [], 0, 0, [], [];
    }

    /** The player is sent exactly the seek that is now on record beyond `before`, if any. */
    ghost predicate Sought(before: seq<P.Seek>, seek: Option<real>)
      reads this
    {
      if seek.None? then seeks == before
      else |seeks| == |before| + 1 && seeks[..|before|] == before && seeks[|before|].target == seek.value
    }

    /** Notes the event about to be handled; the handler then catches up with it. */
    ghost method Observe(e: P.Event)
      requires Valid()
      modifies this`run
      ensures run == old(run) + [e]
      ensures P.RunFrom(P.Bind(), run) == P.Step(Model(), e)
    {
      run := run + [e];
      assert run[..|run| - 1] == old(run);
    }

    method Preview(key: P.Key, duration: P.Duration, currentTime: real)
      requires Valid() && bound
      modifies this
      ensures Valid() && run == old(run) + [P.Press(key, duration, currentTime)]
    {
      Observe(P.Press(key, duration, currentTime));
      Aim(key, duration, currentTime);
    }

    method Aim(key: P.Key, duration: P.Duration, currentTime: real)
      modifies this`keyboardSeekTarget, this`keyboardSeekIdleTimer, this`heldSeekKeys
      modifies this`base, this`presses, this`starts
      ensures Model() == P.Preview(old(Model()), key, duration, currentTime)
    {
      if duration.None? { return; }
      heldSeekKeys := heldSeekKeys + {key};
      if keyboardSeekTarget.None? {
        base, presses, starts := currentTime, [], starts + 1;
      }
      presses := presses + [key];
      var baseTime := if keyboardSeekTarget.Some? then keyboardSeekTarget.value else currentTime;
      keyboardSeekTarget := Some(P.Clamp(baseTime + P.Delta(key), 0.0, duration.value));
      keyboardSeekIdleTimer := true;
    }

    /** Ends the burst: the seek goes to the player. */
    method Commit(duration: P.Duration) returns (seek: Option<real>)
      modifies this`keyboardSeekTarget, this`keyboardSeekIdleTimer, this`heldSeekKeys, this`seeks
      ensures Model() == P.Commit(old(Model()), duration)
      ensures seek == if old(keyboardSeekTarget).None? then None
                      else Some(P.InRange(old(keyboardSeekTarget).value, duration))
    {
      if keyboardSeekTarget.None? { return None; }
      keyboardSeekIdleTimer := false;
      var target := if duration.Some? then P.Clamp(keyboardSeekTarget.value, 0.0, duration.value)
                    else keyboardSeekTarget.value;
      keyboardSeekTarget := None;
      heldSeekKeys := {};
      seeks := seeks + [P.Seek(base, presses, target)];
      return Some(target);
    }

    method KeyUp(key: P.Key, duration: P.Duration) returns (seek: Option<real>)
      requires Valid() && bound
      modifies this
      ensures Valid() && run == old(run) + [P.Release(key, duration)]
      ensures Sought(old(seeks), seek)
    {
      Observe(P.Release(key, duration));
      if keyboardSeekTarget.None? { return None; }
      seek := None;
      heldSeekKeys := heldSeekKeys - {key};
      if heldSeekKeys == {} { seek := Commit(duration); }
    }

    /** Escape, space, volume keys, blur and a hidden document commit at once. */
    method Interrupt(duration: P.Duration) returns (seek: Option<real>)
      requires Valid() && bound
      modifies this
      ensures Valid() && run == old(run) + [P.Interrupt(duration)]
      ensures Sought(old(seeks), seek)
    {
      Observe(P.Interrupt(duration));
      seek := Commit(duration);
    }

    method TimeUpdate(duration: P.Duration)
      requires Valid() && bound
      modifies this
      ensures Valid() && run == old(run) + [P.TimeUpdate(duration)]
    {
      Observe(P.TimeUpdate(duration));
      if keyboardSeekTarget.Some? && duration.Some? {
        keyboardSeekTarget := Some(P.Clamp(keyboardSeekTarget.value, 0.0, duration.value));
      }
    }

    method IdleTimerFires(duration: P.Duration) returns (seek: Option<real>)
      requires Valid() && bound && keyboardSeekIdleTimer
      modifies this
      ensures Valid() && run == old(run) + [P.IdleTimer(duration)]
      ensures Sought(old(seeks), seek)
    {
      Observe(P.IdleTimer(duration));
      keyboardSeekIdleTimer := false;
      seek := Commit(duration);
    }

    method Unbind()
      requires Valid() && bound
      modifies this
      ensures Valid() && run == old(run) + [P.Unbind]
    {
      Observe(P.Unbind);
      Clear();
    }

    method Clear()
      modifies this`bound, this`keyboardSeekTarget, this`keyboardSeekIdleTimer, this`heldSeekKeys, this`abandoned
      ensures bound == false && keyboardSeekTarget == None && keyboardSeekIdleTimer == false && heldSeekKeys == {}
      ensures abandoned == old(abandoned) + if old(keyboardSeekTarget).Some? then 1 else 0
    {
      if keyboardSeekTarget.Some? { abandoned := abandoned + 1; }
      bound := false;
      keyboardSeekIdleTimer := false;
      keyboardSeekTarget := None;
      heldSeekKeys := {};
    }
  }
}
