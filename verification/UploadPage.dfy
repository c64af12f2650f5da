/** The upload page as the cells it keeps: two state flags, three references, and the local
    variables of the upload handlers suspended at an `await`. */
module UploadPage {
  import opened Wrappers
  import U = ChunkedUpload
  import P = UploadProtocol

  class UploadPage {
    var uploading: bool
    var finalizing: bool
    var pauseRequested: bool
    var uploadAbort: Option<nat>
    var uploadHashAbort: Option<nat>
    var runs: map<nat, P.Run>
    var next: nat
    ghost var finals: map<nat, P.Run>
    ghost var run: seq<P.Event>

    ghost function Model(): P.State
      reads this
    {
      P.State(uploading, finalizing, pauseRequested, uploadAbort, uploadHashAbort, runs, next, finals)
    }

    /** The page is where the protocol is after the events it has seen. */
    ghost predicate Valid()
      reads this
    {
      Model() == P.RunFrom(P.Initial(), run)
    }

    constructor ()
      ensures Valid() && run == []
    {
      uploading, finalizing, pauseRequested, uploadAbort, uploadHashAbort := false, false, false, None, None;
      runs, next, finals, run := map[], 0, map[], [];
    }

    /** Notes the event about to be handled; the handler then catches up with it. */
    ghost method Observe(e: P.Event)
      requires Valid()
      modifies this`run
      ensures run == old(run) + [e]
      ensures P.RunFrom(P.Initial(), run) == P.Step(Model(), e)
    {
      P.RunSnoc(P.Initial(), run, e);
      run := run + [e];
    }

    // ----- The handler, from one await to the next ---------------------------------------

    /** The `finally` block. */
    method Return(r: nat)
      modifies this`runs, this`uploading, this`finalizing, this`uploadAbort, this`uploadHashAbort
      ensures Model() == P.End(old(Model()), r)
    {
      if uploadHashAbort == Some(r) { uploadHashAbort := None; }
      uploadAbort := None;
      uploading := false;
      finalizing := false;
      runs := runs - {r};
    }

    method BeginPut(r: nat, local: P.Run, index: nat, attempt: nat)
      modifies this`runs, this`uploading, this`finalizing, this`uploadAbort, this`uploadHashAbort
      ensures Model() == P.Apply(old(Model()), r, P.BeginPut(old(pauseRequested), local, index, attempt))
    {
      if pauseRequested {
        Return(r);
      } else {
        uploadAbort := Some(r);
        runs := runs[r := local.(phase := P.Putting(index, attempt, false))];
      }
    }

    method AwaitHash(r: nat, local: P.Run)
      modifies this`runs, this`uploading, this`finalizing, this`uploadAbort, this`uploadHashAbort, this`finals
      ensures Model() == P.Apply(old(Model()), r, P.AwaitHash(old(pauseRequested), local))
    {
      if local.hash.Pending? {
        runs := runs[r := local.(phase := P.Hashing)];
      } else if local.hash.Lost? || pauseRequested {
        Return(r);
      } else {
        finalizing := true;
        runs := runs[r := local.(phase := P.Finalizing)];
        finals := finals[r := local.(phase := P.Finalizing)];
      }
    }

    /** The chunk loop, entered at index `i`. */
    method Continue(r: nat, local: P.Run, i: nat)
      requires i <= local.total
      modifies this`runs, this`uploading, this`finalizing, this`uploadAbort, this`uploadHashAbort, this`finals
      ensures Model() == P.Apply(old(Model()), r, P.Continue(old(pauseRequested), local, i))
    {
      var index := i;
      while index < local.total && index in local.received
        invariant i <= index <= local.total
        invariant P.NextChunk(local, i) == P.NextChunk(local, index)
        decreases local.total - index
      {
        index := index + 1;
      }
      if index < local.total { BeginPut(r, local, index, 0); } else { AwaitHash(r, local); }
    }

    // ----- What settles ------------------------------------------------------------------

    method SessionSettles(r: nat, session: Option<P.Session>)
      requires Valid() && r in runs && runs[r].phase.Opening?
      modifies this
      ensures Valid() && run == old(run) + [P.SessionSettles(r, session)]
    {
      Observe(P.SessionSettles(r, session));
      if session.None? {
        Return(r);
      } else {
        Continue(r, runs[r].(total := session.value.total, received := session.value.received), 0);
      }
    }

    method PutSettles(r: nat, ok: bool)
      requires Valid() && r in runs && runs[r].phase.Putting?
      modifies this
      ensures Valid() && run == old(run) + [P.PutSettles(r, ok)]
    {
      P.RunKeepsInv(P.Initial(), run);
      Observe(P.PutSettles(r, ok));
      PutAnswered(r, ok);
    }

    method PutAnswered(r: nat, ok: bool)
      requires r in runs && runs[r].phase.Putting? && runs[r].phase.index < runs[r].total
      modifies this`runs, this`uploading, this`finalizing, this`uploadAbort, this`uploadHashAbort, this`finals
      ensures Model() == P.Step(old(Model()), P.PutSettles(r, ok))
    {
      var local := runs[r];
      var put := local.phase;
      if ok && !put.aborted {
        Continue(r, local.(acked := local.acked + {put.index}), put.index + 1);
      } else if pauseRequested || put.aborted || put.attempt + 1 >= U.MAX_ATTEMPTS {
        Return(r);
      } else {
        runs := runs[r := local.(phase := P.Sleeping(put.index, put.attempt))];
      }
    }

    method DelayEnds(r: nat)
      requires Valid() && r in runs && runs[r].phase.Sleeping?
      modifies this
      ensures Valid() && run == old(run) + [P.DelayEnds(r)]
    {
      Observe(P.DelayEnds(r));
      BeginPut(r, runs[r], runs[r].phase.index, runs[r].phase.attempt + 1);
    }

    method HashSettles(r: nat, ok: bool)
      requires Valid() && r in runs && runs[r].hash.Pending?
      modifies this
      ensures Valid() && run == old(run) + [P.HashSettles(r, ok)]
    {
      Observe(P.HashSettles(r, ok));
      var settled := runs[r].(hash := if ok && !runs[r].hash.aborted then P.Ready else P.Lost);
      if runs[r].phase.Hashing? { AwaitHash(r, settled); } else { runs := runs[r := settled]; }
    }

    method FinalizeSettles(r: nat)
      requires Valid() && r in runs && runs[r].phase.Finalizing?
      modifies this
      ensures Valid() && run == old(run) + [P.FinalizeSettles(r)]
    {
      Observe(P.FinalizeSettles(r));
      Return(r);
    }

    // ----- What the user does --------------------------------------------------------------

    method HandleUpload()
      requires Valid()
      modifies this
      ensures Valid() && run == old(run) + [P.Start]
    {
      Observe(P.Start);
      if uploading || finalizing { return; }
      uploading := true;
      pauseRequested := false;
      uploadHashAbort := Some(next);
      runs := runs[next := P.Run(P.Opening, P.Pending(false), 0, {}, {})];
      next := next + 1;
    }

    /** Raises the flag and aborts what the two references hold. */
    method Interrupt()
      modifies this`pauseRequested, this`runs
      ensures Model() == P.Interrupt(old(Model()))
    {
      pauseRequested := true;
      if uploadAbort.Some? && uploadAbort.value in runs {
        var r := uploadAbort.value;
        runs := runs[r := P.Interrupted(runs[r], true, false)];
      }
      if uploadHashAbort.Some? && uploadHashAbort.value in runs {
        var r := uploadHashAbort.value;
        runs := runs[r := P.Interrupted(runs[r], false, true)];
      }
      assert runs == P.Interrupt(old(Model())).runs;
    }

    method HandlePause()
      requires Valid()
      modifies this
      ensures Valid() && run == old(run) + [P.Pause]
    {
      Observe(P.Pause);
      Interrupt();
      uploading := false;
    }

    /** `shown` says whether an upload is shown that could be cancelled. */
    method HandleCancelUpload(shown: bool)
      requires Valid()
      modifies this
      ensures Valid() && run == if shown then old(run) + [P.Cancel] else old(run)
      ensures !shown ==> unchanged(this)
    {
      if !shown { return; }
      Observe(P.Cancel);
      Interrupt();
    }
  }
}
