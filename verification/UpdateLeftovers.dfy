/** What a `checking` or `updating` that is still in `state.json` says. */
module UpdateLeftovers {
  import opened Common
  import opened UpdateHelper
  import opened UpdateSafety
  import opened UpdateStateFile
  import opened UpdateStatus

  lemma {:induction false} LastPublication(log: seq<Event>) returns (i: nat)
    requires AllPublished(log) != []
    ensures i < |log| && log[i].Published? && forall j :: i < j < |log| ==> !log[j].Published?
    ensures log[i].payload == AllPublished(log)[|AllPublished(log)| - 1]
  {
    var n := |log| - 1;
    if log[n].Published? {
      i := n;
    } else {
      i := LastPublication(log[..n]);
    }
  }

  lemma {:induction false} LastOfItsRun(log: seq<Event>, i: nat)
    requires i < |log| && log[i].Published? && forall j :: i < j < |log| ==> !log[j].Published?
    ensures var ps := By(log, log[i].run); ps != [] && ps[|ps| - 1] == log[i].payload
  {
    var n := |log| - 1;
    if i < n {
      LastOfItsRun(log[..n], i);
    }
  }

  /** The payload published last, if it promises another one, belongs to a run that was cut short. */
  lemma LastWasCutShort(w: World) returns (run: nat)
    requires RunsOk(w) && StatusInv(w) && w.helper.Off?
    requires var all := AllPublished(w.log); all != [] && Transient(all[|all| - 1].status)
    ensures var all, ps := AllPublished(w.log), By(w.log, run);
            ps != [] && ps[|ps| - 1] == all[|all| - 1] && CutShort(w.log, run)
  {
    var i := LastPublication(w.log);
    LastOfItsRun(w.log, i);
    run := w.log[i].run;
    assert w.log[i] in w.log;
    LeftBehind(w.log, run);
  }

  /**
    While no helper runs, and if the machine never lost power, a status in `state.json` that promises
    another one was left there by a run that was killed or ended in an exception of `manifest`,
    `run_update` or `write_state`.
  */
  lemma TransientFileMeansCrash(c: Codec, w: World, actions: seq<Action>) returns (run: nat)
    requires Initial(c, w) && forall i :: 0 <= i < |actions| ==> !actions[i].PowerLoss?
    requires var w' := Execute(c, w, actions);
             var all := AllPublished(w'.log);
             w'.helper.Off? && all != [] && Transient(all[|all| - 1].status)
    ensures var w' := Execute(c, w, actions);
            var ps := By(w'.log, run);
            ps != [] && Visible(w') == Some(Encode(c, ps[|ps| - 1])) && Transient(ps[|ps| - 1].status)
            && CutShort(w'.log, run)
  {
    var w' := Execute(c, w, actions);
    ReaderSeesLastPublished(c, w, actions);
    assert RunsOk(w') && StatusInv(w') by {
      InitialStatus(c, w);
      StatusAlways(c, w, actions);
    }
    run := LastWasCutShort(w');
  }
}
