/** What the stream manager promises: which operation is started next, what becomes of
    it, that streams are queues, and that everything is done in the end. */
module StreamProperties {
  import opened Helpers
  import opened StreamManagers

  // ----- which operation is started

  /** The first ready stream of the list, if there is one. */
  lemma {:induction false} FirstReadyIs(v: View, k: nat)
    requires k <= |v.streams|
    ensures FirstReady(v, k).None? <==> forall i :: k <= i < |v.streams| ==> !IsReady(v, v.streams[i])
    ensures FirstReady(v, k).Some? ==>
              exists i :: k <= i < |v.streams| && v.streams[i] == FirstReady(v, k).value && IsReady(v, v.streams[i])
                          && forall j :: k <= j < i ==> !IsReady(v, v.streams[j])
    decreases |v.streams| - k
  {
    hide IsReady;
    if k < |v.streams| && !IsReady(v, v.streams[k]) {
      FirstReadyIs(v, k + 1);
    }
  }

  /** Stream zero has its turn if it had it, or if all other streams are empty, and it
      keeps it until it is empty. */
  lemma {:induction false} TurnOfZero(v: View)
    requires Ok(v)
    ensures v.zero in v.ops
    ensures Aimed(v).serving <==>
              v.ops[v.zero] != [] && (v.serving || forall s :: s in v.streams ==> s in v.ops && v.ops[s] == [])
    ensures Aimed(v) == v.(serving := Aimed(v).serving)
    ensures Aimed(v).serving && v.zero !in v.pending ==> Chosen(v) == Some(v.zero)
    ensures Chosen(v) == Some(v.zero) ==> Aimed(v).serving
  {
    ChosenIsReady(v, 0);
  }

  /** Nothing is started exactly if the stream zero has its turn and is not ready, or
      it has not and no other stream is. */
  lemma {:induction false} NothingChosenIff(v: View)
    requires Ok(v)
    ensures Chosen(v).None? <==>
              if Turn(v).serving then !IsReady(v, v.zero) else forall s :: s in v.streams ==> !IsReady(v, s)
  {
    FirstReadyIs(v, 0);
    hide IsReady, Ok;
    forall s | s in v.streams ensures exists i :: 0 <= i < |v.streams| && v.streams[i] == s {
    }
  }

  // ----- what becomes of it

  /** Copies, events and kernels that are simulated at once leave their stream in the
      turn in which they are started. */
  predicate EndsAtOnce(op: Operation, canStart: bool) { op.Kernel? ==> op.functional && canStart }

  lemma {:induction false} RegisteredOutcome(v: View)
    requires Ok(v)
    ensures CanRegister(v) && (v.finished == [] ==> Registered(v) == v)
    ensures v.finished != [] ==>
              var g := v.finished[0];
              && g in v.grid && v.grid[g] in v.ops && v.ops[v.grid[g]] != [] && v.ops[v.grid[g]][0].Kernel?
              && v.ops[v.grid[g]][0].uid == g
              && Registered(v) == v.(finished := v.finished[1..], grid := v.grid - {g},
                                     pending := v.pending - {v.grid[g]},
                                     ops := v.ops[v.grid[g] := v.ops[v.grid[g]][1..]])
  {
    FinishedIsFound(v);
  }

  /** What a turn makes of the state `r` in which the finished kernel has been
      registered. */
  ghost predicate TookTurn(r: View, v': View, canStart: bool) {
    && r.zero in r.ops
    && match Chosen(r)
       case None => v' == Aimed(r)
       case Some(s) =>
         && s in r.ops && r.ops[s] != [] && s !in r.pending
         && var op := r.ops[s][0];
            if EndsAtOnce(op, canStart) then v' == Aimed(r).(ops := r.ops[s := r.ops[s][1..]])
            else
              v' == Aimed(r).(pending := r.pending + {s}, grid := r.grid[op.uid := s],
                              running := r.running + (if canStart then {op.uid} else {}))
  }

  /** A whole turn. */
  lemma {:induction false} OperatedOutcome(v: View, canStart: bool)
    requires Ok(v)
    ensures CanRegister(v) && Ok(Registered(v)) && Ok(Operated(v, canStart))
    ensures TookTurn(Registered(v), Operated(v, canStart), canStart)
  {
    FinishedIsFound(v);
    RegisteredIsOk(v);
    OperatedIsOk(v, canStart);
    var r := Registered(v);
    ChosenIsReady(r, 0);
    ZeroIsThere(r);
    hide Ok;
    if Chosen(r).Some? {
      StartedOutcome(r, canStart);
    }
  }

  lemma {:induction false} ZeroIsThere(v: View)
    requires Ok(v)
    ensures v.zero in v.ops
  {
  }

  lemma {:induction false} StartedOutcome(r: View, canStart: bool)
    requires Ok(r) && Chosen(r).Some?
    ensures r.zero in r.ops
    ensures var s, f := Chosen(r).value, Fronted(r);
            && s in r.ops && r.ops[s] != [] && s !in r.pending && f.ops == r.ops
            && var op := r.ops[s][0];
               if EndsAtOnce(op, canStart) then Done(f, s, canStart) == Aimed(r).(ops := r.ops[s := r.ops[s][1..]])
               else
                 Done(f, s, canStart) == Aimed(r).(pending := r.pending + {s}, grid := r.grid[op.uid := s],
                                                   running := r.running + (if canStart then {op.uid} else {}))
  {
    ChosenIsReady(r, 0);
    var s, f := Chosen(r).value, Fronted(r);
    var op := r.ops[s][0];
    assert f == Started(Aimed(r), s);
    NotYetMapped(r, s);
    hide Ok, Chosen, Fronted, Aimed;
    assert r.pending + {s} - {s} == r.pending;
    if op.Kernel? {
      assert r.grid[op.uid := s] - {op.uid} == r.grid;
    }
  }

  lemma {:induction false} NotYetMapped(r: View, s: Stream)
    requires Ok(r) && IsReady(r, s)
    ensures r.ops[s][0].Kernel? ==> r.ops[s][0].uid !in r.grid
  {
    forall g | g in r.grid ensures r.grid[g] != s && g in r.home && r.home[g] == r.grid[g] {
      assert RunsKernel(r, r.grid[g], g);
    }
  }

  // ----- everything is done in the end

  /** The operations that wait in some streams. */
  ghost function Lengths(ops: map<Stream, seq<Operation>>, ss: seq<Stream>): nat
    requires forall s :: s in ss ==> s in ops
  {
    if ss == [] then 0 else |ops[ss[|ss| - 1]]| + Lengths(ops, ss[..|ss| - 1])
  }

  ghost predicate Distinct(ss: seq<Stream>) { forall i, j :: 0 <= i < j < |ss| ==> ss[i] != ss[j] }

  lemma {:induction false} LengthsOfUpdate(ops: map<Stream, seq<Operation>>, ss: seq<Stream>, s: Stream,
                                           q: seq<Operation>)
    requires Distinct(ss) && s in ops && forall t :: t in ss ==> t in ops
    ensures forall t :: t in ss ==> t in ops[s := q]
    ensures Lengths(ops[s := q], ss) == Lengths(ops, ss) + (if s in ss then |q| - |ops[s]| else 0)
  {
    if ss != [] {
      LengthsOfUpdate(ops, ss[..|ss| - 1], s, q);
    }
  }

  lemma {:induction false} LengthsAreZero(ops: map<Stream, seq<Operation>>, ss: seq<Stream>)
    requires forall t :: t in ss ==> t in ops
    ensures Lengths(ops, ss) == 0 <==> forall t :: t in ss ==> ops[t] == []
  {
    if ss != [] {
      var rest, last := ss[..|ss| - 1], ss[|ss| - 1];
      assert ss == rest + [last];
      LengthsAreZero(ops, rest);
    }
  }

  ghost function All(v: View): seq<Stream> { [v.zero] + v.streams }

  lemma {:induction false} AllStreams(v: View)
    requires Ok(v)
    ensures Distinct(All(v)) && forall s :: s in All(v) <==> s in v.ops
    ensures v.pending <= v.ops.Keys
  {
  }

  ghost function Total(v: View): nat
    requires Ok(v)
  {
    AllStreams(v);
    Lengths(v.ops, All(v))
  }

  /** Every kernel under way is on the device: none was turned away. */
  ghost predicate Launched(v: View) {
    forall s :: s in v.pending && s in v.ops && v.ops[s] != [] && v.ops[s][0].Kernel? ==>
      v.ops[s][0].uid in v.running || v.ops[s][0].uid in v.finished
  }

  ghost predicate Idle(v: View) { v.running == {} && v.finished == [] }

  /** The steps lead from `v` to a state in which all streams are empty. */
  ghost predicate Empties(v: View, steps: seq<Step>)
    requires Ok(v)
    decreases |steps|
  {
    if steps == [] then forall s :: s in v.ops ==> v.ops[s] == []
    else
      && (steps[0] == Operate(true) || steps[0].FinishKernel?) && IsEnabled(v, steps[0])
      && (StepIsOk(v, steps[0]); Empties(After(v, steps[0]), steps[1..]))
  }

  lemma {:induction false} FirstThenEmpties(v: View, step: Step, steps: seq<Step>)
    requires Ok(v) && (step == Operate(true) || step.FinishKernel?) && IsEnabled(v, step)
    requires Ok(After(v, step)) && Empties(After(v, step), steps)
    ensures Empties(v, [step] + steps)
  {
    assert ([step] + steps)[1..] == steps;
  }

  lemma {:induction false} RegisteredRest(v: View)
    requires Ok(v) && Launched(v)
    ensures Ok(Registered(v)) && Launched(Registered(v))
    ensures Total(Registered(v)) == Total(v) - (if v.finished == [] then 0 else 1)
    ensures Registered(v).zero == v.zero && Registered(v).streams == v.streams && Registered(v).running == v.running
  {
    RegisteredOutcome(v);
    RegisteredIsOk(v);
    if v.finished != [] {
      var s := v.grid[v.finished[0]];
      AllStreams(v);
      LengthsOfUpdate(v.ops, All(v), s, v.ops[s][1..]);
      LaunchedStays(v);
    }
  }

  lemma {:induction false} LaunchedStays(v: View)
    requires Ok(v) && Launched(v) && v.finished != []
    ensures Launched(Registered(v))
  {
    RegisteredOutcome(v);
    var g, r := v.finished[0], Registered(v);
    forall s | s in r.pending && s in r.ops && r.ops[s] != [] && r.ops[s][0].Kernel?
      ensures r.ops[s][0].uid in r.running || r.ops[s][0].uid in r.finished
    {
      assert s in v.pending && v.ops[s] == r.ops[s];
      assert RunsKernel(v, s, v.ops[s][0].uid);
    }
  }

  /** A turn in which every kernel can start. */
  ghost predicate Nearer(r: View, v': View)
    requires Ok(r) && Ok(v')
  {
    && v'.ops.Keys == r.ops.Keys && Launched(v')
    && if Chosen(r).None? then Total(v') == Total(r) && v' == Aimed(r)
       else Total(v') < Total(r) || (Total(v') == Total(r) && |v'.pending| > |r.pending|)
  }

  lemma {:induction false} TurnIsNearer(r: View, v': View)
    requires Ok(r) && Ok(v') && Launched(r) && TookTurn(r, v', true)
    ensures Nearer(r, v')
  {
    AllStreams(r);
    TurnKeepsStreams(r);
    LaunchedAfterTurn(r, v');
    hide Ok, Chosen, Aimed, Launched;
    if Chosen(r).Some? {
      var s := Chosen(r).value;
      LengthsOfUpdate(r.ops, All(r), s, r.ops[s][1..]);
      assert |r.pending + {s}| == |r.pending| + 1;
    }
  }

  lemma {:induction false} TurnKeepsStreams(r: View)
    requires r.zero in r.ops
    ensures Aimed(r).zero == r.zero && Aimed(r).streams == r.streams && Aimed(r).ops == r.ops
    ensures Aimed(r).pending == r.pending && Aimed(r).running == r.running && Aimed(r).finished == r.finished
  {
  }

  lemma {:induction false} LaunchedAfterTurn(r: View, v': View)
    requires Launched(r) && TookTurn(r, v', true)
    ensures Launched(v')
  {
    TurnKeepsStreams(r);
    hide Chosen, Aimed;
  }

  lemma {:induction false} IdleIsUnderway(v: View)
    requires Ok(v) && Launched(v) && Idle(v)
    ensures v.pending == {}
    ensures Total(v) > 0 && Chosen(v).None? ==> v.serving && !Aimed(v).serving
  {
    NothingPending(v);
    NothingChosenIff(v);
    TurnOfZero(v);
    AllStreams(v);
    LengthsAreZero(v.ops, All(v));
    assert forall s :: s in v.streams ==> s in All(v);
    hide Ok;
  }

  lemma {:induction false} NothingPending(v: View)
    requires Ok(v) && Launched(v) && Idle(v)
    ensures v.pending == {}
  {
    hide Ok, Launched, Idle;
    if s :| s in v.pending {
      PendingIsOnDevice(v, s);
    }
  }

  lemma {:induction false} PendingIsOnDevice(v: View, s: Stream)
    requires Ok(v) && Launched(v) && s in v.pending
    ensures !Idle(v)
  {
    assert v.ops[s] != [] && v.ops[s][0].Kernel?;
  }

  /** How far the manager is from having nothing to do. */
  ghost function Unlaunched(v: View): nat
    requires Ok(v)
  {
    AllStreams(v);
    PendingFit(v);
    |v.ops.Keys| - |v.pending|
  }

  lemma {:induction false} PendingFit(v: View)
    requires Ok(v)
    ensures |v.pending| <= |v.ops.Keys|
  {
    AllStreams(v);
    assert v.ops.Keys == v.pending + (v.ops.Keys - v.pending);
  }

  /** If kernels that can run are started when it is their turn, and the device
      finishes what it runs, then all streams become empty: neither stream zero nor
      any other waits for ever. */
  lemma {:induction false} Drains(v: View) returns (steps: seq<Step>)
    requires Ok(v) && Launched(v)
    ensures Empties(v, steps)
    decreases Total(v), Unlaunched(v), |v.running|, v.serving
  {
    hide Ok, Launched, Empties, Operated, Total, Unlaunched;
    if v.finished == [] && v.running != {} {
      var uid :| uid in v.running;
      FinishedIsNearer(v, uid);
      steps := Drains(Finished(v, uid));
      FirstThenEmpties(v, FinishKernel(uid), steps);
      steps := [FinishKernel(uid)] + steps;
    } else if Total(v) == 0 {
      NothingWaits(v);
      steps := [];
    } else {
      OneTurnNearer(v);
      steps := Drains(Operated(v, true));
      FirstThenEmpties(v, Operate(true), steps);
      steps := [Operate(true)] + steps;
    }
  }

  lemma {:induction false} FinishedIsNearer(v: View, uid: nat)
    requires Ok(v) && Launched(v) && uid in v.running
    ensures var v' := Finished(v, uid);
            && Ok(v') && Launched(v') && Total(v') == Total(v) && Unlaunched(v') == Unlaunched(v)
            && |v'.running| < |v.running|
  {
    StepIsOk(v, FinishKernel(uid));
    LaunchedWhenFinished(v, uid);
    hide Ok, Launched;
    assert v.running == Finished(v, uid).running + {uid};
  }

  lemma {:induction false} LaunchedWhenFinished(v: View, uid: nat)
    requires Launched(v)
    ensures Launched(Finished(v, uid))
  {
  }

  lemma {:induction false} NothingWaits(v: View)
    requires Ok(v) && Total(v) == 0
    ensures Empties(v, [])
  {
    AllStreams(v);
    LengthsAreZero(v.ops, All(v));
  }

  lemma {:induction false} OneTurnNearer(v: View)
    requires Ok(v) && Launched(v) && Total(v) > 0 && (v.finished != [] || v.running == {})
    ensures Ok(Operated(v, true)) && Launched(Operated(v, true))
    ensures var v' := Operated(v, true);
            || Total(v') < Total(v)
            || (Total(v') == Total(v) && Unlaunched(v') < Unlaunched(v))
            || (Total(v') == Total(v) && Unlaunched(v') == Unlaunched(v) && v'.running == v.running
                && v.serving && !v'.serving)
  {
    OperatedOutcome(v, true);
    RegisteredRest(v);
    RegisteredOutcome(v);
    var r, v' := Registered(v), Operated(v, true);
    TurnIsNearer(r, v');
    if v.finished == [] {
      IdleIsUnderway(v);
      TurnKeepsStreams(v);
    }
    hide Ok, Launched, Chosen, Aimed, TookTurn, Total, Registered, Operated;
  }

  /** Nothing is turned away from the start on, so that this holds in every state of
      every run in which kernels can start. */
  lemma {:induction false} RunIsLaunched(vs: seq<View>, steps: seq<Step>, n: nat)
    requires IsRun(vs, steps) && n < |vs| && forall m :: 0 <= m < n ==> steps[m] != Operate(false)
    ensures Ok(vs[n]) && Launched(vs[n])
  {
    NeverTogether(vs, steps, n);
    if n > 0 {
      hide Ok, Launched, IsEnabled, After;
      RunIsLaunched(vs, steps, n - 1);
      assert Takes(vs[n - 1], steps[n - 1], vs[n - 1 + 1]);
      LaunchedStep(vs[n - 1], steps[n - 1]);
    }
  }

  lemma {:induction false} LaunchedStep(v: View, step: Step)
    requires Ok(v) && Launched(v) && IsEnabled(v, step) && step != Operate(false)
    ensures Launched(After(v, step))
  {
    if step.Operate? {
      OperatedOutcome(v, true);
      RegisteredRest(v);
      LaunchedAfterTurn(Registered(v), Operated(v, true));
    }
  }

  // ----- streams are queues

  /** New streams come last, and a stream that is destroyed leaves the others in
      order; the device reports kernels in the order in which it finished them. */
  lemma {:induction false} ListsKeepOrder(v: View, step: Step)
    requires Ok(v) && IsEnabled(v, step)
    ensures Ok(After(v, step))
    ensures var v' := After(v, step);
            && (step.AddStream? ==> v'.streams == v.streams + [step.s] && step.s in v'.ops && v'.ops[step.s] == [])
            && (step.DestroyStream? ==>
                  |v'.streams| == |v.streams| - 1
                  && forall i :: 0 <= i < |v'.streams| ==> v'.streams[i] == v.streams[if i < step.k then i else i + 1])
            && (!step.AddStream? && !step.DestroyStream? ==> v'.streams == v.streams)
            && (step.FinishKernel? ==> v'.finished == v.finished + [step.uid] && v'.running == v.running - {step.uid})
            && (!step.FinishKernel? && !step.Operate? ==> v'.finished == v.finished)
            && (step.Operate? ==> v'.finished == if v.finished == [] then [] else v.finished[1..])
  {
    StepIsOk(v, step);
    hide Ok;
    if step.Operate? {
      TurnKeepsLists(v, step.canStart);
    }
  }

  lemma {:induction false} TurnKeepsLists(v: View, canStart: bool)
    requires Ok(v)
    ensures var v' := Operated(v, canStart);
            && v'.streams == v.streams && v'.zero == v.zero
            && v'.finished == if v.finished == [] then [] else v.finished[1..]
  {
    hide Ok, Chosen, Aimed, Registered, Operated, CanRegister;
    RegisteredOutcome(v);
    OperatedOutcome(v, canStart);
    TurnKeepsStreams(Registered(v));
  }

  /** A step takes operations off the front of a stream, or puts one at its end. */
  lemma {:induction false} StepIsFifo(v: View, step: Step, s: Stream)
    requires Ok(v) && IsEnabled(v, step) && s in v.ops && s in After(v, step).ops
    ensures Ok(After(v, step))
    ensures var before, after := v.ops[s], After(v, step).ops[s];
            if step.PushTo? && step.s == s then after == before + [step.op]
            else IsEnd(after, before) && (!step.Operate? ==> after == before)
  {
    StepIsOk(v, step);
    assert v.ops[s][0..] == v.ops[s];
    if step.Operate? {
      TurnIsFifo(v, step.canStart, s);
    }
  }

  predicate IsEnd(after: seq<Operation>, before: seq<Operation>) {
    |after| <= |before| && after == before[|before| - |after|..]
  }

  lemma {:induction false} RegisteredIsFifo(v: View, s: Stream)
    requires Ok(v) && s in v.ops
    ensures CanRegister(v) && s in Registered(v).ops && IsEnd(Registered(v).ops[s], v.ops[s])
  {
    RegisteredOutcome(v);
    hide Ok, Registered;
    assert v.ops[s][0..] == v.ops[s];
  }

  lemma {:induction false} StartedIsFifo(r: View, v': View, canStart: bool, s: Stream)
    requires TookTurn(r, v', canStart) && s in r.ops
    ensures s in v'.ops && IsEnd(v'.ops[s], r.ops[s])
  {
    TurnKeepsStreams(r);
    hide Chosen, Aimed;
    assert r.ops[s][0..] == r.ops[s];
  }

  lemma {:induction false} TurnIsFifo(v: View, canStart: bool, s: Stream)
    requires Ok(v) && s in v.ops
    ensures Ok(Operated(v, canStart)) && s in Operated(v, canStart).ops
    ensures IsEnd(Operated(v, canStart).ops[s], v.ops[s])
  {
    hide Ok, Registered, Operated, TookTurn, CanRegister;
    OperatedOutcome(v, canStart);
    RegisteredIsFifo(v, s);
    StartedIsFifo(Registered(v), Operated(v, canStart), canStart, s);
  }
}
