/** What the timestamps of the protocol are worth: each is the least that serves its
    purpose, a lease can be used until its end, and no operation waits for ever. */
module RccLeases {
  import opened RccProtocol
  import opened RccInvariant

  // ----- every timestamp is the least that will do

  /** The least time that is not before any of three. */
  predicate IsLeast(t: Time, x: Time, y: Time, z: Time) {
    && x <= t && y <= t && z <= t
    && (t == x || t == y || t == z)
  }

  /** A load of a block that is present gets a lease of at least `delta` from its own
      time and from the last store; the line promises as much. */
  lemma {:induction false} GrantedLease(c: Config, s: State, w: Wid)
    requires Enabled(s, TakeLoad(w)) && s.line(s.phase(w).addr).Valid?
    ensures var a, pts, l, s' := s.phase(w).addr, s.phase(w).pts, s.line(s.phase(w).addr), Apply(c, s, TakeLoad(w));
            var rts := s'.line(a).rts;
            && s'.line(a) == Valid(l.data, l.dirty, l.wts, rts)
            && s'.phase(w) == DataBack(a, l.data, |s.writes(a)|, l.wts, rts)
            && IsLeast(rts, pts + c.delta, l.wts + c.delta, l.rts)
  {
  }

  /** A load of a block that is not present asks for the same lease. */
  lemma {:induction false} MissedLease(c: Config, s: State, w: Wid)
    requires Enabled(s, TakeLoad(w)) && !s.line(s.phase(w).addr).Valid?
    ensures var a, pts, l := s.phase(w).addr, s.phase(w).pts, s.line(s.phase(w).addr);
            var l' := Apply(c, s, TakeLoad(w)).line(a);
            && Apply(c, s, TakeLoad(w)).phase(w) == Queued(a, pts) && l'.Filling? && l'.pendingRead
            && if l.Absent? then l' == Filling(NoStore, pts, 0, c.delta, true)
               else
                 && l' == l.(maxRead := l'.maxRead, pendingRead := true)
                 && IsLeast(l'.maxRead, pts, l.maxRead, l.maxRead)
  {
  }

  /** A block that comes back from memory keeps its own store, lies behind all copies
      that were dropped, and has leases for all loads that waited. */
  lemma {:induction false} FilledLease(c: Config, s: State, a: Addr)
    requires Enabled(s, Fill(a))
    ensures var l, l', mts := s.line(a), Apply(c, s, Fill(a)).line(a), s.mts(c.bank(a));
            && (if l.pendingRead then l'.Answering? else l'.Valid?)
            && l'.dirty == l.store.Store?
            && l'.data == (if l.store.Store? then l.store.data else s.mem(a))
            && IsLeast(l'.wts, mts, mts, if l.store.Store? then l.maxWrite else mts)
            && (l.pendingRead ==> IsLeast(l'.rts, l.maxRead + l.delta, l'.wts + l.delta, mts))
            && (!l.pendingRead ==> l'.rts == mts)
  {
  }

  /** A store to a block that is present gets the least time behind its core, the
      last store and every lease; one to a block that is not, the least behind its
      core, the stores that wait with it, and what was dropped. */
  lemma {:induction false} StoreTimeIsLeast(c: Config, s: State, w: Wid)
    requires Enabled(s, TakeStore(w))
    ensures var a, d, pts := s.phase(w).addr, s.phase(w).data, s.phase(w).pts;
            var l, s', mts := s.line(a), Apply(c, s, TakeStore(w)), s.mts(c.bank(a));
            && s'.phase(w).AckBack? && s'.phase(w).addr == a
            && var t := s'.phase(w).wts;
               && s'.log == s.log + [Op(w, a, true, d, t)]
               && (l.Valid? ==> IsLeast(t, pts, l.wts, l.rts + 1) && s'.line(a) == Valid(d, true, t, l.rts))
               && (l.Absent? ==> IsLeast(t, pts, mts, mts) && s'.line(a) == Filling(Store(d), 0, pts, 0, false))
               && (l.Filling? ==>
                     && IsLeast(t, pts, l.maxWrite, mts)
                     && s'.line(a) == l.(store := Store(d), maxWrite := s'.line(a).maxWrite)
                     && IsLeast(s'.line(a).maxWrite, pts, l.maxWrite, l.maxWrite))
  {
  }

  /** A bank remembers the last time at which a copy of a dropped block can be used,
      and no more. */
  lemma {:induction false} EvictedTimeIsLeast(c: Config, s: State, a: Addr)
    requires Enabled(s, Evict(a))
    ensures var l, s', b := s.line(a), Apply(c, s, Evict(a)), c.bank(a);
            && s'.line(a).Absent? && IsLeast(s'.mts(b), s.mts(b), l.rts, l.wts)
            && s'.mem(a) == (if l.dirty then l.data else s.mem(a))
            && (forall b' :: b' != b ==> s'.mts(b') == s.mts(b'))
            && forall a' :: a' != a ==> s'.mem(a') == s.mem(a') && s'.line(a') == s.line(a')
  {
  }

  /** Only answers move the clock of a core, and no further than they must. */
  lemma {:induction false} ClockIsLeast(c: Config, s: State, act: Action, core: nat)
    requires Enabled(s, act)
    ensures var s' := Apply(c, s, act);
            if act.Receive? && act.w.core == core then
              IsLeast(s'.pts(core), s.pts(core), s.phase(act.w).wts, s.pts(core)) && s'.phase(act.w).Idle?
            else s'.pts(core) == s.pts(core)
  {
  }

  // ----- what an action leaves alone

  /** An action changes the phase of its own warp only, and copies in its own core. */
  lemma {:induction false} OthersStay(c: Config, s: State, act: Action, u: Wid, x: Spot)
    requires Enabled(s, act)
    ensures var s' := Apply(c, s, act);
            && (act.Fill? || act.EndAnswers? || act.Evict? || act.DropLease? || act.w != u ==>
                  s'.phase(u) == s.phase(u))
            && (s'.lease(x) == s.lease(x)
                || (act.Receive? && x == Spot(act.w.core, s.phase(act.w).addr)) || act == DropLease(x.core, x.addr))
            && (s.line(x.addr).Answering? && act != EndAnswers(x.addr) ==> s'.line(x.addr) == s.line(x.addr))
  {
  }

  /** An idle warp reads a copy that is still good, and asks the L2 exactly if it has
      none; a copy that is given up is gone. */
  lemma {:induction false} HitOrMiss(c: Config, s: State, w: Wid, a: Addr)
    requires s.phase(w).Idle?
    ensures Enabled(s, LoadHit(w, a)) <==> !Enabled(s, LoadMiss(w, a))
    ensures !Enabled(Apply(c, s, DropLease(w.core, a)), LoadHit(w, a))
    ensures var lease := s.lease(Spot(w.core, a));
            Enabled(s, LoadHit(w, a)) <==> lease.Lease? && s.pts(w.core) <= lease.rts
  {
  }

  // ----- a lease lasts

  predicate IsAnswered(p: Phase) { p.DataBack? || p.AckBack? }

  /** Between the answer and its arrival nothing happens to it. */
  lemma {:induction false} AnswerWaits(c: Config, ss: seq<State>, acts: seq<Action>, i: nat, n: nat, w: Wid)
    requires IsRun(c, ss, acts) && i <= n < |ss| && IsAnswered(ss[i].phase(w))
    requires forall j :: i <= j < n ==> acts[j] != Receive(w)
    ensures ss[n].phase(w) == ss[i].phase(w)
    decreases n
  {
    if i < n {
      AnswerWaits(c, ss, acts, i, n - 1, w);
      RunStep(c, ss, acts, n - 1);
      OthersStay(c, ss[n - 1], acts[n - 1], w, Spot(0, 0));
    }
  }

  /** Nobody in the core drops or replaces the copy in steps `n` up to `m`. */
  predicate Undisturbed(ss: seq<State>, acts: seq<Action>, n: nat, m: nat, core: nat, a: Addr)
    requires m <= |acts| == |ss| - 1
  {
    forall j :: n <= j < m ==>
      && acts[j] != DropLease(core, a)
      && !(acts[j].Receive? && acts[j].w.core == core
           && IsAnswered(ss[j].phase(acts[j].w)) && ss[j].phase(acts[j].w).addr == a)
  }

  lemma {:induction false} CopyWaits(c: Config, ss: seq<State>, acts: seq<Action>, n: nat, m: nat, core: nat, a: Addr)
    requires IsRun(c, ss, acts) && n <= m < |ss| && Undisturbed(ss, acts, n, m, core, a)
    ensures ss[m].lease(Spot(core, a)) == ss[n].lease(Spot(core, a))
    decreases m
  {
    if n < m {
      CopyWaits(c, ss, acts, n, m - 1, core, a);
      RunStep(c, ss, acts, m - 1);
      OthersStay(c, ss[m - 1], acts[m - 1], Wid(0, 0), Spot(core, a));
    }
  }

  /** A copy that has arrived can be read until the clock of its core passes its end. */
  lemma {:induction false} CopyIsUsable(c: Config, ss: seq<State>, acts: seq<Action>, n: nat, m: nat, u: Wid)
    requires IsRun(c, ss, acts) && n < m < |ss| && acts[n].Receive? && ss[n].phase(acts[n].w).DataBack?
    requires u.core == acts[n].w.core && ss[m].phase(u).Idle?
    requires Undisturbed(ss, acts, n + 1, m, u.core, ss[n].phase(acts[n].w).addr)
    ensures var p := ss[n].phase(acts[n].w);
            Enabled(ss[m], LoadHit(u, p.addr)) <==> ss[m].pts(u.core) <= p.rts
  {
    assert ss[n + 1] == Apply(c, ss[n], acts[n]);
    CopyWaits(c, ss, acts, n + 1, m, u.core, ss[n].phase(acts[n].w).addr);
  }

  /** A load that the L2 has answered lets its core read the block without asking
      again, until its clock passes the time of the load by `delta`. */
  lemma {:induction false} LeaseLasts(c: Config, ss: seq<State>, acts: seq<Action>, i: nat, n: nat, m: nat,
                                      w: Wid, u: Wid)
    requires IsRun(c, ss, acts) && i < n < m < |ss| && acts[i] == TakeLoad(w) && acts[n] == Receive(w)
    requires ss[i].line(ss[i].phase(w).addr).Valid? && forall j :: i < j < n ==> acts[j] != Receive(w)
    requires u.core == w.core && ss[m].phase(u).Idle?
    requires Undisturbed(ss, acts, n + 1, m, w.core, ss[i].phase(w).addr)
    requires ss[m].pts(w.core) <= ss[i].phase(w).pts + c.delta
    ensures Enabled(ss[m], LoadHit(u, ss[i].phase(w).addr))
  {
    RunStep(c, ss, acts, i);
    GrantedLease(c, ss[i], w);
    AnswerWaits(c, ss, acts, i + 1, n, w);
    CopyIsUsable(c, ss, acts, n, m, u);
  }

  // ----- a load that waits for memory

  /** While it waits for its answer, the line stays as it came from memory. */
  lemma {:induction false} QueueWaits(c: Config, ss: seq<State>, acts: seq<Action>, i: nat, n: nat, w: Wid)
    requires IsRun(c, ss, acts) && i <= n < |ss| && ss[i].phase(w).Queued? && ss[i].line(ss[i].phase(w).addr).Answering?
    requires forall j :: i <= j < n ==> acts[j] != Answer(w)
    ensures ss[n].phase(w) == ss[i].phase(w)
    ensures ss[n].line(ss[i].phase(w).addr) == ss[i].line(ss[i].phase(w).addr)
    decreases n
  {
    if i < n {
      QueueWaits(c, ss, acts, i, n - 1, w);
      RunStep(c, ss, acts, n - 1);
      OthersStay(c, ss[n - 1], acts[n - 1], w, Spot(0, ss[i].phase(w).addr));
    }
  }

  /** A load that waited for a fill that a load started gets a lease as long. */
  lemma {:induction false} FilledLeaseLasts(c: Config, ss: seq<State>, acts: seq<Action>, i: nat, n: nat, w: Wid)
    requires IsRun(c, ss, acts) && i < n < |acts| && ss[i].phase(w).Queued? && Inv(c, ss[i])
    requires acts[i] == Fill(ss[i].phase(w).addr) && acts[n] == Answer(w)
    requires ss[i].line(ss[i].phase(w).addr).Filling? && ss[i].line(ss[i].phase(w).addr).delta == c.delta
    requires forall j :: i < j < n ==> acts[j] != Answer(w)
    ensures var p := ss[n + 1].phase(w);
            && p.DataBack? && p.addr == ss[i].phase(w).addr
            && p.rts >= ss[i].phase(w).pts + c.delta && p.rts >= p.wts + c.delta
  {
    RunStep(c, ss, acts, i);
    assert PhaseOk(c, ss[i], w);
    FilledLease(c, ss[i], ss[i].phase(w).addr);
    QueueWaits(c, ss, acts, i + 1, n, w);
    RunStep(c, ss, acts, n);
  }

  // ----- every operation is performed once, as it was issued

  /** The operations of one warp, in the order in which they were performed. */
  ghost function Performed(log: seq<Op>, w: Wid): seq<Op> {
    if log == [] then []
    else Performed(log[..|log| - 1], w) + (if log[|log| - 1].who == w then [log[|log| - 1]] else [])
  }

  lemma {:induction false} PerformedAppend(log: seq<Op>, op: Op, w: Wid)
    ensures Performed(log + [op], w) == Performed(log, w) + (if op.who == w then [op] else [])
  {
    assert (log + [op])[..|log|] == log;
  }

  /** What warp `w`, which issued `act` when it had performed `before`, has done. */
  ghost predicate Underway(s: State, w: Wid, act: Action, before: seq<Op>) {
    var done := Performed(s.log, w);
    match s.phase(w)
    case Idle => false
    case Loading(a, _) => act == LoadMiss(w, a) && done == before
    case Queued(a, _) => act == LoadMiss(w, a) && done == before
    case Storing(a, d, _) => act == StoreIssue(w, a, d) && done == before
    case DataBack(a, d, _, wts, _) => act == LoadMiss(w, a) && exists t :: done == before + [Op(w, a, false, d, t)]
    case AckBack(a, t) =>
      act.StoreIssue? && act == StoreIssue(w, a, act.d) && done == before + [Op(w, a, true, act.d, t)]
  }

  predicate IsBy(act: Action, w: Wid) {
    !act.Fill? && !act.EndAnswers? && !act.Evict? && !act.DropLease? && act.w == w
  }

  lemma {:induction false} OthersArePerformed(c: Config, s: State, act: Action, w: Wid)
    requires Enabled(s, act) && !IsBy(act, w)
    ensures var s' := Apply(c, s, act);
            Performed(s'.log, w) == Performed(s.log, w) && s'.phase(w) == s.phase(w)
  {
    hide Performed;
    var s' := Apply(c, s, act);
    if s'.log != s.log {
      var op := s'.log[|s.log|];
      assert s'.log == s.log + [op];
      PerformedAppend(s.log, op, w);
    }
  }

  lemma {:induction false} OwnStepIsUnderway(c: Config, s: State, act': Action, w: Wid, act: Action, before: seq<Op>)
    requires Enabled(s, act') && Underway(s, w, act, before) && act' != Receive(w) && IsBy(act', w)
    ensures Underway(Apply(c, s, act'), w, act, before)
  {
    hide Performed;
    var s' := Apply(c, s, act');
    if s'.log != s.log {
      var op := s'.log[|s.log|];
      assert s'.log == s.log + [op];
      PerformedAppend(s.log, op, w);
      if act'.TakeStore? {
        assert op == Op(w, s.phase(w).addr, true, s.phase(w).data, op.ts);
      } else {
        assert op == Op(w, s.phase(w).addr, false, op.data, op.ts) && s'.phase(w).DataBack?;
        assert Performed(s'.log, w) == before + [Op(w, s.phase(w).addr, false, s'.phase(w).data, op.ts)];
      }
    }
  }

  lemma {:induction false} StaysUnderway(c: Config, s: State, act': Action, w: Wid, act: Action, before: seq<Op>)
    requires Enabled(s, act') && Underway(s, w, act, before) && act' != Receive(w)
    ensures Underway(Apply(c, s, act'), w, act, before)
  {
    hide Performed, Apply, Enabled;
    if IsBy(act', w) {
      OwnStepIsUnderway(c, s, act', w, act, before);
    } else {
      OthersArePerformed(c, s, act', w);
    }
  }

  lemma {:induction false} StartsUnderway(c: Config, s: State, act: Action, w: Wid)
    requires Enabled(s, act) && (act.LoadMiss? || act.StoreIssue?) && act.w == w
    ensures Underway(Apply(c, s, act), w, act, Performed(s.log, w))
  {
  }

  lemma {:induction false} RunStep(c: Config, ss: seq<State>, acts: seq<Action>, n: nat)
    requires IsRun(c, ss, acts) && n < |acts|
    ensures Enabled(ss[n], acts[n]) && ss[n + 1] == Apply(c, ss[n], acts[n])
  {
  }

  lemma {:induction false} IssuedIsUnderway(c: Config, ss: seq<State>, acts: seq<Action>, i: nat, n: nat, w: Wid)
    requires IsRun(c, ss, acts) && i < n < |ss|
    requires (acts[i].LoadMiss? || acts[i].StoreIssue?) && acts[i].w == w
    requires forall j :: i < j < n ==> acts[j] != Receive(w)
    ensures Underway(ss[n], w, acts[i], Performed(ss[i].log, w))
    decreases n
  {
    hide Apply, Enabled, Underway, Performed;
    RunStep(c, ss, acts, n - 1);
    if n == i + 1 {
      StartsUnderway(c, ss[i], acts[i], w);
    } else {
      IssuedIsUnderway(c, ss, acts, i, n - 1, w);
      StaysUnderway(c, ss[n - 1], acts[n - 1], w, acts[i], Performed(ss[i].log, w));
    }
  }

  /** Between its issue and the arrival of its answer an operation is performed
      exactly once: a load of the address, or a store of the value to it. */
  lemma {:induction false} PerformedOnce(c: Config, ss: seq<State>, acts: seq<Action>, i: nat, n: nat, w: Wid)
    returns (op: Op)
    requires IsRun(c, ss, acts) && i < n < |acts| && acts[n] == Receive(w)
    requires (acts[i].LoadMiss? || acts[i].StoreIssue?) && acts[i].w == w
    requires forall j :: i < j < n ==> acts[j] != Receive(w)
    ensures Performed(ss[n + 1].log, w) == Performed(ss[i].log, w) + [op] && ss[n + 1].phase(w).Idle?
    ensures op.who == w && op.addr == acts[i].a && op.isWrite == acts[i].StoreIssue?
    ensures op.isWrite ==> op.data == acts[i].d
    ensures var lease := ss[n + 1].lease(Spot(w.core, op.addr));
            if op.isWrite then lease.NoLease? else lease.Lease? && lease.data == op.data
  {
    IssuedIsUnderway(c, ss, acts, i, n, w);
    RunStep(c, ss, acts, n);
    var done := Performed(ss[n].log, w);
    op := done[|done| - 1];
  }

  /** A hit is performed at once, with the value of the copy. */
  lemma {:induction false} HitIsPerformed(c: Config, s: State, w: Wid, a: Addr)
    requires Enabled(s, LoadHit(w, a))
    ensures var s', lease := Apply(c, s, LoadHit(w, a)), s.lease(Spot(w.core, a));
            && Performed(s'.log, w) == Performed(s.log, w) + [Op(w, a, false, lease.data, s.pts(w.core))]
            && s'.phase(w).Idle?
  {
    PerformedAppend(s.log, Op(w, a, false, s.lease(Spot(w.core, a)).data, s.pts(w.core)), w);
  }

  // ----- no operation waits for ever

  /** The actions can be taken one after the other. */
  ghost predicate Possible(c: Config, s: State, acts: seq<Action>)
    decreases |acts|
  {
    acts == [] || (Enabled(s, acts[0]) && Possible(c, Apply(c, s, acts[0]), acts[1..]))
  }

  ghost function After(c: Config, s: State, acts: seq<Action>): State
    requires Possible(c, s, acts)
    decreases |acts|
  {
    if acts == [] then s else After(c, Apply(c, s, acts[0]), acts[1..])
  }

  lemma {:induction false} FirstThen(c: Config, s: State, act: Action, acts: seq<Action>)
    requires Enabled(s, act) && Possible(c, Apply(c, s, act), acts)
    ensures Possible(c, s, [act] + acts) && After(c, s, [act] + acts) == After(c, Apply(c, s, act), acts)
  {
    assert ([act] + acts)[1..] == acts;
  }

  lemma {:induction false} OneThen(c: Config, s: State, acts: seq<Action>, more: seq<Action>)
    requires Possible(c, s, acts) && Possible(c, After(c, s, acts), more)
    ensures Possible(c, s, acts + more) && After(c, s, acts + more) == After(c, After(c, s, acts), more)
    decreases |acts|
  {
    if acts == [] {
      assert acts + more == more;
    } else {
      assert (acts + more)[1..] == acts[1..] + more;
      OneThen(c, Apply(c, s, acts[0]), acts[1..], more);
    }
  }

  lemma {:induction false} OnlyOne(c: Config, s: State, act: Action)
    requires Enabled(s, act)
    ensures Possible(c, s, [act]) && After(c, s, [act]) == Apply(c, s, act)
  {
    assert [act][1..] == [];
  }

  /** A load only waits at a line that will answer it. */
  ghost predicate QueuesOk(s: State) {
    forall w :: s.phase(w).Queued? ==>
      var l := s.line(s.phase(w).addr); l.Answering? || (l.Filling? && l.pendingRead)
  }

  lemma {:induction false} StepKeepsQueues(c: Config, s: State, act: Action)
    requires QueuesOk(s) && Enabled(s, act)
    ensures QueuesOk(Apply(c, s, act))
  {
  }

  lemma {:induction false} RunKeepsQueues(c: Config, ss: seq<State>, acts: seq<Action>, n: nat)
    requires IsRun(c, ss, acts) && n < |ss|
    ensures QueuesOk(ss[n])
  {
    if n > 0 {
      hide Apply, Enabled, QueuesOk;
      RunKeepsQueues(c, ss, acts, n - 1);
      RunStep(c, ss, acts, n - 1);
      StepKeepsQueues(c, ss[n - 1], acts[n - 1]);
    }
  }

  /** Only finitely many warps are waiting in any state of a run. */
  lemma {:induction false} FewAreBusy(c: Config, ss: seq<State>, acts: seq<Action>, n: nat) returns (busy: set<Wid>)
    requires IsRun(c, ss, acts) && n < |ss|
    ensures forall u :: !ss[n].phase(u).Idle? ==> u in busy
  {
    busy := {};
    if n > 0 {
      var act := acts[n - 1];
      busy := FewAreBusy(c, ss, acts, n - 1);
      RunStep(c, ss, acts, n - 1);
      if !act.Fill? && !act.EndAnswers? && !act.Evict? && !act.DropLease? {
        busy := busy + {act.w};
      }
    }
  }

  /** The loads at a line that answers are answered, one after the other. */
  lemma {:induction false} Drain(c: Config, s: State, a: Addr, queue: set<Wid>) returns (acts: seq<Action>)
    requires s.line(a).Answering? && forall u :: s.phase(u).Queued? && s.phase(u).addr == a ==> u in queue
    ensures Possible(c, s, acts) && After(c, s, acts).line(a).Valid?
    ensures forall u :: !s.phase(u).Queued? ==> After(c, s, acts).phase(u) == s.phase(u)
    decreases queue
  {
    if u :| u in queue && s.phase(u).Queued? && s.phase(u).addr == a {
      var s' := Apply(c, s, Answer(u));
      acts := Drain(c, s', a, queue - {u});
      FirstThen(c, s, Answer(u), acts);
      acts := [Answer(u)] + acts;
    } else {
      OnlyOne(c, s, EndAnswers(a));
      acts := [EndAnswers(a)];
    }
  }

  lemma {:induction false} CanDeliver(c: Config, s: State, w: Wid) returns (acts: seq<Action>)
    requires IsAnswered(s.phase(w))
    ensures Possible(c, s, acts) && After(c, s, acts).phase(w).Idle?
  {
    OnlyOne(c, s, Receive(w));
    acts := [Receive(w)];
  }

  lemma {:induction false} CanAnswer(c: Config, s: State, w: Wid) returns (acts: seq<Action>)
    requires QueuesOk(s) && s.phase(w).Queued?
    ensures Possible(c, s, acts) && After(c, s, acts).phase(w).Idle?
  {
    var a := s.phase(w).addr;
    hide Possible, After;
    if s.line(a).Filling? {
      var s' := Apply(c, s, Fill(a));
      assert s'.line(a).Answering?;
      acts := CanDeliver(c, Apply(c, s', Answer(w)), w);
      FirstThen(c, s', Answer(w), acts);
      FirstThen(c, s, Fill(a), [Answer(w)] + acts);
      acts := [Fill(a)] + ([Answer(w)] + acts);
    } else {
      acts := CanDeliver(c, Apply(c, s, Answer(w)), w);
      FirstThen(c, s, Answer(w), acts);
      acts := [Answer(w)] + acts;
    }
  }

  lemma {:induction false} CanTake(c: Config, s: State, w: Wid) returns (acts: seq<Action>)
    requires QueuesOk(s) && (s.phase(w).Loading? || s.phase(w).Storing?) && !s.line(s.phase(w).addr).Answering?
    ensures Possible(c, s, acts) && After(c, s, acts).phase(w).Idle?
  {
    hide Possible, After;
    var act := if s.phase(w).Loading? then TakeLoad(w) else TakeStore(w);
    var s' := Apply(c, s, act);
    StepKeepsQueues(c, s, act);
    if s'.phase(w).Queued? {
      acts := CanAnswer(c, s', w);
    } else {
      acts := CanDeliver(c, s', w);
    }
    FirstThen(c, s, act, acts);
    acts := [act] + acts;
  }

  /** In every state of every run, with stores that tie or without, an operation that
      is waiting can be brought to its end: the protocol has no deadlock. */
  lemma {:induction false} CanComplete(c: Config, ss: seq<State>, acts: seq<Action>, n: nat, w: Wid)
    returns (more: seq<Action>)
    requires IsRun(c, ss, acts) && n < |ss|
    ensures Possible(c, ss[n], more) && After(c, ss[n], more).phase(w).Idle?
  {
    var s := ss[n];
    RunKeepsQueues(c, ss, acts, n);
    hide Possible, After, IsRun;
    more := [];
    if s.phase(w).Idle? {
      NothingMore(c, s);
    } else if IsAnswered(s.phase(w)) {
      more := CanDeliver(c, s, w);
    } else if s.phase(w).Queued? {
      more := CanAnswer(c, s, w);
    } else if s.line(s.phase(w).addr).Answering? {
      var busy := FewAreBusy(c, ss, acts, n);
      var first := Drain(c, s, s.phase(w).addr, busy);
      PossibleKeepsQueues(c, s, first);
      var rest := CanTake(c, After(c, s, first), w);
      OneThen(c, s, first, rest);
      more := first + rest;
    } else {
      more := CanTake(c, s, w);
    }
  }

  lemma {:induction false} NothingMore(c: Config, s: State)
    ensures Possible(c, s, []) && After(c, s, []) == s
  {
  }

  lemma {:induction false} PossibleKeepsQueues(c: Config, s: State, acts: seq<Action>)
    requires QueuesOk(s) && Possible(c, s, acts)
    ensures QueuesOk(After(c, s, acts))
    decreases |acts|
  {
    if acts != [] {
      StepKeepsQueues(c, s, acts[0]);
      PossibleKeepsQueues(c, Apply(c, s, acts[0]), acts[1..]);
    }
  }
}
