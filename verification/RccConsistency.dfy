/** Sequential consistency of the timestamp protocol over whole runs. */
module RccConsistency {
  import opened RccProtocol
  import opened RccInvariant

  /** The timestamp of the store is beyond every copy of the value it replaces. */
  ghost predicate IsBeyond(c: Config, s: State, w: Wid)
    requires s.phase(w).Storing?
  {
    Unreached(s, s.phase(w).addr, StoreTime(c, s, s.phase(w).addr, s.phase(w).pts))
  }

  /** Every store of the run is. */
  ghost predicate AllBeyond(c: Config, ss: seq<State>, acts: seq<Action>)
    requires |ss| == |acts| + 1
  {
    forall n: nat :: n < |acts| && acts[n].TakeStore? && ss[n].phase(acts[n].w).Storing? ==>
      IsBeyond(c, ss[n], acts[n].w)
  }

  /** No store of the run misses at the L2 while knowing no more than the bank's
      memory timestamp.  All clocks start at zero, so this also turns down the first
      store to a block by a core that has seen nothing, which does no harm: the exact
      condition on one store is IsBeyond. */
  ghost predicate TieFree(c: Config, ss: seq<State>, acts: seq<Action>)
    requires |ss| == |acts| + 1
  {
    forall n: nat :: n < |acts| && acts[n].TakeStore? && ss[n].phase(acts[n].w).Storing? ==> NoTie(c, ss[n], acts[n].w)
  }

  lemma {:induction false} InitiallyInv(c: Config)
    ensures Inv(c, Initial(c))
  {
  }

  lemma {:induction false} StepKeepsInv(c: Config, s: State, act: Action)
    requires Inv(c, s) && Enabled(s, act) && (act.TakeStore? ==> IsBeyond(c, s, act.w))
    ensures Inv(c, Apply(c, s, act))
  {
    hide Inv, Unreached;
    match act
    case LoadHit(w, a) => LoadHitKeeps(c, s, w, a);
    case LoadMiss(w, a) => IssueKeeps(c, s, w, Loading(a, s.pts(w.core)));
    case StoreIssue(w, a, d) => IssueKeeps(c, s, w, Storing(a, d, s.pts(w.core)));
    case TakeLoad(w) =>
      if s.line(s.phase(w).addr).Valid? {
        TakeLoadValidKeeps(c, s, w);
      } else {
        TakeLoadMissKeeps(c, s, w);
      }
    case TakeStore(w) => TakeStoreKeeps(c, s, w);
    case Fill(a) => FillKeeps(c, s, a);
    case Answer(w) => AnswerKeeps(c, s, w);
    case EndAnswers(a) => EndAnswersKeeps(c, s, a);
    case Evict(a) => EvictKeeps(c, s, a);
    case Receive(w) => ReceiveKeeps(c, s, w);
    case DropLease(core, a) => DropLeaseKeeps(c, s, core, a);
  }

  lemma {:induction false} RunKeepsInv(c: Config, ss: seq<State>, acts: seq<Action>, n: nat)
    requires IsRun(c, ss, acts) && AllBeyond(c, ss, acts) && n < |ss|
    ensures Inv(c, ss[n])
  {
    hide IsBeyond;
    if n == 0 {
      InitiallyInv(c);
    } else {
      RunKeepsInv(c, ss, acts, n - 1);
      assert Inv(c, ss[n - 1]);
      StepKeepsInv(c, ss[n - 1], acts[n - 1]);
    }
  }

  // ----- the order in logical time

  ghost function InTime(log: seq<Op>): (nat, nat) -> bool {
    (p: nat, q: nat) =>
      p < |log| && q < |log| && (log[p].ts < log[q].ts || (log[p].ts == log[q].ts && p < q))
  }

  /** A load reads the version it was given: that store is before it in logical
      time, and every store before it is that one or an earlier version. */
  lemma {:induction false} LoadReadsLast(c: Config, s: State, p: nat)
    requires Inv(c, s) && p < |s.log| && !s.log[p].isWrite
    ensures ReadsLast(InTime(s.log), c.init, s.log, p)
  {
    var before := InTime(s.log);
    var a, v := s.log[p].addr, s.versions[p];
    assert EntryOk(c, s, p) && WritesOk(s, a);
    forall q: nat | q < |s.log| && Visible(before, s.log, q, p) ensures 0 < s.versions[q] <= v {
      VisibleIsOlder(c, s, q, p);
    }
    if v > 0 {
      var e := s.writes(a)[v - 1];
      assert WriteAt(s, a, v - 1);
      assert Visible(before, s.log, e.at, p);
      forall r: nat | r < |s.log| && r != e.at && Visible(before, s.log, r, p) ensures before(r, e.at) {
        assert EntryOk(c, s, r) && WriteAt(s, a, s.versions[r] - 1);
      }
    }
  }

  lemma {:induction false} VisibleIsOlder(c: Config, s: State, q: nat, p: nat)
    requires Inv(c, s) && p < |s.log| && q < |s.log| && !s.log[p].isWrite
    requires Visible(InTime(s.log), s.log, q, p)
    ensures 0 < s.versions[q] <= s.versions[p]
  {
    var a, v, k := s.log[p].addr, s.versions[p], s.versions[q];
    assert EntryOk(c, s, p) && EntryOk(c, s, q) && WritesOk(s, a);
    assert WriteAt(s, a, k - 1);
  }

  /** Whatever the interleaving, the evictions and the delays: a run is
      sequentially consistent if every store gets a timestamp beyond the copies
      of the value it replaces. */
  lemma {:induction false} RunIsSequentiallyConsistent(c: Config, ss: seq<State>, acts: seq<Action>)
    requires IsRun(c, ss, acts) && AllBeyond(c, ss, acts)
    ensures SequentiallyConsistent(c.init, ss[|acts|].log)
  {
    var s := ss[|acts|];
    RunKeepsInv(c, ss, acts, |acts|);
    var before := InTime(s.log);
    assert IsTotalOrder(before, |s.log|);
    assert Explains(before, c.init, s.log) by {
      forall p: nat | p < |s.log| && !s.log[p].isWrite ensures ReadsLast(before, c.init, s.log, p) {
        LoadReadsLast(c, s, p);
      }
    }
  }

  lemma {:induction false} TieFreeIsBeyond(c: Config, ss: seq<State>, acts: seq<Action>, k: nat)
    requires IsRun(c, ss, acts) && TieFree(c, ss, acts) && k <= |acts|
    ensures Inv(c, ss[k]) && AllBeyond(c, ss[..k + 1], acts[..k])
  {
    hide Inv, Unreached, NoTie;
    if k == 0 {
      InitiallyInv(c);
    } else {
      TieFreeIsBeyond(c, ss, acts, k - 1);
      assert forall n: nat :: n < k - 1 ==> ss[..k][n] == ss[..k + 1][n] && acts[..k - 1][n] == acts[..k][n];
      var act := acts[k - 1];
      if act.TakeStore? {
        NoTieIsUnreached(c, ss[k - 1], act.w);
        assert IsBeyond(c, ss[k - 1], act.w);
      }
      StepKeepsInv(c, ss[k - 1], act);
    }
  }

  /** In particular, it is if no store misses at the L2 with a timestamp that does
      not pass the bank's memory timestamp. */
  lemma {:induction false} TieFreeIsSequentiallyConsistent(c: Config, ss: seq<State>, acts: seq<Action>)
    requires IsRun(c, ss, acts) && TieFree(c, ss, acts)
    ensures SequentiallyConsistent(c.init, ss[|acts|].log)
  {
    TieFreeIsBeyond(c, ss, acts, |acts|);
    assert ss[..|acts| + 1] == ss && acts[..|acts|] == acts;
    RunIsSequentiallyConsistent(c, ss, acts);
  }
}
