/** The invariant behind the timestamp protocol, and sequential consistency of
    every run in which no store ties with a lease. */
module RccInvariant {
  import opened RccProtocol

  // ----- the invariant

  function DataOf(c: Config, s: State, a: Addr, v: nat): Data
    requires v <= |s.writes(a)|
  {
    if v == 0 then c.init(a) else s.writes(a)[v - 1].data
  }

  function TimeOf(s: State, a: Addr, v: nat): Time
    requires v <= |s.writes(a)|
  {
    if v == 0 then 0 else s.writes(a)[v - 1].ts
  }

  /** How far copies of the current value of a line may reach. */
  ghost predicate WithinLine(l: Line, mts: Time, r: Time) {
    match l
    case Absent => r <= mts
    case Filling(store, _, _, _, _) => store.NoStore? && r <= mts
    case Answering(_, _, _, rts) => r <= rts
    case Valid(_, _, _, rts) => r <= rts
  }

  /** A copy of version `v` usable until `r` ends before the next store. */
  ghost predicate Bounded(c: Config, s: State, a: Addr, v: nat, r: Time) {
    && v <= |s.writes(a)|
    && if v < |s.writes(a)| then r < s.writes(a)[v].ts else WithinLine(s.line(a), s.mts(c.bank(a)), r)
  }

  ghost predicate Copy(c: Config, s: State, a: Addr, d: Data, v: nat, wts: Time, r: Time) {
    Bounded(c, s, a, v, r) && d == DataOf(c, s, a, v) && TimeOf(s, a, v) <= wts
  }

  /** The stores to one address, in order, are the store entries of the log. */
  ghost predicate WritesOk(s: State, a: Addr) {
    && (forall i: nat :: i < |s.writes(a)| ==> WriteAt(s, a, i))
    && (forall i: nat, j: nat :: i < j < |s.writes(a)| ==>
          s.writes(a)[i].ts <= s.writes(a)[j].ts && s.writes(a)[i].at < s.writes(a)[j].at)
  }

  ghost predicate WriteAt(s: State, a: Addr, i: nat)
    requires i < |s.writes(a)|
  {
    var e := s.writes(a)[i];
    && e.at < |s.log| == |s.versions| && s.versions[e.at] == i + 1
    && s.log[e.at].addr == a && s.log[e.at].isWrite && s.log[e.at].data == e.data && s.log[e.at].ts == e.ts
  }

  ghost predicate EntryOk(c: Config, s: State, p: nat)
    requires p < |s.log| == |s.versions|
  {
    var op, v := s.log[p], s.versions[p];
    if op.isWrite then 0 < v <= |s.writes(op.addr)| && s.writes(op.addr)[v - 1].at == p
    else Copy(c, s, op.addr, op.data, v, op.ts, op.ts) && (v > 0 ==> s.writes(op.addr)[v - 1].at < p)
  }

  ghost predicate LineOk(c: Config, s: State, a: Addr) {
    var n, mts := |s.writes(a)|, s.mts(c.bank(a));
    match s.line(a)
    case Absent => s.mem(a) == DataOf(c, s, a, n) && TimeOf(s, a, n) <= mts
    case Filling(NoStore, _, _, _, _) => s.mem(a) == DataOf(c, s, a, n) && TimeOf(s, a, n) <= mts
    case Filling(Store(d), _, maxWrite, _, _) =>
      0 < n && d == DataOf(c, s, a, n) && TimeOf(s, a, n) <= Max(maxWrite, mts)
    case Answering(d, dirty, wts, rts) =>
      d == DataOf(c, s, a, n) && TimeOf(s, a, n) <= wts <= rts && (!dirty ==> s.mem(a) == d)
    case Valid(d, dirty, wts, rts) =>
      d == DataOf(c, s, a, n) && TimeOf(s, a, n) <= wts && (!dirty ==> s.mem(a) == d)
  }

  ghost predicate LeaseOk(c: Config, s: State, x: Spot) {
    s.lease(x).Lease? ==>
      Copy(c, s, x.addr, s.lease(x).data, s.lease(x).version, s.pts(x.core), s.lease(x).rts)
  }

  ghost predicate PhaseOk(c: Config, s: State, w: Wid) {
    match s.phase(w)
    case Idle => true
    case Loading(_, pts) => pts <= s.pts(w.core)
    case Storing(_, _, pts) => pts <= s.pts(w.core)
    case Queued(a, pts) =>
      && pts <= s.pts(w.core)
      && (s.line(a).Filling? || s.line(a).Answering?)
      && (s.line(a).Filling? ==> s.line(a).pendingRead && pts <= s.line(a).maxRead)
      && (s.line(a).Answering? ==> pts <= s.line(a).rts)
    case DataBack(a, d, v, wts, rts) => Copy(c, s, a, d, v, wts, rts)
    case AckBack(_, _) => true
  }

  /** No operation of a warp so far is later than this. */
  function Floor(s: State, w: Wid): Time {
    match s.phase(w)
    case Idle => s.pts(w.core)
    case Loading(_, pts) => pts
    case Storing(_, _, pts) => pts
    case Queued(_, pts) => pts
    case DataBack(_, _, _, wts, _) => Max(s.pts(w.core), wts)
    case AckBack(_, wts) => Max(s.pts(w.core), wts)
  }

  ghost predicate OrderOk(s: State) {
    && (forall p: nat :: p < |s.log| ==> s.log[p].ts <= Floor(s, s.log[p].who))
    && (forall p: nat, q: nat :: p < q < |s.log| && s.log[p].who == s.log[q].who ==> s.log[p].ts <= s.log[q].ts)
  }

  ghost predicate Inv(c: Config, s: State) {
    && |s.log| == |s.versions|
    && (forall a: Addr :: WritesOk(s, a))
    && (forall a: Addr :: LineOk(c, s, a))
    && (forall p: nat :: p < |s.log| ==> EntryOk(c, s, p))
    && (forall x: Spot :: LeaseOk(c, s, x))
    && (forall w: Wid :: PhaseOk(c, s, w))
    && OrderOk(s)
  }

  // ----- what steps have in common

  /** Nothing recorded is lost, copies stay bounded, clocks only advance. */
  ghost predicate Grows(c: Config, s: State, s': State) {
    && s.log <= s'.log && s.versions <= s'.versions && |s'.log| == |s'.versions|
    && (forall a: Addr :: s.writes(a) <= s'.writes(a))
    && (forall a: Addr, v: nat, r: Time :: Bounded(c, s, a, v, r) ==> Bounded(c, s', a, v, r))
    && (forall core: nat :: s.pts(core) <= s'.pts(core))
  }

  lemma {:induction false} CopyStays(c: Config, s: State, s': State, a: Addr, d: Data, v: nat, wts: Time,
                                     wts': Time, r: Time)
    requires Grows(c, s, s') && Copy(c, s, a, d, v, wts, r) && wts <= wts'
    ensures Copy(c, s', a, d, v, wts', r)
  {
    assert Bounded(c, s', a, v, r);
    assert s.writes(a) <= s'.writes(a);
  }

  lemma {:induction false} EntryStays(c: Config, s: State, s': State, p: nat)
    requires Grows(c, s, s') && |s.log| == |s.versions| && p < |s.log| && EntryOk(c, s, p)
    ensures EntryOk(c, s', p)
  {
    var op, v := s.log[p], s.versions[p];
    assert s'.log[p] == op && s'.versions[p] == v;
    assert s.writes(op.addr) <= s'.writes(op.addr);
    if !op.isWrite {
      CopyStays(c, s, s', op.addr, op.data, v, op.ts, op.ts, op.ts);
    }
  }

  lemma {:induction false} WritesStay(c: Config, s: State, s': State, a: Addr)
    requires Grows(c, s, s') && WritesOk(s, a) && s'.writes(a) == s.writes(a)
    ensures WritesOk(s', a)
  {
    forall i: nat | i < |s'.writes(a)| ensures WriteAt(s', a, i) {
      assert WriteAt(s, a, i);
    }
  }

  lemma {:induction false} LeaseStays(c: Config, s: State, s': State, x: Spot)
    requires Grows(c, s, s') && LeaseOk(c, s, x) && s'.lease(x) == s.lease(x)
    ensures LeaseOk(c, s', x)
  {
    var l := s.lease(x);
    if l.Lease? {
      CopyStays(c, s, s', x.addr, l.data, l.version, s.pts(x.core), s'.pts(x.core), l.rts);
    }
  }

  lemma {:induction false} PhaseStays(c: Config, s: State, s': State, w: Wid)
    requires Grows(c, s, s') && PhaseOk(c, s, w) && s'.phase(w) == s.phase(w)
    requires s.phase(w).Queued? ==> s'.line(s.phase(w).addr) == s.line(s.phase(w).addr)
    ensures PhaseOk(c, s', w)
  {
    assert s.pts(w.core) <= s'.pts(w.core);
    if s.phase(w).DataBack? {
      var DataBack(a, d, v, wts, rts) := s.phase(w);
      CopyStays(c, s, s', a, d, v, wts, wts, rts);
    }
  }

  /** Recording one more operation at or above its warp's floor. */
  lemma {:induction false} OrderExtends(s: State, s': State, op: Op)
    requires OrderOk(s) && s'.log == s.log + [op] && Floor(s, op.who) <= op.ts <= Floor(s', op.who)
    requires forall w: Wid :: Floor(s, w) <= Floor(s', w)
    ensures OrderOk(s')
  {
    forall p: nat | p < |s'.log| ensures s'.log[p].ts <= Floor(s', s'.log[p].who) {
      if p < |s.log| {
        assert s'.log[p] == s.log[p];
      }
    }
    forall p: nat, q: nat | p < q < |s'.log| && s'.log[p].who == s'.log[q].who
      ensures s'.log[p].ts <= s'.log[q].ts
    {
      assert s'.log[p] == s.log[p];
      if q < |s.log| {
        assert s'.log[q] == s.log[q];
      }
    }
  }

  lemma {:induction false} OrderKept(s: State, s': State)
    requires OrderOk(s) && s'.log == s.log && forall w: Wid :: Floor(s, w) <= Floor(s', w)
    ensures OrderOk(s')
  {
  }

  /** A step that only stretches lines records nothing new about stores. */
  lemma {:induction false} GrowsWithLines(c: Config, s: State, s': State)
    requires s.log <= s'.log && s.versions <= s'.versions && |s'.log| == |s'.versions|
    requires s'.writes == s.writes && forall core: nat :: s.pts(core) <= s'.pts(core)
    requires forall a: Addr, r: Time ::
               WithinLine(s.line(a), s.mts(c.bank(a)), r) ==> WithinLine(s'.line(a), s'.mts(c.bank(a)), r)
    ensures Grows(c, s, s')
  {
  }

  /** What is left to show of a step by warp `w` on line `a` and lease `x`. */
  ghost predicate Changed(c: Config, s: State, s': State, w: Wid, a: Addr, x: Spot) {
    && |s.log| <= |s'.log| == |s'.versions|
    && WritesOk(s', a) && LineOk(c, s', a) && LeaseOk(c, s', x) && PhaseOk(c, s', w) && OrderOk(s')
    && (forall p: nat :: |s.log| <= p < |s'.log| ==> EntryOk(c, s', p))
    && (s'.line(a) != s.line(a) ==>
          forall u: Wid :: u != w && s.phase(u).Queued? && s.phase(u).addr == a ==> PhaseOk(c, s', u))
  }

  ghost predicate Framed(c: Config, s: State, s': State, w: Wid, a: Addr, x: Spot) {
    && (forall b: Addr :: b != a ==>
          s'.writes(b) == s.writes(b) && s'.line(b) == s.line(b) && s'.mem(b) == s.mem(b))
    && (forall b: nat :: s.mts(b) <= s'.mts(b))
    && (forall y: Spot :: y != x ==> s'.lease(y) == s.lease(y))
    && (forall u: Wid :: u != w ==> s'.phase(u) == s.phase(u))
  }

  lemma {:induction false} InvKept(c: Config, s: State, s': State, w: Wid, a: Addr, x: Spot)
    requires Inv(c, s) && Grows(c, s, s') && Framed(c, s, s', w, a, x) && Changed(c, s, s', w, a, x)
    ensures Inv(c, s')
  {
    hide Copy, Bounded, OrderOk;
    forall b: Addr ensures WritesOk(s', b) && LineOk(c, s', b) {
      assert WritesOk(s, b) && LineOk(c, s, b);
      if b != a {
        WritesStay(c, s, s', b);
      }
    }
    forall p: nat | p < |s'.log| ensures EntryOk(c, s', p) {
      if p < |s.log| {
        EntryStays(c, s, s', p);
      }
    }
    forall y: Spot ensures LeaseOk(c, s', y) {
      if y != x {
        LeaseStays(c, s, s', y);
      }
    }
    forall u: Wid ensures PhaseOk(c, s', u) {
      if u != w && !(s.phase(u).Queued? && s.phase(u).addr == a && s'.line(a) != s.line(a)) {
        PhaseStays(c, s, s', u);
      }
    }
  }

  // ----- the steps

  lemma {:induction false} LoadHitKeeps(c: Config, s: State, w: Wid, a: Addr)
    requires Inv(c, s) && Enabled(s, LoadHit(w, a))
    ensures Inv(c, Apply(c, s, LoadHit(w, a)))
  {
    var s' := Apply(c, s, LoadHit(w, a));
    var x := Spot(w.core, a);
    GrowsWithLines(c, s, s');
    assert LeaseOk(c, s, x) && LineOk(c, s, a) && PhaseOk(c, s, w) && WritesOk(s, a);
    LeaseStays(c, s, s', x);
    OrderExtends(s, s', s'.log[|s.log|]);
    PhaseStays(c, s, s', w);
    WritesStay(c, s, s', a);
    HitEntryOk(c, s, s', x);
    InvKept(c, s, s', w, a, x);
  }

  lemma {:induction false} HitEntryOk(c: Config, s: State, s': State, x: Spot)
    requires LeaseOk(c, s', x) && s'.lease(x).Lease? && WritesOk(s, x.addr)
    requires s'.pts(x.core) <= s'.lease(x).rts && s'.writes == s.writes
    requires |s'.log| == |s'.versions| == |s.log| + 1
    requires s'.log[|s.log|] == Op(s'.log[|s.log|].who, x.addr, false, s'.lease(x).data, s'.pts(x.core))
    requires s'.versions[|s.log|] == s'.lease(x).version
    ensures EntryOk(c, s', |s.log|)
  {
    var l := s'.lease(x);
    BoundedBelow(c, s', x.addr, l.version, l.rts, s'.pts(x.core));
    if l.version > 0 {
      assert WriteAt(s, x.addr, l.version - 1);
    }
  }

  lemma {:induction false} BoundedBelow(c: Config, s: State, a: Addr, v: nat, r: Time, r': Time)
    requires Bounded(c, s, a, v, r) && r' <= r
    ensures Bounded(c, s, a, v, r')
  {
  }

  /** A load that the L2 answers: the value, the version and the timestamp it logs. */
  lemma {:induction false} AnsweredEntryOk(c: Config, s: State, s': State, a: Addr, d: Data, wts: Time, ts: Time,
                                           r: Time)
    requires Copy(c, s', a, d, |s.writes(a)|, wts, r) && wts <= ts <= r
    requires WritesOk(s, a) && s'.writes == s.writes && |s'.log| == |s'.versions| == |s.log| + 1
    requires s'.log[|s.log|] == Op(s'.log[|s.log|].who, a, false, d, ts) && s'.versions[|s.log|] == |s.writes(a)|
    ensures EntryOk(c, s', |s.log|)
  {
    BoundedBelow(c, s', a, |s.writes(a)|, r, ts);
    if s.writes(a) != [] {
      assert WriteAt(s, a, |s.writes(a)| - 1);
    }
  }

  lemma {:induction false} IssueKeeps(c: Config, s: State, w: Wid, p: Phase)
    requires Inv(c, s) && s.phase(w).Idle? && (p.Loading? || p.Storing?) && p.pts == s.pts(w.core)
    ensures Inv(c, s.(phase := Set<Wid, Phase>(s.phase, w, p)))
  {
    var s' := s.(phase := Set<Wid, Phase>(s.phase, w, p));
    var x := Spot(w.core, p.addr);
    GrowsWithLines(c, s, s');
    assert LeaseOk(c, s, x) && LineOk(c, s, p.addr) && WritesOk(s, p.addr);
    LeaseStays(c, s, s', x);
    OrderKept(s, s');
    WritesStay(c, s, s', p.addr);
    InvKept(c, s, s', w, p.addr, x);
  }

  lemma {:induction false} TakeLoadValidKeeps(c: Config, s: State, w: Wid)
    requires Inv(c, s) && Enabled(s, TakeLoad(w)) && s.line(s.phase(w).addr).Valid?
    ensures Inv(c, Apply(c, s, TakeLoad(w)))
  {
    var s' := Apply(c, s, TakeLoad(w));
    var a, pts := s.phase(w).addr, s.phase(w).pts;
    var x := Spot(w.core, a);
    var l := s'.line(a);
    assert LeaseOk(c, s, x) && LineOk(c, s, a) && PhaseOk(c, s, w) && WritesOk(s, a);
    GrowsWithLines(c, s, s');
    LeaseStays(c, s, s', x);
    WritesStay(c, s, s', a);
    AnsweredEntryOk(c, s, s', a, l.data, l.wts, Max(pts, l.wts), l.rts);
    OrderExtends(s, s', s'.log[|s.log|]);
    assert forall u: Wid :: s.phase(u).Queued? && s.phase(u).addr == a ==> !PhaseOk(c, s, u);
    InvKept(c, s, s', w, a, x);
  }

  lemma {:induction false} TakeLoadMissKeeps(c: Config, s: State, w: Wid)
    requires Inv(c, s) && Enabled(s, TakeLoad(w)) && !s.line(s.phase(w).addr).Valid?
    ensures Inv(c, Apply(c, s, TakeLoad(w)))
  {
    var s' := Apply(c, s, TakeLoad(w));
    var a, pts := s.phase(w).addr, s.phase(w).pts;
    var x := Spot(w.core, a);
    assert LeaseOk(c, s, x) && LineOk(c, s, a) && PhaseOk(c, s, w) && WritesOk(s, a);
    GrowsWithLines(c, s, s');
    LeaseStays(c, s, s', x);
    WritesStay(c, s, s', a);
    OrderKept(s, s');
    forall u: Wid | u != w && s.phase(u).Queued? && s.phase(u).addr == a ensures PhaseOk(c, s', u) {
      assert PhaseOk(c, s, u);
    }
    InvKept(c, s, s', w, a, x);
  }

  lemma {:induction false} FillKeeps(c: Config, s: State, a: Addr)
    requires Inv(c, s) && Enabled(s, Fill(a))
    ensures Inv(c, Apply(c, s, Fill(a)))
  {
    var s' := Apply(c, s, Fill(a));
    var x := Spot(0, a);
    var w := Wid(0, 0);
    assert LeaseOk(c, s, x) && LineOk(c, s, a) && PhaseOk(c, s, w) && WritesOk(s, a);
    GrowsWithLines(c, s, s');
    LeaseStays(c, s, s', x);
    WritesStay(c, s, s', a);
    OrderKept(s, s');
    FillAnswersQueue(c, s, a);
    if !(s.phase(w).Queued? && s.phase(w).addr == a) {
      PhaseStays(c, s, s', w);
    }
    InvKept(c, s, s', w, a, x);
  }

  lemma {:induction false} FillAnswersQueue(c: Config, s: State, a: Addr)
    requires Inv(c, s) && Enabled(s, Fill(a))
    ensures forall u: Wid :: s.phase(u).Queued? && s.phase(u).addr == a ==> PhaseOk(c, Apply(c, s, Fill(a)), u)
  {
    forall u: Wid | s.phase(u).Queued? && s.phase(u).addr == a ensures PhaseOk(c, Apply(c, s, Fill(a)), u) {
      assert PhaseOk(c, s, u);
    }
  }

  lemma {:induction false} AnswerKeeps(c: Config, s: State, w: Wid)
    requires Inv(c, s) && Enabled(s, Answer(w))
    ensures Inv(c, Apply(c, s, Answer(w)))
  {
    var s' := Apply(c, s, Answer(w));
    var a, pts := s.phase(w).addr, s.phase(w).pts;
    var x := Spot(w.core, a);
    var l := s'.line(a);
    assert LeaseOk(c, s, x) && LineOk(c, s, a) && PhaseOk(c, s, w) && WritesOk(s, a);
    GrowsWithLines(c, s, s');
    LeaseStays(c, s, s', x);
    WritesStay(c, s, s', a);
    AnsweredEntryOk(c, s, s', a, l.data, l.wts, Max(pts, l.wts), l.rts);
    OrderExtends(s, s', s'.log[|s.log|]);
    InvKept(c, s, s', w, a, x);
  }

  lemma {:induction false} EndAnswersKeeps(c: Config, s: State, a: Addr)
    requires Inv(c, s) && Enabled(s, EndAnswers(a))
    ensures Inv(c, Apply(c, s, EndAnswers(a)))
  {
    var s' := Apply(c, s, EndAnswers(a));
    var x := Spot(0, a);
    var w := Wid(0, 0);
    assert LeaseOk(c, s, x) && LineOk(c, s, a) && PhaseOk(c, s, w) && WritesOk(s, a);
    GrowsWithLines(c, s, s');
    LeaseStays(c, s, s', x);
    WritesStay(c, s, s', a);
    OrderKept(s, s');
    PhaseStays(c, s, s', w);
    InvKept(c, s, s', w, a, x);
  }

  lemma {:induction false} EvictKeeps(c: Config, s: State, a: Addr)
    requires Inv(c, s) && Enabled(s, Evict(a))
    ensures Inv(c, Apply(c, s, Evict(a)))
  {
    var s' := Apply(c, s, Evict(a));
    var x := Spot(0, a);
    var w := Wid(0, 0);
    assert LeaseOk(c, s, x) && LineOk(c, s, a) && PhaseOk(c, s, w) && WritesOk(s, a);
    GrowsWithLines(c, s, s');
    LeaseStays(c, s, s', x);
    WritesStay(c, s, s', a);
    OrderKept(s, s');
    PhaseStays(c, s, s', w);
    assert forall u: Wid :: s.phase(u).Queued? && s.phase(u).addr == a ==> !PhaseOk(c, s, u);
    InvKept(c, s, s', w, a, x);
  }

  lemma {:induction false} ReceiveKeeps(c: Config, s: State, w: Wid)
    requires Inv(c, s) && Enabled(s, Receive(w))
    ensures Inv(c, Apply(c, s, Receive(w)))
  {
    var s' := Apply(c, s, Receive(w));
    var p := s.phase(w);
    var x := Spot(w.core, p.addr);
    assert LineOk(c, s, p.addr) && PhaseOk(c, s, w) && WritesOk(s, p.addr);
    GrowsWithLines(c, s, s');
    if p.DataBack? {
      CopyStays(c, s, s', p.addr, p.data, p.version, p.wts, s'.pts(w.core), p.rts);
    }
    WritesStay(c, s, s', p.addr);
    OrderKept(s, s');
    InvKept(c, s, s', w, p.addr, x);
  }

  lemma {:induction false} DropLeaseKeeps(c: Config, s: State, core: nat, a: Addr)
    requires Inv(c, s) && Enabled(s, DropLease(core, a))
    ensures Inv(c, Apply(c, s, DropLease(core, a)))
  {
    var s' := Apply(c, s, DropLease(core, a));
    var w := Wid(0, 0);
    assert LineOk(c, s, a) && PhaseOk(c, s, w) && WritesOk(s, a);
    GrowsWithLines(c, s, s');
    WritesStay(c, s, s', a);
    OrderKept(s, s');
    PhaseStays(c, s, s', w);
    InvKept(c, s, s', w, a, Spot(core, a));
  }

  /** No copy of the current value of `a`, held, on its way or already read, is
      usable at time `t` or later. */
  ghost predicate Unreached(s: State, a: Addr, t: Time) {
    var n := |s.writes(a)|;
    && (forall x: Spot :: x.addr == a && s.lease(x).Lease? && s.lease(x).version == n ==> s.lease(x).rts < t)
    && (forall u: Wid :: s.phase(u).DataBack? && s.phase(u).addr == a && s.phase(u).version == n ==> s.phase(u).rts < t)
    && (forall p: nat :: (p < |s.log| && p < |s.versions| && s.log[p].addr == a && !s.log[p].isWrite
                          && s.versions[p] == n) ==> s.log[p].ts < t)
  }

  /** The store does not find its block missing with every clock it knows at or
      below the bank's memory timestamp, which covers the leases still out there. */
  predicate NoTie(c: Config, s: State, w: Wid)
    requires s.phase(w).Storing?
  {
    var a := s.phase(w).addr;
    s.line(a).Absent? || (s.line(a).Filling? && s.line(a).store.NoStore?) ==>
      s.phase(w).pts > s.mts(c.bank(a))
  }

  lemma {:induction false} NoTieIsUnreached(c: Config, s: State, w: Wid)
    requires Inv(c, s) && s.phase(w).Storing? && NoTie(c, s, w)
    ensures Unreached(s, s.phase(w).addr, StoreTime(c, s, s.phase(w).addr, s.phase(w).pts))
  {
    hide OrderOk, LineOk, WritesOk;
    var a := s.phase(w).addr;
    var t := StoreTime(c, s, a, s.phase(w).pts);
    forall x: Spot | x.addr == a && s.lease(x).Lease? && s.lease(x).version == |s.writes(a)|
      ensures s.lease(x).rts < t
    {
      assert LeaseOk(c, s, x);
    }
    forall u: Wid | s.phase(u).DataBack? && s.phase(u).addr == a && s.phase(u).version == |s.writes(a)|
      ensures s.phase(u).rts < t
    {
      assert PhaseOk(c, s, u);
    }
    forall p: nat | p < |s.log| && s.log[p].addr == a && !s.log[p].isWrite && s.versions[p] == |s.writes(a)|
      ensures s.log[p].ts < t
    {
      assert EntryOk(c, s, p);
    }
  }

  lemma {:induction false} CopyOutlivesStore(c: Config, s: State, w: Wid, b: Addr, d: Data, v: nat, wts: Time, r: Time)
    requires |s.log| == |s.versions| && Enabled(s, TakeStore(w)) && Copy(c, s, b, d, v, wts, r)
    requires b == s.phase(w).addr && v == |s.writes(b)| ==> r < StoreTime(c, s, b, s.phase(w).pts)
    ensures Copy(c, Apply(c, s, TakeStore(w)), b, d, v, wts, r)
  {
  }

  /** A store keeps the invariant exactly when its timestamp is beyond every copy
      of the value it replaces. */
  lemma {:induction false} TakeStoreKeepsIff(c: Config, s: State, w: Wid)
    requires Inv(c, s) && Enabled(s, TakeStore(w))
    ensures Inv(c, Apply(c, s, TakeStore(w))) <==>
            Unreached(s, s.phase(w).addr, StoreTime(c, s, s.phase(w).addr, s.phase(w).pts))
  {
    hide Inv, Unreached;
    if Unreached(s, s.phase(w).addr, StoreTime(c, s, s.phase(w).addr, s.phase(w).pts)) {
      TakeStoreKeeps(c, s, w);
    }
    if Inv(c, Apply(c, s, TakeStore(w))) {
      InvMeansUnreached(c, s, w);
    }
  }

  lemma {:induction false} InvMeansUnreached(c: Config, s: State, w: Wid)
    requires Inv(c, s) && Enabled(s, TakeStore(w)) && Inv(c, Apply(c, s, TakeStore(w)))
    ensures Unreached(s, s.phase(w).addr, StoreTime(c, s, s.phase(w).addr, s.phase(w).pts))
  {
    var s' := Apply(c, s, TakeStore(w));
    var a, n := s.phase(w).addr, |s.writes(s.phase(w).addr)|;
    var t := StoreTime(c, s, a, s.phase(w).pts);
    forall x: Spot | x.addr == a && s.lease(x).Lease? && s.lease(x).version == n ensures s.lease(x).rts < t {
      assert LeaseOk(c, s', x);
    }
    forall u: Wid | s.phase(u).DataBack? && s.phase(u).addr == a && s.phase(u).version == n ensures s.phase(u).rts < t {
      assert PhaseOk(c, s', u);
    }
    forall p: nat | p < |s.log| && s.log[p].addr == a && !s.log[p].isWrite && s.versions[p] == n
      ensures s.log[p].ts < t
    {
      assert s'.log[p] == s.log[p] && s'.versions[p] == s.versions[p];
      assert EntryOk(c, s', p);
    }
  }

  lemma {:induction false} TakeStoreKeeps(c: Config, s: State, w: Wid)
    requires Inv(c, s) && Enabled(s, TakeStore(w))
    requires Unreached(s, s.phase(w).addr, StoreTime(c, s, s.phase(w).addr, s.phase(w).pts))
    ensures Inv(c, Apply(c, s, TakeStore(w)))
  {
    hide Copy, Bounded, EntryOk;
    var s' := Apply(c, s, TakeStore(w));
    var a := s.phase(w).addr;
    assert LineOk(c, s, a) && PhaseOk(c, s, w) && WritesOk(s, a);
    NewWriteOk(c, s, w);
    OrderExtends(s, s', s'.log[|s.log|]);
    forall b: Addr ensures WritesOk(s', b) && LineOk(c, s', b) {
      assert WritesOk(s, b) && LineOk(c, s, b);
      OtherWritesStay(c, s, w, b);
    }
    forall x: Spot ensures LeaseOk(c, s', x) {
      assert LeaseOk(c, s, x);
      if s.lease(x).Lease? {
        CopyOutlivesStore(c, s, w, x.addr, s.lease(x).data, s.lease(x).version, s.pts(x.core), s.lease(x).rts);
      }
    }
    forall p: nat | p < |s'.log| ensures EntryOk(c, s', p) {
      if p < |s.log| {
        EntryOutlivesStore(c, s, w, p);
      }
    }
    forall u: Wid ensures PhaseOk(c, s', u) {
      PhaseOutlivesStore(c, s, w, u);
    }
  }

  lemma {:induction false} OtherWritesStay(c: Config, s: State, w: Wid, b: Addr)
    requires |s.log| == |s.versions| && Enabled(s, TakeStore(w)) && WritesOk(s, b) && LineOk(c, s, b)
    ensures b != s.phase(w).addr ==> WritesOk(Apply(c, s, TakeStore(w)), b) && LineOk(c, Apply(c, s, TakeStore(w)), b)
  {
    var s' := Apply(c, s, TakeStore(w));
    if b != s.phase(w).addr {
      forall i: nat | i < |s'.writes(b)| ensures WriteAt(s', b, i) {
        assert WriteAt(s, b, i);
      }
    }
  }

  lemma {:induction false} EntryOutlivesStore(c: Config, s: State, w: Wid, p: nat)
    requires Inv(c, s) && Enabled(s, TakeStore(w)) && p < |s.log|
    requires Unreached(s, s.phase(w).addr, StoreTime(c, s, s.phase(w).addr, s.phase(w).pts))
    ensures EntryOk(c, Apply(c, s, TakeStore(w)), p)
  {
    var s' := Apply(c, s, TakeStore(w));
    var op, v := s.log[p], s.versions[p];
    assert EntryOk(c, s, p);
    assert s'.log[p] == op && s'.versions[p] == v && s.writes(op.addr) <= s'.writes(op.addr);
    if !op.isWrite {
      CopyOutlivesStore(c, s, w, op.addr, op.data, v, op.ts, op.ts);
    }
  }

  lemma {:induction false} PhaseOutlivesStore(c: Config, s: State, w: Wid, u: Wid)
    requires Inv(c, s) && Enabled(s, TakeStore(w))
    requires Unreached(s, s.phase(w).addr, StoreTime(c, s, s.phase(w).addr, s.phase(w).pts))
    ensures PhaseOk(c, Apply(c, s, TakeStore(w)), u)
  {
    assert PhaseOk(c, s, u);
    if s.phase(u).DataBack? {
      var DataBack(a, d, v, wts, rts) := s.phase(u);
      CopyOutlivesStore(c, s, w, a, d, v, wts, rts);
    }
  }

  lemma {:induction false} NewWriteOk(c: Config, s: State, w: Wid)
    requires |s.log| == |s.versions| && Enabled(s, TakeStore(w))
    requires WritesOk(s, s.phase(w).addr) && LineOk(c, s, s.phase(w).addr)
    ensures var s' := Apply(c, s, TakeStore(w)); var a := s.phase(w).addr;
            WritesOk(s', a) && LineOk(c, s', a) && EntryOk(c, s', |s.log|)
  {
    var s' := Apply(c, s, TakeStore(w));
    var a := s.phase(w).addr;
    forall i: nat | i < |s'.writes(a)| ensures WriteAt(s', a, i) {
      if i < |s.writes(a)| {
        assert WriteAt(s, a, i);
      }
    }
    forall i: nat, j: nat | i < j < |s'.writes(a)|
      ensures s'.writes(a)[i].ts <= s'.writes(a)[j].ts && s'.writes(a)[i].at < s'.writes(a)[j].at
    {
      if j == |s.writes(a)| {
        assert WriteAt(s, a, i) && s.writes(a)[i].ts <= TimeOf(s, a, j);
      }
    }
  }
}
