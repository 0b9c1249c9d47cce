/** The timestamp protocol between the L1 caches and the L2 banks: logical clocks
    per core, leases on L1 copies, and write timestamps chosen by the L2.

    Warps have one memory operation outstanding at a time.  The network may hold
    a message back for any time and deliver in any order.  `log` records every
    load and store at the point where its value and timestamp are fixed: a hit at
    the L1, everything else at the L2.

    A data value stands for the version of a block that a lease belongs to; the
    bytes of the block, which the L1 does not always move, are not modelled. */
module RccProtocol {
  type Time = nat
  type Addr = nat
  type Data = nat

  datatype Wid = Wid(core: nat, warp: nat)

  datatype Spot = Spot(core: nat, addr: Addr)

  datatype Op = Op(who: Wid, addr: Addr, isWrite: bool, data: Data, ts: Time)

  /** What a warp is waiting for.  `Queued` is a load merged into a pending fill. */
  datatype Phase =
    | Idle
    | Loading(addr: Addr, pts: Time)
    | Storing(addr: Addr, data: Data, pts: Time)
    | Queued(addr: Addr, pts: Time)
    | DataBack(addr: Addr, data: Data, version: nat, wts: Time, rts: Time)
    | AckBack(addr: Addr, wts: Time)

  datatype Lease = NoLease | Lease(data: Data, version: nat, rts: Time)

  /** A line of the L2.  `Filling` waits for memory; `Answering` is a line just
      filled whose queued loads are being answered. */
  datatype Line =
    | Absent
    | Filling(store: StoreBuffer, maxRead: Time, maxWrite: Time, delta: Time, pendingRead: bool)
    | Answering(data: Data, dirty: bool, wts: Time, rts: Time)
    | Valid(data: Data, dirty: bool, wts: Time, rts: Time)

  datatype StoreBuffer = NoStore | Store(data: Data)

  /** One committed store: its value, its timestamp, and its position in the log. */
  datatype Write = Write(data: Data, ts: Time, at: nat)

  /** `writes` and `versions` are bookkeeping: the stores per address in the order
      in which the L2 took them, and the store each log entry reads or makes. */
  datatype State = State(
    pts: nat -> Time,
    lease: Spot -> Lease,
    phase: Wid -> Phase,
    line: Addr -> Line,
    mts: nat -> Time,
    mem: Addr -> Data,
    log: seq<Op>,
    writes: Addr -> seq<Write>,
    versions: seq<nat>)

  /** The bank that holds an address, the length of a lease and the initial memory
      are parameters. */
  datatype Config = Config(bank: Addr -> nat, delta: Time, init: Addr -> Data)

  datatype Action =
    | LoadHit(w: Wid, a: Addr)
    | LoadMiss(w: Wid, a: Addr)
    | StoreIssue(w: Wid, a: Addr, d: Data)
    | TakeLoad(w: Wid)
    | TakeStore(w: Wid)
    | Fill(a: Addr)
    | Answer(w: Wid)
    | EndAnswers(a: Addr)
    | Evict(a: Addr)
    | Receive(w: Wid)
    | DropLease(core: nat, a: Addr)

  function Max(x: Time, y: Time): Time { if x < y then y else x }

  function Set<K(==), V>(f: K -> V, k: K, v: V): K -> V {
    (x: K) => if x == k then v else f(x)
  }

  function Initial(c: Config): State {
    State(_ => 0, _ => NoLease, _ => Idle, _ => Absent, _ => 0, c.init, [], _ => [], [])
  }

  // ----- when an action may happen

  predicate Live(s: State, core: nat, a: Addr) {
    s.lease(Spot(core, a)).Lease? && s.lease(Spot(core, a)).rts >= s.pts(core)
  }

  ghost predicate Enabled(s: State, act: Action) {
    match act
    case LoadHit(w, a) => s.phase(w).Idle? && Live(s, w.core, a)
    case LoadMiss(w, a) => s.phase(w).Idle? && !Live(s, w.core, a)
    case StoreIssue(w, _, _) => s.phase(w).Idle?
    case TakeLoad(w) => s.phase(w).Loading? && !s.line(s.phase(w).addr).Answering?
    case TakeStore(w) => s.phase(w).Storing? && !s.line(s.phase(w).addr).Answering?
    case Fill(a) => s.line(a).Filling?
    case Answer(w) => s.phase(w).Queued? && s.line(s.phase(w).addr).Answering?
    case EndAnswers(a) => s.line(a).Answering? && forall w :: s.phase(w).Queued? ==> s.phase(w).addr != a
    case Evict(a) => s.line(a).Valid?
    case Receive(w) => s.phase(w).DataBack? || s.phase(w).AckBack?
    case DropLease(_, _) => true
  }

  // ----- what it does

  /** The timestamp a store gets: beyond every lease granted on a line that is
      present, but only the bank's memory timestamp when it is not. */
  function StoreTime(c: Config, s: State, a: Addr, pts: Time): Time {
    match s.line(a)
    case Valid(_, _, wts, rts) => Max(Max(pts, wts), rts + 1)
    case Answering(_, _, wts, rts) => Max(Max(pts, wts), rts + 1)
    case Filling(_, _, maxWrite, _, _) => Max(Max(pts, maxWrite), s.mts(c.bank(a)))
    case Absent => Max(pts, s.mts(c.bank(a)))
  }

  function LineAfterStore(c: Config, s: State, a: Addr, d: Data, pts: Time): Line {
    match s.line(a)
    case Valid(_, _, _, rts) => Valid(d, true, StoreTime(c, s, a, pts), rts)
    case Answering(_, _, _, rts) => Answering(d, true, StoreTime(c, s, a, pts), rts)
    case Filling(_, maxRead, maxWrite, delta, pendingRead) =>
      Filling(Store(d), maxRead, Max(pts, maxWrite), delta, pendingRead)
    case Absent => Filling(Store(d), 0, pts, 0, false)
  }

  function Logged(s: State, op: Op, version: nat): State {
    s.(log := s.log + [op], versions := s.versions + [version])
  }

  function Filled(c: Config, s: State, a: Addr): Line
    requires s.line(a).Filling?
  {
    var Filling(store, maxRead, maxWrite, delta, pendingRead) := s.line(a);
    var mts := s.mts(c.bank(a));
    var data := if store.Store? then store.data else s.mem(a);
    var wts := if store.Store? then Max(maxWrite, mts) else mts;
    if pendingRead then Answering(data, store.Store?, wts, Max(maxRead + delta, Max(wts + delta, mts)))
    else Valid(data, store.Store?, wts, mts)
  }

  function Apply(c: Config, s: State, act: Action): State
    requires Enabled(s, act)
  {
    match act
    case LoadHit(w, a) =>
      var l := s.lease(Spot(w.core, a));
      Logged(s, Op(w, a, false, l.data, s.pts(w.core)), l.version)
    case LoadMiss(w, a) =>
      s.(phase := Set<Wid, Phase>(s.phase, w, Loading(a, s.pts(w.core))))
    case StoreIssue(w, a, d) =>
      s.(phase := Set<Wid, Phase>(s.phase, w, Storing(a, d, s.pts(w.core))))
    case TakeLoad(w) =>
      var a, pts := s.phase(w).addr, s.phase(w).pts;
      (match s.line(a)
       case Valid(data, dirty, wts, rts) =>
         var rts' := Max(pts + c.delta, Max(wts + c.delta, rts));
         var v := |s.writes(a)|;
         Logged(s.(line := Set<Addr, Line>(s.line, a, Valid(data, dirty, wts, rts')),
                   phase := Set<Wid, Phase>(s.phase, w, DataBack(a, data, v, wts, rts'))),
                Op(w, a, false, data, Max(pts, wts)), v)
       case Filling(store, maxRead, maxWrite, delta, _) =>
         s.(line := Set<Addr, Line>(s.line, a, Filling(store, Max(pts, maxRead), maxWrite, delta, true)),
            phase := Set<Wid, Phase>(s.phase, w, Queued(a, pts)))
       case _ =>
         s.(line := Set<Addr, Line>(s.line, a, Filling(NoStore, pts, 0, c.delta, true)),
            phase := Set<Wid, Phase>(s.phase, w, Queued(a, pts))))
    case TakeStore(w) =>
      var a, d, pts := s.phase(w).addr, s.phase(w).data, s.phase(w).pts;
      var ts := StoreTime(c, s, a, pts);
      Logged(s.(line := Set<Addr, Line>(s.line, a, LineAfterStore(c, s, a, d, pts)),
                phase := Set<Wid, Phase>(s.phase, w, AckBack(a, ts)),
                writes := Set<Addr, seq<Write>>(s.writes, a, s.writes(a) + [Write(d, ts, |s.log|)])),
             Op(w, a, true, d, ts), |s.writes(a)| + 1)
    case Fill(a) =>
      s.(line := Set<Addr, Line>(s.line, a, Filled(c, s, a)))
    case Answer(w) =>
      var a, pts := s.phase(w).addr, s.phase(w).pts;
      var l, v := s.line(a), |s.writes(a)|;
      Logged(s.(phase := Set<Wid, Phase>(s.phase, w, DataBack(a, l.data, v, l.wts, l.rts))),
             Op(w, a, false, l.data, Max(pts, l.wts)), v)
    case EndAnswers(a) =>
      var l := s.line(a);
      s.(line := Set<Addr, Line>(s.line, a, Valid(l.data, l.dirty, l.wts, l.rts)))
    case Evict(a) =>
      var l, b := s.line(a), c.bank(a);
      s.(line := Set<Addr, Line>(s.line, a, Absent),
         mts := Set<nat, Time>(s.mts, b, Max(s.mts(b), Max(l.rts, l.wts))),
         mem := if l.dirty then Set<Addr, Data>(s.mem, a, l.data) else s.mem)
    case Receive(w) =>
      var p := s.phase(w);
      var s' := s.(phase := Set<Wid, Phase>(s.phase, w, Idle),
                   pts := Set<nat, Time>(s.pts, w.core, Max(s.pts(w.core), p.wts)));
      s'.(lease := Set<Spot, Lease>(s.lease, Spot(w.core, p.addr),
                       if p.DataBack? then Lease(p.data, p.version, p.rts) else NoLease))
    case DropLease(core, a) =>
      s.(lease := Set<Spot, Lease>(s.lease, Spot(core, a), NoLease))
  }

  // ----- runs

  ghost predicate IsRun(c: Config, ss: seq<State>, acts: seq<Action>) {
    && |ss| == |acts| + 1 && ss[0] == Initial(c)
    && forall n :: 0 <= n < |acts| ==> Enabled(ss[n], acts[n]) && ss[n + 1] == Apply(c, ss[n], acts[n])
  }

  // ----- sequential consistency

  /** Some total order of the operations contains the order of each warp, and in
      it every load reads the last store before it, or the initial memory. */
  ghost predicate SequentiallyConsistent(init: Addr -> Data, log: seq<Op>) {
    exists before: (nat, nat) -> bool :: IsTotalOrder(before, |log|) && Explains(before, init, log)
  }

  ghost predicate IsTotalOrder(before: (nat, nat) -> bool, n: nat) {
    && (forall p: nat :: p < n ==> !before(p, p))
    && (forall p: nat, q: nat :: p < n && q < n && p != q ==> before(p, q) || before(q, p))
    && (forall p: nat, q: nat, r: nat :: p < n && q < n && r < n && before(p, q) && before(q, r) ==> before(p, r))
  }

  ghost predicate Explains(before: (nat, nat) -> bool, init: Addr -> Data, log: seq<Op>) {
    && (forall p: nat, q: nat :: p < q < |log| && log[p].who == log[q].who ==> before(p, q))
    && (forall p: nat :: p < |log| && !log[p].isWrite ==> ReadsLast(before, init, log, p))
  }

  /** `q` is a store to the address of `p` that comes before it. */
  ghost predicate Visible(before: (nat, nat) -> bool, log: seq<Op>, q: nat, p: nat)
    requires q < |log| && p < |log|
  {
    log[q].isWrite && log[q].addr == log[p].addr && before(q, p)
  }

  ghost predicate ReadsLast(before: (nat, nat) -> bool, init: Addr -> Data, log: seq<Op>, p: nat)
    requires p < |log|
  {
    if forall q: nat :: q < |log| ==> !Visible(before, log, q, p) then log[p].data == init(log[p].addr)
    else exists q: nat :: q < |log| && Visible(before, log, q, p) && log[q].data == log[p].data
                          && forall r: nat :: r < |log| && r != q && Visible(before, log, r, p) ==> before(r, q)
  }
}
