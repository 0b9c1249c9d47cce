/** The queue of operations between the host and the device: streams in which
    operations wait their turn, and the manager that starts and retires them. */
module StreamManagers {
  import opened Helpers

  /** Copies and events are done as soon as they are started; kernels run on,
      unless they are simulated functionally. */
  datatype Operation = Copy(id: nat) | Event(id: nat) | Kernel(uid: nat, functional: bool)

  class Stream {
    var operations: seq<Operation>
    var pending: bool
    ghost var pushed: seq<Operation>
    ghost var started: seq<Operation>
    ghost var retired: seq<Operation>

    constructor ()
      ensures Valid() && operations == [] && !pending
    {
      operations, pending, pushed, started, retired := [], false, [], [], [];
    }

    /** What was pushed is what was retired followed by what waits, and only the
        first waiting operation can have been started: operations start and retire
        in the order in which they were pushed, each once. */
    ghost predicate Valid()
      reads this
    {
      && (pending ==> operations != [])
      && pushed == retired + operations
      && started == retired + (if pending then [operations[0]] else [])
    }

    method Push(op: Operation)
      requires Valid()
      modifies this
      ensures Valid() && operations == old(operations) + [op] && pending == old(pending)
      ensures pushed == old(pushed) + [op] && started == old(started) && retired == old(retired)
    {
      operations, pushed := operations + [op], pushed + [op];
    }

    method Next() returns (op: Operation)
      requires Valid() && !pending && operations != []
      modifies this
      ensures Valid() && pending && operations == old(operations) && op == operations[0]
      ensures pushed == old(pushed) && started == old(started) + [op] && retired == old(retired)
    {
      pending, op := true, operations[0];
      started := started + [op];
    }

    method RecordNextDone()
      requires Valid() && pending
      modifies this
      ensures Valid() && !pending && operations == old(operations)[1..]
      ensures pushed == old(pushed) && started == old(started) && retired == old(retired) + [old(operations)[0]]
    {
      retired := retired + [operations[0]];
      operations, pending := operations[1..], false;
    }
  }

  // ----- the state as a value

  /** `home` is the stream every kernel was pushed to; `running` and `finished` are
      the kernels on the device. */
  datatype View = View(
    zero: Stream,
    streams: seq<Stream>,
    serving: bool,
    grid: map<nat, Stream>,
    running: set<nat>,
    finished: seq<nat>,
    home: map<nat, Stream>,
    ops: map<Stream, seq<Operation>>,
    pending: set<Stream>)

  ghost predicate Separate(v: View) {
    && v.zero !in v.streams && v.ops.Keys == {v.zero} + (set s | s in v.streams)
    && (forall i, j :: 0 <= i < j < |v.streams| ==> v.streams[i] != v.streams[j])
    && forall s :: s in v.pending ==> s in v.ops && v.ops[s] != []
  }

  /** Stream zero and the other streams never have operations under way together. */
  ghost predicate Exclusive(v: View) {
    (v.serving ==> v.pending <= {v.zero}) && (!v.serving ==> v.zero !in v.pending)
  }

  ghost predicate RunsKernel(v: View, s: Stream, g: nat) {
    s in v.pending && s in v.ops && v.ops[s] != [] && v.ops[s][0].Kernel? && v.ops[s][0].uid == g
  }

  /** The map leads from the kernels under way to their streams and to nothing else. */
  ghost predicate Mapped(v: View) {
    && (forall g :: g in v.grid ==> RunsKernel(v, v.grid[g], g))
    && forall s, g :: s in v.pending && RunsKernel(v, s, g) ==> g in v.grid && v.grid[g] == s
  }

  /** Uids are positive and belong to one stream. */
  ghost predicate Homed(v: View) {
    forall s, i :: s in v.ops && 0 <= i < |v.ops[s]| && v.ops[s][i].Kernel? ==>
      v.ops[s][i].uid > 0 && v.ops[s][i].uid in v.home && v.home[v.ops[s][i].uid] == s
  }

  ghost predicate OnDevice(v: View) {
    && v.running <= v.grid.Keys && 0 !in v.running
    && (forall i :: 0 <= i < |v.finished| ==>
          v.finished[i] in v.grid && v.finished[i] !in v.running && v.finished[i] > 0)
    && forall i, j :: 0 <= i < j < |v.finished| ==> v.finished[i] != v.finished[j]
  }

  ghost predicate Core(v: View) {
    Separate(v) && Exclusive(v) && Mapped(v) && Homed(v) && OnDevice(v)
  }

  /** Between steps only kernels are under way. */
  ghost predicate Settled(v: View) {
    forall s :: s in v.pending && s in v.ops && v.ops[s] != [] ==> v.ops[s][0].Kernel?
  }

  ghost predicate Ok(v: View) { Core(v) && Settled(v) }

  // ----- steps on values

  ghost function Added(v: View, s: Stream): View { v.(streams := v.streams + [s], ops := v.ops[s := []]) }

  ghost function Destroyed(v: View, k: nat): View
    requires k < |v.streams|
  {
    v.(streams := v.streams[..k] + v.streams[k + 1..], ops := v.ops - {v.streams[k]})
  }

  ghost function Pushed(v: View, s: Stream, op: Operation): View
    requires s in v.ops
  {
    v.(ops := v.ops[s := v.ops[s] + [op]], home := if op.Kernel? then v.home[op.uid := s] else v.home)
  }

  ghost function Started(v: View, s: Stream): View
    requires s in v.ops && v.ops[s] != []
  {
    v.(pending := v.pending + {s},
       grid := if v.ops[s][0].Kernel? then v.grid[v.ops[s][0].uid := s] else v.grid)
  }

  ghost function Retired(v: View, s: Stream): View
    requires s in v.ops && v.ops[s] != []
  {
    v.(pending := v.pending - {s}, ops := v.ops[s := v.ops[s][1..]],
       grid := if v.ops[s][0].Kernel? then v.grid - {v.ops[s][0].uid} else v.grid)
  }

  ghost predicate IsReady(v: View, s: Stream) { s !in v.pending && s in v.ops && v.ops[s] != [] }

  ghost function FirstReady(v: View, k: nat): Option<Stream>
    requires k <= |v.streams|
    decreases |v.streams| - k
  {
    if k == |v.streams| then None else if IsReady(v, v.streams[k]) then Some(v.streams[k]) else FirstReady(v, k + 1)
  }

  ghost predicate ConcurrentEmpty(v: View) {
    forall s :: s in v.streams && s in v.ops ==> v.ops[s] == []
  }

  /** Whether stream zero is served now. */
  ghost function Turn(v: View): View { if ConcurrentEmpty(v) then v.(serving := true) else v }

  /** The stream whose next operation is started, if any. */
  ghost function Chosen(v: View): Option<Stream> {
    if Turn(v).serving then (if IsReady(v, v.zero) then Some(v.zero) else None) else FirstReady(v, 0)
  }

  ghost function Fronted(v: View): View
    requires v.zero in v.ops
  {
    ChosenIsReady(v, 0);
    if Chosen(v).Some? then Started(Aimed(v), Chosen(v).value) else Aimed(v)
  }

  /** Stream zero is served until it is empty. */
  ghost function Aimed(v: View): View
    requires v.zero in v.ops
  {
    var t := Turn(v);
    if t.serving && v.ops[v.zero] == [] then t.(serving := false) else t
  }

  lemma {:induction false} ChosenIsReady(v: View, k: nat)
    requires k <= |v.streams|
    ensures FirstReady(v, k).Some? ==> FirstReady(v, k).value in v.streams && IsReady(v, FirstReady(v, k).value)
    decreases |v.streams| - k
  {
    if k < |v.streams| {
      ChosenIsReady(v, k + 1);
    }
  }

  // ----- what the steps keep

  lemma {:induction false} AddedIsOk(v: View, s: Stream)
    requires Ok(v) && s !in v.ops
    ensures Ok(Added(v, s))
  {
    var v' := Added(v, s);
    assert forall t, g :: RunsKernel(v', t, g) <==> RunsKernel(v, t, g);
  }

  lemma {:induction false} DestroyedIsOk(v: View, k: nat)
    requires Ok(v) && k < |v.streams| && v.streams[k] in v.ops && v.ops[v.streams[k]] == []
    ensures Ok(Destroyed(v, k))
  {
    var v' := Destroyed(v, k);
    assert forall t, g :: RunsKernel(v', t, g) <==> RunsKernel(v, t, g);
    assert forall s :: s in v.streams <==> s in v'.streams || s == v.streams[k];
  }

  lemma {:induction false} EmptyIsIdle(v: View, s: Stream)
    requires Ok(v) && s in v.ops && v.ops[s] == []
    ensures s !in v.pending
  {
  }

  lemma {:induction false} PushedIsOk(v: View, s: Stream, op: Operation)
    requires Ok(v) && s in v.ops && (op.Kernel? ==> op.uid > 0 && op.uid !in v.home)
    ensures Ok(Pushed(v, s, op))
  {
    var v' := Pushed(v, s, op);
    assert forall t, g :: RunsKernel(v', t, g) <==> RunsKernel(v, t, g);
  }

  lemma {:induction false} StartedIsCore(v: View, s: Stream)
    requires Core(v) && IsReady(v, s) && (if v.serving then s == v.zero else s != v.zero)
    ensures Core(Started(v, s))
  {
    var v' := Started(v, s);
    var op := v.ops[s][0];
    assert forall t, g :: RunsKernel(v', t, g) <==> RunsKernel(v, t, g) || (t == s && op.Kernel? && op.uid == g);
    if op.Kernel? && op.uid in v.grid {
      assert false;
    }
  }

  lemma {:induction false} RetiredIsCore(v: View, s: Stream)
    requires Core(v) && s in v.pending && s in v.ops && v.ops[s] != []
    requires v.ops[s][0].Kernel? ==> v.ops[s][0].uid !in v.running && v.ops[s][0].uid !in v.finished
    ensures Core(Retired(v, s))
  {
    var v' := Retired(v, s);
    var op := v.ops[s][0];
    assert forall t, g :: RunsKernel(v', t, g) <==> RunsKernel(v, t, g) && t != s;
    if op.Kernel? {
      assert RunsKernel(v, s, op.uid);
    }
  }

  lemma {:induction false} FrontedIsCore(v: View)
    requires Ok(v)
    ensures Core(Fronted(v))
    ensures forall s :: s in Fronted(v).pending && s !in v.pending ==> Chosen(v) == Some(s)
  {
    var t := Turn(v);
    ChosenIsReady(v, 0);
    if ConcurrentEmpty(v) {
      assert forall s :: s in v.pending ==> s == v.zero;
    }
    assert forall s, g :: RunsKernel(t, s, g) <==> RunsKernel(v, s, g);
    assert Core(t);
    if Chosen(v).Some? {
      StartedIsCore(t, Chosen(v).value);
    } else {
      assert forall s, g :: RunsKernel(t.(serving := false), s, g) <==> RunsKernel(v, s, g);
    }
  }

  // ----- whole steps and runs

  ghost predicate CanRegister(v: View) {
    v.finished != [] ==>
      v.finished[0] > 0 && v.finished[0] in v.grid && RunsKernel(v, v.grid[v.finished[0]], v.finished[0])
  }

  /** The kernel the device finished first leaves its stream. */
  ghost function Registered(v: View): View
    requires CanRegister(v)
  {
    if v.finished == [] then v else Retired(v, v.grid[v.finished[0]]).(finished := v.finished[1..])
  }

  /** What becomes of an operation that has just been started. */
  ghost function Done(v: View, s: Stream, canStart: bool): View
    requires s in v.ops && v.ops[s] != []
  {
    match v.ops[s][0]
    case Kernel(uid, functional) =>
      if !canStart then v else if functional then Retired(v, s) else v.(running := v.running + {uid})
    case _ => Retired(v, s)
  }

  ghost function Operated(v: View, canStart: bool): View
    requires Ok(v)
  {
    FinishedIsFound(v);
    RegisteredIsOk(v);
    FrontedIsCore(Registered(v));
    ChosenIsReady(Registered(v), 0);
    var r := Registered(v);
    if Chosen(r).Some? then Done(Fronted(r), Chosen(r).value, canStart) else Fronted(r)
  }

  lemma {:induction false} FinishedIsFound(v: View)
    requires Ok(v)
    ensures CanRegister(v)
  {
    if v.finished != [] {
      assert v.finished[0] in v.grid;
    }
  }

  lemma {:induction false} RegisteredIsOk(v: View)
    requires Ok(v)
    ensures CanRegister(v)
    ensures Ok(Registered(v))
  {
    FinishedIsFound(v);
    if v.finished != [] {
      var w := v.(finished := v.finished[1..]);
      var s := v.grid[v.finished[0]];
      assert forall t, g :: RunsKernel(w, t, g) <==> RunsKernel(v, t, g);
      assert RunsKernel(v, s, v.finished[0]);
      RetiredIsCore(w, s);
      assert Retired(w, s) == Registered(v);
    }
  }

  ghost function Popped(v: View): View { v.(finished := if v.finished == [] then [] else v.finished[1..]) }

  lemma {:induction false} PoppedFirst(v: View)
    requires CanRegister(v)
    ensures v.finished != [] ==> RunsKernel(Popped(v), v.grid[v.finished[0]], v.finished[0])
    ensures Registered(v) == if v.finished == [] then Popped(v) else Retired(Popped(v), v.grid[v.finished[0]])
  {
  }

  lemma {:induction false} OperatedIsOk(v: View, canStart: bool)
    requires Ok(v)
    ensures Ok(Operated(v, canStart))
  {
    RegisteredIsOk(v);
    var r := Registered(v);
    FrontedIsCore(r);
    ChosenIsReady(r, 0);
    hide Core;
    if Chosen(r).Some? {
      DoneIsOk(r, Fronted(r), Chosen(r).value, canStart);
    }
  }

  lemma {:induction false} DoneIsOk(r: View, f: View, s: Stream, canStart: bool)
    requires Ok(r) && Core(f) && IsReady(r, s)
    requires f.ops == r.ops && f.pending == r.pending + {s} && f.running == r.running && f.finished == r.finished
    ensures Ok(Done(f, s, canStart))
  {
    var op := f.ops[s][0];
    if op.Kernel? {
      assert op.uid !in r.grid;
      assert RunsKernel(f, s, op.uid);
    }
    if op.Kernel? && !canStart {
    } else if op.Kernel? && !op.functional {
      LaunchedIsCore(f, op.uid);
    } else {
      RetiredIsCore(f, s);
    }
  }

  lemma {:induction false} LaunchedIsCore(f: View, uid: nat)
    requires Core(f) && uid in f.grid && uid !in f.finished && uid > 0
    ensures Core(f.(running := f.running + {uid}))
  {
    var d := f.(running := f.running + {uid});
    assert forall t, g :: RunsKernel(d, t, g) <==> RunsKernel(f, t, g);
  }

  /** A kernel that has just been started is mapped to its stream. */
  lemma {:induction false} FrontedStarts(r: View)
    requires Ok(r)
    ensures r.zero in r.ops
    ensures Chosen(r).Some? ==>
              var s, f := Chosen(r).value, Fronted(r);
              && s in r.ops && r.ops[s] != [] && f.ops == r.ops && s in f.pending
              && (r.ops[s][0].Kernel? ==>
                    r.ops[s][0].uid > 0 && r.ops[s][0].uid in f.grid && f.grid[r.ops[s][0].uid] == s)
  {
    ChosenIsReady(r, 0);
  }

  datatype Step =
    | AddStream(s: Stream)
    | DestroyStream(k: nat)
    | PushTo(s: Stream, op: Operation)
    | Operate(canStart: bool)
    | FinishKernel(uid: nat)

  /** A stream is destroyed when it is empty; uids are never used twice. */
  ghost predicate IsEnabled(v: View, step: Step) {
    match step
    case AddStream(s) => s !in v.ops
    case DestroyStream(k) => k < |v.streams| && v.streams[k] in v.ops && v.ops[v.streams[k]] == []
    case PushTo(s, op) => s in v.ops && (op.Kernel? ==> op.uid > 0 && op.uid !in v.home)
    case Operate(_) => true
    case FinishKernel(uid) => uid in v.running
  }

  ghost function After(v: View, step: Step): View
    requires Ok(v) && IsEnabled(v, step)
  {
    match step
    case AddStream(s) => Added(v, s)
    case DestroyStream(k) => Destroyed(v, k)
    case PushTo(s, op) => Pushed(v, s, op)
    case Operate(canStart) => Operated(v, canStart)
    case FinishKernel(uid) => Finished(v, uid)
  }

  ghost function Finished(v: View, uid: nat): View {
    v.(running := v.running - {uid}, finished := v.finished + [uid])
  }

  lemma {:induction false} StepIsOk(v: View, step: Step)
    requires Ok(v) && IsEnabled(v, step)
    ensures Ok(After(v, step))
  {
    hide Ok;
    match step
    case AddStream(s) => AddedIsOk(v, s);
    case DestroyStream(k) => DestroyedIsOk(v, k);
    case PushTo(s, op) => PushedIsOk(v, s, op);
    case Operate(canStart) => OperatedIsOk(v, canStart);
    case FinishKernel(uid) => FinishedIsOk(v, uid);
  }

  lemma {:induction false} FinishedIsOk(v: View, uid: nat)
    requires Ok(v) && uid in v.running
    ensures Ok(Finished(v, uid))
  {
    assert forall t, g :: RunsKernel(Finished(v, uid), t, g) <==> RunsKernel(v, t, g);
  }

  ghost predicate IsRun(vs: seq<View>, steps: seq<Step>) {
    && |vs| == |steps| + 1 && IsInitial(vs[0])
    && forall n :: 0 <= n < |steps| ==> Takes(vs[n], steps[n], vs[n + 1])
  }

  ghost predicate Takes(v: View, step: Step, v': View) {
    Ok(v) ==> IsEnabled(v, step) && v' == After(v, step)
  }

  ghost predicate IsInitial(v: View) {
    v == View(v.zero, [], false, map[], {}, [], map[], map[v.zero := []], {})
  }

  /** In every state of every interleaving of the host, the device and the manager:
      stream zero and another stream never have operations under way together, and
      the kernel that the device reports as finished is the first operation of the
      stream the map leads to. */
  lemma {:induction false} NeverTogether(vs: seq<View>, steps: seq<Step>, n: nat)
    requires IsRun(vs, steps) && n < |vs|
    ensures Ok(vs[n]) && forall s :: s in vs[n].streams ==> !(vs[n].zero in vs[n].pending && s in vs[n].pending)
    ensures CanRegister(vs[n])
  {
    if n == 0 {
      InitialIsOk(vs[0]);
    } else {
      NeverTogether(vs, steps, n - 1);
      assert Takes(vs[n - 1], steps[n - 1], vs[n - 1 + 1]);
      StepIsOk(vs[n - 1], steps[n - 1]);
    }
    FinishedIsFound(vs[n]);
  }

  // ----- the manager itself

  class StreamManager {
    const zero: Stream
    const launchBlocking: bool
    var streams: seq<Stream>
    var serviceZero: bool
    var gridToStream: map<nat, Stream>

    /** The device: the kernels it runs, and those it has finished. */
    var running: set<nat>
    var finished: seq<nat>

    /** All streams there are, and the stream every kernel was pushed to. */
    ghost var all: set<Stream>
    ghost var home: map<nat, Stream>

    constructor (launchBlocking: bool)
      ensures Valid() && IsInitial(Look()) && this.launchBlocking == launchBlocking && fresh(all)
    {
      zero := new Stream();
      this.launchBlocking := launchBlocking;
      streams, serviceZero, gridToStream, running, finished, home := [], false, map[], {}, [], map[];
      all := {zero};
      new;
      InitialIsOk(Look());
    }

    ghost function Look(): View
      reads this, all
    {
      View(zero, streams, serviceZero, gridToStream, running, finished, home, Waiting(), Underway())
    }

    ghost function Waiting(): map<Stream, seq<Operation>>
      reads this`all, all
    {
      map s | s in all :: s.operations
    }

    ghost function Underway(): set<Stream>
      reads this`all, all
    {
      set s | s in all && s.pending
    }

    /** A step that touches one stream. */
    twostate lemma OneChanged(s: Stream)
      requires all == old(all) && s in all && forall t :: t in all && t != s ==> unchanged(t)
      requires forall t :: t in all ==> old(allocated(t))
      ensures Waiting() == old(Waiting())[s := s.operations]
      ensures Underway() == if s.pending then old(Underway()) + {s} else old(Underway()) - {s}
    {
    }

    twostate lemma OneAdded(new s: Stream)
      requires s !in old(all) && all == old(all) + {s} && !s.pending && s.operations == []
      requires forall t :: t in old(all) ==> old(allocated(t)) && unchanged(t)
      requires old(StreamsOk()) && s.Valid()
      ensures Waiting() == old(Waiting())[s := []] && Underway() == old(Underway()) && StreamsOk()
    {
    }

    twostate lemma OneLeft(s: Stream)
      requires all == old(all) - {s} && forall t :: t in all ==> old(allocated(t)) && unchanged(t)
      requires old(StreamsOk())
      ensures Waiting() == old(Waiting()) - {s} && Underway() == old(Underway()) - {s} && StreamsOk()
    {
      forall t | t in all
        ensures t in old(Waiting()) && t.operations == old(t.operations) && t.pending == old(t.pending) && t.Valid()
      {
        assert old(t.Valid());
      }
      assert Waiting().Keys == old(Waiting()).Keys - {s};
      assert Waiting() == old(Waiting()) - {s};
      assert Underway() == old(Underway()) - {s};
    }

    ghost predicate Valid()
      reads this, all
    {
      StreamsOk() && Ok(Look())
    }

    ghost predicate StreamsOk()
      reads this`all, all
    {
      forall s :: s in all ==> s.Valid()
    }

    method AddStream() returns (s: Stream)
      requires Valid()
      modifies this`streams, this`all
      ensures Valid() && fresh(s) && s !in old(all) && all == old(all) + {s} && Look() == Added(old(Look()), s)
    {
      ghost var v := Look();
      ViewOfAll();
      hide Ok, Stream.Valid, Waiting, Underway, StreamsOk;
      s := new Stream();
      AddedIsOk(v, s);
      streams, all := streams + [s], all + {s};
      OneAdded(s);
      assert Look() == Added(v, s);
    }

    method DestroyStream(k: nat)
      requires Valid() && k < |streams| && streams[k].operations == []
      modifies this`streams, this`all
      ensures Valid() && all <= old(all) && Look() == Destroyed(old(Look()), k)
    {
      ghost var v := Look();
      EmptyStreamIsIdle(k);
      DestroyedIsOk(v, k);
      hide Ok, Waiting, Underway, StreamsOk, Stream.Valid;
      var s := streams[k];
      all, streams := all - {s}, streams[..k] + streams[k + 1..];
      OneLeft(s);
      assert Look() == Destroyed(v, k);
    }

    lemma EmptyStreamIsIdle(k: nat)
      requires Valid() && k < |streams| && streams[k].operations == []
      ensures streams[k] in Look().ops && Look().ops[streams[k]] == [] && streams[k] !in Look().pending
    {
      ViewOfAll();
      assert streams[k] in streams;
      EmptyIsIdle(Look(), streams[k]);
    }

    method Enqueue(s: Stream, op: Operation)
      requires Valid() && s in all && (op.Kernel? ==> op.uid > 0 && op.uid !in home)
      modifies s, this`home
      ensures Valid() && s in old(Look()).ops && Look() == Pushed(old(Look()), s, op)
    {
      hide Stream.Valid;
      ghost var v := Look();
      ViewAt(s);
      PushedIsOk(v, s, op);
      hide Ok;
      s.Push(op);
      home := if op.Kernel? then home[op.uid := s] else home;
      OneChanged(s);
      hide Waiting, Underway;
      assert Look() == Pushed(v, s, op);
    }

    /** No stream given, or streams switched off: the operation goes to stream zero. */
    method Push(stream: Option<Stream>, op: Operation) returns (ghost s: Stream)
      requires Valid() && (stream.Some? ==> stream.value in streams)
      requires op.Kernel? ==> op.uid > 0 && op.uid !in home
      modifies all, this`home
      ensures s == if stream.Some? && !launchBlocking then stream.value else zero
      ensures Valid() && all == old(all) && s in old(Look()).ops && Look() == Pushed(old(Look()), s, op)
    {
      hide Stream.Valid;
      var target := if stream.Some? && !launchBlocking then stream.value else zero;
      s := target;
      assert s in Look().ops;
      hide Ok, Pushed;
      Enqueue(target, op);
    }

    // ----- steps of the manager

    /** The first operation of a stream is over. */
    method RecordDone(s: Stream)
      requires StreamsOk() && s in all && s.pending && s.operations != []
      modifies s
      ensures StreamsOk() && s in old(Look()).ops
      ensures var v := old(Look()); Look() == v.(pending := v.pending - {s}, ops := v.ops[s := old(s.operations)[1..]])
    {
      hide Stream.Valid;
      s.RecordNextDone();
      OneChanged(s);
    }

    method StartNext(s: Stream) returns (op: Operation)
      requires StreamsOk() && s in all && !s.pending && s.operations != []
      modifies s, this`gridToStream
      ensures StreamsOk() && s in old(Look()).ops && op == old(s.operations)[0]
      ensures Look() == Started(old(Look()), s)
    {
      hide Stream.Valid;
      op := s.Next();
      gridToStream := if op.Kernel? then gridToStream[op.uid := s] else gridToStream;
      OneChanged(s);
      assert Waiting() == old(Waiting());
    }

    method RegisterFinishedKernel(g: nat) returns (done: bool)
      requires StreamsOk() && (g > 0 ==> g in gridToStream && RunsKernel(Look(), gridToStream[g], g))
      modifies all, this`gridToStream
      ensures StreamsOk() && all == old(all) && done == (g > 0)
      ensures Look() == if g > 0 then Retired(old(Look()), old(gridToStream[g])) else old(Look())
    {
      hide Stream.Valid;
      done := g > 0;
      if done {
        var s := gridToStream[g];
        assert g == s.operations[0].uid;
        RecordDone(s);
        gridToStream := gridToStream - {g};
      }
    }

    method CheckFinishedKernel() returns (done: bool)
      requires Valid()
      modifies all, this`gridToStream, this`finished
      ensures Valid() && all == old(all) && CanRegister(old(Look())) && Look() == Registered(old(Look()))
    {
      hide Ok, StreamsOk, Registered, Retired, RunsKernel, Waiting, Underway, CanRegister, Stream.Valid;
      ghost var v := Look();
      FinishedIsFound(v);
      RegisteredIsOk(v);
      PoppedFirst(v);
      var g := 0;
      if finished != [] {
        g, finished := finished[0], finished[1..];
      }
      assert Look() == Popped(v);
      done := RegisterFinishedKernel(g);
    }

    method ConcurrentStreamsEmpty() returns (result: bool)
      requires Valid()
      ensures result <==> ConcurrentEmpty(Look())
    {
      result := true;
      for i := 0 to |streams|
        invariant result <==> forall j :: 0 <= j < i ==> streams[j].operations == []
      {
        if streams[i].operations != [] {
          result := false;
        }
      }
      assert Look().ops.Keys == all;
      assert forall s :: s in streams ==> s in all;
      assert forall s :: s in all ==> s in Look().ops && Look().ops[s] == s.operations;
      assert forall j :: 0 <= j < |streams| ==> streams[j] in streams;
    }

    /** Starts the next operation: of stream zero while it is served, and else of
        the first stream that is ready. */
    method Front() returns (stream: Option<Stream>, op: Option<Operation>)
      requires Valid()
      modifies all, this`gridToStream, this`serviceZero
      ensures StreamsOk() && all == old(all)
      ensures stream == Chosen(old(Look())) && old(Look()).zero in old(Look()).ops && Look() == Fronted(old(Look()))
      ensures stream.Some? ==>
                && stream.value in all && old(stream.value.operations) != []
                && op == Some(old(stream.value.operations[0]))
      ensures op.None? <==> stream.None?
    {
      ViewOfAll();
      ChosenIsReady(Look(), 0);
      hide Ok, StreamsOk, Waiting, Underway, Started, Aimed;
      stream := Choose();
      op := None;
      if stream.Some? {
        var o := StartNext(stream.value);
        op := Some(o);
      }
    }

    method TakeTurn()
      requires Valid()
      modifies this`serviceZero
      ensures Look() == Turn(old(Look()))
    {
      var empty := ConcurrentStreamsEmpty();
      hide Ok, StreamsOk, Waiting, Underway, ConcurrentEmpty;
      if empty {
        serviceZero := true;
      }
    }

    method Choose() returns (stream: Option<Stream>)
      requires Valid()
      modifies this`serviceZero
      ensures stream == Chosen(old(Look())) && old(Look()).zero in old(Look()).ops && Look() == Aimed(old(Look()))
    {
      ViewOfAll();
      hide Ok, StreamsOk, Waiting, Underway, ConcurrentEmpty, FirstReady;
      stream := None;
      TakeTurn();
      if serviceZero {
        if zero.operations != [] {
          if !zero.pending {
            stream := Some(zero);
          }
        } else {
          serviceZero := false;
        }
      } else {
        stream := FindReady();
      }
    }

    lemma ViewAt(s: Stream)
      requires s in all
      ensures s in Look().ops && Look().ops[s] == s.operations && (s in Look().pending <==> s.pending)
    {
    }

    lemma ViewOfAll()
      requires Valid()
      ensures Look().ops.Keys == all && zero in all && forall s :: s in streams ==> s in all
      ensures forall s :: s in all ==> Look().ops[s] == s.operations && (s in Look().pending <==> s.pending)
    {
    }

    method FindReady() returns (stream: Option<Stream>)
      requires Valid()
      ensures stream == FirstReady(Look(), 0)
    {
      ViewOfAll();
      hide Ok;
      var k := 0;
      while k < |streams|
        invariant 0 <= k <= |streams| && FirstReady(Look(), 0) == FirstReady(Look(), k)
      {
        var s := streams[k];
        assert s in streams;
        if !s.pending && s.operations != [] {
          return Some(s);
        }
        k := k + 1;
      }
      return None;
    }

    /** Carries out the operation that was just started. */
    method DoOperation(s: Stream, op: Operation, canStart: bool)
      requires StreamsOk() && s in all && s.pending && s.operations != [] && op == s.operations[0]
      requires op.Kernel? ==> op.uid > 0 && op.uid in gridToStream && gridToStream[op.uid] == s
      modifies all, this`gridToStream, this`running
      ensures StreamsOk() && all == old(all) && s in old(Look()).ops && Look() == Done(old(Look()), s, canStart)
    {
      hide Stream.Valid;
      match op
      case Kernel(uid, functional) =>
        if canStart {
          if functional {
            var _ := RegisterFinishedKernel(uid);
          } else {
            running := running + {uid};
          }
        }
      case _ =>
        RecordDone(s);
    }

    /** One turn of the simulation thread. */
    method Operation(canStart: bool)
      requires Valid()
      modifies all, this`gridToStream, this`serviceZero, this`running, this`finished
      ensures old(Valid()) && Valid() && all == old(all) && Look() == Operated(old(Look()), canStart)
    {
      ghost var v := Look();
      OperatedIsOk(v, canStart);
      RegisteredIsOk(v);
      ViewOfAll();
      var _ := CheckFinishedKernel();
      ghost var r := Look();
      FrontedStarts(r);
      hide Ok, StreamsOk, Waiting, Underway, Registered, Fronted, Chosen, Done;
      var stream, op := Front();
      if stream.Some? {
        ViewAt(stream.value);
        DoOperation(stream.value, op.value, canStart);
      }
    }

    /** The device finishes a kernel. */
    method SetKernelDone(uid: nat)
      requires Valid() && uid in running
      modifies this`running, this`finished
      ensures Valid() && Look() == Finished(old(Look()), uid)
    {
      FinishedIsOk(Look(), uid);
      hide Ok, StreamsOk, Waiting, Underway;
      running, finished := running - {uid}, finished + [uid];
    }
  }

  lemma {:induction false} InitialIsOk(v: View)
    requires IsInitial(v)
    ensures Ok(v)
  {
    assert forall t, g :: !RunsKernel(v, t, g);
  }
}
