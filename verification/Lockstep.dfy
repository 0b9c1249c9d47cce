/** A warp run in lockstep through the reconvergence stack, and the proof that
    every thread executes exactly what it would execute by itself. */
module Lockstep {
  import opened Dominance
  import opened ControlFlow
  import opened Helpers
  import opened SimtStacks
  import opened SimtShape
  import opened Kernels
  import opened Laminar

  datatype Warp = Warp(stack: seq<Entry>, threads: seq<Thread>)

  // ----- one step of a warp

  ghost function Finished(threads: seq<Thread>): set<nat> {
    set i: nat | i < |threads| && threads[i].done
  }

  function NextPcs(threads: seq<Thread>): seq<Pc> {
    seq(|threads|, i requires 0 <= i < |threads| => if threads[i].done then NoPc else threads[i].pc)
  }

  ghost predicate SomeLive(threads: seq<Thread>) {
    exists i :: 0 <= i < |threads| && !threads[i].done
  }

  /** The check made before each thread executes the fetched instruction: its own
      program counter is the fetched one, and it is not done. */
  ghost predicate InSync(w: Warp, i: nat)
    requires w.stack != [] && i < |w.threads|
  {
    !w.threads[i].done && w.threads[i].pc == Last(w.stack).pc
  }

  ghost predicate CanStep(k: Kernel, w: Warp) {
    && w.stack != [] && ValidPc(k, Last(w.stack).pc)
    && Last(w.stack).mask != {}
    && forall i :: i in Last(w.stack).mask ==> i < |w.threads| && InSync(w, i)
  }

  ghost function Executed(k: Kernel, guards: Guards, w: Warp): seq<Thread>
    requires SaneBlocks(k) && CanStep(k, w)
  {
    seq(|w.threads|, i requires 0 <= i < |w.threads| =>
      if i in Last(w.stack).mask then Execute(k, guards(i, w.threads[i].steps), w.threads[i]) else w.threads[i])
  }

  /** -2 is replaced by the return address found in the first live thread. */
  ghost function Resolved(k: Kernel, recvg: Pc, threads: seq<Thread>): Pc {
    if recvg == ReturnMarker && SomeLive(threads) then ReturnAddress(k) else recvg
  }

  /** Fetch at the top of the stack, execute the active lanes, update the stack. */
  ghost function Step(k: Kernel, ipdom: seq<int>, guards: Guards, w: Warp): Warp
    requires SaneBlocks(k) && |ipdom| == Exit(k) + 1 && CanStep(k, w)
    requires Last(w.stack).kind.Normal?
  {
    var pc := Last(w.stack).pc;
    var threads := Executed(k, guards, w);
    var recvg := Resolved(k, ConvergePoint(k, ipdom, pc), threads);
    Warp(Updated(w.stack, Finished(threads), NextPcs(threads), recvg, OpAt(k, pc)), threads)
  }

  // ----- when a step leaves lanes behind

  /** An address at which no lane ever arrives: none at all, or the return address. */
  predicate Free(k: Kernel, rp: Pc) { rp == NoPc || rp == ReturnAddress(k) }

  /** The reconvergence point the update is given. */
  ghost function Recvg(k: Kernel, ipdom: seq<int>, guards: Guards, w: Warp): Pc
    requires SaneBlocks(k) && |ipdom| == Exit(k) + 1 && CanStep(k, w)
  {
    Resolved(k, ConvergePoint(k, ipdom, Last(w.stack).pc), Executed(k, guards, w))
  }

  /** The update turns the top entry into one that waits at a new reconvergence
      point: some group goes on elsewhere, and is not the last one. */
  ghost predicate Splits(k: Kernel, ipdom: seq<int>, guards: Guards, w: Warp)
    requires SaneBlocks(k) && |ipdom| == Exit(k) + 1 && CanStep(k, w)
  {
    var top, threads := Last(w.stack), Executed(k, guards, w);
    var gs := Groups(top.mask - Finished(threads), NextPcs(threads));
    var kept := Without(gs, top.rp);
    kept != [] && kept[0] != Last(gs) && Recvg(k, ipdom, guards, w) != top.rp
  }

  /** The top entry is made to wait where nobody arrives only if no other lane of
      the warp is live. */
  ghost predicate LeavesNoOne(k: Kernel, ipdom: seq<int>, guards: Guards, w: Warp)
    requires SaneBlocks(k) && |ipdom| == Exit(k) + 1 && CanStep(k, w)
  {
    Splits(k, ipdom, guards, w) && Free(k, Recvg(k, ipdom, guards, w)) ==>
      forall i :: 0 <= i < |w.threads| && !w.threads[i].done ==> i in Last(w.stack).mask
  }

  /** At launch every present lane is at the entry; absent ones count as done. */
  ghost predicate IsLaunched(w: Warp) {
    && (exists i :: 0 <= i < |w.threads| && !w.threads[i].done)
    && (forall i :: 0 <= i < |w.threads| && !w.threads[i].done ==> w.threads[i] == Thread(Code(0, 0), false, 0))
    && w.stack == [Entry(Code(0, 0), (set i: nat | i < |w.threads| && !w.threads[i].done), NoPc, Normal)]
  }

  // ----- the invariant

  /** The topmost entry that contains lane `i`. */
  ghost function Owner(st: seq<Entry>, i: nat): (j: int)
    ensures -1 <= j < |st|
    ensures j >= 0 ==> i in st[j].mask
    ensures forall m :: j < m < |st| ==> i !in st[m].mask
  {
    if st == [] then -1
    else if i in Last(st).mask then |st| - 1
    else Owner(ButLast(st), i)
  }

  /** A lower entry that holds a lane of `e` holds all of `e` and more. */
  ghost predicate Nests(below: seq<Entry>, e: Entry) {
    forall i :: i in e.mask ==> var j := Owner(below, i); j >= 0 ==> e.mask < below[j].mask
  }

  /** The lanes of `e` are next found in an entry that waits where `e` reconverges;
      if nobody arrives there, they are found in no entry but the dead ones. */
  ghost predicate Hangs(k: Kernel, below: seq<Entry>, e: Entry, dead: nat) {
    forall i :: i in e.mask ==>
      var j := Owner(below, i);
      if Free(k, e.rp) then j < dead else dead <= j && below[j].pc == e.rp
  }

  /** The lowest `dead` entries wait where nobody arrives. */
  ghost predicate Linked(k: Kernel, st: seq<Entry>, dead: nat) {
    st == [] ||
    (Linked(k, ButLast(st), dead) && Nests(ButLast(st), Last(st)) &&
     (|st| > dead ==> Hangs(k, ButLast(st), Last(st), dead)))
  }

  /** The block that stands for a reconvergence point. */
  function RecvgBlock(k: Kernel, rp: Pc): nat {
    if rp != ReturnAddress(k) && rp.Code? then rp.block else Exit(k)
  }

  ghost predicate RecvgOk(k: Kernel, rp: Pc, b: nat) {
    && (rp == NoPc || rp == ReturnAddress(k) || (rp.Code? && rp.offset == 0 && 0 < rp.block < Exit(k)))
    && StrictlyPostdominates(k, RecvgBlock(k, rp), b)
  }

  ghost predicate Real(k: Kernel, e: Entry) {
    e.kind.Normal? && ValidPc(k, e.pc) && RecvgOk(k, e.rp, e.pc.block)
  }

  ghost predicate LaneOk(w: Warp, dead: nat, i: nat)
    requires i < |w.threads|
  {
    var j := Owner(w.stack, i);
    if w.threads[i].done then j < dead
    else dead <= j && w.stack[j].pc == w.threads[i].pc
  }

  ghost predicate MasksOk(st: seq<Entry>, n: nat) {
    forall e :: e in st ==> e.mask != {} && forall i :: i in e.mask ==> i < n
  }

  ghost predicate EntriesOk(k: Kernel, st: seq<Entry>, dead: nat) {
    forall j :: dead <= j < |st| ==> Real(k, st[j])
  }

  /** Live lanes are where the topmost entry that holds them says, and that is
      above the dead ones, to which finished lanes are left. */
  ghost predicate Sound(k: Kernel, w: Warp, dead: nat) {
    && MasksOk(w.stack, |w.threads|)
    && Linked(k, w.stack, dead)
    && EntriesOk(k, w.stack, dead)
    && forall i :: 0 <= i < |w.threads| ==> LaneOk(w, dead, i)
  }

  // ----- facts about owners

  lemma {:induction false} OwnerOfAppend(st: seq<Entry>, e: Entry, i: nat)
    ensures Owner(st + [e], i) == if i in e.mask then |st| else Owner(st, i)
  {
    assert ButLast(st + [e]) == st;
  }

  ghost predicate DisjointMasks(gs: seq<Group>) {
    forall a, b :: 0 <= a < b < |gs| ==> gs[a].mask !! gs[b].mask
  }

  ghost predicate SitsOn(k: Kernel, below: seq<Entry>, e: Entry, dead: nat) {
    Nests(below, e) && Hangs(k, below, e, dead)
  }

  lemma {:induction false} PushOne(k: Kernel, st: seq<Entry>, e: Entry, dead: nat)
    requires Linked(k, st, dead) && Nests(st, e) && (|st| >= dead ==> Hangs(k, st, e, dead))
    ensures Linked(k, st + [e], dead)
    ensures forall i: nat :: Owner(st + [e], i) == if i in e.mask then |st| else Owner(st, i)
  {
    assert ButLast(st + [e]) == st;
    forall i: nat ensures Owner(st + [e], i) == if i in e.mask then |st| else Owner(st, i) {
      OwnerOfAppend(st, e, i);
    }
  }

  lemma {:induction false} SitsHigher(k: Kernel, below: seq<Entry>, st: seq<Entry>, e: Entry, dead: nat)
    requires SitsOn(k, below, e, dead) && |below| <= |st|
    requires forall j :: 0 <= j < |below| ==> st[j] == below[j]
    requires forall i :: i in e.mask ==> Owner(st, i) == Owner(below, i)
    ensures SitsOn(k, st, e, dead)
  {
  }

  /** With all entries dead, only the masks matter. */
  lemma {:induction false} LinkedWhenDead(k: Kernel, st: seq<Entry>, dead: nat, dead': nat)
    requires Linked(k, st, dead) && |st| <= dead'
    ensures Linked(k, st, dead')
  {
    if st != [] {
      LinkedWhenDead(k, ButLast(st), dead, dead');
    }
  }

  lemma {:induction false} StackOwners(below: seq<Entry>, gs: seq<Group>, rp: Pc)
    requires DisjointMasks(gs)
    ensures forall a, i :: 0 <= a < |gs| && i in gs[a].mask ==> Owner(below + Fresh(gs, rp), i) == |below| + a
    ensures forall i: nat :: (forall g :: g in gs ==> i !in g.mask) ==>
              Owner(below + Fresh(gs, rp), i) == Owner(below, i)
  {
    if gs == [] {
      assert below + [] == below;
    } else {
      var g, rest := Last(gs), ButLast(gs);
      var e := Entry(g.pc, g.mask, rp, Normal);
      var st := below + Fresh(rest, rp);
      assert gs == rest + [g];
      StackOwners(below, rest, rp);
      FreshAt(rest, rp);
      assert below + Fresh(gs, rp) == st + [e];
      hide Owner, Fresh;
      forall i: nat ensures Owner(st + [e], i) == if i in e.mask then |st| else Owner(st, i) {
        OwnerOfAppend(st, e, i);
      }
    }
  }

  /** Stacking disjoint groups that all sit on the same lower entries. */
  lemma {:induction false} LastIsDisjoint(gs: seq<Group>)
    requires gs != [] && DisjointMasks(gs)
    ensures DisjointMasks(ButLast(gs))
    ensures forall i, h :: i in Last(gs).mask && h in ButLast(gs) ==> i !in h.mask
  {
    forall i, h | i in Last(gs).mask && h in ButLast(gs) ensures i !in h.mask {
      var a :| 0 <= a < |gs| - 1 && gs[a] == h;
    }
  }

  lemma {:induction false} StackGroups(k: Kernel, below: seq<Entry>, gs: seq<Group>, rp: Pc, dead: nat)
    requires Linked(k, below, dead) && DisjointMasks(gs)
    requires forall g :: g in gs ==> SitsOn(k, below, Entry(g.pc, g.mask, rp, Normal), dead)
    ensures Linked(k, below + Fresh(gs, rp), dead)
  {
    if gs == [] {
      assert below + [] == below;
    } else {
      var g, rest := Last(gs), ButLast(gs);
      var e := Entry(g.pc, g.mask, rp, Normal);
      var st := below + Fresh(rest, rp);
      assert gs == rest + [g];
      assert below + Fresh(gs, rp) == st + [e];
      LastIsDisjoint(gs);
      hide Linked, Owner, Nests, Hangs, Fresh, SitsOn, DisjointMasks;
      StackGroups(k, below, rest, rp, dead);
      StackOwners(below, rest, rp);
      FreshAt(rest, rp);
      assert g in gs && SitsOn(k, below, e, dead);
      SitsHigher(k, below, st, e, dead);
      SitsIsLinked(k, st, e, dead);
      PushOne(k, st, e, dead);
    }
  }

  lemma {:induction false} SitsIsLinked(k: Kernel, st: seq<Entry>, e: Entry, dead: nat)
    requires SitsOn(k, st, e, dead)
    ensures Nests(st, e) && Hangs(k, st, e, dead)
  {
  }

  // ----- facts about reconvergence points

  lemma {:induction false} ExitPostdominates(k: Kernel, b: nat)
    requires WellFormed(k) && b < Exit(k)
    ensures StrictlyPostdominates(k, Exit(k), b)
  {
    forall p | IsPath(SuccessorGraph(k), Exit(k), p, b) ensures Exit(k) in p {
      LastIsRoot(SuccessorGraph(k), Exit(k), p, b);
    }
  }

  lemma {:induction false} NotReturnAddress(k: Kernel, b: nat, pc: Pc)
    requires WellFormed(k) && b < Exit(k) && Leads(k, b, pc)
    ensures pc != ReturnAddress(k) && pc != NoPc
  {
    EntryIsEnteredOnce(k, b, pc);
  }

  /** Moving on without reaching the reconvergence point keeps it ahead. */
  lemma {:induction false} LeadsKeepsRecvg(k: Kernel, rp: Pc, b: nat, pc: Pc)
    requires WellFormed(k) && b < Exit(k) && RecvgOk(k, rp, b) && Leads(k, b, pc) && pc != rp
    ensures RecvgOk(k, rp, pc.block)
  {
    if pc.offset == 0 {
      if RecvgBlock(k, rp) == Exit(k) {
        ExitPostdominates(k, pc.block);
      } else {
        StepKeepsDominator(SuccessorGraph(k), Exit(k), RecvgBlock(k, rp), b, pc.block);
      }
    }
  }

  /** A thread can only finish under an entry that reconverges at the exit. */
  lemma {:induction false} FinishingRecvg(k: Kernel, rp: Pc, b: nat)
    requires WellFormed(k) && b < Exit(k) && RecvgOk(k, rp, b) && Exit(k) in SuccessorGraph(k)[b]
    ensures rp == NoPc || rp == ReturnAddress(k)
  {
    NextToRoot(SuccessorGraph(k), Exit(k), RecvgBlock(k, rp), b);
  }

  /** The reconvergence point of a branch, once resolved. */
  function BranchRecvg(k: Kernel, ipdom: seq<int>, b: nat): Pc
    requires b < |ipdom|
  {
    if 0 <= ipdom[b] < Exit(k) then Code(ipdom[b], 0) else ReturnAddress(k)
  }

  lemma {:induction false} BranchRecvgOk(k: Kernel, ipdom: seq<int>, b: nat)
    requires WellFormed(k) && IsIpdomTable(k, ipdom) && b < Exit(k)
    ensures RecvgOk(k, BranchRecvg(k, ipdom, b), b)
    ensures RecvgBlock(k, BranchRecvg(k, ipdom, b)) == ipdom[b] <= Exit(k)
    ensures BranchRecvg(k, ipdom, b) == ReturnAddress(k) <==> ipdom[b] == Exit(k)
    ensures BranchRecvg(k, ipdom, b) == ReturnAddress(k) || ValidPc(k, BranchRecvg(k, ipdom, b))
  {
    var g, x := SuccessorGraph(k), Exit(k);
    StrictDominatorHasEdgeIn(g, x, ipdom[b], b);
    if ipdom[b] < x {
      assert ipdom[b] != 0 by {
        var a :| 0 <= a < |g| && ipdom[b] in g[a];
      }
      assert WellFormedBlock(k, ipdom[b]);
    }
  }

  /** Where the analysis meets the stack: a branch whose new reconvergence point
      differs from the one already pending never jumps to the pending one. */
  lemma {:induction false} DivergenceMissesPending(k: Kernel, ipdom: seq<int>, rp: Pc, b: nat, pc: Pc)
    requires WellFormed(k) && IsIpdomTable(k, ipdom) && b < Exit(k)
    requires RecvgOk(k, rp, b) && BranchRecvg(k, ipdom, b) != rp
    requires Leads(k, b, pc)
    ensures pc != rp
  {
    NotReturnAddress(k, b, pc);
    if pc == rp {
      EdgeToDominatorIsImmediate(SuccessorGraph(k), Exit(k), rp.block, ipdom[b], b);
      BranchRecvgOk(k, ipdom, b);
    }
  }

  /** The pending reconvergence point stays strictly behind the new one; if the
      new one is the exit, nothing is pending below. */
  lemma {:induction false} PendingBehindNew(k: Kernel, ipdom: seq<int>, rp: Pc, b: nat)
    requires WellFormed(k) && IsIpdomTable(k, ipdom) && b < Exit(k)
    requires RecvgOk(k, rp, b) && BranchRecvg(k, ipdom, b) != rp
    ensures ipdom[b] < Exit(k) ==> RecvgOk(k, rp, ipdom[b])
    ensures ipdom[b] == Exit(k) ==> rp == NoPc
  {
    var g, x := SuccessorGraph(k), Exit(k);
    BranchRecvgOk(k, ipdom, b);
    var r := RecvgBlock(k, rp);
    assert Dominates(g, x, r, ipdom[b]);
    if ipdom[b] == x {
      RootHasNoStrictDominator(g, x, r);
    }
  }

  // ----- the groups that are kept

  /** `gs` groups the lanes by next program counter, except for those whose next
      program counter is in `dropped`. */
  ghost predicate Grouping(gs: seq<Group>, lanes: set<nat>, next: seq<Pc>, dropped: set<Pc>)
    requires InWarp(lanes, next)
  {
    && DistinctPcs(gs)
    && (forall g :: g in gs ==> g.mask != {} && g.mask <= lanes && g.pc !in dropped)
    && (forall g, i :: g in gs && i in g.mask ==> next[i] == g.pc)
    && (forall i :: i in lanes && next[i] !in dropped ==> exists g :: g in gs && i in g.mask)
  }

  lemma {:induction false} GroupsGroup(lanes: set<nat>, next: seq<Pc>)
    requires InWarp(lanes, next)
    ensures Grouping(Groups(lanes, next), lanes, next, {})
  {
    GroupsAgreeWithPcs(lanes, next);
    GroupsCoverLanes(lanes, next);
    GroupsHaveDistinctPcs(lanes, next);
  }

  lemma {:induction false} DropGroup(gs: seq<Group>, lanes: set<nat>, next: seq<Pc>, dropped: set<Pc>, pc: Pc)
    requires InWarp(lanes, next) && Grouping(gs, lanes, next, dropped)
    ensures Grouping(Without(gs, pc), lanes, next, dropped + {pc})
  {
    WithoutMembers(gs, pc);
    WithoutDistinct(gs, pc);
    forall i | i in lanes && next[i] !in dropped + {pc}
      ensures exists g :: g in Without(gs, pc) && i in g.mask
    {
      var g :| g in gs && i in g.mask;
      assert g in Without(gs, pc);
    }
  }

  lemma {:induction false} GroupingIsDisjoint(gs: seq<Group>, lanes: set<nat>, next: seq<Pc>, dropped: set<Pc>)
    requires InWarp(lanes, next) && Grouping(gs, lanes, next, dropped)
    ensures DisjointMasks(gs)
  {
    forall a, b | 0 <= a < b < |gs| ensures gs[a].mask !! gs[b].mask {
      assert gs[a] in gs && gs[b] in gs;
      forall i | i in gs[a].mask ensures i !in gs[b].mask {
        assert next[i] == gs[a].pc;
      }
    }
  }

  // ----- the invariant is kept

  /** What executing the active lanes does to the threads. */
  ghost predicate Moved(k: Kernel, w: Warp, threads: seq<Thread>)
    requires WellFormed(k) && CanStep(k, w)
  {
    var top := Last(w.stack);
    && |threads| == |w.threads|
    && (forall i :: 0 <= i < |threads| && i !in top.mask ==> threads[i] == w.threads[i])
    && (forall i :: i in top.mask ==>
          if threads[i].done then Exit(k) in SuccessorGraph(k)[top.pc.block]
          else Leads(k, top.pc.block, threads[i].pc))
  }

  /** While some thread is live, the top entry is a real one and all its lanes
      pass the synchronisation check. */
  lemma {:induction false} ActiveLanesInSync(k: Kernel, w: Warp, dead: nat)
    requires Sound(k, w, dead) && SomeLive(w.threads)
    ensures dead < |w.stack| && Real(k, Last(w.stack)) && CanStep(k, w)
  {
    var i :| 0 <= i < |w.threads| && !w.threads[i].done;
    assert LaneOk(w, dead, i);
    assert Last(w.stack) in w.stack;
    forall j | j in Last(w.stack).mask ensures j < |w.threads| && InSync(w, j) {
      assert LaneOk(w, dead, j);
    }
  }

  lemma {:induction false} ExecutedMoves(k: Kernel, guards: Guards, w: Warp)
    requires WellFormed(k) && CanStep(k, w)
    ensures Moved(k, w, Executed(k, guards, w))
  {
    var top := Last(w.stack);
    forall i | i in top.mask
      ensures var t := Executed(k, guards, w)[i];
              if t.done then Exit(k) in SuccessorGraph(k)[top.pc.block] else Leads(k, top.pc.block, t.pc)
    {
      assert InSync(w, i);
      ExecuteLeads(k, guards(i, w.threads[i].steps), w.threads[i]);
    }
  }

  lemma {:induction false} OwnerInBase(w: Warp, i: nat)
    requires w.stack != [] && i !in Last(w.stack).mask
    ensures Owner(w.stack, i) == Owner(ButLast(w.stack), i)
  {
  }

  /** Where a lane of the top entry is found below the top. */
  lemma {:induction false} OwnerBelowTop(k: Kernel, w: Warp, dead: nat, i: nat)
    requires Sound(k, w, dead) && dead < |w.stack| && i in Last(w.stack).mask
    ensures var j, rp := Owner(ButLast(w.stack), i), Last(w.stack).rp;
            if Free(k, rp) then j < dead
            else dead <= j && w.stack[j].pc == rp && Last(w.stack).mask < w.stack[j].mask
  {
    assert Hangs(k, ButLast(w.stack), Last(w.stack), dead) && Nests(ButLast(w.stack), Last(w.stack));
  }

  /** If no live lane is outside the top entry, the top reconverges nowhere. */
  lemma {:induction false} TopIsFree(k: Kernel, w: Warp, dead: nat)
    requires Sound(k, w, dead) && dead < |w.stack|
    requires forall i :: 0 <= i < |w.threads| && !w.threads[i].done ==> i in Last(w.stack).mask
    ensures Free(k, Last(w.stack).rp)
  {
    var top := Last(w.stack);
    assert top in w.stack;
    var i :| i in top.mask;
    OwnerBelowTop(k, w, dead, i);
    if !Free(k, top.rp) {
      var j := Owner(ButLast(w.stack), i);
      var other :| other in w.stack[j].mask && other !in top.mask;
      RealLaneIsLive(k, w, dead, other, j);
    }
  }

  lemma {:induction false} RealLaneIsLive(k: Kernel, w: Warp, dead: nat, i: nat, j: nat)
    requires Sound(k, w, dead) && dead <= j < |w.stack| && i in w.stack[j].mask
    ensures i < |w.threads| && !w.threads[i].done
  {
    OwnerAtLeast(w.stack, i, j);
    assert w.stack[j] in w.stack;
    assert LaneOk(w, dead, i);
  }

  lemma {:induction false} OwnerAtLeast(st: seq<Entry>, i: nat, j: nat)
    requires j < |st| && i in st[j].mask
    ensures j <= Owner(st, i)
  {
  }

  /** An entry made for a kept group is a real one. */
  lemma {:induction false} KeptIsReal(k: Kernel, w: Warp, threads: seq<Thread>, kept: seq<Group>, rp: Pc,
                                      dropped: set<Pc>, g: Group)
    requires WellFormed(k) && CanStep(k, w) && Moved(k, w, threads)
    requires Grouping(kept, Last(w.stack).mask - Finished(threads), NextPcs(threads), dropped)
    requires rp in dropped && RecvgOk(k, rp, Last(w.stack).pc.block)
    requires g in kept
    ensures Real(k, Entry(g.pc, g.mask, rp, Normal)) && g.pc != ReturnAddress(k)
    ensures g.mask != {} && g.mask <= Last(w.stack).mask
  {
    var i :| i in g.mask;
    assert NextPcs(threads)[i] == g.pc == threads[i].pc;
    LeadsKeepsRecvg(k, rp, Last(w.stack).pc.block, g.pc);
    NotReturnAddress(k, Last(w.stack).pc.block, g.pc);
  }

  /** A lane that is not kept is in no kept group. */
  lemma {:induction false} NotKept(w: Warp, threads: seq<Thread>, kept: seq<Group>, dropped: set<Pc>, i: nat)
    requires w.stack != [] && i < |threads| && (forall j :: j in Last(w.stack).mask ==> j < |threads|)
    requires Grouping(kept, Last(w.stack).mask - Finished(threads), NextPcs(threads), dropped)
    requires i !in Last(w.stack).mask || threads[i].done || threads[i].pc in dropped
    ensures forall g :: g in kept ==> i !in g.mask
  {
    assert i < |NextPcs(threads)|;
  }

  /** A lane that is kept sits in one of the kept groups at its program counter. */
  lemma {:induction false} KeptAt(w: Warp, threads: seq<Thread>, kept: seq<Group>, dropped: set<Pc>, i: nat)
    returns (a: nat)
    requires w.stack != [] && i < |threads| && (forall j :: j in Last(w.stack).mask ==> j < |threads|)
    requires Grouping(kept, Last(w.stack).mask - Finished(threads), NextPcs(threads), dropped)
    requires i in Last(w.stack).mask && !threads[i].done && threads[i].pc !in dropped
    ensures a < |kept| && i in kept[a].mask && kept[a].pc == threads[i].pc
  {
    assert NextPcs(threads)[i] == threads[i].pc;
    var g :| g in kept && i in g.mask;
    a :| 0 <= a < |kept| && kept[a] == g;
  }

  // Case one: the kept groups take the place of the top entry.

  ghost predicate KeptInPlace(k: Kernel, w: Warp, dead: nat, threads: seq<Thread>, kept: seq<Group>) {
    && WellFormed(k) && Sound(k, w, dead) && dead < |w.stack|
    && CanStep(k, w) && Moved(k, w, threads)
    && Grouping(kept, Last(w.stack).mask - Finished(threads), NextPcs(threads), {Last(w.stack).rp})
  }

  ghost predicate Stacked(below: seq<Entry>, st: seq<Entry>, kept: seq<Group>, rp: Pc) {
    && |st| == |below| + |kept| && st[..|below|] == below
    && (forall a :: 0 <= a < |kept| ==> st[|below| + a] == Entry(kept[a].pc, kept[a].mask, rp, Normal))
    && (forall a, i :: 0 <= a < |kept| && i in kept[a].mask ==> Owner(st, i) == |below| + a)
    && (forall i: nat :: (forall g :: g in kept ==> i !in g.mask) ==> Owner(st, i) == Owner(below, i))
  }

  lemma {:induction false} LaneInGroup(below: seq<Entry>, st: seq<Entry>, gs: seq<Group>, rp: Pc,
                                       threads: seq<Thread>, dead: nat, i: nat, a: nat)
    requires Stacked(below, st, gs, rp) && dead <= |below| && i < |threads|
    requires a < |gs| && i in gs[a].mask && !threads[i].done && gs[a].pc == threads[i].pc
    ensures LaneOk(Warp(st, threads), dead, i)
  {
    hide Linked, Owner;
    assert st[|below| + a].pc == gs[a].pc;
  }

  lemma {:induction false} LaneBelowGroups(below: seq<Entry>, st: seq<Entry>, gs: seq<Group>, rp: Pc,
                                           threads: seq<Thread>, dead: nat, i: nat)
    requires Stacked(below, st, gs, rp) && i < |threads| && forall g :: g in gs ==> i !in g.mask
    requires var j := Owner(below, i);
             if threads[i].done then j < dead else dead <= j && below[j].pc == threads[i].pc
    ensures LaneOk(Warp(st, threads), dead, i)
  {
    hide Linked, Owner;
    var j := Owner(below, i);
    assert 0 <= j ==> st[j] == st[..|below|][j];
  }

  lemma {:induction false} StackedOn(k: Kernel, below: seq<Entry>, gs: seq<Group>, rp: Pc, dead: nat)
    requires Linked(k, below, dead) && DisjointMasks(gs)
    requires forall g :: g in gs ==> SitsOn(k, below, Entry(g.pc, g.mask, rp, Normal), dead)
    ensures Linked(k, below + Fresh(gs, rp), dead) && Stacked(below, below + Fresh(gs, rp), gs, rp)
  {
    hide Linked, Owner, Fresh, SitsOn, DisjointMasks;
    StackGroups(k, below, gs, rp, dead);
    StackOwners(below, gs, rp);
    FreshAt(gs, rp);
  }

  /** Parts of an entry sit where it sat. */
  lemma {:induction false} PartSits(k: Kernel, st: seq<Entry>, g: Group, dead: nat)
    requires st != [] && Linked(k, st, dead) && |st| > dead && g.mask <= Last(st).mask
    ensures SitsOn(k, ButLast(st), Entry(g.pc, g.mask, Last(st).rp, Normal), dead)
  {
    assert Nests(ButLast(st), Last(st)) && Hangs(k, ButLast(st), Last(st), dead);
  }

  lemma {:induction false} ReplacedStack(k: Kernel, w: Warp, dead: nat, threads: seq<Thread>, kept: seq<Group>)
    requires KeptInPlace(k, w, dead, threads, kept)
    ensures var base, rp := ButLast(w.stack), Last(w.stack).rp;
            Linked(k, base + Fresh(kept, rp), dead) && Stacked(base, base + Fresh(kept, rp), kept, rp)
  {
    var top, base := Last(w.stack), ButLast(w.stack);
    assert Linked(k, base, dead);
    assert InWarp(top.mask - Finished(threads), NextPcs(threads));
    hide Linked, Stacked, EntriesOk, MasksOk, LaneOk, Moved, Owner, SitsOn;
    GroupingIsDisjoint(kept, top.mask - Finished(threads), NextPcs(threads), {top.rp});
    forall g | g in kept ensures SitsOn(k, base, Entry(g.pc, g.mask, top.rp, Normal), dead) {
      PartSits(k, w.stack, g, dead);
    }
    StackedOn(k, base, kept, top.rp, dead);
  }

  /** Real entries on top of the old lower ones. */
  lemma {:induction false} EntriesOnOld(k: Kernel, was: seq<Entry>, st: seq<Entry>, dead: nat, n: nat)
    requires dead < |was| && |was| <= |st| + 1
    requires EntriesOk(k, was, dead) && MasksOk(was, n)
    requires forall j :: 0 <= j < |was| - 1 ==> st[j] == was[j]
    requires forall j :: |was| - 1 <= j < |st| ==> Real(k, st[j])
    requires forall j :: |was| - 1 <= j < |st| ==> st[j].mask != {} && st[j].mask <= Last(was).mask
    ensures EntriesOk(k, st, dead) && MasksOk(st, n)
  {
    hide Real;
    assert Last(was) in was;
    forall e | e in st ensures e.mask != {} && forall i :: i in e.mask ==> i < n {
      var j :| 0 <= j < |st| && st[j] == e;
      if j < |was| - 1 {
        assert was[j] in was;
      }
    }
  }

  lemma {:induction false} ReplacedEntries(k: Kernel, w: Warp, dead: nat, threads: seq<Thread>, kept: seq<Group>,
                                           st: seq<Entry>)
    requires KeptInPlace(k, w, dead, threads, kept)
    requires Stacked(ButLast(w.stack), st, kept, Last(w.stack).rp)
    ensures MasksOk(st, |threads|) && EntriesOk(k, st, dead)
  {
    hide Linked, LaneOk, Owner;
    var top, base := Last(w.stack), ButLast(w.stack);
    assert Real(k, top);
    forall j | 0 <= j < |base| ensures st[j] == w.stack[j] {
      assert st[j] == st[..|base|][j];
    }
    forall j | |base| <= j < |st|
      ensures Real(k, st[j]) && st[j].mask != {} && st[j].mask <= top.mask
    {
      KeptIsReal(k, w, threads, kept, top.rp, {top.rp}, kept[j - |base|]);
      assert st[|base| + (j - |base|)] == st[j];
    }
    EntriesOnOld(k, w.stack, st, dead, |threads|);
  }

  lemma {:induction false} ReplacedLane(k: Kernel, w: Warp, dead: nat, threads: seq<Thread>, kept: seq<Group>,
                                        st: seq<Entry>, i: nat)
    requires KeptInPlace(k, w, dead, threads, kept) && i < |threads|
    requires Stacked(ButLast(w.stack), st, kept, Last(w.stack).rp)
    ensures LaneOk(Warp(st, threads), dead, i)
  {
    var top, base := Last(w.stack), ButLast(w.stack);
    assert forall j :: j in top.mask ==> j < |threads|;
    if i in top.mask && !threads[i].done && threads[i].pc != top.rp {
      hide Sound, Moved, CanStep, Stacked, LaneOk;
      var a := KeptAt(w, threads, kept, {top.rp}, i);
      LaneInGroup(base, st, kept, top.rp, threads, dead, i, a);
    } else {
      hide Sound, Moved, CanStep, Stacked, LaneOk;
      NotKept(w, threads, kept, {top.rp}, i);
      DroppedOwner(k, w, dead, threads, i);
      assert forall j :: 0 <= j < |base| ==> base[j] == w.stack[j];
      LaneBelowGroups(base, st, kept, top.rp, threads, dead, i);
    }
  }

  /** A lane that is not kept belongs to a waiting entry at its program counter,
      or is done. */
  lemma {:induction false} DroppedOwner(k: Kernel, w: Warp, dead: nat, threads: seq<Thread>, i: nat)
    requires WellFormed(k) && Sound(k, w, dead) && dead < |w.stack|
    requires CanStep(k, w) && Moved(k, w, threads) && i < |threads|
    requires i !in Last(w.stack).mask || threads[i].done || threads[i].pc == Last(w.stack).rp
    ensures var j := Owner(ButLast(w.stack), i);
            if threads[i].done then j < dead
            else dead <= j && w.stack[j].pc == threads[i].pc
  {
    var top := Last(w.stack);
    assert LaneOk(w, dead, i);
    assert Real(k, top);
    if i !in top.mask {
      OwnerInBase(w, i);
    } else {
      OwnerBelowTop(k, w, dead, i);
      if threads[i].done {
        FinishingRecvg(k, top.rp, top.pc.block);
      } else {
        NotReturnAddress(k, top.pc.block, threads[i].pc);
      }
    }
  }

  lemma {:induction false} ReplaceTop(k: Kernel, w: Warp, dead: nat, threads: seq<Thread>, kept: seq<Group>)
    requires KeptInPlace(k, w, dead, threads, kept)
    ensures Sound(k, Warp(ButLast(w.stack) + Fresh(kept, Last(w.stack).rp), threads), dead)
  {
    var st := ButLast(w.stack) + Fresh(kept, Last(w.stack).rp);
    ReplacedStack(k, w, dead, threads, kept);
    ReplacedEntries(k, w, dead, threads, kept, st);
    forall i | 0 <= i < |threads| ensures LaneOk(Warp(st, threads), dead, i) {
      ReplacedLane(k, w, dead, threads, kept, st, i);
    }
  }

  // Case two: the top entry becomes the one that waits at the reconvergence
  // point of the branch just executed.

  ghost predicate KeptAbove(k: Kernel, w: Warp, dead: nat, threads: seq<Thread>, kept: seq<Group>,
                            ipdom: seq<int>, recvg: Pc) {
    && WellFormed(k) && Sound(k, w, dead) && dead < |w.stack|
    && CanStep(k, w) && Moved(k, w, threads)
    && IsIpdomTable(k, ipdom) && recvg != Last(w.stack).rp
    && (recvg == NoPc || recvg == BranchRecvg(k, ipdom, Last(w.stack).pc.block))
    && (Free(k, recvg) ==> forall i :: 0 <= i < |w.threads| && !w.threads[i].done ==> i in Last(w.stack).mask)
    && (forall i :: i in Last(w.stack).mask ==> !threads[i].done)
    && Grouping(kept, Last(w.stack).mask - Finished(threads), NextPcs(threads), {recvg, Last(w.stack).rp})
    && (forall g :: g in kept ==> g.mask != Last(w.stack).mask)
  }

  /** Once an entry waits where nobody arrives, it and all below it are dead. */
  function DeadAfter(k: Kernel, st: seq<Entry>, dead: nat, recvg: Pc): nat {
    if Free(k, recvg) then |st| else dead
  }

  /** Replacing the program counter of the top entry moves no lane. */
  lemma {:induction false} WaitingOwners(k: Kernel, st: seq<Entry>, pc: Pc, dead: nat)
    requires st != [] && Linked(k, st, dead)
    ensures var below := ButLast(st) + [Last(st).(pc := pc)];
            && Linked(k, below, dead)
            && forall i: nat :: Owner(below, i) == if i in Last(st).mask then |below| - 1 else Owner(st, i)
  {
    var base, waiting := ButLast(st), Last(st).(pc := pc);
    assert Nests(base, waiting) && (|base| >= dead ==> Hangs(k, base, waiting, dead));
    PushOne(k, base, waiting, dead);
    assert base + [Last(st)] == st;
    forall i: nat ensures Owner(st, i) == if i in Last(st).mask then |base| else Owner(base, i) {
      OwnerOfAppend(base, Last(st), i);
    }
  }

  /** Proper parts of a waiting top entry sit on it. */
  lemma {:induction false} PartSitsOnWaiting(k: Kernel, below: seq<Entry>, g: Group, dead: nat)
    requires below != [] && g.mask < Last(below).mask
    requires if Free(k, Last(below).pc) then |below| <= dead else dead < |below|
    ensures SitsOn(k, below, Entry(g.pc, g.mask, Last(below).pc, Normal), dead)
  {
  }

  lemma {:induction false} PushedStack(k: Kernel, w: Warp, dead: nat, threads: seq<Thread>, kept: seq<Group>,
                                       ipdom: seq<int>, recvg: Pc)
    requires KeptAbove(k, w, dead, threads, kept, ipdom, recvg)
    ensures var below := ButLast(w.stack) + [Last(w.stack).(pc := recvg)];
            && Linked(k, below + Fresh(kept, recvg), DeadAfter(k, w.stack, dead, recvg))
            && Stacked(below, below + Fresh(kept, recvg), kept, recvg)
            && forall i: nat :: Owner(below, i) == if i in Last(w.stack).mask then |below| - 1 else Owner(w.stack, i)
  {
    var top := Last(w.stack);
    var below := ButLast(w.stack) + [top.(pc := recvg)];
    var dead' := DeadAfter(k, w.stack, dead, recvg);
    assert InWarp(top.mask - Finished(threads), NextPcs(threads));
    hide Linked, Stacked, EntriesOk, MasksOk, LaneOk, Moved, Owner, WellFormed, IsIpdomTable, CanStep, SitsOn;
    WaitingOwners(k, w.stack, recvg, dead);
    if Free(k, recvg) {
      LinkedWhenDead(k, below, dead, dead');
    }
    GroupingIsDisjoint(kept, top.mask - Finished(threads), NextPcs(threads), {recvg, top.rp});
    forall g | g in kept ensures SitsOn(k, below, Entry(g.pc, g.mask, recvg, Normal), dead') {
      assert g.mask < top.mask;
      PartSitsOnWaiting(k, below, g, dead');
    }
    StackedOn(k, below, kept, recvg, dead');
  }

  /** The new reconvergence point is behind the branch; if somebody arrives there,
      the waiting entry is a real one. */
  lemma {:induction false} WaitingEntry(k: Kernel, w: Warp, dead: nat, threads: seq<Thread>, kept: seq<Group>,
                                        ipdom: seq<int>, recvg: Pc)
    requires KeptAbove(k, w, dead, threads, kept, ipdom, recvg)
    ensures RecvgOk(k, recvg, Last(w.stack).pc.block)
    ensures !Free(k, recvg) ==> Real(k, Last(w.stack).(pc := recvg))
  {
    var top := Last(w.stack);
    assert Real(k, top);
    if recvg == NoPc {
      ExitPostdominates(k, top.pc.block);
    } else {
      BranchRecvgOk(k, ipdom, top.pc.block);
      PendingBehindNew(k, ipdom, top.rp, top.pc.block);
    }
  }

  lemma {:induction false} PushedEntries(k: Kernel, w: Warp, dead: nat, threads: seq<Thread>, kept: seq<Group>,
                                         ipdom: seq<int>, recvg: Pc, st: seq<Entry>)
    requires KeptAbove(k, w, dead, threads, kept, ipdom, recvg)
    requires Stacked(ButLast(w.stack) + [Last(w.stack).(pc := recvg)], st, kept, recvg)
    ensures MasksOk(st, |threads|) && EntriesOk(k, st, DeadAfter(k, w.stack, dead, recvg))
  {
    hide Linked, Owner, LaneOk;
    var top, base := Last(w.stack), ButLast(w.stack);
    var below := base + [top.(pc := recvg)];
    WaitingEntry(k, w, dead, threads, kept, ipdom, recvg);
    UpperEntries(k, w, dead, threads, kept, ipdom, recvg, st);
    LowerPart(st, below);
    hide Real, Moved, CanStep, Stacked, IsIpdomTable, WellFormed;
    PushedMasks(w.stack, st, recvg, |threads|);
  }

  lemma {:induction false} UpperEntries(k: Kernel, w: Warp, dead: nat, threads: seq<Thread>, kept: seq<Group>,
                                        ipdom: seq<int>, recvg: Pc, st: seq<Entry>)
    requires KeptAbove(k, w, dead, threads, kept, ipdom, recvg)
    requires Stacked(ButLast(w.stack) + [Last(w.stack).(pc := recvg)], st, kept, recvg)
    ensures forall j :: |w.stack| <= j < |st| ==>
              Real(k, st[j]) && st[j].mask != {} && st[j].mask <= Last(w.stack).mask
  {
    hide Linked, Owner, LaneOk;
    var top, n := Last(w.stack), |w.stack|;
    WaitingEntry(k, w, dead, threads, kept, ipdom, recvg);
    forall j | n <= j < |st| ensures Real(k, st[j]) && st[j].mask != {} && st[j].mask <= top.mask {
      KeptIsReal(k, w, threads, kept, recvg, {recvg, top.rp}, kept[j - n]);
      assert st[n + (j - n)] == st[j];
    }
  }

  lemma {:induction false} LowerPart(st: seq<Entry>, below: seq<Entry>)
    requires |below| <= |st| && st[..|below|] == below
    ensures forall j :: 0 <= j < |below| ==> st[j] == below[j]
  {
    forall j | 0 <= j < |below| ensures st[j] == below[j] {
      assert st[j] == st[..|below|][j];
    }
  }

  lemma {:induction false} PushedMasks(was: seq<Entry>, st: seq<Entry>, recvg: Pc, n: nat)
    requires was != [] && |was| <= |st| && MasksOk(was, n)
    requires forall j :: 0 <= j < |was| ==> st[j].mask == was[j].mask
    requires forall j :: |was| <= j < |st| ==> st[j].mask != {} && st[j].mask <= Last(was).mask
    ensures MasksOk(st, n)
  {
    assert Last(was) in was;
    forall e | e in st ensures e.mask != {} && forall i :: i in e.mask ==> i < n {
      var j :| 0 <= j < |st| && st[j] == e;
      if j < |was| {
        assert was[j] in was;
      }
    }
  }

  lemma {:induction false} PushedLane(k: Kernel, w: Warp, dead: nat, threads: seq<Thread>, kept: seq<Group>,
                                      ipdom: seq<int>, recvg: Pc, st: seq<Entry>, i: nat)
    requires KeptAbove(k, w, dead, threads, kept, ipdom, recvg) && i < |threads|
    requires i in Last(w.stack).mask
    requires Stacked(ButLast(w.stack) + [Last(w.stack).(pc := recvg)], st, kept, recvg)
    requires Owner(ButLast(w.stack) + [Last(w.stack).(pc := recvg)], i) == |w.stack| - 1
    ensures LaneOk(Warp(st, threads), DeadAfter(k, w.stack, dead, recvg), i)
  {
    var top := Last(w.stack);
    var below := ButLast(w.stack) + [top.(pc := recvg)];
    assert Real(k, top) && Leads(k, top.pc.block, threads[i].pc);
    assert forall j :: j in top.mask ==> j < |threads|;
    PushedMissesPending(k, w, dead, threads, kept, ipdom, recvg, i);
    hide Sound, Moved, CanStep, Stacked, LaneOk, Leads, RecvgOk, IsIpdomTable, WellFormed, BranchRecvg;
    var dead' := DeadAfter(k, w.stack, dead, recvg);
    if threads[i].pc == recvg {
      NotKept(w, threads, kept, {recvg, top.rp}, i);
      LaneBelowGroups(below, st, kept, recvg, threads, dead', i);
    } else {
      var a := KeptAt(w, threads, kept, {recvg, top.rp}, i);
      LaneInGroup(below, st, kept, recvg, threads, dead', i, a);
    }
  }

  /** No lane is at the pending reconvergence point, or at a free one. */
  lemma {:induction false} PushedMissesPending(k: Kernel, w: Warp, dead: nat, threads: seq<Thread>, kept: seq<Group>,
                                               ipdom: seq<int>, recvg: Pc, i: nat)
    requires KeptAbove(k, w, dead, threads, kept, ipdom, recvg) && i in Last(w.stack).mask
    ensures threads[i].pc != Last(w.stack).rp && !Free(k, threads[i].pc)
  {
    var top := Last(w.stack);
    assert Real(k, top) && Leads(k, top.pc.block, threads[i].pc);
    NotReturnAddress(k, top.pc.block, threads[i].pc);
    if Free(k, recvg) {
      TopIsFree(k, w, dead);
    } else {
      DivergenceMissesPending(k, ipdom, top.rp, top.pc.block, threads[i].pc);
    }
  }

  lemma {:induction false} UntouchedLane(k: Kernel, w: Warp, dead: nat, threads: seq<Thread>, kept: seq<Group>,
                                         ipdom: seq<int>, recvg: Pc, st: seq<Entry>, i: nat)
    requires KeptAbove(k, w, dead, threads, kept, ipdom, recvg) && i < |threads|
    requires i !in Last(w.stack).mask
    requires Stacked(ButLast(w.stack) + [Last(w.stack).(pc := recvg)], st, kept, recvg)
    requires Owner(ButLast(w.stack) + [Last(w.stack).(pc := recvg)], i) == Owner(w.stack, i)
    ensures LaneOk(Warp(st, threads), DeadAfter(k, w.stack, dead, recvg), i)
  {
    var below := ButLast(w.stack) + [Last(w.stack).(pc := recvg)];
    assert LaneOk(w, dead, i) && threads[i] == w.threads[i];
    assert forall j :: j in Last(w.stack).mask ==> j < |threads|;
    OwnerInBase(w, i);
    assert forall j :: 0 <= j < |w.stack| - 1 ==> below[j] == w.stack[j];
    hide Sound, Moved, CanStep, Stacked, Real, Owner;
    NotKept(w, threads, kept, {recvg, Last(w.stack).rp}, i);
    LaneBelowGroups(below, st, kept, recvg, threads, DeadAfter(k, w.stack, dead, recvg), i);
  }

  lemma {:induction false} PushReconvergence(k: Kernel, w: Warp, dead: nat, threads: seq<Thread>, kept: seq<Group>,
                                             ipdom: seq<int>, recvg: Pc)
    requires KeptAbove(k, w, dead, threads, kept, ipdom, recvg)
    ensures var st := ButLast(w.stack) + [Last(w.stack).(pc := recvg)] + Fresh(kept, recvg);
            Sound(k, Warp(st, threads), DeadAfter(k, w.stack, dead, recvg))
  {
    var st := ButLast(w.stack) + [Last(w.stack).(pc := recvg)] + Fresh(kept, recvg);
    PushedStack(k, w, dead, threads, kept, ipdom, recvg);
    PushedEntries(k, w, dead, threads, kept, ipdom, recvg, st);
    var dead' := DeadAfter(k, w.stack, dead, recvg);
    forall i | 0 <= i < |threads| ensures LaneOk(Warp(st, threads), dead', i) {
      if i in Last(w.stack).mask {
        PushedLane(k, w, dead, threads, kept, ipdom, recvg, st, i);
      } else {
        UntouchedLane(k, w, dead, threads, kept, ipdom, recvg, st, i);
      }
    }
  }

  // ----- one step, and every run

  /** Lanes part ways only at branches and breaks, where none of them finishes. */
  lemma {:induction false} PartingLanes(k: Kernel, guards: Guards, w: Warp, i: nat, j: nat)
    requires WellFormed(k) && CanStep(k, w) && i in Last(w.stack).mask && j in Last(w.stack).mask
    requires var ts := Executed(k, guards, w); !ts[i].done && !ts[j].done && ts[i].pc != ts[j].pc
    ensures forall m :: m in Last(w.stack).mask ==> !Executed(k, guards, w)[m].done
  {
    var pc := Last(w.stack).pc;
    assert InSync(w, i) && InSync(w, j);
    assert WellFormedBlock(k, pc.block);
    var ti, tj := w.threads[i], w.threads[j];
    assert Executed(k, guards, w)[i] == Execute(k, guards(i, ti.steps), ti);
    assert Executed(k, guards, w)[j] == Execute(k, guards(j, tj.steps), tj);
    forall m | m in Last(w.stack).mask ensures !Executed(k, guards, w)[m].done {
      assert InSync(w, m);
      assert Executed(k, guards, w)[m] == Execute(k, guards(m, w.threads[m].steps), w.threads[m]);
    }
  }

  lemma {:induction false} NoGroupIsAll(gs: seq<Group>, lanes: set<nat>, next: seq<Pc>, g: Group)
    requires InWarp(lanes, next) && Grouping(gs, lanes, next, {}) && |gs| > 1 && g in gs
    ensures g.mask != lanes
  {
    var a :| 0 <= a < |gs| && gs[a] == g;
    var h := gs[if a == 0 then 1 else 0];
    assert h in gs;
    var i :| i in h.mask;
    assert next[i] == h.pc != g.pc;
  }

  /** With two groups there are two lanes that part ways. */
  lemma {:induction false} TwoGroupsPart(k: Kernel, guards: Guards, w: Warp)
    requires WellFormed(k) && CanStep(k, w)
    requires var ts := Executed(k, guards, w);
             |Groups(Last(w.stack).mask - Finished(ts), NextPcs(ts))| > 1
    ensures forall m :: m in Last(w.stack).mask ==> !Executed(k, guards, w)[m].done
  {
    assert SaneBlocks(k);
    hide Groups, Execute, WellFormed, SaneBlocks;
    var ts := Executed(k, guards, w);
    var lanes, next := Last(w.stack).mask - Finished(ts), NextPcs(ts);
    assert InWarp(lanes, next);
    var i, j := LanesOfTwoGroups(lanes, next);
    assert next[i] == ts[i].pc && next[j] == ts[j].pc;
    PartingLanes(k, guards, w, i, j);
  }

  lemma {:induction false} LanesOfTwoGroups(lanes: set<nat>, next: seq<Pc>) returns (i: nat, j: nat)
    requires InWarp(lanes, next) && |Groups(lanes, next)| > 1
    ensures i in lanes && j in lanes && next[i] != next[j]
  {
    var gs := Groups(lanes, next);
    GroupsGroup(lanes, next);
    hide Groups;
    var g, h := gs[0], gs[1];
    assert g in gs && h in gs && g.pc != h.pc;
    i :| i in g.mask;
    j :| j in h.mask;
  }

  /** The groups that do not go to the pending reconvergence point. */
  lemma {:induction false} KeptGroups(lanes: set<nat>, next: seq<Pc>, rp: Pc)
    requires InWarp(lanes, next)
    ensures Grouping(Without(Groups(lanes, next), rp), lanes, next, {rp})
  {
    GroupsGroup(lanes, next);
    DropGroup(Groups(lanes, next), lanes, next, {}, rp);
    assert {} + {rp} == {rp};
  }

  /** What the update is given as reconvergence point. */
  lemma {:induction false} RecvgResolved(k: Kernel, ipdom: seq<int>, guards: Guards, w: Warp)
    requires WellFormed(k) && IsIpdomTable(k, ipdom) && CanStep(k, w)
    requires forall m :: m in Last(w.stack).mask ==> !Executed(k, guards, w)[m].done
    ensures var recvg := Recvg(k, ipdom, guards, w);
            recvg == NoPc || recvg == BranchRecvg(k, ipdom, Last(w.stack).pc.block)
  {
    var i :| i in Last(w.stack).mask;
    assert !Executed(k, guards, w)[i].done;
    assert SomeLive(Executed(k, guards, w));
  }

  /** The groups kept above a new reconvergence point. */
  lemma {:induction false} KeptAboveGroups(gs: seq<Group>, lanes: set<nat>, next: seq<Pc>, rp: Pc, recvg: Pc)
    requires InWarp(lanes, next) && Grouping(gs, lanes, next, {}) && |gs| > 1
    ensures var kept := Without(Without(gs, rp), recvg);
            Grouping(kept, lanes, next, {recvg, rp}) && forall g :: g in kept ==> g.mask != lanes
  {
    var missing := Without(gs, rp);
    DropGroup(gs, lanes, next, {}, rp);
    DropGroup(missing, lanes, next, {} + {rp}, recvg);
    assert {} + {rp} + {recvg} == {recvg, rp};
    WithoutMembers(gs, rp);
    WithoutMembers(missing, recvg);
    forall g | g in Without(missing, recvg) ensures g.mask != lanes {
      NoGroupIsAll(gs, lanes, next, g);
    }
  }

  lemma {:induction false} SplitStep(k: Kernel, ipdom: seq<int>, guards: Guards, w: Warp, dead: nat)
    requires WellFormed(k) && IsIpdomTable(k, ipdom) && Sound(k, w, dead) && dead < |w.stack|
    requires CanStep(k, w) && Last(w.stack).kind.Normal?
    requires Splits(k, ipdom, guards, w) && LeavesNoOne(k, ipdom, guards, w)
    ensures Sound(k, Step(k, ipdom, guards, w), DeadAfter(k, w.stack, dead, Recvg(k, ipdom, guards, w)))
  {
    var threads, recvg := Executed(k, guards, w), Recvg(k, ipdom, guards, w);
    SplitOutcome(k, ipdom, guards, w);
    ExecutedMoves(k, guards, w);
    RecvgResolved(k, ipdom, guards, w);
    assert recvg != Last(w.stack).rp;
    assert Free(k, recvg) ==> forall i :: 0 <= i < |w.threads| && !w.threads[i].done ==> i in Last(w.stack).mask;
    hide Splits, LeavesNoOne, Executed, Recvg, Sound, Updated, CanStep, Moved, WellFormed;
    SplitIsSound(k, ipdom, w, dead, threads, recvg);
  }

  lemma {:induction false} SplitIsSound(k: Kernel, ipdom: seq<int>, w: Warp, dead: nat, threads: seq<Thread>, recvg: Pc)
    requires WellFormed(k) && IsIpdomTable(k, ipdom) && Sound(k, w, dead) && dead < |w.stack|
    requires CanStep(k, w) && Moved(k, w, threads) && recvg != Last(w.stack).rp
    requires recvg == NoPc || recvg == BranchRecvg(k, ipdom, Last(w.stack).pc.block)
    requires Free(k, recvg) ==> forall i :: 0 <= i < |w.threads| && !w.threads[i].done ==> i in Last(w.stack).mask
    requires forall i :: i in Last(w.stack).mask ==> !threads[i].done
    requires |Groups(Last(w.stack).mask - Finished(threads), NextPcs(threads))| > 1
    ensures var top := Last(w.stack);
            var gs := Groups(top.mask - Finished(threads), NextPcs(threads));
            var st := ButLast(w.stack) + [top.(pc := recvg)] + Fresh(Without(Without(gs, top.rp), recvg), recvg);
            Sound(k, Warp(st, threads), DeadAfter(k, w.stack, dead, recvg))
  {
    var top := Last(w.stack);
    var next, live := NextPcs(threads), top.mask - Finished(threads);
    assert InWarp(live, next) && live == top.mask;
    hide Sound, CanStep, Moved, WellFormed, Groups;
    GroupsGroup(live, next);
    KeptAboveGroups(Groups(live, next), live, next, top.rp, recvg);
    PushReconvergence(k, w, dead, threads, Without(Without(Groups(live, next), top.rp), recvg), ipdom, recvg);
  }

  lemma {:induction false} SplitOutcome(k: Kernel, ipdom: seq<int>, guards: Guards, w: Warp)
    requires WellFormed(k) && IsIpdomTable(k, ipdom)
    requires CanStep(k, w) && Last(w.stack).kind.Normal? && Splits(k, ipdom, guards, w)
    ensures var top, threads, recvg := Last(w.stack), Executed(k, guards, w), Recvg(k, ipdom, guards, w);
            var gs := Groups(top.mask - Finished(threads), NextPcs(threads));
            && |gs| > 1 && (forall m :: m in top.mask ==> !threads[m].done)
            && Step(k, ipdom, guards, w).threads == threads
            && Step(k, ipdom, guards, w).stack ==
               ButLast(w.stack) + [top.(pc := recvg)] + Fresh(Without(Without(gs, top.rp), recvg), recvg)
  {
    var top, threads := Last(w.stack), Executed(k, guards, w);
    UpdateShape(w.stack, Finished(threads), NextPcs(threads), Recvg(k, ipdom, guards, w), OpAt(k, top.pc));
    TwoGroupsPart(k, guards, w);
  }

  lemma {:induction false} PlainStep(k: Kernel, ipdom: seq<int>, guards: Guards, w: Warp, dead: nat)
    requires WellFormed(k) && IsIpdomTable(k, ipdom) && Sound(k, w, dead) && dead < |w.stack|
    requires CanStep(k, w) && Last(w.stack).kind.Normal? && !Splits(k, ipdom, guards, w)
    ensures Sound(k, Step(k, ipdom, guards, w), dead)
  {
    var top, threads := Last(w.stack), Executed(k, guards, w);
    var next, live := NextPcs(threads), top.mask - Finished(threads);
    ExecutedMoves(k, guards, w);
    UpdateShape(w.stack, Finished(threads), next, Recvg(k, ipdom, guards, w), OpAt(k, top.pc));
    KeptGroups(live, next, top.rp);
    ReplaceTop(k, w, dead, threads, Without(Groups(live, next), top.rp));
  }

  /** Main invariant: a step from a sound state is possible, passes the
      synchronisation check on every active lane, and leads to a sound state as
      long as it leaves no one behind. */
  lemma {:induction false} StepKeepsSound(k: Kernel, ipdom: seq<int>, guards: Guards, w: Warp, dead: nat)
    returns (dead': nat)
    requires WellFormed(k) && IsIpdomTable(k, ipdom) && Sound(k, w, dead) && SomeLive(w.threads)
    requires CanStep(k, w) ==> LeavesNoOne(k, ipdom, guards, w)
    ensures CanStep(k, w) && Last(w.stack).kind.Normal?
    ensures Sound(k, Step(k, ipdom, guards, w), dead')
  {
    ActiveLanesInSync(k, w, dead);
    if Splits(k, ipdom, guards, w) {
      SplitStep(k, ipdom, guards, w, dead);
      dead' := DeadAfter(k, w.stack, dead, Recvg(k, ipdom, guards, w));
    } else {
      PlainStep(k, ipdom, guards, w, dead);
      dead' := dead;
    }
  }

  lemma {:induction false} LaunchIsSound(k: Kernel, w: Warp)
    requires WellFormed(k) && IsLaunched(w)
    ensures Sound(k, w, 0)
  {
    var st := w.stack;
    assert ButLast(st) == [];
    assert WellFormedBlock(k, 0);
    ExitPostdominates(k, 0);
    var i :| 0 <= i < |w.threads| && !w.threads[i].done;
    assert i in st[0].mask;
    assert SitsOn(k, [], st[0], 0) && Linked(k, [], 0);
    assert Linked(k, st, 0);
    assert Real(k, st[0]) && EntriesOk(k, st, 0);
    assert MasksOk(st, |w.threads|);
    forall i | 0 <= i < |w.threads| ensures LaneOk(w, 0, i) {
      OwnerOfAppend([], st[0], i);
      assert [] + [st[0]] == st;
    }
  }
}
