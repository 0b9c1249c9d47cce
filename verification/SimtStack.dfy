/** The SIMT reconvergence stack of one warp.

    Masks are sets of lane numbers below the warp size.  A program counter is a
    block and an offset inside it; `NoPc` and `ReturnMarker` are the reserved
    addresses -1 and -2, and `Elsewhere` is an address outside the kernel. */
module SimtStacks {

  datatype Pc = NoPc | ReturnMarker | Code(block: nat, offset: nat) | Elsewhere

  datatype EntryKind = Normal | Call

  datatype Entry = Entry(pc: Pc, mask: set<nat>, rp: Pc, kind: EntryKind)

  const BLANK := Entry(NoPc, {}, NoPc, Normal)

  datatype Op = CallOp | ReturnOp | BranchOp | BarrierOp | MemoryBarrierOp | OtherOp

  /** The lanes of one scan: they share the next program counter. */
  datatype Group = Group(pc: Pc, mask: set<nat>)

  function Last<T>(s: seq<T>): T
    requires s != []
  {
    s[|s| - 1]
  }

  function ButLast<T>(s: seq<T>): seq<T>
    requires s != []
  {
    s[..|s| - 1]
  }

  // ----- specification of the splitting loop

  ghost predicate InWarp(lanes: set<nat>, next: seq<Pc>) {
    forall i :: i in lanes ==> i < |next|
  }

  ghost predicate IsHighest(s: set<nat>, m: nat) {
    m in s && forall x :: x in s ==> x <= m
  }

  lemma {:induction false} HighestExists(s: set<nat>)
    requires s != {}
    ensures exists m: nat :: IsHighest(s, m)
    decreases |s|
  {
    var x :| x in s;
    var rest := s - {x};
    if rest == {} {
      assert s == {x};
      assert IsHighest(s, x);
    } else {
      HighestExists(rest);
      var m: nat :| IsHighest(rest, m);
      assert s == rest + {x};
      assert IsHighest(s, if m < x then x else m);
    }
  }

  ghost function Highest(s: set<nat>): (m: nat)
    requires s != {}
    ensures IsHighest(s, m)
  {
    HighestExists(s);
    var m: nat :| IsHighest(s, m);
    m
  }

  ghost function SamePc(lanes: set<nat>, next: seq<Pc>, pc: Pc): set<nat>
    requires InWarp(lanes, next)
  {
    set i | i in lanes && next[i] == pc
  }

  /** The groups in the order in which the highest remaining lane picks them. */
  ghost function Groups(lanes: set<nat>, next: seq<Pc>): (gs: seq<Group>)
    requires InWarp(lanes, next)
    ensures gs == [] <==> lanes == {}
    decreases |lanes|
  {
    if lanes == {} then []
    else
      var pc := next[Highest(lanes)];
      var mask := SamePc(lanes, next, pc);
      assert Highest(lanes) in mask;
      assert |lanes| == |mask| + |lanes - mask| by { assert lanes == mask + (lanes - mask); }
      [Group(pc, mask)] + Groups(lanes - mask, next)
  }

  function Without(gs: seq<Group>, pc: Pc): seq<Group> {
    if gs == [] then []
    else Without(ButLast(gs), pc) + (if Last(gs).pc == pc then [] else [Last(gs)])
  }

  function Fresh(gs: seq<Group>, rp: Pc): seq<Entry> {
    if gs == [] then []
    else Fresh(ButLast(gs), rp) + [Entry(Last(gs).pc, Last(gs).mask, rp, Normal)]
  }

  /** Groups that do not simply reach the reconvergence point of the top entry. */
  function Staying(top: Entry, gs: seq<Group>): seq<Group> {
    if top.kind.Call? then gs else Without(gs, top.rp)
  }

  /** The top entry after a return: it continues at `pc`, unless that is where it
      reconverges. */
  function Returned(base: seq<Entry>, pc: Pc): seq<Entry>
    requires base != []
  {
    var caller := Last(base);
    if pc == caller.rp && caller.kind.Normal? then ButLast(base)
    else ButLast(base) + [caller.(pc := pc)]
  }

  /** The entries that replace the top when its lanes really diverge. */
  function Split(top: Entry, kept: seq<Group>, recvg: Pc): seq<Entry> {
    if recvg != top.rp then
      [top.(pc := recvg)] + Fresh(kept, recvg)
    else if kept == [] then []
    else
      [top.(pc := kept[0].pc, mask := kept[0].mask)] + Fresh(kept[1..], recvg)
  }

  /** The stack after one executed instruction. */
  ghost function Updated(st: seq<Entry>, done: set<nat>, next: seq<Pc>, recvg: Pc, op: Op): seq<Entry>
    requires st != [] && InWarp(Last(st).mask, next)
    requires op == ReturnOp && Last(st).kind.Call? ==> |st| > 1
  {
    var top, base := Last(st), ButLast(st);
    var gs := Groups(top.mask - done, next);
    if gs == [] then base
    else if op == CallOp then st + [Entry(gs[0].pc, gs[0].mask, NoPc, Call)]
    else if op == ReturnOp && top.kind.Call? then Returned(base, gs[0].pc)
    else
      var staying := Staying(top, gs);
      if staying == [] then base
      else if staying[0] == Last(gs) then
        base + [top.(pc := staying[0].pc, mask := staying[0].mask)]
      else
        base + Split(top, Without(staying, recvg), recvg)
  }

  // ----- the groups partition the live lanes by next program counter

  /** Every group is a non-empty set of the given lanes with its own next
      program counter. */
  ghost predicate GroupsAgree(gs: seq<Group>, lanes: set<nat>, next: seq<Pc>)
    requires InWarp(lanes, next)
  {
    forall g :: g in gs ==> g.mask != {} && g.mask <= lanes && forall i :: i in g.mask ==> next[i] == g.pc
  }

  ghost predicate GroupsCover(gs: seq<Group>, lanes: set<nat>) {
    forall i :: i in lanes ==> exists g :: g in gs && i in g.mask
  }

  ghost predicate DistinctPcs(gs: seq<Group>) {
    forall j, k :: 0 <= j < k < |gs| ==> gs[j].pc != gs[k].pc
  }

  lemma {:induction false} FirstGroup(lanes: set<nat>, next: seq<Pc>) returns (g: Group)
    requires InWarp(lanes, next) && lanes != {}
    ensures g.mask != {} && g.mask <= lanes && |lanes - g.mask| < |lanes|
    ensures g.mask == SamePc(lanes, next, g.pc)
    ensures Groups(lanes, next) == [g] + Groups(lanes - g.mask, next)
  {
    g := Group(next[Highest(lanes)], SamePc(lanes, next, next[Highest(lanes)]));
    assert Highest(lanes) in g.mask;
    assert lanes == g.mask + (lanes - g.mask);
  }

  lemma {:induction false} GroupsAgreeWithPcs(lanes: set<nat>, next: seq<Pc>)
    requires InWarp(lanes, next)
    ensures GroupsAgree(Groups(lanes, next), lanes, next)
    decreases |lanes|
  {
    if lanes != {} {
      var g := FirstGroup(lanes, next);
      GroupsAgreeWithPcs(lanes - g.mask, next);
    }
  }

  lemma {:induction false} GroupsCoverLanes(lanes: set<nat>, next: seq<Pc>)
    requires InWarp(lanes, next)
    ensures GroupsCover(Groups(lanes, next), lanes)
    decreases |lanes|
  {
    if lanes != {} {
      var g := FirstGroup(lanes, next);
      GroupsCoverLanes(lanes - g.mask, next);
      var rest := Groups(lanes - g.mask, next);
      forall i | i in lanes ensures exists h :: h in [g] + rest && i in h.mask {
        if i in g.mask {
          assert g in [g] + rest;
        } else {
          assert i in lanes - g.mask;
          var h :| h in rest && i in h.mask;
          assert h in [g] + rest;
        }
      }
    }
  }

  lemma {:induction false} GroupsHaveDistinctPcs(lanes: set<nat>, next: seq<Pc>)
    requires InWarp(lanes, next)
    ensures DistinctPcs(Groups(lanes, next))
    decreases |lanes|
  {
    if lanes != {} {
      var g := FirstGroup(lanes, next);
      var rest := Groups(lanes - g.mask, next);
      GroupsHaveDistinctPcs(lanes - g.mask, next);
      GroupsAgreeWithPcs(lanes - g.mask, next);
      forall h | h in rest ensures h.pc != g.pc {
        var i :| i in h.mask;
      }
    }
  }

  // ----- filtering keeps order

  lemma {:induction false} WithoutAppend(gs: seq<Group>, g: Group, pc: Pc)
    ensures Without(gs + [g], pc) == Without(gs, pc) + (if g.pc == pc then [] else [g])
  {
    assert ButLast(gs + [g]) == gs;
  }

  /** Until a group stays, all groups seen were dropped. */
  lemma {:induction false} FirstStaying(top: Entry, gs: seq<Group>, k: nat)
    requires k < |gs| && Staying(top, gs[..k]) == []
    ensures top.kind.Call? ==> k == 0
    ensures (top.kind.Call? || gs[k].pc != top.rp) ==> Staying(top, gs) != [] && Staying(top, gs)[0] == gs[k]
    decreases |gs|
  {
    if |gs| == k + 1 {
      assert gs == gs[..k] + [gs[k]];
      WithoutAppend(gs[..k], gs[k], top.rp);
    } else {
      assert gs == ButLast(gs) + [Last(gs)];
      assert ButLast(gs)[..k] == gs[..k];
      WithoutAppend(ButLast(gs), Last(gs), top.rp);
      FirstStaying(top, ButLast(gs), k);
    }
  }

  /** What the loop of `Update` has built after `k` groups, with the slot that
      the next group will fill on top. */
  ghost predicate Progress(st: seq<Entry>, base: seq<Entry>, top: Entry, gs: seq<Group>, k: nat,
                           diverged: bool, recvg: Pc)
    requires k <= |gs|
  {
    var staying := Staying(top, gs[..k]);
    if staying == [] then
      !diverged && st == base + [top]
    else if !diverged then
      k == |gs| && staying[0] == Last(gs)
      && st == base + [top.(pc := staying[0].pc, mask := staying[0].mask)] + [BLANK]
    else
      var kept := Without(staying, recvg);
      && Staying(top, gs) != [] && Staying(top, gs)[0] == staying[0] != Last(gs)
      && st == if recvg == top.rp && kept == [] then base + [top]
               else base + Split(top, kept, recvg) + [BLANK]
  }

  /** What one group does to the stack while it is being rebuilt; `more` says
      whether lanes remain. */
  function Advance(st: seq<Entry>, top: Entry, g: Group, more: bool, diverged: bool, recvg: Pc)
    : (r: (seq<Entry>, bool))
    requires st != []
  {
    if g.pc == top.rp && !top.kind.Call? then (st, diverged)
    else
      var st' := if more && !diverged && recvg != top.rp then ButLast(st) + [Last(st).(pc := recvg)] + [BLANK] else st;
      var diverged' := more || diverged;
      if diverged' && g.pc == recvg then (st', diverged')
      else
        (ButLast(st') + [Last(st').(pc := g.pc, mask := g.mask, rp := if diverged' then recvg else top.rp)] + [BLANK],
         diverged')
  }

  lemma {:induction false} FreshAppend(gs: seq<Group>, g: Group, rp: Pc)
    ensures Fresh(gs + [g], rp) == Fresh(gs, rp) + [Entry(g.pc, g.mask, rp, Normal)]
  {
    assert ButLast(gs + [g]) == gs;
  }

  lemma {:induction false} TakeTop<T>(s: seq<T>, x: T)
    ensures ButLast(s + [x]) == s && Last(s + [x]) == x
  {
  }

  lemma {:induction false} SplitAppend(top: Entry, kept: seq<Group>, g: Group, recvg: Pc)
    requires recvg != top.rp || kept != []
    ensures Split(top, kept + [g], recvg) == Split(top, kept, recvg) + [Entry(g.pc, g.mask, recvg, Normal)]
  {
    if recvg != top.rp {
      FreshAppend(kept, g, recvg);
    } else {
      assert (kept + [g])[1..] == kept[1..] + [g];
      FreshAppend(kept[1..], g, recvg);
    }
  }

  lemma {:induction false} AdvanceDropped(st: seq<Entry>, base: seq<Entry>, top: Entry, gs: seq<Group>, k: nat,
                                          diverged: bool, recvg: Pc)
    requires k < |gs| && Progress(st, base, top, gs, k, diverged, recvg)
    requires gs[k].pc == top.rp && !top.kind.Call?
    requires Staying(top, gs[..k]) != [] ==> diverged
    ensures Progress(st, base, top, gs, k + 1, diverged, recvg)
  {
    assert gs[..k + 1] == gs[..k] + [gs[k]];
    WithoutAppend(gs[..k], gs[k], top.rp);
    assert Staying(top, gs[..k + 1]) == Staying(top, gs[..k]);
  }

  /** The first group that stays decides whether the warp diverges. */
  lemma {:induction false} AdvanceFirst(st: seq<Entry>, base: seq<Entry>, top: Entry, gs: seq<Group>, k: nat,
                                        diverged: bool, recvg: Pc)
    requires k < |gs| && DistinctPcs(gs) && Progress(st, base, top, gs, k, diverged, recvg)
    requires Staying(top, gs[..k]) == [] && (gs[k].pc != top.rp || top.kind.Call?)
    ensures var (st', diverged') := Advance(st, top, gs[k], k + 1 < |gs|, diverged, recvg);
            Progress(st', base, top, gs, k + 1, diverged', recvg)
  {
    var g := gs[k];
    assert gs[..k + 1] == gs[..k] + [g];
    WithoutAppend(gs[..k], g, top.rp);
    FirstStaying(top, gs, k);
    assert Staying(top, gs[..k + 1]) == [g];
    assert st == base + [top] && !diverged;
    assert k + 1 < |gs| ==> g != Last(gs);
    WithoutAppend([], g, recvg);
    assert Without([g], recvg) == if g.pc == recvg then [] else [g];
    hide Advance, Split, Without, Staying, DistinctPcs;
    FirstAdvance(base, top, g, k + 1 < |gs|, recvg);
  }

  /** The first group that stays takes the top slot if it is the only one, and else
      goes on top of the entry of the reconvergence point. */
  lemma {:induction false} FirstAdvance(base: seq<Entry>, top: Entry, g: Group, more: bool, recvg: Pc)
    requires g.pc != top.rp || top.kind.Call?
    ensures var kept := if g.pc == recvg then [] else [g];
            Advance(base + [top], top, g, more, false, recvg) ==
            if !more then (base + [top.(pc := g.pc, mask := g.mask)] + [BLANK], false)
            else if recvg == top.rp && kept == [] then (base + [top], true)
            else (base + Split(top, kept, recvg) + [BLANK], true)
  {
    TakeTop(base, top);
    if more && recvg != top.rp {
      FirstSplitsOff(base, top, g, recvg);
    } else if more && g.pc != recvg {
      NothingFresh(recvg);
      assert [g][1..] == [];
      assert Split(top, [g], recvg) == [top.(pc := g.pc, mask := g.mask)];
    }
  }

  lemma {:induction false} NothingFresh(rp: Pc)
    ensures Fresh([], rp) == []
  {
  }

  /** The first group pushes the entry of the reconvergence point. */
  lemma {:induction false} FirstSplitsOff(base: seq<Entry>, top: Entry, g: Group, recvg: Pc)
    requires recvg != top.rp && (g.pc != top.rp || top.kind.Call?)
    ensures Advance(base + [top], top, g, true, false, recvg).0 ==
            base + Split(top, if g.pc == recvg then [] else [g], recvg) + [BLANK]
  {
    var pending := top.(pc := recvg);
    TakeTop(base, top);
    TakeTop(base + [pending], BLANK);
    FreshAppend([], g, recvg);
    assert [] + [g] == [g];
    if g.pc != recvg {
      assert base + [pending] + [Entry(g.pc, g.mask, recvg, Normal)] == base + Split(top, [g], recvg);
    }
  }

  lemma {:induction false} StayingAppend(top: Entry, gs: seq<Group>, k: nat)
    requires k < |gs| && (gs[k].pc != top.rp || top.kind.Call?)
    ensures Staying(top, gs[..k + 1]) == Staying(top, gs[..k]) + [gs[k]]
  {
    assert gs[..k + 1] == gs[..k] + [gs[k]];
    WithoutAppend(gs[..k], gs[k], top.rp);
  }

  /** What placing one more kept group does to the rebuilt part. */
  lemma {:induction false} PlaceOnSplit(st: seq<Entry>, base: seq<Entry>, top: Entry, kept: seq<Group>, g: Group,
                                        recvg: Pc, more: bool)
    requires g.pc != recvg && (g.pc != top.rp || top.kind.Call?)
    requires st == if recvg == top.rp && kept == [] then base + [top] else base + Split(top, kept, recvg) + [BLANK]
    ensures Advance(st, top, g, more, true, recvg).0 == base + Split(top, kept + [g], recvg) + [BLANK]
  {
    if recvg == top.rp && kept == [] {
      TakeTop(base, top);
      assert kept + [g] == [g] && [g][1..] == [];
      assert Split(top, [g], recvg) == [top.(pc := g.pc, mask := g.mask)];
    } else {
      PlaceOnTop(base, top, Split(top, kept, recvg), g, recvg, more);
      SplitAppend(top, kept, g, recvg);
    }
  }

  lemma {:induction false} PlaceOnTop(base: seq<Entry>, top: Entry, built: seq<Entry>, g: Group, recvg: Pc, more: bool)
    requires g.pc != recvg && (g.pc != top.rp || top.kind.Call?)
    ensures Advance(base + built + [BLANK], top, g, more, true, recvg).0
         == base + (built + [Entry(g.pc, g.mask, recvg, Normal)]) + [BLANK]
  {
    TakeTop(base + built, BLANK);
    var e := Entry(g.pc, g.mask, recvg, Normal);
    assert base + built + [e] == base + (built + [e]);
  }

  /** Once diverged, a group that stays is put on top of the ones before it. */
  lemma {:induction false} AdvanceNext(st: seq<Entry>, base: seq<Entry>, top: Entry, gs: seq<Group>, k: nat,
                                       recvg: Pc)
    requires k < |gs| && Progress(st, base, top, gs, k, true, recvg)
    requires Staying(top, gs[..k]) != [] && (gs[k].pc != top.rp || top.kind.Call?)
    requires gs[k].pc != recvg
    ensures Progress(Advance(st, top, gs[k], k + 1 < |gs|, true, recvg).0, base, top, gs, k + 1, true, recvg)
  {
    hide Without, Split, Staying;
    var staying := Staying(top, gs[..k]);
    StayingAppend(top, gs, k);
    WithoutAppend(staying, gs[k], recvg);
    PlaceOnSplit(st, base, top, Without(staying, recvg), gs[k], recvg, k + 1 < |gs|);
  }

  lemma {:induction false} AdvanceNextDropped(st: seq<Entry>, base: seq<Entry>, top: Entry, gs: seq<Group>, k: nat,
                                              recvg: Pc)
    requires k < |gs| && Progress(st, base, top, gs, k, true, recvg)
    requires Staying(top, gs[..k]) != [] && (gs[k].pc != top.rp || top.kind.Call?)
    requires gs[k].pc == recvg
    ensures Progress(st, base, top, gs, k + 1, true, recvg)
  {
    var staying := Staying(top, gs[..k]);
    StayingAppend(top, gs, k);
    WithoutAppend(staying, gs[k], recvg);
    assert Without(staying, recvg) + [] == Without(staying, recvg);
  }

  lemma {:induction false} AdvanceKeepsProgress(st: seq<Entry>, base: seq<Entry>, top: Entry, gs: seq<Group>, k: nat,
                                                diverged: bool, recvg: Pc)
    requires k < |gs| && DistinctPcs(gs) && Progress(st, base, top, gs, k, diverged, recvg)
    ensures var (st', diverged') := Advance(st, top, gs[k], k + 1 < |gs|, diverged, recvg);
            Progress(st', base, top, gs, k + 1, diverged', recvg)
  {
    if gs[k].pc == top.rp && !top.kind.Call? {
      AdvanceDropped(st, base, top, gs, k, diverged, recvg);
    } else if Staying(top, gs[..k]) == [] {
      AdvanceFirst(st, base, top, gs, k, diverged, recvg);
    } else if gs[k].pc == recvg {
      AdvanceNextDropped(st, base, top, gs, k, recvg);
    } else {
      AdvanceNext(st, base, top, gs, k, recvg);
    }
  }

  lemma {:induction false} UpdatedAtCall(st: seq<Entry>, done: set<nat>, next: seq<Pc>, recvg: Pc, op: Op)
    requires st != [] && InWarp(Last(st).mask, next)
    requires op == ReturnOp && Last(st).kind.Call? ==> |st| > 1
    requires op == CallOp || (op == ReturnOp && Last(st).kind.Call?)
    requires Groups(Last(st).mask - done, next) != []
    ensures var g := Groups(Last(st).mask - done, next)[0];
            Updated(st, done, next, recvg, op) ==
            if op == CallOp then st + [Entry(g.pc, g.mask, NoPc, Call)] else Returned(ButLast(st), g.pc)
  {
  }

  lemma {:induction false} NextGroup(gs: seq<Group>, k: nat, live: set<nat>, next: seq<Pc>, pc: Pc, mask: set<nat>)
    requires k <= |gs| && InWarp(live, next) && gs[k..] == Groups(live, next)
    requires live != {} && pc == next[Highest(live)] && mask == SamePc(live, next, pc)
    ensures k < |gs| && gs[k] == Group(pc, mask) && mask != {}
    ensures gs[k + 1..] == Groups(live - mask, next)
    ensures k + 1 < |gs| <==> live - mask != {}
  {
    var g := FirstGroup(live, next);
    assert Groups(live, next)[0] == Group(pc, mask);
    assert gs[k] == gs[k..][0] && gs[k + 1..] == gs[k..][1..];
  }

  lemma {:induction false} StartProgress(st: seq<Entry>, gs: seq<Group>, recvg: Pc)
    requires st != []
    ensures Progress(st, ButLast(st), Last(st), gs, 0, false, recvg)
  {
    assert gs[..0] == [];
  }

  lemma {:induction false} FinishProgress(st: seq<Entry>, st': seq<Entry>, done: set<nat>, next: seq<Pc>, recvg: Pc,
                                          op: Op, diverged: bool)
    requires st != [] && InWarp(Last(st).mask, next)
    requires op == ReturnOp && Last(st).kind.Call? ==> |st| > 1
    requires var gs := Groups(Last(st).mask - done, next);
             && Progress(st', ButLast(st), Last(st), gs, |gs|, diverged, recvg)
             && (|gs| > 0 ==> op != CallOp && !(op == ReturnOp && Last(st).kind.Call?))
    ensures st' != [] && ButLast(st') == Updated(st, done, next, recvg, op)
  {
    var gs := Groups(Last(st).mask - done, next);
    var top, base := Last(st), ButLast(st);
    assert gs[..|gs|] == gs;
    var staying := Staying(top, gs);
    if staying == [] {
      TakeTop(base, top);
    } else if !diverged {
      TakeTop(base + [top.(pc := staying[0].pc, mask := staying[0].mask)], BLANK);
    } else {
      var kept := Without(staying, recvg);
      if recvg == top.rp && kept == [] {
        TakeTop(base, top);
        assert base + [] == base;
      } else {
        TakeTop(base + Split(top, kept, recvg), BLANK);
      }
    }
  }

  class SimtStack {
    const warpSize: nat
    var stack: seq<Entry>

    constructor (warpSize: nat)
      ensures this.warpSize == warpSize && stack == []
    {
      this.warpSize := warpSize;
      stack := [];
    }

    method Launch(startPc: Pc, activeMask: set<nat>)
      modifies this
      ensures stack == [Entry(startPc, activeMask, NoPc, Normal)]
    {
      stack := [];
      stack := stack + [BLANK.(pc := startPc, mask := activeMask)];
    }

    function ActiveMask(): set<nat>
      requires stack != []
      reads this
    {
      Last(stack).mask
    }

    function TopPc(): Pc
      requires stack != []
      reads this
    {
      Last(stack).pc
    }

    /** One scan from the highest lane down: forgets the finished lanes and takes
        out every lane that continues where the first live one does. */
    method ExtractGroup(active: set<nat>, done: set<nat>, next: seq<Pc>)
      returns (pc: Pc, mask: set<nat>, rest: set<nat>)
      requires |next| == warpSize && InWarp(active, next)
      requires forall i :: i in active - done ==> next[i] != NoPc
      ensures active - done == {} ==> pc == NoPc && mask == {} && rest == {}
      ensures active - done != {} ==>
                pc == next[Highest(active - done)] && mask == SamePc(active - done, next, pc)
                && rest == active - done - mask
    {
      pc, mask, rest := NoPc, {}, active;
      var i := warpSize;
      while i > 0
        invariant 0 <= i <= warpSize && rest <= active && mask <= active - done
        invariant pc == NoPc <==> forall x :: x in active && x >= i ==> x in done
        invariant pc == NoPc ==> mask == {}
        invariant pc != NoPc ==> active - done != {} && Highest(active - done) >= i
                                 && pc == next[Highest(active - done)]
        invariant forall x :: x in mask <==> x in active && x >= i && x !in done && next[x] == pc
        invariant forall x :: x in rest <==> x in active && (x < i || (x !in done && next[x] != pc))
      {
        i := i - 1;
        if i in rest {
          if i in done {
            rest := rest - {i};
          } else if pc == NoPc {
            pc := next[i];
            mask := mask + {i};
            rest := rest - {i};
            assert i in active - done;
            assert Highest(active - done) == i;
          } else if pc == next[i] {
            mask := mask + {i};
            rest := rest - {i};
          }
        }
      }
    }

    /** Puts one group on the stack, after turning the old top into the
        reconvergence entry when the warp starts to diverge here. */
    method Place(top: Entry, pc: Pc, mask: set<nat>, more: bool, wasDiverged: bool, recvgPc: Pc)
      returns (diverged: bool)
      requires stack != []
      modifies this
      ensures (stack, diverged) == Advance(old(stack), top, Group(pc, mask), more, wasDiverged, recvgPc)
    {
      diverged := wasDiverged;
      if pc == top.rp && top.kind != Call {
        return;
      }
      if more && !diverged {
        diverged := true;
        if recvgPc != top.rp {
          stack := ButLast(stack) + [Last(stack).(pc := recvgPc)];
          stack := stack + [BLANK];
        }
      }
      if diverged && pc == recvgPc {
        return;
      }
      stack := ButLast(stack) + [Last(stack).(pc := pc, mask := mask, rp := if diverged then recvgPc else top.rp)];
      stack := stack + [BLANK];
    }

    /** Places the `k`-th group. */
    method PlaceNext(top: Entry, pc: Pc, mask: set<nat>, more: bool, wasDiverged: bool, recvgPc: Pc,
                     ghost base: seq<Entry>, ghost gs: seq<Group>, ghost k: nat)
      returns (diverged: bool)
      requires stack != [] && k < |gs| && gs[k] == Group(pc, mask) && (more <==> k + 1 < |gs|) && DistinctPcs(gs)
      requires Progress(stack, base, top, gs, k, wasDiverged, recvgPc)
      modifies this
      ensures stack != [] && Progress(stack, base, top, gs, k + 1, diverged, recvgPc)
    {
      AdvanceKeepsProgress(stack, base, top, gs, k, wasDiverged, recvgPc);
      hide Progress, DistinctPcs;
      diverged := Place(top, pc, mask, more, wasDiverged, recvgPc);
    }

    /** Pushes an entry for the callee, or pops one and continues in the caller,
        which may itself reconverge there. */
    method CallOrReturn(pc: Pc, mask: set<nat>, op: Op)
      requires stack != [] && (op == CallOp || |stack| > 1)
      modifies this
      ensures stack == if op == CallOp then old(stack) + [Entry(pc, mask, NoPc, Call)]
                       else Returned(ButLast(old(stack)), pc)
    {
      if op == CallOp {
        stack := stack + [BLANK.(pc := pc, mask := mask, kind := Call)];
      } else {
        stack := ButLast(stack);
        stack := ButLast(stack) + [Last(stack).(pc := pc)];
        if pc == Last(stack).rp && Last(stack).kind != Call {
          stack := ButLast(stack);
        }
      }
    }

    /** Splits the lanes of the top entry by next program counter. */
    method Update(threadDone: set<nat>, nextPc: seq<Pc>, recvgPc: Pc, op: Op)
      requires stack != [] && Last(stack).mask != {}
      requires |nextPc| == warpSize && InWarp(Last(stack).mask, nextPc)
      requires forall i :: i in Last(stack).mask - threadDone ==> nextPc[i] != NoPc
      requires op == CallOp || (op == ReturnOp && Last(stack).kind.Call?) ==>
                 |Groups(Last(stack).mask - threadDone, nextPc)| <= 1
      requires op == ReturnOp && Last(stack).kind.Call? ==> |stack| > 1
      modifies this
      ensures stack == Updated(old(stack), threadDone, nextPc, recvgPc, op)
    {
      var top := Last(stack);
      var active := top.mask;
      var diverged := false;
      ghost var base := ButLast(stack);
      ghost var gs := Groups(active - threadDone, nextPc);
      ghost var k := 0;
      GroupsHaveDistinctPcs(active - threadDone, nextPc);
      StartProgress(stack, gs, recvgPc);
      assert gs[0..] == gs;
      hide Updated, Progress, Groups, Advance, DistinctPcs, SamePc;
      while active != {}
        invariant active <= top.mask && 0 <= k <= |gs|
        invariant gs[k..] == Groups(active - threadDone, nextPc)
        invariant k > 0 ==> op != CallOp && !(op == ReturnOp && top.kind.Call?)
        invariant k > 0 ==> active - threadDone == active
        invariant k == 0 ==> stack == old(stack)
        invariant Progress(stack, base, top, gs, k, diverged, recvgPc)
        invariant stack != []
        decreases active
      {
        ghost var live := active - threadDone;
        var pc, mask;
        pc, mask, active := ExtractGroup(active, threadDone, nextPc);
        if pc == NoPc {
          continue;
        }
        NextGroup(gs, k, live, nextPc, pc, mask);
        assert active - threadDone == active;
        if op == CallOp || (op == ReturnOp && top.kind == Call) {
          UpdatedAtCall(stack, threadDone, nextPc, recvgPc, op);
          CallOrReturn(pc, mask, op);
          return;
        }
        diverged := PlaceNext(top, pc, mask, active != {}, diverged, recvgPc, base, gs, k);
        k := k + 1;
      }
      FinishProgress(old(stack), stack, threadDone, nextPc, recvgPc, op, diverged);
      stack := ButLast(stack);
    }
  }
}
