/** What one update of the reconvergence stack amounts to when no call is
    involved: groups that reach the old or the new reconvergence point vanish
    into the entry waiting there, the others are stacked on top. */
module SimtShape {
  import opened SimtStacks

  lemma {:induction false} WithoutMembers(gs: seq<Group>, pc: Pc)
    ensures forall g :: g in Without(gs, pc) <==> g in gs && g.pc != pc
    ensures |Without(gs, pc)| <= |gs|
  {
    if gs != [] {
      WithoutMembers(ButLast(gs), pc);
      assert gs == ButLast(gs) + [Last(gs)];
    }
  }

  lemma {:induction false} KeepsAll(gs: seq<Group>, pc: Pc)
    requires forall g :: g in gs ==> g.pc != pc
    ensures Without(gs, pc) == gs
  {
    if gs != [] {
      var rest := ButLast(gs);
      assert gs == rest + [Last(gs)] && Last(gs) in gs && forall g :: g in rest ==> g in gs;
      KeepsAll(rest, pc);
    }
  }

  lemma {:induction false} WithoutDistinct(gs: seq<Group>, pc: Pc)
    requires DistinctPcs(gs)
    ensures DistinctPcs(Without(gs, pc))
  {
    if gs != [] {
      WithoutDistinct(ButLast(gs), pc);
      WithoutMembers(ButLast(gs), pc);
    }
  }

  lemma {:induction false} WithoutTwice(gs: seq<Group>, pc: Pc)
    ensures Without(Without(gs, pc), pc) == Without(gs, pc)
  {
    if gs != [] {
      WithoutTwice(ButLast(gs), pc);
      var r := Without(ButLast(gs), pc);
      if Last(gs).pc == pc {
        assert r + [] == r;
      } else {
        WithoutAppend(r, Last(gs), pc);
      }
    }
  }

  /** If the first group that stays is also the last of all, it is the only one. */
  lemma {:induction false} OnlyLastStays(gs: seq<Group>, pc: Pc)
    requires gs != [] && DistinctPcs(gs)
    requires Without(gs, pc) != [] && Without(gs, pc)[0] == Last(gs)
    ensures Without(gs, pc) == [Last(gs)]
  {
    WithoutMembers(ButLast(gs), pc);
  }

  lemma {:induction false} FreshPrepend(gs: seq<Group>, rp: Pc)
    requires gs != []
    ensures Fresh(gs, rp) == [Entry(gs[0].pc, gs[0].mask, rp, Normal)] + Fresh(gs[1..], rp)
  {
    if |gs| == 1 {
      FreshAppend([], gs[0], rp);
      assert [] + gs == gs;
    } else {
      FreshPrepend(ButLast(gs), rp);
      assert ButLast(gs)[1..] == ButLast(gs[1..]);
    }
  }

  lemma {:induction false} FreshAt(gs: seq<Group>, rp: Pc)
    ensures |Fresh(gs, rp)| == |gs|
    ensures forall k :: 0 <= k < |gs| ==> Fresh(gs, rp)[k] == Entry(gs[k].pc, gs[k].mask, rp, Normal)
  {
    if gs != [] {
      FreshAt(ButLast(gs), rp);
    }
  }

  lemma {:induction false} SplitInPlace(top: Entry, kept: seq<Group>)
    requires top.kind.Normal?
    ensures Split(top, kept, top.rp) == Fresh(kept, top.rp)
  {
    if kept != [] {
      FreshPrepend(kept, top.rp);
    }
  }

  /** The closed form of an update of a normal entry by an ordinary instruction. */
  lemma {:induction false} UpdatedNormally(st: seq<Entry>, done: set<nat>, next: seq<Pc>, recvg: Pc, op: Op)
    requires st != [] && InWarp(Last(st).mask, next) && Last(st).kind.Normal? && op != CallOp
    ensures var top, base := Last(st), ButLast(st);
            var gs := Groups(top.mask - done, next);
            var kept := Without(gs, top.rp);
            Updated(st, done, next, recvg, op) ==
            if kept == [] then base
            else if kept[0] == Last(gs) then base + [top.(pc := kept[0].pc, mask := kept[0].mask)]
            else base + Split(top, Without(kept, recvg), recvg)
  {
  }

  /** Either the kept groups take the place of the top entry, waiting for the
      same reconvergence point; or the top becomes the entry that waits at a new
      reconvergence point for the kept groups, of which it had at least two. */
  lemma {:induction false} UpdateShape(st: seq<Entry>, done: set<nat>, next: seq<Pc>, recvg: Pc, op: Op)
    requires st != [] && InWarp(Last(st).mask, next) && Last(st).kind.Normal? && op != CallOp
    ensures var top, base := Last(st), ButLast(st);
            var gs := Groups(top.mask - done, next);
            var kept := Without(gs, top.rp);
            if kept == [] || kept[0] == Last(gs) || recvg == top.rp then
              && Updated(st, done, next, recvg, op) == base + Fresh(kept, top.rp)
              && (recvg != top.rp ==> |kept| <= 1)
            else
              && Updated(st, done, next, recvg, op) == base + [top.(pc := recvg)] + Fresh(Without(kept, recvg), recvg)
              && |gs| > 1
  {
    var top, base := Last(st), ButLast(st);
    var gs := Groups(top.mask - done, next);
    var kept := Without(gs, top.rp);
    UpdatedNormally(st, done, next, recvg, op);
    if kept == [] {
      assert base + [] == base;
    } else if kept[0] == Last(gs) {
      OnlyShape(base, top, gs, kept, done, next);
    } else if recvg == top.rp {
      WithoutTwice(gs, top.rp);
      SplitInPlace(top, kept);
    } else {
      SplitShape(base, top, gs, kept, recvg);
    }
  }

  lemma {:induction false} OnlyShape(base: seq<Entry>, top: Entry, gs: seq<Group>, kept: seq<Group>,
                                     done: set<nat>, next: seq<Pc>)
    requires InWarp(top.mask, next) && gs == Groups(top.mask - done, next) && kept == Without(gs, top.rp)
    requires gs != [] && kept != [] && kept[0] == Last(gs) && top.kind.Normal?
    ensures |kept| == 1 && base + [top.(pc := kept[0].pc, mask := kept[0].mask)] == base + Fresh(kept, top.rp)
  {
    GroupsHaveDistinctPcs(top.mask - done, next);
    OnlyLastStays(gs, top.rp);
    FreshPrepend(kept, top.rp);
    assert kept[1..] == [];
  }

  lemma {:induction false} SplitShape(base: seq<Entry>, top: Entry, gs: seq<Group>, kept: seq<Group>, recvg: Pc)
    requires kept == Without(gs, top.rp) && kept != [] && gs != [] && kept[0] != Last(gs) && recvg != top.rp
    ensures base + Split(top, Without(kept, recvg), recvg)
         == base + [top.(pc := recvg)] + Fresh(Without(kept, recvg), recvg)
    ensures |gs| > 1
  {
    var later := Fresh(Without(kept, recvg), recvg);
    assert base + ([top.(pc := recvg)] + later) == base + [top.(pc := recvg)] + later;
    WithoutMembers(gs, top.rp);
    assert kept[0] in gs;
  }
}
