/** Calls and returns on the reconvergence stack, and the order in which groups of
    lanes are taken. */
module SimtCalls {
  import opened SimtStacks
  import opened SimtShape

  lemma {:induction false} UniformGroups(lanes: set<nat>, next: seq<Pc>, pc: Pc)
    requires InWarp(lanes, next) && lanes != {} && forall i :: i in lanes ==> next[i] == pc
    ensures Groups(lanes, next) == [Group(pc, lanes)]
  {
    var g := FirstGroup(lanes, next);
    var i :| i in g.mask;
    assert SamePc(lanes, next, g.pc) == lanes && lanes - lanes == {};
  }

  /** The lanes of the top entry that are not done go to `pc`. */
  ghost predicate AllGoTo(st: seq<Entry>, done: set<nat>, next: seq<Pc>, pc: Pc) {
    && st != [] && InWarp(Last(st).mask, next) && Last(st).mask - done != {}
    && forall i :: i in Last(st).mask - done ==> next[i] == pc
  }

  /** A call puts a frame with all live lanes on top, and leaves the caller alone. */
  lemma {:induction false} CallPushes(st: seq<Entry>, done: set<nat>, next: seq<Pc>, recvg: Pc, pc: Pc)
    requires AllGoTo(st, done, next, pc)
    ensures Updated(st, done, next, recvg, CallOp) == st + [Entry(pc, Last(st).mask - done, NoPc, Call)]
  {
    UniformGroups(Last(st).mask - done, next, pc);
  }

  /** A return takes the frame off: the caller goes on at `pc` with its lanes and its
      reconvergence point, unless it has just reached that point. */
  lemma {:induction false} ReturnPops(st: seq<Entry>, done: set<nat>, next: seq<Pc>, recvg: Pc, pc: Pc)
    requires |st| > 1 && AllGoTo(st, done, next, pc) && Last(st).kind.Call?
    ensures var caller := st[|st| - 2];
            Updated(st, done, next, recvg, ReturnOp) ==
            if caller.kind.Normal? && caller.rp == pc then st[..|st| - 2] else st[..|st| - 2] + [caller.(pc := pc)]
  {
    UniformGroups(Last(st).mask - done, next, pc);
    assert ButLast(ButLast(st)) == st[..|st| - 2] && Last(ButLast(st)) == st[|st| - 2];
  }

  // ----- a whole call

  /** Some instruction makes the second stack out of the first. */
  ghost predicate Follows(st: seq<Entry>, st': seq<Entry>) {
    exists done, next, recvg, op ::
      && st != [] && InWarp(Last(st).mask, next) && (op == ReturnOp && Last(st).kind.Call? ==> |st| > 1)
      && st' == Updated(st, done, next, recvg, op)
  }

  /** While the stack stays higher than `h`, its lowest `h` entries do not change. */
  lemma {:induction false} LowerEntriesStay(st: seq<Entry>, st': seq<Entry>, h: nat)
    requires Follows(st, st') && h < |st| && h < |st'|
    ensures st'[..h] == st[..h]
  {
    var done, next, recvg, op :|
      && st != [] && InWarp(Last(st).mask, next) && (op == ReturnOp && Last(st).kind.Call? ==> |st| > 1)
      && st' == Updated(st, done, next, recvg, op);
    var base := ButLast(st);
    assert base[..h] == st[..h];
    if op == ReturnOp && Last(st).kind.Call? && Groups(Last(st).mask - done, next) != [] {
      assert st'[..h] == base[..h];
    }
  }

  lemma {:induction false} CallerStays(sts: seq<seq<Entry>>, h: nat, n: nat)
    requires n < |sts| && forall j :: 0 <= j < n ==> Follows(sts[j], sts[j + 1])
    requires forall j :: 0 <= j <= n ==> h < |sts[j]|
    ensures sts[n][..h] == sts[0][..h]
  {
    if n > 0 {
      CallerStays(sts, h, n - 1);
      assert Follows(sts[n - 1], sts[n - 1 + 1]);
      LowerEntriesStay(sts[n - 1], sts[n], h);
    }
  }

  /** Whatever the callee does, calls and divergence included: when the return that
      belongs to a call is over, the stack is as it was before the call, with the
      caller at the return address, or below it if that is where it reconverges. */
  lemma {:induction false} CallAndReturn(st: seq<Entry>, sts: seq<seq<Entry>>, done: set<nat>, next: seq<Pc>,
                                         callee: Pc, done': set<nat>, next': seq<Pc>, pc: Pc, recvg: Pc, recvg': Pc)
    requires AllGoTo(st, done, next, callee) && sts != [] && sts[0] == Updated(st, done, next, recvg, CallOp)
    requires forall j :: 0 <= j < |sts| - 1 ==> Follows(sts[j], sts[j + 1])
    requires forall j :: 0 <= j < |sts| ==> |st| < |sts[j]|
    requires |Last(sts)| == |st| + 1 && AllGoTo(Last(sts), done', next', pc) && Last(Last(sts)).kind.Call?
    ensures Updated(Last(sts), done', next', recvg', ReturnOp) ==
            if Last(st).kind.Normal? && Last(st).rp == pc then ButLast(st) else ButLast(st) + [Last(st).(pc := pc)]
  {
    CallPushes(st, done, next, recvg, callee);
    CallerStays(sts, |st|, |sts| - 1);
    assert sts[0][..|st|] == st;
    var after := Last(sts);
    assert after == st + [Last(after)];
    ReturnPops(after, done', next', recvg', pc);
  }

  /** Lanes that part ways in a callee leave its frame below them, waiting for the
      reconvergence point, or, without one, for the first of them to return. */
  lemma {:induction false} FrameStays(st: seq<Entry>, done: set<nat>, next: seq<Pc>, recvg: Pc, op: Op)
    requires st != [] && InWarp(Last(st).mask, next) && Last(st).kind.Call? && Last(st).rp == NoPc
    requires op != CallOp && op != ReturnOp && Last(st).mask - done != {}
    requires forall i :: i in Last(st).mask - done ==> next[i] != NoPc
    ensures var top, gs, base := Last(st), Groups(Last(st).mask - done, next), ButLast(st);
            && gs != []
            && Updated(st, done, next, recvg, op) ==
               if |gs| > 1 && recvg != NoPc then base + [top.(pc := recvg)] + Fresh(Without(gs, recvg), recvg)
               else base + [top.(pc := gs[0].pc, mask := gs[0].mask)] + Fresh(gs[1..], NoPc)
  {
    var top, gs := Last(st), Groups(Last(st).mask - done, next);
    GroupsHaveDistinctPcs(top.mask - done, next);
    GroupsAgreeWithPcs(top.mask - done, next);
    forall g | g in gs ensures g.pc != NoPc {
      var i :| i in g.mask;
    }
    hide Groups, Without, Fresh, Split;
    FrameShape(ButLast(st), top, gs, recvg);
  }

  lemma {:induction false} FrameShape(base: seq<Entry>, top: Entry, gs: seq<Group>, recvg: Pc)
    requires gs != [] && DistinctPcs(gs) && top.rp == NoPc && forall g :: g in gs ==> g.pc != NoPc
    ensures (if gs[0] == Last(gs) then base + [top.(pc := gs[0].pc, mask := gs[0].mask)]
             else base + Split(top, Without(gs, recvg), recvg))
         == (if |gs| > 1 && recvg != NoPc then base + [top.(pc := recvg)] + Fresh(Without(gs, recvg), recvg)
             else base + [top.(pc := gs[0].pc, mask := gs[0].mask)] + Fresh(gs[1..], NoPc))
  {
    var first := top.(pc := gs[0].pc, mask := gs[0].mask);
    if |gs| == 1 {
      assert gs[1..] == [];
      NoneFresh();
      assert base + [first] + [] == base + [first];
    } else {
      assert gs[0] != Last(gs);
      KeepsAll(gs, NoPc);
      hide Without, Fresh;
      if recvg == NoPc {
        assert base + ([first] + Fresh(gs[1..], NoPc)) == base + [first] + Fresh(gs[1..], NoPc);
      } else {
        var others := Fresh(Without(gs, recvg), recvg);
        assert base + ([top.(pc := recvg)] + others) == base + [top.(pc := recvg)] + others;
      }
    }
  }

  lemma {:induction false} NoneFresh()
    ensures Fresh([], NoPc) == []
  {
  }

  // ----- the order of the groups

  /** Groups are taken from the highest remaining lane down, so that every group has
      a lane above all lanes of the groups behind it. */
  lemma {:induction false} GroupsDescend(lanes: set<nat>, next: seq<Pc>, j: nat, k: nat) returns (m: nat)
    requires InWarp(lanes, next) && j < k < |Groups(lanes, next)|
    ensures var gs := Groups(lanes, next); m in gs[j].mask && forall x :: x in gs[k].mask ==> x < m
    decreases |lanes|
  {
    var gs := Groups(lanes, next);
    var pc := next[Highest(lanes)];
    var g := Group(pc, SamePc(lanes, next, pc));
    var rest := Groups(lanes - g.mask, next);
    assert Highest(lanes) in g.mask && lanes == g.mask + (lanes - g.mask);
    assert gs == [g] + rest && gs[k] == rest[k - 1] && gs[k] in rest;
    if j == 0 {
      m := Highest(lanes);
      GroupsAgreeWithPcs(lanes - g.mask, next);
    } else {
      assert gs[j] == rest[j - 1];
      m := GroupsDescend(lanes - g.mask, next, j - 1, k - 1);
    }
  }
}
