/** The timestamp protocol is not sequentially consistent on all runs: a store to
    a block the L2 has dropped may get the very timestamp at which an old lease on
    that block ends.  One such run exists for every lease length, every map from
    addresses to banks and every initial memory. */
module RccTie {
  import opened RccProtocol
  import opened RccInvariant
  import opened RccConsistency

  const READER := Wid(1, 0)
  const WRITER := Wid(2, 0)

  /** Message passing: `X` holds the data, `Y` the flag. */
  const X: Addr := 0
  const Y: Addr := 1

  ghost predicate EndsIn(c: Config, s: State) {
    exists ss: seq<State>, acts: seq<Action> :: IsRun(c, ss, acts) && ss[|acts|] == s
  }

  lemma {:induction false} Begin(c: Config)
    ensures EndsIn(c, Initial(c))
  {
    assert IsRun(c, [Initial(c)], []);
  }

  lemma {:induction false} Take(c: Config, s: State, act: Action) returns (s': State)
    requires EndsIn(c, s) && Enabled(s, act)
    ensures EndsIn(c, s') && s' == Apply(c, s, act)
  {
    hide Enabled, Apply;
    var ss, acts :| IsRun(c, ss, acts) && ss[|acts|] == s;
    s' := Apply(c, s, act);
    assert IsRun(c, ss + [s'], acts + [act]) && (ss + [s'])[|acts + [act]|] == s';
  }

  /** The reader takes a lease on `X`, and the L2 then drops the block. */
  ghost predicate Leased(c: Config, s: State) {
    && s.pts(1) == s.pts(2) == 0 && s.phase(READER).Idle? && s.phase(WRITER).Idle?
    && s.lease(Spot(1, X)) == Lease(c.init(X), 0, c.delta) && s.lease(Spot(1, Y)).NoLease?
    && s.line(X).Absent? && s.line(Y).Absent?
    && s.mts(c.bank(X)) == c.delta && s.mts(c.bank(Y)) <= c.delta
    && s.log == [Op(READER, X, false, c.init(X), 0)]
  }

  lemma {:induction false} TakeLease(c: Config) returns (s: State)
    ensures EndsIn(c, s) && Leased(c, s)
  {
    hide EndsIn;
    Begin(c);
    s := Initial(c);
    s := Take(c, s, LoadMiss(READER, X));
    s := Take(c, s, TakeLoad(READER));
    s := Take(c, s, Fill(X));
    s := Take(c, s, Answer(READER));
    s := Take(c, s, EndAnswers(X));
    s := Take(c, s, Receive(READER));
    s := Take(c, s, Evict(X));
  }

  /** The writer stores to `X` and then to `Y`; both stores get the timestamp at
      which the lease ends. */
  ghost predicate Stored(c: Config, s: State, dx: Data, dy: Data) {
    && s.pts(1) == 0 && s.phase(READER).Idle?
    && s.lease(Spot(1, X)) == Lease(c.init(X), 0, c.delta) && s.lease(Spot(1, Y)).NoLease?
    && s.line(Y).Valid? && s.line(Y).data == dy && s.line(Y).wts == c.delta
    && s.log == [Op(READER, X, false, c.init(X), 0), Op(WRITER, X, true, dx, c.delta), Op(WRITER, Y, true, dy, c.delta)]
  }

  lemma {:induction false} StoreBoth(c: Config, s0: State, dx: Data, dy: Data) returns (s: State)
    requires EndsIn(c, s0) && Leased(c, s0)
    ensures EndsIn(c, s) && Stored(c, s, dx, dy)
  {
    hide EndsIn;
    s := Take(c, s0, StoreIssue(WRITER, X, dx));
    s := Take(c, s, TakeStore(WRITER));
    s := Take(c, s, Receive(WRITER));
    s := Take(c, s, StoreIssue(WRITER, Y, dy));
    s := Take(c, s, TakeStore(WRITER));
    s := Take(c, s, Fill(Y));
  }

  /** The reader sees the new `Y` and then still hits on the old `X`. */
  lemma {:induction false} ReadBoth(c: Config, s0: State, dx: Data, dy: Data) returns (s: State)
    requires EndsIn(c, s0) && Stored(c, s0, dx, dy)
    ensures EndsIn(c, s)
    ensures s.log == [Op(READER, X, false, c.init(X), 0),
                      Op(WRITER, X, true, dx, c.delta), Op(WRITER, Y, true, dy, c.delta),
                      Op(READER, Y, false, dy, c.delta), Op(READER, X, false, c.init(X), c.delta)]
  {
    hide EndsIn;
    s := Take(c, s0, LoadMiss(READER, Y));
    s := Take(c, s, TakeLoad(READER));
    s := Take(c, s, Receive(READER));
    s := Take(c, s, LoadHit(READER, X));
  }

  /** No order explains a log in which the flag is seen and the data is not. */
  lemma {:induction false} SeenFlagMissedData(init: Addr -> Data, log: seq<Op>, dx: Data, dy: Data, t: Time)
    requires dx != init(X) && dy != init(Y)
    requires log == [Op(READER, X, false, init(X), 0), Op(WRITER, X, true, dx, t), Op(WRITER, Y, true, dy, t),
                     Op(READER, Y, false, dy, t), Op(READER, X, false, init(X), t)]
    ensures !SequentiallyConsistent(init, log)
  {
    forall before: (nat, nat) -> bool | IsTotalOrder(before, |log|) && Explains(before, init, log) ensures false {
      assert ReadsLast(before, init, log, 3) && ReadsLast(before, init, log, 4);
      assert before(1, 2) && before(3, 4);
      assert before(2, 3) by {
        assert forall q: nat :: q < |log| && Visible(before, log, q, 3) ==> q == 2;
      }
      assert Visible(before, log, 1, 4);
      assert forall q: nat :: q < |log| && Visible(before, log, q, 4) ==> q == 1;
      assert false;
    }
  }

  lemma {:induction false} SomeRunIsNotConsistent(c: Config)
    ensures exists ss: seq<State>, acts: seq<Action> ::
              IsRun(c, ss, acts) && !SequentiallyConsistent(c.init, ss[|acts|].log) && !TieFree(c, ss, acts)
  {
    var s := Violation(c);
    var ss, acts :| IsRun(c, ss, acts) && ss[|acts|] == s;
    if TieFree(c, ss, acts) {
      TieFreeIsSequentiallyConsistent(c, ss, acts);
    }
  }

  lemma {:induction false} Violation(c: Config) returns (s: State)
    ensures EndsIn(c, s) && !SequentiallyConsistent(c.init, s.log)
  {
    hide EndsIn, Leased, Stored, SequentiallyConsistent;
    var dx, dy := c.init(X) + 1, c.init(Y) + 1;
    s := TakeLease(c);
    s := StoreBoth(c, s, dx, dy);
    s := ReadBoth(c, s, dx, dy);
    SeenFlagMissedData(c.init, s.log, dx, dy, c.delta);
  }
}
