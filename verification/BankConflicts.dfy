/** How many cycles the lanes of a warp need to reach shared memory: each bank
    serves one word at a time, and one word can be broadcast. */
module BankConflicts {
  import opened Helpers

  /** What one active lane touches. */
  datatype Use = Use(bank: nat, word: nat)

  // ----- who touches what

  ghost function On(uses: seq<Use>, bank: nat, words: set<nat>): set<nat> {
    set i: nat | i < |uses| && uses[i].bank == bank && uses[i].word in words
  }

  ghost function Banks(uses: seq<Use>): set<nat> { set i: nat | i < |uses| :: uses[i].bank }

  ghost function Words(uses: seq<Use>, bank: nat): set<nat> {
    set i: nat | i < |uses| && uses[i].bank == bank :: uses[i].word
  }

  /** The two-level map from banks and words to counts. */
  ghost predicate Counted(acc: map<nat, map<nat, nat>>, uses: seq<Use>) {
    && acc.Keys == Banks(uses)
    && forall b :: b in acc ==> CountedBank(acc[b], uses, b)
  }

  ghost predicate CountedBank(counts: map<nat, nat>, uses: seq<Use>, bank: nat) {
    && counts.Keys == Words(uses, bank)
    && forall w :: w in counts ==> counts[w] == |On(uses, bank, {w})|
  }

  function Entry(acc: map<nat, map<nat, nat>>, bank: nat): map<nat, nat> { if bank in acc then acc[bank] else map[] }

  function Bumped(counts: map<nat, nat>, word: nat): map<nat, nat> {
    counts[word := (if word in counts then counts[word] else 0) + 1]
  }

  lemma {:induction false} OnOfAdd(uses: seq<Use>, u: Use, bank: nat, words: set<nat>)
    ensures On(uses + [u], bank, words) ==
            On(uses, bank, words) + (if u.bank == bank && u.word in words then {|uses|} else {})
  {
    var more := uses + [u];
    assert forall i: nat :: i < |uses| ==> more[i] == uses[i];
    assert more[|uses|] == u;
  }

  lemma {:induction false} WordsOfAdd(uses: seq<Use>, u: Use, bank: nat)
    ensures Words(uses + [u], bank) == Words(uses, bank) + (if u.bank == bank then {u.word} else {})
    ensures Banks(uses + [u]) == Banks(uses) + {u.bank}
  {
    var more := uses + [u];
    assert forall i: nat :: i < |uses| ==> more[i] == uses[i];
    assert more[|uses|] == u;
  }

  lemma {:induction false} NobodyOn(uses: seq<Use>, bank: nat, word: nat)
    requires word !in Words(uses, bank)
    ensures On(uses, bank, {word}) == {}
  {
  }

  lemma {:induction false} NoWords(uses: seq<Use>, bank: nat)
    requires bank !in Banks(uses)
    ensures Words(uses, bank) == {}
  {
  }

  lemma {:induction false} CountOne(acc: map<nat, map<nat, nat>>, uses: seq<Use>, u: Use)
    requires Counted(acc, uses)
    ensures Counted(acc[u.bank := Bumped(Entry(acc, u.bank), u.word)], uses + [u])
  {
    hide CountedBank, Words, Banks, Bumped;
    var acc' := acc[u.bank := Bumped(Entry(acc, u.bank), u.word)];
    WordsOfAdd(uses, u, u.bank);
    forall b | b in acc' ensures CountedBank(acc'[b], uses + [u], b) {
      EntryIsCounted(acc, uses, b);
      if b == u.bank {
        OwnBank(Entry(acc, b), uses, u);
      } else {
        OtherBank(acc[b], uses, u, b);
      }
    }
  }

  lemma {:induction false} EntryIsCounted(acc: map<nat, map<nat, nat>>, uses: seq<Use>, bank: nat)
    requires Counted(acc, uses)
    ensures CountedBank(Entry(acc, bank), uses, bank)
  {
    if bank !in acc {
      NoWords(uses, bank);
    }
  }

  lemma {:induction false} OwnBank(counts: map<nat, nat>, uses: seq<Use>, u: Use)
    requires CountedBank(counts, uses, u.bank)
    ensures CountedBank(Bumped(counts, u.word), uses + [u], u.bank)
  {
    hide On, Words;
    var counts' := Bumped(counts, u.word);
    WordsOfAdd(uses, u, u.bank);
    forall w | w in counts' ensures counts'[w] == |On(uses + [u], u.bank, {w})| {
      OnOfAdd(uses, u, u.bank, {w});
      NotYetOn(uses, u.bank, {w});
      if w !in counts {
        NobodyOn(uses, u.bank, w);
      }
    }
  }

  lemma {:induction false} OtherBank(counts: map<nat, nat>, uses: seq<Use>, u: Use, bank: nat)
    requires CountedBank(counts, uses, bank) && bank != u.bank
    ensures CountedBank(counts, uses + [u], bank)
  {
    hide On, Words;
    WordsOfAdd(uses, u, bank);
    forall w | w in counts ensures counts[w] == |On(uses + [u], bank, {w})| {
      OnOfAdd(uses, u, bank, {w});
    }
  }

  lemma {:induction false} NotYetOn(uses: seq<Use>, bank: nat, words: set<nat>)
    ensures |uses| !in On(uses, bank, words)
  {
  }

  method CountUses(uses: seq<Use>) returns (acc: map<nat, map<nat, nat>>)
    ensures Counted(acc, uses)
  {
    acc := map[];
    var n := 0;
    while n < |uses|
      invariant 0 <= n <= |uses| && Counted(acc, uses[..n])
    {
      var u := uses[n];
      CountOne(acc, uses[..n], u);
      assert uses[..n + 1] == uses[..n] + [u];
      acc := acc[u.bank := Bumped(Entry(acc, u.bank), u.word)];
      n := n + 1;
    }
    assert uses[..n] == uses;
  }

  // ----- the load of a bank

  /** Without broadcast a bank needs one access for each different word. */
  ghost function WordLoad(uses: seq<Use>, bank: nat): nat { |Words(uses, bank)| }

  ghost predicate IsShared(uses: seq<Use>, bank: nat, word: nat) { |On(uses, bank, {word})| > 1 }

  /** The broadcast goes to the first word of the first bank that has a word with
      several lanes. */
  ghost predicate IsBroadcast(uses: seq<Use>, cast: Option<Use>) {
    match cast
    case None => forall b, w :: !IsShared(uses, b, w)
    case Some(Use(bank, word)) =>
      && IsShared(uses, bank, word)
      && (forall w :: IsShared(uses, bank, w) ==> word <= w)
      && forall b, w :: IsShared(uses, b, w) ==> bank <= b
  }

  /** With one broadcast a bank needs one access for each lane, except that the
      lanes on the broadcast word need only one together. */
  ghost function LaneLoad(uses: seq<Use>, cast: Option<Use>, bank: nat): int {
    |On(uses, bank, Words(uses, bank))| -
    (if cast.Some? && cast.value.bank == bank then |On(uses, bank, {cast.value.word})| - 1 else 0)
  }

  lemma {:induction false} SplitWords(uses: seq<Use>, bank: nat, words: set<nat>, w: nat)
    requires w !in words
    ensures |On(uses, bank, words + {w})| == |On(uses, bank, words)| + |On(uses, bank, {w})|
  {
    assert On(uses, bank, words + {w}) == On(uses, bank, words) + On(uses, bank, {w});
    assert On(uses, bank, words) !! On(uses, bank, {w});
  }

  lemma {:induction false} WordIsUsed(uses: seq<Use>, bank: nat, w: nat)
    requires w in Words(uses, bank)
    ensures |On(uses, bank, {w})| > 0
  {
    var i: nat :| i < |uses| && uses[i].bank == bank && uses[i].word == w;
    assert i in On(uses, bank, {w});
  }

  /** Lanes on some words of a bank are at least as many as the words. */
  lemma {:induction false} LanesCoverWords(uses: seq<Use>, bank: nat, words: set<nat>)
    requires words <= Words(uses, bank)
    ensures |words| <= |On(uses, bank, words)|
    decreases words
  {
    if words != {} {
      var w :| w in words;
      LanesCoverWords(uses, bank, words - {w});
      SplitWords(uses, bank, words - {w}, w);
      assert words - {w} + {w} == words;
      WordIsUsed(uses, bank, w);
    }
  }

  /** A broadcast can not beat one access for each word, and no bank needs more
      accesses than there are lanes. */
  lemma {:induction false} LoadsCompare(uses: seq<Use>, cast: Option<Use>, bank: nat)
    requires IsBroadcast(uses, cast)
    ensures WordLoad(uses, bank) <= LaneLoad(uses, cast, bank) <= |uses|
  {
    var words := Words(uses, bank);
    LanesCoverWords(uses, bank, words);
    LanesOf(uses, bank, words);
    if cast.Some? && cast.value.bank == bank {
      var w := cast.value.word;
      assert w in words by {
        if w !in words {
          NobodyOn(uses, bank, w);
        }
      }
      LanesCoverWords(uses, bank, words - {w});
      SplitWords(uses, bank, words - {w}, w);
      assert words - {w} + {w} == words;
    }
  }

  lemma {:induction false} LanesOf(uses: seq<Use>, bank: nat, words: set<nat>)
    ensures |On(uses, bank, words)| <= |uses|
  {
    SubsetIsSmaller(On(uses, bank, words), Below(|uses|));
  }

  // ----- the loops over banks and words

  ghost function Load(uses: seq<Use>, limited: bool, cast: Option<Use>, bank: nat): int {
    if limited then LaneLoad(uses, cast, bank) else WordLoad(uses, bank)
  }

  /** The largest load of a bank, or nothing if no lane is active. */
  ghost predicate IsLargest(uses: seq<Use>, limited: bool, m: nat) {
    exists cast: Option<Use> :: IsBroadcast(uses, cast) && IsLargestWith(uses, limited, cast, Banks(uses), m)
  }

  ghost predicate IsLargestWith(uses: seq<Use>, limited: bool, cast: Option<Use>, banks: set<nat>, m: nat) {
    && (banks == {} ==> m == 0)
    && (banks != {} ==> exists b :: b in banks && Load(uses, limited, cast, b) == m)
    && forall b :: b in banks ==> Load(uses, limited, cast, b) <= m
  }

  method FindBroadcast(acc: map<nat, map<nat, nat>>, ghost uses: seq<Use>) returns (cast: Option<Use>)
    requires Counted(acc, uses)
    ensures IsBroadcast(uses, cast)
  {
    SharedIsCounted(acc, uses);
    var banks := acc.Keys;
    while banks != {}
      invariant banks <= acc.Keys
      invariant forall b, w :: IsShared(uses, b, w) ==> b in banks
      decreases banks
    {
      var b := Smallest(banks);
      var words := acc[b].Keys;
      while words != {}
        invariant words <= acc[b].Keys
        invariant forall w :: IsShared(uses, b, w) ==> w in words
        decreases words
      {
        var w := Smallest(words);
        if acc[b][w] > 1 {
          return Some(Use(b, w));
        }
        words := words - {w};
      }
      banks := banks - {b};
    }
    return None;
  }

  lemma {:induction false} SharedIsCounted(acc: map<nat, map<nat, nat>>, uses: seq<Use>)
    requires Counted(acc, uses)
    ensures forall b, w :: IsShared(uses, b, w) ==> b in acc && w in acc[b]
    ensures forall b, w :: b in acc && w in acc[b] ==> (IsShared(uses, b, w) <==> acc[b][w] > 1)
  {
    forall b, w | IsShared(uses, b, w) ensures b in acc && w in acc[b] {
      if w !in Words(uses, b) {
        NobodyOn(uses, b, w);
      }
      var i: nat :| i < |uses| && uses[i].bank == b && uses[i].word == w;
      assert b in Banks(uses);
    }
  }

  /** The accesses of one bank, lane by lane, less the broadcast. */
  method LanesOfBank(counts: map<nat, nat>, cast: Option<Use>, bank: nat, ghost uses: seq<Use>) returns (accesses: int)
    requires CountedBank(counts, uses, bank) && IsBroadcast(uses, cast)
    ensures accesses == LaneLoad(uses, cast, bank)
  {
    hide On, Words, IsBroadcast;
    accesses := 0;
    var words := counts.Keys;
    NoneOn(uses, bank);
    assert counts.Keys - words == {};
    while words != {}
      invariant words <= counts.Keys && accesses == |On(uses, bank, counts.Keys - words)|
      decreases words
    {
      var w := Smallest(words);
      SplitWords(uses, bank, counts.Keys - words, w);
      assert counts.Keys - words + {w} == counts.Keys - (words - {w});
      accesses := accesses + counts[w];
      words := words - {w};
    }
    assert counts.Keys - words == Words(uses, bank);
    if cast.Some? && cast.value.bank == bank {
      CastIsCounted(counts, cast, bank, uses);
      var n := counts[cast.value.word];
      assert n > 1;
      assert accesses >= n - 1;
      accesses := accesses - (n - 1);
    }
  }

  lemma {:induction false} NoneOn(uses: seq<Use>, bank: nat)
    ensures On(uses, bank, {}) == {}
  {
  }

  lemma {:induction false} CastIsCounted(counts: map<nat, nat>, cast: Option<Use>, bank: nat, uses: seq<Use>)
    requires CountedBank(counts, uses, bank) && IsBroadcast(uses, cast) && cast.Some? && cast.value.bank == bank
    ensures cast.value.word in counts && 1 < counts[cast.value.word] <= |On(uses, bank, Words(uses, bank))|
  {
    var w := cast.value.word;
    if w !in Words(uses, bank) {
      NobodyOn(uses, bank, w);
    }
    SubsetIsSmaller(On(uses, bank, {w}), On(uses, bank, Words(uses, bank)));
  }

  method LargestLoad(uses: seq<Use>, limited: bool) returns (m: nat)
    ensures IsLargest(uses, limited, m)
  {
    hide On, Words, IsBroadcast;
    var acc := CountUses(uses);
    var cast := FindBroadcast(acc, uses);
    m := 0;
    var banks := acc.Keys;
    while banks != {}
      invariant banks <= acc.Keys && IsLargestWith(uses, limited, cast, acc.Keys - banks, m)
      decreases banks
    {
      var b := Smallest(banks);
      var load := |acc[b]|;
      assert acc[b].Keys == Words(uses, b);
      LoadsCompare(uses, cast, b);
      if limited {
        load := LanesOfBank(acc[b], cast, b, uses);
      }
      OneMoreBank(uses, limited, cast, acc.Keys - banks, m, b, load);
      assert acc.Keys - (banks - {b}) == acc.Keys - banks + {b};
      if load > m {
        m := load;
      }
      banks := banks - {b};
    }
    assert acc.Keys - banks == Banks(uses);
  }

  lemma {:induction false} OneMoreBank(uses: seq<Use>, limited: bool, cast: Option<Use>, banks: set<nat>, m: nat,
                                       b: nat, load: nat)
    requires IsLargestWith(uses, limited, cast, banks, m) && Load(uses, limited, cast, b) == load
    ensures IsLargestWith(uses, limited, cast, banks + {b}, if load > m then load else m)
  {
    hide Load;
    var m' := if load > m then load else m;
    assert banks != {} ==> exists c :: c in banks && Load(uses, limited, cast, c) == m;
    if m' == load {
      assert b in banks + {b} && Load(uses, limited, cast, b) == m';
    } else {
      var c :| c in banks && Load(uses, limited, cast, c) == m;
      assert c in banks + {b};
    }
  }

  // ----- the whole warp

  /** The uses of the active lanes `lo` up to `hi`. */
  function Active(lanes: seq<Option<Use>>, lo: nat, hi: nat): seq<Use>
    requires hi <= |lanes|
    decreases hi
  {
    if hi <= lo then [] else Active(lanes, lo, hi - 1) + (if lanes[hi - 1].Some? then [lanes[hi - 1].value] else [])
  }

  /** The active lanes `lo` up to `hi`. */
  ghost function ActiveLanes(lanes: seq<Option<Use>>, lo: nat, hi: nat): set<nat> {
    set i: nat | lo <= i < hi && i < |lanes| && lanes[i].Some?
  }

  /** Every active lane is counted once, in the order of the lanes: the use of lane
      `i` is found behind those of the active lanes before it. */
  lemma {:induction false} ActiveIsExact(lanes: seq<Option<Use>>, lo: nat, hi: nat)
    requires lo <= hi <= |lanes|
    ensures |Active(lanes, lo, hi)| == |ActiveLanes(lanes, lo, hi)|
    ensures forall i: nat :: i in ActiveLanes(lanes, lo, hi) ==>
              && |ActiveLanes(lanes, lo, i)| < |Active(lanes, lo, hi)|
              && Active(lanes, lo, hi)[|ActiveLanes(lanes, lo, i)|] == lanes[i].value
    decreases hi
  {
    if lo == hi {
      assert ActiveLanes(lanes, lo, hi) == {};
    } else {
      var rest, last := ActiveLanes(lanes, lo, hi - 1), hi - 1;
      ActiveIsExact(lanes, lo, last);
      assert last !in rest;
      assert ActiveLanes(lanes, lo, hi) == if lanes[last].Some? then rest + {last} else rest;
    }
  }

  ghost function ActiveOn(lanes: seq<Option<Use>>, lo: nat, hi: nat, bank: nat, words: set<nat>): set<nat>
    requires hi <= |lanes|
  {
    set i: nat | lo <= i < hi && lanes[i].Some? && lanes[i].value.bank == bank && lanes[i].value.word in words
  }

  lemma {:induction false} ActiveOnLast(lanes: seq<Option<Use>>, lo: nat, hi: nat, bank: nat, words: set<nat>)
    requires lo < hi <= |lanes|
    ensures var last := lanes[hi - 1];
            |ActiveOn(lanes, lo, hi, bank, words)| == |ActiveOn(lanes, lo, hi - 1, bank, words)| +
            (if last.Some? && last.value.bank == bank && last.value.word in words then 1 else 0)
  {
    var last, rest := lanes[hi - 1], ActiveOn(lanes, lo, hi - 1, bank, words);
    assert hi - 1 !in rest;
    assert ActiveOn(lanes, lo, hi, bank, words) ==
           if last.Some? && last.value.bank == bank && last.value.word in words then rest + {hi - 1} else rest;
  }

  /** So the lanes on some words of a bank are the active lanes that touch them. */
  lemma {:induction false} OnIsActiveOn(lanes: seq<Option<Use>>, lo: nat, hi: nat, bank: nat, words: set<nat>)
    requires lo <= hi <= |lanes|
    ensures |On(Active(lanes, lo, hi), bank, words)| == |ActiveOn(lanes, lo, hi, bank, words)|
    decreases hi
  {
    if lo == hi {
      assert ActiveOn(lanes, lo, hi, bank, words) == {} && On([], bank, words) == {};
    } else {
      var uses, last := Active(lanes, lo, hi - 1), lanes[hi - 1];
      OnIsActiveOn(lanes, lo, hi - 1, bank, words);
      ActiveOnLast(lanes, lo, hi, bank, words);
      assert |uses| !in On(uses, bank, words);
      if last.Some? {
        OnOfAdd(uses, last.value, bank, words);
      } else {
        assert Active(lanes, lo, hi) == uses;
      }
    }
  }

  function Sum(costs: seq<nat>): nat { if costs == [] then 0 else Sum(costs[..|costs| - 1]) + costs[|costs| - 1] }

  /** The cycles of a warp: the largest load of each subwarp, added up. */
  method Cycles(lanes: seq<Option<Use>>, parts: nat, limited: bool) returns (cycles: nat, ghost costs: seq<nat>)
    requires parts > 0
    ensures |costs| == parts && cycles == Sum(costs)
    ensures forall p :: 0 <= p < parts ==> IsCost(lanes, |lanes| / parts, limited, p, costs[p])
  {
    var size := |lanes| / parts;
    cycles, costs := 0, [];
    var p, lo := 0, 0;
    while p < parts
      invariant 0 <= p <= parts && |costs| == p && lo == p * size && cycles == Sum(costs)
      invariant forall q :: 0 <= q < p ==> IsCost(lanes, size, limited, q, costs[q])
    {
      PartFits(|lanes|, parts, p);
      var m := LargestLoad(Active(lanes, lo, lo + size), limited);
      assert (costs + [m])[..|costs|] == costs;
      cycles, costs := cycles + m, costs + [m];
      lo := lo + size;
      p := p + 1;
    }
  }

  lemma {:induction false} SumOfTwo(costs: seq<nat>, more: seq<nat>)
    ensures Sum([]) == 0 && forall cost :: Sum([cost]) == cost
    ensures Sum(costs + more) == Sum(costs) + Sum(more)
  {
    forall cost ensures Sum([cost]) == cost {
      assert [cost][..0] == [];
    }
    if more != [] {
      var n := |more| - 1;
      SumOfTwo(costs, more[..n]);
      assert (costs + more)[..|costs + more| - 1] == costs + more[..n];
    } else {
      assert costs + more == costs;
    }
  }

  ghost predicate IsCost(lanes: seq<Option<Use>>, size: nat, limited: bool, p: nat, cost: nat) {
    p * size + size <= |lanes| && IsLargest(Active(lanes, p * size, p * size + size), limited, cost)
  }

  lemma {:induction false} PartFits(total: nat, parts: nat, p: nat)
    requires p < parts
    ensures (p + 1) * (total / parts) == p * (total / parts) + total / parts <= total
  {
    ShareFits(total, parts);
    ProductGrows(p + 1, parts, total / parts);
  }

  lemma {:induction false} ActiveIsBounded(lanes: seq<Option<Use>>, lo: nat, hi: nat)
    requires lo <= hi <= |lanes|
    ensures |Active(lanes, lo, hi)| <= hi - lo
    ensures Active(lanes, lo, hi) != [] <==> SomeActive(lanes, lo, hi)
    decreases hi
  {
    if lo < hi {
      ActiveIsBounded(lanes, lo, hi - 1);
      SomeActiveLast(lanes, lo, hi);
    }
  }

  /** Every subwarp costs at least one cycle if a lane is active, at most one for
      each lane, and never less when only one word can be broadcast. */
  lemma {:induction false} CostBounds(uses: seq<Use>, m: nat, m': nat)
    requires IsLargest(uses, false, m) && IsLargest(uses, true, m')
    ensures m <= m' <= |uses| && (uses != [] ==> m > 0) && (uses == [] ==> m' == 0)
  {
    hide On, Words, IsBroadcast;
    var cast: Option<Use> :| IsBroadcast(uses, cast) && IsLargestWith(uses, false, cast, Banks(uses), m);
    var cast': Option<Use> :| IsBroadcast(uses, cast') && IsLargestWith(uses, true, cast', Banks(uses), m');
    if uses != [] {
      FirstIsUsed(uses);
      var b :| b in Banks(uses) && Load(uses, false, cast, b) == m;
      LoadsCompare(uses, cast', b);
      var b' :| b' in Banks(uses) && Load(uses, true, cast', b') == m';
      LoadsCompare(uses, cast', b');
      assert Load(uses, false, cast, uses[0].bank) <= m;
    }
  }

  lemma {:induction false} FirstIsUsed(uses: seq<Use>)
    requires uses != []
    ensures uses[0].bank in Banks(uses) && |Words(uses, uses[0].bank)| > 0
  {
    assert uses[0].word in Words(uses, uses[0].bank);
  }

  /** The assertion that follows the count: a warp takes between one cycle and one
      for each lane, exactly if a lane of a subwarp is active. */
  lemma {:induction false} CyclesInRange(lanes: seq<Option<Use>>, size: nat, costs: seq<nat>, costs': seq<nat>)
    requires |costs| == |costs'|
    requires forall p :: 0 <= p < |costs| ==>
               IsCost(lanes, size, false, p, costs[p]) && IsCost(lanes, size, true, p, costs'[p])
    ensures Sum(costs) <= Sum(costs') <= |costs| * size
    ensures Sum(costs) > 0 <==> SomeActive(lanes, 0, |costs| * size)
    ensures Sum(costs') > 0 <==> Sum(costs) > 0
  {
    hide IsLargest, Active;
    if costs != [] {
      var p := |costs| - 1;
      CyclesInRange(lanes, size, costs[..p], costs'[..p]);
      assert IsCost(lanes, size, false, p, costs[p]) && IsCost(lanes, size, true, p, costs'[p]);
      var uses := Active(lanes, p * size, p * size + size);
      CostBounds(uses, costs[p], costs'[p]);
      ActiveIsBounded(lanes, p * size, p * size + size);
      SomeActiveSplits(lanes, p * size, p * size + size);
      assert |costs| * size == p * size + size;
    }
  }

  ghost predicate SomeActive(lanes: seq<Option<Use>>, lo: nat, hi: nat) {
    exists i :: lo <= i < hi && i < |lanes| && lanes[i].Some?
  }

  lemma {:induction false} SomeActiveLast(lanes: seq<Option<Use>>, lo: nat, hi: nat)
    requires lo < hi <= |lanes|
    ensures SomeActive(lanes, lo, hi) <==> SomeActive(lanes, lo, hi - 1) || lanes[hi - 1].Some?
  {
  }

  lemma {:induction false} SomeActiveSplits(lanes: seq<Option<Use>>, mid: nat, hi: nat)
    requires mid <= hi
    ensures SomeActive(lanes, 0, hi) <==> SomeActive(lanes, 0, mid) || SomeActive(lanes, mid, hi)
  {
    if SomeActive(lanes, 0, hi) {
      var i :| 0 <= i < hi && i < |lanes| && lanes[i].Some?;
      if i < mid {
        assert SomeActive(lanes, 0, mid);
      } else {
        assert SomeActive(lanes, mid, hi);
      }
    }
  }
}
