/** What the group strategy guarantees of every group it records. */
module GroupLaws {
  import opened Ledger
  import opened Repository
  import opened References
  import opened FxConvert
  import opened GroupMatching
  import SubsetSum

  // ------------------------------------------------------------------- one group

  /** Positions 0 .. n-1. */
  function Positions(n: nat): (w: seq<nat>)
    ensures |w| == n && forall k :: 0 <= k < n ==> w[k] == k
  {
    seq(n, k requires 0 <= k < n => k)
  }

  lemma {:induction false} WholeSum(amounts: seq<int>)
    ensures SubsetSum.Sum(amounts, Positions(|amounts|)) == Total(amounts)
  {
    if amounts != [] {
      var n := |amounts| - 1;
      WholeSum(amounts[..n]);
      assert Positions(n + 1)[..n] == Positions(n);
      SumOfPrefix(amounts, n, Positions(n));
    }
  }

  lemma {:induction false} SumOfPrefix(amounts: seq<int>, n: nat, w: seq<nat>)
    requires n <= |amounts| && forall k :: 0 <= k < |w| ==> w[k] < n
    ensures SubsetSum.Sum(amounts[..n], w) == SubsetSum.Sum(amounts, w)
  {
    if w != [] {
      SumOfPrefix(amounts, n, w[..|w| - 1]);
    }
  }

  ghost predicate Increasing(w: seq<nat>, n: nat) {
    && (forall a, b :: 0 <= a < b < |w| ==> w[a] < w[b])
    && (forall a :: 0 <= a < |w| ==> w[a] < n)
  }

  /** The members are the candidates at the positions w; their amounts sum into the window; and they
      are the whole candidate set if that settles in full, otherwise the only subset that fits. */
  ghost predicate Settles(legs: Legs, candidates: seq<TxnId>, members: seq<TxnId>, max: nat, w: seq<nat>) {
    && legs.Legs? && |legs.amounts| == |candidates|
    && Increasing(w, |candidates|) && members == Select(candidates, w) && 2 <= |w| <= max
    && legs.low <= SubsetSum.Sum(legs.amounts, w) <= legs.high
    && (if 2 <= |candidates| <= max && legs.low <= Total(legs.amounts) <= legs.high then members == candidates
        else SubsetSum.OnlyFit(legs.amounts, legs.low, legs.high, 2, max, w))
  }

  lemma FitSettles(config: Config, max: nat, quotes: Quotes, txns: Txns, single: TxnId, candidates: seq<TxnId>)
    returns (w: seq<nat>)
    requires single in txns && (forall t :: t in candidates ==> t in txns)
    requires Fit(config, max, quotes, txns, single, candidates).Chosen?
    ensures Settles(LegsOf(config, quotes, txns, single, candidates), candidates,
                    Fit(config, max, quotes, txns, single, candidates).members, max, w)
  {
    hide LegsOf, SubsetSum.ReachesMoreThan, SubsetSum.IndexSet, DetailsFail;
    var legs := LegsOf(config, quotes, txns, single, candidates);
    if WholeSettles(legs.amounts, legs.low, legs.high, max) {
      w := Positions(|candidates|);
      WholeSum(legs.amounts);
      assert Select(candidates, w) == candidates;
    } else {
      w :| SubsetSum.OnlyFit(legs.amounts, legs.low, legs.high, 2, max, w);
      SubsetSum.IndexSetMeans(legs.amounts, |candidates|, w);
    }
  }

  // ------------------------------------------------------------------- what makes a candidate

  /** The two are linked: by a stem key of both original references, or by the first characters of both
      counterparty names. */
  ghost predicate LinkedBy(config: Config, a: Txn, b: Txn, link: Link) {
    match link
    case Stem =>
      exists key :: StemKey(a.originalReference, config.minStem, key)
                    && StemKey(b.originalReference, config.minStem, key)
    case Party =>
      exists n: nat :: 0 < n <= config.partyPrefix && n <= |a.counterparty| && n <= |b.counterparty|
                       && a.counterparty[..n] == b.counterparty[..n]
                       && (n == config.partyPrefix || n == |a.counterparty| == |b.counterparty|)
  }

  /** t may be a member of the single side's group: linked to it, not used, of the same direction, within the date
      window, and nobody has rejected the pairing of the two. */
  ghost predicate Belongs(config: Config, txns: Txns, rejected: Rejections, link: Link, used: set<TxnId>,
                          single: TxnId, t: TxnId) {
    && single in txns && t in txns && t !in used
    && LinkedBy(config, txns[single], txns[t], link)
    && txns[t].direction == txns[single].direction
    && -config.dateWindow <= txns[t].date - txns[single].date <= config.dateWindow
    && (if txns[single].source == Internal then (single, t) !in rejected else (t, single) !in rejected)
  }

  lemma LinkedByKeys(config: Config, a: Txn, b: Txn, link: Link)
    ensures LinkKeys(config, a, link) * LinkKeys(config, b, link) != {} <==> LinkedBy(config, a, b, link)
  {
    hide StemKeys, StemKey;
    var both := LinkKeys(config, a, link) * LinkKeys(config, b, link);
    if link == Stem {
      forall key
        ensures key in both <==>
                StemKey(a.originalReference, config.minStem, key) && StemKey(b.originalReference, config.minStem, key)
      {
        StemKeysMean(a.originalReference, config.minStem, key);
        StemKeysMean(b.originalReference, config.minStem, key);
      }
    } else {
      LinkedByName(config, a, b);
    }
  }

  lemma LinkedByName(config: Config, a: Txn, b: Txn)
    ensures LinkKeys(config, a, Party) * LinkKeys(config, b, Party) != {} <==> LinkedBy(config, a, b, Party)
  {
    var x, y := Prefix(a.counterparty, config.partyPrefix), Prefix(b.counterparty, config.partyPrefix);
    if x == y && x != "" {
      assert a.counterparty[..|x|] == x && b.counterparty[..|x|] == x;
      assert x in LinkKeys(config, a, Party) * LinkKeys(config, b, Party);
    }
  }

  lemma CandidatesBelong(config: Config, txns: Txns, rejected: Rejections, link: Link, used: set<TxnId>,
                         single: TxnId, t: TxnId)
    ensures Candidate(config, txns, rejected, link, used, single, t)
            <==> Belongs(config, txns, rejected, link, used, single, t)
  {
    hide LinkKeys, LinkedBy;
    if single in txns && t in txns {
      LinkedByKeys(config, txns[single], txns[t], link);
    }
  }

  /** The candidates of the single side: all of the pool that belong, by date and then by id. */
  ghost predicate AllCandidates(config: Config, txns: Txns, rejected: Rejections, link: Link, used: set<TxnId>,
                                pool: seq<TxnId>, single: TxnId, candidates: seq<TxnId>) {
    && single in txns && (forall t :: t in candidates ==> t in txns)
    && (forall t :: t in candidates <==> t in pool && Belongs(config, txns, rejected, link, used, single, t))
    && (forall j, k :: 0 <= j < k < |candidates| ==>
          || txns[candidates[j]].date < txns[candidates[k]].date
          || (txns[candidates[j]].date == txns[candidates[k]].date && candidates[j] < candidates[k]))
  }

  lemma ListHasAllCandidates(config: Config, txns: Txns, rejected: Rejections, link: Link, used: set<TxnId>,
                             pool: seq<TxnId>, single: TxnId)
    requires single in txns
    ensures AllCandidates(config, txns, rejected, link, used, pool, single,
                          CandidateList(config, txns, rejected, link, used, pool, single))
  {
    hide Candidate, Belongs;
    forall t: TxnId
      ensures Candidate(config, txns, rejected, link, used, single, t)
              <==> Belongs(config, txns, rejected, link, used, single, t)
    {
      CandidatesBelong(config, txns, rejected, link, used, single, t);
    }
    var ids := CandidateList(config, txns, rejected, link, used, pool, single);
    assert Lists(WithoutLines(txns), CandidateSet(config, txns, rejected, link, used, pool, single), ids);
    forall j, k | 0 <= j < k < |ids|
      ensures || txns[ids[j]].date < txns[ids[k]].date
              || (txns[ids[j]].date == txns[ids[k]].date && ids[j] < ids[k])
    {
      assert Before(WithoutLines(txns), ids[j], ids[k]);
    }
  }

  // ------------------------------------------------------------------- what settles the single side

  /** The amounts the search compares and the window for their sum: minor units within the tolerance when all
      are in one currency, and otherwise what each is worth in paise, within the FX tolerance. */
  ghost predicate Compared(config: Config, quotes: Quotes, txns: Txns, single: TxnId, candidates: seq<TxnId>,
                           legs: Legs) {
    && single in txns && (forall t :: t in candidates ==> t in txns)
    && legs.Legs? && |legs.amounts| == |candidates|
    && if forall t :: t in candidates ==> txns[t].currency == txns[single].currency then
         && legs.target == txns[single].amount
         && (forall k :: 0 <= k < |candidates| ==> legs.amounts[k] == txns[candidates[k]].amount)
         && legs.low == txns[single].amount - config.toleranceMinor
         && legs.high == txns[single].amount + config.toleranceMinor
       else
         && WorthInr(quotes, txns[single], legs.target)
         && (forall k :: 0 <= k < |candidates| ==> WorthInr(quotes, txns[candidates[k]], legs.amounts[k]))
         && Window(legs.target, config.fxTolerance) == Some((legs.low, legs.high))
         && (legs.target >= 0 && config.fxTolerance < 200.0 ==>
               forall sum: nat :: legs.low <= sum <= legs.high <==> WithinPercent(legs.target, sum, config.fxTolerance))
  }

  lemma LegsAreCompared(config: Config, quotes: Quotes, txns: Txns, single: TxnId, candidates: seq<TxnId>, legs: Legs)
    requires single in txns && forall t :: t in candidates ==> t in txns
    ensures legs.Legs? && legs == LegsOf(config, quotes, txns, single, candidates)
            <==> Compared(config, quotes, txns, single, candidates, legs)
  {
    hide LegInr, WorthInr, Window, WithinPercent;
    assert forall k :: 0 <= k < |candidates| ==> candidates[k] in candidates;
    if legs.Legs? {
      LegIsWorth(quotes, txns[single], legs.target);
      if |legs.amounts| == |candidates| {
        forall k | 0 <= k < |candidates|
          ensures LegInr(quotes, txns[candidates[k]]) == Some(legs.amounts[k])
                  <==> WorthInr(quotes, txns[candidates[k]], legs.amounts[k])
        {
          LegIsWorth(quotes, txns[candidates[k]], legs.amounts[k]);
        }
        KnownLegs(quotes, txns, candidates, legs.amounts);
      }
      if legs.target >= 0 && config.fxTolerance < 200.0 {
        WindowIsPercent(legs.target, config.fxTolerance);
      }
    }
  }

  lemma KnownLegs(quotes: Quotes, txns: Txns, candidates: seq<TxnId>, amounts: seq<int>)
    requires |amounts| == |candidates| && forall t :: t in candidates ==> t in txns
    ensures (forall k :: 0 <= k < |candidates| ==> LegInr(quotes, txns[candidates[k]]) == Some(amounts[k])) ==>
              && (forall t :: t in candidates ==> LegInr(quotes, txns[t]).Some?)
              && amounts == seq(|candidates|, k requires 0 <= k < |candidates| =>
                                 if LegInr(quotes, txns[candidates[k]]).Some?
                                 then LegInr(quotes, txns[candidates[k]]).value else 0)
  {
    hide LegInr;
  }

  lemma WindowIsPercent(target: nat, percent: real)
    requires 0.0 <= percent < 200.0
    ensures Window(target, percent).Some?
    ensures forall sum: nat ::
              var w := Window(target, percent).value;
              w.0 <= sum <= w.1 <==> WithinPercent(target, sum, percent)
  {
    hide Window, RelativeDifference, WithinPercent;
    WindowKnown(target, percent);
    forall sum: nat
      ensures var w := Window(target, percent).value;
              w.0 <= sum <= w.1 <==> WithinPercent(target, sum, percent)
    {
      WindowIsExact(target, percent, sum);
      DifferenceMeans(target, sum, percent);
    }
  }

  lemma WindowKnown(target: nat, percent: real)
    requires 0.0 <= percent < 200.0
    ensures Window(target, percent).Some?
  {
  }

  // ------------------------------------------------------------------- every group

  /** Group g, recorded after the groups in `before`: its members belong to the single side in one way; they
      settle it among all candidates that belong in that way, being all of them or the only ones that fit; and
      there are at most as many as a group of its kind may have. */
  ghost predicate SoundBy(config: Config, quotes: Quotes, txns: Txns, rejected: Rejections, pool: seq<TxnId>,
                          before: seq<Grouped>, g: Grouped, link: Link) {
    var max := if g.kind == Split then config.maxSplit else config.maxNetted;
    && g.single in txns
    && 2 <= |g.members| <= max && Distinct(g.members)
    && (forall m :: m in g.members ==>
          m in pool && Belongs(config, txns, rejected, link, Consumed(before), g.single, m))
    && exists candidates, legs, w ::
         && AllCandidates(config, txns, rejected, link, Consumed(before), pool, g.single, candidates)
         && Compared(config, quotes, txns, g.single, candidates, legs)
         && Settles(legs, candidates, g.members, max, w)
  }

  ghost predicate Sound(config: Config, quotes: Quotes, txns: Txns, rejected: Rejections,
                        internals: seq<TxnId>, externals: seq<TxnId>, before: seq<Grouped>, g: Grouped) {
    && (g.kind == Split || g.kind == Netted)
    && g.single in (if g.kind == Split then internals else externals)
    && g.single !in Consumed(before)
    && var pool := if g.kind == Split then externals else internals;
       exists link :: SoundBy(config, quotes, txns, rejected, pool, before, g, link)
  }

  ghost predicate AllSound(config: Config, quotes: Quotes, txns: Txns, rejected: Rejections,
                           internals: seq<TxnId>, externals: seq<TxnId>, groups: seq<Grouped>) {
    forall k :: 0 <= k < |groups| ==>
                  Sound(config, quotes, txns, rejected, internals, externals, groups[..k], groups[k])
  }

  lemma AttemptIsSound(config: Config, quotes: Quotes, txns: Txns, rejected: Rejections, link: Link,
                       kind: MatchKind, pool: seq<TxnId>, before: seq<Grouped>, single: TxnId)
    requires Attempt(config, quotes, txns, rejected, link, kind, pool, Consumed(before), single).Chosen?
    ensures var members := Attempt(config, quotes, txns, rejected, link, kind, pool, Consumed(before), single).members;
            SoundBy(config, quotes, txns, rejected, pool, before, Grouped(kind, single, members), link)
  {
    hide Fit, Candidate, CandidateList, Settles, LegsOf, Belongs, AllCandidates, Compared;
    AttemptChooses(config, quotes, txns, rejected, link, kind, pool, Consumed(before), single);
    var candidates := CandidateList(config, txns, rejected, link, Consumed(before), pool, single);
    assert candidates[0] in candidates;
    var members := Attempt(config, quotes, txns, rejected, link, kind, pool, Consumed(before), single).members;
    forall m | m in members ensures m in pool && Belongs(config, txns, rejected, link, Consumed(before), single, m) {
      CandidatesBelong(config, txns, rejected, link, Consumed(before), single, m);
    }
    ListHasAllCandidates(config, txns, rejected, link, Consumed(before), pool, single);
    var legs := LegsOf(config, quotes, txns, single, candidates);
    var w := FitSettles(config, MaxMembers(config, kind), quotes, txns, single, candidates);
    SettledByLegs(legs, candidates, members, MaxMembers(config, kind), w);
    LegsAreCompared(config, quotes, txns, single, candidates, legs);
  }

  lemma SettledByLegs(legs: Legs, candidates: seq<TxnId>, members: seq<TxnId>, max: nat, w: seq<nat>)
    requires Settles(legs, candidates, members, max, w)
    ensures legs.Legs?
  {
  }

  lemma TurnIsSound(config: Config, quotes: Quotes, txns: Txns, rejected: Rejections, claimed: set<TxnId>,
                    internals: seq<TxnId>, externals: seq<TxnId>, kind: MatchKind, p: Progress, single: TxnId)
    requires kind == Split || kind == Netted
    requires single in SinglesOf(kind, internals, externals)
    requires AllSound(config, quotes, txns, rejected, internals, externals, p.groups)
    ensures var pool := PoolOf(kind, internals, externals);
            AllSound(config, quotes, txns, rejected, internals, externals,
                     Turn(config, quotes, txns, rejected, claimed, kind, pool, p, single).groups)
  {
    hide Attempt, SoundBy, Consumed, AllSound;
    var pool := PoolOf(kind, internals, externals);
    var after := Turn(config, quotes, txns, rejected, claimed, kind, pool, p, single);
    if after.groups != p.groups {
      var byStem := Attempt(config, quotes, txns, rejected, Stem, kind, pool, Consumed(p.groups), single);
      var g := after.groups[|p.groups|];
      assert after.groups == p.groups + [g];
      AttemptIsSound(config, quotes, txns, rejected, if byStem.Chosen? then Stem else Party, kind, pool, p.groups,
                     single);
      OneMoreSound(config, quotes, txns, rejected, internals, externals, p.groups, g);
    }
  }

  lemma OneMoreSound(config: Config, quotes: Quotes, txns: Txns, rejected: Rejections,
                     internals: seq<TxnId>, externals: seq<TxnId>, groups: seq<Grouped>, g: Grouped)
    requires AllSound(config, quotes, txns, rejected, internals, externals, groups)
    requires Sound(config, quotes, txns, rejected, internals, externals, groups, g)
    ensures AllSound(config, quotes, txns, rejected, internals, externals, groups + [g])
  {
    hide Sound;
    var more := groups + [g];
    assert more[..|groups|] == groups;
    forall k | 0 <= k < |groups| ensures more[..k] == groups[..k] && more[k] == groups[k] {
    }
  }

  lemma {:induction false} PassIsSound(config: Config, quotes: Quotes, txns: Txns, rejected: Rejections,
                                       claimed: set<TxnId>, internals: seq<TxnId>, externals: seq<TxnId>,
                                       kind: MatchKind, singles: seq<TxnId>, p: Progress)
    requires kind == Split || kind == Netted
    requires forall t :: t in singles ==> t in SinglesOf(kind, internals, externals)
    requires AllSound(config, quotes, txns, rejected, internals, externals, p.groups)
    ensures AllSound(config, quotes, txns, rejected, internals, externals,
                     Pass(config, quotes, txns, rejected, claimed, kind, singles,
                          PoolOf(kind, internals, externals), p).groups)
    decreases singles
  {
    hide Turn, AllSound;
    if singles != [] {
      var front, last, pool := singles[..|singles| - 1], singles[|singles| - 1], PoolOf(kind, internals, externals);
      assert last in singles && forall t :: t in front ==> t in singles;
      PassIsSound(config, quotes, txns, rejected, claimed, internals, externals, kind, front, p);
      TurnIsSound(config, quotes, txns, rejected, claimed, internals, externals, kind,
                  Pass(config, quotes, txns, rejected, claimed, kind, front, pool, p), last);
    }
  }

  /** Every group of a run is sound with respect to the groups recorded before it. */
  lemma EveryGroupIsSound(config: Config, quotes: Quotes, txns: Txns, rejected: Rejections, claimed: set<TxnId>,
                          internals: seq<TxnId>, externals: seq<TxnId>)
    ensures AllSound(config, quotes, txns, rejected, internals, externals,
                     TwoPasses(config, quotes, txns, rejected, claimed, internals, externals).groups)
  {
    hide Pass, Sound;
    PassIsSound(config, quotes, txns, rejected, claimed, internals, externals, Split, internals, BEGIN);
    PassIsSound(config, quotes, txns, rejected, claimed, internals, externals, Netted, externals,
                Pass(config, quotes, txns, rejected, claimed, Split, internals, externals, BEGIN));
  }

  /** Every member of every group of a run: the direction of the single side, a date within the window, a stem key
      or a counterparty prefix in common, a pairing nobody has rejected; and never more members than allowed. */
  lemma EveryMemberQualifies(config: Config, quotes: Quotes, txns: Txns, rejected: Rejections, claimed: set<TxnId>,
                             internals: seq<TxnId>, externals: seq<TxnId>, k: nat, m: TxnId)
    requires forall t :: t in internals ==> t in txns && txns[t].source == Internal
    requires forall t :: t in externals ==> t in txns && txns[t].source == External
    requires var groups := TwoPasses(config, quotes, txns, rejected, claimed, internals, externals).groups;
             k < |groups| && m in groups[k].members
    ensures var g := TwoPasses(config, quotes, txns, rejected, claimed, internals, externals).groups[k];
            && g.single in txns && m in txns
            && txns[m].direction == txns[g.single].direction
            && -config.dateWindow <= txns[m].date - txns[g.single].date <= config.dateWindow
            && (exists link :: LinkedBy(config, txns[g.single], txns[m], link))
            && (if g.kind == Split
                then g.single in internals && m in externals && (g.single, m) !in rejected
                     && 2 <= |g.members| <= config.maxSplit
                else g.kind == Netted && g.single in externals && m in internals && (m, g.single) !in rejected
                     && 2 <= |g.members| <= config.maxNetted)
  {
    EveryGroupIsSound(config, quotes, txns, rejected, claimed, internals, externals);
    hide TwoPasses, LinkedBy, Settles, Compared, AllCandidates, Consumed;
    var groups := TwoPasses(config, quotes, txns, rejected, claimed, internals, externals).groups;
    var g := groups[k];
    assert Sound(config, quotes, txns, rejected, internals, externals, groups[..k], g);
    var pool := if g.kind == Split then externals else internals;
    var link :| SoundBy(config, quotes, txns, rejected, pool, groups[..k], g, link);
    assert Belongs(config, txns, rejected, link, Consumed(groups[..k]), g.single, m);
  }

  lemma {:induction false} ConsumedHolds(groups: seq<Grouped>, k: nat)
    requires k < |groups|
    ensures {groups[k].single} + ToSet(groups[k].members) <= Consumed(groups)
  {
    if k < |groups| - 1 {
      ConsumedHolds(groups[..|groups| - 1], k);
    }
  }

  /** The groups of a run share no transaction. */
  lemma GroupsAreDisjoint(config: Config, quotes: Quotes, txns: Txns, rejected: Rejections,
                          internals: seq<TxnId>, externals: seq<TxnId>, groups: seq<Grouped>, j: nat, k: nat)
    requires AllSound(config, quotes, txns, rejected, internals, externals, groups) && j < k < |groups|
    ensures ({groups[j].single} + ToSet(groups[j].members)) !! ({groups[k].single} + ToSet(groups[k].members))
  {
    hide Settles, Compared, AllCandidates, Consumed;
    ConsumedHolds(groups[..k], j);
    assert groups[..k][j] == groups[j];
    assert Sound(config, quotes, txns, rejected, internals, externals, groups[..k], groups[k]);
  }

  // ------------------------------------------------------- is a whole set the only one that fits?

  /** Some other choice of at least two candidates would also fit. */
  ghost predicate AnotherFits(amounts: seq<int>, low: int, high: int, max: nat, w: seq<nat>) {
    Increasing(w, |amounts|) && 2 <= |w| <= max && low <= SubsetSum.Sum(amounts, w) <= high
    && w != Positions(|amounts|)
  }

  /** All positions but i. */
  function AllBut(n: nat, i: nat): (w: seq<nat>)
    requires i < n
    ensures |w| == n - 1 && Increasing(w, n)
  {
    seq(n - 1, k requires 0 <= k < n - 1 => if k < i then k else k + 1)
  }

  lemma {:induction false} SumAllBut(amounts: seq<int>, i: nat)
    requires i < |amounts|
    ensures SubsetSum.Sum(amounts, AllBut(|amounts|, i)) == Total(amounts) - amounts[i]
  {
    var n := |amounts| - 1;
    if i == n {
      assert AllBut(n + 1, i) == Positions(n);
      WholeSum(amounts[..n]);
      SumOfPrefix(amounts, n, Positions(n));
    } else {
      SumAllBut(amounts[..n], i);
      assert AllBut(n + 1, i)[..n - 1] == AllBut(n, i) && AllBut(n + 1, i)[n - 1] == n;
      SumOfPrefix(amounts, n, AllBut(n, i));
    }
  }

  /** A choice that leaves out position i sums to at most the rest. */
  lemma {:induction false} SumWithout(amounts: seq<int>, w: seq<nat>, i: nat)
    requires (forall k :: 0 <= k < |amounts| ==> amounts[k] >= 0)
    requires Increasing(w, |amounts|) && i < |amounts| && i !in w
    ensures SubsetSum.Sum(amounts, w) <= Total(amounts) - amounts[i]
    decreases |amounts|
  {
    var n := |amounts| - 1;
    var front := amounts[..n];
    if w != [] && w[|w| - 1] == n {
      var rest := w[..|w| - 1];
      SumWithout(front, rest, i);
      SumOfPrefix(amounts, n, rest);
    } else {
      assert forall k :: 0 <= k < |w| ==> w[k] <= w[|w| - 1];
      SumOfPrefix(amounts, n, w);
      if i < n {
        SumWithout(front, w, i);
      } else {
        SumAtMost(front, w);
      }
    }
  }

  lemma {:induction false} SumAtMost(amounts: seq<int>, w: seq<nat>)
    requires (forall k :: 0 <= k < |amounts| ==> amounts[k] >= 0) && Increasing(w, |amounts|)
    ensures SubsetSum.Sum(amounts, w) <= Total(amounts)
    decreases |amounts|
  {
    if amounts != [] {
      var n := |amounts| - 1;
      if w != [] && w[|w| - 1] == n {
        SumAtMost(amounts[..n], w[..|w| - 1]);
        SumOfPrefix(amounts, n, w[..|w| - 1]);
      } else {
        assert forall k :: 0 <= k < |w| ==> w[k] <= w[|w| - 1];
        SumAtMost(amounts[..n], w);
        SumOfPrefix(amounts, n, w);
      }
    }
  }

  lemma {:induction false} SomethingLeftOut(w: seq<nat>, n: nat) returns (i: nat)
    requires Increasing(w, n) && w != Positions(n)
    ensures i < n && i !in w
    decreases n
  {
    if w != [] && w[|w| - 1] == n - 1 {
      var rest := w[..|w| - 1];
      assert rest == Positions(n - 1) ==> w == Positions(n);
      i := SomethingLeftOut(rest, n - 1);
    } else {
      assert forall k :: 0 <= k < |w| ==> w[k] <= w[|w| - 1];
      assert w == [] ==> n > 0;
      i := n - 1;
    }
  }

  /** A whole set that fits is the only fitting choice exactly when it has two members or no member
      can be dropped without falling out of the window. The code does not check this. */
  lemma WholeSetUniqueIff(amounts: seq<int>, low: int, high: int, max: nat)
    requires forall k :: 0 <= k < |amounts| ==> amounts[k] >= 0
    requires WholeSettles(amounts, low, high, max)
    ensures (forall w :: !AnotherFits(amounts, low, high, max, w))
            <==> |amounts| == 2 || forall i :: 0 <= i < |amounts| ==> Total(amounts) - amounts[i] < low
  {
    hide SubsetSum.Sum, Total;
    if w :| AnotherFits(amounts, low, high, max, w) {
      var i := SomethingLeftOut(w, |amounts|);
      SumWithout(amounts, w, i);
      ShorterThan(w, |amounts|, i);
    }
    if i :| 0 <= i < |amounts| && Total(amounts) - amounts[i] >= low && |amounts| > 2 {
      SumAllBut(amounts, i);
      assert AnotherFits(amounts, low, high, max, AllBut(|amounts|, i));
    }
  }

  lemma {:induction false} ShorterThan(w: seq<nat>, n: nat, i: nat)
    requires Increasing(w, n) && i < n && i !in w
    ensures |w| < n
    decreases n
  {
    if w != [] && w[|w| - 1] == n - 1 {
      ShorterThan(w[..|w| - 1], n - 1, i);
    } else if w != [] {
      assert forall k :: 0 <= k < |w| ==> w[k] <= w[|w| - 1];
      AtMost(w, n - 1);
    }
  }

  lemma {:induction false} AtMost(w: seq<nat>, n: nat)
    requires Increasing(w, n)
    ensures |w| <= n
    decreases n
  {
    if w != [] {
      AtMost(w[..|w| - 1], w[|w| - 1]);
    }
  }

  /** In particular when every amount is larger than the width of the window. */
  lemma WideAmountsAreUnique(amounts: seq<int>, low: int, high: int, max: nat, w: seq<nat>)
    requires forall k :: 0 <= k < |amounts| ==> amounts[k] >= 0 && amounts[k] > high - low
    requires WholeSettles(amounts, low, high, max)
    ensures !AnotherFits(amounts, low, high, max, w)
  {
    hide AnotherFits;
    WholeSetUniqueIff(amounts, low, high, max);
  }
}
