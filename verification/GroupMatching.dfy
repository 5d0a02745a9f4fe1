/** Split and netted matching (src/recon/matching/strategies/group.py): which linked candidates a
    transaction has, which of them settle it, and what the two passes record. */
module GroupMatching {
  import opened Ledger
  import opened Repository
  import opened References
  import opened FxConvert
  import SubsetSum

  type Txns = map<TxnId, Txn>
  type Rejections = set<(TxnId, TxnId)>

  type Percent = p: real | p > 0.0 witness 1.5

  datatype Config = Config(
    maxSplit: nat,
    maxNetted: nat,
    maxSearch: nat,
    maxStates: nat,
    dateWindow: int,
    toleranceMinor: int,
    fxTolerance: Percent,
    partyPrefix: nat,
    minStem: nat)

  function MaxMembers(config: Config, kind: MatchKind): nat {
    if kind == Split then config.maxSplit else config.maxNetted
  }

  function SinglesOf(kind: MatchKind, internals: seq<TxnId>, externals: seq<TxnId>): seq<TxnId> {
    if kind == Split then internals else externals
  }

  function PoolOf(kind: MatchKind, internals: seq<TxnId>, externals: seq<TxnId>): seq<TxnId> {
    if kind == Split then externals else internals
  }

  // ------------------------------------------------------------------- candidates

  /** What links two transactions, strongest first. */
  datatype Link = Stem | Party

  function LinkKeys(config: Config, txn: Txn, link: Link): set<string> {
    match link
    case Stem => StemKeys(txn.originalReference, config.minStem)
    case Party =>
      var key := Prefix(txn.counterparty, config.partyPrefix);
      if key == "" then {} else {key}
  }

  /** _is_rejected. */
  predicate Barred(txns: Txns, rejected: Rejections, single: TxnId, t: TxnId)
    requires single in txns
  {
    if txns[single].source == Internal then (single, t) in rejected else (t, single) in rejected
  }

  predicate Candidate(config: Config, txns: Txns, rejected: Rejections, link: Link, consumed: set<TxnId>,
                      single: TxnId, t: TxnId) {
    && single in txns && t in txns
    && LinkKeys(config, txns[single], link) * LinkKeys(config, txns[t], link) != {}
    && t !in consumed
    && !Barred(txns, rejected, single, t)
    && txns[t].direction == txns[single].direction
    && DaysBetween(txns[t], txns[single]) <= config.dateWindow
  }

  /** Ordering by (date, id) is the pool order with the line numbers left out. */
  function WithoutLines(txns: Txns): Txns {
    map t | t in txns :: txns[t].(lineNo := 0)
  }

  ghost function CandidateSet(config: Config, txns: Txns, rejected: Rejections, link: Link, consumed: set<TxnId>,
                              pool: seq<TxnId>, single: TxnId): set<TxnId> {
    set t | t in pool && Candidate(config, txns, rejected, link, consumed, single, t)
  }

  ghost function CandidateList(config: Config, txns: Txns, rejected: Rejections, link: Link, consumed: set<TxnId>,
                               pool: seq<TxnId>, single: TxnId): (ids: seq<TxnId>)
    ensures forall t :: t in ids <==> t in pool && Candidate(config, txns, rejected, link, consumed, single, t)
    ensures forall t :: t in ids ==> t in txns && single in txns
  {
    Listing(WithoutLines(txns), CandidateSet(config, txns, rejected, link, consumed, pool, single))
  }

  // ------------------------------------------------------------------- what settles a transaction

  datatype Legs = MissingRate | NoWindow | Legs(target: int, amounts: seq<int>, low: int, high: int)

  predicate OneCurrency(txns: Txns, single: TxnId, candidates: seq<TxnId>)
    requires single in txns && forall t :: t in candidates ==> t in txns
  {
    forall t :: t in candidates ==> txns[t].currency == txns[single].currency
  }

  /** _legs: the amounts in one comparison currency and the window their sum must fall into. */
  function LegsOf(config: Config, quotes: Quotes, txns: Txns, single: TxnId, candidates: seq<TxnId>): (legs: Legs)
    requires single in txns && forall t :: t in candidates ==> t in txns
    ensures legs.Legs? ==> |legs.amounts| == |candidates|
  {
    if OneCurrency(txns, single, candidates) then
      var target := txns[single].amount;
      Legs(target, seq(|candidates|, k requires 0 <= k < |candidates| => txns[candidates[k]].amount),
           target - config.toleranceMinor, target + config.toleranceMinor)
    else if LegInr(quotes, txns[single]) == None || exists t :: t in candidates && LegInr(quotes, txns[t]) == None then
      MissingRate
    else
      var target := LegInr(quotes, txns[single]).value;
      match Window(target, config.fxTolerance)
      case None => NoWindow
      case Some(window) =>
        Legs(target,
             seq(|candidates|, k requires 0 <= k < |candidates| => LegInr(quotes, txns[candidates[k]]).value),
             window.0, window.1)
  }

  function Total(amounts: seq<int>): int {
    if amounts == [] then 0 else Total(amounts[..|amounts| - 1]) + amounts[|amounts| - 1]
  }

  /** The outcome of one attempt; Raises stands for the exceptions of the search and the division. */
  datatype Fitting = Chosen(members: seq<TxnId>) | NoFit | Ambiguous | TooComplex | MissingFx | Raises

  function Select(ids: seq<TxnId>, w: seq<nat>): (r: seq<TxnId>)
    requires forall k :: 0 <= k < |w| ==> w[k] < |ids|
    ensures |r| == |w| && forall k :: 0 <= k < |w| ==> r[k] == ids[w[k]]
  {
    seq(|w|, k requires 0 <= k < |w| => ids[w[k]])
  }

  /** The whole linked set settles the transaction in full. */
  predicate WholeSettles(amounts: seq<int>, low: int, high: int, max: nat) {
    2 <= |amounts| <= max && low <= Total(amounts) <= high
  }

  ghost function SearchFor(amounts: seq<int>, low: int, high: int, max: nat, maxStates: nat,
                           candidates: seq<TxnId>): Fitting
    requires |amounts| == |candidates|
  {
    if low > high || max < 2 then Raises
    else if SubsetSum.ReachesMoreThan(amounts, high, max, maxStates) then TooComplex
    else if SubsetSum.NoneFit(amounts, low, high, 2, max) then NoFit
    else if exists w :: SubsetSum.OnlyFit(amounts, low, high, 2, max, w) then
      var w :| SubsetSum.OnlyFit(amounts, low, high, 2, max, w);
      SubsetSum.IndexSetMeans(amounts, |amounts|, w);
      Chosen(Select(candidates, w))
    else Ambiguous
  }

  /** Which candidates _fit chooses, before it works out the details of the exchange. */
  ghost function Selection(config: Config, max: nat, quotes: Quotes, txns: Txns, single: TxnId,
                           candidates: seq<TxnId>): Fitting
    requires single in txns && forall t :: t in candidates ==> t in txns
  {
    match LegsOf(config, quotes, txns, single, candidates)
    case MissingRate => MissingFx
    case NoWindow => Raises
    case Legs(_, amounts, low, high) =>
      if WholeSettles(amounts, low, high, max) then Chosen(candidates)
      else if |candidates| > config.maxSearch then TooComplex
      else SearchFor(amounts, low, high, max, config.maxStates, candidates)
  }

  predicate InRupees(txns: Txns, ids: seq<TxnId>) {
    forall t :: t in ids ==> t in txns && txns[t].currency == "INR"
  }

  /** _fx_details takes the first foreign leg of the group; a group in rupees chosen out of candidates in
      several currencies has none, and the look-up raises IndexError. */
  predicate DetailsFail(txns: Txns, single: TxnId, candidates: seq<TxnId>, members: seq<TxnId>)
    requires single in txns && forall t :: t in candidates ==> t in txns
  {
    !OneCurrency(txns, single, candidates) && InRupees(txns, [single] + members)
  }

  /** _fit. */
  ghost function Fit(config: Config, max: nat, quotes: Quotes, txns: Txns, single: TxnId,
                     candidates: seq<TxnId>): Fitting
    requires single in txns && forall t :: t in candidates ==> t in txns
  {
    var f := Selection(config, max, quotes, txns, single, candidates);
    if f.Chosen? && DetailsFail(txns, single, candidates, f.members) then Raises else f
  }

  // ------------------------------------------------------------------- the two passes

  datatype Grouped = Grouped(kind: MatchKind, single: TxnId, members: seq<TxnId>)

  datatype Counts = Counts(split: nat, netted: nat, ambiguous: nat, tooComplex: nat, missingFx: nat, conflicts: nat)

  datatype Progress = Progress(groups: seq<Grouped>, counts: Counts, raised: bool)

  const BEGIN := Progress([], Counts(0, 0, 0, 0, 0, 0), false)

  function Consumed(groups: seq<Grouped>): set<TxnId> {
    if groups == [] then {}
    else
      var last := groups[|groups| - 1];
      Consumed(groups[..|groups| - 1]) + {last.single} + ToSet(last.members)
  }

  function Note(p: Progress, f: Fitting): (noted: Progress)
    ensures noted.groups == p.groups && (noted.raised <==> p.raised || f == Raises)
    ensures var was, now := p.counts, noted.counts;
            && now.split == was.split && now.netted == was.netted && now.conflicts == was.conflicts
            && now.ambiguous == was.ambiguous + (if f == Ambiguous then 1 else 0)
            && now.tooComplex == was.tooComplex + (if f == TooComplex then 1 else 0)
            && now.missingFx == was.missingFx + (if f == MissingFx then 1 else 0)
  {
    match f
    case Ambiguous => p.(counts := p.counts.(ambiguous := p.counts.ambiguous + 1))
    case TooComplex => p.(counts := p.counts.(tooComplex := p.counts.tooComplex + 1))
    case MissingFx => p.(counts := p.counts.(missingFx := p.counts.missingFx + 1))
    case Raises => p.(raised := true)
    case _ => p
  }

  /** _record: claimed all at once or not at all. */
  function Settle(p: Progress, kind: MatchKind, single: TxnId, members: seq<TxnId>, claimed: set<TxnId>): Progress {
    if single in claimed || exists m :: m in members && m in claimed then
      p.(counts := p.counts.(conflicts := p.counts.conflicts + 1))
    else Recorded(p, kind, single, members)
  }

  function Recorded(p: Progress, kind: MatchKind, single: TxnId, members: seq<TxnId>): Progress {
    p.(groups := p.groups + [Grouped(kind, single, members)],
       counts := if kind == Split then p.counts.(split := p.counts.split + 1)
                 else p.counts.(netted := p.counts.netted + 1))
  }

  /** One link tried for one single transaction. */
  ghost function Attempt(config: Config, quotes: Quotes, txns: Txns, rejected: Rejections, link: Link,
                         kind: MatchKind, pool: seq<TxnId>, consumed: set<TxnId>, single: TxnId): Fitting {
    var candidates := CandidateList(config, txns, rejected, link, consumed, pool, single);
    if |candidates| < 2 then NoFit
    else
      assert candidates[0] in candidates;
      Fit(config, MaxMembers(config, kind), quotes, txns, single, candidates)
  }

  /** One single transaction: by reference stem, and failing that by counterparty. */
  ghost function Turn(config: Config, quotes: Quotes, txns: Txns, rejected: Rejections, claimed: set<TxnId>,
                      kind: MatchKind, pool: seq<TxnId>, p: Progress, single: TxnId): Progress {
    if p.raised || single in Consumed(p.groups) then p
    else
      var byStem := Attempt(config, quotes, txns, rejected, Stem, kind, pool, Consumed(p.groups), single);
      if byStem.Chosen? then Settle(p, kind, single, byStem.members, claimed)
      else if byStem.Raises? then Note(p, byStem)
      else
        var byParty := Attempt(config, quotes, txns, rejected, Party, kind, pool, Consumed(p.groups), single);
        if byParty.Chosen? then Settle(Note(p, byStem), kind, single, byParty.members, claimed)
        else Note(Note(p, byStem), byParty)
  }

  ghost function Pass(config: Config, quotes: Quotes, txns: Txns, rejected: Rejections, claimed: set<TxnId>,
                      kind: MatchKind, singles: seq<TxnId>, pool: seq<TxnId>, p: Progress): Progress {
    if singles == [] then p
    else
      Turn(config, quotes, txns, rejected, claimed, kind, pool,
           Pass(config, quotes, txns, rejected, claimed, kind, singles[..|singles| - 1], pool, p),
           singles[|singles| - 1])
  }

  ghost function TwoPasses(config: Config, quotes: Quotes, txns: Txns, rejected: Rejections, claimed: set<TxnId>,
                           internals: seq<TxnId>, externals: seq<TxnId>): Progress {
    Pass(config, quotes, txns, rejected, claimed, Netted, externals, internals,
         Pass(config, quotes, txns, rejected, claimed, Split, internals, externals, BEGIN))
  }

  // ------------------------------------------------------------------- what an attempt chooses

  lemma CandidatesDistinct(config: Config, txns: Txns, rejected: Rejections, link: Link, consumed: set<TxnId>,
                           pool: seq<TxnId>, single: TxnId)
    ensures Distinct(CandidateList(config, txns, rejected, link, consumed, pool, single))
  {
    var wanted := CandidateSet(config, txns, rejected, link, consumed, pool, single);
    var ids := CandidateList(config, txns, rejected, link, consumed, pool, single);
    assert Lists(WithoutLines(txns), wanted, ids);
    forall a, b | 0 <= a < b < |ids| ensures ids[a] != ids[b] {
      assert Before(WithoutLines(txns), ids[a], ids[b]);
    }
  }

  lemma SelectDistinct(amounts: seq<int>, ids: seq<TxnId>, w: seq<nat>)
    requires Distinct(ids) && |amounts| == |ids| && SubsetSum.IndexSet(amounts, |ids|, w)
    ensures forall k :: 0 <= k < |w| ==> w[k] < |ids|
    ensures Distinct(Select(ids, w)) && (forall m :: m in Select(ids, w) ==> m in ids)
  {
    SubsetSum.IndexSetMeans(amounts, |ids|, w);
    hide SubsetSum.IndexSet;
  }

  /** What is selected: at least two and at most max of the candidates, each once. */
  lemma SelectionChooses(config: Config, max: nat, quotes: Quotes, txns: Txns, single: TxnId, candidates: seq<TxnId>)
    requires single in txns && (forall t :: t in candidates ==> t in txns) && Distinct(candidates)
    ensures var f := Selection(config, max, quotes, txns, single, candidates);
            f.Chosen? ==>
              2 <= |f.members| <= max && Distinct(f.members) && forall m :: m in f.members ==> m in candidates
  {
    var f := Selection(config, max, quotes, txns, single, candidates);
    var legs := LegsOf(config, quotes, txns, single, candidates);
    if f.Chosen? && !WholeSettles(legs.amounts, legs.low, legs.high, max) {
      hide LegsOf, SubsetSum.ReachesMoreThan;
      var w :| SubsetSum.OnlyFit(legs.amounts, legs.low, legs.high, 2, max, w);
      SelectDistinct(legs.amounts, candidates, w);
      assert f == Chosen(Select(candidates, w));
    }
  }

  /** What an attempt chooses are linked, unused candidates from the pool. */
  lemma AttemptChooses(config: Config, quotes: Quotes, txns: Txns, rejected: Rejections, link: Link,
                       kind: MatchKind, pool: seq<TxnId>, consumed: set<TxnId>, single: TxnId)
    ensures var f := Attempt(config, quotes, txns, rejected, link, kind, pool, consumed, single);
            f.Chosen? ==>
              && 2 <= |f.members| <= MaxMembers(config, kind) && Distinct(f.members)
              && forall m :: m in f.members ==>
                   m in pool && Candidate(config, txns, rejected, link, consumed, single, m)
  {
    hide Selection, DetailsFail, Candidate, CandidateSet, Listing;
    var candidates := CandidateList(config, txns, rejected, link, consumed, pool, single);
    if |candidates| >= 2 {
      assert candidates[0] in candidates;
      CandidatesDistinct(config, txns, rejected, link, consumed, pool, single);
      SelectionChooses(config, MaxMembers(config, kind), quotes, txns, single, candidates);
    }
  }
}
