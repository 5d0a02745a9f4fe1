/** The bounded subset-sum search behind split and netted groups
    (src/recon/matching/subset_sum.py).

    An index set is written as a strictly increasing sequence of positions, so two index sets
    are equal exactly when the sequences are. The search keeps a table from (size, total) to a
    capped count and one witness; `Describes` says what such a table means for a family of index
    sets, and the loops of `FindUniqueSubset` grow that family until it holds every index set. */
module SubsetSum {

  const CAP := 2
  const DEFAULT_MAX_STATES := 200_000

  datatype Outcome = Unique | NoGroup | Ambiguous | TooComplex

  datatype Search = Search(outcome: Outcome, indices: seq<nat>, total: int)

  /** The source raises ValueError for the last two. */
  datatype Answer = Answer(search: Search) | WindowReversed | BadSizes

  datatype Key = Key(size: nat, total: int)

  datatype Entry = Entry(ways: nat, chosen: seq<nat>)

  type Table = map<Key, Entry>

  // ---------------------------------------------------------------- index sets

  function At(amounts: seq<int>, i: nat): int {
    if i < |amounts| then amounts[i] else 0
  }

  lemma AtIsIndexing(amounts: seq<int>)
    ensures forall i :: 0 <= i < |amounts| ==> At(amounts, i) == amounts[i]
  {
  }

  function Sum(amounts: seq<int>, w: seq<nat>): int {
    if w == [] then 0 else Sum(amounts, w[..|w| - 1]) + At(amounts, w[|w| - 1])
  }

  function KeyOf(amounts: seq<int>, w: seq<nat>): Key {
    Key(|w|, Sum(amounts, w))
  }

  /** A non-empty set of positions below n, all holding positive amounts. */
  ghost predicate IndexSet(amounts: seq<int>, n: nat, w: seq<nat>) {
    && |w| >= 1
    && w[|w| - 1] < n && At(amounts, w[|w| - 1]) > 0
    && (|w| > 1 ==> IndexSet(amounts, w[|w| - 1], w[..|w| - 1]))
  }

  /** The same said position by position. */
  lemma {:induction false} IndexSetMeans(amounts: seq<int>, n: nat, w: seq<nat>)
    ensures IndexSet(amounts, n, w) <==>
            && |w| >= 1
            && (forall a, b :: 0 <= a < b < |w| ==> w[a] < w[b])
            && (forall a :: 0 <= a < |w| ==> w[a] < n && At(amounts, w[a]) > 0)
    decreases w
  {
    if |w| > 1 {
      var last, front := w[|w| - 1], w[..|w| - 1];
      IndexSetMeans(amounts, last, front);
      assert forall a :: 0 <= a < |front| ==> front[a] == w[a];
    }
  }

  lemma {:induction false} IndexSetGrows(amounts: seq<int>, n: nat, m: nat, w: seq<nat>)
    requires n <= m && IndexSet(amounts, n, w)
    ensures IndexSet(amounts, m, w)
  {
  }

  /** What the search is asked for: a set of the allowed size summing into the window. */
  ghost predicate Fits(amounts: seq<int>, low: int, high: int, minSize: int, maxSize: int, w: seq<nat>) {
    && IndexSet(amounts, |amounts|, w)
    && minSize <= |w| <= maxSize
    && low <= Sum(amounts, w) <= high
  }

  ghost predicate NoneFit(amounts: seq<int>, low: int, high: int, minSize: int, maxSize: int) {
    forall w :: !Fits(amounts, low, high, minSize, maxSize, w)
  }

  ghost predicate OnlyFit(amounts: seq<int>, low: int, high: int, minSize: int, maxSize: int, w: seq<nat>) {
    && Fits(amounts, low, high, minSize, maxSize, w)
    && (forall v :: Fits(amounts, low, high, minSize, maxSize, v) ==> v == w)
  }

  ghost predicate SeveralFit(amounts: seq<int>, low: int, high: int, minSize: int, maxSize: int) {
    exists v, w :: v != w
                   && Fits(amounts, low, high, minSize, maxSize, v)
                   && Fits(amounts, low, high, minSize, maxSize, w)
  }

  lemma {:induction false} SumOfPositiveIsPositive(amounts: seq<int>, n: nat, w: seq<nat>)
    requires IndexSet(amounts, n, w)
    ensures Sum(amounts, w) >= At(amounts, w[|w| - 1]) > 0
    ensures |w| > 1 ==> IndexSet(amounts, w[|w| - 1], w[..|w| - 1])
  {
    if |w| > 1 {
      SumOfPositiveIsPositive(amounts, w[|w| - 1], w[..|w| - 1]);
    }
  }

  lemma SumOfOne(amounts: seq<int>, n: nat)
    ensures Sum(amounts, [n]) == At(amounts, n)
  {
    assert [n][..0] == [];
  }

  lemma {:induction false} SizeIsBounded(amounts: seq<int>, n: nat, w: seq<nat>)
    requires IndexSet(amounts, n, w)
    ensures |w| <= n
  {
    if |w| > 1 {
      SizeIsBounded(amounts, w[|w| - 1], w[..|w| - 1]);
    }
  }

  // ------------------------------------------------- what a table says of a family

  ghost predicate InBounds(high: int, maxSize: int, k: Key) {
    1 <= k.size <= maxSize && k.total <= high
  }

  ghost predicate Tally(amounts: seq<int>, family: iset<seq<nat>>, k: Key, e: Entry) {
    && e.chosen in family && KeyOf(amounts, e.chosen) == k
    && (e.ways == 1 || e.ways == CAP)
    && (e.ways == 1 ==> forall w :: w in family && KeyOf(amounts, w) == k ==> w == e.chosen)
    && (e.ways == CAP ==> exists w :: w in family && KeyOf(amounts, w) == k && w != e.chosen)
  }

  /** Every in-bounds (size, total) reached by the family has an entry, and an entry counts the
      sets that reach it: exactly one, or at least two. */
  ghost predicate Describes(amounts: seq<int>, high: int, maxSize: int, table: Table, family: iset<seq<nat>>) {
    && (forall k :: k in table ==> InBounds(high, maxSize, k) && Tally(amounts, family, k, table[k]))
    && (forall w :: w in family && InBounds(high, maxSize, KeyOf(amounts, w)) ==> KeyOf(amounts, w) in table)
  }

  function Merge(table: Table, key: Key, ways: nat, chosen: seq<nat>): Table {
    if key !in table then table[key := Entry(if ways < CAP then ways else CAP, chosen)]
    else
      var sum := table[key].ways + ways;
      table[key := Entry(if sum < CAP then sum else CAP, table[key].chosen)]
  }

  lemma BoundsMean(high: int, maxSize: int, k: Key, next: Key)
    requires InBounds(high, maxSize, k) && next.size == k.size + 1
    ensures InBounds(high, maxSize, next) <==> k.size < maxSize && next.total <= high
  {
  }

  lemma EntryTallies(amounts: seq<int>, high: int, maxSize: int, table: Table, family: iset<seq<nat>>, k: Key)
    requires Describes(amounts, high, maxSize, table, family) && k in table
    ensures InBounds(high, maxSize, k) && Tally(amounts, family, k, table[k])
  {
  }

  /** Adding a family whose sets all reach one key, counted by one entry, is one merge. */
  lemma MergeDescribes(amounts: seq<int>, high: int, maxSize: int, table: Table, family: iset<seq<nat>>,
                       extra: iset<seq<nat>>, key: Key, e: Entry)
    requires Describes(amounts, high, maxSize, table, family)
    requires InBounds(high, maxSize, key) && Tally(amounts, extra, key, e)
    requires forall w :: w in extra ==> w !in family && KeyOf(amounts, w) == key
    ensures Describes(amounts, high, maxSize, Merge(table, key, e.ways, e.chosen), family + extra)
  {
    var merged := Merge(table, key, e.ways, e.chosen);
    var both := family + extra;
    forall k | k in merged ensures InBounds(high, maxSize, k) && Tally(amounts, both, k, merged[k]) {
      if k != key {
        assert Tally(amounts, family, k, table[k]);
      } else if key in table {
        assert Tally(amounts, family, key, table[key]);
        assert e.chosen in both && e.chosen != table[key].chosen;
      } else {
        assert forall w :: w in family ==> KeyOf(amounts, w) != key;
      }
    }
  }

  /** Sets outside the bounds never show up in a table. */
  lemma OutOfBoundsDescribes(amounts: seq<int>, high: int, maxSize: int, table: Table,
                             family: iset<seq<nat>>, extra: iset<seq<nat>>)
    requires Describes(amounts, high, maxSize, table, family)
    requires forall w :: w in extra ==> !InBounds(high, maxSize, KeyOf(amounts, w))
    ensures Describes(amounts, high, maxSize, table, family + extra)
  {
    forall k | k in table ensures Tally(amounts, family + extra, k, table[k]) {
      assert Tally(amounts, family, k, table[k]);
    }
  }

  // ------------------------------------------------------- the families of the loops

  /** Every index set below n. */
  ghost function Below(amounts: seq<int>, n: nat): iset<seq<nat>> {
    iset w: seq<nat> | IndexSet(amounts, n, w)
  }

  /** The index sets whose last position is n and whose earlier positions reach a key in `done`. */
  ghost function Extending(amounts: seq<int>, n: nat, done: set<Key>): iset<seq<nat>> {
    iset w: seq<nat> | IndexSet(amounts, n + 1, w) && |w| > 1 && w[|w| - 1] == n
                       && KeyOf(amounts, w[..|w| - 1]) in done
  }

  /** The index sets of `family` that reach a key in `done`. */
  ghost function Reaching(amounts: seq<int>, family: iset<seq<nat>>, done: set<Key>): iset<seq<nat>> {
    iset w | w in family && KeyOf(amounts, w) in done
  }

  lemma AppendPosition(amounts: seq<int>, n: nat, w: seq<nat>)
    requires IndexSet(amounts, n, w) && At(amounts, n) > 0
    ensures IndexSet(amounts, n + 1, w + [n]) && (w + [n])[..|w|] == w
    ensures KeyOf(amounts, w + [n]) == Key(|w| + 1, Sum(amounts, w) + At(amounts, n))
  {
    assert (w + [n])[..|w|] == w;
  }

  /** Appending position n to the sets of one key carries the count over. */
  lemma ExtendTally(amounts: seq<int>, n: nat, k: Key, e: Entry)
    requires Tally(amounts, Below(amounts, n), k, e) && At(amounts, n) > 0
    ensures Tally(amounts, Extending(amounts, n, {k}), Key(k.size + 1, k.total + At(amounts, n)),
                  Entry(e.ways, e.chosen + [n]))
  {
    var key := Key(k.size + 1, k.total + At(amounts, n));
    var ext := Extending(amounts, n, {k});
    AppendPosition(amounts, n, e.chosen);
    if e.ways == 1 {
      forall v | v in ext && KeyOf(amounts, v) == key ensures v == e.chosen + [n] {
        var front := v[..|v| - 1];
        assert IndexSet(amounts, n, front);
        assert v == front + [n];
      }
    } else {
      var w :| w in Below(amounts, n) && KeyOf(amounts, w) == k && w != e.chosen;
      AppendPosition(amounts, n, w);
      assert w + [n] in ext && KeyOf(amounts, w + [n]) == key;
      assert w + [n] != e.chosen + [n] by {
        assert (w + [n])[..|w|] == w && (e.chosen + [n])[..|e.chosen|] == e.chosen;
      }
    }
  }

  lemma ExtendingSplits(amounts: seq<int>, n: nat, done: set<Key>, k: Key)
    requires k !in done
    ensures Extending(amounts, n, done + {k}) == Extending(amounts, n, done) + Extending(amounts, n, {k})
    ensures forall w :: w in Extending(amounts, n, {k}) ==>
              w !in Extending(amounts, n, done) && KeyOf(amounts, w) == Key(k.size + 1, k.total + At(amounts, n))
  {
  }

  lemma ExtendKept(amounts: seq<int>, high: int, maxSize: int, n: nat, k: Key, e: Entry,
                   additions: Table, done: set<Key>)
    requires Tally(amounts, Below(amounts, n), k, e) && At(amounts, n) > 0 && k !in done
    requires InBounds(high, maxSize, Key(k.size + 1, k.total + At(amounts, n)))
    requires Describes(amounts, high, maxSize, additions, Extending(amounts, n, done))
    ensures Describes(amounts, high, maxSize,
                      Merge(additions, Key(k.size + 1, k.total + At(amounts, n)), e.ways, e.chosen + [n]),
                      Extending(amounts, n, done + {k}))
  {
    hide *;
    ExtendingSplits(amounts, n, done, k);
    ExtendTally(amounts, n, k, e);
    MergeDescribes(amounts, high, maxSize, additions, Extending(amounts, n, done), Extending(amounts, n, {k}),
                   Key(k.size + 1, k.total + At(amounts, n)), Entry(e.ways, e.chosen + [n]));
  }

  lemma ExtendDropped(amounts: seq<int>, high: int, maxSize: int, n: nat, k: Key,
                      additions: Table, done: set<Key>)
    requires k !in done && !InBounds(high, maxSize, Key(k.size + 1, k.total + At(amounts, n)))
    requires Describes(amounts, high, maxSize, additions, Extending(amounts, n, done))
    ensures Describes(amounts, high, maxSize, additions, Extending(amounts, n, done + {k}))
  {
    hide *;
    ExtendingSplits(amounts, n, done, k);
    OutOfBoundsDescribes(amounts, high, maxSize, additions, Extending(amounts, n, done),
                         Extending(amounts, n, {k}));
  }

  /** The sets ending in n: the singleton, and n appended to a set below n. */
  ghost function Ending(amounts: seq<int>, n: nat): iset<seq<nat>> {
    iset w: seq<nat> | IndexSet(amounts, n + 1, w) && w[|w| - 1] == n
  }

  /** After the inner loop and the singleton, the additions describe every set ending in n. */
  lemma AdditionsDescribe(amounts: seq<int>, high: int, maxSize: int, n: nat, states: Table, additions: Table)
    requires Describes(amounts, high, maxSize, states, Below(amounts, n))
    requires 0 < At(amounts, n) <= high && maxSize >= 1
    requires Describes(amounts, high, maxSize, additions, Extending(amounts, n, states.Keys))
    ensures Describes(amounts, high, maxSize, Merge(additions, Key(1, At(amounts, n)), 1, [n]),
                      Ending(amounts, n))
  {
    var longer := Extending(amounts, n, states.Keys);
    var single := iset w: seq<nat> | |w| == 1 && w[0] == n;
    var key := Key(1, At(amounts, n));
    SumOfOne(amounts, n);
    assert Tally(amounts, single, key, Entry(1, [n]));
    MergeDescribes(amounts, high, maxSize, additions, longer, single, key, Entry(1, [n]));
    var rest := Ending(amounts, n) - (longer + single);
    forall w | w in rest ensures !InBounds(high, maxSize, KeyOf(amounts, w)) {
      assert w[..|w| - 1] in Below(amounts, n);
    }
    OutOfBoundsDescribes(amounts, high, maxSize, Merge(additions, key, 1, [n]), longer + single, rest);
    assert longer + single + rest == Ending(amounts, n);
  }

  /** One round of the loop that merges the additions into the states. */
  lemma AbsorbDescribes(amounts: seq<int>, high: int, maxSize: int, n: nat, table: Table, additions: Table,
                        k: Key, done: set<Key>)
    requires Describes(amounts, high, maxSize, additions, Ending(amounts, n))
    requires k in additions && k !in done
    requires Describes(amounts, high, maxSize, table,
                       Below(amounts, n) + Reaching(amounts, Ending(amounts, n), done))
    ensures Describes(amounts, high, maxSize, Merge(table, k, additions[k].ways, additions[k].chosen),
                      Below(amounts, n) + Reaching(amounts, Ending(amounts, n), done + {k}))
  {
    var ending := Ending(amounts, n);
    var before, extra := Below(amounts, n) + Reaching(amounts, ending, done), Reaching(amounts, ending, {k});
    assert Tally(amounts, ending, k, additions[k]);
    assert Tally(amounts, extra, k, additions[k]);
    MergeDescribes(amounts, high, maxSize, table, before, extra, k, additions[k]);
    assert before + extra == Below(amounts, n) + Reaching(amounts, ending, done + {k});
  }

  lemma AbsorbedDescribes(amounts: seq<int>, high: int, maxSize: int, n: nat, table: Table, additions: Table)
    requires Describes(amounts, high, maxSize, additions, Ending(amounts, n))
    requires Describes(amounts, high, maxSize, table,
                       Below(amounts, n) + Reaching(amounts, Ending(amounts, n), additions.Keys))
    ensures Describes(amounts, high, maxSize, table, Below(amounts, n + 1))
  {
    var ending := Ending(amounts, n);
    var have := Below(amounts, n) + Reaching(amounts, ending, additions.Keys);
    var rest := ending - Reaching(amounts, ending, additions.Keys);
    OutOfBoundsDescribes(amounts, high, maxSize, table, have, rest);
    assert have + rest == Below(amounts, n + 1);
  }

  /** A non-positive or too large amount takes part in no set worth keeping. */
  lemma SkippedDescribes(amounts: seq<int>, high: int, maxSize: int, n: nat, states: Table)
    requires Describes(amounts, high, maxSize, states, Below(amounts, n))
    requires At(amounts, n) <= 0 || At(amounts, n) > high
    ensures Describes(amounts, high, maxSize, states, Below(amounts, n + 1))
  {
    var rest := Below(amounts, n + 1) - Below(amounts, n);
    forall w | w in rest ensures !InBounds(high, maxSize, KeyOf(amounts, w)) {
      assert w[|w| - 1] == n;
      SumOfPositiveIsPositive(amounts, n + 1, w);
    }
    OutOfBoundsDescribes(amounts, high, maxSize, states, Below(amounts, n), rest);
    assert Below(amounts, n) + rest == Below(amounts, n + 1);
  }

  /** The empty table describes the families the loops start from. */
  lemma NothingDescribed(amounts: seq<int>, high: int, maxSize: int, n: nat)
    ensures Describes(amounts, high, maxSize, map[], Below(amounts, 0))
    ensures Describes(amounts, high, maxSize, map[], Extending(amounts, n, {}))
    ensures Below(amounts, n) + Reaching(amounts, Ending(amounts, n), {}) == Below(amounts, n)
  {
  }

  // ------------------------------------------------------ how large the table can get

  /** The (size, total) pairs within the bounds reached by some index set. */
  ghost predicate Reached(amounts: seq<int>, high: int, maxSize: int, k: Key) {
    InBounds(high, maxSize, k) && exists w :: IndexSet(amounts, |amounts|, w) && KeyOf(amounts, w) == k
  }

  /** More than `limit` (size, total) pairs are reached, and at least one. */
  ghost predicate ReachesMoreThan(amounts: seq<int>, high: int, maxSize: int, limit: int) {
    exists keys: set<Key> :: |keys| > limit && keys != {}
                             && forall k :: k in keys ==> Reached(amounts, high, maxSize, k)
  }

  lemma LargeTableReaches(amounts: seq<int>, high: int, maxSize: int, n: nat, table: Table, limit: int)
    requires n < |amounts| && 0 < amounts[n] <= high && maxSize >= 1
    requires Describes(amounts, high, maxSize, table, Below(amounts, n + 1)) && |table| > limit
    ensures ReachesMoreThan(amounts, high, maxSize, limit)
  {
    forall k | k in table.Keys ensures Reached(amounts, high, maxSize, k) {
      assert Tally(amounts, Below(amounts, n + 1), k, table[k]);
      IndexSetGrows(amounts, n + 1, |amounts|, table[k].chosen);
    }
    assert |table.Keys| > limit;
    SumOfOne(amounts, n);
    assert [n] in Below(amounts, n + 1);
    assert KeyOf(amounts, [n]) in table;
  }

  lemma SmallTableReaches(amounts: seq<int>, high: int, maxSize: int, table: Table, limit: int)
    requires Describes(amounts, high, maxSize, table, Below(amounts, |amounts|))
    requires |table| <= limit || table == map[]
    ensures !ReachesMoreThan(amounts, high, maxSize, limit)
  {
    forall keys: set<Key> | forall k :: k in keys ==> Reached(amounts, high, maxSize, k)
      ensures |keys| <= limit || keys == {}
    {
      forall k | k in keys ensures k in table.Keys {
        var w :| IndexSet(amounts, |amounts|, w) && KeyOf(amounts, w) == k;
        assert w in Below(amounts, |amounts|);
      }
      SubsetIsSmaller(keys, table.Keys);
    }
  }

  lemma {:induction false} SubsetIsSmaller<T>(a: set<T>, b: set<T>)
    requires a <= b
    ensures |a| <= |b|
  {
    if a != {} {
      var x :| x in a;
      SubsetIsSmaller(a - {x}, b - {x});
    }
  }

  // ---------------------------------------------------------- reading off the answer

  /** What an answer of the search has to say of the index sets that fit. */
  ghost predicate Right(amounts: seq<int>, low: int, high: int, minSize: int, maxSize: int, s: Search) {
    && (s.outcome == NoGroup <==> NoneFit(amounts, low, high, minSize, maxSize))
    && (s.outcome == Unique <==> exists w :: OnlyFit(amounts, low, high, minSize, maxSize, w))
    && (s.outcome == Ambiguous <==> SeveralFit(amounts, low, high, minSize, maxSize))
    && (s.outcome == Unique ==> OnlyFit(amounts, low, high, minSize, maxSize, s.indices)
                                && s.total == Sum(amounts, s.indices))
  }

  function Hits(states: Table, low: int, high: int, minSize: int): set<Key> {
    set k | k in states && minSize <= k.size && low <= k.total <= high
  }

  lemma FittingIsHit(amounts: seq<int>, low: int, high: int, minSize: int, maxSize: int, states: Table, w: seq<nat>)
    requires Describes(amounts, high, maxSize, states, Below(amounts, |amounts|)) && minSize >= 1
    requires Fits(amounts, low, high, minSize, maxSize, w)
    ensures KeyOf(amounts, w) in Hits(states, low, high, minSize)
  {
    assert w in Below(amounts, |amounts|);
  }

  lemma HitFits(amounts: seq<int>, low: int, high: int, minSize: int, maxSize: int, states: Table, k: Key)
    requires Describes(amounts, high, maxSize, states, Below(amounts, |amounts|))
    requires k in Hits(states, low, high, minSize)
    ensures k in states && Fits(amounts, low, high, minSize, maxSize, states[k].chosen)
    ensures KeyOf(amounts, states[k].chosen) == k
    ensures states[k].ways == 1 || states[k].ways == CAP
    ensures states[k].ways == CAP ==> SeveralFit(amounts, low, high, minSize, maxSize)
    ensures states[k].ways == 1 ==>
              forall w :: Fits(amounts, low, high, minSize, maxSize, w) && KeyOf(amounts, w) == k ==>
                w == states[k].chosen
  {
    assert Tally(amounts, Below(amounts, |amounts|), k, states[k]);
    assert Fits(amounts, low, high, minSize, maxSize, states[k].chosen);
    if states[k].ways == CAP {
      var w :| w in Below(amounts, |amounts|) && KeyOf(amounts, w) == k && w != states[k].chosen;
      assert Fits(amounts, low, high, minSize, maxSize, w);
      assert SeveralFit(amounts, low, high, minSize, maxSize);
    } else {
      forall w | Fits(amounts, low, high, minSize, maxSize, w) && KeyOf(amounts, w) == k
        ensures w == states[k].chosen
      {
        assert w in Below(amounts, |amounts|);
      }
    }
  }

  lemma NoHits(amounts: seq<int>, low: int, high: int, minSize: int, maxSize: int, states: Table)
    requires Describes(amounts, high, maxSize, states, Below(amounts, |amounts|)) && minSize >= 1
    requires Hits(states, low, high, minSize) == {}
    ensures Right(amounts, low, high, minSize, maxSize, Search(NoGroup, [], 0))
  {
    forall w | Fits(amounts, low, high, minSize, maxSize, w) ensures false {
      FittingIsHit(amounts, low, high, minSize, maxSize, states, w);
    }
  }

  lemma SeveralHits(amounts: seq<int>, low: int, high: int, minSize: int, maxSize: int, states: Table, k: Key)
    requires Describes(amounts, high, maxSize, states, Below(amounts, |amounts|))
    requires k in Hits(states, low, high, minSize)
    requires |Hits(states, low, high, minSize)| > 1 || states[k].ways >= CAP
    ensures Right(amounts, low, high, minSize, maxSize, Search(Ambiguous, [], 0))
  {
    var hits := Hits(states, low, high, minSize);
    HitFits(amounts, low, high, minSize, maxSize, states, k);
    if states[k].ways == 1 {
      assert hits != {k};
      var j :| j in hits && j != k;
      HitFits(amounts, low, high, minSize, maxSize, states, j);
    }
  }

  lemma OneHit(amounts: seq<int>, low: int, high: int, minSize: int, maxSize: int, states: Table, k: Key)
    requires Describes(amounts, high, maxSize, states, Below(amounts, |amounts|)) && minSize >= 1
    requires k in Hits(states, low, high, minSize)
    requires |Hits(states, low, high, minSize)| <= 1 && states[k].ways < CAP
    ensures Right(amounts, low, high, minSize, maxSize, Search(Unique, states[k].chosen, k.total))
  {
    HitFits(amounts, low, high, minSize, maxSize, states, k);
    forall w | Fits(amounts, low, high, minSize, maxSize, w) ensures w == states[k].chosen {
      FittingIsHit(amounts, low, high, minSize, maxSize, states, w);
      SubsetIsSmaller({k, KeyOf(amounts, w)}, Hits(states, low, high, minSize));
    }
    assert OnlyFit(amounts, low, high, minSize, maxSize, states[k].chosen);
  }

  // ------------------------------------------------------------------- the search

  /** find_unique_subset. Reports how many index sets fit: none, exactly one (and which), or
      several; or TooComplex, exactly when more than maxStates (size, total) pairs are reached. */
  method FindUniqueSubset(amounts: seq<int>, low: int, high: int, minSize: int, maxSize: int, maxStates: int)
    returns (r: Answer)
    ensures r == WindowReversed <==> low > high
    ensures r == BadSizes <==> low <= high && (minSize < 1 || maxSize < minSize)
    ensures r.Answer? ==> (r.search.outcome == TooComplex <==> ReachesMoreThan(amounts, high, maxSize, maxStates))
    ensures r.Answer? && r.search.outcome != TooComplex ==> Right(amounts, low, high, minSize, maxSize, r.search)
  {
    hide *;
    AtIsIndexing(amounts);
    if low > high {
      return WindowReversed;
    }
    if minSize < 1 || maxSize < minSize {
      return BadSizes;
    }
    var states: Table := map[];
    NothingDescribed(amounts, high, maxSize, 0);
    for index := 0 to |amounts|
      invariant Describes(amounts, high, maxSize, states, Below(amounts, index))
      invariant |states| <= maxStates || states == map[]
    {
      var amount := amounts[index];
      if amount <= 0 || amount > high {
        SkippedDescribes(amounts, high, maxSize, index, states);
        continue;
      }
      var additions := ExtendAll(amounts, high, maxSize, index, states);
      additions := Merge(additions, Key(1, amount), 1, [index]);
      states := AbsorbAll(amounts, high, maxSize, index, states, additions);
      if |states| > maxStates {
        LargeTableReaches(amounts, high, maxSize, index, states, maxStates);
        return Answer(Search(TooComplex, [], 0));
      }
    }
    SmallTableReaches(amounts, high, maxSize, states, maxStates);

    var search := Conclude(amounts, low, high, minSize, maxSize, states);
    return Answer(search);
  }

  /** Reads the answer off a table that describes every index set. */
  method Conclude(amounts: seq<int>, low: int, high: int, minSize: int, maxSize: int, states: Table)
    returns (s: Search)
    requires 1 <= minSize <= maxSize
    requires Describes(amounts, high, maxSize, states, Below(amounts, |amounts|))
    ensures s.outcome != TooComplex && Right(amounts, low, high, minSize, maxSize, s)
  {
    hide *;
    var hits := Hits(states, low, high, minSize);
    if hits == {} {
      NoHits(amounts, low, high, minSize, maxSize, states);
      return Search(NoGroup, [], 0);
    }
    var k :| k in hits;
    HitFits(amounts, low, high, minSize, maxSize, states, k);
    if |hits| > 1 || states[k].ways >= CAP {
      SeveralHits(amounts, low, high, minSize, maxSize, states, k);
      return Search(Ambiguous, [], 0);
    }
    OneHit(amounts, low, high, minSize, maxSize, states, k);
    return Search(Unique, states[k].chosen, k.total);
  }

  /** The inner loop: position `index` appended to every set of the table. */
  method ExtendAll(amounts: seq<int>, high: int, maxSize: int, index: nat, states: Table)
    returns (additions: Table)
    requires index < |amounts| && 0 < amounts[index] <= high && maxSize >= 1
    requires Describes(amounts, high, maxSize, states, Below(amounts, index))
    ensures Describes(amounts, high, maxSize, Merge(additions, Key(1, amounts[index]), 1, [index]),
                      Ending(amounts, index))
  {
    hide *;
    AtIsIndexing(amounts);
    additions := map[];
    var todo := states.Keys;
    NothingDescribed(amounts, high, maxSize, index);
    ghost var done: set<Key> := {};
    while todo != {}
      invariant done !! todo && done + todo == states.Keys
      invariant Describes(amounts, high, maxSize, additions, Extending(amounts, index, done))
      decreases todo
    {
      var k :| k in todo;
      EntryTallies(amounts, high, maxSize, states, Below(amounts, index), k);
      var next := Key(k.size + 1, k.total + amounts[index]);
      BoundsMean(high, maxSize, k, next);
      if k.size < maxSize && next.total <= high {
        ExtendKept(amounts, high, maxSize, index, k, states[k], additions, done);
        additions := Merge(additions, next, states[k].ways, states[k].chosen + [index]);
      } else {
        ExtendDropped(amounts, high, maxSize, index, k, additions, done);
      }
      todo, done := todo - {k}, done + {k};
    }
    assert done == states.Keys;
    AdditionsDescribe(amounts, high, maxSize, index, states, additions);
  }

  /** The loop that merges the additions into the states. */
  method AbsorbAll(amounts: seq<int>, high: int, maxSize: int, index: nat, states: Table, additions: Table)
    returns (table: Table)
    requires Describes(amounts, high, maxSize, states, Below(amounts, index))
    requires Describes(amounts, high, maxSize, additions, Ending(amounts, index))
    ensures Describes(amounts, high, maxSize, table, Below(amounts, index + 1))
  {
    hide *;
    table := states;
    var todo := additions.Keys;
    NothingDescribed(amounts, high, maxSize, index);
    ghost var done: set<Key> := {};
    while todo != {}
      invariant done !! todo && done + todo == additions.Keys
      invariant Describes(amounts, high, maxSize, table,
                          Below(amounts, index) + Reaching(amounts, Ending(amounts, index), done))
      decreases todo
    {
      var k :| k in todo;
      AbsorbDescribes(amounts, high, maxSize, index, table, additions, k, done);
      table := Merge(table, k, additions[k].ways, additions[k].chosen);
      todo, done := todo - {k}, done + {k};
    }
    assert done == additions.Keys;
    AbsorbedDescribes(amounts, high, maxSize, index, table, additions);
  }
}
