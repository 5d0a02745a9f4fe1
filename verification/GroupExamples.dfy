/** Concrete ledgers, with the default settings, on which the group strategy does what its description does
    not say. */
module GroupExamples {
  import opened Ledger
  import opened Repository
  import opened References
  import opened FxConvert
  import opened GroupMatching
  import opened GroupLaws
  import opened GroupRaises
  import opened GroupTolerance
  import SubsetSum

  const DEFAULTS := Config(10, 50, 24, 200_000, 2, 1, 1.5, 8, 4)

  /** 83 rupees to the dollar on every day. */
  const RATES: Quotes := (currency, day) =>
    if currency == "USD" then Some(83.0) else if currency == "INR" then Some(1.0) else None

  lemma DollarsAreWholePaise()
    ensures WholePaise(RATES, "USD", 83)
  {
    assert "USD" in EXPONENTS && EXPONENTS["USD"] == 2;
    assert Pow10(1) == 10.0 && Pow10(2) == 100.0;
  }

  // ------------------------------------------------------------------- a whole set that is not unique

  const WHOLE_SET: Txns := map[
    0 := Linked(Internal, "INR", 101), 1 := Linked(External, "INR", 60),
    2 := Linked(External, "INR", 40), 3 := Linked(External, "INR", 1)]

  /** 60 + 40 + 1 and 60 + 40 both settle 101 within a tolerance of 1; the whole set is chosen although the
      module says only unique solutions are claimed. */
  lemma WholeSetMayBeAmbiguous()
    ensures Fit(DEFAULTS, 10, RATES, WHOLE_SET, 0, [1, 2, 3]) == Chosen([1, 2, 3])
    ensures var legs := LegsOf(DEFAULTS, RATES, WHOLE_SET, 0, [1, 2, 3]);
            legs.Legs? && AnotherFits(legs.amounts, legs.low, legs.high, 10, [0, 1])
  {
    hide Fit;
    var ids: seq<TxnId> := [1, 2, 3];
    var legs := LegsOf(DEFAULTS, RATES, WHOLE_SET, 0, ids);
    assert legs.Legs? && legs.amounts == [60, 40, 1] && legs.low == 100 && legs.high == 102;
    ThreeAmounts(60, 40, 1);
    WholeIsChosen(DEFAULTS, 10, RATES, WHOLE_SET, 0, ids);
    assert |[0, 1]| != |Positions(3)|;
  }

  lemma ThreeAmounts(x: int, y: int, z: int)
    ensures Total([x, y, z]) == x + y + z && SubsetSum.Sum([x, y, z], [0, 1]) == x + y
  {
    SumsOfThree(x, y, z);
    TotalOfThree(x, y, z);
  }

  lemma WholeIsChosen(config: Config, max: nat, quotes: Quotes, txns: Txns, single: TxnId, candidates: seq<TxnId>)
    requires single in txns && (forall t :: t in candidates ==> t in txns)
    requires var legs := LegsOf(config, quotes, txns, single, candidates);
             legs.Legs? && WholeSettles(legs.amounts, legs.low, legs.high, max)
    ensures Fit(config, max, quotes, txns, single, candidates) == Chosen(candidates)
  {
    hide LegsOf, DetailsFail;
    WholeHasForeign(txns, single, candidates);
  }

  // ------------------------------------------------------------------- a loose group

  const LOOSE: Txns := LooseLedger("USD", 100_000, 40_000, 59_000, 50_000_000)

  /** 1,000 dollars settled by 400 and 590: because one more linked candidate is in rupees, the FX tolerance
      applies, and the group is chosen 1,000 cents apart with a tolerance_minor of 1. */
  lemma LooseGroupIsChosen()
    ensures Fit(DEFAULTS, 10, RATES, LOOSE, 0, [1, 2, 3]) == Chosen([1, 2])
    ensures AmountSum(LOOSE, [1, 2]) == 99_000 && LOOSE[0].amount == 100_000
    ensures ForeignGroup(DEFAULTS, 10, RATES, LOOSE, 0, [1, 2, 3], "USD", 100_000)
  {
    hide Fit, WholePaise, InWindow, ForeignGroup;
    DollarsAreWholePaise();
    WindowMeansClose(8_300_000, 1.5, 8_217_000);
    WindowMeansClose(8_300_000, 1.5, 50_000_000);
    assert InWindow(8_300_000, 1.5, 8_217_000) && !InWindow(8_300_000, 1.5, 50_000_000);
    LooseGroup(DEFAULTS, 10, RATES, "USD", 83, 100_000, 40_000, 59_000, 50_000_000);
    LooseAmounts("USD", 100_000, 40_000, 59_000, 50_000_000);
  }

  // ------------------------------------------------------------------- a group that ends the run

  const RUPEES: Txns := map[
    0 := Linked(Internal, "INR", 10_000), 1 := Linked(External, "INR", 4_000),
    2 := Linked(External, "INR", 6_000), 3 := Linked(External, "USD", 1_000)]

  /** 100 rupees are settled by 40 and 60 rupees; because one more linked candidate is in dollars, the
      details of the exchange are looked up, there are none, and the look-up raises. */
  lemma RupeeGroupRaises()
    ensures Selection(DEFAULTS, 10, RATES, RUPEES, 0, [1, 2, 3]) == Chosen([1, 2])
    ensures Fit(DEFAULTS, 10, RATES, RUPEES, 0, [1, 2, 3]) == Raises
  {
    hide Selection, WholePaise, InWindow, LegInr;
    RupeeLegs();
    TwoAreSelected(DEFAULTS, 10, RATES, RUPEES, 4_000, 6_000, 83_000);
    assert [0] + [1, 2] == [0, 1, 2];
    assert 3 in [1, 2, 3] && RUPEES[3].currency == "USD" && RUPEES[0].currency == "INR";
  }

  lemma RupeeLegs()
    ensures var legs := LegsOf(DEFAULTS, RATES, RUPEES, 0, [1, 2, 3]);
            legs.Legs? && legs.amounts == [4_000, 6_000, 83_000] && legs.low <= 10_000 <= legs.high < 83_000
  {
    hide WholePaise, LegInr, Low, High, Ceiling;
    var ids: seq<TxnId> := [1, 2, 3];
    assert ids[0] == 1 && ids[1] == 2 && ids[2] == 3 && 3 in ids;
    assert RUPEES[3].currency == "USD" && RUPEES[0].currency == "INR";
    DollarsAreWholePaise();
    RupeeLeg(RATES, "USD", 83, RUPEES[0]);
    RupeeLeg(RATES, "USD", 83, RUPEES[1]);
    RupeeLeg(RATES, "USD", 83, RUPEES[2]);
    WholeLeg(RATES, "USD", 83, RUPEES[3]);
    WindowMeansClose(10_000, 1.5, 10_000);
    WindowMeansClose(10_000, 1.5, 83_000);
    Beyond(10_000, 1.5, 10_000, 83_000);
  }

  lemma LinkedByParty(t: TxnId)
    ensures Candidate(DEFAULTS, RUPEES, {}, Party, {}, 0, t) <==> t in {0, 1, 2, 3}
    ensures !Candidate(DEFAULTS, RUPEES, {}, Stem, {}, 0, t)
  {
    hide StemKeys;
    assert t in RUPEES <==> t in {0, 1, 2, 3};
    if t in RUPEES {
      assert RUPEES[t].counterparty == "ACME" && RUPEES[t].originalReference == "";
      assert LinkKeys(DEFAULTS, RUPEES[t], Party) == {"ACME"} && LinkKeys(DEFAULTS, RUPEES[0], Party) == {"ACME"};
      assert "ACME" in LinkKeys(DEFAULTS, RUPEES[0], Party) * LinkKeys(DEFAULTS, RUPEES[t], Party);
      NoStem();
      assert RUPEES[t].date == 0 && RUPEES[t].direction == CR && RUPEES[0].date == 0 && RUPEES[0].direction == CR;
    }
  }

  lemma NoStem()
    ensures StemKeys("", 4) == {}
  {
  }

  lemma RupeeCandidates()
    ensures CandidateList(DEFAULTS, RUPEES, {}, Party, {}, [1, 2, 3], 0) == [1, 2, 3]
    ensures CandidateList(DEFAULTS, RUPEES, {}, Stem, {}, [1, 2, 3], 0) == []
  {
    hide Candidate, Listing;
    forall t: TxnId
      ensures Candidate(DEFAULTS, RUPEES, {}, Party, {}, 0, t) <==> t in {0, 1, 2, 3}
      ensures !Candidate(DEFAULTS, RUPEES, {}, Stem, {}, 0, t)
    {
      LinkedByParty(t);
    }
    var ids: seq<TxnId> := [1, 2, 3];
    assert Lists(WithoutLines(RUPEES), CandidateSet(DEFAULTS, RUPEES, {}, Party, {}, ids, 0), ids);
    ListingIs(WithoutLines(RUPEES), CandidateSet(DEFAULTS, RUPEES, {}, Party, {}, ids, 0), ids);
    assert Lists(WithoutLines(RUPEES), CandidateSet(DEFAULTS, RUPEES, {}, Stem, {}, ids, 0), []);
    ListingIs(WithoutLines(RUPEES), CandidateSet(DEFAULTS, RUPEES, {}, Stem, {}, ids, 0), []);
  }

  lemma RupeeAttempts()
    ensures Attempt(DEFAULTS, RATES, RUPEES, {}, Stem, Split, [1, 2, 3], {}, 0) == NoFit
    ensures Attempt(DEFAULTS, RATES, RUPEES, {}, Party, Split, [1, 2, 3], {}, 0) == Raises
  {
    hide Fit, CandidateList, Selection;
    RupeeCandidates();
    RupeeGroupRaises();
  }

  /** On that ledger the strategy ends with an exception in its first turn, at the default settings and with
      no negative amount. */
  lemma RupeeGroupEndsTheRun()
    ensures Workable(DEFAULTS) && NoNegativeAmounts(RUPEES)
    ensures var p := TwoPasses(DEFAULTS, RATES, RUPEES, {}, {}, [0], [1, 2, 3]);
            p.raised && p.groups == []
  {
    hide Attempt, Pass;
    RupeeAttempts();
    assert Consumed([]) == {};
    var split := Turn(DEFAULTS, RATES, RUPEES, {}, {}, Split, [1, 2, 3], BEGIN, 0);
    assert split == BEGIN.(raised := true);
    OnePass(DEFAULTS, RATES, RUPEES, {}, {}, Split, 0, [1, 2, 3], BEGIN);
    PassKeepsRaised(DEFAULTS, RATES, RUPEES, {}, {}, Netted, [1, 2, 3], [0], split);
  }

  lemma OnePass(config: Config, quotes: Quotes, txns: Txns, rejected: Rejections, claimed: set<TxnId>,
                kind: MatchKind, single: TxnId, pool: seq<TxnId>, p: Progress)
    ensures Pass(config, quotes, txns, rejected, claimed, kind, [single], pool, p)
            == Turn(config, quotes, txns, rejected, claimed, kind, pool, p, single)
  {
    hide Turn;
    assert [single][..0] == [];
  }
}
