/**
 * The scorer: the per-task projections of the relation lists, the binary
 * (yes/no) confusion matrices for connectives and arguments, the sense
 * confusion matrix, and the count of fully correct relations. A binary
 * confusion matrix is modelled by the multiset of (first, second) label
 * pairs added to it, the sense matrix by the sequence of those pairs in the
 * order they are added.
 */
module Scorer {
  import opened Wrappers
  import opened Relations
  import opened Matcher

  /** The label for "no relation on this side". */
  const NoLabel: string := "no"

  /**
   * The DocID that evaluate_relation puts on both connective spans before
   * comparing them (the integer 0 in the scorer): the same constant on both
   * sides, so the DocIDs never decide the comparison.
   */
  const ConnectiveDocPlaceholder: string := "0"

  // ---------------------------------------------------------------------------
  // Projections
  // ---------------------------------------------------------------------------

  /** The (DocID, connective tokens) of the Explicit relations, in list order. */
  function ExplicitConnectives<Tok>(relations: seq<Relation<Tok>>): (r: seq<DocSpan<Tok>>)
    ensures |r| <= |relations|
    ensures forall i :: 0 <= i < |relations| && relations[i].Type == Explicit ==> ConnectiveSpan(relations[i]) in r
  {
    if relations == [] then []
    else
      var last := relations[|relations| - 1];
      ExplicitConnectives(relations[..|relations| - 1])
        + (if last.Type == Explicit then [ConnectiveSpan(last)] else [])
  }

  /** Every projected connective comes from an Explicit relation of the list. */
  lemma {:induction false} ExplicitConnectivesOnlyExplicit<Tok>(relations: seq<Relation<Tok>>, j: nat)
    requires j < |ExplicitConnectives(relations)|
    ensures exists i :: 0 <= i < |relations| && relations[i].Type == Explicit
                        && ExplicitConnectives(relations)[j] == ConnectiveSpan(relations[i])
  {
    var n := |relations| - 1;
    var init := relations[..n];
    if j < |ExplicitConnectives(init)| {
      ExplicitConnectivesOnlyExplicit(init, j);
      var i :| 0 <= i < |init| && init[i].Type == Explicit
               && ExplicitConnectives(init)[j] == ConnectiveSpan(init[i]);
      assert relations[i] == init[i];
    } else {
      assert ExplicitConnectives(relations)[j] == ConnectiveSpan(relations[n]);
    }
  }

  /**
   * The projection keeps list order and multiplicity: projecting a
   * concatenation is concatenating the projections, so each relation
   * contributes its own entry (or none) at its own place.
   */
  lemma {:induction false} ExplicitConnectivesAppend<Tok>(a: seq<Relation<Tok>>, b: seq<Relation<Tok>>)
    ensures ExplicitConnectives(a + b) == ExplicitConnectives(a) + ExplicitConnectives(b)
    decreases |b|
  {
    if b == [] {
      assert a + b == a;
    } else {
      var n := |b| - 1;
      assert (a + b)[..|a + b| - 1] == a + b[..n];
      ExplicitConnectivesAppend(a, b[..n]);
    }
  }

  /** On a single relation the projection is its connective when it is Explicit, and nothing otherwise. */
  lemma ExplicitConnectivesSingle<Tok>(r: Relation<Tok>)
    ensures ExplicitConnectives([r]) == if r.Type == Explicit then [ConnectiveSpan(r)] else []
  {
    assert [r][..0] == [];
  }

  /** The indices of the Explicit relations below k. */
  function ExplicitIndices<Tok>(relations: seq<Relation<Tok>>, k: nat): set<nat>
    requires k <= |relations|
  {
    set i: nat | i < k && relations[i].Type == Explicit
  }

  /** There is exactly one projected entry per Explicit relation among the first k. */
  lemma {:induction false} ExplicitConnectivesCount<Tok>(relations: seq<Relation<Tok>>, k: nat)
    requires k <= |relations|
    ensures |ExplicitConnectives(relations[..k])| == |ExplicitIndices(relations, k)|
  {
    if k > 0 {
      ExplicitConnectivesCount(relations, k - 1);
      assert relations[..k][..k - 1] == relations[..k - 1];
      var before := ExplicitIndices(relations, k - 1);
      assert k - 1 !in before;
      if relations[k - 1].Type == Explicit {
        assert ExplicitIndices(relations, k) == before + {k - 1};
      } else {
        assert ExplicitIndices(relations, k) == before;
      }
    }
  }

  /** The (DocID, Arg1 tokens) of every relation, in list order. */
  function Arg1Spans<Tok>(relations: seq<Relation<Tok>>): (r: seq<DocSpan<Tok>>)
    ensures |r| == |relations|
    ensures forall i :: 0 <= i < |relations| ==> r[i] == DocSpan(relations[i].DocID, relations[i].Arg1.TokenList)
  {
    seq(|relations|, i requires 0 <= i < |relations| => Arg1Span(relations[i]))
  }

  /** The (DocID, Arg2 tokens) of every relation, in list order. */
  function Arg2Spans<Tok>(relations: seq<Relation<Tok>>): (r: seq<DocSpan<Tok>>)
    ensures |r| == |relations|
    ensures forall i :: 0 <= i < |relations| ==> r[i] == DocSpan(relations[i].DocID, relations[i].Arg2.TokenList)
  {
    seq(|relations|, i requires 0 <= i < |relations| => Arg2Span(relations[i]))
  }

  /** The (DocID, (Arg1 tokens, Arg2 tokens)) of every relation, in list order. */
  function Arg12Groups<Tok>(relations: seq<Relation<Tok>>): (r: seq<DocSpanGroup<Tok>>)
    ensures |r| == |relations|
    ensures forall i :: 0 <= i < |relations| ==>
      r[i] == DocSpanGroup(relations[i].DocID, [relations[i].Arg1.TokenList, relations[i].Arg2.TokenList])
  {
    seq(|relations|, i requires 0 <= i < |relations| => Arg12Group(relations[i]))
  }

  // ---------------------------------------------------------------------------
  // Connectives and arguments
  // ---------------------------------------------------------------------------

  /**
   * evaluate_connectives: the binary counter over the connective spans of
   * the Explicit relations on each side.
   */
  method EvaluateConnectives(gold: seq<GoldRelation>, predicted: seq<PredictedRelation>)
    returns (cm: multiset<LabelPair>)
    ensures cm == BinaryCounts(ExplicitConnectives(gold), ExplicitConnectives(predicted), SpanExactMatch)
    ensures cm[YesYes] + cm[YesNo] == |ExplicitIndices(gold, |gold|)|
    ensures cm[YesYes] + cm[NoYes] == |ExplicitIndices(predicted, |predicted|)|
  {
    var explicitGoldList := ExplicitConnectives(gold);
    var explicitPredictedList := ExplicitConnectives(predicted);
    cm := ComputeBinaryEvalMetric(explicitGoldList, explicitPredictedList, SpanExactMatch);
    ExplicitConnectivesCount(gold, |gold|);
    ExplicitConnectivesCount(predicted, |predicted|);
    assert gold[..|gold|] == gold && predicted[..|predicted|] == predicted;
  }

  /**
   * evaluate_argument_extractor: three independent binary counters, over the
   * Arg1 spans, the Arg2 spans and the (Arg1, Arg2) groups.
   */
  method EvaluateArgumentExtractor(gold: seq<GoldRelation>, predicted: seq<PredictedRelation>)
    returns (arg1Cm: multiset<LabelPair>, arg2Cm: multiset<LabelPair>, relArgCm: multiset<LabelPair>)
    ensures arg1Cm == BinaryCounts(Arg1Spans(gold), Arg1Spans(predicted), SpanExactMatch)
    ensures arg2Cm == BinaryCounts(Arg2Spans(gold), Arg2Spans(predicted), SpanExactMatch)
    ensures relArgCm == BinaryCounts(Arg12Groups(gold), Arg12Groups(predicted), SpansMatch)
    ensures arg1Cm[YesYes] + arg1Cm[YesNo] == |gold| && arg1Cm[YesYes] + arg1Cm[NoYes] == |predicted|
    ensures arg2Cm[YesYes] + arg2Cm[YesNo] == |gold| && arg2Cm[YesYes] + arg2Cm[NoYes] == |predicted|
    ensures relArgCm[YesYes] + relArgCm[YesNo] == |gold| && relArgCm[YesYes] + relArgCm[NoYes] == |predicted|
  {
    var goldArg1 := Arg1Spans(gold);
    var predictedArg1 := Arg1Spans(predicted);
    arg1Cm := ComputeBinaryEvalMetric(goldArg1, predictedArg1, SpanExactMatch);

    var goldArg2 := Arg2Spans(gold);
    var predictedArg2 := Arg2Spans(predicted);
    arg2Cm := ComputeBinaryEvalMetric(goldArg2, predictedArg2, SpanExactMatch);

    var goldArg12 := Arg12Groups(gold);
    var predictedArg12 := Arg12Groups(predicted);
    relArgCm := ComputeBinaryEvalMetric(goldArg12, predictedArg12, SpansMatch);
  }

  /**
   * A system output that copies the gold relations' arguments scores one hit
   * per relation and nothing else on Arg1.
   */
  lemma {:induction false} IdenticalArg1Copy(gold: GoldRelation, predicted: PredictedRelation)
    requires predicted.DocID == gold.DocID
    requires predicted.Arg1.TokenList == TokenIndices(gold.Arg1.TokenList)
    ensures BinaryCounts(Arg1Spans([gold]), Arg1Spans([predicted]), SpanExactMatch) == multiset{YesYes}
  {
    var g, p := Arg1Spans([gold]), Arg1Spans([predicted]);
    assert g == [Arg1Span(gold)] && p == [Arg1Span(predicted)];
    assert SpanExactMatch(g[0], p[0]);
    var unmatched := MatchedAfter(g[..0], p, SpanExactMatch);
    assert g[..0] == [];
    assert unmatched == [false];
    assert FirstFree(g[0], p, SpanExactMatch, unmatched, 0) == Some(0);
    assert MatchedAfter(g, p, SpanExactMatch) == [true];
    assert GoldPairs(g, p, SpanExactMatch) == multiset{} + multiset{YesYes};
    assert [true][..0] == [];
    assert UnmatchedPairs([true]) == multiset{} + multiset{};
  }

  /**
   * A predicted Explicit relation whose connective is off by one token is one
   * miss and one spurious prediction.
   */
  lemma {:induction false} ConnectiveOffByOne(gold: GoldRelation, predicted: PredictedRelation)
    requires gold.Type == Explicit && predicted.Type == Explicit
    requires TokenIndices(gold.Connective.TokenList) == [10] && predicted.Connective.TokenList == [11]
    ensures BinaryCounts(ExplicitConnectives([gold]), ExplicitConnectives([predicted]), SpanExactMatch)
         == multiset{YesNo, NoYes}
  {
    var g, p := ExplicitConnectives([gold]), ExplicitConnectives([predicted]);
    ExplicitConnectivesSingle(gold);
    ExplicitConnectivesSingle(predicted);
    assert g == [ConnectiveSpan(gold)] && p == [ConnectiveSpan(predicted)];
    assert TokenIndices(g[0].tokens)[0] != p[0].tokens[0];
    assert !SpanExactMatch(g[0], p[0]);
    var unmatched := MatchedAfter(g[..0], p, SpanExactMatch);
    assert g[..0] == [];
    assert unmatched == [false];
    assert FirstFree(g[0], p, SpanExactMatch, unmatched, 1) == None;
    assert FirstFree(g[0], p, SpanExactMatch, unmatched, 0) == None;
    assert MatchedAfter(g, p, SpanExactMatch) == [false];
    assert GoldPairs(g, p, SpanExactMatch) == multiset{} + multiset{YesNo};
    assert [false][..0] == [];
    assert UnmatchedPairs([false]) == multiset{} + multiset{NoYes};
  }

  // ---------------------------------------------------------------------------
  // Linkage views used by the sense and relation scores
  // ---------------------------------------------------------------------------

  /** The entry of a link map for index k, if any. */
  function LinkOf<R>(links: map<nat, R>, k: nat): (r: Option<R>)
    ensures r.Some? <==> k in links
    ensures r.Some? ==> r.value == links[k]
  {
    if k in links then Some(links[k]) else None
  }

  /** Every relation of the list has a primary sense. */
  predicate PrimarySensesPresent<Tok>(relations: seq<Relation<Tok>>)
  {
    forall i :: 0 <= i < |relations| ==> relations[i].Sense != []
  }

  /** Every relation recorded in a link map has a primary sense. */
  predicate LinkedSensesPresent<Tok>(links: map<nat, Relation<Tok>>)
  {
    forall k :: k in links ==> links[k].Sense != []
  }

  /** Every relation of the list that is not a key of the map has a primary sense. */
  predicate UnlinkedSensesPresent<Tok, R>(relations: seq<Relation<Tok>>, links: map<nat, R>)
  {
    forall i :: 0 <= i < |relations| && i !in links ==> relations[i].Sense != []
  }

  /**
   * What the sense tally reads: the primary sense of every gold relation, of
   * every linked predicted relation and of every unlinked predicted relation.
   */
  predicate SenseTallyDefined(gold: seq<GoldRelation>, predicted: seq<PredictedRelation>)
  {
    && PrimarySensesPresent(gold)
    && LinkedSensesPresent(GoldToPredictedLinks(gold, predicted, SpansMatch))
    && UnlinkedSensesPresent(predicted, PredictedToGoldLinks(gold, predicted, SpansMatch))
  }

  // ---------------------------------------------------------------------------
  // Sense classification
  // ---------------------------------------------------------------------------

  /**
   * The pair that evaluate_sense adds for one gold relation: a miss pairs
   * "no" with the gold primary sense; a linked relation pairs the predicted
   * primary sense with itself when that sense is accepted by the gold
   * relation and with the gold primary sense otherwise, so the pair lies on
   * the diagonal exactly when the predicted sense is accepted.
   */
  function SenseObservation(gold: GoldRelation, link: Option<PredictedRelation>): (pr: LabelPair)
    requires gold.Sense != [] && (link.Some? ==> link.value.Sense != [])
    ensures link.None? ==> pr == (NoLabel, gold.Sense[0])
    ensures link.Some? ==> pr.0 == link.value.Sense[0] && pr.1 in gold.Sense + [pr.0]
    ensures link.Some? ==> (pr.0 == pr.1 <==> link.value.Sense[0] in gold.Sense)
    ensures link.Some? && link.value.Sense[0] !in gold.Sense ==> pr == (link.value.Sense[0], gold.Sense[0])
  {
    match link
    case None => (NoLabel, gold.Sense[0])
    case Some(p) =>
      var predictedSense := p.Sense[0];
      if predictedSense in gold.Sense then (predictedSense, predictedSense) else (predictedSense, gold.Sense[0])
  }

  /** The pairs added for the first k gold relations, in order, given the gold-to-predicted map. */
  function GoldSensePairs(gold: seq<GoldRelation>, goldToPredicted: map<nat, PredictedRelation>, k: nat): seq<LabelPair>
    requires k <= |gold| && PrimarySensesPresent(gold) && LinkedSensesPresent(goldToPredicted)
  {
    if k == 0 then []
    else
      var observation := SenseObservation(gold[k - 1], LinkOf(goldToPredicted, k - 1));
      GoldSensePairs(gold, goldToPredicted, k - 1) + [observation]
  }

  /**
   * The pairs added for the first k predicted relations that are not keys
   * of the predicted-to-gold map, in order: (predicted sense, "no").
   */
  function SpuriousSensePairs(predicted: seq<PredictedRelation>, predictedToGold: map<nat, GoldRelation>, k: nat): seq<LabelPair>
    requires k <= |predicted| && UnlinkedSensesPresent(predicted, predictedToGold)
  {
    if k == 0 then []
    else
      var added := if k - 1 in predictedToGold then [] else [(predicted[k - 1].Sense[0], NoLabel)];
      SpuriousSensePairs(predicted, predictedToGold, k - 1) + added
  }

  /** The number of indices below k that are not keys of the map. */
  function UnlinkedCount<R>(links: map<nat, R>, k: nat): (n: nat)
    ensures n <= k
  {
    if k == 0 then 0
    else UnlinkedCount(links, k - 1) + (if k - 1 in links then 0 else 1)
  }

  /** One pair per gold relation, in gold order: pair i is the observation for gold relation i. */
  lemma {:induction false} GoldSensePairsSize(gold: seq<GoldRelation>, goldToPredicted: map<nat, PredictedRelation>, k: nat)
    requires k <= |gold| && PrimarySensesPresent(gold) && LinkedSensesPresent(goldToPredicted)
    ensures |GoldSensePairs(gold, goldToPredicted, k)| == k
    ensures forall i :: 0 <= i < k ==>
      GoldSensePairs(gold, goldToPredicted, k)[i] == SenseObservation(gold[i], LinkOf(goldToPredicted, i))
  {
    if k > 0 {
      GoldSensePairsSize(gold, goldToPredicted, k - 1);
    }
  }

  /** One pair per unlinked predicted relation, each with "no" in second place. */
  lemma {:induction false} SpuriousSensePairsSize(predicted: seq<PredictedRelation>, predictedToGold: map<nat, GoldRelation>, k: nat)
    requires k <= |predicted| && UnlinkedSensesPresent(predicted, predictedToGold)
    ensures |SpuriousSensePairs(predicted, predictedToGold, k)| == UnlinkedCount(predictedToGold, k)
    ensures forall j :: 0 <= j < |SpuriousSensePairs(predicted, predictedToGold, k)| ==>
      SpuriousSensePairs(predicted, predictedToGold, k)[j].1 == NoLabel
  {
    if k > 0 {
      SpuriousSensePairsSize(predicted, predictedToGold, k - 1);
    }
  }

  /** The indices below k that are not keys of the map, in increasing order. */
  function UnlinkedIndices<R>(links: map<nat, R>, k: nat): (r: seq<nat>)
    ensures forall j :: 0 <= j < |r| ==> r[j] < k && r[j] !in links
  {
    if k == 0 then []
    else UnlinkedIndices(links, k - 1) + (if k - 1 in links then [] else [k - 1])
  }

  /**
   * UnlinkedIndices lists every index below k that is not a key, each once
   * and in increasing order, so it has UnlinkedCount entries.
   */
  lemma {:induction false} UnlinkedIndicesEnumerate<R>(links: map<nat, R>, k: nat)
    ensures |UnlinkedIndices(links, k)| == UnlinkedCount(links, k)
    ensures forall j1, j2 :: 0 <= j1 < j2 < |UnlinkedIndices(links, k)| ==>
      UnlinkedIndices(links, k)[j1] < UnlinkedIndices(links, k)[j2]
    ensures forall i :: 0 <= i < k && i !in links ==> i in UnlinkedIndices(links, k)
  {
    if k > 0 {
      UnlinkedIndicesEnumerate(links, k - 1);
    }
  }

  /**
   * The second pass position by position: its j-th pair is (primary sense,
   * "no") of the j-th unlinked predicted relation, so each unlinked
   * prediction adds its own pair, once, in list order.
   */
  lemma {:induction false} SpuriousSensePairsPositions(predicted: seq<PredictedRelation>,
                                                       predictedToGold: map<nat, GoldRelation>, k: nat)
    requires k <= |predicted| && UnlinkedSensesPresent(predicted, predictedToGold)
    ensures |SpuriousSensePairs(predicted, predictedToGold, k)| == |UnlinkedIndices(predictedToGold, k)|
    ensures forall j :: 0 <= j < |UnlinkedIndices(predictedToGold, k)| ==>
      SpuriousSensePairs(predicted, predictedToGold, k)[j]
        == (predicted[UnlinkedIndices(predictedToGold, k)[j]].Sense[0], NoLabel)
  {
    if k > 0 {
      SpuriousSensePairsPositions(predicted, predictedToGold, k - 1);
    }
  }

  /**
   * evaluate_sense: link the relations on their (Arg1, Arg2) groups, add one
   * pair per gold relation, then one (predicted sense, "no") pair per
   * predicted relation absent from the predicted-to-gold map. The result
   * lists the pairs in the order they are added to the confusion matrix,
   * whose counts are the multiset of that list.
   */
  method EvaluateSense(gold: seq<GoldRelation>, predicted: seq<PredictedRelation>)
    returns (cm: seq<LabelPair>)
    requires SenseTallyDefined(gold, predicted)
    ensures cm == GoldSensePairs(gold, GoldToPredictedLinks(gold, predicted, SpansMatch), |gold|)
                + SpuriousSensePairs(predicted, PredictedToGoldLinks(gold, predicted, SpansMatch), |predicted|)
  {
    var goldToPredicted, predictedToGold := LinkGoldPredicted(gold, predicted, SpansMatch);
    assert LinkedSensesPresent(goldToPredicted) && UnlinkedSensesPresent(predicted, predictedToGold);
    cm := [];
    for i := 0 to |gold|
      invariant cm == GoldSensePairs(gold, goldToPredicted, i)
    {
      if i in goldToPredicted {
        var predictedSense := goldToPredicted[i].Sense[0];
        if predictedSense in gold[i].Sense {
          cm := cm + [(predictedSense, predictedSense)];
        } else {
          cm := cm + [(predictedSense, gold[i].Sense[0])];
        }
      } else {
        cm := cm + [(NoLabel, gold[i].Sense[0])];
      }
    }
    for i := 0 to |predicted|
      invariant cm == GoldSensePairs(gold, goldToPredicted, |gold|) + SpuriousSensePairs(predicted, predictedToGold, i)
    {
      if i !in predictedToGold {
        cm := cm + [(predicted[i].Sense[0], NoLabel)];
      }
    }
  }

  /**
   * A single gold relation and a single matching prediction carrying the
   * same one sense add just the diagonal pair for that sense.
   */
  lemma MatchingSenseIsDiagonal(gold: GoldRelation, predicted: PredictedRelation, sense: string)
    requires gold.Sense == [sense] && predicted.Sense == [sense]
    requires SpansMatch(Arg12Group(gold), Arg12Group(predicted))
    ensures SenseTallyDefined([gold], [predicted])
    ensures GoldSensePairs([gold], GoldToPredictedLinks([gold], [predicted], SpansMatch), 1)
          + SpuriousSensePairs([predicted], PredictedToGoldLinks([gold], [predicted], SpansMatch), 1)
         == [(sense, sense)]
  {
    SinglePairLinked(gold, predicted, SpansMatch);
  }

  // ---------------------------------------------------------------------------
  // Overall relation accuracy
  // ---------------------------------------------------------------------------

  /**
   * The connective check of evaluate_relation: both spans carry the same
   * placeholder DocID, so only the token offsets are compared.
   */
  predicate ConnectiveAgrees(gold: GoldRelation, predicted: PredictedRelation)
  {
    SpanExactMatch(DocSpan(ConnectiveDocPlaceholder, gold.Connective.TokenList),
                   DocSpan(ConnectiveDocPlaceholder, predicted.Connective.TokenList))
  }

  /**
   * The connective check ignores the DocIDs: it holds exactly when the token
   * offsets agree, so it accepts whatever a same-document match accepts.
   */
  lemma ConnectiveCheckIgnoresDocID(gold: GoldRelation, predicted: PredictedRelation)
    ensures ConnectiveAgrees(gold, predicted) <==> TokenIndices(gold.Connective.TokenList) == predicted.Connective.TokenList
    ensures SpanExactMatch(ConnectiveSpan(gold), ConnectiveSpan(predicted)) ==> ConnectiveAgrees(gold, predicted)
  {
  }

  /**
   * A gold relation counts as correct when it is linked, the linked
   * prediction's primary sense is accepted, and, for an Explicit relation,
   * the connective tokens agree.
   */
  predicate RelationCorrect(gold: GoldRelation, link: Option<PredictedRelation>)
    requires link.Some? ==> link.value.Sense != []
  {
    && link.Some?
    && link.value.Sense[0] in gold.Sense
    && (gold.Type == Explicit ==> ConnectiveAgrees(gold, link.value))
  }

  /** The gold relation is linked and its prediction's primary sense is accepted. */
  predicate SenseCorrect(gold: GoldRelation, link: Option<PredictedRelation>)
    requires link.Some? ==> link.value.Sense != []
  {
    link.Some? && link.value.Sense[0] in gold.Sense
  }

  /** The correct relations among the first k gold relations: each adds 0 or 1. */
  function RelationCorrectCount(gold: seq<GoldRelation>, goldToPredicted: map<nat, PredictedRelation>, k: nat): (n: nat)
    requires k <= |gold| && LinkedSensesPresent(goldToPredicted)
    ensures n <= k
  {
    if k == 0 then 0
    else
      var added := if RelationCorrect(gold[k - 1], LinkOf(goldToPredicted, k - 1)) then 1 else 0;
      RelationCorrectCount(gold, goldToPredicted, k - 1) + added
  }

  /** The linked gold relations with an accepted predicted sense among the first k. */
  function SenseCorrectCount(gold: seq<GoldRelation>, goldToPredicted: map<nat, PredictedRelation>, k: nat): (n: nat)
    requires k <= |gold| && LinkedSensesPresent(goldToPredicted)
    ensures n <= k
  {
    if k == 0 then 0
    else
      var added := if SenseCorrect(gold[k - 1], LinkOf(goldToPredicted, k - 1)) then 1 else 0;
      SenseCorrectCount(gold, goldToPredicted, k - 1) + added
  }

  /**
   * The integer `correct` of evaluate_relation: link the relations on their
   * (Arg1, Arg2) groups and count the gold relations judged correct.
   */
  method EvaluateRelation(gold: seq<GoldRelation>, predicted: seq<PredictedRelation>)
    returns (correct: nat)
    requires LinkedSensesPresent(GoldToPredictedLinks(gold, predicted, SpansMatch))
    ensures correct == RelationCorrectCount(gold, GoldToPredictedLinks(gold, predicted, SpansMatch), |gold|)
    ensures correct <= |gold|
  {
    var goldToPredicted, predictedToGold := LinkGoldPredicted(gold, predicted, SpansMatch);
    correct := 0;
    for i := 0 to |gold|
      invariant correct == RelationCorrectCount(gold, goldToPredicted, i)
    {
      if i in goldToPredicted {
        var predictedSense := goldToPredicted[i].Sense[0];
        if gold[i].Type == Explicit {
          var predictedConnective := DocSpan(ConnectiveDocPlaceholder, goldToPredicted[i].Connective.TokenList);
          var goldConnective := DocSpan(ConnectiveDocPlaceholder, gold[i].Connective.TokenList);
          if predictedSense in gold[i].Sense && SpanExactMatch(goldConnective, predictedConnective) {
            correct := correct + 1;
          }
        } else {
          if predictedSense in gold[i].Sense {
            correct := correct + 1;
          }
        }
      }
    }
  }

  /** The gold indices below k whose relation is judged correct. */
  function CorrectIndices(gold: seq<GoldRelation>, goldToPredicted: map<nat, PredictedRelation>, k: nat): set<nat>
    requires k <= |gold| && LinkedSensesPresent(goldToPredicted)
  {
    set gi: nat | gi < k && RelationCorrect(gold[gi], LinkOf(goldToPredicted, gi))
  }

  /** The running count is the number of gold relations judged correct. */
  lemma {:induction false} RelationCorrectCountIsCardinality(gold: seq<GoldRelation>, goldToPredicted: map<nat, PredictedRelation>, k: nat)
    requires k <= |gold| && LinkedSensesPresent(goldToPredicted)
    ensures RelationCorrectCount(gold, goldToPredicted, k) == |CorrectIndices(gold, goldToPredicted, k)|
  {
    if k > 0 {
      RelationCorrectCountIsCardinality(gold, goldToPredicted, k - 1);
      var before := CorrectIndices(gold, goldToPredicted, k - 1);
      assert k - 1 !in before;
      if RelationCorrect(gold[k - 1], LinkOf(goldToPredicted, k - 1)) {
        assert CorrectIndices(gold, goldToPredicted, k) == before + {k - 1};
      } else {
        assert CorrectIndices(gold, goldToPredicted, k) == before;
      }
    }
  }

  /**
   * Every relation judged correct also has an accepted sense, so the
   * relation count never exceeds the number of linked gold relations whose
   * predicted primary sense is accepted; without Explicit gold relations the
   * two agree.
   */
  lemma {:induction false} RelationCorrectWithinSenseCorrect(gold: seq<GoldRelation>, goldToPredicted: map<nat, PredictedRelation>, k: nat)
    requires k <= |gold| && LinkedSensesPresent(goldToPredicted)
    ensures RelationCorrectCount(gold, goldToPredicted, k) <= SenseCorrectCount(gold, goldToPredicted, k)
    ensures (forall gi :: 0 <= gi < k ==> gold[gi].Type != Explicit) ==>
      RelationCorrectCount(gold, goldToPredicted, k) == SenseCorrectCount(gold, goldToPredicted, k)
  {
    if k > 0 {
      RelationCorrectWithinSenseCorrect(gold, goldToPredicted, k - 1);
    }
  }

  /**
   * Because the linkage is not one-to-one, `correct` can exceed the number
   * of predicted relations: two identical gold relations and one matching
   * prediction give 2 correct out of 1 predicted.
   */
  lemma CorrectCanExceedPredicted(g: GoldRelation, p: PredictedRelation)
    requires g.Type != Explicit && p.Sense != [] && p.Sense[0] in g.Sense
    requires SpansMatch(Arg12Group(g), Arg12Group(p))
    ensures LinkedSensesPresent(GoldToPredictedLinks([g, g], [p], SpansMatch))
    ensures RelationCorrectCount([g, g], GoldToPredictedLinks([g, g], [p], SpansMatch), 2) == 2 > |[p]|
  {
    LinksNeedNotBeInjective(g, p, SpansMatch);
  }
}
