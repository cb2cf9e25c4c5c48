/**
 * The matcher of the scorer: exact span and span-group equality, the greedy
 * first-fit counter behind the binary (yes/no) metrics, and the link builder
 * that aligns whole gold relations with predicted relations. The two matching
 * disciplines are kept apart: the counter consumes each predicted item at most
 * once, the link builder lets a later match overwrite an earlier one.
 */
module Matcher {
  import opened Wrappers
  import opened Relations

  // ---------------------------------------------------------------------------
  // Exact span matching
  // ---------------------------------------------------------------------------

  /** The document token offsets of a gold token list, in order (component 2 of each address). */
  function TokenIndices(addresses: seq<TokenAddress>): (r: seq<int>)
    ensures |r| == |addresses|
    ensures forall i :: 0 <= i < |addresses| ==> r[i] == addresses[i][2]
  {
    if addresses == [] then [] else [addresses[0][2]] + TokenIndices(addresses[1..])
  }

  /** The offsets of concatenated token lists are the concatenated offsets. */
  lemma {:induction false} TokenIndicesAppend(a: seq<TokenAddress>, b: seq<TokenAddress>)
    ensures TokenIndices(a + b) == TokenIndices(a) + TokenIndices(b)
  {
    if a != [] {
      assert (a + b)[1..] == a[1..] + b;
      TokenIndicesAppend(a[1..], b);
    }
  }

  /**
   * span_exact_matching: a gold span and a predicted span match when they
   * come from the same document and list the same token offsets in the same
   * order.
   */
  function SpanExactMatch(gold: DocSpan<TokenAddress>, predicted: DocSpan<int>): (r: bool)
    ensures r <==> gold.docId == predicted.docId
                   && |gold.tokens| == |predicted.tokens|
                   && forall i :: 0 <= i < |gold.tokens| ==> gold.tokens[i][2] == predicted.tokens[i]
  {
    gold.docId == predicted.docId && TokenIndices(gold.tokens) == predicted.tokens
  }

  /** A gold span matches the predicted span that carries its own DocID and token offsets. */
  lemma SpanExactMatchReflexive(gold: DocSpan<TokenAddress>)
    ensures SpanExactMatch(gold, DocSpan(gold.docId, TokenIndices(gold.tokens)))
  {
  }

  /** A gold span matches at most one predicted span value. */
  lemma SpanExactMatchUnique(gold: DocSpan<TokenAddress>, p1: DocSpan<int>, p2: DocSpan<int>)
    requires SpanExactMatch(gold, p1) && SpanExactMatch(gold, p2)
    ensures p1 == p2
  {
  }

  /**
   * Merging matching spans gives matching spans: if the gold spans a and b
   * match the predicted spans c and d within the same pair of documents,
   * then the merge of a and b matches the merge of c and d.
   */
  lemma CombinedSpansMatch(goldDoc: string, a: Span<TokenAddress>, b: Span<TokenAddress>,
                           predictedDoc: string, c: Span<int>, d: Span<int>)
    requires SpanExactMatch(DocSpan(goldDoc, a.TokenList), DocSpan(predictedDoc, c.TokenList))
    requires SpanExactMatch(DocSpan(goldDoc, b.TokenList), DocSpan(predictedDoc, d.TokenList))
    ensures SpanExactMatch(DocSpan(goldDoc, CombineSpans(a, b).TokenList),
                           DocSpan(predictedDoc, CombineSpans(c, d).TokenList))
  {
    TokenIndicesAppend(a.TokenList, b.TokenList);
    assert CombineSpans(a, b).TokenList == a.TokenList + b.TokenList;
  }

  // ---------------------------------------------------------------------------
  // Span-group matching
  // ---------------------------------------------------------------------------

  /**
   * The meaning of spans_exact_matching: every positional pair that zip
   * forms (as many as the shorter group has) matches exactly.
   */
  predicate SpansMatch(gold: DocSpanGroup<TokenAddress>, predicted: DocSpanGroup<int>)
  {
    forall i :: 0 <= i < |gold.spans| && i < |predicted.spans| ==>
      SpanExactMatch(DocSpan(gold.docId, gold.spans[i]), DocSpan(predicted.docId, predicted.spans[i]))
  }

  /** spans_exact_matching, as the source computes it: a flag accumulated over the zipped pairs. */
  method SpansExactMatch(gold: DocSpanGroup<TokenAddress>, predicted: DocSpanGroup<int>)
    returns (exactMatch: bool)
    ensures exactMatch == SpansMatch(gold, predicted)
  {
    exactMatch := true;
    var pairs := if |gold.spans| < |predicted.spans| then |gold.spans| else |predicted.spans|;
    for i := 0 to pairs
      invariant exactMatch <==> forall j :: 0 <= j < i ==>
        SpanExactMatch(DocSpan(gold.docId, gold.spans[j]), DocSpan(predicted.docId, predicted.spans[j]))
    {
      exactMatch := SpanExactMatch(DocSpan(gold.docId, gold.spans[i]),
                                   DocSpan(predicted.docId, predicted.spans[i])) && exactMatch;
    }
  }

  /** With no positional pair to compare the groups match, whatever their DocIDs. */
  lemma SpansMatchWithoutPairs(gold: DocSpanGroup<TokenAddress>, predicted: DocSpanGroup<int>)
    requires gold.spans == [] || predicted.spans == []
    ensures SpansMatch(gold, predicted)
  {
  }

  /**
   * With at least one pair the DocIDs are compared: matching groups come from
   * the same document and agree pair by pair on the token offsets, and the
   * converse holds; surplus spans of the longer group are never looked at.
   */
  lemma {:induction false} SpansMatchWithPairs(gold: DocSpanGroup<TokenAddress>, predicted: DocSpanGroup<int>)
    requires gold.spans != [] && predicted.spans != []
    ensures SpansMatch(gold, predicted) <==>
      gold.docId == predicted.docId &&
      forall i :: 0 <= i < |gold.spans| && i < |predicted.spans| ==>
        TokenIndices(gold.spans[i]) == predicted.spans[i]
  {
    if SpansMatch(gold, predicted) {
      assert SpanExactMatch(DocSpan(gold.docId, gold.spans[0]), DocSpan(predicted.docId, predicted.spans[0]));
    }
  }

  /**
   * Two relations' (Arg1, Arg2) groups match exactly when their Arg1 spans
   * match and their Arg2 spans match.
   */
  lemma Arg12MatchMeansBothArgsMatch(gold: GoldRelation, predicted: PredictedRelation)
    ensures SpansMatch(Arg12Group(gold), Arg12Group(predicted)) <==>
      SpanExactMatch(Arg1Span(gold), Arg1Span(predicted)) && SpanExactMatch(Arg2Span(gold), Arg2Span(predicted))
  {
    var g, p := Arg12Group(gold), Arg12Group(predicted);
    if SpanExactMatch(Arg1Span(gold), Arg1Span(predicted)) && SpanExactMatch(Arg2Span(gold), Arg2Span(predicted)) {
      forall i | 0 <= i < |g.spans| && i < |p.spans|
        ensures SpanExactMatch(DocSpan(g.docId, g.spans[i]), DocSpan(p.docId, p.spans[i]))
      {
        if i == 0 {
          assert DocSpan(g.docId, g.spans[i]) == Arg1Span(gold);
        } else {
          assert DocSpan(g.docId, g.spans[i]) == Arg2Span(gold);
        }
      }
    }
    if SpansMatch(g, p) {
      assert SpanExactMatch(DocSpan(g.docId, g.spans[0]), DocSpan(p.docId, p.spans[0]));
      assert SpanExactMatch(DocSpan(g.docId, g.spans[1]), DocSpan(p.docId, p.spans[1]));
    }
  }

  // ---------------------------------------------------------------------------
  // Greedy first-fit binary counter
  // ---------------------------------------------------------------------------

  /** A confusion-matrix observation, recorded as cm.add(first, second) records it. */
  type LabelPair = (string, string)

  const YesYes: LabelPair := ("yes", "yes")
  const YesNo: LabelPair := ("yes", "no")
  const NoYes: LabelPair := ("no", "yes")

  /**
   * Where the inner scan of compute_binary_eval_metric stops when it starts
   * at `from`: the first predicted item that matches the gold item g and is
   * not yet matched, if any (FirstFreeIsLowest states this).
   */
  function FirstFree<G, P>(g: G, predicted: seq<P>, matches: (G, P) -> bool,
                           matched: seq<bool>, from: nat): (r: Option<nat>)
    requires |matched| == |predicted| && from <= |predicted|
    ensures r.Some? ==> from <= r.value < |predicted|
    decreases |predicted| - from
  {
    if from == |predicted| then None
    else if matches(g, predicted[from]) && !matched[from] then Some(from)
    else FirstFree(g, predicted, matches, matched, from + 1)
  }

  /**
   * The scan picks the lowest index at or after `from` whose item matches g
   * and is free, and finds nothing only when there is no such index.
   */
  lemma {:induction false} FirstFreeIsLowest<G, P>(g: G, predicted: seq<P>, matches: (G, P) -> bool,
                                                   matched: seq<bool>, from: nat)
    requires |matched| == |predicted| && from <= |predicted|
    ensures var r := FirstFree(g, predicted, matches, matched, from);
      && (r.Some? ==> matches(g, predicted[r.value]) && !matched[r.value]
                      && forall i :: from <= i < r.value ==> !matches(g, predicted[i]) || matched[i])
      && (r.None? ==> forall i :: from <= i < |predicted| ==> !matches(g, predicted[i]) || matched[i])
    decreases |predicted| - from
  {
    if from < |predicted| && !(matches(g, predicted[from]) && !matched[from]) {
      FirstFreeIsLowest(g, predicted, matches, matched, from + 1);
    }
  }

  /** The matched_predicted flags once the given gold items have been scanned, in order. */
  function MatchedAfter<G, P>(gold: seq<G>, predicted: seq<P>, matches: (G, P) -> bool): (flags: seq<bool>)
    ensures |flags| == |predicted|
    decreases |gold|
  {
    if gold == [] then seq(|predicted|, _ => false)
    else
      var before := MatchedAfter(gold[..|gold| - 1], predicted, matches);
      match FirstFree(gold[|gold| - 1], predicted, matches, before, 0)
      case None => before
      case Some(i) => before[i := true]
  }

  /** The pairs added while scanning the given gold items: (yes, yes) for a hit, (yes, no) for a miss. */
  function GoldPairs<G, P>(gold: seq<G>, predicted: seq<P>, matches: (G, P) -> bool): multiset<LabelPair>
    decreases |gold|
  {
    if gold == [] then multiset{}
    else
      var before := MatchedAfter(gold[..|gold| - 1], predicted, matches);
      GoldPairs(gold[..|gold| - 1], predicted, matches)
        + multiset{if FirstFree(gold[|gold| - 1], predicted, matches, before, 0).Some? then YesYes else YesNo}
  }

  /** The pairs added in the final pass: one (no, yes) per predicted item left unmatched. */
  function UnmatchedPairs(flags: seq<bool>): multiset<LabelPair>
  {
    if flags == [] then multiset{}
    else UnmatchedPairs(flags[..|flags| - 1]) + (if flags[|flags| - 1] then multiset{} else multiset{NoYes})
  }

  /** Everything compute_binary_eval_metric adds to its confusion matrix. */
  function BinaryCounts<G, P>(gold: seq<G>, predicted: seq<P>, matches: (G, P) -> bool): multiset<LabelPair>
  {
    GoldPairs(gold, predicted, matches) + UnmatchedPairs(MatchedAfter(gold, predicted, matches))
  }

  /** The number of set flags. */
  function CountMatched(flags: seq<bool>): (n: nat)
    ensures n <= |flags|
  {
    if flags == [] then 0 else CountMatched(flags[..|flags| - 1]) + (if flags[|flags| - 1] then 1 else 0)
  }

  lemma {:induction false} CountMatchedNone(n: nat)
    ensures CountMatched(seq(n, _ => false)) == 0
  {
    if n > 0 {
      assert seq(n, _ => false)[..n - 1] == seq(n - 1, _ => false);
      CountMatchedNone(n - 1);
    }
  }

  /** Setting one clear flag raises the count by exactly one. */
  lemma {:induction false} CountMatchedFlip(flags: seq<bool>, i: nat)
    requires i < |flags| && !flags[i]
    ensures CountMatched(flags[i := true]) == CountMatched(flags) + 1
  {
    var n := |flags| - 1;
    if i == n {
      assert flags[i := true][..n] == flags[..n];
    } else {
      assert flags[i := true][..n] == flags[..n][i := true];
      CountMatchedFlip(flags[..n], i);
    }
  }

  /**
   * Each gold item adds exactly one pair; the (yes, yes) pairs are as many as
   * the flags set so far, since each hit sets one clear flag.
   */
  lemma {:induction false} GoldPairsTally<G, P>(gold: seq<G>, predicted: seq<P>, matches: (G, P) -> bool)
    ensures var gp := GoldPairs(gold, predicted, matches);
      gp[YesYes] == CountMatched(MatchedAfter(gold, predicted, matches))
      && gp[YesYes] + gp[YesNo] == |gold| && gp[NoYes] == 0 && |gp| == |gold|
  {
    if gold == [] {
      CountMatchedNone(|predicted|);
    } else {
      var init := gold[..|gold| - 1];
      GoldPairsTally(init, predicted, matches);
      var before := MatchedAfter(init, predicted, matches);
      FirstFreeIsLowest(gold[|gold| - 1], predicted, matches, before, 0);
      match FirstFree(gold[|gold| - 1], predicted, matches, before, 0)
      case None =>
      case Some(i) => CountMatchedFlip(before, i);
    }
  }

  /** The final pass adds one (no, yes) per clear flag and nothing else. */
  lemma {:induction false} UnmatchedPairsTally(flags: seq<bool>)
    ensures var up := UnmatchedPairs(flags);
      up[NoYes] == |up| == |flags| - CountMatched(flags) && up[YesYes] == 0 && up[YesNo] == 0
  {
    if flags != [] {
      UnmatchedPairsTally(flags[..|flags| - 1]);
    }
  }

  /**
   * The counts of the binary confusion matrix: hits plus misses are the gold
   * items, hits plus spurious predictions are the predicted items, so there
   * are no more hits than either list has items, and no other pair is added.
   */
  lemma BinaryCountsBalance<G, P>(gold: seq<G>, predicted: seq<P>, matches: (G, P) -> bool)
    ensures var cm := BinaryCounts(gold, predicted, matches);
      cm[YesYes] + cm[YesNo] == |gold|
      && cm[YesYes] + cm[NoYes] == |predicted|
      && cm[YesYes] <= |gold| && cm[YesYes] <= |predicted|
      && |cm| == cm[YesYes] + cm[YesNo] + cm[NoYes]
  {
    GoldPairsTally(gold, predicted, matches);
    UnmatchedPairsTally(MatchedAfter(gold, predicted, matches));
  }

  /** Matched flags are never reset: a flag set after a prefix of the gold items stays set. */
  lemma {:induction false} MatchedNeverReset<G, P>(gold: seq<G>, predicted: seq<P>, matches: (G, P) -> bool, k: nat)
    requires k <= |gold|
    ensures forall i :: 0 <= i < |predicted| && MatchedAfter(gold[..k], predicted, matches)[i] ==>
      MatchedAfter(gold, predicted, matches)[i]
  {
    if k == |gold| {
      assert gold[..k] == gold;
    } else {
      var init := gold[..|gold| - 1];
      assert init[..k] == gold[..k];
      MatchedNeverReset(init, predicted, matches, k);
    }
  }

  /**
   * The greedy step for gold item k: either no predicted item both matches it
   * and is free, and the flags stay as they are, or the lowest such item i is
   * taken and exactly its flag flips from clear to set.
   */
  lemma GreedyStep<G, P>(gold: seq<G>, predicted: seq<P>, matches: (G, P) -> bool, k: nat)
    requires k < |gold|
    ensures var before := MatchedAfter(gold[..k], predicted, matches);
      var after := MatchedAfter(gold[..k + 1], predicted, matches);
      (after == before && forall i :: 0 <= i < |predicted| ==> !matches(gold[k], predicted[i]) || before[i])
      || (exists i :: 0 <= i < |predicted| && !before[i] && matches(gold[k], predicted[i])
            && after == before[i := true]
            && forall j :: 0 <= j < i ==> !matches(gold[k], predicted[j]) || before[j])
  {
    assert gold[..k + 1][..k] == gold[..k];
    var before := MatchedAfter(gold[..k], predicted, matches);
    FirstFreeIsLowest(gold[k], predicted, matches, before, 0);
    match FirstFree(gold[k], predicted, matches, before, 0)
    case None =>
    case Some(i) =>
  }

  /** One more gold item: its scan result decides the new flags and the pair it adds. */
  lemma GoldPrefixStep<G, P>(gold: seq<G>, predicted: seq<P>, matches: (G, P) -> bool, k: nat)
    requires k < |gold|
    ensures var before := MatchedAfter(gold[..k], predicted, matches);
      var r := FirstFree(gold[k], predicted, matches, before, 0);
      && MatchedAfter(gold[..k + 1], predicted, matches) == (if r.Some? then before[r.value := true] else before)
      && GoldPairs(gold[..k + 1], predicted, matches)
         == GoldPairs(gold[..k], predicted, matches) + multiset{if r.Some? then YesYes else YesNo}
  {
    assert gold[..k + 1][..k] == gold[..k];
  }

  /** One more flag in the final pass. */
  lemma UnmatchedPrefixStep(flags: seq<bool>, i: nat)
    requires i < |flags|
    ensures UnmatchedPairs(flags[..i + 1])
         == UnmatchedPairs(flags[..i]) + (if flags[i] then multiset{} else multiset{NoYes})
  {
    assert flags[..i + 1][..i] == flags[..i];
  }

  /**
   * compute_binary_eval_metric: scan the gold items in order; each takes the
   * first predicted item that matches it and is still free, marking it
   * matched, and adds (yes, yes), or adds (yes, no) when there is none; then
   * every predicted item left unmatched adds (no, yes).
   */
  method ComputeBinaryEvalMetric<G, P>(gold: seq<G>, predicted: seq<P>, matches: (G, P) -> bool)
    returns (cm: multiset<LabelPair>)
    ensures cm == BinaryCounts(gold, predicted, matches)
    ensures cm[YesYes] + cm[YesNo] == |gold|
    ensures cm[YesYes] + cm[NoYes] == |predicted|
    ensures |cm| == cm[YesYes] + cm[YesNo] + cm[NoYes]
  {
    cm := multiset{};
    var matchedPredicted := new bool[|predicted|](_ => false);
    for k := 0 to |gold|
      invariant matchedPredicted[..] == MatchedAfter(gold[..k], predicted, matches)
      invariant cm == GoldPairs(gold[..k], predicted, matches)
    {
      GoldPrefixStep(gold, predicted, matches, k);
      ghost var before := matchedPredicted[..];
      ghost var pairsBefore := cm;
      var foundMatch := false;
      var i := 0;
      while i < |predicted|
        invariant 0 <= i <= |predicted|
        invariant matchedPredicted[..] == before && cm == pairsBefore
        invariant FirstFree(gold[k], predicted, matches, before, 0) == FirstFree(gold[k], predicted, matches, before, i)
      {
        if matches(gold[k], predicted[i]) && !matchedPredicted[i] {
          cm := cm + multiset{YesYes};
          matchedPredicted[i] := true;
          foundMatch := true;
          break;
        }
        i := i + 1;
      }
      if !foundMatch {
        assert FirstFree(gold[k], predicted, matches, before, 0).None?;
        cm := cm + multiset{YesNo};
      } else {
        assert FirstFree(gold[k], predicted, matches, before, 0) == Some(i);
      }
    }
    assert gold[..|gold|] == gold;
    ghost var flags := matchedPredicted[..];
    for i := 0 to |predicted|
      invariant matchedPredicted[..] == flags
      invariant cm == GoldPairs(gold, predicted, matches) + UnmatchedPairs(flags[..i])
    {
      UnmatchedPrefixStep(flags, i);
      if !matchedPredicted[i] {
        cm := cm + multiset{NoYes};
      }
    }
    assert flags[..|predicted|] == flags;
    BinaryCountsBalance(gold, predicted, matches);
  }

  // ---------------------------------------------------------------------------
  // Link builder
  // ---------------------------------------------------------------------------

  /** A matching function over (DocID, (Arg1, Arg2)) groups. */
  type GroupMatcher = (DocSpanGroup<TokenAddress>, DocSpanGroup<int>) -> bool

  /** Gold relation gi and predicted relation pi match on their (Arg1, Arg2) groups. */
  predicate ArgsMatch(gold: seq<GoldRelation>, predicted: seq<PredictedRelation>, matches: GroupMatcher,
                      gi: nat, pi: nat)
    requires gi < |gold| && pi < |predicted|
  {
    matches(Arg12Group(gold[gi]), Arg12Group(predicted[pi]))
  }

  /** The largest predicted index below upTo that matches gold relation gi, if any (see LastMatchingPredictedIsLargest). */
  function LastMatchingPredicted(gold: seq<GoldRelation>, predicted: seq<PredictedRelation>,
                                 matches: GroupMatcher, gi: nat, upTo: nat): (r: Option<nat>)
    requires gi < |gold| && upTo <= |predicted|
    ensures r.Some? ==> r.value < upTo
    decreases upTo
  {
    if upTo == 0 then None
    else if ArgsMatch(gold, predicted, matches, gi, upTo - 1) then Some(upTo - 1)
    else LastMatchingPredicted(gold, predicted, matches, gi, upTo - 1)
  }

  /** The largest gold index below upTo that matches predicted relation pi, if any (see LastMatchingGoldIsLargest). */
  function LastMatchingGold(gold: seq<GoldRelation>, predicted: seq<PredictedRelation>,
                            matches: GroupMatcher, pi: nat, upTo: nat): (r: Option<nat>)
    requires pi < |predicted| && upTo <= |gold|
    ensures r.Some? ==> r.value < upTo
    decreases upTo
  {
    if upTo == 0 then None
    else if ArgsMatch(gold, predicted, matches, upTo - 1, pi) then Some(upTo - 1)
    else LastMatchingGold(gold, predicted, matches, pi, upTo - 1)
  }

  /**
   * LastMatchingPredicted finds a matching index exactly when one exists
   * below upTo, and the one it finds is the largest.
   */
  lemma {:induction false} LastMatchingPredictedIsLargest(gold: seq<GoldRelation>, predicted: seq<PredictedRelation>,
                                                          matches: GroupMatcher, gi: nat, upTo: nat)
    requires gi < |gold| && upTo <= |predicted|
    ensures var r := LastMatchingPredicted(gold, predicted, matches, gi, upTo);
      && (r.Some? ==> ArgsMatch(gold, predicted, matches, gi, r.value)
                      && forall pi :: r.value < pi < upTo ==> !ArgsMatch(gold, predicted, matches, gi, pi))
      && (r.None? ==> forall pi :: 0 <= pi < upTo ==> !ArgsMatch(gold, predicted, matches, gi, pi))
    decreases upTo
  {
    if upTo > 0 && !ArgsMatch(gold, predicted, matches, gi, upTo - 1) {
      LastMatchingPredictedIsLargest(gold, predicted, matches, gi, upTo - 1);
    }
  }

  /**
   * LastMatchingGold finds a matching index exactly when one exists below
   * upTo, and the one it finds is the largest.
   */
  lemma {:induction false} LastMatchingGoldIsLargest(gold: seq<GoldRelation>, predicted: seq<PredictedRelation>,
                                                     matches: GroupMatcher, pi: nat, upTo: nat)
    requires pi < |predicted| && upTo <= |gold|
    ensures var r := LastMatchingGold(gold, predicted, matches, pi, upTo);
      && (r.Some? ==> ArgsMatch(gold, predicted, matches, r.value, pi)
                      && forall gi :: r.value < gi < upTo ==> !ArgsMatch(gold, predicted, matches, gi, pi))
      && (r.None? ==> forall gi :: 0 <= gi < upTo ==> !ArgsMatch(gold, predicted, matches, gi, pi))
    decreases upTo
  {
    if upTo > 0 && !ArgsMatch(gold, predicted, matches, upTo - 1, pi) {
      LastMatchingGoldIsLargest(gold, predicted, matches, pi, upTo - 1);
    }
  }

  /**
   * The predicted index recorded for gold index gi once the nested scan has
   * visited every pair in the first `rows` rows and the first `cols` pairs
   * of row `rows`.
   */
  function GoldLinkSoFar(gold: seq<GoldRelation>, predicted: seq<PredictedRelation>, matches: GroupMatcher,
                         gi: nat, rows: nat, cols: nat): Option<nat>
    requires rows <= |gold| && cols <= |predicted| && (rows == |gold| ==> cols == 0)
  {
    if gi < rows then LastMatchingPredicted(gold, predicted, matches, gi, |predicted|)
    else if gi == rows && cols > 0 then LastMatchingPredicted(gold, predicted, matches, gi, cols)
    else None
  }

  /** The gold index recorded for predicted index pi at the same point of the scan. */
  function PredictedLinkSoFar(gold: seq<GoldRelation>, predicted: seq<PredictedRelation>, matches: GroupMatcher,
                              pi: nat, rows: nat, cols: nat): Option<nat>
    requires rows <= |gold| && cols <= |predicted| && (rows == |gold| ==> cols == 0)
  {
    if pi >= |predicted| then None
    else if pi < cols then LastMatchingGold(gold, predicted, matches, pi, rows + 1)
    else LastMatchingGold(gold, predicted, matches, pi, rows)
  }

  /** The gold-to-predicted map holds what the scan has recorded so far. */
  ghost predicate GoldMapSoFar(gold: seq<GoldRelation>, predicted: seq<PredictedRelation>, matches: GroupMatcher,
                               goldToPredicted: map<nat, PredictedRelation>, rows: nat, cols: nat)
    requires rows <= |gold| && cols <= |predicted| && (rows == |gold| ==> cols == 0)
  {
    forall gi: nat :: (gi in goldToPredicted <==> GoldLinkSoFar(gold, predicted, matches, gi, rows, cols).Some?)
      && (gi in goldToPredicted ==>
            goldToPredicted[gi] == predicted[GoldLinkSoFar(gold, predicted, matches, gi, rows, cols).value])
  }

  /** The predicted-to-gold map holds what the scan has recorded so far. */
  ghost predicate PredictedMapSoFar(gold: seq<GoldRelation>, predicted: seq<PredictedRelation>, matches: GroupMatcher,
                                    predictedToGold: map<nat, GoldRelation>, rows: nat, cols: nat)
    requires rows <= |gold| && cols <= |predicted| && (rows == |gold| ==> cols == 0)
  {
    forall pi: nat :: (pi in predictedToGold <==> PredictedLinkSoFar(gold, predicted, matches, pi, rows, cols).Some?)
      && (pi in predictedToGold ==>
            predictedToGold[pi] == gold[PredictedLinkSoFar(gold, predicted, matches, pi, rows, cols).value])
  }

  /** Visiting pair (rows, cols) keeps the gold-to-predicted map up to date. */
  lemma GoldMapStep(gold: seq<GoldRelation>, predicted: seq<PredictedRelation>, matches: GroupMatcher,
                    goldToPredicted: map<nat, PredictedRelation>, rows: nat, cols: nat)
    requires rows < |gold| && cols < |predicted|
    requires GoldMapSoFar(gold, predicted, matches, goldToPredicted, rows, cols)
    ensures GoldMapSoFar(gold, predicted, matches,
      if ArgsMatch(gold, predicted, matches, rows, cols) then goldToPredicted[rows := predicted[cols]] else goldToPredicted,
      rows, cols + 1)
  {
    var m := if ArgsMatch(gold, predicted, matches, rows, cols) then goldToPredicted[rows := predicted[cols]] else goldToPredicted;
    forall gi: nat
      ensures (gi in m <==> GoldLinkSoFar(gold, predicted, matches, gi, rows, cols + 1).Some?)
        && (gi in m ==> m[gi] == predicted[GoldLinkSoFar(gold, predicted, matches, gi, rows, cols + 1).value])
    {
      if gi != rows {
        assert GoldLinkSoFar(gold, predicted, matches, gi, rows, cols + 1)
            == GoldLinkSoFar(gold, predicted, matches, gi, rows, cols);
      }
    }
  }

  /** Finishing row `rows` is starting row rows + 1. */
  lemma GoldMapNextRow(gold: seq<GoldRelation>, predicted: seq<PredictedRelation>, matches: GroupMatcher,
                       goldToPredicted: map<nat, PredictedRelation>, rows: nat)
    requires rows < |gold|
    requires GoldMapSoFar(gold, predicted, matches, goldToPredicted, rows, |predicted|)
    ensures GoldMapSoFar(gold, predicted, matches, goldToPredicted, rows + 1, 0)
  {
    forall gi: nat
      ensures GoldLinkSoFar(gold, predicted, matches, gi, rows + 1, 0)
           == GoldLinkSoFar(gold, predicted, matches, gi, rows, |predicted|)
    {
    }
  }

  /** Visiting pair (rows, cols) keeps the predicted-to-gold map up to date. */
  lemma PredictedMapStep(gold: seq<GoldRelation>, predicted: seq<PredictedRelation>, matches: GroupMatcher,
                         predictedToGold: map<nat, GoldRelation>, rows: nat, cols: nat)
    requires rows < |gold| && cols < |predicted|
    requires PredictedMapSoFar(gold, predicted, matches, predictedToGold, rows, cols)
    ensures PredictedMapSoFar(gold, predicted, matches,
      if ArgsMatch(gold, predicted, matches, rows, cols) then predictedToGold[cols := gold[rows]] else predictedToGold,
      rows, cols + 1)
  {
    var m := if ArgsMatch(gold, predicted, matches, rows, cols) then predictedToGold[cols := gold[rows]] else predictedToGold;
    forall pi: nat
      ensures (pi in m <==> PredictedLinkSoFar(gold, predicted, matches, pi, rows, cols + 1).Some?)
        && (pi in m ==> m[pi] == gold[PredictedLinkSoFar(gold, predicted, matches, pi, rows, cols + 1).value])
    {
      if pi != cols {
        assert PredictedLinkSoFar(gold, predicted, matches, pi, rows, cols + 1)
            == PredictedLinkSoFar(gold, predicted, matches, pi, rows, cols);
      }
    }
  }

  /** Finishing row `rows` is starting row rows + 1. */
  lemma PredictedMapNextRow(gold: seq<GoldRelation>, predicted: seq<PredictedRelation>, matches: GroupMatcher,
                            predictedToGold: map<nat, GoldRelation>, rows: nat)
    requires rows < |gold|
    requires PredictedMapSoFar(gold, predicted, matches, predictedToGold, rows, |predicted|)
    ensures PredictedMapSoFar(gold, predicted, matches, predictedToGold, rows + 1, 0)
  {
    forall pi: nat
      ensures PredictedLinkSoFar(gold, predicted, matches, pi, rows + 1, 0)
           == PredictedLinkSoFar(gold, predicted, matches, pi, rows, |predicted|)
    {
    }
  }

  /**
   * The gold-to-predicted entries for the first `rows` gold relations: each
   * gold index with a matching predicted relation, mapped to the last one
   * that matches.
   */
  function GoldLinksUpTo(gold: seq<GoldRelation>, predicted: seq<PredictedRelation>,
                         matches: GroupMatcher, rows: nat): map<nat, PredictedRelation>
    requires rows <= |gold|
  {
    if rows == 0 then map[]
    else
      var earlier := GoldLinksUpTo(gold, predicted, matches, rows - 1);
      match LastMatchingPredicted(gold, predicted, matches, rows - 1, |predicted|)
      case None => earlier
      case Some(pi) => earlier[rows - 1 := predicted[pi]]
  }

  /**
   * The predicted-to-gold entries for the first `cols` predicted relations:
   * each predicted index with a matching gold relation, mapped to the last
   * one that matches.
   */
  function PredictedLinksUpTo(gold: seq<GoldRelation>, predicted: seq<PredictedRelation>,
                              matches: GroupMatcher, cols: nat): map<nat, GoldRelation>
    requires cols <= |predicted|
  {
    if cols == 0 then map[]
    else
      var earlier := PredictedLinksUpTo(gold, predicted, matches, cols - 1);
      match LastMatchingGold(gold, predicted, matches, cols - 1, |gold|)
      case None => earlier
      case Some(gi) => earlier[cols - 1 := gold[gi]]
  }

  /** The gold-to-predicted map of the whole linkage. */
  function GoldToPredictedLinks(gold: seq<GoldRelation>, predicted: seq<PredictedRelation>,
                                matches: GroupMatcher): map<nat, PredictedRelation>
  {
    GoldLinksUpTo(gold, predicted, matches, |gold|)
  }

  /** The predicted-to-gold map of the whole linkage. */
  function PredictedToGoldLinks(gold: seq<GoldRelation>, predicted: seq<PredictedRelation>,
                                matches: GroupMatcher): map<nat, GoldRelation>
  {
    PredictedLinksUpTo(gold, predicted, matches, |predicted|)
  }

  /** GoldLinksUpTo holds, for each gold index below rows, the last predicted match, if any. */
  lemma {:induction false} GoldLinksUpToEntries(gold: seq<GoldRelation>, predicted: seq<PredictedRelation>,
                                                matches: GroupMatcher, rows: nat, gi: nat)
    requires rows <= |gold|
    ensures gi in GoldLinksUpTo(gold, predicted, matches, rows) <==>
      gi < rows && LastMatchingPredicted(gold, predicted, matches, gi, |predicted|).Some?
    ensures gi in GoldLinksUpTo(gold, predicted, matches, rows) ==>
      GoldLinksUpTo(gold, predicted, matches, rows)[gi]
        == predicted[LastMatchingPredicted(gold, predicted, matches, gi, |predicted|).value]
  {
    if rows > 0 {
      var earlier := GoldLinksUpTo(gold, predicted, matches, rows - 1);
      GoldLinksUpToEntries(gold, predicted, matches, rows - 1, gi);
      match LastMatchingPredicted(gold, predicted, matches, rows - 1, |predicted|)
      case None =>
        assert GoldLinksUpTo(gold, predicted, matches, rows) == earlier;
      case Some(pi) =>
        assert GoldLinksUpTo(gold, predicted, matches, rows) == earlier[rows - 1 := predicted[pi]];
    }
  }

  /** PredictedLinksUpTo holds, for each predicted index below cols, the last gold match, if any. */
  lemma {:induction false} PredictedLinksUpToEntries(gold: seq<GoldRelation>, predicted: seq<PredictedRelation>,
                                                     matches: GroupMatcher, cols: nat, pi: nat)
    requires cols <= |predicted|
    ensures pi in PredictedLinksUpTo(gold, predicted, matches, cols) <==>
      pi < cols && LastMatchingGold(gold, predicted, matches, pi, |gold|).Some?
    ensures pi in PredictedLinksUpTo(gold, predicted, matches, cols) ==>
      PredictedLinksUpTo(gold, predicted, matches, cols)[pi]
        == gold[LastMatchingGold(gold, predicted, matches, pi, |gold|).value]
  {
    if cols > 0 {
      var earlier := PredictedLinksUpTo(gold, predicted, matches, cols - 1);
      PredictedLinksUpToEntries(gold, predicted, matches, cols - 1, pi);
      match LastMatchingGold(gold, predicted, matches, cols - 1, |gold|)
      case None =>
        assert PredictedLinksUpTo(gold, predicted, matches, cols) == earlier;
      case Some(gi) =>
        assert PredictedLinksUpTo(gold, predicted, matches, cols) == earlier[cols - 1 := gold[gi]];
    }
  }

  /** Once every row is scanned, the gold-to-predicted map is the linkage's. */
  lemma GoldMapComplete(gold: seq<GoldRelation>, predicted: seq<PredictedRelation>, matches: GroupMatcher,
                        goldToPredicted: map<nat, PredictedRelation>)
    requires GoldMapSoFar(gold, predicted, matches, goldToPredicted, |gold|, 0)
    ensures goldToPredicted == GoldToPredictedLinks(gold, predicted, matches)
  {
    var links := GoldToPredictedLinks(gold, predicted, matches);
    forall gi: nat
      ensures gi in goldToPredicted <==> gi in links
      ensures gi in goldToPredicted ==> goldToPredicted[gi] == links[gi]
    {
      GoldLinksUpToEntries(gold, predicted, matches, |gold|, gi);
      assert GoldLinkSoFar(gold, predicted, matches, gi, |gold|, 0)
          == if gi < |gold| then LastMatchingPredicted(gold, predicted, matches, gi, |predicted|) else None;
    }
  }

  /** Once every row is scanned, the predicted-to-gold map is the linkage's. */
  lemma PredictedMapComplete(gold: seq<GoldRelation>, predicted: seq<PredictedRelation>, matches: GroupMatcher,
                             predictedToGold: map<nat, GoldRelation>)
    requires PredictedMapSoFar(gold, predicted, matches, predictedToGold, |gold|, 0)
    ensures predictedToGold == PredictedToGoldLinks(gold, predicted, matches)
  {
    var links := PredictedToGoldLinks(gold, predicted, matches);
    forall pi: nat
      ensures pi in predictedToGold <==> pi in links
      ensures pi in predictedToGold ==> predictedToGold[pi] == links[pi]
    {
      PredictedLinksUpToEntries(gold, predicted, matches, |predicted|, pi);
      assert PredictedLinkSoFar(gold, predicted, matches, pi, |gold|, 0)
          == if pi < |predicted| then LastMatchingGold(gold, predicted, matches, pi, |gold|) else None;
    }
  }

  /**
   * _link_gold_predicted: for every gold index and every predicted index,
   * in order, a match records the predicted relation under the gold index
   * and the gold relation under the predicted index, overwriting what an
   * earlier match recorded. So gold index gi is a key exactly when some
   * predicted relation matches it, and its value is the predicted relation
   * with the largest matching index; symmetrically for the other map.
   */
  method LinkGoldPredicted(gold: seq<GoldRelation>, predicted: seq<PredictedRelation>, matches: GroupMatcher)
    returns (goldToPredicted: map<nat, PredictedRelation>, predictedToGold: map<nat, GoldRelation>)
    ensures goldToPredicted == GoldToPredictedLinks(gold, predicted, matches)
    ensures predictedToGold == PredictedToGoldLinks(gold, predicted, matches)
  {
    goldToPredicted := map[];
    predictedToGold := map[];
    var goldArg12List := seq(|gold|, i requires 0 <= i < |gold| => Arg12Group(gold[i]));
    var predictedArg12List := seq(|predicted|, i requires 0 <= i < |predicted| => Arg12Group(predicted[i]));
    for gi := 0 to |gold|
      invariant GoldMapSoFar(gold, predicted, matches, goldToPredicted, gi, 0)
      invariant PredictedMapSoFar(gold, predicted, matches, predictedToGold, gi, 0)
    {
      for pi := 0 to |predicted|
        invariant GoldMapSoFar(gold, predicted, matches, goldToPredicted, gi, pi)
        invariant PredictedMapSoFar(gold, predicted, matches, predictedToGold, gi, pi)
      {
        GoldMapStep(gold, predicted, matches, goldToPredicted, gi, pi);
        PredictedMapStep(gold, predicted, matches, predictedToGold, gi, pi);
        if matches(goldArg12List[gi], predictedArg12List[pi]) {
          goldToPredicted := goldToPredicted[gi := predicted[pi]];
          predictedToGold := predictedToGold[pi := gold[gi]];
        }
      }
      GoldMapNextRow(gold, predicted, matches, goldToPredicted, gi);
      PredictedMapNextRow(gold, predicted, matches, predictedToGold, gi);
    }
    GoldMapComplete(gold, predicted, matches, goldToPredicted);
    PredictedMapComplete(gold, predicted, matches, predictedToGold);
  }

  /**
   * Gold index gi is a key of the gold-to-predicted map exactly when some
   * predicted relation matches it, and then its value is the matching
   * predicted relation with the largest index.
   */
  lemma GoldLinksAreLastMatches(gold: seq<GoldRelation>, predicted: seq<PredictedRelation>,
                                matches: GroupMatcher, gi: nat)
    requires gi < |gold|
    ensures gi in GoldToPredictedLinks(gold, predicted, matches) <==>
      exists pi :: 0 <= pi < |predicted| && ArgsMatch(gold, predicted, matches, gi, pi)
    ensures gi in GoldToPredictedLinks(gold, predicted, matches) ==>
      exists pi :: 0 <= pi < |predicted| && ArgsMatch(gold, predicted, matches, gi, pi)
        && GoldToPredictedLinks(gold, predicted, matches)[gi] == predicted[pi]
        && forall later :: pi < later < |predicted| ==> !ArgsMatch(gold, predicted, matches, gi, later)
  {
    GoldLinksUpToEntries(gold, predicted, matches, |gold|, gi);
    LastMatchingPredictedIsLargest(gold, predicted, matches, gi, |predicted|);
  }

  /**
   * Predicted index pi is a key of the predicted-to-gold map exactly when
   * some gold relation matches it, and then its value is the matching gold
   * relation with the largest index.
   */
  lemma PredictedLinksAreLastMatches(gold: seq<GoldRelation>, predicted: seq<PredictedRelation>,
                                     matches: GroupMatcher, pi: nat)
    requires pi < |predicted|
    ensures pi in PredictedToGoldLinks(gold, predicted, matches) <==>
      exists gi :: 0 <= gi < |gold| && ArgsMatch(gold, predicted, matches, gi, pi)
    ensures pi in PredictedToGoldLinks(gold, predicted, matches) ==>
      exists gi :: 0 <= gi < |gold| && ArgsMatch(gold, predicted, matches, gi, pi)
        && PredictedToGoldLinks(gold, predicted, matches)[pi] == gold[gi]
        && forall later :: gi < later < |gold| ==> !ArgsMatch(gold, predicted, matches, later, pi)
  {
    PredictedLinksUpToEntries(gold, predicted, matches, |predicted|, pi);
    LastMatchingGoldIsLargest(gold, predicted, matches, pi, |gold|);
  }

  /** Only indices of the lists are keys of the two maps. */
  lemma LinkKeysAreIndices(gold: seq<GoldRelation>, predicted: seq<PredictedRelation>, matches: GroupMatcher)
    ensures forall gi :: gi in GoldToPredictedLinks(gold, predicted, matches) ==> gi < |gold|
    ensures forall pi :: pi in PredictedToGoldLinks(gold, predicted, matches) ==> pi < |predicted|
  {
    forall gi: nat | gi in GoldToPredictedLinks(gold, predicted, matches)
      ensures gi < |gold|
    {
      GoldLinksUpToEntries(gold, predicted, matches, |gold|, gi);
    }
    forall pi: nat | pi in PredictedToGoldLinks(gold, predicted, matches)
      ensures pi < |predicted|
    {
      PredictedLinksUpToEntries(gold, predicted, matches, |predicted|, pi);
    }
  }

  /** A matching pair on its own is linked both ways. */
  lemma SinglePairLinked(g: GoldRelation, p: PredictedRelation, matches: GroupMatcher)
    requires matches(Arg12Group(g), Arg12Group(p))
    ensures GoldToPredictedLinks([g], [p], matches) == map[0 := p]
    ensures PredictedToGoldLinks([g], [p], matches) == map[0 := g]
  {
    assert ArgsMatch([g], [p], matches, 0, 0);
    assert LastMatchingPredicted([g], [p], matches, 0, 1) == Some(0);
    assert LastMatchingGold([g], [p], matches, 0, 1) == Some(0);
    assert GoldLinksUpTo([g], [p], matches, 1) == GoldLinksUpTo([g], [p], matches, 0)[0 := p];
    assert PredictedLinksUpTo([g], [p], matches, 1) == PredictedLinksUpTo([g], [p], matches, 0)[0 := g];
  }

  /**
   * The links need not be one-to-one: two gold relations with the same
   * arguments are both linked to the single predicted relation that matches
   * them, which is linked back to the second of them only.
   */
  lemma LinksNeedNotBeInjective(g: GoldRelation, p: PredictedRelation, matches: GroupMatcher)
    requires matches(Arg12Group(g), Arg12Group(p))
    ensures GoldToPredictedLinks([g, g], [p], matches) == map[0 := p, 1 := p]
    ensures PredictedToGoldLinks([g, g], [p], matches) == map[0 := g]
  {
    assert ArgsMatch([g, g], [p], matches, 0, 0);
    assert ArgsMatch([g, g], [p], matches, 1, 0);
    assert LastMatchingPredicted([g, g], [p], matches, 0, 1) == Some(0);
    assert LastMatchingPredicted([g, g], [p], matches, 1, 1) == Some(0);
    assert LastMatchingGold([g, g], [p], matches, 0, 2) == Some(1);
    assert GoldLinksUpTo([g, g], [p], matches, 1) == GoldLinksUpTo([g, g], [p], matches, 0)[0 := p];
    assert GoldLinksUpTo([g, g], [p], matches, 2) == GoldLinksUpTo([g, g], [p], matches, 1)[1 := p];
    assert PredictedLinksUpTo([g, g], [p], matches, 1) == PredictedLinksUpTo([g, g], [p], matches, 0)[0 := g];
  }
}
