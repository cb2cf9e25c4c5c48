# CoNLL 2015 shallow discourse parsing scorer: matching and counting core

This project models, in Dafny, the part of the CoNLL 2015 shared-task scorer
that compares a gold list of discourse relations with a system's predicted
list. Every relation carries a DocID, a Type, a Connective, Arg1 and Arg2
spans, and a list of senses whose first entry is the primary sense.

- `relations.dfy` holds the relation records and the (DocID, tokens) views
  the scorer compares. It also holds `combine_spans`, the span-merge helper.
  A gold token address is a sequence of integers with at least three
  components, because the scorer reads component 2, the document token
  offset. A predicted token list is already a list of offsets.
- `matcher.dfy` holds exact span equality and span-group equality. It also
  holds the two matching disciplines, kept apart as in the scorer:
  - the greedy first-fit counter behind every yes/no metric, where each
    predicted item is consumed at most once;
  - the link builder behind the sense and relation scores, where a later
    match overwrites an earlier one.
- `scorer.dfy` holds the per-task projections (Explicit connectives, Arg1,
  Arg2, and the (Arg1, Arg2) pair). It also holds the four evaluations:
  connectives, argument extraction, the sense tally, and the integer count
  `correct` of fully correct relations.

A confusion matrix is modelled by the label pairs passed to `cm.add(first, second)`,
each recorded literally as the pair, so that the cells are not reinterpreted:
- The binary counter returns the multiset of its pairs. A missed gold span
  is ("yes", "no"); a spurious prediction is ("no", "yes").
- The sense tally returns its pairs as a sequence, in the order they are
  added. The matrix counts are the multiset of that sequence. A missed gold
  relation is ("no", gold sense); an unlinked prediction is
  (predicted sense, "no").

The imperative parts of the scorer are methods with loops. Each is proved
equal to a specification stated independently of the loop, and the
properties of that specification are proved as lemmas. The parts are:
- the flag array of the counter, with its early exit, against recursive
  functions over the gold prefix;
- the two dictionaries that the link builder fills and overwrites, against
  maps that hold, per index, the last match;
- the flag accumulated by group matching, against a quantified predicate
  over the positional pairs;
- the loops of the sense tally and of the relation count, against
  recursive functions over the gold and predicted prefixes.

The docstring of `_link_gold_predicted` (scorer.py:203-205) describes two
maps from index to index. The code (scorer.py:213-217) stores the relation
records themselves, and a later match overwrites an earlier one, so neither
map need be one-to-one. The model follows the code. A lemma proves a
consequence: `correct` can exceed the number of predicted relations. Span
matching reads component 2 of each gold token address (scorer.py:73), the
token's offset in the document, and so does the model.

## Model

| member | source | states |
|---|---|---|
| Relations.Arg12Group | scorer.py:209-212 | the (DocID, (Arg1 tokens, Arg2 tokens)) view: exactly two spans, Arg1's then Arg2's, under the relation's DocID |
| Relations.CombineSpans | scorer.py:159-168 | each of the four lists of the merged span is span1's list followed by span2's (lengths add, prefix and suffix are the originals) |
| Matcher.TokenIndices | scorer.py:73 | the gold offsets list has one entry per address, entry i being component 2 of address i |
| Matcher.TokenIndicesAppend | scorer.py:73 | the offsets of concatenated token lists are the concatenated offsets |
| Matcher.SpanExactMatch | scorer.py:61-75 | true iff the DocIDs are equal and the gold offsets equal the predicted list: same length and, position by position, component 2 equals the predicted offset |
| Matcher.SpanExactMatchReflexive | scorer.py:71-75 | a gold span matches the predicted span carrying its own DocID and offsets |
| Matcher.SpanExactMatchUnique | scorer.py:71-75 | a gold span matches at most one predicted span value |
| Matcher.CombinedSpansMatch | scorer.py:159-168 | merging two matching pairs of spans gives a matching pair |
| Matcher.SpansExactMatch | scorer.py:77-96 | the accumulated flag equals the conjunction of exact matches over the positional pairs that zip forms |
| Matcher.SpansMatchWithoutPairs | scorer.py:87-96 | with an empty group on either side the groups match, whatever the DocIDs |
| Matcher.SpansMatchWithPairs | scorer.py:87-96 | with at least one pair, the groups match iff the DocIDs agree and every zipped pair agrees on offsets; surplus spans of the longer group are ignored |
| Matcher.Arg12MatchMeansBothArgsMatch | scorer.py:42-45 | two relations' (Arg1, Arg2) groups match iff their Arg1 spans match and their Arg2 spans match |
| Matcher.FirstFreeIsLowest | scorer.py:181-186 | the inner scan stops at the lowest index at or after its start that matches and is unmatched, and finds nothing only when no such index exists |
| Matcher.GoldPairsTally | scorer.py:179-188 | the gold pass adds exactly one pair per gold item, (yes, yes) as often as flags are set, and never (no, yes) |
| Matcher.UnmatchedPairsTally | scorer.py:190-192 | the final pass adds one (no, yes) per clear flag and nothing else |
| Matcher.BinaryCountsBalance | scorer.py:178-192 | yes/yes + yes/no = number of gold items; yes/yes + no/yes = number of predicted items; yes/yes is at most either; no other pair occurs |
| Matcher.MatchedNeverReset | scorer.py:178-186 | a predicted item's flag, once set after some gold prefix, stays set after every longer prefix |
| Matcher.GreedyStep | scorer.py:179-186 | each gold item either leaves the flags unchanged (no free match exists) or sets exactly the flag of the lowest free matching item |
| Matcher.GoldPrefixStep | scorer.py:179-188 | one more gold item: its scan result determines the new flags and the one pair it adds |
| Matcher.UnmatchedPrefixStep | scorer.py:190-192 | one more flag in the final pass adds (no, yes) exactly when the flag is clear |
| Matcher.ComputeBinaryEvalMetric | scorer.py:170-193 | the confusion pairs equal the greedy specification BinaryCounts, with the yes/no balance counts |
| Matcher.LastMatchingPredictedIsLargest | scorer.py:213-216 | the predicted index kept for a gold index is the largest matching one, and none is kept only when none matches |
| Matcher.LastMatchingGoldIsLargest | scorer.py:213-217 | the gold index kept for a predicted index is the largest matching one, and none is kept only when none matches |
| Matcher.GoldMapStep | scorer.py:214-216 | visiting one (gi, pi) pair keeps the gold-to-predicted dictionary equal to what the scan has recorded so far, overwriting entry gi on a match |
| Matcher.GoldMapNextRow | scorer.py:213-216 | finishing one gold row is starting the next |
| Matcher.PredictedMapStep | scorer.py:214-217 | visiting one (gi, pi) pair keeps the predicted-to-gold dictionary up to date, overwriting entry pi on a match |
| Matcher.PredictedMapNextRow | scorer.py:213-217 | finishing one gold row is starting the next |
| Matcher.GoldLinksUpToEntries | scorer.py:213-216 | the gold-to-predicted entries for the first rows hold, for each gold index below rows, the last matching prediction, and no other key |
| Matcher.PredictedLinksUpToEntries | scorer.py:213-217 | the predicted-to-gold entries hold, for each predicted index, the last matching gold relation, and no other key |
| Matcher.GoldMapComplete | scorer.py:213-218 | after the whole scan the gold-to-predicted dictionary is the linkage's map |
| Matcher.PredictedMapComplete | scorer.py:213-218 | after the whole scan the predicted-to-gold dictionary is the linkage's map |
| Matcher.LinkGoldPredicted | scorer.py:196-218 | the two dictionaries built by the nested scan are the linkage's two maps |
| Matcher.GoldLinksAreLastMatches | scorer.py:213-216 | gold index gi is a key iff some prediction matches it, and its value is the matching prediction with the largest index |
| Matcher.PredictedLinksAreLastMatches | scorer.py:213-217 | predicted index pi is a key iff some gold relation matches it, and its value is the matching gold relation with the largest index |
| Matcher.LinkKeysAreIndices | scorer.py:213-217 | only list indices are keys of the two maps |
| Matcher.SinglePairLinked | scorer.py:213-217 | one matching gold relation and one matching prediction are linked both ways |
| Matcher.LinksNeedNotBeInjective | scorer.py:196-218 | two identical gold relations and one matching prediction: both gold indices map to the prediction, whose index maps back to a single gold relation |
| Scorer.ExplicitConnectives | scorer.py:52-55 | the projection is no longer than the list and contains the connective span of every Explicit relation |
| Scorer.ExplicitConnectivesAppend | scorer.py:52-55 | projecting a concatenation is concatenating the projections, so the entries keep list order and each relation contributes at its own place |
| Scorer.ExplicitConnectivesSingle | scorer.py:52-55 | a single relation contributes its (DocID, connective tokens) when it is Explicit and nothing otherwise |
| Scorer.ExplicitConnectivesCount | scorer.py:52-55 | the projection has exactly one entry per Explicit relation |
| Scorer.ExplicitConnectivesOnlyExplicit | scorer.py:52-55 | every projected connective is the connective span of some Explicit relation |
| Scorer.Arg1Spans | scorer.py:34-35 | one entry per relation, entry i being relation i's (DocID, Arg1 tokens) |
| Scorer.Arg2Spans | scorer.py:38-39 | one entry per relation, entry i being relation i's (DocID, Arg2 tokens) |
| Scorer.Arg12Groups | scorer.py:42-44 | one entry per relation, entry i being relation i's (DocID, (Arg1 tokens, Arg2 tokens)) |
| Scorer.EvaluateConnectives | scorer.py:48-58 | the connective matrix is the greedy count over the Explicit connectives; yes/yes + yes/no is the number of Explicit gold relations and yes/yes + no/yes the number of Explicit predicted relations |
| Scorer.EvaluateArgumentExtractor | scorer.py:30-46 | the three matrices are the greedy counts over Arg1, Arg2 and the (Arg1, Arg2) groups, each balanced against the list lengths |
| Scorer.IdenticalArg1Copy | scorer.py:34-36 | a prediction carrying the gold Arg1 offsets and DocID gives the Arg1 matrix a single (yes, yes) |
| Scorer.ConnectiveOffByOne | scorer.py:52-57 | an Explicit prediction whose connective is one token off gives one (yes, no) and one (no, yes) |
| Scorer.SenseObservation | scorer.py:143-151 | a miss adds (no, gold primary sense); a linked relation adds the predicted primary sense first, paired with itself exactly when the gold senses accept it and with the gold primary sense otherwise |
| Scorer.GoldSensePairsSize | scorer.py:143-151 | the gold pass adds exactly one pair per gold relation, pair i being the observation for gold relation i |
| Scorer.SpuriousSensePairsSize | scorer.py:153-155 | the second pass adds one pair per predicted index absent from the predicted-to-gold map, each with "no" second |
| Scorer.UnlinkedIndicesEnumerate | scorer.py:153-154 | the unlinked predicted indices are listed each once, in increasing order, all of them, as many as there are unlinked indices |
| Scorer.SpuriousSensePairsPositions | scorer.py:153-155 | the second pass, position by position: its j-th pair is (primary sense, "no") of the j-th unlinked predicted relation, so each unlinked prediction adds its own pair once, in list order |
| Scorer.EvaluateSense | scorer.py:129-156 | the pairs added are the gold-pass observations followed by the spurious pairs, under the linkage's two maps |
| Scorer.MatchingSenseIsDiagonal | scorer.py:143-155 | one linked relation with the same single sense on both sides adds just (sense, sense) |
| Scorer.ConnectiveCheckIgnoresDocID | scorer.py:116-120 | the connective check with the DocID placeholder on both sides holds iff the offsets agree, and accepts every same-document match |
| Scorer.RelationCorrectCount | scorer.py:113-124 | each gold relation adds 0 or 1, so the count never exceeds the number of gold relations |
| Scorer.SenseCorrectCount | scorer.py:143-147 | the number of linked gold relations whose predicted primary sense is accepted is at most the number of gold relations |
| Scorer.RelationCorrectCountIsCardinality | scorer.py:113-124 | the running count is the number of gold indices whose relation is linked, has an accepted predicted sense and, if Explicit, a matching connective |
| Scorer.EvaluateRelation | scorer.py:106-124 | `correct` equals the relation-correct count under the linkage's gold-to-predicted map, so it is at most the number of gold relations |
| Scorer.RelationCorrectWithinSenseCorrect | scorer.py:113-124 | every relation counted correct also has an accepted sense; without Explicit gold relations the two counts coincide |
| Scorer.CorrectCanExceedPredicted | scorer.py:113-126 | two identical non-Explicit gold relations and one matching prediction give 2 correct out of 1 predicted relation |

## Left out

- Printing in `evaluate` (scorer.py:10-27): output only.
- The command-line entry point (scorer.py:221-229). It does argument parsing, file reading, JSON decoding and the external validator: I/O and foreign code.
- The confusion matrix and alphabet module (confusion_matrix.py is not part of this model). This covers `get_prf`, `print_summary`, and what the matrix does with a predicted sense missing from the gold sense alphabet built at scorer.py:135-139. Only the added pairs are modelled.
- Precision, recall and F1 of `evaluate_relation` (scorer.py:125-127): floating point. The scorer raises ZeroDivisionError when either list is empty (scorer.py:125-126), and at scorer.py:127 whenever `correct` is 0, since precision + recall is then 0.0. The model returns `correct` in every case. Only the integer value of `correct` is modelled; the scorer keeps it in a float (scorer.py:112) that holds whole numbers.
- `span_partial_matching` (scorer.py:99-104): an unimplemented stub.
- Token addresses with fewer than three components are excluded by the type. The scorer would raise an IndexError on them.
- Relations missing a primary sense where the scorer reads `Sense[0]` (scorer.py:115, 137, 145, 155) are excluded by preconditions. The scorer would raise an IndexError. The preconditions cover exactly the relations it reads: every gold relation, linked predictions, and unlinked predictions in the sense tally.
- Scorer.ConnectiveAgrees: the scorer's placeholder DocID is the integer 0. Here it is a string constant, the same on both sides. The DocIDs therefore never decide the comparison, as in the scorer.
- Records missing a key (a KeyError in the scorer) and the JSON dictionary shape are not modelled. Relations are typed records.
- The matching function given to the counter and the link builder is any total function. Exceptions raised by a Python matching function are not modelled.
