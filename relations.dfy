/** Option, for the "found / not found" results of the matcher's scans. */
module Wrappers {
  datatype Option<T> = None | Some(value: T)
}

/**
 * The data model of the CoNLL 2015 shallow discourse parsing scorer: the
 * relation records read from the gold file and from the system file, the
 * spans inside them, and the (DocID, tokens) views that the matcher compares.
 */
module Relations {

  /**
   * A gold token address: [CharacterOffsetBegin, CharacterOffsetEnd,
   * TokenDocumentOffset, SentenceOffset, TokenSentenceOffset]. The scorer
   * reads component 2, the token's offset in the document, so every address
   * has at least three components.
   */
  type TokenAddress = a: seq<int> | |a| > 2 witness [0, 0, 0]

  /**
   * A text span. Gold spans list token addresses, system spans list plain
   * document token offsets, so the token type is a parameter.
   */
  datatype Span<Tok> = Span(
    CharacterSpanList: seq<seq<int>>,
    SpanList: seq<seq<int>>,
    RawText: string,
    TokenList: seq<Tok>)

  /** One discourse relation; Sense[0] is the primary sense, the rest are accepted alternates. */
  datatype Relation<Tok> = Relation(
    DocID: string,
    Type: string,
    Connective: Span<Tok>,
    Arg1: Span<Tok>,
    Arg2: Span<Tok>,
    Sense: seq<string>)

  type GoldRelation = Relation<TokenAddress>
  type PredictedRelation = Relation<int>

  /** The relation type whose connective is scored. */
  const Explicit: string := "Explicit"

  /** A (DocID, token list) pair, the unit that span matching compares. */
  datatype DocSpan<Tok> = DocSpan(docId: string, tokens: seq<Tok>)

  /** A (DocID, list of token lists) pair, the unit that span-group matching compares. */
  datatype DocSpanGroup<Tok> = DocSpanGroup(docId: string, spans: seq<seq<Tok>>)

  function ConnectiveSpan<Tok>(r: Relation<Tok>): DocSpan<Tok>
  {
    DocSpan(r.DocID, r.Connective.TokenList)
  }

  function Arg1Span<Tok>(r: Relation<Tok>): DocSpan<Tok>
  {
    DocSpan(r.DocID, r.Arg1.TokenList)
  }

  function Arg2Span<Tok>(r: Relation<Tok>): DocSpan<Tok>
  {
    DocSpan(r.DocID, r.Arg2.TokenList)
  }

  /** The (DocID, (Arg1 tokens, Arg2 tokens)) view used to link whole relations. */
  function Arg12Group<Tok>(r: Relation<Tok>): (g: DocSpanGroup<Tok>)
    ensures g.docId == r.DocID && |g.spans| == 2
    ensures g.spans[0] == r.Arg1.TokenList && g.spans[1] == r.Arg2.TokenList
  {
    DocSpanGroup(r.DocID, [r.Arg1.TokenList, r.Arg2.TokenList])
  }

  /**
   * combine_spans: the merged span lists the character spans, the spans, the
   * raw text and the tokens of span1 followed by those of span2.
   */
  function CombineSpans<Tok>(span1: Span<Tok>, span2: Span<Tok>): (r: Span<Tok>)
    ensures |r.TokenList| == |span1.TokenList| + |span2.TokenList|
    ensures r.TokenList[..|span1.TokenList|] == span1.TokenList
    ensures r.TokenList[|span1.TokenList|..] == span2.TokenList
    ensures |r.CharacterSpanList| == |span1.CharacterSpanList| + |span2.CharacterSpanList|
    ensures r.CharacterSpanList[..|span1.CharacterSpanList|] == span1.CharacterSpanList
    ensures r.CharacterSpanList[|span1.CharacterSpanList|..] == span2.CharacterSpanList
    ensures |r.SpanList| == |span1.SpanList| + |span2.SpanList|
    ensures r.SpanList[..|span1.SpanList|] == span1.SpanList
    ensures r.SpanList[|span1.SpanList|..] == span2.SpanList
    ensures |r.RawText| == |span1.RawText| + |span2.RawText|
    ensures r.RawText[..|span1.RawText|] == span1.RawText
    ensures r.RawText[|span1.RawText|..] == span2.RawText
  {
    Span(span1.CharacterSpanList + span2.CharacterSpanList,
         span1.SpanList + span2.SpanList,
         span1.RawText + span2.RawText,
         span1.TokenList + span2.TokenList)
  }
}
