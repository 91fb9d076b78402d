/** `LlmProcessor`: the operations the application offers on a transcript.
    Proofreading and the expansion of the domain knowledge and keywords are
    one completion each; editing goes through one chunk or through the
    chunk, edit and merge pipeline; golden quotes are extracted from the text
    or from each chunk and deduplicated. The completion service is the
    parameter `complete`. */
module LlmProcessor {
  import opened Common
  import opened Strings
  import opened ChunkingProcessor
  import opened EditingProcessor
  import opened MergingProcessor
  import opened Markdown

  // ---------------------------------------------------------------------------
  // basic_proofread

  const ProofreadOpening: string :=
    "请对以下录音转文字的内容进行基础校对，要求："
    + "\n1. 去除口语化表达（如\"那个\"、\"这个\"、\"嗯\"、\"啊\"等）"
    + "\n2. 纠正错别字和语法错误"
    + "\n3. 保持原意不变，提高文字的可读性"
    + "\n4. 保持原有的段落结构"
    + "\n\n"

  const ProofreadClosing: string := "\n\n请直接输出校对后的文字，不要添加任何说明："

  /** The line of the proofreading prompt that gives the domain, if any. */
  function ProofreadDomain(domain: string): string {
    if domain != [] then "领域知识：" + domain else []
  }

  /** The line of the proofreading prompt that gives the keywords, if any. */
  function ProofreadKeywords(keywords: string): string {
    if keywords != [] then "关键字：" + keywords else []
  }

  /** What follows the keywords line: the text and the closing request. */
  function ProofreadTail(text: string): string {
    "\n\n原文：\n" + text + ProofreadClosing
  }

  /** The prompt of basic_proofread. */
  function ProofreadPrompt(text: string, domain: string, keywords: string): string {
    ProofreadOpening + ProofreadDomain(domain) + "\n" + ProofreadKeywords(keywords) + ProofreadTail(text)
  }

  /** A text built of five pieces starts with the first, ends with the last
      and holds the second and the fourth. */
  lemma FivePieces(a: string, d: string, n: string, k: string, t: string)
    ensures IsPrefix(a, a + d + n + k + t) && IsSuffix(t, a + d + n + k + t)
    ensures IsInfix(d, a + d + n + k + t) && IsInfix(k, a + d + n + k + t)
  {
    var p := a + d + n + k + t;
    assert p == a + (d + n + k + t);
    PrefixConcat(a, d + n + k + t);
    SuffixConcat(a + d + n + k, t);
    assert p == a + d + (n + k + t);
    InfixSelf(d);
    InfixLeft(d, a, d);
    InfixRight(d, a + d, n + k + t);
    InfixSelf(k);
    InfixLeft(k, a + d + n, k);
    InfixRight(k, a + d + n + k, t);
  }

  /** The prompt opens with the instructions, names the domain and the
      keywords when they are given, and ends with the text after "原文：" and
      the closing request. The domain and keyword lines are the prompt's
      second and fourth pieces, and each is empty exactly when its input is:
      with neither given, the instructions are followed by the blank lines
      and the text alone. */
  lemma ProofreadPromptParts(text: string, domain: string, keywords: string)
    ensures IsPrefix(ProofreadOpening, ProofreadPrompt(text, domain, keywords))
    ensures IsSuffix("\n\n原文：\n" + text + ProofreadClosing, ProofreadPrompt(text, domain, keywords))
    ensures domain != [] ==> IsInfix("领域知识：" + domain, ProofreadPrompt(text, domain, keywords))
    ensures keywords != [] ==> IsInfix("关键字：" + keywords, ProofreadPrompt(text, domain, keywords))
    ensures ProofreadPrompt(text, domain, keywords)
      == ProofreadOpening + ProofreadDomain(domain) + "\n" + ProofreadKeywords(keywords) + ProofreadTail(text)
    ensures ProofreadDomain(domain) == [] <==> domain == []
    ensures ProofreadKeywords(keywords) == [] <==> keywords == []
    ensures domain == [] && keywords == [] ==>
      ProofreadPrompt(text, domain, keywords) == ProofreadOpening + "\n" + ProofreadTail(text)
  {
    FivePieces(ProofreadOpening, ProofreadDomain(domain), "\n", ProofreadKeywords(keywords), ProofreadTail(text));
    if domain == [] && keywords == [] {
      EmptyPieces(ProofreadOpening, ProofreadDomain(domain), "\n", ProofreadKeywords(keywords), ProofreadTail(text));
    }
  }

  /** Empty second and fourth pieces leave the other three. */
  lemma EmptyPieces(a: string, d: string, n: string, k: string, t: string)
    requires d == [] && k == []
    ensures a + d + n + k + t == a + n + t
  {
    assert a + d == a;
    assert a + n + k == a + n;
  }

  /** The message of the exception basic_proofread raises. */
  function ProofreadFailure(error: string): string {
    "基础校对请求失败: " + error
  }

  /** basic_proofread: the stripped reply, or the failure with its prefix. */
  function BasicProofread(complete: Completion, text: string, domain: string, keywords: string): (r: Result<string, string>)
    ensures var reply := complete(ProofreadPrompt(text, domain, keywords));
      (r.Success? <==> reply.Success?)
      && (r.Success? ==>
            r.value == Strip(reply.value) && IsStripped(r.value) && Visible(r.value) == Visible(reply.value))
      && (r.Failure? ==> r.error == ProofreadFailure(reply.error))
  {
    match complete(ProofreadPrompt(text, domain, keywords))
    case Failure(e) => Failure(ProofreadFailure(e))
    case Success(reply) =>
      VisibleStrip(reply);
      Success(Strip(reply))
  }

  // ---------------------------------------------------------------------------
  // expand_domain_knowledge and expand_keywords

  /** The prompt of expand_domain_knowledge. */
  function DomainPrompt(domain: string): string {
    ("请对以下领域知识进行简洁扩展，要求："
      + "\n1. 补充2-3个核心专业术语"
      + "\n2. 用一句话概括背景信息"
      + "\n3. 总共不超过三句话"
      + "\n\n原始领域知识：\n")
    + domain
    + "\n\n请输出扩展后的领域知识（不超过三句话）："
  }

  /** expand_domain_knowledge: nothing for blank input, the stripped reply,
      or the input itself when the completion fails. */
  function ExpandDomainKnowledge(complete: Completion, domain: string): (r: string)
    ensures Strip(domain) == [] ==> r == []
    ensures Strip(domain) != [] && complete(DomainPrompt(domain)).Failure? ==> r == domain
    ensures Strip(domain) != [] && complete(DomainPrompt(domain)).Success? ==>
      r == Strip(complete(DomainPrompt(domain)).value) && IsStripped(r)
  {
    if Strip(domain) == [] then ""
    else
      match complete(DomainPrompt(domain))
      case Failure(_) => domain
      case Success(reply) => Strip(reply)
  }

  /** The prompt of expand_keywords. */
  function KeywordsPrompt(keywords: string, domain: string): string {
    ("请对以下关键字进行横向扩展，基于领域知识补充相关的准确关键字，要求："
      + "\n1. 根据领域知识，补充相关的专业术语和概念"
      + "\n2. 扩展同类别、同层次的关键字"
      + "\n3. 只输出准确、清楚的关键字，便于后续校对参考"
      + "\n4. 用逗号分隔，按类别分组"
      + "\n5. 不要包含错别字或近音字"
      + "\n\n")
    + (if domain != [] then "参考领域知识：" + domain else [])
    + "\n\n原始关键字：\n"
    + keywords
    + "\n\n请输出扩展后的准确关键字（只要关键字，不要解释）："
  }

  /** expand_keywords: nothing for blank input, the stripped reply, or the
      keywords themselves when the completion fails. */
  function ExpandKeywords(complete: Completion, keywords: string, domain: string): (r: string)
    ensures Strip(keywords) == [] ==> r == []
    ensures Strip(keywords) != [] && complete(KeywordsPrompt(keywords, domain)).Failure? ==> r == keywords
    ensures Strip(keywords) != [] && complete(KeywordsPrompt(keywords, domain)).Success? ==>
      r == Strip(complete(KeywordsPrompt(keywords, domain)).value) && IsStripped(r)
  {
    if Strip(keywords) == [] then ""
    else
      match complete(KeywordsPrompt(keywords, domain))
      case Failure(_) => keywords
      case Success(reply) => Strip(reply)
  }

  /** Blank input is answered without the completion service: any two
      services give the same answer. */
  lemma BlankInputNeedsNoCall(c1: Completion, c2: Completion, s: string, other: string)
    requires Strip(s) == []
    ensures ExpandDomainKnowledge(c1, s) == ExpandDomainKnowledge(c2, s) == []
    ensures ExpandKeywords(c1, s, other) == ExpandKeywords(c2, s, other) == []
  {
  }

  /** A service that always fails leaves the domain and keywords as given. */
  lemma FailingServiceKeepsInput(complete: Completion, domain: string, keywords: string)
    requires forall p :: complete(p).Failure?
    ensures ExpandDomainKnowledge(complete, domain) == if Strip(domain) == [] then [] else domain
    ensures ExpandKeywords(complete, keywords, domain) == if Strip(keywords) == [] then [] else keywords
  {
    assert complete(DomainPrompt(domain)).Failure?;
    assert complete(KeywordsPrompt(keywords, domain)).Failure?;
  }

  // ---------------------------------------------------------------------------
  // edit_and_organize and process_full_text

  /** The one chunk a short text is edited as. */
  function WholeText(text: string): ChunkInfo {
    ChunkInfo(text, 1, 1, Single)
  }

  /** edit_and_organize: a text at or under the threshold is edited as one
      chunk; a longer one is split, edited chunk by chunk and merged. A failed
      edit is passed on. */
  function EditAndOrganize(complete: Completion, text: string, domain: string, keywords: string): Result<string, string> {
    if !ShouldUseChunking(text, DefaultThreshold) then
      match EditChunk(complete, WholeText(text), domain, keywords)
      case Failure(e) => Failure(e)
      case Success(result) => Success(result.content)
    else
      match EditedInOrder(Editor(complete, domain, keywords), EditingInfos(text, DefaultSizes))
      case Failure(e) => Failure(e)
      case Success(results) => Success(MergedChunks(results).content)
  }

  /** A short text takes one completion, on the prompt for the whole text as
      the only chunk, and the result is that reply stripped. */
  lemma EditShortText(complete: Completion, text: string, domain: string, keywords: string)
    requires !ShouldUseChunking(text, DefaultThreshold)
    ensures var reply := complete(BuildEditingPrompt(text, 1, 1, Single, domain, keywords));
      var r := EditAndOrganize(complete, text, domain, keywords);
      (r.Success? <==> reply.Success?)
      && (r.Success? ==> r.value == Strip(reply.value))
      && (r.Failure? ==> r.error == EditFailure(1, 1, reply.error))
  {
    var reply := complete(BuildEditingPrompt(text, 1, 1, Single, domain, keywords));
    var one := EditChunk(complete, WholeText(text), domain, keywords);
    if one.Success? {
      ParsedQuotesAtEnd(Strip(reply.value), 1, 1);
    }
  }

  /** A long text succeeds exactly when every chunk of the split is edited,
      and then is the merge of the chunk results in chunk order. */
  lemma EditLongText(complete: Completion, text: string, domain: string, keywords: string)
    requires ShouldUseChunking(text, DefaultThreshold)
    ensures var infos := EditingInfos(text, DefaultSizes);
      var edit := Editor(complete, domain, keywords);
      var r := EditAndOrganize(complete, text, domain, keywords);
      (r.Success? <==> forall i :: 0 <= i < |infos| ==> edit(infos[i]).Success?)
      && (r.Success? ==> exists results: seq<EditResult> ::
            |results| == |infos|
            && (forall i :: 0 <= i < |infos| ==> results[i] == edit(infos[i]).value)
            && r.value == MergedChunks(results).content)
  {
    var infos := EditingInfos(text, DefaultSizes);
    var edit := Editor(complete, domain, keywords);
    var edited := EditedInOrder(edit, infos);
    EditedSuccess(edit, infos);
    if edited.Success? {
      assert EditAndOrganize(complete, text, domain, keywords).value == MergedChunks(edited.value).content;
    }
  }

  /** edit_and_organize as the sequence of calls it makes. */
  method EditAndOrganizeText(complete: Completion, text: string, domain: string, keywords: string)
    returns (r: Result<string, string>)
    ensures r == EditAndOrganize(complete, text, domain, keywords)
  {
    if |text| <= DefaultThreshold {
      var one := EditChunk(complete, WholeText(text), domain, keywords);
      if one.Failure? {
        return Failure(one.error);
      }
      return Success(one.value.content);
    }
    var infos := SplitForEditing(text, DefaultSizes);
    var edited := EditChunksBatch(complete, infos, domain, keywords);
    if edited.Failure? {
      return Failure(edited.error);
    }
    var merged := MergeEditedChunks(edited.value);
    var summary := CreateContentSummary(merged);
    r := Success(merged.content);
  }

  /** process_full_text: the proofread text, then the edit of that text. */
  function ProcessFullText(complete: Completion, text: string, domain: string, keywords: string)
    : Result<(string, string), string>
  {
    match BasicProofread(complete, text, domain, keywords)
    case Failure(e) => Failure(e)
    case Success(basic) =>
      match EditAndOrganize(complete, basic, domain, keywords)
      case Failure(e) => Failure(e)
      case Success(final) => Success((basic, final))
  }

  /** The pipeline succeeds exactly when both steps do; the second step edits
      the output of the first, and a failed proofread stops it. */
  lemma FullTextSteps(complete: Completion, text: string, domain: string, keywords: string)
    ensures var r := ProcessFullText(complete, text, domain, keywords);
      var basic := BasicProofread(complete, text, domain, keywords);
      (r.Success? <==> basic.Success? && EditAndOrganize(complete, basic.value, domain, keywords).Success?)
      && (r.Success? ==>
            r.value.0 == basic.value && EditAndOrganize(complete, r.value.0, domain, keywords) == Success(r.value.1))
      && (basic.Failure? ==> r == Failure(ProofreadFailure(complete(ProofreadPrompt(text, domain, keywords)).error)))
  {
  }

  // ---------------------------------------------------------------------------
  // extract_golden_quotes

  /** The quotes of every chunk, chunk after chunk. */
  function ChunkQuotes(complete: Completion, infos: seq<ChunkInfo>, domain: string, keywords: string): seq<string>
    decreases |infos|
  {
    if infos == [] then []
    else
      ChunkQuotes(complete, infos[..|infos| - 1], domain, keywords)
      + QuotesFromText(complete, infos[|infos| - 1].content, domain, keywords)
  }

  /** The quotes extract_golden_quotes lists: those of the whole text when it
      is short, otherwise those of all chunks, deduplicated. */
  function ExtractedQuotes(complete: Completion, text: string, domain: string, keywords: string): seq<string> {
    if !ShouldUseChunking(text, DefaultThreshold) then QuotesFromText(complete, text, domain, keywords)
    else Sift(NonBlank(ChunkQuotes(complete, EditingInfos(text, DefaultSizes), domain, keywords)), QuoteClash)
  }

  /** What extract_golden_quotes returns: one "- " line per quote. */
  function GoldenQuotesListing(complete: Completion, text: string, domain: string, keywords: string): string {
    Join(DashLines(ExtractedQuotes(complete, text, domain, keywords)), "\n")
  }

  /** extract_golden_quotes. */
  method ExtractGoldenQuotes(complete: Completion, text: string, domain: string, keywords: string)
    returns (listing: string)
    ensures listing == GoldenQuotesListing(complete, text, domain, keywords)
  {
    if |text| <= DefaultThreshold {
      var quotes := ExtractGoldenQuotesFromText(complete, text, domain, keywords);
      return Join(DashLines(quotes), "\n");
    }
    var infos := SplitForEditing(text, DefaultSizes);
    var all := CollectChunkQuotes(complete, infos, domain, keywords);
    var unique := DeduplicateQuotes(all);
    listing := Join(DashLines(unique), "\n");
  }

  /** The loop of extract_golden_quotes over the chunks. */
  method CollectChunkQuotes(complete: Completion, infos: seq<ChunkInfo>, domain: string, keywords: string)
    returns (all: seq<string>)
    ensures all == ChunkQuotes(complete, infos, domain, keywords)
  {
    all := [];
    var i := 0;
    while i < |infos|
      invariant 0 <= i <= |infos|
      invariant all == ChunkQuotes(complete, infos[..i], domain, keywords)
    {
      assert infos[..i + 1][..i] == infos[..i];
      var quotes := ExtractGoldenQuotesFromText(complete, infos[i].content, domain, keywords);
      all := all + quotes;
      i := i + 1;
    }
    assert infos[..|infos|] == infos;
  }

  /** The quotes read from lines are fit for listing. */
  lemma {:induction false} DashQuotesListable(lines: seq<string>)
    requires forall k :: 0 <= k < |lines| ==> '\n' !in lines[k]
    ensures ListableQuotes(DashQuotes(lines))
    decreases |lines|
  {
    DashQuotesProper(lines);
    if lines != [] {
      var n := |lines| - 1;
      DashQuotesListable(lines[..n]);
      var s := Strip(lines[n]);
      StripFree(lines[n], '\n');
      if IsPrefix("- ", s) && Strip(s[2..]) != [] {
        assert '\n' !in s[2..];
        StripFree(s[2..], '\n');
      }
    }
  }

  /** The quotes of one reply are fit for listing. */
  lemma QuotesFromTextListable(complete: Completion, text: string, domain: string, keywords: string)
    ensures ListableQuotes(QuotesFromText(complete, text, domain, keywords))
  {
    match complete(QuotesPrompt(text, domain, keywords))
    case Failure(_) =>
    case Success(reply) =>
      DashQuotesListable(Split(Strip(reply), '\n'));
  }

  lemma ListableConcat(a: seq<string>, b: seq<string>)
    requires ListableQuotes(a) && ListableQuotes(b)
    ensures ListableQuotes(a + b)
  {
    forall k | 0 <= k < |a + b|
      ensures (a + b)[k] != [] && IsStripped((a + b)[k]) && '\n' !in (a + b)[k]
    {
      if k >= |a| {
        assert (a + b)[k] == b[k - |a|];
      }
    }
  }

  /** The quotes of all chunks are fit for listing. */
  lemma {:induction false} ChunkQuotesListable(complete: Completion, infos: seq<ChunkInfo>, domain: string, keywords: string)
    ensures ListableQuotes(ChunkQuotes(complete, infos, domain, keywords))
    decreases |infos|
  {
    if infos != [] {
      var n := |infos| - 1;
      ChunkQuotesListable(complete, infos[..n], domain, keywords);
      QuotesFromTextListable(complete, infos[n].content, domain, keywords);
      ListableConcat(ChunkQuotes(complete, infos[..n], domain, keywords), QuotesFromText(complete, infos[n].content, domain, keywords));
    }
  }

  /** Every listed quote is non-empty, stripped and one line. */
  lemma ExtractedQuotesListable(complete: Completion, text: string, domain: string, keywords: string)
    ensures ListableQuotes(ExtractedQuotes(complete, text, domain, keywords))
  {
    if !ShouldUseChunking(text, DefaultThreshold) {
      QuotesFromTextListable(complete, text, domain, keywords);
    } else {
      var all := ChunkQuotes(complete, EditingInfos(text, DefaultSizes), domain, keywords);
      ChunkQuotesListable(complete, EditingInfos(text, DefaultSizes), domain, keywords);
      DeduplicatedQuotesProperties(all);
      assert forall q :: q in all ==> '\n' !in q;
      KeptQuotesOneLine(all);
    }
  }

  /** On the long path no two listed quotes are similar. */
  lemma ExtractedQuotesDistinct(complete: Completion, text: string, domain: string, keywords: string, i: nat, j: nat)
    requires ShouldUseChunking(text, DefaultThreshold)
    requires i < |ExtractedQuotes(complete, text, domain, keywords)| && j < |ExtractedQuotes(complete, text, domain, keywords)| && i != j
    ensures !QuotesSimilar(ExtractedQuotes(complete, text, domain, keywords)[i], ExtractedQuotes(complete, text, domain, keywords)[j])
  {
    DeduplicatedQuotesProperties(ChunkQuotes(complete, EditingInfos(text, DefaultSizes), domain, keywords));
  }

  /** No quotes give an empty listing, which reads back as no quotes. */
  lemma EmptyListing()
    ensures DashQuotes(Split(Join(DashLines([]), "\n"), '\n')) == []
  {
    var none: seq<string> := [[]];
    assert Split([], '\n') == none;
    assert none[..0] == [];
    assert DashQuotes(none) == DashQuotes([]) + DashQuote([]);
  }

  /** Listing quotes one per line after "- " and reading the listing back
      the way a reply is read gives the quotes again. */
  lemma ListingRoundTrip(qs: seq<string>)
    requires ListableQuotes(qs)
    ensures DashQuotes(Split(Join(DashLines(qs), "\n"), '\n')) == qs
  {
    if qs == [] {
      EmptyListing();
    } else {
      var lines := DashLines(qs);
      forall k | 0 <= k < |lines|
        ensures '\n' !in lines[k]
      {
        assert lines[k] == "- " + qs[k];
      }
      SplitJoin(lines, '\n');
      DashQuotesRoundTrip(qs);
    }
  }

  /** The listing extract_golden_quotes returns reads back as the quotes it
      lists. */
  lemma ListingReadsBack(complete: Completion, text: string, domain: string, keywords: string)
    ensures DashQuotes(Split(GoldenQuotesListing(complete, text, domain, keywords), '\n'))
      == ExtractedQuotes(complete, text, domain, keywords)
  {
    ExtractedQuotesListable(complete, text, domain, keywords);
    ListingRoundTrip(ExtractedQuotes(complete, text, domain, keywords));
  }
}
