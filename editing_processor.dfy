/** `EditingProcessor`: the second pass over a proofread text. Each chunk is
    sent to the language model with a prompt that says where the chunk sits
    in the document; the Markdown that comes back is parsed for its headings
    and, on the last or only chunk, for the golden-quotes list. */
module EditingProcessor {
  import opened Common
  import opened Strings
  import opened Markdown
  import opened ChunkingProcessor

  // ---------------------------------------------------------------------------
  // The editing prompt.

  /** "index/total" as the prompt and the error message write it. */
  function ChunkLabel(index: int, total: int): string {
    IntToString(index) + "/" + IntToString(total)
  }

  /** The opening of every editing prompt, up to its chunk number. */
  function PromptOpening(index: int, total: int): string {
    "请对以下已校对的文字进行编辑整理，这是第 " + ChunkLabel(index, total) + " 个文本块。"
  }

  const EditingRules: string := "\n\n编辑要求："
    + "\n1. 合理分段，每段内容相对独立"
    + "\n2. 为每个段落添加合适的小标题（使用 ## 格式）"
    + "\n3. 优化文字结构和逻辑顺序"
    + "\n4. 使用Markdown格式输出"
    + "\n5. 保持内容的完整性和准确性"

  /** The opening followed by the five editing rules. */
  function BasePrompt(index: int, total: int): string {
    PromptOpening(index, total) + EditingRules
  }

  const FirstNote: string := "\n\n**注意：这是第一个文本块，" + "请设置合适的开头结构。**"

  const LastNote: string := "\n\n**注意：这是最后一个文本块，" + "请在文档最后添加\"💎 精彩金句\"部分。**"

  function MiddleNote(index: int, total: int): string {
    "\n\n**注意：这是中间文本块（第" + ChunkLabel(index, total) + "块），请保持与前后内容的连贯性。**"
  }

  /** The note on the chunk's position: "first" is checked before "last". */
  function PositionNote(ctx: Context, index: int, total: int): string {
    if ctx.FirstFlag() then FirstNote
    else if ctx.LastFlag() then LastNote
    else MiddleNote(index, total)
  }

  /** A context value counts as present when it is a non-empty string. */
  predicate Given(v: Option<string>) {
    v.Some? && v.value != []
  }

  function SummaryLine(ctx: Context): string {
    if Given(ctx.Summary()) then "\n前一块内容摘要：" + ctx.Summary().value else []
  }

  function PreviewLine(ctx: Context): string {
    if Given(ctx.Preview()) then "\n下一块内容预览：" + ctx.Preview().value else []
  }

  /** The note on the chunk's position and the neighbours' digests; nothing
      for a text that was not split. */
  function ContextInfo(ctx: Context, index: int, total: int): string {
    if ctx.SingleFlag() then []
    else PositionNote(ctx, index, total) + SummaryLine(ctx) + PreviewLine(ctx)
  }

  function DomainLine(domain: string): string {
    if domain != [] then "\n\n领域知识：" + domain else []
  }

  function KeywordsLine(keywords: string): string {
    if keywords != [] then "\n关键字：" + keywords else []
  }

  /** The domain knowledge and keyword lines, each only when given. */
  function DomainInfo(domain: string, keywords: string): string {
    DomainLine(domain) + KeywordsLine(keywords)
  }

  const FormatHeading: string := "\n\n输出格式要求："

  const FormatRules: string := FormatHeading + FormatList

  const FormatList: string := "\n- 使用 ## 作为主要段落标题"
    + "\n- 使用 ### 作为子段落标题（如需要）"
    + "\n- 保持Markdown格式的规范性"

  const QuotesRule: string := "\n- 在文档最后添加："
    + "\n  ## 💎 精彩金句"
    + "\n  - 金句1"
    + "\n  - 金句2"
    + "\n  - ..."

  /** The output rules; the last or only chunk is also asked for the quotes. */
  function FormatPart(ctx: Context): string {
    FormatRules + QuotesRequest(ctx)
  }

  function QuotesRequest(ctx: Context): string {
    if ctx.LastFlag() || ctx.SingleFlag() then QuotesRule else []
  }

  function EditTail(content: string): string {
    "\n\n待编辑文字：\n" + content + "\n\n请直接输出整理后的Markdown格式文字，不要添加任何说明："
  }

  /** _build_editing_prompt */
  function BuildEditingPrompt(content: string, index: int, total: int, ctx: Context,
                              domain: string, keywords: string): string
  {
    BasePrompt(index, total) + ContextInfo(ctx, index, total) + DomainInfo(domain, keywords)
    + FormatPart(ctx) + EditTail(content)
  }

  /** The prompt names the chunk by its number and ends with the chunk's
      text and the closing instruction. */
  lemma PromptFrame(content: string, index: int, total: int, ctx: Context, domain: string, keywords: string)
    ensures var p := BuildEditingPrompt(content, index, total, ctx, domain, keywords);
      IsPrefix(PromptOpening(index, total), p) && IsSuffix(EditTail(content), p)
  {
    var o := PromptOpening(index, total);
    var base := BasePrompt(index, total);
    var c := ContextInfo(ctx, index, total);
    var d := DomainInfo(domain, keywords);
    var f := FormatPart(ctx);
    PrefixConcat(o, EditingRules);
    PrefixExtend(o, base, c);
    PrefixExtend(o, base + c, d);
    PrefixExtend(o, base + c + d, f);
    PrefixExtend(o, base + c + d + f, EditTail(content));
    SuffixConcat(base + c + d + f, EditTail(content));
  }

  /** The text right after the base prompt: the position note when the text
      was split, and otherwise a line that differs from every note at its
      second or third character. */
  lemma AfterBase(content: string, index: int, total: int, ctx: Context, domain: string, keywords: string)
    returns (w: string)
    ensures IsPrefix(BasePrompt(index, total) + w, BuildEditingPrompt(content, index, total, ctx, domain, keywords))
    ensures !ctx.SingleFlag() ==> w == PositionNote(ctx, index, total)
    ensures ctx.SingleFlag() ==> |w| > 2 && (w[1] == '关' || (w[1] == '\n' && (w[2] == '领' || w[2] == '输')))
  {
    if !ctx.SingleFlag() {
      w := PositionNote(ctx, index, total);
      NoteAfterBase(content, index, total, ctx, domain, keywords);
    } else {
      w := SingleAfterBase(content, index, total, ctx, domain, keywords);
    }
  }

  lemma NoteAfterBase(content: string, index: int, total: int, ctx: Context, domain: string, keywords: string)
    requires !ctx.SingleFlag()
    ensures IsPrefix(BasePrompt(index, total) + PositionNote(ctx, index, total),
                     BuildEditingPrompt(content, index, total, ctx, domain, keywords))
  {
    var base := BasePrompt(index, total);
    var c := ContextInfo(ctx, index, total);
    var d := DomainInfo(domain, keywords);
    var f := FormatPart(ctx);
    var w := PositionNote(ctx, index, total);
    PrefixConcat(w, SummaryLine(ctx));
    PrefixExtend(w, w + SummaryLine(ctx), PreviewLine(ctx));
    PrefixPrepend(base, w, c);
    PrefixExtend(base + w, base + c, d);
    PrefixExtend(base + w, base + c + d, f);
    PrefixExtend(base + w, base + c + d + f, EditTail(content));
  }

  lemma SingleAfterBase(content: string, index: int, total: int, ctx: Context, domain: string, keywords: string)
    returns (w: string)
    requires ctx.SingleFlag()
    ensures IsPrefix(BasePrompt(index, total) + w, BuildEditingPrompt(content, index, total, ctx, domain, keywords))
    ensures |w| > 2 && (w[1] == '关' || (w[1] == '\n' && (w[2] == '领' || w[2] == '输')))
  {
    var base := BasePrompt(index, total);
    var d := DomainInfo(domain, keywords);
    var f := FormatPart(ctx);
    w := AfterDomain(domain, keywords, ctx);
    var c := ContextInfo(ctx, index, total);
    assert base + c == base;
    if d != [] {
      PrefixPrepend(base, w, d);
      PrefixExtend(base + w, base + d, f);
    } else {
      PrefixPrepend(base, w, f);
    }
    PrefixExtend(base + w, base + d + f, EditTail(content));
  }

  /** The domain line, else the keyword line, else the output rules begin
      what follows the context of an unsplit text. */
  lemma AfterDomain(domain: string, keywords: string, ctx: Context) returns (w: string)
    ensures DomainInfo(domain, keywords) != [] ==> IsPrefix(w, DomainInfo(domain, keywords))
    ensures DomainInfo(domain, keywords) == [] ==> IsPrefix(w, FormatPart(ctx))
    ensures |w| > 2 && (w[1] == '关' || (w[1] == '\n' && (w[2] == '领' || w[2] == '输')))
  {
    if domain != [] {
      w := DomainLine(domain);
      assert w[1] == '\n' && w[2] == '领';
      PrefixConcat(w, KeywordsLine(keywords));
    } else if keywords != [] {
      w := KeywordsLine(keywords);
      assert |w| > 2 && w[1] == '关';
      PrefixConcat(w, []);
    } else {
      w := FormatHeading;
      assert w[1] == '\n' && w[2] == '输';
      PrefixConcat(w, FormatList);
      PrefixExtend(w, FormatRules, QuotesRequest(ctx));
    }
  }

  /** The three notes differ from each other at their tenth character and
      from the other lines after the base prompt at their second and third. */
  lemma NoteChars(index: int, total: int)
    ensures FirstNote[9] == '第' && LastNote[9] == '最' && MiddleNote(index, total)[9] == '中'
    ensures FirstNote[1] == '\n' && LastNote[1] == '\n' && MiddleNote(index, total)[1] == '\n'
    ensures FirstNote[2] == '*' && LastNote[2] == '*' && MiddleNote(index, total)[2] == '*'
  {
  }

  /** Exactly one position note follows the base prompt, chosen first by
      "first", then by "last", and none for a text that was not split. */
  lemma PromptPositionNote(content: string, index: int, total: int, ctx: Context, domain: string, keywords: string)
    ensures var p := BuildEditingPrompt(content, index, total, ctx, domain, keywords);
      var base := BasePrompt(index, total);
      (IsPrefix(base + FirstNote, p) <==> !ctx.SingleFlag() && ctx.FirstFlag())
      && (IsPrefix(base + LastNote, p) <==> !ctx.SingleFlag() && !ctx.FirstFlag() && ctx.LastFlag())
      && (IsPrefix(base + MiddleNote(index, total), p)
          <==> !ctx.SingleFlag() && !ctx.FirstFlag() && !ctx.LastFlag())
  {
    var p := BuildEditingPrompt(content, index, total, ctx, domain, keywords);
    var base := BasePrompt(index, total);
    var middle := MiddleNote(index, total);
    var w := AfterBase(content, index, total, ctx, domain, keywords);
    NoteChars(index, total);
    var k := if !ctx.SingleFlag() then 9 else if w[1] == '关' then 1 else 2;
    assert k < |w|;
    if IsPrefix(base + FirstNote, p) {
      PrefixesAgree(base, FirstNote, w, p, k);
    }
    if IsPrefix(base + LastNote, p) {
      PrefixesAgree(base, LastNote, w, p, k);
    }
    if IsPrefix(base + middle, p) {
      PrefixesAgree(base, middle, w, p, k);
    }
  }

  /** The output rules ask for the golden-quotes section exactly when the
      chunk is the last one or the text was not split. */
  lemma PromptAsksForQuotes(content: string, index: int, total: int, ctx: Context, domain: string, keywords: string)
    ensures var p := BuildEditingPrompt(content, index, total, ctx, domain, keywords);
      var rules := p[..|p| - |EditTail(content)|];
      |EditTail(content)| <= |p|
      && (IsSuffix(QuotesRule, rules) <==> ctx.LastFlag() || ctx.SingleFlag())
  {
    var head := BasePrompt(index, total) + ContextInfo(ctx, index, total) + DomainInfo(domain, keywords);
    var f := FormatPart(ctx);
    assert QuotesRule[|QuotesRule| - 1] == '.';
    assert FormatRules[|FormatRules| - 1] == '性';
    DropSuffix(head + f, EditTail(content));
    if ctx.LastFlag() || ctx.SingleFlag() {
      SuffixConcat(FormatRules, QuotesRule);
      SuffixPrepend(head, QuotesRule, f);
    } else if IsSuffix(QuotesRule, head + f) {
      SuffixLast(QuotesRule, head + f);
    }
  }

  /** The neighbours' digests and the domain lines appear when given. */
  lemma PromptCarriesContext(content: string, index: int, total: int, ctx: Context, domain: string, keywords: string)
    ensures var p := BuildEditingPrompt(content, index, total, ctx, domain, keywords);
      (!ctx.SingleFlag() && Given(ctx.Summary()) ==> IsInfix("\n前一块内容摘要：" + ctx.Summary().value, p))
      && (!ctx.SingleFlag() && Given(ctx.Preview()) ==> IsInfix("\n下一块内容预览：" + ctx.Preview().value, p))
      && (domain != [] ==> IsInfix("\n\n领域知识：" + domain, p))
      && (keywords != [] ==> IsInfix("\n关键字：" + keywords, p))
      && (ctx.SingleFlag() ==> p == BasePrompt(index, total) + DomainInfo(domain, keywords) + FormatPart(ctx) + EditTail(content))
  {
    if !ctx.SingleFlag() {
      var note := PositionNote(ctx, index, total);
      var sum := SummaryLine(ctx);
      var pre := PreviewLine(ctx);
      if Given(ctx.Summary()) {
        InfixSelf(sum);
        InfixLeft(sum, note, sum);
        InfixRight(sum, note + sum, pre);
        ContextInPrompt(sum, content, index, total, ctx, domain, keywords);
      }
      if Given(ctx.Preview()) {
        InfixSelf(pre);
        InfixLeft(pre, note + sum, pre);
        ContextInPrompt(pre, content, index, total, ctx, domain, keywords);
      }
    } else {
      assert BasePrompt(index, total) + ContextInfo(ctx, index, total) == BasePrompt(index, total);
    }
    var dline := DomainLine(domain);
    var kline := KeywordsLine(keywords);
    if domain != [] {
      InfixSelf(dline);
      InfixRight(dline, dline, kline);
      DomainInPrompt(dline, content, index, total, ctx, domain, keywords);
    }
    if keywords != [] {
      InfixSelf(kline);
      InfixLeft(kline, dline, kline);
      DomainInPrompt(kline, content, index, total, ctx, domain, keywords);
    }
  }

  /** The other half: between the base prompt and the output rules stand
      only the position note, the given digests and the given domain lines.
      Each digest or domain line is empty exactly when its value is not
      given, and a split chunk with nothing given carries its note alone. */
  lemma PromptContextParts(content: string, index: int, total: int, ctx: Context, domain: string, keywords: string)
    ensures BuildEditingPrompt(content, index, total, ctx, domain, keywords)
      == BasePrompt(index, total) + ContextInfo(ctx, index, total) + DomainInfo(domain, keywords)
         + FormatPart(ctx) + EditTail(content)
    ensures ctx.SingleFlag() ==> ContextInfo(ctx, index, total) == []
    ensures !ctx.SingleFlag() ==>
      ContextInfo(ctx, index, total) == PositionNote(ctx, index, total) + SummaryLine(ctx) + PreviewLine(ctx)
    ensures SummaryLine(ctx) == [] <==> !Given(ctx.Summary())
    ensures Given(ctx.Summary()) ==> SummaryLine(ctx) == "\n前一块内容摘要：" + ctx.Summary().value
    ensures PreviewLine(ctx) == [] <==> !Given(ctx.Preview())
    ensures Given(ctx.Preview()) ==> PreviewLine(ctx) == "\n下一块内容预览：" + ctx.Preview().value
    ensures DomainInfo(domain, keywords) == DomainLine(domain) + KeywordsLine(keywords)
    ensures DomainLine(domain) == [] <==> domain == []
    ensures KeywordsLine(keywords) == [] <==> keywords == []
    ensures DomainInfo(domain, keywords) == [] <==> domain == [] && keywords == []
    ensures !ctx.SingleFlag() && !Given(ctx.Summary()) && !Given(ctx.Preview()) && domain == [] && keywords == [] ==>
      BuildEditingPrompt(content, index, total, ctx, domain, keywords)
        == BasePrompt(index, total) + PositionNote(ctx, index, total) + FormatPart(ctx) + EditTail(content)
  {
    DigestLinesGiven(ctx);
    DomainLinesGiven(domain, keywords);
    var note := PositionNote(ctx, index, total);
    if !ctx.SingleFlag() && !Given(ctx.Summary()) && !Given(ctx.Preview()) && domain == [] && keywords == [] {
      assert note + SummaryLine(ctx) + PreviewLine(ctx) == note;
      assert BasePrompt(index, total) + note + [] == BasePrompt(index, total) + note;
    }
  }

  lemma DigestLinesGiven(ctx: Context)
    ensures SummaryLine(ctx) == [] <==> !Given(ctx.Summary())
    ensures PreviewLine(ctx) == [] <==> !Given(ctx.Preview())
  {
  }

  lemma DomainLinesGiven(domain: string, keywords: string)
    ensures DomainLine(domain) == [] <==> domain == []
    ensures KeywordsLine(keywords) == [] <==> keywords == []
    ensures DomainInfo(domain, keywords) == [] <==> domain == [] && keywords == []
  {
  }

  lemma ContextInPrompt(x: string, content: string, index: int, total: int, ctx: Context, domain: string, keywords: string)
    requires IsInfix(x, ContextInfo(ctx, index, total))
    ensures IsInfix(x, BuildEditingPrompt(content, index, total, ctx, domain, keywords))
  {
    var base := BasePrompt(index, total);
    var c := ContextInfo(ctx, index, total);
    InfixLeft(x, base, c);
    InfixTail(x, base + c, DomainInfo(domain, keywords), FormatPart(ctx), EditTail(content));
  }

  lemma DomainInPrompt(x: string, content: string, index: int, total: int, ctx: Context, domain: string, keywords: string)
    requires IsInfix(x, DomainInfo(domain, keywords))
    ensures IsInfix(x, BuildEditingPrompt(content, index, total, ctx, domain, keywords))
  {
    var base := BasePrompt(index, total);
    var c := ContextInfo(ctx, index, total);
    var d := DomainInfo(domain, keywords);
    InfixLeft(x, base + c, d);
    InfixRight(x, base + c + d, FormatPart(ctx));
    InfixRight(x, base + c + d + FormatPart(ctx), EditTail(content));
  }

  /** A text inside the first part is inside the parts joined. */
  lemma InfixTail(x: string, s: string, c: string, d: string, e: string)
    requires IsInfix(x, s)
    ensures IsInfix(x, s + c + d + e)
  {
    InfixRight(x, s, c);
    InfixRight(x, s + c, d);
    InfixRight(x, s + c + d, e);
  }

  // ---------------------------------------------------------------------------
  // Parsing an edited chunk.

  /** The headings of the lines, in order. */
  function Headings(lines: seq<string>): seq<Title>
    requires forall i :: 0 <= i < |lines| ==> '\n' !in lines[i]
    decreases |lines|
  {
    if lines == [] then [] else Headings(lines[..|lines| - 1]) + LineHeading(lines[|lines| - 1])
  }

  /** The heading on one line, if it is one. */
  function LineHeading(line: string): seq<Title>
    requires '\n' !in line
  {
    StripFree(line, '\n');
    var m := HeadingMatch(Strip(line));
    if m.Some? then [m.value] else []
  }

  /** One to three `#` and a non-empty stripped text. */
  predicate ProperTitle(t: Title) {
    1 <= t.level <= 3 && t.title != [] && IsStripped(t.title)
  }

  lemma LineHeadingProper(line: string)
    requires '\n' !in line
    ensures |LineHeading(line)| <= 1
    ensures LineHeading(line) != [] ==> ProperTitle(LineHeading(line)[0])
  {
    StripFree(line, '\n');
    if HeadingMatch(Strip(line)).Some? {
      HeadingShape(Strip(line));
    }
  }

  /** Every heading found is a proper title. */
  lemma {:induction false} HeadingsWellFormed(lines: seq<string>)
    requires forall i :: 0 <= i < |lines| ==> '\n' !in lines[i]
    ensures forall k :: 0 <= k < |Headings(lines)| ==> ProperTitle(Headings(lines)[k])
    decreases |lines|
  {
    if lines != [] {
      var n := |lines| - 1;
      HeadingsWellFormed(lines[..n]);
      LineHeadingProper(lines[n]);
    }
  }

  /** A heading as a Markdown line. */
  function HeadingLine(t: Title): string {
    Repeat("#", t.level) + " " + t.title
  }

  predicate WritableTitle(t: Title) {
    ProperTitle(t) && '\n' !in t.title
  }

  /** A heading line reads back as its title. */
  lemma LineHeadingOfTitle(t: Title)
    requires WritableTitle(t)
    ensures '\n' !in HeadingLine(t) && LineHeading(HeadingLine(t)) == [t]
  {
    var line := HeadingLine(t);
    HeadingRoundTrip(t.level, t.title);
    StripStripped(line);
  }

  /** The headings written one per line. */
  function HeadingLines(ts: seq<Title>): (r: seq<string>)
    ensures |r| == |ts| && forall i :: 0 <= i < |ts| ==> r[i] == HeadingLine(ts[i])
  {
    if ts == [] then [] else HeadingLines(ts[..|ts| - 1]) + [HeadingLine(ts[|ts| - 1])]
  }

  /** Headings written one per line are read back in the same order. */
  lemma {:induction false} HeadingsRoundTrip(ts: seq<Title>)
    requires forall k :: 0 <= k < |ts| ==> WritableTitle(ts[k])
    ensures forall i :: 0 <= i < |ts| ==> '\n' !in HeadingLines(ts)[i]
    ensures Headings(HeadingLines(ts)) == ts
    decreases |ts|
  {
    forall i | 0 <= i < |ts|
      ensures '\n' !in HeadingLines(ts)[i]
    {
      LineHeadingOfTitle(ts[i]);
    }
    if ts != [] {
      var n := |ts| - 1;
      var lines := HeadingLines(ts);
      HeadingsRoundTrip(ts[..n]);
      LineHeadingOfTitle(ts[n]);
      assert lines[..n] == HeadingLines(ts[..n]);
      LastSplit(ts);
    }
  }

  /** A document made of headings, one per line, yields those headings. */
  lemma HeadingDocument(ts: seq<Title>)
    requires forall k :: 0 <= k < |ts| ==> WritableTitle(ts[k])
    ensures Headings(Split(Join(HeadingLines(ts), "\n"), '\n')) == ts
  {
    HeadingsRoundTrip(ts);
    if ts == [] {
      assert Split([], '\n') == [[]];
      assert HeadingMatch(Strip([])) == None;
      assert Headings([[]]) == Headings([]) + [];
    } else {
      SplitJoin(HeadingLines(ts), '\n');
    }
  }

  /** The result of parsing an edited chunk. */
  datatype ParsedResult = ParsedResult(content: string, titles: seq<Title>, goldenQuotes: seq<string>)

  /** The parse of an edited chunk: all of its headings, and the quotes of its
      golden-quotes section when the chunk is the last or the only one. */
  function Parsed(result: string, index: int, total: int): ParsedResult {
    ParsedResult(result, Headings(Split(result, '\n')),
                 if index == total || total == 1 then GoldenQuotes(result) else [])
  }

  /** Only the last or only chunk yields quotes; the content is the text. */
  lemma ParsedQuotesAtEnd(result: string, index: int, total: int)
    ensures Parsed(result, index, total).content == result
    ensures index != total && total != 1 ==> Parsed(result, index, total).goldenQuotes == []
    ensures (index == total || total == 1) && GoldenSection(result).None? ==> Parsed(result, index, total).goldenQuotes == []
  {
  }

  /** The items of a section grow one line at a time. */
  lemma {:induction false} QuoteItemsSnoc(lines: seq<string>, line: string)
    requires forall i :: 0 <= i < |lines| ==> '\n' !in lines[i]
    requires '\n' !in line
    ensures QuoteItems(lines + [line]) == QuoteItems(lines) + LineItem(line)
    decreases |lines|
  {
    if lines == [] {
      assert [line][1..] == [];
    } else {
      assert (lines + [line])[1..] == lines[1..] + [line];
      QuoteItemsSnoc(lines[1..], line);
    }
  }

  /** _parse_editing_result: the headings of every line, and the quote items
      of the golden-quotes section of the last or only chunk. */
  method ParseEditingResult(result: string, index: int, total: int) returns (r: ParsedResult)
    ensures r == Parsed(result, index, total)
  {
    var titles := CollectTitles(Split(result, '\n'));
    var quotes: seq<string> := [];
    if index == total || total == 1 {
      var section := GoldenSection(result);
      if section.Some? {
        quotes := CollectQuoteItems(Split(section.value, '\n'));
      }
    }
    r := ParsedResult(result, titles, quotes);
  }

  /** The heading loop of _parse_editing_result. */
  method CollectTitles(lines: seq<string>) returns (titles: seq<Title>)
    requires forall i :: 0 <= i < |lines| ==> '\n' !in lines[i]
    ensures titles == Headings(lines)
  {
    titles := [];
    var i := 0;
    while i < |lines|
      invariant 0 <= i <= |lines|
      invariant titles == Headings(lines[..i])
    {
      StripFree(lines[i], '\n');
      var m := HeadingMatch(Strip(lines[i]));
      if m.Some? {
        titles := titles + [m.value];
      }
      HeadingsStep(lines, i);
      i := i + 1;
    }
    assert lines[..i] == lines;
  }

  lemma HeadingsStep(lines: seq<string>, i: nat)
    requires i < |lines| && forall k :: 0 <= k < |lines| ==> '\n' !in lines[k]
    ensures Headings(lines[..i + 1]) == Headings(lines[..i]) + LineHeading(lines[i])
  {
    assert lines[..i + 1][..i] == lines[..i];
  }

  /** The quote loop of _parse_editing_result. */
  method CollectQuoteItems(items: seq<string>) returns (quotes: seq<string>)
    requires forall i :: 0 <= i < |items| ==> '\n' !in items[i]
    ensures quotes == QuoteItems(items)
  {
    quotes := [];
    var j := 0;
    while j < |items|
      invariant 0 <= j <= |items|
      invariant quotes == QuoteItems(items[..j])
    {
      StripFree(items[j], '\n');
      var m := ListItemMatch(Strip(items[j]));
      QuoteItemsSnoc(items[..j], items[j]);
      TakeSnoc(items, j);
      if m.Some? {
        quotes := quotes + [m.value];
      }
      j := j + 1;
    }
    assert items[..j] == items;
  }

  // ---------------------------------------------------------------------------
  // Editing one chunk and a batch.

  /** What edit_chunk returns for one chunk. */
  datatype EditResult = EditResult(content: string, titles: seq<Title>, goldenQuotes: seq<string>,
                                   index: int, total: int, rawResult: string)

  /** The message of the exception edit_chunk raises. */
  function EditFailure(index: int, total: int, error: string): string {
    "第 " + ChunkLabel(index, total) + " 块编辑失败: " + error
  }

  /** edit_chunk: one completion for the chunk's prompt; its stripped text is
      parsed, and a failed completion becomes a failure naming the chunk. */
  function EditChunk(complete: Completion, info: ChunkInfo, domain: string, keywords: string): (r: Result<EditResult, string>)
    ensures var reply := complete(BuildEditingPrompt(info.content, info.index, info.total, info.context, domain, keywords));
      (r.Success? <==> reply.Success?)
      && (r.Failure? ==> r.error == EditFailure(info.index, info.total, reply.error))
      && (r.Success? ==> (r.value.index == info.index && r.value.total == info.total
          && r.value.content == r.value.rawResult == Strip(reply.value)
          && Visible(r.value.content) == Visible(reply.value)))
  {
    var prompt := BuildEditingPrompt(info.content, info.index, info.total, info.context, domain, keywords);
    match complete(prompt)
    case Failure(e) => Failure(EditFailure(info.index, info.total, e))
    case Success(text) =>
      VisibleStrip(text);
      var result := Strip(text);
      var parsed := Parsed(result, info.index, info.total);
      Success(EditResult(parsed.content, parsed.titles, parsed.goldenQuotes, info.index, info.total, result))
  }

  /** An editor of single chunks, as edit_chunks_batch applies one. */
  type ChunkEditor = ChunkInfo -> Result<EditResult, string>

  /** edit_chunk with the completion and the domain context fixed. */
  function Editor(complete: Completion, domain: string, keywords: string): ChunkEditor {
    info => EditChunk(complete, info, domain, keywords)
  }

  /** The chunks edited in order, stopping at the first failure. */
  function EditedInOrder(edit: ChunkEditor, infos: seq<ChunkInfo>): Result<seq<EditResult>, string>
    decreases |infos|
  {
    if infos == [] then Success([])
    else
      match EditedInOrder(edit, infos[..|infos| - 1])
      case Failure(e) => Failure(e)
      case Success(done) =>
        match edit(infos[|infos| - 1])
        case Failure(e) => Failure(e)
        case Success(x) => Success(done + [x])
  }

  /** edit_chunks_batch */
  method EditChunksBatch(complete: Completion, infos: seq<ChunkInfo>, domain: string, keywords: string)
    returns (r: Result<seq<EditResult>, string>)
    ensures r == EditedInOrder(Editor(complete, domain, keywords), infos)
  {
    ghost var edit := Editor(complete, domain, keywords);
    var results: seq<EditResult> := [];
    var i := 0;
    while i < |infos|
      invariant 0 <= i <= |infos|
      invariant EditedInOrder(edit, infos[..i]) == Success(results)
    {
      assert infos[..i + 1][..i] == infos[..i];
      var one := EditChunk(complete, infos[i], domain, keywords);
      assert one == edit(infos[i]);
      if one.Failure? {
        r := Failure(one.error);
        EditedFailureStays(edit, infos, i + 1);
        return;
      }
      results := results + [one.value];
      i := i + 1;
    }
    assert infos[..i] == infos;
    r := Success(results);
  }

  /** Once a prefix fails, every longer prefix fails with the same message. */
  lemma {:induction false} EditedFailureStays(edit: ChunkEditor, infos: seq<ChunkInfo>, n: nat)
    requires n <= |infos| && EditedInOrder(edit, infos[..n]).Failure?
    ensures EditedInOrder(edit, infos) == EditedInOrder(edit, infos[..n])
    decreases |infos| - n
  {
    if n < |infos| {
      assert infos[..n + 1][..n] == infos[..n];
      EditedFailureStays(edit, infos, n + 1);
    } else {
      assert infos[..n] == infos;
    }
  }

  /** A batch succeeds exactly when every chunk does, and then holds each
      chunk's result at the chunk's place. */
  lemma {:induction false} EditedSuccess(edit: ChunkEditor, infos: seq<ChunkInfo>)
    ensures var r := EditedInOrder(edit, infos);
      (r.Success? <==> forall i :: 0 <= i < |infos| ==> edit(infos[i]).Success?)
      && (r.Success? ==> (|r.value| == |infos|
          && forall i :: 0 <= i < |infos| ==> r.value[i] == edit(infos[i]).value))
    decreases |infos|
  {
    if infos != [] {
      var n := |infos| - 1;
      var init := infos[..n];
      EditedSuccess(edit, init);
      assert forall i :: 0 <= i < n ==> init[i] == infos[i];
    }
  }

  /** A failed batch reports the failure of its first failing chunk. */
  lemma {:induction false} EditedFailure(edit: ChunkEditor, infos: seq<ChunkInfo>) returns (j: nat)
    requires EditedInOrder(edit, infos).Failure?
    ensures j < |infos| && edit(infos[j]).Failure?
    ensures forall i :: 0 <= i < j ==> edit(infos[i]).Success?
    ensures EditedInOrder(edit, infos).error == edit(infos[j]).error
    decreases |infos|
  {
    var n := |infos| - 1;
    var init := infos[..n];
    assert forall i :: 0 <= i < n ==> init[i] == infos[i];
    if EditedInOrder(edit, init).Failure? {
      j := EditedFailure(edit, init);
    } else {
      EditedSuccess(edit, init);
      j := n;
    }
  }

  // ---------------------------------------------------------------------------
  // Extracting golden quotes from a text.

  /** The prompt of extract_golden_quotes_from_text. */
  function QuotesPrompt(text: string, domain: string, keywords: string): string {
    ("请从以下文字中提取有深度、有启发性、有哲理或特别有意义的句子作为精彩金句。"
      + "\n\n要求："
      + "\n1. 选择最有价值和启发性的句子"
      + "\n2. 每个金句应该相对独立，有完整的意思"
      + "\n3. 优先选择有哲理性、指导性或深刻见解的内容"
      + "\n4. 数量控制在3-8句之间"
      + "\n5. 按重要性排序"
      + "\n\n")
    + (if domain != [] then "领域知识：" + domain else [])
    + "\n"
    + (if keywords != [] then "关键字：" + keywords else [])
    + "\n\n文字内容：\n" + text
    + "\n\n请直接输出金句列表，每行一个，使用 \"- \" 开头："
  }

  /** The quote on one line of the reply: the stripped text after "- ". */
  function DashQuote(line: string): seq<string> {
    var s := Strip(line);
    if IsPrefix("- ", s) && Strip(s[2..]) != [] then [Strip(s[2..])] else []
  }

  /** The quotes on the lines of the reply, in order. */
  function DashQuotes(lines: seq<string>): seq<string>
    decreases |lines|
  {
    if lines == [] then [] else DashQuotes(lines[..|lines| - 1]) + DashQuote(lines[|lines| - 1])
  }

  /** Every quote read from a reply is non-empty and stripped. */
  lemma {:induction false} DashQuotesProper(lines: seq<string>)
    ensures forall k :: 0 <= k < |DashQuotes(lines)| ==> DashQuotes(lines)[k] != [] && IsStripped(DashQuotes(lines)[k])
    decreases |lines|
  {
    if lines != [] {
      DashQuotesProper(lines[..|lines| - 1]);
    }
  }

  /** A quote written after "- " reads back as itself. */
  lemma DashQuoteOfLine(q: string)
    requires q != [] && IsStripped(q)
    ensures DashQuote("- " + q) == [q]
  {
    var line := "- " + q;
    assert IsStripped(line);
    StripStripped(line);
    StripStripped(q);
    assert line[2..] == q;
  }

  /** The quotes written one per line after "- ". */
  function DashLines(qs: seq<string>): (r: seq<string>)
    ensures |r| == |qs| && forall i :: 0 <= i < |qs| ==> r[i] == "- " + qs[i]
  {
    if qs == [] then [] else DashLines(qs[..|qs| - 1]) + ["- " + qs[|qs| - 1]]
  }

  /** Quotes listed one per line after "- " read back as themselves. */
  lemma {:induction false} DashQuotesRoundTrip(qs: seq<string>)
    requires forall k :: 0 <= k < |qs| ==> qs[k] != [] && IsStripped(qs[k])
    ensures DashQuotes(DashLines(qs)) == qs
    decreases |qs|
  {
    if qs != [] {
      var n := |qs| - 1;
      DashQuotesRoundTrip(qs[..n]);
      DashQuoteOfLine(qs[n]);
      AppendLast(DashLines(qs[..n]), "- " + qs[n]);
      LastSplit(qs);
    }
  }

  /** The quotes a reply yields; a failed completion yields none. */
  function QuotesFromText(complete: Completion, text: string, domain: string, keywords: string): seq<string> {
    match complete(QuotesPrompt(text, domain, keywords))
    case Failure(_) => []
    case Success(reply) => DashQuotes(Split(Strip(reply), '\n'))
  }

  /** extract_golden_quotes_from_text */
  method ExtractGoldenQuotesFromText(complete: Completion, text: string, domain: string, keywords: string)
    returns (quotes: seq<string>)
    ensures quotes == QuotesFromText(complete, text, domain, keywords)
  {
    quotes := [];
    var reply := complete(QuotesPrompt(text, domain, keywords));
    if reply.Success? {
      quotes := CollectDashQuotes(Split(Strip(reply.value), '\n'));
    }
  }

  /** The line loop of extract_golden_quotes_from_text. */
  method CollectDashQuotes(lines: seq<string>) returns (quotes: seq<string>)
    ensures quotes == DashQuotes(lines)
  {
    quotes := [];
    var i := 0;
    while i < |lines|
      invariant 0 <= i <= |lines|
      invariant quotes == DashQuotes(lines[..i])
    {
      var line := Strip(lines[i]);
      if IsPrefix("- ", line) {
        var quote := Strip(line[2..]);
        if quote != [] {
          quotes := quotes + [quote];
        }
      }
      DashQuotesStep(lines, i);
      i := i + 1;
    }
    assert lines[..i] == lines;
  }

  lemma DashQuotesStep(lines: seq<string>, i: nat)
    requires i < |lines|
    ensures DashQuotes(lines[..i + 1]) == DashQuotes(lines[..i]) + DashQuote(lines[i])
  {
    assert lines[..i + 1][..i] == lines[..i];
  }
}
