/**
 * Building a document from an analysis result, as the three editor screens
 * do when they are opened with `location.state.analysisData`.
 *
 * The two pages copies (src/pages/Editor/FixedNotionEditor.js and
 * src/pages/EditorPage/EditorPage.js) share one builder: a title, an optional
 * YouTube embed, a summary heading and then every section parsed as markdown,
 * all renumbered block_1, block_2, ... in push order. They differ only in
 * which part of the payload they read (`final_output` or `report`) and in
 * whether a section whose content is not a string is tolerated.
 */
module AnalysisBlocks {
  import opened JsText
  import opened BlockEditor
  import opened Markdown

  /** A section of the analysis payload; `content` is `None` when it is not a
      string (absent, null, a number, ...). */
  datatype Section = Section(kind: string, content: Option<string>)

  /** The `final_output` or `report` object. An absent or falsy `youtube_url`
      is the empty string, and absent `sections` the empty sequence: the
      builders treat both alike. */
  datatype Report = Report(youtubeUrl: string, sections: seq<Section>)

  /** `analysisData`; an absent `final_output` or `report` is `Report("", [])`. */
  datatype AnalysisData = AnalysisData(youtubeUrl: string, finalOutput: Report, report: Report)

  const TitleText := "📺 YouTube 영상 분석 결과"
  const SummaryText := "📋 영상 요약"

  /** A block as the builders push it, before its id is assigned. */
  function Plain(kind: BlockType, content: string): Block {
    Block("", kind, content, "", None)
  }

  /** `sections.some(section => section.type === 'youtube')` */
  predicate HasYoutubeSection(sections: seq<Section>) {
    exists i :: 0 <= i < |sections| && sections[i].kind == "youtube"
  }

  /** The blocks pushed before the sections. */
  function HeaderBlocks(r: Report): (h: seq<Block>)
    ensures 2 <= |h| <= 3
    ensures h[0] == Plain(Heading1, TitleText) && h[|h| - 1] == Plain(Heading2, SummaryText)
    ensures |h| == 3 <==> r.youtubeUrl != [] && !HasYoutubeSection(r.sections)
    ensures |h| == 3 ==> h[1] == Plain(Youtube, r.youtubeUrl)
  {
    [Plain(Heading1, TitleText)]
    + (if r.youtubeUrl != [] && !HasYoutubeSection(r.sections) then [Plain(Youtube, r.youtubeUrl)] else [])
    + [Plain(Heading2, SummaryText)]
  }

  /** `typeof text === 'string' ? text : ''` */
  function SectionText(c: Option<string>): string {
    if c.Some? then c.value else ""
  }

  /** The parsed blocks of all sections, in order. */
  function SectionBlocks(sections: seq<Section>): seq<Block> {
    if sections == [] then []
    else
      var n := |sections| - 1;
      SectionBlocks(sections[..n]) + MarkdownBlocks(SectionText(sections[n].content))
  }

  lemma SectionBlocksStep(sections: seq<Section>, i: nat)
    requires i < |sections|
    ensures SectionBlocks(sections[..i + 1])
            == SectionBlocks(sections[..i]) + MarkdownBlocks(SectionText(sections[i].content))
  {
    assert sections[..i + 1][..i] == sections[..i];
    assert sections[..i + 1][i] == sections[i];
  }

  /** The blocks with their ids replaced by block_1, block_2, ... */
  function Renumbered(blocks: seq<Block>): (r: seq<Block>)
    ensures |r| == |blocks|
    ensures forall i :: 0 <= i < |r| ==> r[i] == blocks[i].(id := BlockIdText(i + 1))
  {
    seq(|blocks|, i requires 0 <= i < |blocks| => blocks[i].(id := BlockIdText(i + 1)))
  }

  lemma RenumberedSnoc(blocks: seq<Block>, b: Block)
    ensures Renumbered(blocks + [b]) == Renumbered(blocks) + [b.(id := BlockIdText(|blocks| + 1))]
  {
    var x, y := Renumbered(blocks + [b]), Renumbered(blocks) + [b.(id := BlockIdText(|blocks| + 1))];
    forall i | 0 <= i < |x| ensures x[i] == y[i] {
      if i < |blocks| {
        assert (blocks + [b])[i] == blocks[i];
      }
    }
  }

  /** Renumbered blocks never share an id. */
  lemma RenumberedDistinct(blocks: seq<Block>)
    ensures DistinctIds(Renumbered(blocks))
  {
    var r := Renumbered(blocks);
    forall i, j | 0 <= i < j < |r| ensures r[i].id != r[j].id {
      BlockIdsDiffer(i + 1, j + 1);
    }
  }

  /** The document built from a report. */
  function ReportBlocks(r: Report): seq<Block> {
    Renumbered(HeaderBlocks(r) + SectionBlocks(r.sections))
  }

  /** `parseMarkdownToBlocks(text)` of src/pages/EditorPage/EditorPage.js,
      which reads a non-string argument as the empty text. */
  method ParseGuarded(text: Option<string>) returns (blocks: seq<Block>)
    ensures blocks == MarkdownBlocks(SectionText(text))
    ensures text.None? ==> blocks == []
  {
    var safeText := if text.Some? then text.value else "";
    blocks := ParseMarkdownToBlocks(safeText);
    if text.None? {
      EmptyTextNoBlocks();
    }
  }

  /** The header with its ids, as the builder pushes it. */
  lemma HeaderRenumbered(r: Report)
    ensures var yt := r.youtubeUrl != [] && !HasYoutubeSection(r.sections);
            Renumbered(HeaderBlocks(r))
            == [Block(BlockIdText(1), Heading1, TitleText, "", None)]
               + (if yt then [Block(BlockIdText(2), Youtube, r.youtubeUrl, "", None)] else [])
               + [Block(BlockIdText(if yt then 3 else 2), Heading2, SummaryText, "", None)]
  {
  }

  /** The loop of `convertAnalysisToBlocks` over one report: every push takes
      the next id from the counter. */
  method ConvertReport(r: Report) returns (blocks: seq<Block>)
    ensures blocks == ReportBlocks(r)
  {
    blocks := [];
    var blockId := 1;
    blocks := blocks + [Block(BlockIdText(blockId), Heading1, TitleText, "", None)];
    blockId := blockId + 1;
    var hasYoutubeBlock := HasYoutubeSection(r.sections);
    if r.youtubeUrl != [] && !hasYoutubeBlock {
      blocks := blocks + [Block(BlockIdText(blockId), Youtube, r.youtubeUrl, "", None)];
      blockId := blockId + 1;
    }
    blocks := blocks + [Block(BlockIdText(blockId), Heading2, SummaryText, "", None)];
    blockId := blockId + 1;
    HeaderRenumbered(r);
    blocks := PushSections(blocks, r.sections, HeaderBlocks(r));
  }

  /** `sections.forEach(section => blocks.push(...))`: each section's parsed
      blocks, renumbered on from the blocks already pushed. */
  method PushSections(blocks: seq<Block>, sections: seq<Section>, ghost header: seq<Block>) returns (r: seq<Block>)
    requires blocks == Renumbered(header)
    ensures r == Renumbered(header + SectionBlocks(sections))
  {
    r := blocks;
    assert sections[..0] == [];
    assert header + [] == header;
    var i := 0;
    while i < |sections|
      invariant 0 <= i <= |sections|
      invariant r == Renumbered(header + SectionBlocks(sections[..i]))
    {
      var parsedBlocks := ParseGuarded(sections[i].content);
      ghost var done := header + SectionBlocks(sections[..i]);
      r := PushRenumbered(r, parsedBlocks, done);
      SectionBlocksStep(sections, i);
      ConcatAssoc(header, SectionBlocks(sections[..i]), parsedBlocks);
      i := i + 1;
    }
    assert sections[..i] == sections;
  }

  /** `blocks.push(...parsedBlocks.map(block => ({ ...block, id: `block_${blockId++}` })))`
      where the counter is one past the blocks pushed so far. */
  method PushRenumbered(blocks: seq<Block>, parsedBlocks: seq<Block>, ghost done: seq<Block>) returns (r: seq<Block>)
    requires blocks == Renumbered(done)
    ensures r == Renumbered(done + parsedBlocks)
  {
    r := blocks;
    var blockId := |r| + 1;
    var j := 0;
    while j < |parsedBlocks|
      invariant 0 <= j <= |parsedBlocks|
      invariant blockId == |r| + 1
      invariant r == Renumbered(done + parsedBlocks[..j])
    {
      RenumberedSnoc(done + parsedBlocks[..j], parsedBlocks[j]);
      assert done + parsedBlocks[..j] + [parsedBlocks[j]] == done + parsedBlocks[..j + 1];
      r := r + [parsedBlocks[j].(id := BlockIdText(blockId))];
      blockId := blockId + 1;
      j := j + 1;
    }
    assert parsedBlocks[..j] == parsedBlocks;
  }

  /** The shape the builder promises: the title first, the YouTube embed
      second exactly when the report has a URL and no youtube section, the
      summary heading right after, and ids block_1 .. block_n in order. */
  lemma ReportBlocksShape(r: Report)
    ensures var b := ReportBlocks(r);
            var h := if r.youtubeUrl != [] && !HasYoutubeSection(r.sections) then 3 else 2;
            && |b| >= h
            && b[0].kind == Heading1 && b[0].content == TitleText
            && b[h - 1].kind == Heading2 && b[h - 1].content == SummaryText
            && (b[1].kind == Youtube <==> h == 3)
            && (h == 3 ==> b[1].content == r.youtubeUrl)
            && (forall i :: 0 <= i < |b| ==> b[i].id == BlockIdText(i + 1))
            && DistinctIds(b)
  {
    HeaderShape(r, SectionBlocks(r.sections));
  }

  lemma HeaderShape(r: Report, s: seq<Block>)
    ensures var b := Renumbered(HeaderBlocks(r) + s);
            var h := if r.youtubeUrl != [] && !HasYoutubeSection(r.sections) then 3 else 2;
            && |b| >= h
            && b[0].kind == Heading1 && b[0].content == TitleText
            && b[h - 1].kind == Heading2 && b[h - 1].content == SummaryText
            && (b[1].kind == Youtube <==> h == 3)
            && (h == 3 ==> b[1].content == r.youtubeUrl)
            && (forall i :: 0 <= i < |b| ==> b[i].id == BlockIdText(i + 1))
            && DistinctIds(b)
  {
    var hb := HeaderBlocks(r);
    var all := hb + s;
    assert all[0] == hb[0];
    assert all[1] == hb[1];
    assert all[|hb| - 1] == hb[|hb| - 1];
    RenumberedDistinct(all);
  }

  /** Whatever follows the header is the sections' parsed blocks, in order,
      with only their ids changed. */
  lemma ReportBlocksSections(r: Report)
    ensures var b := ReportBlocks(r);
            var h := |HeaderBlocks(r)|;
            var s := SectionBlocks(r.sections);
            && |b| == h + |s|
            && forall i :: 0 <= i < |s| ==> b[h + i] == s[i].(id := BlockIdText(h + i + 1))
  {
    var h, s := HeaderBlocks(r), SectionBlocks(r.sections);
    forall i | 0 <= i < |s| ensures (h + s)[|h| + i] == s[i] { }
  }
}

/** src/pages/Editor/FixedNotionEditor.js: the builder reads `final_output`. */
module PagesEditor {
  import opened JsText
  import opened BlockEditor
  import opened AnalysisBlocks

  /** `convertAnalysisToBlocks(analysisData)`. `parseMarkdownToBlocks` calls
      `text.split` without a guard, so a section whose content is not a
      string throws a TypeError out of the effect that builds the document
      (`None`: the blocks pushed so far are local and lost, so looking for
      such a section first gives the same outcome). Otherwise the document
      is the one the shared builder makes from `final_output`. */
  method ConvertAnalysisToBlocks(data: AnalysisData) returns (blocks: Option<seq<Block>>)
    ensures blocks.None? <==> !AllText(data.finalOutput.sections)
    ensures blocks.Some? ==> blocks.value == ReportBlocks(data.finalOutput)
  {
    var sections := data.finalOutput.sections;
    var i := 0;
    while i < |sections|
      invariant 0 <= i <= |sections|
      invariant AllText(sections[..i])
    {
      if sections[i].content.None? {
        return None;
      }
      assert sections[..i + 1] == sections[..i] + [sections[i]];
      i := i + 1;
    }
    assert sections[..i] == sections;
    var built := ConvertReport(data.finalOutput);
    blocks := Some(built);
  }

  /** Every section's content is a string. */
  predicate AllText(sections: seq<Section>) {
    forall i :: 0 <= i < |sections| ==> sections[i].content.Some?
  }
}

/** src/pages/EditorPage/EditorPage.js: the builder reads `report`, and a
    section content that is not a string parses to no blocks. */
module EditorPageCopy {
  import opened JsText
  import opened BlockEditor
  import opened Markdown
  import opened AnalysisBlocks

  /** `convertAnalysisToBlocks(analysisData)` */
  method ConvertAnalysisToBlocks(data: AnalysisData) returns (blocks: seq<Block>)
    ensures blocks == ReportBlocks(data.report)
  {
    blocks := ConvertReport(data.report);
  }

  /** Sections whose content is not a string contribute nothing. */
  lemma {:induction false} NonStringSectionsAddNothing(r: Report)
    requires forall i :: 0 <= i < |r.sections| ==> r.sections[i].content.None?
    ensures ReportBlocks(r) == Renumbered(HeaderBlocks(r))
  {
    var h, s := HeaderBlocks(r), SectionBlocks(r.sections);
    NoStringSections(r.sections);
    assert s == [];
    assert h + s == h;
  }

  lemma {:induction false} NoStringSections(sections: seq<Section>)
    requires forall i :: 0 <= i < |sections| ==> sections[i].content.None?
    ensures SectionBlocks(sections) == []
  {
    if sections != [] {
      var n := |sections| - 1;
      assert forall i :: 0 <= i < n ==> sections[..n][i] == sections[i];
      NoStringSections(sections[..n]);
      assert SectionText(sections[n].content) == "";
      EmptyTextNoBlocks();
    }
  }
}

/**
 * src/components/FixedNotionEditor.js: plain-text blocks, no YouTube
 * shortcut, and a builder that copies each section into one paragraph.
 */
module ComponentsEditor {
  import opened JsText
  import opened BlockEditor
  import opened Markdown
  import opened AnalysisBlocks

  const SourcePrefix := "🔗 원본 영상: "

  /** A block as this builder pushes it. Its `content` is copied from the
      payload unchecked, so it is `None` when the section's `content` is not
      a string (the block then holds `undefined`). */
  datatype PushedBlock = PushedBlock(id: string, kind: BlockType, content: Option<string>, placeholder: string)

  /** The `n`-th block pushed, `block_${n}`. */
  function Pushed(n: nat, kind: BlockType, content: Option<string>): PushedBlock {
    PushedBlock(BlockIdText(n), kind, content, "")
  }

  /** The blocks pushed before the sections. */
  function ParagraphHeader(data: AnalysisData): (h: seq<PushedBlock>)
    ensures |h| == if data.youtubeUrl != [] then 3 else 2
    ensures h[0] == Pushed(1, Heading1, Some(TitleText))
    ensures data.youtubeUrl != [] ==> h[1] == Pushed(2, Paragraph, Some(SourcePrefix + data.youtubeUrl))
    ensures h[|h| - 1] == Pushed(|h|, Heading2, Some(SummaryText))
  {
    var yt := data.youtubeUrl != [];
    [Pushed(1, Heading1, Some(TitleText))]
    + (if yt then [Pushed(2, Paragraph, Some(SourcePrefix + data.youtubeUrl))] else [])
    + [Pushed(if yt then 3 else 2, Heading2, Some(SummaryText))]
  }

  /** The paragraphs pushed for `sections`, numbered from `first`. */
  function SectionParagraphs(sections: seq<Section>, first: nat): (p: seq<PushedBlock>)
    ensures |p| == |sections|
  {
    seq(|sections|, i requires 0 <= i < |sections| => Pushed(first + i, Paragraph, sections[i].content))
  }

  /** The whole document the builder returns. */
  function ParagraphLayout(data: AnalysisData): seq<PushedBlock> {
    var h := ParagraphHeader(data);
    h + SectionParagraphs(data.finalOutput.sections, |h| + 1)
  }

  /** Every section, whatever its content, gives exactly one paragraph that
      carries that content as it is. The layout has the title, the source
      link exactly when the top-level URL is set, the summary heading and
      then those paragraphs in section order; the ids are block_1 ..
      block_n in push order, hence distinct. */
  lemma ParagraphLayoutShape(data: AnalysisData)
    ensures var l := ParagraphLayout(data);
            var h := if data.youtubeUrl != [] then 3 else 2;
            var sections := data.finalOutput.sections;
            && |l| == h + |sections|
            && l[0].kind == Heading1 && l[0].content == Some(TitleText)
            && (h == 3 ==> l[1].kind == Paragraph && l[1].content == Some(SourcePrefix + data.youtubeUrl))
            && l[h - 1].kind == Heading2 && l[h - 1].content == Some(SummaryText)
            && (forall i :: 0 <= i < |sections| ==> l[h + i].kind == Paragraph && l[h + i].content == sections[i].content)
            && (forall i :: 0 <= i < |l| ==> l[i].id == BlockIdText(i + 1) && l[i].placeholder == [])
            && (forall i, j :: 0 <= i < j < |l| ==> l[i].id != l[j].id)
  {
    var l := ParagraphLayout(data);
    var hb := ParagraphHeader(data);
    var p := SectionParagraphs(data.finalOutput.sections, |hb| + 1);
    forall i | 0 <= i < |l| ensures l[i].id == BlockIdText(i + 1) && l[i].placeholder == [] {
      if i < |hb| {
        assert l[i] == hb[i];
      } else {
        assert l[i] == p[i - |hb|];
      }
    }
    forall i | 0 <= i < |p| ensures l[|hb| + i] == p[i] {
    }
    forall i, j | 0 <= i < j < |l| ensures l[i].id != l[j].id {
      BlockIdsDiffer(i + 1, j + 1);
    }
  }

  /** `convertAnalysisToBlocks(analysisData)`: a title, a source-link
      paragraph when the top-level `youtube_url` is set, the summary heading,
      and one paragraph per `final_output` section holding its `content` as
      it is; ids block_1 .. block_n in push order. */
  method ConvertAnalysisToBlocks(data: AnalysisData) returns (blocks: seq<PushedBlock>)
    ensures blocks == ParagraphLayout(data)
    ensures forall i, j :: 0 <= i < j < |blocks| ==> blocks[i].id != blocks[j].id
  {
    blocks := [];
    var blockId := 1;
    blocks := blocks + [PushedBlock(BlockIdText(blockId), Heading1, Some(TitleText), "")];
    blockId := blockId + 1;
    if data.youtubeUrl != [] {
      blocks := blocks + [PushedBlock(BlockIdText(blockId), Paragraph, Some(SourcePrefix + data.youtubeUrl), "")];
      blockId := blockId + 1;
    }
    blocks := blocks + [PushedBlock(BlockIdText(blockId), Heading2, Some(SummaryText), "")];
    blockId := blockId + 1;
    assert blocks == ParagraphHeader(data);
    blocks := PushParagraphs(blocks, data.finalOutput.sections);
    ParagraphLayoutShape(data);
  }

  /** `sections.forEach(section => blocks.push({ id: `block_${blockId++}`,
      type: 'paragraph', content: section.content, placeholder: '' }))` */
  method PushParagraphs(blocks: seq<PushedBlock>, sections: seq<Section>) returns (r: seq<PushedBlock>)
    ensures r == blocks + SectionParagraphs(sections, |blocks| + 1)
  {
    ghost var all := SectionParagraphs(sections, |blocks| + 1);
    r := blocks;
    var blockId := |r| + 1;
    var i := 0;
    while i < |sections|
      invariant 0 <= i <= |sections|
      invariant blockId == |blocks| + i + 1
      invariant r == blocks + all[..i]
    {
      assert all[..i + 1] == all[..i] + [all[i]];
      ConcatAssoc(blocks, all[..i], [all[i]]);
      r := r + [PushedBlock(BlockIdText(blockId), Paragraph, sections[i].content, "")];
      blockId := blockId + 1;
      i := i + 1;
    }
    assert all[..i] == all;
  }

  /** `onCompositionEnd`: once the IME composition closes, the text is first
      tried as a shortcut (without the YouTube rule), and only when it is
      none is it stored as the block's content. */
  function CompositionEnd(blocks: seq<Block>, id: string, text: string): (r: seq<Block>)
    ensures |r| == |blocks|
    ensures forall i :: 0 <= i < |r| && blocks[i].id != id ==> r[i] == blocks[i]
    ensures forall i :: 0 <= i < |r| && blocks[i].id == id ==>
              match DetectMarkdown(text, false, false)
              case None => r[i] == blocks[i].(content := text)
              case Some(c) => r[i].kind == c.kind && r[i].content == c.content && r[i].content != text
  {
    match DetectMarkdown(text, false, false)
    case Some(c) => UpdateBlockType(blocks, id, c.kind, c.content, c.checked)
    case None => UpdateBlockContent(blocks, id, text)
  }

  /** A pasted YouTube link stays a plain block in this copy: composition end
      stores it as text and keeps the block's type. */
  lemma YoutubeLinkStaysText(blocks: seq<Block>, id: string, text: string)
    requires YoutubePrefix(text)
    ensures var r := CompositionEnd(blocks, id, text);
            forall i :: 0 <= i < |r| ==> r[i].kind == blocks[i].kind
  {
    NoYoutubeRule(text, false);
  }

  /** The same for typed input. */
  lemma YoutubeInputStaysText(blocks: seq<Block>, id: string, text: string)
    requires YoutubePrefix(text)
    ensures var r := HandleInput(blocks, id, text, text, false, false);
            |r| == |blocks| && forall i :: 0 <= i < |r| ==> r[i].kind == blocks[i].kind
  {
    NoYoutubeRule(text, false);
  }
}
