/**
 * Markdown text to blocks and blocks back to the saved JSON form, as the
 * two page editors do it (src/pages/Editor/FixedNotionEditor.js and
 * src/pages/EditorPage/EditorPage.js): `parseInlineMarkdown`,
 * `parseMarkdownToBlocks` and `blocksToJson`.
 */
module Markdown {
  import opened JsText
  import opened BlockEditor

  // ---------------------------------------------------------------------------
  // Inline markup: `/\*\*(.*?)\*\*/g` and `/==(.*?)==/g`

  const StrongOpen := "<strong>"
  const StrongClose := "</strong>"
  const MarkOpen := "<mark style=\"background-color: #ffeb3b; color: #000;\">"
  const MarkClose := "</mark>"

  /** Where the lazy group `(.*?)` ends, in the text after an opening `dd`:
      the first `dd`, provided no line terminator comes before it (`.` does
      not match one). */
  function CloseAt(s: string, d: char): (k: Option<nat>)
    ensures k.Some? ==> k.value + 2 <= |s| && s[k.value] == d && s[k.value + 1] == d
    ensures k.Some? ==> forall j :: 0 <= j < k.value ==> !IsLineTerminator(s[j]) && !(s[j] == d && s[j + 1] == d)
  {
    if |s| < 2 then None
    else if s[0] == d && s[1] == d then Some(0)
    else if IsLineTerminator(s[0]) then None
    else
      match CloseAt(s[1..], d)
      case None => None
      case Some(k) => Some(k + 1)
  }

  /** A global replacement of `dd(.*?)dd` by `open$1close`: scanning from the
      left, each match is replaced and the scan resumes after it. */
  function ReplacePairs(s: string, d: char, open: string, close: string): (r: string)
    decreases |s|
  {
    if |s| >= 2 && s[0] == d && s[1] == d && CloseAt(s[2..], d).Some? then
      var k := CloseAt(s[2..], d).value;
      open + s[2..2 + k] + close + ReplacePairs(s[4 + k..], d, open, close)
    else if s == [] then []
    else [s[0]] + ReplacePairs(s[1..], d, open, close)
  }

  /** Text without the delimiter is left alone. */
  lemma {:induction false} ReplaceWithoutDelimiter(s: string, d: char, open: string, close: string)
    requires d !in s
    ensures ReplacePairs(s, d, open, close) == s
  {
    if s != [] {
      ReplaceWithoutDelimiter(s[1..], d, open, close);
      assert [s[0]] + s[1..] == s;
    }
  }

  /** A delimited run of plain text becomes one element. */
  lemma WrappedRun(w: string, d: char, open: string, close: string)
    requires d !in w && forall i :: 0 <= i < |w| ==> !IsLineTerminator(w[i])
    ensures ReplacePairs([d, d] + w + [d, d], d, open, close) == open + w + close
  {
    var s := [d, d] + w + [d, d];
    assert s[2..] == w + [d, d];
    ClosesAfterRun(w, d);
    assert s[2..2 + |w|] == w;
    assert s[4 + |w|..] == [];
  }

  lemma {:induction false} ClosesAfterRun(w: string, d: char)
    requires d !in w && forall i :: 0 <= i < |w| ==> !IsLineTerminator(w[i])
    ensures CloseAt(w + [d, d], d) == Some(|w|)
  {
    if w != [] {
      assert (w + [d, d])[1..] == w[1..] + [d, d];
      ClosesAfterRun(w[1..], d);
    }
  }

  /** `parseInlineMarkdown(text)`: bold first, then highlight. */
  function ParseInline(text: string): string {
    ReplacePairs(ReplacePairs(text, '*', StrongOpen, StrongClose), '=', MarkOpen, MarkClose)
  }

  /** Text without `*` and `=` has no inline markup and is left alone. */
  lemma ParseInlinePlain(text: string)
    requires '*' !in text && '=' !in text
    ensures ParseInline(text) == text
  {
    ReplaceWithoutDelimiter(text, '*', StrongOpen, StrongClose);
    ReplaceWithoutDelimiter(text, '=', MarkOpen, MarkClose);
  }

  // ---------------------------------------------------------------------------
  // Tag stripping: `/<[^>]+>/g` replaced by ''

  /** A tag starts at `i`: a `<`, then at least one character that is not
      `>`, then a `>`. */
  predicate TagAt(s: string, i: int) {
    0 <= i < |s| && s[i] == '<' && 1 <= IndexOf(s[i + 1..], '>') < |s| - i - 1
  }

  predicate NoTag(s: string) {
    forall i :: 0 <= i < |s| ==> !TagAt(s, i)
  }

  /** `content.replace(/<[^>]+>/g, '')` */
  function StripTags(s: string): (r: string)
    ensures |r| <= |s|
    decreases |s|
  {
    if s == [] then []
    else if TagAt(s, 0) then StripTags(s[1 + IndexOf(s[1..], '>') + 1..])
    else [s[0]] + StripTags(s[1..])
  }

  /** Stripping never creates a `>`. */
  lemma {:induction false} StripKeepsNoClose(s: string)
    requires '>' !in s
    ensures '>' !in StripTags(s)
  {
    if s != [] {
      StripKeepsNoClose(s[1..]);
    }
  }

  lemma TagAtTail(c: char, t: string, i: int)
    requires 0 <= i < |t|
    ensures TagAt([c] + t, i + 1) <==> TagAt(t, i)
  {
    assert ([c] + t)[i + 2..] == t[i + 1..];
  }

  /** No tag is left after stripping. */
  lemma {:induction false} StripTagsLeavesNoTag(s: string)
    ensures NoTag(StripTags(s))
  {
    if s != [] {
      if TagAt(s, 0) {
        StripTagsLeavesNoTag(s[1 + IndexOf(s[1..], '>') + 1..]);
      } else {
        var rest := StripTags(s[1..]);
        var r := [s[0]] + rest;
        StripTagsLeavesNoTag(s[1..]);
        forall i | 0 <= i < |r| ensures !TagAt(r, i) {
          if i > 0 {
            TagAtTail(s[0], rest, i - 1);
          } else if s[0] == '<' {
            FirstCharNotTag(s, rest);
          }
        }
      }
    }
  }

  /** A `<` that does not open a tag in `s` does not open one after the rest
      of `s` has been stripped. */
  lemma FirstCharNotTag(s: string, rest: string)
    requires s != [] && s[0] == '<' && !TagAt(s, 0) && rest == StripTags(s[1..])
    ensures !TagAt([s[0]] + rest, 0)
  {
    var r := [s[0]] + rest;
    assert r[1..] == rest;
    var k := IndexOf(s[1..], '>');
    if k < |s| - 1 {
      assert k == 0 && s[1] == '>';
      assert !TagAt(s[1..], 0);
      assert rest == [s[1]] + StripTags(s[2..]);
      assert IndexOf(rest, '>') == 0;
    } else {
      assert '>' !in s[1..];
      StripKeepsNoClose(s[1..]);
      assert IndexOf(rest, '>') == |rest|;
    }
  }

  /** Text without a tag is left alone. */
  lemma {:induction false} StripNoTag(s: string)
    requires NoTag(s)
    ensures StripTags(s) == s
  {
    if s != [] {
      assert !TagAt(s, 0);
      forall i | 0 <= i < |s| - 1 ensures !TagAt(s[1..], i) {
        assert [s[0]] + s[1..] == s;
        TagAtTail(s[0], s[1..], i);
      }
      StripNoTag(s[1..]);
      assert [s[0]] + s[1..] == s;
    }
  }

  /** Stripping twice is stripping once. */
  lemma StripTagsIdempotent(s: string)
    ensures StripTags(StripTags(s)) == StripTags(s)
  {
    StripTagsLeavesNoTag(s);
    StripNoTag(StripTags(s));
  }

  /** Text without `<` contains no tag. */
  lemma NoOpenNoTag(s: string)
    requires '<' !in s
    ensures NoTag(s)
  {
  }

  /** A bold run of plain text becomes one `<strong>` element. */
  lemma InlineBold(w: string)
    requires '*' !in w && '=' !in w && '<' !in w
    requires forall i :: 0 <= i < |w| ==> !IsLineTerminator(w[i])
    ensures ParseInline("**" + w + "**") == StrongOpen + w + StrongClose
  {
    assert "**" + w + "**" == ['*', '*'] + w + ['*', '*'];
    WrappedRun(w, '*', StrongOpen, StrongClose);
    var bold := StrongOpen + w + StrongClose;
    assert '=' !in bold;
    ReplaceWithoutDelimiter(bold, '=', MarkOpen, MarkClose);
  }

  /** What the inline parser adds, the tag stripper removes: a bold run of
      plain text comes back as the text. */
  lemma BoldThenStrip(w: string)
    requires '*' !in w && '=' !in w && '<' !in w
    requires forall i :: 0 <= i < |w| ==> !IsLineTerminator(w[i])
    ensures StripTags(ParseInline("**" + w + "**")) == w
  {
    InlineBold(w);
    StripStrong(w);
  }

  lemma StripStrong(w: string)
    requires '<' !in w
    ensures StripTags(StrongOpen + w + StrongClose) == w
  {
    StripAfterTag(StrongOpen, w + StrongClose);
    assert StrongOpen + w + StrongClose == StrongOpen + (w + StrongClose);
    StripPlainPrefix(w, StrongClose);
    StripAfterTag(StrongClose, []);
    assert StrongClose + [] == StrongClose;
    assert w + [] == w;
  }

  /** A leading tag is dropped. */
  lemma StripAfterTag(tag: string, rest: string)
    requires |tag| >= 3 && tag[0] == '<' && tag[|tag| - 1] == '>' && '>' !in tag[1..|tag| - 1]
    ensures StripTags(tag + rest) == StripTags(rest)
  {
    var s := tag + rest;
    assert s[1..][..|tag| - 2] == tag[1..|tag| - 1];
    assert s[1..][|tag| - 2] == '>';
    assert IndexOf(s[1..], '>') == |tag| - 2;
    assert s[|tag|..] == rest;
  }

  /** Leading text without `<` is kept. */
  lemma {:induction false} StripPlainPrefix(w: string, rest: string)
    requires '<' !in w
    ensures StripTags(w + rest) == w + StripTags(rest)
  {
    if w != [] {
      assert (w + rest)[1..] == w[1..] + rest;
      StripPlainPrefix(w[1..], rest);
    } else {
      assert w + rest == rest;
    }
  }

  // ---------------------------------------------------------------------------
  // blocksToJson

  datatype JsonSection = JsonSection(kind: string, content: string)
  datatype SavedDocument = SavedDocument(format: string, sections: seq<JsonSection>)

  /** Blocks that `blocksToJson` keeps: everything but heading1 and youtube. */
  predicate Saved(b: Block) {
    b.kind != Heading1 && b.kind != Youtube
  }

  function SavedSections(blocks: seq<Block>): (r: seq<JsonSection>)
    ensures |r| <= |blocks|
    ensures forall i :: 0 <= i < |r| ==> r[i].kind == "paragraph" && NoTag(r[i].content)
    ensures |r| == |blocks| <==> forall i :: 0 <= i < |blocks| ==> Saved(blocks[i])
  {
    if blocks == [] then []
    else
      assert forall i :: 1 <= i < |blocks| ==> blocks[i] == blocks[1..][i - 1];
      StripTagsLeavesNoTag(blocks[0].content);
      (if Saved(blocks[0]) then [JsonSection("paragraph", StripTags(blocks[0].content))] else [])
      + SavedSections(blocks[1..])
  }

  /** `blocksToJson(blocks)`: format "json" and one tag-free paragraph per
      kept block. */
  function BlocksToJson(blocks: seq<Block>): (r: SavedDocument)
    ensures r.format == "json"
    ensures forall i :: 0 <= i < |r.sections| ==> r.sections[i].kind == "paragraph" && NoTag(r.sections[i].content)
    ensures |r.sections| <= |blocks|
  {
    SavedDocument("json", SavedSections(blocks))
  }

  /** A document of only heading1 and youtube blocks saves no section. */
  lemma {:induction false} NothingSaved(blocks: seq<Block>)
    requires forall i :: 0 <= i < |blocks| ==> !Saved(blocks[i])
    ensures BlocksToJson(blocks).sections == []
  {
    if blocks != [] {
      NothingSaved(blocks[1..]);
    }
  }

  /** The sections follow the order of the blocks: saving distributes over
      concatenation, and one block gives its stripped content or nothing. */
  lemma {:induction false} SavedSectionsAppend(a: seq<Block>, b: seq<Block>)
    ensures SavedSections(a + b) == SavedSections(a) + SavedSections(b)
  {
    if a == [] {
      assert a + b == b;
    } else {
      assert (a + b)[0] == a[0];
      assert (a + b)[1..] == a[1..] + b;
      SavedSectionsAppend(a[1..], b);
    }
  }

  lemma SavedSectionsOne(b: Block)
    ensures SavedSections([b]) == if Saved(b) then [JsonSection("paragraph", StripTags(b.content))] else []
  {
    assert [b][1..] == [];
  }

  // ---------------------------------------------------------------------------
  // parseMarkdownToBlocks

  /** `/^\d+\.\s/`: the length of the list marker, if the line starts with one. */
  function NumberedMarker(t: string): (n: nat)
    ensures n == 0 || (n >= 3 && n <= |t|)
  {
    var d := DigitRun(t);
    if d != [] && |d| + 2 <= |t| && t[|d|] == '.' && IsSpace(t[|d| + 1]) then |d| + 2 else 0
  }

  /** The type and content of a non-blank trimmed line. */
  function LineBlock(t: string): (r: (BlockType, string))
    ensures r.0 == Youtube ==> r.1 == t
    ensures r.0 != Heading1 || StartsWith(t, "# ")
  {
    if StartsWith(t, "### ") then (Heading3, ParseInline(t[4..]))
    else if StartsWith(t, "## ") then (Heading2, ParseInline(t[3..]))
    else if StartsWith(t, "# ") then (Heading1, ParseInline(t[2..]))
    else if StartsWith(t, "- ") then (Bullet, ParseInline(t[2..]))
    else if NumberedMarker(t) > 0 then (Numbered, ParseInline(t[NumberedMarker(t)..]))
    else if StartsWith(t, "> ") then (Quote, ParseInline(t[2..]))
    else if YoutubePrefix(t) then (Youtube, t)
    else (Paragraph, ParseInline(t))
  }

  /** `block_${n}` */
  function BlockIdText(n: nat): string {
    "block_" + NatToString(n)
  }

  /** Different counters give different ids. */
  lemma BlockIdsDiffer(m: nat, n: nat)
    requires m != n
    ensures BlockIdText(m) != BlockIdText(n)
  {
    assert NatToString(m) == BlockIdText(m)[6..];
    assert NatToString(n) == BlockIdText(n)[6..];
    DecimalValueOfNatToString(m);
    DecimalValueOfNatToString(n);
  }

  /** The trimmed non-blank lines, in order. */
  function NonBlankLines(lines: seq<string>): (r: seq<string>)
    ensures |r| <= |lines|
  {
    if lines == [] then []
    else
      var last := Trim(lines[|lines| - 1]);
      NonBlankLines(lines[..|lines| - 1]) + (if last == [] then [] else [last])
  }

  lemma NonBlankLinesStep(lines: seq<string>, i: nat)
    requires i < |lines|
    ensures NonBlankLines(lines[..i + 1])
            == NonBlankLines(lines[..i]) + (if Trim(lines[i]) == [] then [] else [Trim(lines[i])])
  {
    assert lines[..i + 1][..i] == lines[..i];
    assert lines[..i + 1][i] == lines[i];
  }

  /** The block for the `n`-th non-blank line. */
  function LineToBlock(t: string, n: nat): Block {
    var (kind, content) := LineBlock(t);
    Block(BlockIdText(n), kind, content, "", None)
  }

  /** One block per line, numbered from 1. */
  function BlocksOfLines(lines: seq<string>): (r: seq<Block>)
    ensures |r| == |lines|
  {
    seq(|lines|, i requires 0 <= i < |lines| => LineToBlock(lines[i], i + 1))
  }

  lemma BlocksOfLinesSnoc(lines: seq<string>, t: string)
    ensures BlocksOfLines(lines + [t]) == BlocksOfLines(lines) + [LineToBlock(t, |lines| + 1)]
  {
    var a, b := BlocksOfLines(lines + [t]), BlocksOfLines(lines) + [LineToBlock(t, |lines| + 1)];
    forall j | 0 <= j < |a| ensures a[j] == b[j] {
      if j < |lines| {
        assert (lines + [t])[j] == lines[j];
      }
    }
  }

  /** The blocks of `text`: one per non-blank trimmed line, numbered from 1. */
  function MarkdownBlocks(text: string): (r: seq<Block>)
    ensures |r| == |NonBlankLines(Split(text, '\n'))|
  {
    BlocksOfLines(NonBlankLines(Split(text, '\n')))
  }

  /** `parseMarkdownToBlocks(text)`: pushes one block per non-blank line while
      counting up the id. */
  method ParseMarkdownToBlocks(text: string) returns (blocks: seq<Block>)
    ensures blocks == MarkdownBlocks(text)
  {
    var lines := Split(text, '\n');
    blocks := [];
    var blockId := 1;
    var i := 0;
    while i < |lines|
      invariant 0 <= i <= |lines|
      invariant blockId == |blocks| + 1
      invariant blocks == BlocksOfLines(NonBlankLines(lines[..i]))
    {
      var trimmedLine := Trim(lines[i]);
      NonBlankLinesStep(lines, i);
      if trimmedLine != [] {
        var (kind, content) := LineBlock(trimmedLine);
        var block := Block(BlockIdText(blockId), kind, content, "", None);
        assert block == LineToBlock(trimmedLine, |blocks| + 1);
        BlocksOfLinesSnoc(NonBlankLines(lines[..i]), trimmedLine);
        blocks := blocks + [block];
        blockId := blockId + 1;
      }
      i := i + 1;
    }
    assert lines[..|lines|] == lines;
  }

  /** The parsed blocks carry the ids block_1 .. block_n in line order, an
      empty placeholder and no `checked` flag; so their ids are distinct. */
  lemma MarkdownBlocksShape(text: string)
    ensures var r := MarkdownBlocks(text);
            && (forall i :: 0 <= i < |r| ==> r[i].id == BlockIdText(i + 1) && r[i].placeholder == [] && r[i].checked.None?)
            && DistinctIds(r)
  {
    var lines := NonBlankLines(Split(text, '\n'));
    var r := MarkdownBlocks(text);
    forall i | 0 <= i < |r| ensures r[i].id == BlockIdText(i + 1) && r[i].placeholder == [] && r[i].checked.None? {
      assert r[i] == LineToBlock(lines[i], i + 1);
    }
    forall i, j | 0 <= i < j < |r| ensures r[i].id != r[j].id {
      BlockIdsDiffer(i + 1, j + 1);
    }
  }

  /** Blank text gives no blocks; a single non-blank line gives one. */
  lemma OneLine(t: string)
    requires '\n' !in t
    ensures MarkdownBlocks(t) == if Trim(t) == [] then [] else [LineToBlock(Trim(t), 1)]
  {
    SplitNoSeparator(t, '\n');
    NonBlankLinesOne(t);
    BlocksOfLinesOne(Trim(t));
    assert BlocksOfLines([]) == [];
  }

  lemma NonBlankLinesOne(t: string)
    ensures NonBlankLines([t]) == if Trim(t) == [] then [] else [Trim(t)]
  {
    assert [t][..0] == [];
  }

  lemma BlocksOfLinesOne(t: string)
    ensures BlocksOfLines([t]) == [LineToBlock(t, 1)]
  {
  }

  /** Each heading prefix gives its own heading type, whatever follows it. */
  lemma HeadingPrefixes(w: string)
    ensures LineBlock("### " + w).0 == Heading3
    ensures LineBlock("## " + w).0 == Heading2
    ensures LineBlock("# " + w).0 == Heading1
  {
    assert ("### " + w)[..4] == "### ";
    assert ("## " + w)[..3] == "## " && ("## " + w)[2] == ' ';
    assert ("# " + w)[..2] == "# " && ("# " + w)[1] == ' ';
  }

  /** The empty text has no blocks. */
  lemma EmptyTextNoBlocks()
    ensures MarkdownBlocks("") == []
  {
    assert Split("", '\n') == [""] by {
      SplitNoSeparator("", '\n');
    }
    assert Trim("") == [];
    assert NonBlankLines([""]) == NonBlankLines([]) + [];
  }
}
