/**
 * The block document shared by the three editor screens
 * (src/pages/Editor/FixedNotionEditor.js, src/pages/EditorPage/EditorPage.js
 * and src/components/FixedNotionEditor.js): a document is a sequence of
 * blocks, and every edit replaces the whole sequence with a new one built by
 * `map`, `filter` or `splice` on a copy.
 */
module BlockEditor {
  import opened JsText

  datatype BlockType =
    | Heading1 | Heading2 | Heading3 | Paragraph | Bullet | Numbered
    | Checkbox | Quote | Code | Youtube

  /** A block; `checked` is `None` while the field is `undefined`. */
  datatype Block = Block(id: string, kind: BlockType, content: string, placeholder: string, checked: Option<bool>)

  /** `!!block.checked` */
  predicate IsChecked(b: Block) {
    b.checked == Some(true)
  }

  /** No two blocks share an id. */
  predicate DistinctIds(blocks: seq<Block>) {
    forall i, j :: 0 <= i < j < |blocks| ==> blocks[i].id != blocks[j].id
  }

  predicate HasId(blocks: seq<Block>, id: string) {
    exists i :: 0 <= i < |blocks| && blocks[i].id == id
  }

  // ---------------------------------------------------------------------------
  // Markdown shortcuts typed at the start of a block

  /** What a recognised shortcut turns the block into. */
  datatype Conversion = Conversion(kind: BlockType, content: string, checked: bool)

  /** `/^\d+\. $/`: one or more digits, a dot and a space, and nothing else. */
  predicate NumberedTrigger(t: string) {
    |t| >= 3 && EndsWith(t, ". ") && AllDigits(t[..|t| - 2])
  }

  /** The two prefixes that make a block a YouTube embed. */
  predicate YoutubePrefix(t: string) {
    StartsWith(t, "https://www.youtube.com/watch") || StartsWith(t, "https://youtu.be/")
  }

  /** The whole-string shortcuts other than the numbered-list pattern. */
  predicate FixedTrigger(t: string) {
    t == "# " || t == "## " || t == "### " || t == "- " || t == "- [ ] " || t == "- [x] "
    || t == "> " || t == "```"
  }

  /** `detectMarkdownAndConvert(text, blockId)`: the conversion it asks for,
      or `None` where it returns false. `youtubeRule` is false for the copy in
      src/components/FixedNotionEditor.js, which has no YouTube rule. */
  function DetectMarkdown(text: string, composing: bool, youtubeRule: bool): (r: Option<Conversion>)
    ensures text == [] || composing ==> r.None?
    ensures r.Some? <==> text != [] && !composing
                         && (FixedTrigger(text) || NumberedTrigger(text) || (youtubeRule && YoutubePrefix(text)))
    ensures r.Some? && r.value.kind != Youtube ==> r.value.content == []
    ensures r.Some? && r.value.kind == Youtube ==> r.value.content == text && youtubeRule
    ensures r.Some? ==> (r.value.checked <==> text == "- [x] ")
  {
    if text == [] || composing then None
    else if text == "# " then Some(Conversion(Heading1, "", false))
    else if text == "## " then Some(Conversion(Heading2, "", false))
    else if text == "### " then Some(Conversion(Heading3, "", false))
    else if text == "- " then Some(Conversion(Bullet, "", false))
    else if NumberedTrigger(text) then Some(Conversion(Numbered, "", false))
    else if text == "- [ ] " then Some(Conversion(Checkbox, "", false))
    else if text == "- [x] " then Some(Conversion(Checkbox, "", true))
    else if text == "> " then Some(Conversion(Quote, "", false))
    else if text == "```" then Some(Conversion(Code, "", false))
    else if youtubeRule && YoutubePrefix(text) then Some(Conversion(Youtube, text, false))
    else None
  }

  /** Each block type is reached by exactly one trigger: the table is a
      whole-string match, so the kind identifies the text typed. */
  lemma TriggerTable(text: string, youtubeRule: bool)
    requires DetectMarkdown(text, false, youtubeRule).Some?
    ensures var k := DetectMarkdown(text, false, youtubeRule).value.kind;
            && (k == Heading1 <==> text == "# ")
            && (k == Heading2 <==> text == "## ")
            && (k == Heading3 <==> text == "### ")
            && (k == Bullet <==> text == "- ")
            && (k == Numbered <==> NumberedTrigger(text))
            && (k == Checkbox <==> text == "- [ ] " || text == "- [x] ")
            && (k == Quote <==> text == "> ")
            && (k == Code <==> text == "```")
            && (k == Youtube <==> !FixedTrigger(text) && !NumberedTrigger(text))
            && k != Paragraph
  {
    if NumberedTrigger(text) {
      assert text[|text| - 2..] == ". ";
      assert IsDigit(text[0]);
    }
  }

  /** Without the YouTube rule a YouTube link is not a shortcut. */
  lemma NoYoutubeRule(text: string, composing: bool)
    requires YoutubePrefix(text)
    ensures DetectMarkdown(text, composing, false).None?
  {
    assert !IsDigit(text[0]);
    assert |text| >= 3 ==> text[..|text| - 2][0] == text[0];
  }

  // ---------------------------------------------------------------------------
  // Edits of one block, found by id

  /** `updateBlockType(blockId, newType, newContent, checked)`: every block
      with the id gets the new type, content and `checked`; nothing else
      changes. */
  function UpdateBlockType(blocks: seq<Block>, id: string, kind: BlockType, content: string, checked: bool): (r: seq<Block>)
    ensures |r| == |blocks|
    ensures forall i :: 0 <= i < |r| ==> r[i].id == blocks[i].id && r[i].placeholder == blocks[i].placeholder
    ensures forall i :: 0 <= i < |r| && blocks[i].id != id ==> r[i] == blocks[i]
    ensures forall i :: 0 <= i < |r| && blocks[i].id == id ==>
              r[i].kind == kind && r[i].content == content && r[i].checked == Some(checked)
  {
    if blocks == [] then []
    else
      var b := blocks[0];
      [if b.id == id then b.(kind := kind, content := content, checked := Some(checked)) else b]
      + UpdateBlockType(blocks[1..], id, kind, content, checked)
  }

  /** `updateBlockContent(blockId, newContent)`: only the content of the
      blocks with the id changes. */
  function UpdateBlockContent(blocks: seq<Block>, id: string, content: string): (r: seq<Block>)
    ensures |r| == |blocks|
    ensures forall i :: 0 <= i < |r| && blocks[i].id != id ==> r[i] == blocks[i]
    ensures forall i :: 0 <= i < |r| && blocks[i].id == id ==> r[i] == blocks[i].(content := content)
  {
    if blocks == [] then []
    else
      var b := blocks[0];
      [if b.id == id then b.(content := content) else b] + UpdateBlockContent(blocks[1..], id, content)
  }

  /** `toggleCheckbox(blockId)`: `checked: !block.checked`, so an undefined
      flag becomes true. */
  function ToggleCheckbox(blocks: seq<Block>, id: string): (r: seq<Block>)
    ensures |r| == |blocks|
    ensures forall i :: 0 <= i < |r| && blocks[i].id != id ==> r[i] == blocks[i]
    ensures forall i :: 0 <= i < |r| && blocks[i].id == id ==>
              r[i] == blocks[i].(checked := Some(!IsChecked(blocks[i])))
  {
    if blocks == [] then []
    else
      var b := blocks[0];
      [if b.id == id then b.(checked := Some(!IsChecked(b))) else b] + ToggleCheckbox(blocks[1..], id)
  }

  /** Toggling twice gives back every block whose flag was defined; an
      undefined flag ends up false. */
  lemma {:induction false} ToggleTwice(blocks: seq<Block>, id: string)
    ensures var r := ToggleCheckbox(ToggleCheckbox(blocks, id), id);
            forall i :: 0 <= i < |r| ==>
              r[i] == if blocks[i].id == id && blocks[i].checked.None? then blocks[i].(checked := Some(false))
                      else blocks[i]
  {
    var once := ToggleCheckbox(blocks, id);
    var r := ToggleCheckbox(once, id);
    forall i | 0 <= i < |r|
      ensures r[i] == if blocks[i].id == id && blocks[i].checked.None? then blocks[i].(checked := Some(false))
                      else blocks[i]
    {
      if blocks[i].id == id {
        assert once[i] == blocks[i].(checked := Some(!IsChecked(blocks[i])));
        assert once[i].id == id;
        assert r[i] == once[i].(checked := Some(!IsChecked(once[i])));
        assert r[i].checked == Some(IsChecked(blocks[i]));
        if blocks[i].checked.Some? {
          var v := blocks[i].checked.value;
          assert blocks[i].checked == Some(v);
          assert IsChecked(blocks[i]) == v;
        }
      } else {
        assert once[i] == blocks[i];
      }
    }
  }

  /** Setting a block's type twice is setting it once. */
  lemma UpdateBlockTypeIdempotent(blocks: seq<Block>, id: string, kind: BlockType, content: string, checked: bool)
    ensures var once := UpdateBlockType(blocks, id, kind, content, checked);
            UpdateBlockType(once, id, kind, content, checked) == once
  {
    var once := UpdateBlockType(blocks, id, kind, content, checked);
    var twice := UpdateBlockType(once, id, kind, content, checked);
    assert forall i :: 0 <= i < |twice| ==> twice[i] == once[i];
  }

  // ---------------------------------------------------------------------------
  // Insertion and deletion

  /** `blocks.findIndex(b => b.id === id)`: -1 when no block has the id. */
  function FindIndex(blocks: seq<Block>, id: string): (i: int)
    ensures -1 <= i < |blocks|
    ensures i >= 0 ==> blocks[i].id == id
    ensures forall j :: 0 <= j < |blocks| && (i == -1 || j < i) ==> blocks[j].id != id
  {
    if blocks == [] then -1
    else if blocks[0].id == id then 0
    else
      var k := FindIndex(blocks[1..], id);
      if k == -1 then -1 else k + 1
  }

  /** With distinct ids the index of a block's own id is its position. */
  lemma FindIndexOfDistinct(blocks: seq<Block>, i: int)
    requires DistinctIds(blocks) && 0 <= i < |blocks|
    ensures FindIndex(blocks, blocks[i].id) == i
  {
  }

  /** The block `addNewBlock` inserts. Its id comes from `Date.now()` in the
      source and is a parameter here. */
  function EmptyParagraph(newId: string): Block {
    Block(newId, Paragraph, "", "내용을 입력하세요...", None)
  }

  /** `addNewBlock(afterBlockId)`: one empty paragraph right after the first
      block with the id, or at the front when there is none (`findIndex`
      gives -1 and the splice goes to index 0). */
  function AddNewBlock(blocks: seq<Block>, afterId: string, newId: string): (r: seq<Block>)
    ensures var k := FindIndex(blocks, afterId) + 1;
            && |r| == |blocks| + 1
            && r[k] == EmptyParagraph(newId)
            && r[..k] == blocks[..k] && r[k + 1..] == blocks[k..]
    ensures HasId(blocks, afterId) ==> r[FindIndex(blocks, afterId)].id == afterId
    ensures !HasId(blocks, afterId) ==> r == [EmptyParagraph(newId)] + blocks
  {
    var k := FindIndex(blocks, afterId) + 1;
    blocks[..k] + [EmptyParagraph(newId)] + blocks[k..]
  }

  /** `blocks.filter(b => b.id !== id)` */
  function RemoveId(blocks: seq<Block>, id: string): (r: seq<Block>)
    ensures |r| <= |blocks|
    ensures !HasId(r, id)
  {
    if blocks == [] then []
    else (if blocks[0].id == id then [] else [blocks[0]]) + RemoveId(blocks[1..], id)
  }

  /** The filter keeps the order of what it keeps: it distributes over
      concatenation. */
  lemma {:induction false} RemoveIdAppend(a: seq<Block>, b: seq<Block>, id: string)
    ensures RemoveId(a + b, id) == RemoveId(a, id) + RemoveId(b, id)
  {
    if a == [] {
      assert a + b == b;
    } else {
      var ab := a + b;
      assert ab[0] == a[0] && ab[1..] == a[1..] + b;
      RemoveIdAppend(a[1..], b, id);
      var head := if a[0].id == id then [] else [a[0]];
      assert RemoveId(ab, id) == head + RemoveId(a[1..] + b, id);
      assert RemoveId(a, id) == head + RemoveId(a[1..], id);
    }
  }

  /** A document without the id passes through the filter unchanged. */
  lemma {:induction false} RemoveAbsentId(blocks: seq<Block>, id: string)
    requires !HasId(blocks, id)
    ensures RemoveId(blocks, id) == blocks
  {
    if blocks != [] {
      assert !HasId(blocks[1..], id) by {
        forall i | 0 <= i < |blocks[1..]| ensures blocks[1..][i].id != id {
          assert blocks[1..][i] == blocks[i + 1];
        }
      }
      RemoveAbsentId(blocks[1..], id);
    }
  }

  /** `deleteBlock(blockId)`: nothing happens while the document has at most
      one block; otherwise every block with the id goes. */
  function DeleteBlock(blocks: seq<Block>, id: string): (r: seq<Block>)
    ensures |blocks| <= 1 ==> r == blocks
    ensures |blocks| > 1 ==> r == RemoveId(blocks, id) && !HasId(r, id)
  {
    if |blocks| <= 1 then blocks else RemoveId(blocks, id)
  }

  /** Deleting an id no block carries changes nothing. */
  lemma DeleteAbsentId(blocks: seq<Block>, id: string)
    requires !HasId(blocks, id)
    ensures DeleteBlock(blocks, id) == blocks
  {
    RemoveAbsentId(blocks, id);
  }

  /** Deleting the block just added gives back the document, provided the new
      id was fresh and the document was not empty. */
  lemma {:induction false} DeleteUndoesAdd(blocks: seq<Block>, afterId: string, newId: string)
    requires blocks != [] && !HasId(blocks, newId)
    ensures DeleteBlock(AddNewBlock(blocks, afterId, newId), newId) == blocks
  {
    var k := FindIndex(blocks, afterId) + 1;
    var a, e, b := blocks[..k], [EmptyParagraph(newId)], blocks[k..];
    var added := AddNewBlock(blocks, afterId, newId);
    assert added == a + e + b;
    AbsentFromSlices(blocks, k, newId);
    calc {
      DeleteBlock(added, newId);
      RemoveId(a + e + b, newId);
      { RemoveIdAppend(a + e, b, newId); RemoveIdAppend(a, e, newId); }
      RemoveId(a, newId) + RemoveId(e, newId) + RemoveId(b, newId);
      { RemoveAbsentId(a, newId); RemoveAbsentId(b, newId); assert e[1..] == []; }
      a + [] + b;
      { assert a + [] == a; }
      blocks;
    }
  }

  lemma AbsentFromSlices(blocks: seq<Block>, k: nat, id: string)
    requires k <= |blocks| && !HasId(blocks, id)
    ensures !HasId(blocks[..k], id) && !HasId(blocks[k..], id)
  {
    forall i | 0 <= i < k ensures blocks[..k][i].id != id {
      assert blocks[..k][i] == blocks[i];
    }
    forall i | 0 <= i < |blocks| - k ensures blocks[k..][i].id != id {
      assert blocks[k..][i] == blocks[k + i];
    }
  }

  // ---------------------------------------------------------------------------
  // Numbered-list labels

  function CountNumbered(blocks: seq<Block>): (n: nat)
    ensures n <= |blocks|
  {
    if blocks == [] then 0
    else CountNumbered(blocks[..|blocks| - 1]) + (if blocks[|blocks| - 1].kind == Numbered then 1 else 0)
  }

  /** The label of a numbered block:
      `blocks.slice(0, findIndex + 1).filter(numbered).length`. */
  function NumberedLabel(blocks: seq<Block>, id: string): (n: nat)
    ensures FindIndex(blocks, id) == -1 ==> n == 0
    ensures var i := FindIndex(blocks, id);
            i >= 0 ==> n <= i + 1 && (blocks[i].kind == Numbered ==> n >= 1)
  {
    var i := FindIndex(blocks, id);
    CountNumbered(blocks[..i + 1])
  }

  /** Two numbered blocks in a row carry consecutive labels. */
  lemma NumberedLabelsConsecutive(blocks: seq<Block>, i: nat)
    requires DistinctIds(blocks) && i + 1 < |blocks|
    requires blocks[i + 1].kind == Numbered
    ensures NumberedLabel(blocks, blocks[i + 1].id) == NumberedLabel(blocks, blocks[i].id) + 1
  {
    FindIndexOfDistinct(blocks, i);
    FindIndexOfDistinct(blocks, i + 1);
    assert blocks[..i + 2][..i + 1] == blocks[..i + 1];
  }

  /** A numbered block with no numbered block before it is labelled 1. */
  lemma {:induction false} FirstNumberedIsOne(blocks: seq<Block>, i: nat)
    requires DistinctIds(blocks) && i < |blocks| && blocks[i].kind == Numbered
    requires forall j :: 0 <= j < i ==> blocks[j].kind != Numbered
    ensures NumberedLabel(blocks, blocks[i].id) == 1
  {
    FindIndexOfDistinct(blocks, i);
    NoneNumbered(blocks[..i]);
    assert blocks[..i + 1][..i] == blocks[..i];
  }

  lemma {:induction false} NoneNumbered(blocks: seq<Block>)
    requires forall j :: 0 <= j < |blocks| ==> blocks[j].kind != Numbered
    ensures CountNumbered(blocks) == 0
  {
    if blocks != [] {
      NoneNumbered(blocks[..|blocks| - 1]);
    }
  }

  // ---------------------------------------------------------------------------
  // YouTube embeds

  const WatchMarker := "watch?v="

  /** The video id of a youtube block: the text after `watch?v=` up to the
      next `watch?v=` and then up to the first `&`
      (`split('watch?v=')[1].split('&')[0]`), or else the last `/`-segment. */
  function VideoId(content: string): (r: string)
    ensures '&' !in r || !Contains(content, WatchMarker)
    ensures !Contains(content, WatchMarker) ==> '/' !in r && EndsWith(content, r)
  {
    if Contains(content, WatchMarker) then
      var i := IndexOfText(content, WatchMarker);
      var after := content[i + |WatchMarker|..];
      var piece := after[..IndexOfText(after, WatchMarker)];
      Split(piece, '&')[0]
    else LastSegment(content, '/')
  }

  /** An occurrence of `watch?v=` has its `?` five places in, and no `&`. */
  lemma MarkerAt(s: string, j: int)
    ensures OccursAt(s, WatchMarker, j) ==> s[j + 5] == '?'
    ensures OccursAt(s, WatchMarker, j) ==> forall k :: j <= k < j + 8 ==> s[k] != '&'
  {
    if OccursAt(s, WatchMarker, j) {
      assert s[j..j + 8] == WatchMarker;
      assert s[j..j + 8][5] == s[j + 5];
      forall k | j <= k < j + 8 ensures s[k] != '&' {
        assert s[j..j + 8][k - j] == s[k];
      }
    }
  }

  /** No `watch?v=` starts before position `n` when the text before `n` has
      no `?` and a `&` (or the end) follows. */
  lemma NoMarkerBefore(after: string, n: nat)
    requires n <= |after| && '?' !in after[..n]
    requires n == |after| || after[n] == '&'
    ensures IndexOfText(after, WatchMarker) >= n
  {
    forall j | 0 <= j < n ensures !OccursAt(after, WatchMarker, j) {
      MarkerAt(after, j);
      assert j + 5 < n ==> after[j + 5] == after[..n][j + 5];
    }
  }

  /** In a watch URL the marker is found right after the host. */
  lemma WatchUrlMarker(c: string)
    requires StartsWith(c, "https://www.youtube.com/watch?v=")
    ensures IndexOfText(c, WatchMarker) == 24
  {
    var prefix := "https://www.youtube.com/watch?v=";
    assert c[..32] == prefix;
    assert c[24..32] == prefix[24..32];
    assert OccursAt(c, WatchMarker, 24);
    var i := IndexOfText(c, WatchMarker);
    assert i <= 24;
    MarkerAt(c, i);
    forall k | 5 <= k < 29 ensures c[k] != '?' {
      assert c[k] == prefix[k];
    }
  }

  /** The id of a watch URL `https://www.youtube.com/watch?v=<id>` followed by
      nothing or by `&` and further parameters is `<id>`. */
  lemma VideoIdOfWatchUrl(id: string, rest: string)
    requires '&' !in id && '?' !in id
    requires rest == [] || rest[0] == '&'
    ensures VideoId("https://www.youtube.com/watch?v=" + id + rest) == id
  {
    var c := "https://www.youtube.com/watch?v=" + id + rest;
    WatchUrlMarker(c);
    assert OccursAt(c, WatchMarker, 24);
    var after := c[32..];
    assert after == id + rest;
    assert after[..|id|] == id;
    NoMarkerBefore(after, |id|);
    PieceBeforeAmpersand(after, id);
  }

  lemma PieceBeforeAmpersand(after: string, id: string)
    requires '&' !in id && StartsWith(after, id)
    requires |after| == |id| || after[|id|] == '&'
    requires IndexOfText(after, WatchMarker) >= |id|
    ensures Split(after[..IndexOfText(after, WatchMarker)], '&')[0] == id
  {
    var piece := after[..IndexOfText(after, WatchMarker)];
    assert piece[..|id|] == id;
    SplitHead(piece, '&');
    IndexOfAt(piece, '&', |id|);
  }

  /** The id of a short link `https://youtu.be/<id>` is `<id>`. */
  lemma VideoIdOfShortUrl(id: string)
    requires '/' !in id && '?' !in id
    ensures VideoId("https://youtu.be/" + id) == id
  {
    var prefix := "https://youtu.be/";
    var c := prefix + id;
    assert !Contains(c, WatchMarker) by {
      forall j | 0 <= j <= |c| ensures !OccursAt(c, WatchMarker, j) {
        MarkerAt(c, j);
        assert j + 5 < |prefix| ==> c[j + 5] == prefix[j + 5];
        assert |prefix| <= j + 5 < |c| ==> c[j + 5] == id[j + 5 - |prefix|];
      }
    }
    var r := LastSegment(c, '/');
    assert c[|prefix| - 1] == '/';
    assert |r| <= |id|;
    assert forall k :: 0 <= k < |id| ==> c[|prefix| + k] == id[k];
    assert r == c[|c| - |r|..];
  }

  // ---------------------------------------------------------------------------
  // Typing into a block

  /** `handleInput(e, blockId)`: ignored while an IME composition is open;
      otherwise the typed text (`textContent`) is tried as a shortcut, and
      when it is none the block's stored content is replaced by `newContent`
      if it differs. `newContent` is `innerHTML` in the two pages copies and
      the same `textContent` in src/components/FixedNotionEditor.js. */
  function HandleInput(blocks: seq<Block>, id: string, text: string, newContent: string,
                       composing: bool, youtubeRule: bool): (r: seq<Block>)
    ensures composing ==> r == blocks
    ensures |r| == |blocks|
    ensures forall i :: 0 <= i < |r| ==> r[i].id == blocks[i].id
    ensures forall i :: 0 <= i < |r| && blocks[i].id != id ==> r[i] == blocks[i]
    ensures !HasId(blocks, id) && DetectMarkdown(text, composing, youtubeRule).None? ==> r == blocks
  {
    if composing then blocks
    else match DetectMarkdown(text, composing, youtubeRule)
      case Some(c) => UpdateBlockType(blocks, id, c.kind, c.content, c.checked)
      case None =>
        var k := FindIndex(blocks, id);
        if k >= 0 && blocks[k].content != newContent then UpdateBlockContent(blocks, id, newContent)
        else blocks
  }

  /** With distinct ids, input that is no shortcut stores the new content in
      the block; a recognised shortcut converts the block instead. */
  lemma HandleInputStores(blocks: seq<Block>, id: string, text: string, newContent: string, youtubeRule: bool)
    requires DistinctIds(blocks)
    ensures var r := HandleInput(blocks, id, text, newContent, false, youtubeRule);
            match DetectMarkdown(text, false, youtubeRule)
            case None => r == UpdateBlockContent(blocks, id, newContent)
            case Some(c) => r == UpdateBlockType(blocks, id, c.kind, c.content, c.checked)
  {
    var k := FindIndex(blocks, id);
    if k >= 0 && blocks[k].content == newContent {
      var u := UpdateBlockContent(blocks, id, newContent);
      forall i | 0 <= i < |blocks| ensures u[i] == blocks[i] {
        if blocks[i].id == id {
          assert i == k;
        }
      }
    }
  }
}
