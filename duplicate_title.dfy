/**
 * `getContentWithoutDuplicateTitle` of src/pages/EditorPage.js: a section
 * whose first line repeats its title shows without that line.
 */
module DuplicateTitle {
  import opened JsText

  /** `s.replace(/[#\s]/g, '')` when `dropHash`, `s.replace(/\s/g, '')`
      otherwise. */
  function Squeeze(s: string, dropHash: bool): (r: string)
    ensures |r| <= |s|
    ensures forall i :: 0 <= i < |r| ==> !IsSpace(r[i]) && !(dropHash && r[i] == '#')
    ensures forall i :: 0 <= i < |r| ==> r[i] in s
    ensures forall i :: 0 <= i < |s| && !IsSpace(s[i]) && !(dropHash && s[i] == '#') ==> s[i] in r
  {
    if s == [] then []
    else
      var rest := Squeeze(s[1..], dropHash);
      assert forall i :: 1 <= i < |s| ==> s[i] == s[1..][i - 1];
      if IsSpace(s[0]) || (dropHash && s[0] == '#') then rest else [s[0]] + rest
  }

  /** Squeezing keeps the order of what it keeps: it distributes over
      concatenation. */
  lemma {:induction false} SqueezeAppend(a: string, b: string, dropHash: bool)
    ensures Squeeze(a + b, dropHash) == Squeeze(a, dropHash) + Squeeze(b, dropHash)
  {
    if a == [] {
      assert a + b == b;
    } else {
      assert (a + b)[0] == a[0] && (a + b)[1..] == a[1..] + b;
      SqueezeAppend(a[1..], b, dropHash);
    }
  }

  /** One character is kept exactly when it is neither white space nor,
      when `dropHash`, a `#`. */
  lemma SqueezeOne(c: char, dropHash: bool)
    ensures Squeeze([c], dropHash) == if IsSpace(c) || (dropHash && c == '#') then [] else [c]
  {
    assert [c][1..] == [];
  }

  /** A string with nothing to remove is left as it is. */
  lemma {:induction false} SqueezeKeeps(s: string, dropHash: bool)
    requires forall i :: 0 <= i < |s| ==> !IsSpace(s[i]) && !(dropHash && s[i] == '#')
    ensures Squeeze(s, dropHash) == s
  {
    if s != [] {
      assert forall i :: 0 <= i < |s[1..]| ==> s[1..][i] == s[i + 1];
      SqueezeKeeps(s[1..], dropHash);
    }
  }

  function FirstLine(content: string): string {
    content[..IndexOf(content, '\n')]
  }

  /** The text after the first line break; nothing when there is none. */
  function AfterFirstLine(content: string): (r: string)
    ensures EndsWith(content, r) && (|r| < |content| || content == [])
  {
    var i := IndexOf(content, '\n');
    if i < |content| then content[i + 1..] else []
  }

  /** The condition under which the first line goes: both normalised texts
      are non-empty and the line's contains the title's. */
  predicate RepeatsTitle(title: string, content: string) {
    var line := Squeeze(FirstLine(content), true);
    var name := Squeeze(title, false);
    line != [] && name != [] && Contains(line, name)
  }

  /** `getContentWithoutDuplicateTitle(title, content)`; an absent title or
      content is the empty string. The `startsWith` test is subsumed by the
      `includes` test. */
  function WithoutDuplicateTitle(title: string, content: string): (r: string)
    ensures content == [] ==> r == []
    ensures content != [] && RepeatsTitle(title, content) ==> r == AfterFirstLine(content)
    ensures content != [] && !RepeatsTitle(title, content) ==> r == content
  {
    if content == [] then []
    else
      var lines := Split(content, '\n');
      var line := Squeeze(lines[0], true);
      var name := Squeeze(title, false);
      SplitHead(content, '\n');
      JoinSplitTail(content, '\n');
      assert StartsWith(line, name) ==> Contains(line, name) by {
        if StartsWith(line, name) { StartsWithImpliesContains(line, name); }
      }
      if (line != [] && name != [] && StartsWith(line, name)) || (line != [] && name != [] && Contains(line, name)) then
        Join(lines[1..], '\n')
      else content
  }

  /** What is shown is always a suffix of the content, and only the first
      line can go. */
  lemma ShownIsSuffix(title: string, content: string)
    ensures var r := WithoutDuplicateTitle(title, content);
            EndsWith(content, r) && (r == content || r == AfterFirstLine(content))
  {
    assert content[0..] == content;
  }

  /** A title that is empty or all white space never removes anything. */
  lemma BlankTitleKeepsContent(title: string, content: string)
    requires forall i :: 0 <= i < |title| ==> IsSpace(title[i])
    ensures WithoutDuplicateTitle(title, content) == content
  {
    SqueezeBlank(title);
  }

  /** Removing white space from white space leaves nothing. */
  lemma {:induction false} SqueezeBlank(s: string)
    requires forall i :: 0 <= i < |s| ==> IsSpace(s[i])
    ensures Squeeze(s, false) == []
  {
    if s != [] {
      assert forall i :: 0 <= i < |s[1..]| ==> s[1..][i] == s[i + 1];
      SqueezeBlank(s[1..]);
    }
  }

  /** A Markdown heading that repeats the title is dropped with its line
      break. */
  lemma HeadingDropped(title: string, rest: string)
    requires title != []
    requires forall i :: 0 <= i < |title| ==> !IsSpace(title[i]) && title[i] != '#'
    ensures WithoutDuplicateTitle(title, "# " + title + "\n" + rest) == rest
  {
    var content := "# " + title + "\n" + rest;
    var head := "# " + title;
    assert content == head + "\n" + rest;
    assert IndexOf(content, '\n') == |head| by {
      assert '\n' !in head by {
        forall i | 0 <= i < |head| ensures head[i] != '\n' {
          if i >= 2 { assert head[i] == title[i - 2]; }
        }
      }
      IndexOfAfter(head, rest, '\n');
    }
    assert FirstLine(content) == head;
    assert head[1..][1..] == title;
    assert Squeeze(head, true) == Squeeze(title, true);
    SqueezeKeeps(title, true);
    SqueezeKeeps(title, false);
    assert OccursAt(title, title, 0);
    assert content[|head| + 1..] == rest;
  }

  /** The first `c` of `a + [c] + b` when `a` holds none. */
  lemma {:induction false} IndexOfAfter(a: string, b: string, c: char)
    requires c !in a
    ensures IndexOf(a + [c] + b, c) == |a|
  {
    if a != [] {
      assert (a + [c] + b)[1..] == a[1..] + [c] + b;
      IndexOfAfter(a[1..], b, c);
    }
  }
}
