/**
 * The saved-report list of src/components/ReportsPage.js and
 * src/pages/Report/ReportsPage.js: titles recovered from storage keys, the
 * byte-size label, the preview line, the type filter and the newest-first
 * sort.
 */
module Reports {
  import opened JsText
  import opened AnalysisBlocks

  // ---------------------------------------------------------------------------
  // extractTitleFromKey

  const NoTitle := "제목 없음"
  const DefaultTitle := "분석 보고서"

  /** How many characters at the end of `s` are neither `/` nor `.`. */
  function TailRun(s: string): (k: nat)
    ensures k <= |s|
    ensures forall i :: |s| - k <= i < |s| ==> s[i] != '/' && s[i] != '.'
    ensures k < |s| ==> s[|s| - k - 1] == '/' || s[|s| - k - 1] == '.'
  {
    if s == [] || s[|s| - 1] == '/' || s[|s| - 1] == '.' then 0
    else TailRun(s[..|s| - 1]) + 1
  }

  /** `name.replace(/\.[^/.]+$/, '')`: drops a final `.ext` whose extension
      is non-empty and holds no `.` or `/`. */
  function StripExtension(name: string): (r: string)
    ensures r == name || (|r| + 1 < |name| && name == r + "." + name[|r| + 1..]
                          && forall i :: |r| + 1 <= i < |name| ==> name[i] != '/' && name[i] != '.')
  {
    var k := TailRun(name);
    if 1 <= k < |name| && name[|name| - k - 1] == '.' then
      var r := name[..|name| - k - 1];
      assert name == r + "." + name[|r| + 1..];
      r
    else name
  }

  /** `s.replace(/_report$/, '')` */
  function StripReportSuffix(s: string): (r: string)
    ensures EndsWith(s, "_report") ==> s == r + "_report"
    ensures !EndsWith(s, "_report") ==> r == s
  {
    if EndsWith(s, "_report") then s[..|s| - 7] else s
  }

  /** `s.replace(/^report_/, '')` */
  function StripReportPrefix(s: string): (r: string)
    ensures StartsWith(s, "report_") ==> s == "report_" + r
    ensures !StartsWith(s, "report_") ==> r == s
  {
    if StartsWith(s, "report_") then s[7..] else s
  }

  /** `[0-9a-f]{8}[-_][0-9a-f]{4}[-_][0-9a-f]{4}[-_][0-9a-f]{4}[-_][0-9a-f]{12}`
      under the `i` flag: the 8-4-4-4-12 layout of RFC 4122 section 3, with
      `_` accepted beside `-`. */
  predicate IsUuidText(u: string) {
    |u| == 36
    && forall k :: 0 <= k < 36 ==>
         if k == 8 || k == 13 || k == 18 || k == 23 then u[k] == '-' || u[k] == '_' else IsHexDigit(u[k])
  }

  predicate UuidAt(s: string, i: nat) {
    i + 36 <= |s| && IsUuidText(s[i..i + 36])
  }

  /** The leftmost position from `i` on where the pattern matches, or `|s|`. */
  function FirstUuidFrom(s: string, i: nat): (k: nat)
    requires i <= |s|
    ensures i <= k <= |s|
    ensures k < |s| ==> UuidAt(s, k)
    ensures forall j :: i <= j < k ==> !UuidAt(s, j)
    ensures k == |s| ==> forall j :: i <= j <= |s| ==> !UuidAt(s, j)
    decreases |s| - i
  {
    if i + 36 > |s| then |s|
    else if UuidAt(s, i) then i
    else FirstUuidFrom(s, i + 1)
  }

  /** `s.replace(uuidPattern, '')`: only the leftmost match goes. */
  function RemoveFirstUuid(s: string): (r: string)
    ensures var k := FirstUuidFrom(s, 0);
            if k < |s| then r == s[..k] + s[k + 36..] else r == s
  {
    var k := FirstUuidFrom(s, 0);
    if k < |s| then s[..k] + s[k + 36..] else s
  }

  /** `s.replace(/_/g, ' ')` */
  function UnderscoresToSpaces(s: string): (r: string)
    ensures |r| == |s| && '_' !in r
    ensures forall i :: 0 <= i < |s| ==> r[i] == (if s[i] == '_' then ' ' else s[i])
  {
    seq(|s|, i requires 0 <= i < |s| => if s[i] == '_' then ' ' else s[i])
  }

  /** The name left once the key's directory, extension, report markers and
      identifier are gone. */
  function CleanName(key: string): string {
    RemoveFirstUuid(StripReportPrefix(StripReportSuffix(StripExtension(LastSegment(key, '/')))))
  }

  /** `extractTitleFromKey(key)`; an absent key is the empty string. */
  function ExtractTitleFromKey(key: string): (r: string)
    ensures r != []
    ensures key == [] ==> r == NoTitle
  {
    if key == [] then NoTitle
    else
      var t := Trim(UnderscoresToSpaces(CleanName(key)));
      if t == [] then DefaultTitle else t
  }

  /** A title made from a key holds no `_` and no white space at either
      end. */
  lemma TitleShape(key: string)
    requires key != []
    ensures var r := ExtractTitleFromKey(key);
            '_' !in r && !IsSpace(r[0]) && !IsSpace(r[|r| - 1])
  {
    var spaced := UnderscoresToSpaces(CleanName(key));
    var t := Trim(spaced);
    TrimKeepsAbsent(spaced, '_');
    DefaultTitleShape();
    assert ExtractTitleFromKey(key) == if t == [] then DefaultTitle else t;
  }

  lemma DefaultTitleShape()
    ensures '_' !in DefaultTitle && !IsSpace(DefaultTitle[0]) && !IsSpace(DefaultTitle[|DefaultTitle| - 1])
  {
  }

  /** Trimming never brings in a character the text did not hold. */
  lemma TrimKeepsAbsent(s: string, c: char)
    requires c !in s
    ensures c !in Trim(s)
  {
    var t := Trim(s);
    forall i | 0 <= i < |t| ensures t[i] != c {
      assert t[i] == s[TrimOffset(s) + i];
    }
  }

  /** A key holding nothing but `report_`, an identifier and an extension
      gets the default title. */
  lemma IdentifierOnlyKey(u: string)
    requires IsUuidText(u)
    ensures ExtractTitleFromKey("report_" + u + ".json") == DefaultTitle
  {
    var name := "report_" + u;
    var key := name + ".json";
    assert '/' !in key by {
      forall i | 0 <= i < |key| ensures key[i] != '/' {
        assert 7 <= i < 43 ==> key[i] == u[i - 7];
      }
    }
    LastSegmentWhole(key, '/');
    assert StripExtension(key) == name by {
      assert key == (name + ".") + "json";
      TailRunOfSuffix(name + ".", "json");
      assert key[..|key| - 5] == name;
    }
    IdentifierOnlyName(u);
    IdentifierRemoved(u);
  }

  lemma IdentifierOnlyName(u: string)
    requires IsUuidText(u)
    ensures StripReportPrefix(StripReportSuffix("report_" + u)) == u
  {
    var name := "report_" + u;
    assert name[|name| - 1] == u[35];
    assert StripReportSuffix(name) == name;
    assert name[..7] == "report_";
  }

  lemma IdentifierRemoved(u: string)
    requires IsUuidText(u)
    ensures RemoveFirstUuid(u) == []
  {
    assert u[0..36] == u;
    assert UuidAt(u, 0);
  }

  /** A plain name with an extension keeps its name as the title, whatever
      directory it sits in. */
  lemma PlainNameKey(dir: string, name: string, ext: string)
    requires name != [] && ext != []
    requires forall i :: 0 <= i < |name| ==> name[i] !in "/._-" && !IsSpace(name[i])
    requires forall i :: 0 <= i < |ext| ==> ext[i] !in "/."
    ensures ExtractTitleFromKey(dir + "/" + name + "." + ext) == name
  {
    var key := dir + "/" + name + "." + ext;
    PlainFileName(dir, name, ext);
    PlainNameClean(name);
    assert UnderscoresToSpaces(name) == name;
    TrimOfUntrimmed(name);
  }

  /** The directory and the extension go. */
  lemma PlainFileName(dir: string, name: string, ext: string)
    requires name != [] && ext != []
    requires forall i :: 0 <= i < |name| ==> name[i] !in "/."
    requires forall i :: 0 <= i < |ext| ==> ext[i] !in "/."
    ensures StripExtension(LastSegment(dir + "/" + name + "." + ext, '/')) == name
  {
    var file := name + "." + ext;
    Regroup(dir, "/", name, ".", ext);
    NoSlashInFile(name, ext);
    LastSegmentOfSuffix(dir + "/", file);
    ExtensionStripped(name, ext);
  }

  lemma Regroup(a: string, b: string, c: string, d: string, e: string)
    ensures a + b + c + d + e == (a + b) + (c + d + e)
  {
  }

  lemma NoSlashInFile(name: string, ext: string)
    requires forall i :: 0 <= i < |name| ==> name[i] !in "/."
    requires forall i :: 0 <= i < |ext| ==> ext[i] !in "/."
    ensures '/' !in name + "." + ext
  {
    var file := name + "." + ext;
    forall i | 0 <= i < |file| ensures file[i] != '/' {
      if i < |name| {
        assert file[i] == name[i];
      } else if i > |name| {
        assert file[i] == ext[i - |name| - 1];
      }
    }
  }

  lemma ExtensionStripped(name: string, ext: string)
    requires ext != []
    requires forall i :: 0 <= i < |ext| ==> ext[i] !in "/."
    ensures StripExtension(name + "." + ext) == name
  {
    var file := name + "." + ext;
    assert file == (name + ".") + ext;
    TailRunOfSuffix(name + ".", ext);
    assert file[..|file| - |ext| - 1] == name;
  }

  /** The markers and the identifier need `_`, `-` or their own letters. */
  lemma PlainNameClean(name: string)
    requires forall i :: 0 <= i < |name| ==> name[i] !in "_-"
    ensures RemoveFirstUuid(StripReportPrefix(StripReportSuffix(name))) == name
  {
    assert |name| >= 7 ==> name[|name| - 7..][0] == name[|name| - 7] != '_';
    assert |name| >= 7 ==> name[..7][6] == name[6] != '_';
    forall j | 0 <= j <= |name| ensures !UuidAt(name, j) {
      if j + 36 <= |name| {
        assert name[j..j + 36][8] == name[j + 8];
      }
    }
  }

  /** Trimming a string that starts and ends with other characters than
      white space changes nothing. */
  lemma TrimOfUntrimmed(s: string)
    requires s != [] && !IsSpace(s[0]) && !IsSpace(s[|s| - 1])
    ensures Trim(s) == s
  {
    var r := Trim(s);
    var off := TrimOffset(s);
    assert off == 0;
    assert off + |r| == |s|;
  }

  /** The file name of `prefix + file` when the prefix ends in `/` and the
      file has none. */
  lemma {:induction false} LastSegmentOfSuffix(prefix: string, file: string)
    requires prefix != [] && prefix[|prefix| - 1] == '/' && '/' !in file
    ensures LastSegment(prefix + file, '/') == file
  {
    var s := prefix + file;
    if file == [] {
      assert s == prefix;
    } else {
      var init := file[..|file| - 1];
      assert s[..|s| - 1] == prefix + init;
      assert s[|s| - 1] == file[|file| - 1];
      LastSegmentOfSuffix(prefix, init);
      assert init + [file[|file| - 1]] == file;
    }
  }

  /** A string without the separator is its own last segment. */
  lemma LastSegmentWhole(s: string, sep: char)
    requires sep !in s
    ensures LastSegment(s, sep) == s
  {
    var r := LastSegment(s, sep);
  }

  lemma {:induction false} TailRunOfSuffix(a: string, b: string)
    requires a != [] && a[|a| - 1] == '.'
    requires forall i :: 0 <= i < |b| ==> b[i] !in "/."
    ensures TailRun(a + b) == |b|
    decreases |b|
  {
    if b == [] {
      assert a + b == a;
    } else {
      var c := b[..|b| - 1];
      assert (a + b)[..|a + b| - 1] == a + c;
      TailRunOfSuffix(a, c);
    }
  }

  // ---------------------------------------------------------------------------
  // formatFileSize

  /** What `formatFileSize` shows: a fixed text, or
      `(bytes / divisor).toFixed(1) + unit`, whose decimal rendering of a
      fraction is outside this model. */
  datatype SizeLabel = Fixed(text: string) | Scaled(divisor: nat, unit: string)

  const FallbackSize := "1.5MB"
  const KiB := 1024

  /** `formatFileSize(bytes)` for an integer byte count; `None` stands for a
      missing or non-numeric value. */
  function FormatFileSize(bytes: Option<int>): (r: SizeLabel)
    ensures bytes.None? || bytes == Some(0) ==> r == Fixed(FallbackSize)
    ensures bytes.Some? && bytes.value != 0 && bytes.value < KiB ==> r == Fixed(IntToString(bytes.value) + " B")
    ensures r.Scaled? ==> bytes.Some? && r.divisor <= bytes.value
    ensures r.Scaled? && r.unit != " GB" ==> bytes.value < KiB * r.divisor
    ensures r.Scaled? ==> r.divisor in {KiB, KiB * KiB, KiB * KiB * KiB}
  {
    match bytes
    case None => Fixed(FallbackSize)
    case Some(n) =>
      if n == 0 then Fixed(FallbackSize)
      else if n < KiB then Fixed(IntToString(n) + " B")
      else if n < KiB * KiB then Scaled(KiB, " KB")
      else if n < KiB * KiB * KiB then Scaled(KiB * KiB, " MB")
      else Scaled(KiB * KiB * KiB, " GB")
  }

  /** The unit grows with the byte count: each unit is used from its own
      power of 1024 up to the next one. */
  lemma SizeUnits(n: int)
    ensures var r := FormatFileSize(Some(n));
            && (0 < n < KiB ==> r.Fixed?)
            && (KiB <= n < KiB * KiB <==> r == Scaled(KiB, " KB"))
            && (KiB * KiB <= n < KiB * KiB * KiB <==> r == Scaled(KiB * KiB, " MB"))
            && (KiB * KiB * KiB <= n <==> r == Scaled(KiB * KiB * KiB, " GB"))
  {
  }

  // ---------------------------------------------------------------------------
  // Preview text

  /** What `JSON.parse(report.content)` gave: a failure, or an object whose
      `sections` may be absent. */
  datatype ParsedContent = ParseFailed | Parsed(sections: Option<seq<Section>>)

  /** `sections.filter(s => s.type === 'paragraph').map(s => s.content)`;
      `join` prints an absent content as the empty string. */
  function ParagraphTexts(sections: seq<Section>): (r: seq<string>)
    ensures |r| <= |sections|
  {
    if sections == [] then []
    else
      (if sections[0].kind == "paragraph" then [SectionText(sections[0].content)] else [])
      + ParagraphTexts(sections[1..])
  }

  /** The filter and map keep the sections' order: they distribute over
      concatenation. */
  lemma {:induction false} ParagraphTextsAppend(a: seq<Section>, b: seq<Section>)
    ensures ParagraphTexts(a + b) == ParagraphTexts(a) + ParagraphTexts(b)
  {
    if a == [] {
      assert a + b == b;
    } else {
      assert (a + b)[0] == a[0] && (a + b)[1..] == a[1..] + b;
      ParagraphTextsAppend(a[1..], b);
      var head := if a[0].kind == "paragraph" then [SectionText(a[0].content)] else [];
      ConcatAssoc(head, ParagraphTexts(a[1..]), ParagraphTexts(b));
    }
  }

  /** One section gives its text exactly when it is a paragraph; an absent
      content gives the empty text. */
  lemma ParagraphTextsOne(x: Section)
    ensures ParagraphTexts([x]) == if x.kind == "paragraph" then [SectionText(x.content)] else []
  {
    assert [x][1..] == [];
  }

  /** The preview line of a report: empty without content; the first two
      paragraph contents joined by a space; or, when the content is not
      JSON, as much of it as fits in 150 UTF-16 units and `...`. */
  function Preview(content: string, parsed: ParsedContent): (r: string)
    ensures content == [] ==> r == []
    ensures content != [] && parsed.ParseFailed? ==> r == Utf16Prefix(content, 150) + "..." && Utf16Length(r) <= 153
    ensures content != [] && parsed == Parsed(None) ==> r == []
    ensures content != [] && parsed.Parsed? && parsed.sections.Some? ==>
              var texts := ParagraphTexts(parsed.sections.value);
              && (texts == [] ==> r == [])
              && (|texts| == 1 ==> r == texts[0])
              && (|texts| >= 2 ==> r == texts[0] + " " + texts[1])
  {
    if content == [] then []
    else match parsed
      case ParseFailed =>
        Utf16LengthAppend(Utf16Prefix(content, 150), "...");
        Utf16LengthOfBmp("...");
        Utf16Prefix(content, 150) + "..."
      case Parsed(None) => []
      case Parsed(Some(sections)) =>
        var texts := ParagraphTexts(sections);
        var first := texts[..if |texts| < 2 then |texts| else 2];
        if |texts| >= 2 then
          assert first == [texts[0], texts[1]];
          JoinPair(texts[0], texts[1], ' ');
          Join(first, ' ')
        else Join(first, ' ')
  }

  /** Two leading paragraphs give their contents joined by one space,
      whatever follows. */
  lemma PreviewOfTwoParagraphs(content: string, a: string, b: string, rest: seq<Section>)
    requires content != []
    ensures Preview(content, Parsed(Some([Section("paragraph", Some(a)), Section("paragraph", Some(b))] + rest)))
            == a + " " + b
  {
    var ss := [Section("paragraph", Some(a)), Section("paragraph", Some(b))] + rest;
    assert ss[0] == Section("paragraph", Some(a));
    assert ss[1..] == [Section("paragraph", Some(b))] + rest;
    assert ss[1..][0] == Section("paragraph", Some(b));
    assert ss[1..][1..] == rest;
    var tail := ParagraphTexts(ss[1..]);
    assert tail == [b] + ParagraphTexts(rest);
    var texts := ParagraphTexts(ss);
    assert texts == [a] + tail;
    assert texts[..2] == [a, b];
    assert Join([a, b], ' ') == a + [' '] + Join([b], ' ');
  }

  /** Other sections are skipped: a heading, a paragraph, another heading
      and a paragraph show the two paragraph contents, an absent one as
      the empty text. */
  lemma PreviewSkipsOtherSections(content: string, h1: Section, a: Option<string>, h2: Section, b: Option<string>)
    requires content != []
    requires h1.kind != "paragraph" && h2.kind != "paragraph"
    ensures Preview(content, Parsed(Some([h1, Section("paragraph", a), h2, Section("paragraph", b)])))
            == SectionText(a) + " " + SectionText(b)
  {
    var pa, pb := Section("paragraph", a), Section("paragraph", b);
    var ss := [h1, pa, h2, pb];
    assert ss == [h1] + [pa] + [h2] + [pb];
    ParagraphTextsAppend([h1] + [pa] + [h2], [pb]);
    ParagraphTextsAppend([h1] + [pa], [h2]);
    ParagraphTextsAppend([h1], [pa]);
    ParagraphTextsOne(h1);
    ParagraphTextsOne(pa);
    ParagraphTextsOne(h2);
    ParagraphTextsOne(pb);
    assert ParagraphTexts(ss) == [SectionText(a), SectionText(b)];
  }

  /** A single paragraph shows its content alone. */
  lemma PreviewOfOneParagraph(content: string, a: Option<string>)
    requires content != []
    ensures Preview(content, Parsed(Some([Section("paragraph", a)]))) == SectionText(a)
  {
    ParagraphTextsOne(Section("paragraph", a));
  }

  /** Sections that are not paragraphs do not show. */
  lemma {:induction false} NoParagraphNoPreview(sections: seq<Section>)
    requires forall i :: 0 <= i < |sections| ==> sections[i].kind != "paragraph"
    ensures ParagraphTexts(sections) == []
  {
    if sections != [] {
      assert forall i :: 0 <= i < |sections[1..]| ==> sections[1..][i] == sections[i + 1];
      NoParagraphNoPreview(sections[1..]);
    }
  }

  // ---------------------------------------------------------------------------
  // The report list

  /** A report as the list shows it. `date` is the timestamp
      `new Date(report.date)` stands for. */
  datatype ReportItem = ReportItem(
    id: string, title: string, kind: string, date: int, size: SizeLabel, preview: string, hasAudio: bool)

  /** One entry of `/reports/list`; absent strings are empty, absent dates
      and sizes `None`. */
  datatype RawReport = RawReport(
    key: string, id: string, title: string, kind: string, lastModified: Option<int>, createdAt: Option<int>,
    size: Option<int>, content: string, hasAudio: bool)

  const PreviewMissing := "보고서 내용을 불러올 수 없습니다."

  /** The `response.data.map(report => ...)` step. `now` stands for
      `new Date().toISOString()`; `withDefaults` is the
      src/components/ReportsPage.js copy, which also falls back to a stock
      preview and size. */
  function ToItem(raw: RawReport, parsed: ParsedContent, now: int, withDefaults: bool): (item: ReportItem)
    ensures item.title != []
    ensures item.kind == (if raw.kind != [] then raw.kind else "YouTube")
    ensures withDefaults ==> item.preview != []
    ensures item.date == (if raw.lastModified.Some? then raw.lastModified.value
                          else if raw.createdAt.Some? then raw.createdAt.value else now)
  {
    var preview := Preview(raw.content, parsed);
    ReportItem(
      if raw.key != [] then raw.key else raw.id,
      if raw.title != [] then raw.title else ExtractTitleFromKey(raw.key),
      if raw.kind != [] then raw.kind else "YouTube",
      if raw.lastModified.Some? then raw.lastModified.value
      else if raw.createdAt.Some? then raw.createdAt.value else now,
      FormatFileSize(raw.size),
      if withDefaults && preview == [] then PreviewMissing else preview,
      raw.hasAudio)
  }

  /** The filter buttons' rule for one report. */
  predicate Keeps(filter: string, r: ReportItem) {
    if filter == "youtube" then r.kind == "YouTube"
    else if filter == "document" then r.kind == "Document"
    else if filter == "audio" then r.hasAudio
    else true
  }

  /** `reports.filter(...)` */
  function FilterReports(reports: seq<ReportItem>, filter: string): (r: seq<ReportItem>)
    ensures |r| <= |reports|
    ensures forall i :: 0 <= i < |r| ==> Keeps(filter, r[i]) && r[i] in reports
    ensures forall x :: x in reports && Keeps(filter, x) ==> x in r
  {
    if reports == [] then []
    else (if Keeps(filter, reports[0]) then [reports[0]] else []) + FilterReports(reports[1..], filter)
  }

  /** `all` and any unknown filter keep the whole list. */
  lemma {:induction false} FilterKeepsAll(reports: seq<ReportItem>, filter: string)
    requires filter !in {"youtube", "document", "audio"}
    ensures FilterReports(reports, filter) == reports
  {
    if reports != [] {
      FilterKeepsAll(reports[1..], filter);
    }
  }

  /** The filter keeps the list's order: it distributes over concatenation. */
  lemma {:induction false} FilterAppend(a: seq<ReportItem>, b: seq<ReportItem>, filter: string)
    ensures FilterReports(a + b, filter) == FilterReports(a, filter) + FilterReports(b, filter)
  {
    if a == [] {
      assert a + b == b;
    } else {
      assert (a + b)[0] == a[0] && (a + b)[1..] == a[1..] + b;
      FilterAppend(a[1..], b, filter);
    }
  }

  /** Filtering twice with the same filter is filtering once. */
  lemma {:induction false} FilterIdempotent(reports: seq<ReportItem>, filter: string)
    ensures FilterReports(FilterReports(reports, filter), filter) == FilterReports(reports, filter)
  {
    if reports != [] {
      var head := if Keeps(filter, reports[0]) then [reports[0]] else [];
      FilterAppend(head, FilterReports(reports[1..], filter), filter);
      FilterIdempotent(reports[1..], filter);
      if Keeps(filter, reports[0]) {
        assert FilterReports(head, filter) == head by {
          assert head[1..] == [];
        }
      }
    }
  }

  // ---------------------------------------------------------------------------
  // Newest first

  predicate NewestFirst(s: seq<ReportItem>) {
    forall p, q :: 0 <= p < q < |s| ==> s[p].date >= s[q].date
  }

  /** Halfway through inserting `s[j]` into the sorted `s[..i + 1]`: apart
      from position `j` the prefix is newest first, and `s[j]` is newer than
      everything after it. */
  predicate Inserting(s: seq<ReportItem>, j: nat, i: nat) {
    j <= i < |s|
    && (forall p, q :: 0 <= p < q <= i && p != j && q != j ==> s[p].date >= s[q].date)
    && (forall q :: j < q <= i ==> s[j].date > s[q].date)
  }

  /** One swap moves the newer element one step to the front. */
  lemma InsertingStep(s: seq<ReportItem>, j: nat, i: nat)
    requires Inserting(s, j, i) && 0 < j && s[j - 1].date < s[j].date
    ensures Inserting(s[j - 1 := s[j]][j := s[j - 1]], j - 1, i)
    ensures multiset(s[j - 1 := s[j]][j := s[j - 1]]) == multiset(s)
  {
  }

  /** The insertion stops where the element is no newer than its left
      neighbour, or at the front. */
  lemma InsertingDone(s: seq<ReportItem>, j: nat, i: nat)
    requires Inserting(s, j, i) && (j == 0 || s[j - 1].date >= s[j].date)
    ensures NewestFirst(s[..i + 1])
  {
  }

  /** Places `a[i]` into the newest-first prefix `a[..i]` by swapping it to
      the front. */
  method InsertNewest(a: array<ReportItem>, i: nat)
    requires i < a.Length && NewestFirst(a[..i])
    modifies a
    ensures NewestFirst(a[..i + 1])
    ensures multiset(a[..]) == multiset(old(a[..]))
    ensures a[i + 1..] == old(a[i + 1..])
  {
    var j: nat := i;
    while j > 0 && a[j - 1].date < a[j].date
      invariant Inserting(a[..], j, i)
      invariant multiset(a[..]) == multiset(old(a[..]))
      invariant a[i + 1..] == old(a[i + 1..])
    {
      InsertingStep(a[..], j, i);
      a[j - 1], a[j] := a[j], a[j - 1];
      j := j - 1;
    }
    InsertingDone(a[..], j, i);
  }

  /** `reportsList.sort((a, b) => new Date(b.date) - new Date(a.date))`:
      the list is reordered in place, newest first. */
  method SortNewestFirst(a: array<ReportItem>)
    modifies a
    ensures NewestFirst(a[..])
    ensures multiset(a[..]) == multiset(old(a[..]))
  {
    var i := 0;
    while i < a.Length
      invariant i <= a.Length
      invariant NewestFirst(a[..i])
      invariant multiset(a[..]) == multiset(old(a[..]))
    {
      InsertNewest(a, i);
      i := i + 1;
    }
    assert a[..i] == a[..];
  }
}
