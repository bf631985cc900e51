/**
 * The input box of src/components/InputBox/InputBox.js: the YouTube id
 * pattern, the choice of endpoint for a submission, the list of pending
 * files, and the submit button's handler.
 */
module InputBox {
  import opened JsText

  // ---------------------------------------------------------------------------
  // extractYoutubeId

  /** `[\w-]` */
  predicate IdChar(c: char) {
    IsWordChar(c) || c == '-'
  }

  predicate IdChars(s: string) {
    forall i :: 0 <= i < |s| ==> IdChar(s[i])
  }

  /** `(?:v=|youtu.be\/)([\w-]{11})` matches at `p`. The `.` is unescaped, so
      any one UTF-16 unit but a line terminator stands between `youtu` and
      `be/`: a character outside the Basic Multilingual Plane is two units
      and does not fit there. */
  predicate MatchAt(s: string, p: nat) {
    (p + 13 <= |s| && s[p] == 'v' && s[p + 1] == '=' && IdChars(s[p + 2..p + 13]))
    || (p + 20 <= |s| && s[p..p + 5] == "youtu" && !IsLineTerminator(s[p + 5]) && !IsAstral(s[p + 5]) && s[p + 6..p + 9] == "be/"
        && IdChars(s[p + 9..p + 20]))
  }

  /** The captured group of a match at `p`. */
  function IdAt(s: string, p: nat): (id: string)
    requires MatchAt(s, p)
    ensures |id| == 11 && IdChars(id)
  {
    if s[p] == 'v' then s[p + 2..p + 13] else s[p + 9..p + 20]
  }

  /** The leftmost match from `p` on, or `|s|`. */
  function FirstMatchFrom(s: string, p: nat): (k: nat)
    requires p <= |s|
    ensures p <= k <= |s|
    ensures k < |s| ==> MatchAt(s, k)
    ensures forall j :: p <= j < k ==> !MatchAt(s, j)
    ensures k == |s| ==> forall j :: p <= j <= |s| ==> !MatchAt(s, j)
    decreases |s| - p
  {
    if p + 13 > |s| then |s|
    else if MatchAt(s, p) then p
    else FirstMatchFrom(s, p + 1)
  }

  /** `extractYoutubeId(url)`: the eleven id characters of the leftmost
      match, or `null`. */
  function ExtractYoutubeId(url: string): (r: Option<string>)
    ensures r.None? <==> forall p :: 0 <= p <= |url| ==> !MatchAt(url, p)
    ensures r.Some? ==> |r.value| == 11 && IdChars(r.value) && Contains(url, r.value)
  {
    var k := FirstMatchFrom(url, 0);
    if k < |url| then
      var id := IdAt(url, k);
      assert url[k] == 'v' ==> OccursAt(url, id, k + 2);
      assert url[k] != 'v' ==> OccursAt(url, id, k + 9);
      Some(id)
    else None
  }

  /** Without a `v` or a `y` ahead of it, a `v=` parameter gives its id. */
  lemma WatchParameter(prefix: string, id: string, rest: string)
    requires 'v' !in prefix && 'y' !in prefix
    requires |id| == 11 && IdChars(id)
    ensures ExtractYoutubeId(prefix + "v=" + id + rest) == Some(id)
  {
    var s := prefix + "v=" + id + rest;
    forall j | 0 <= j < |prefix| ensures !MatchAt(s, j) {
      assert s[j] == prefix[j];
      assert j + 5 <= |s| ==> s[j..j + 5][0] != 'y';
    }
    assert s[|prefix| + 2..|prefix| + 13] == id;
    assert MatchAt(s, |prefix|);
  }

  /** A short link at the start of the text gives its id. */
  lemma ShortLink(sep: char, id: string, rest: string)
    requires !IsLineTerminator(sep) && !IsAstral(sep)
    requires |id| == 11 && IdChars(id)
    ensures ExtractYoutubeId("youtu" + [sep] + "be/" + id + rest) == Some(id)
  {
    var s := "youtu" + [sep] + "be/" + id + rest;
    assert s[0..5] == "youtu" && s[6..9] == "be/" && s[9..20] == id;
    assert MatchAt(s, 0);
  }

  /** The `.` matches a single unit: with a character outside the Basic
      Multilingual Plane in its place the short link has no id. */
  lemma AstralSeparatorNoId(sep: char, id: string)
    requires IsAstral(sep)
    requires |id| == 11 && IdChars(id)
    ensures ExtractYoutubeId("youtu" + [sep] + "be/" + id) == None
  {
    var s := "youtu" + [sep] + "be/" + id;
    assert |s| == 20;
    forall p | 0 <= p <= |s| ensures !MatchAt(s, p) {
      if p + 13 <= |s| {
        assert s[..9] == "youtu" + [sep] + "be/";
        assert s[p + 1] == s[..9][p + 1];
      }
    }
  }

  // ---------------------------------------------------------------------------
  // handleSubmit's routing

  /** A picked or dropped file; only its name is visible here. */
  datatype FileRef = FileRef(name: string)

  /** What `handleSubmit` is given. */
  datatype Input = FileInput(file: FileRef) | TextInput(text: string)

  /** `/analysis/document`, `/youtube/analysis` and `/youtube/search`. */
  datatype Endpoint = DocumentEndpoint | AnalysisEndpoint | SearchEndpoint

  datatype Request = Request(endpoint: Endpoint, input: Input)

  /** `/^https?:\/\//` */
  predicate HasWebScheme(s: string) {
    StartsWith(s, "http://") || StartsWith(s, "https://")
  }

  /** `/(youtube\.com|youtu\.be)/` */
  predicate MentionsYoutube(s: string) {
    Contains(s, "youtube.com") || Contains(s, "youtu.be")
  }

  /** The endpoint `handleSubmit` posts to. */
  function Route(input: Input): (e: Endpoint)
    ensures e == DocumentEndpoint <==> input.FileInput?
    ensures e == AnalysisEndpoint <==> input.TextInput? && HasWebScheme(input.text) && MentionsYoutube(input.text)
    ensures e == SearchEndpoint <==> input.TextInput? && !(HasWebScheme(input.text) && MentionsYoutube(input.text))
  {
    match input
    case FileInput(_) => DocumentEndpoint
    case TextInput(text) =>
      if HasWebScheme(text) then
        if MentionsYoutube(text) then AnalysisEndpoint else SearchEndpoint
      else SearchEndpoint
  }

  /** A YouTube address typed without its scheme is sent as a search. */
  lemma SchemelessLinkIsSearched(rest: string)
    ensures Route(TextInput("youtube.com/" + rest)) == SearchEndpoint
  {
    var s := "youtube.com/" + rest;
    assert s[0] == 'y';
  }

  // ---------------------------------------------------------------------------
  // The component

  /** The body of a successful answer; `hasFinalOutput` says whether
      `analysis_results.fsm_analysis.final_output` is present. */
  datatype ResponseData = ResponseData(body: string, hasFinalOutput: bool)

  /** The server's answer, or the error's `message`. */
  datatype Answer = Ok(data: ResponseData) | Err(message: string)

  /** `navigate('/editor', ...)` and `navigate('/youtube-search?query=...')`;
      the query is kept before `encodeURIComponent`. */
  datatype Navigation = ToEditor(data: ResponseData) | ToSearch(query: string)

  const ErrorFallback := "에러 발생"

  /** `err.message || '에러 발생'` */
  function ErrorText(message: string): (r: string)
    ensures r != []
    ensures message != [] ==> r == message
  {
    if message != [] then message else ErrorFallback
  }

  function RequestFor(input: Input): Request {
    Request(Route(input), input)
  }

  /** Where one submission leads: to the editor when the answer holds a
      final analysis output. */
  function SubmitNavigations(input: Input, server: Request -> Answer): (r: seq<Navigation>)
    ensures |r| <= 1
    ensures |r| == 1 <==> server(RequestFor(input)).Ok? && server(RequestFor(input)).data.hasFinalOutput
  {
    match server(RequestFor(input))
    case Ok(d) => if d.hasFinalOutput then [ToEditor(d)] else []
    case Err(_) => []
  }

  /** The document requests for `files`, in order. */
  function FileRequests(files: seq<FileRef>): (r: seq<Request>)
    ensures |r| == |files|
    ensures forall i :: 0 <= i < |r| ==> r[i] == Request(DocumentEndpoint, FileInput(files[i]))
  {
    seq(|files|, i requires 0 <= i < |files| => RequestFor(FileInput(files[i])))
  }

  /** The navigations of submitting `files` one after the other. */
  function FileNavigations(files: seq<FileRef>, server: Request -> Answer): (r: seq<Navigation>)
    ensures |r| <= |files|
  {
    if files == [] then []
    else FileNavigations(files[..|files| - 1], server) + SubmitNavigations(FileInput(files[|files| - 1]), server)
  }

  /** Submitting one more file adds its request and its navigations. */
  lemma FileSubmitStep(files: seq<FileRef>, server: Request -> Answer, i: nat)
    requires i < |files|
    ensures FileRequests(files[..i + 1]) == FileRequests(files[..i]) + [RequestFor(FileInput(files[i]))]
    ensures FileNavigations(files[..i + 1], server) == FileNavigations(files[..i], server) + SubmitNavigations(FileInput(files[i]), server)
  {
    assert files[..i + 1][..i] == files[..i];
  }

  /**
   * The component's state. The server is a function from request to
   * answer; `posts` records the requests made and `navigations` the
   * `navigate` calls, in order.
   */
  class InputBox {
    var inputValue: string
    var isDragOver: bool
    var files: seq<FileRef>
    var result: Option<ResponseData>
    var loading: bool
    var error: Option<string>
    var posts: seq<Request>
    var navigations: seq<Navigation>

    constructor ()
      ensures inputValue == [] && !isDragOver && files == [] && result.None? && !loading && error.None?
      ensures posts == [] && navigations == []
    {
      inputValue, isDragOver, files := [], false, [];
      result, loading, error := None, false, None;
      posts, navigations := [], [];
    }

    /** The state `handleSubmit` leaves for an answer. */
    predicate Shows(answer: Answer)
      reads this
    {
      !loading
      && match answer
         case Ok(d) => result == Some(d) && error.None?
         case Err(m) => result.None? && error == Some(ErrorText(m))
    }

    /** The text field's `onChange`. */
    method Type(text: string)
      modifies this
      ensures inputValue == text
      ensures files == old(files) && posts == old(posts) && navigations == old(navigations)
      ensures result == old(result) && error == old(error) && loading == old(loading) && isDragOver == old(isDragOver)
    {
      inputValue := text;
    }

    /** `handleSubmit(input)`: one request to the routed endpoint, its
        answer or error shown, and the editor opened for a final analysis. */
    method HandleSubmit(input: Input, server: Request -> Answer)
      modifies this
      ensures posts == old(posts) + [RequestFor(input)]
      ensures navigations == old(navigations) + SubmitNavigations(input, server)
      ensures Shows(server(RequestFor(input)))
      ensures files == old(files) && inputValue == old(inputValue) && isDragOver == old(isDragOver)
    {
      loading := true;
      error := None;
      result := None;
      var request := RequestFor(input);
      posts := posts + [request];
      match server(request) {
        case Ok(d) =>
          result := Some(d);
          if d.hasFinalOutput {
            navigations := navigations + [ToEditor(d)];
          }
        case Err(m) =>
          error := Some(ErrorText(m));
      }
      loading := false;
    }

    /** `handleFileChange`: the picked files go after the pending ones. */
    method AddFiles(newFiles: seq<FileRef>)
      modifies this
      ensures files == old(files) + newFiles
      ensures inputValue == old(inputValue) && posts == old(posts) && navigations == old(navigations)
      ensures result == old(result) && error == old(error) && loading == old(loading) && isDragOver == old(isDragOver)
    {
      files := files + newFiles;
    }

    method DragOver()
      modifies this
      ensures isDragOver
      ensures files == old(files) && inputValue == old(inputValue) && posts == old(posts) && navigations == old(navigations)
      ensures result == old(result) && error == old(error) && loading == old(loading)
    {
      isDragOver := true;
    }

    method DragLeave()
      modifies this
      ensures !isDragOver
      ensures files == old(files) && inputValue == old(inputValue) && posts == old(posts) && navigations == old(navigations)
      ensures result == old(result) && error == old(error) && loading == old(loading)
    {
      isDragOver := false;
    }

    /** `handleDrop`: the dropped files go after the pending ones. */
    method Drop(dropped: seq<FileRef>)
      modifies this
      ensures !isDragOver && files == old(files) + dropped
      ensures inputValue == old(inputValue) && posts == old(posts) && navigations == old(navigations)
      ensures result == old(result) && error == old(error) && loading == old(loading)
    {
      isDragOver := false;
      if |dropped| > 0 {
        files := files + dropped;
      }
    }

    /** `removeFile(index)`: exactly that file goes; the rest keep their
        order. */
    method RemoveFile(index: nat)
      modifies this
      ensures index < |old(files)| ==> files == old(files)[..index] + old(files)[index + 1..]
      ensures index >= |old(files)| ==> files == old(files)
      ensures inputValue == old(inputValue) && posts == old(posts) && navigations == old(navigations)
      ensures result == old(result) && error == old(error) && loading == old(loading) && isDragOver == old(isDragOver)
    {
      if index < |files| {
        files := files[..index] + files[index + 1..];
      }
    }

    /** The files branch of `handleInput`: every pending file is submitted,
        in order, and the list is cleared. */
    method SubmitPending(server: Request -> Answer)
      requires |files| > 0
      modifies this
      ensures files == [] && inputValue == old(inputValue) && isDragOver == old(isDragOver)
      ensures posts == old(posts) + FileRequests(old(files))
      ensures navigations == old(navigations) + FileNavigations(old(files), server)
      ensures Shows(server(RequestFor(FileInput(old(files)[|old(files)| - 1]))))
    {
      var pending := files;
      ghost var posts0, navigations0 := posts, navigations;
      var i := 0;
      while i < |pending|
        invariant i <= |pending|
        invariant files == pending && inputValue == old(inputValue) && isDragOver == old(isDragOver)
        invariant posts == posts0 + FileRequests(pending[..i])
        invariant navigations == navigations0 + FileNavigations(pending[..i], server)
        invariant i > 0 ==> Shows(server(RequestFor(FileInput(pending[i - 1]))))
      {
        HandleSubmit(FileInput(pending[i]), server);
        FileSubmitStep(pending, server, i);
        ConcatAssoc(posts0, FileRequests(pending[..i]), [RequestFor(FileInput(pending[i]))]);
        ConcatAssoc(navigations0, FileNavigations(pending[..i], server), SubmitNavigations(FileInput(pending[i]), server));
        i := i + 1;
      }
      assert pending[..i] == pending;
      files := [];
    }

    /** `handleInput`: pending files are submitted one by one, in order, and
        the list is cleared; otherwise non-blank text mentioning YouTube is
        submitted trimmed, and other non-blank text opens the search page. */
    method HandleInput(server: Request -> Answer)
      modifies this
      ensures inputValue == old(inputValue) && isDragOver == old(isDragOver)
      ensures |old(files)| > 0 ==>
                files == [] && posts == old(posts) + FileRequests(old(files))
                && navigations == old(navigations) + FileNavigations(old(files), server)
                && Shows(server(RequestFor(FileInput(old(files)[|old(files)| - 1]))))
      ensures |old(files)| == 0 && Trim(inputValue) != [] && MentionsYoutube(Trim(inputValue)) ==>
                files == [] && posts == old(posts) + [RequestFor(TextInput(Trim(inputValue)))]
                && navigations == old(navigations) + SubmitNavigations(TextInput(Trim(inputValue)), server)
                && Shows(server(RequestFor(TextInput(Trim(inputValue)))))
      ensures |old(files)| == 0 && Trim(inputValue) != [] && !MentionsYoutube(Trim(inputValue)) ==>
                files == [] && posts == old(posts) && navigations == old(navigations) + [ToSearch(Trim(inputValue))]
                && result == old(result) && error == old(error) && loading == old(loading)
      ensures |old(files)| == 0 && Trim(inputValue) == [] ==>
                files == [] && posts == old(posts) && navigations == old(navigations)
                && result == old(result) && error == old(error) && loading == old(loading)
    {
      if |files| > 0 {
        SubmitPending(server);
      } else {
        var query := Trim(inputValue);
        if query != [] {
          if MentionsYoutube(query) {
            HandleSubmit(TextInput(query), server);
          } else {
            navigations := navigations + [ToSearch(query)];
          }
        }
      }
    }
  }

  /** Text that reaches `handleSubmit` from the submit button mentions
      YouTube, so it is analysed exactly when it also carries a web scheme. */
  lemma TypedLinkRoute(text: string)
    requires MentionsYoutube(text)
    ensures Route(TextInput(text)) == (if HasWebScheme(text) then AnalysisEndpoint else SearchEndpoint)
  {
  }
}
