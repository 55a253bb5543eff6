/**
 * The cover-image generator: the MIME table and request content for
 * reference images, pulling the base64 payload out of a model reply, the
 * primary-then-fallback model loop, the title lookup in the article file,
 * the 15-character wrap of the cover text and the input checks that run
 * before any generation.
 *
 * Files, the network and the image library are parameters: a directory is
 * described by an `ArticleDir` value, an existing reference image by its
 * base64 text in a map, and a model call by a function from model name,
 * timeout and request content to an `Outcome`.
 */
module ImageCreator {
  import opened Text
  import Article

  // ---------------------------------------------------------------------
  // MIME type of a reference image

  /** `PurePath(p).name` for a normalised path: the text after the last `/`. */
  function BaseName(p: string): (r: string)
    ensures |r| <= |p| && r == p[|p| - |r|..]
    ensures forall i :: |p| - |r| <= i < |p| ==> p[i] != '/'
    ensures |r| < |p| ==> p[|p| - |r| - 1] == '/'
  {
    if p == [] || p[|p| - 1] == '/' then []
    else
      var r' := BaseName(p[..|p| - 1]);
      assert p[..|p| - 1][|p| - 1 - |r'|..] == p[|p| - 1 - |r'|..|p| - 1];
      assert forall i :: |p| - 1 - |r'| <= i < |p| - 1 ==> p[..|p| - 1][i] == p[i];
      r' + [p[|p| - 1]]
  }

  /** The index of the last `.` in `s[..k]`, if any. */
  function LastDot(s: string, k: nat): (r: Option<nat>)
    requires k <= |s|
    ensures r.Some? ==> r.value < k && s[r.value] == '.'
    ensures r.Some? ==> forall j :: r.value < j < k ==> s[j] != '.'
    ensures r.None? ==> forall j :: 0 <= j < k ==> s[j] != '.'
  {
    if k == 0 then None else if s[k - 1] == '.' then Some(k - 1) else LastDot(s, k - 1)
  }

  /**
   * `PurePath.suffix`: the name from its last `.` on, unless that dot is the
   * first or the last character of the name.
   */
  function Suffix(name: string): (r: string)
    ensures r != [] ==> 2 <= |r| < |name| && r == name[|name| - |r|..] && r[0] == '.'
    ensures r != [] ==> forall j :: 1 <= j < |r| ==> r[j] != '.'
  {
    match LastDot(name, |name|)
    case Some(i) => if 0 < i < |name| - 1 then name[i..] else []
    case None => []
  }

  /** The `media` table of `_build_content`. */
  const Media: map<string, string> :=
    map[".jpg" := "jpeg", ".jpeg" := "jpeg", ".png" := "png", ".webp" := "webp", ".gif" := "gif"]

  /** `media.get(suffix, "png")` */
  function MediaType(suffix: string): string
  {
    if suffix in Media then Media[suffix] else "png"
  }

  /** The key looked up in the table: the lower-cased suffix of the file name. */
  function MediaKey(path: string): string
  {
    Lower(Suffix(BaseName(path)))
  }

  /** The media type named in the data URL of a reference image. */
  function MimeType(path: string): string
  {
    MediaType(MediaKey(path))
  }

  // ---------------------------------------------------------------------
  // Request content

  datatype Part = TextPart(text: string) | ImageUrlPart(url: string)

  /** What `_build_content` returns: the bare prompt, or a list of parts. */
  datatype Content = PromptText(prompt: string) | Parts(parts: seq<Part>)

  const DataImage := "data:image/"
  const Base64Marker := "base64,"

  function DataUrl(mtype: string, b64: string): string
  {
    DataImage + mtype + ";" + Base64Marker + b64
  }

  /**
   * The reference paths that exist, in input order. `files` maps each
   * existing file to the standard base64 text of its bytes.
   */
  function Existing(images: seq<string>, files: map<string, string>): (r: seq<string>)
    ensures |r| <= |images|
    ensures forall k :: 0 <= k < |r| ==> r[k] in files
  {
    if images == [] then []
    else
      var last := images[|images| - 1];
      Existing(images[..|images| - 1], files) + (if last in files then [last] else [])
  }

  /** The `image_url` part for one existing file. */
  function ImagePart(path: string, files: map<string, string>): Part
    requires path in files
  {
    ImageUrlPart(DataUrl(MimeType(path), files[path]))
  }

  /** The `image_url` parts appended for `images`, one per existing path. */
  function ImageParts(images: seq<string>, files: map<string, string>): (r: seq<Part>)
    ensures |r| <= |images|
  {
    if images == [] then []
    else
      var last := images[|images| - 1];
      ImageParts(images[..|images| - 1], files) + (if last in files then [ImagePart(last, files)] else [])
  }

  /** The request content for a prompt and reference images. */
  function ContentOf(prompt: string, images: seq<string>, files: map<string, string>): Content
  {
    if images == [] then PromptText(prompt) else Parts([TextPart(prompt)] + ImageParts(images, files))
  }

  /** `_build_content`: the text part, then one part per existing reference image. */
  method BuildContent(prompt: string, images: seq<string>, files: map<string, string>) returns (c: Content)
    ensures images == [] ==> c == PromptText(prompt)
    ensures images != [] ==> c == Parts([TextPart(prompt)] + ImageParts(images, files))
  {
    if images == [] {
      return PromptText(prompt);
    }
    var parts := [TextPart(prompt)];
    for k := 0 to |images|
      invariant parts == [TextPart(prompt)] + ImageParts(images[..k], files)
    {
      assert images[..k + 1][..k] == images[..k];
      var path := images[k];
      if path in files {
        parts := parts + [ImagePart(path, files)];
      }
    }
    assert images[..|images|] == images;
    c := Parts(parts);
  }

  // ---------------------------------------------------------------------
  // Reading a model reply

  /** A decoded JSON value (numbers are integers here). */
  datatype Value =
    | Null
    | Bool(b: bool)
    | Num(n: int)
    | Str(s: string)
    | List(items: seq<Value>)
    | Obj(fields: map<string, Value>)

  /** A Python result: a value, or an exception. */
  datatype Py<+T> = Ok(value: T) | Raises

  /** `d.get(key, default)` on a dict's fields. */
  function Get(fields: map<string, Value>, key: string, default: Value): Value
  {
    if key in fields then fields[key] else default
  }

  /** `v.get(key, default)`, which raises unless `v` is a dict. */
  function GetMember(v: Value, key: string, default: Value): Py<Value>
  {
    if v.Obj? then Ok(Get(v.fields, key, default)) else Raises
  }

  /** Python's `key in v` for a string `key`. */
  function ContainsIn(key: string, v: Value): Py<bool>
  {
    match v
    case Str(s) => Ok(Contains(s, key))
    case List(items) => Ok(Str(key) in items)
    case Obj(fields) => Ok(key in fields)
    case _ => Raises
  }

  /** Python truthiness of a JSON value. */
  predicate Truthy(v: Value)
  {
    match v
    case Null => false
    case Bool(b) => b
    case Num(n) => n != 0
    case Str(s) => s != []
    case List(items) => items != []
    case Obj(fields) => fields != map[]
  }

  /** `v[0]`. JSON object keys are strings, so a dict has no key `0`. */
  function First(v: Value): Py<Value>
  {
    match v
    case Str(s) => if s == [] then Raises else Ok(Str([s[0]]))
    case List(items) => if items == [] then Raises else Ok(items[0])
    case _ => Raises
  }

  /** An ASCII word character (what `\w` matches here). */
  predicate IsWordChar(c: char)
  {
    ('a' <= c <= 'z') || ('A' <= c <= 'Z') || ('0' <= c <= '9') || c == '_'
  }

  /** A character of the class `[A-Za-z0-9+/=]`. */
  predicate IsB64Char(c: char)
  {
    ('a' <= c <= 'z') || ('A' <= c <= 'Z') || ('0' <= c <= '9') || c == '+' || c == '/' || c == '='
  }

  /** The end of the run of word characters starting at `k`. */
  function WordRunEnd(s: string, k: nat): (r: nat)
    requires k <= |s|
    decreases |s| - k
    ensures k <= r <= |s|
    ensures forall j :: k <= j < r ==> IsWordChar(s[j])
    ensures r < |s| ==> !IsWordChar(s[r])
  {
    if k == |s| || !IsWordChar(s[k]) then k else WordRunEnd(s, k + 1)
  }

  /** The end of the run of base64 characters starting at `k`. */
  function B64RunEnd(s: string, k: nat): (r: nat)
    requires k <= |s|
    decreases |s| - k
    ensures k <= r <= |s|
    ensures forall j :: k <= j < r ==> IsB64Char(s[j])
    ensures r < |s| ==> !IsB64Char(s[r])
  {
    if k == |s| || !IsB64Char(s[k]) then k else B64RunEnd(s, k + 1)
  }

  /**
   * The group of `data:image/\w+;base64,([A-Za-z0-9+/=]+)` matched at `j`,
   * if the pattern matches there. `;` is not a word character, so `\w+`
   * can only end where the run of word characters ends; both runs are
   * greedy and nothing follows the group.
   */
  function DataUrlAt(s: string, j: nat): (r: Option<string>)
    requires j <= |s|
    ensures r.Some? ==> r.value != [] && forall i :: 0 <= i < |r.value| ==> IsB64Char(r.value[i])
  {
    if !OccursAt(s, DataImage, j) then None
    else
      var w := WordRunEnd(s, j + |DataImage|);
      if w == j + |DataImage| || !OccursAt(s, ";" + Base64Marker, w) then None
      else
        var e := B64RunEnd(s, w + 8);
        if e == w + 8 then None else Some(s[w + 8..e])
  }

  /** `re.search` of the data-URL pattern from `k` on: the leftmost match wins. */
  function SearchDataUrl(s: string, k: nat): (r: Option<string>)
    requires k <= |s|
    decreases |s| - k
    ensures r.Some? ==> r.value != [] && forall i :: 0 <= i < |r.value| ==> IsB64Char(r.value[i])
  {
    match DataUrlAt(s, k)
    case Some(g) => Some(g)
    case None => if k == |s| then None else SearchDataUrl(s, k + 1)
  }

  /** `s.split(sep)[1]` when `sep` occurs in `s`: the text after its first occurrence, up to the next. */
  function SecondPiece(s: string, sep: string): (r: string)
    requires sep != [] && Contains(s, sep)
    ensures |r| <= |s|
  {
    var i := FindFrom(s, sep, 0).value;
    var rest := s[i + |sep|..];
    match FindFrom(rest, sep, 0)
    case Some(j) => rest[..j]
    case None => rest
  }

  /**
   * `_extract_image`: the base64 payload in a reply's message content, or
   * `""`. A string is searched for a data URL; a list is scanned item by
   * item; anything else yields `""`.
   */
  function ExtractImage(v: Value): (r: Py<string>)
    decreases v, 1, 0
    ensures v.Str? ==> r.Ok? && forall i :: 0 <= i < |r.value| ==> IsB64Char(r.value[i])
    ensures !v.Str? && !v.List? ==> r == Ok("")
  {
    match v
    case Str(s) => Ok(match SearchDataUrl(s, 0) case Some(g) => g case None => "")
    case List(_) => ScanItems(v, 0)
    case _ => Ok("")
  }

  /**
   * The loop over the items of a list from index `k`: an `image_url` item
   * whose URL holds `base64,` answers with the text after that marker, a
   * `text` item answers with a non-empty payload found in its text, and
   * every other dict is passed over. An item that is not a dict raises, as
   * `item.get` does.
   */
  function ScanItems(v: Value, k: nat): (r: Py<string>)
    requires v.List?
    decreases v, 0, |v.items| - k
  {
    if k >= |v.items| then Ok("")
    else
      match v.items[k]
      case Obj(f) =>
        var t := Get(f, "type", Null);
        if t == Str("image_url") then
          match GetMember(Get(f, "image_url", Obj(map[])), "url", Str(""))
          case Raises => Raises
          case Ok(url) =>
            match ContainsIn(Base64Marker, url)
            case Raises => Raises
            case Ok(found) =>
              if !found then ScanItems(v, k + 1)
              else if url.Str? then Ok(SecondPiece(url.s, Base64Marker))
              else Raises
        else if t == Str("text") then
          // `item.get("text", "")`: a missing text is the empty string, which holds no payload
          match (if "text" in f then ExtractImage(f["text"]) else Ok(""))
          case Raises => Raises
          case Ok(found) => if found != "" then Ok(found) else ScanItems(v, k + 1)
        else ScanItems(v, k + 1)
      case _ => Raises
  }

  // ---------------------------------------------------------------------
  // Model attempts and the fallback loop

  const PrimaryTimeout := 300
  const FallbackTimeout := 45

  /** The models `_generate` tries, with their timeouts in seconds. */
  function Models(primary: string, fallback: string): seq<(string, nat)>
  {
    [(primary, PrimaryTimeout), (fallback, FallbackTimeout)]
  }

  /**
   * What one API call produced: an exception with its text, or the decoded
   * reply together with its `str()` rendering, the text of the exception that
   * reading the reply raises when it does (`readError`), and the exception, if
   * any, raised while decoding the payload and writing the image file.
   */
  datatype Outcome =
    | CallRaised(message: string)
    | Replied(data: Value, shown: string, readError: string, saveError: Option<string>)

  /** One entry of the `errors` list. */
  datatype AttemptError =
    | Failed(model: string, message: string)
    | ReplyUnreadable(model: string, message: string)
    | NoImage(model: string)
    | BadFormat(model: string, shown: string)

  datatype Attempt = Succeeded | AttemptFailed(error: AttemptError)

  /** The result of `_generate`: the output path, or the exception raised after every model failed. */
  datatype Generation = Generated(path: string) | AllFailed(errors: seq<AttemptError>)

  /**
   * `data["choices"][0].get("message", {}).get("content", "")` behind the
   * check `"choices" in data and data["choices"]`: `None` when the check
   * fails, `Raises` when a step raises.
   */
  function ReplyContent(data: Value): Py<Option<Value>>
  {
    match ContainsIn("choices", data)
    case Raises => Raises
    case Ok(has) =>
      if !has then Ok(None)
      else if !data.Obj? then Raises
      else
        var choices := data.fields["choices"];
        if !Truthy(choices) then Ok(None)
        else
          match First(choices)
          case Raises => Raises
          case Ok(choice) =>
            match GetMember(choice, "message", Obj(map[]))
            case Raises => Raises
            case Ok(message) =>
              match GetMember(message, "content", Str(""))
              case Raises => Raises
              case Ok(content) => Ok(Some(content))
  }

  /** One pass of the body of the loop over the models. */
  function AttemptOf(model: string, outcome: Outcome): (r: Attempt)
    ensures r.AttemptFailed? ==> r.error.model == model
    ensures outcome.CallRaised? ==> r == AttemptFailed(Failed(model, outcome.message))
    ensures r.Succeeded? ==> outcome.Replied? && outcome.saveError.None?
    ensures r.AttemptFailed? && r.error.ReplyUnreadable? ==> r.error.message == outcome.readError
    ensures r.AttemptFailed? && r.error.BadFormat? ==> r.error.shown == outcome.shown
  {
    match outcome
    case CallRaised(message) => AttemptFailed(Failed(model, message))
    case Replied(data, shown, readError, saveError) =>
      match ReplyContent(data)
      case Raises => AttemptFailed(ReplyUnreadable(model, readError))
      case Ok(None) => AttemptFailed(BadFormat(model, shown))
      case Ok(Some(resp)) =>
        match ExtractImage(resp)
        case Raises => AttemptFailed(ReplyUnreadable(model, readError))
        case Ok(img) =>
          if img == "" then AttemptFailed(NoImage(model))
          else if saveError.Some? then AttemptFailed(Failed(model, saveError.value))
          else Succeeded
  }

  /** The attempt each model in `models` would make with `content`, in order. */
  function AttemptsOf(models: seq<(string, nat)>, content: Content,
                      call: (string, nat, Content) -> Outcome): (r: seq<Attempt>)
    ensures |r| == |models|
  {
    seq(|models|, j requires 0 <= j < |models| => AttemptOf(models[j].0, call(models[j].0, models[j].1, content)))
  }

  /** Going on from attempt `k` after `errors` were collected for the attempts before it. */
  function RunFrom(attempts: seq<Attempt>, k: nat, out: string, errors: seq<AttemptError>): (r: Generation)
    requires k <= |attempts|
    decreases |attempts| - k
    ensures r.Generated? ==> r.path == out
    ensures r.AllFailed? ==> |r.errors| == |errors| + |attempts| - k && r.errors[..|errors|] == errors
  {
    if k == |attempts| then AllFailed(errors)
    else
      match attempts[k]
      case Succeeded => Generated(out)
      case AttemptFailed(e) => RunFrom(attempts, k + 1, out, errors + [e])
  }

  /** The result of going through the attempts in order: the first success wins. */
  function Run(attempts: seq<Attempt>, out: string): Generation
  {
    RunFrom(attempts, 0, out, [])
  }

  /**
   * The loop of `_generate` over `models`. `calls` records the models
   * called, in order: the loop returns at the first success, so the later
   * models are never called.
   */
  method TryModels(models: seq<(string, nat)>, content: Content,
                   call: (string, nat, Content) -> Outcome, out: string)
    returns (result: Generation, calls: seq<(string, nat)>)
    ensures result == Run(AttemptsOf(models, content, call), out)
    ensures |calls| <= |models| && calls == models[..|calls|]
    ensures result.Generated? ==> |calls| >= 1 && AttemptsOf(models, content, call)[|calls| - 1] == Succeeded
    ensures forall j :: 0 <= j < |calls| - 1 ==> AttemptsOf(models, content, call)[j].AttemptFailed?
    ensures result.AllFailed? ==> calls == models
  {
    ghost var attempts := AttemptsOf(models, content, call);
    var errors: seq<AttemptError> := [];
    calls := [];
    var k := 0;
    while k < |models|
      invariant k <= |models| && calls == models[..k]
      invariant RunFrom(attempts, k, out, errors) == Run(attempts, out)
      invariant forall j :: 0 <= j < k ==> attempts[j].AttemptFailed?
    {
      var (model, timeout) := models[k];
      calls := calls + [(model, timeout)];
      var attempt := AttemptOf(model, call(model, timeout, content));
      assert attempt == attempts[k];
      assert models[..k + 1] == models[..k] + [models[k]];
      if attempt == Succeeded {
        return Generated(out), calls;
      }
      errors := errors + [attempt.error];
      k := k + 1;
    }
    result := AllFailed(errors);
  }

  /** `_generate`: build the content, then try the primary model and the fallback. */
  method Generate(prompt: string, images: seq<string>, files: map<string, string>, out: string,
                  primary: string, fallback: string, call: (string, nat, Content) -> Outcome)
    returns (result: Generation, calls: seq<(string, nat)>)
    ensures result == Run(AttemptsOf(Models(primary, fallback), ContentOf(prompt, images, files), call), out)
    ensures 1 <= |calls| <= |Models(primary, fallback)| && calls == Models(primary, fallback)[..|calls|]
    ensures result.Generated? ==> result.path == out
    ensures result.AllFailed? ==> calls == Models(primary, fallback)
  {
    var content := BuildContent(prompt, images, files);
    result, calls := TryModels(Models(primary, fallback), content, call, out);
  }

  /** The error text of one failed attempt. */
  function ErrorLine(e: AttemptError): string
  {
    match e
    case Failed(m, message) => "模型 " + m + " 失败: " + message
    case ReplyUnreadable(m, message) => "模型 " + m + " 失败: " + message
    case NoImage(m) => "模型 " + m + " 返回的数据中未找到图片"
    case BadFormat(m, shown) => "模型 " + m + " 返回的数据格式异常: " + shown
  }

  /** The `errors` list of `_generate`: one line per failed attempt, in order. */
  function ErrorLines(errors: seq<AttemptError>): (r: seq<string>)
    ensures |r| == |errors|
    ensures forall k :: 0 <= k < |r| ==> r[k] == ErrorLine(errors[k])
  {
    seq(|errors|, k requires 0 <= k < |errors| => ErrorLine(errors[k]))
  }

  /** Each line behind a `  - ` bullet. */
  function Bullets(lines: seq<string>): (r: seq<string>)
    ensures |r| == |lines|
    ensures forall k :: 0 <= k < |r| ==> r[k] == "  - " + lines[k]
  {
    if lines == [] then [] else ["  - " + lines[0]] + Bullets(lines[1..])
  }

  const FailureHeader := "所有模型都失败了:"

  /** The message of the exception raised when every model failed. */
  function FailureMessage(errors: seq<AttemptError>): string
  {
    FailureHeader + "\n" + Join(Bullets(ErrorLines(errors)), "\n")
  }

  // ---------------------------------------------------------------------
  // Title lookup

  /** `[#\s]`: the characters skipped between the title marker and the title. */
  predicate IsTitleFiller(c: char)
  {
    c == '#' || IsSpace(c)
  }

  /** The end of the run of filler characters starting at `k`. */
  function FillerEnd(s: string, k: nat): (r: nat)
    requires k <= |s|
    decreases |s| - k
    ensures k <= r <= |s|
    ensures forall j :: k <= j < r ==> IsTitleFiller(s[j])
    ensures r < |s| ==> !IsTitleFiller(s[r])
  {
    if k == |s| || !IsTitleFiller(s[k]) then k else FillerEnd(s, k + 1)
  }

  /** The last index in `[lo, k)` not holding a newline, if any. */
  function LastNonNewline(s: string, lo: nat, k: nat): (r: Option<nat>)
    requires lo <= k <= |s|
    decreases k - lo
    ensures r.Some? ==> lo <= r.value < k && s[r.value] != '\n'
    ensures r.Some? ==> forall j :: r.value < j < k ==> s[j] == '\n'
    ensures r.None? ==> forall j :: lo <= j < k ==> s[j] == '\n'
  {
    if k == lo then None else if s[k - 1] != '\n' then Some(k - 1) else LastNonNewline(s, lo, k - 1)
  }

  /**
   * `_extract_title_from_article` on the text of `artical.md` (`None` when
   * the file is missing): `re.search(r'【文章标题】[#\s]*(.+)', text)` and
   * the group stripped. `[#\s]*` also crosses newlines, so the title may
   * come from a later line. When the filler runs to the end of the text,
   * the regex backs off to the last character that is not a newline, and
   * the group is that one character.
   */
  function ExtractTitle(article: Option<string>): (r: string)
    ensures HasNoSpaceEnds(r)
    ensures '\n' !in r
  {
    match article
    case None => ""
    case Some(s) =>
      match FindFrom(s, Article.TitleMarker, 0)
      case None => ""
      case Some(p) =>
        var q := FillerEnd(s, p + |Article.TitleMarker|);
        if q < |s| then
          var e := IndexOfChar(s, '\n', q);
          StripWithout(s[q..e], '\n');
          Strip(s[q..e])
        else
          match LastNonNewline(s, p + |Article.TitleMarker|, |s|)
          case None => ""
          case Some(t) => StripWithout(s[t..t + 1], '\n'); Strip(s[t..t + 1])
  }

  // ---------------------------------------------------------------------
  // Wrapping the cover text

  const MaxCharsPerLine := 15

  /** The cover text cut into lines of `MaxCharsPerLine` characters, the last one shorter. */
  function Wrapped(text: string): (r: seq<string>)
    decreases |text|
  {
    if text == [] then []
    else if |text| <= MaxCharsPerLine then [text]
    else [text[..MaxCharsPerLine]] + Wrapped(text[MaxCharsPerLine..])
  }

  /** Wrapping `n` full lines of text and then a shorter or full last piece. */
  lemma {:induction false} WrappedSnoc(a: string, c: string, n: nat)
    requires |a| == MaxCharsPerLine * n && 1 <= |c| <= MaxCharsPerLine
    ensures Wrapped(a + c) == Wrapped(a) + [c]
    decreases n
  {
    if n > 0 {
      WrappedSnoc(a[MaxCharsPerLine..], c, n - 1);
      assert (a + c)[..MaxCharsPerLine] == a[..MaxCharsPerLine];
      assert (a + c)[MaxCharsPerLine..] == a[MaxCharsPerLine..] + c;
    } else {
      assert a + c == c;
    }
  }

  /** The wrap loop of `_add_text_to_image`, one character at a time. */
  method WrapText(text: string) returns (lines: seq<string>)
    ensures lines == Wrapped(text)
  {
    lines := [];
    var current := "";
    ghost var n := 0;
    for k := 0 to |text|
      invariant MaxCharsPerLine * n <= k && |current| == k - MaxCharsPerLine * n < MaxCharsPerLine
      invariant lines == Wrapped(text[..MaxCharsPerLine * n])
      invariant current == text[MaxCharsPerLine * n..k]
    {
      current := current + [text[k]];
      if |current| >= MaxCharsPerLine {
        WrappedSnoc(text[..MaxCharsPerLine * n], current, n);
        assert text[..MaxCharsPerLine * n] + current == text[..k + 1];
        lines := lines + [current];
        current := "";
        n := n + 1;
      }
    }
    if current != "" {
      WrappedSnoc(text[..MaxCharsPerLine * n], current, n);
      assert text[..MaxCharsPerLine * n] + current == text;
      lines := lines + [current];
    } else {
      assert text[..|text|] == text;
    }
  }

  // ---------------------------------------------------------------------
  // The cover entry point

  /**
   * What the file system says about an article directory: whether the path
   * exists and is a directory, and the text of `cover_design.md` and of
   * `artical.md` when they exist.
   */
  datatype ArticleDir = ArticleDir(present: bool, isDir: bool, coverDesign: Option<string>, article: Option<string>)

  function CoverDesignPath(dir: string): string { dir + "/cover_design.md" }
  function CoverOutputPath(dir: string): string { dir + "/assets/cover.png" }

  /** The text drawn on the cover: the given text, or the article's title when none is given. */
  function CoverText(coverText: string, fs: ArticleDir): string
  {
    if coverText == "" then ExtractTitle(fs.article) else coverText
  }

  /**
   * `_create_cover_image_async` for a resolved directory path: the input
   * checks, in order, each with its own message and each before any model
   * is called; then generation from the trimmed `cover_design.md`, and the
   * wrapped cover text to draw on the image (`overlay`).
   */
  method CreateCoverImage(dir: string, coverText: string, fs: ArticleDir,
                          primary: string, fallback: string, call: (string, nat, Content) -> Outcome)
    returns (message: string, calls: seq<(string, nat)>, overlay: seq<string>)
    ensures |calls| <= |Models(primary, fallback)|
    ensures !fs.present ==> message == "错误: 目录不存在 - " + dir && calls == []
    ensures fs.present && !fs.isDir ==> message == "错误: 路径不是目录 - " + dir && calls == []
    ensures fs.present && fs.isDir && fs.coverDesign.None? ==>
              message == "错误: 找不到 cover_design.md - " + CoverDesignPath(dir) && calls == []
    ensures fs.present && fs.isDir && fs.coverDesign.Some? && Strip(fs.coverDesign.value) == [] ==>
              message == "错误: cover_design.md 内容为空" && calls == []
    ensures calls != [] <==> fs.present && fs.isDir && fs.coverDesign.Some? && Strip(fs.coverDesign.value) != []
    ensures calls != [] ==>
              var result := Run(AttemptsOf(Models(primary, fallback), PromptText(Strip(fs.coverDesign.value)), call), CoverOutputPath(dir));
              calls == Models(primary, fallback)[..|calls|] &&
              (result.Generated? ==> message == CoverOutputPath(dir) && overlay == Wrapped(CoverText(coverText, fs))) &&
              (result.AllFailed? ==> message == "错误: " + FailureMessage(result.errors))
    ensures overlay != [] ==> message == CoverOutputPath(dir)
  {
    overlay := [];
    calls := [];
    if !fs.present {
      return "错误: 目录不存在 - " + dir, calls, overlay;
    }
    if !fs.isDir {
      return "错误: 路径不是目录 - " + dir, calls, overlay;
    }
    if fs.coverDesign.None? {
      return "错误: 找不到 cover_design.md - " + CoverDesignPath(dir), calls, overlay;
    }
    var prompt := Strip(fs.coverDesign.value);
    if prompt == [] {
      return "错误: cover_design.md 内容为空", calls, overlay;
    }
    var out := CoverOutputPath(dir);
    var result;
    result, calls := Generate(prompt, [], map[], out, primary, fallback, call);
    if result.AllFailed? {
      return "错误: " + FailureMessage(result.errors), calls, overlay;
    }
    var text := CoverText(coverText, fs);
    if text != "" {
      overlay := WrapText(text);
    }
    message := result.path;
  }
}
