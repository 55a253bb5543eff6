/**
 * Properties of the cover generator: the MIME table on real file names,
 * which reference images reach the request and in what order, the data URL
 * round trip through the payload extractor, the fallback order, the
 * failure message, the title lookup and the wrap.
 */
module ImageCreatorFacts {
  import opened Text
  import Article
  import opened ImageCreator

  // ---------------------------------------------------------------------
  // MIME type

  /** The name of `dir/stem.ext`, when neither `stem` nor `ext` holds a `/`, is `stem.ext`. */
  lemma BaseNameOfFile(dir: string, name: string)
    requires '/' !in name
    ensures BaseName(dir + "/" + name) == name
  {
    var p := dir + "/" + name;
    var r := BaseName(p);
    assert p[|p| - |name| - 1] == '/';
    assert forall i :: |p| - |name| <= i < |p| ==> p[i] == name[i - (|p| - |name|)];
    assert p[|p| - |name|..] == name;
  }

  /** The suffix of `stem.ext`, when `ext` holds no dot, is `.ext`. */
  lemma SuffixOfName(stem: string, ext: string)
    requires stem != [] && ext != [] && '.' !in ext
    ensures Suffix(stem + "." + ext) == "." + ext
  {
    var name := stem + "." + ext;
    assert name[|stem|] == '.';
    forall j | |stem| < j < |name| ensures name[j] != '.' {
      assert name[j] == ext[j - |stem| - 1];
    }
    assert LastDot(name, |name|) == Some(|stem|);
    assert name[|stem|..] == "." + ext;
  }

  /** A file `stem.ext` is looked up under its lower-cased extension. */
  lemma MediaKeyOfFile(dir: string, stem: string, ext: string)
    requires stem != [] && ext != []
    requires '/' !in stem && '/' !in ext && '.' !in ext
    ensures MediaKey(dir + "/" + stem + "." + ext) == Lower("." + ext)
  {
    var name := stem + "." + ext;
    assert dir + "/" + stem + "." + ext == dir + "/" + name;
    BaseNameOfFile(dir, name);
    SuffixOfName(stem, ext);
  }

  /** The table: the known suffixes and their media types; any other key falls back to `png`. */
  lemma MediaTable()
    ensures MediaType(".jpg") == "jpeg" && MediaType(".jpeg") == "jpeg"
    ensures MediaType(".png") == "png" && MediaType(".webp") == "webp" && MediaType(".gif") == "gif"
    ensures MediaType(".bmp") == "png" && MediaType("") == "png"
  {
  }

  /** A name whose only dot is its first character has no suffix. */
  lemma DotNameSuffix(ext: string)
    requires '.' !in ext
    ensures Suffix("." + ext) == []
  {
    var name := "." + ext;
    forall j | 0 < j < |name| ensures name[j] != '.' {
      assert name[j] == ext[j - 1];
    }
    assert name[0] == '.';
    assert LastDot(name, |name|) == Some(0);
  }

  /** A dot file such as `.gif` has no suffix, so it is sent as `png`. */
  lemma MimeDotFile(dir: string, ext: string)
    requires '/' !in ext && '.' !in ext
    ensures MimeType(dir + "/" + "." + ext) == "png"
  {
    assert dir + "/" + "." + ext == dir + "/" + ("." + ext);
    BaseNameOfFile(dir, "." + ext);
    DotNameSuffix(ext);
    assert Lower([]) == [];
  }

  // ---------------------------------------------------------------------
  // Request content

  /** A path reaches the request exactly when it is among the images and exists. */
  lemma {:induction false} ExistingMembers(images: seq<string>, files: map<string, string>, p: string)
    ensures p in Existing(images, files) <==> p in images && p in files
  {
    if images != [] {
      var init := images[..|images| - 1];
      ExistingMembers(init, files, p);
      assert images == init + [images[|images| - 1]];
    }
  }

  /** Existing paths keep their input order: the filter distributes over concatenation. */
  lemma {:induction false} ExistingAppend(a: seq<string>, b: seq<string>, files: map<string, string>)
    ensures Existing(a + b, files) == Existing(a, files) + Existing(b, files)
    decreases |b|
  {
    if b == [] {
      assert a + b == a;
    } else {
      var init, last := b[..|b| - 1], b[|b| - 1];
      var tail: seq<string> := if last in files then [last] else [];
      ExistingAppend(a, init, files);
      assert (a + b)[..|a + b| - 1] == a + init;
      assert (a + b)[|a + b| - 1] == last;
      assert Existing(a + b, files) == Existing(a + init, files) + tail;
      assert Existing(b, files) == Existing(init, files) + tail;
      assert (Existing(a, files) + Existing(init, files)) + tail
          == Existing(a, files) + (Existing(init, files) + tail);
    }
  }

  /** When every path exists, every path reaches the request, in order. */
  lemma {:induction false} ExistingAll(images: seq<string>, files: map<string, string>)
    requires forall k :: 0 <= k < |images| ==> images[k] in files
    ensures Existing(images, files) == images
  {
    if images != [] {
      var init := images[..|images| - 1];
      ExistingAll(init, files);
      assert images == init + [images[|images| - 1]];
    }
  }

  /** One `image_url` part per existing path, in the order of the existing paths. */
  lemma {:induction false} ImagePartsExisting(images: seq<string>, files: map<string, string>)
    ensures |ImageParts(images, files)| == |Existing(images, files)|
    ensures forall k :: 0 <= k < |ImageParts(images, files)| ==>
              ImageParts(images, files)[k] == ImagePart(Existing(images, files)[k], files)
  {
    if images != [] {
      ImagePartsExisting(images[..|images| - 1], files);
    }
  }

  /**
   * The content is the bare prompt without reference images; otherwise the
   * text part comes first and then one part per existing path.
   */
  lemma ContentShape(prompt: string, images: seq<string>, files: map<string, string>)
    ensures images == [] ==> ContentOf(prompt, images, files) == PromptText(prompt)
    ensures images != [] ==>
              var c := ContentOf(prompt, images, files);
              var e := Existing(images, files);
              c.Parts? && |c.parts| == |e| + 1 && c.parts[0] == TextPart(prompt) &&
              forall k :: 0 <= k < |e| ==> c.parts[k + 1] == ImageUrlPart(DataUrl(MimeType(e[k]), files[e[k]]))
  {
    ImagePartsExisting(images, files);
    if images != [] {
      var c := ContentOf(prompt, images, files);
      var e := Existing(images, files);
      var ps := ImageParts(images, files);
      assert c.parts == [TextPart(prompt)] + ps;
      forall k | 0 <= k < |e| ensures c.parts[k + 1] == ImagePart(e[k], files) {
        assert c.parts[k + 1] == ps[k];
      }
    }
  }

  // ---------------------------------------------------------------------
  // Payload extraction

  /** An `image_url` item as `_build_content` writes it. */
  function ImageItem(url: string): Value
  {
    Obj(map["type" := Str("image_url"), "image_url" := Obj(map["url" := Str(url)])])
  }

  /** A `text` item. */
  function TextItem(text: Value): Value
  {
    Obj(map["type" := Str("text"), "text" := text])
  }

  /** The data-URL pattern matches at `j` when its pieces sit at the given indices. */
  lemma DataUrlAtIndices(s: string, j: nat, w: nat, e: nat, b: string)
    requires OccursAt(s, DataImage, j)
    requires j + |DataImage| < w && w + 8 < e <= |s|
    requires forall i :: j + |DataImage| <= i < w ==> IsWordChar(s[i])
    requires OccursAt(s, ";" + Base64Marker, w)
    requires forall i :: w + 8 <= i < e ==> IsB64Char(s[i])
    requires e < |s| ==> !IsB64Char(s[e])
    requires s[w + 8..e] == b
    ensures DataUrlAt(s, j) == Some(b)
  {
    assert s[w] == (";" + Base64Marker)[0] by { assert s[w..w + 8][0] == s[w]; }
    assert WordRunEnd(s, j + |DataImage|) == w;
    assert B64RunEnd(s, w + 8) == e;
  }

  /** Where the pieces of a data URL sit. */
  lemma DataUrlLayout(m: string, b: string)
    ensures |DataUrl(m, b)| == |DataImage| + |m| + 8 + |b|
    ensures OccursAt(DataUrl(m, b), DataImage, 0)
    ensures forall i :: 0 <= i < |m| ==> DataUrl(m, b)[|DataImage| + i] == m[i]
    ensures OccursAt(DataUrl(m, b), ";" + Base64Marker, |DataImage| + |m|)
    ensures DataUrl(m, b)[|DataImage| + |m| + 8..] == b
  {
    var u := DataUrl(m, b);
    var w := |DataImage| + |m|;
    assert u == DataImage + m + (";" + Base64Marker + b);
    assert u[..|DataImage|] == DataImage;
    assert u[w..] == ";" + Base64Marker + b;
    assert u[w..w + 8] == u[w..][..8];
  }

  /** The data URL after `pre`, split into its parts. */
  lemma DataUrlAtStart(pre: string, m: string, b: string, tail: string)
    requires m != [] && forall i :: 0 <= i < |m| ==> IsWordChar(m[i])
    requires b != [] && forall i :: 0 <= i < |b| ==> IsB64Char(b[i])
    requires tail == [] || !IsB64Char(tail[0])
    ensures DataUrlAt(pre + DataUrl(m, b) + tail, |pre|) == Some(b)
  {
    var u := DataUrl(m, b);
    var s := pre + u + tail;
    assert s[|pre|..|pre| + |u|] == u;
    if tail != [] {
      assert s[|pre| + |u|] == tail[0];
    }
    DataUrlWrittenAt(s, |pre|, m, b);
  }

  /** A data URL written at `n` and not followed by a base64 character: the pattern finds its payload. */
  lemma DataUrlWrittenAt(s: string, n: nat, m: string, b: string)
    requires m != [] && forall i :: 0 <= i < |m| ==> IsWordChar(m[i])
    requires b != [] && forall i :: 0 <= i < |b| ==> IsB64Char(b[i])
    requires n + |DataUrl(m, b)| <= |s| && s[n..n + |DataUrl(m, b)|] == DataUrl(m, b)
    requires n + |DataUrl(m, b)| < |s| ==> !IsB64Char(s[n + |DataUrl(m, b)|])
    ensures DataUrlAt(s, n) == Some(b)
  {
    var u := DataUrl(m, b);
    var d := |DataImage|;
    DataUrlLayout(m, b);
    SliceWithin(s, n, u, 0, d);
    SliceWithin(s, n, u, d + |m|, d + |m| + 8);
    SliceWithin(s, n, u, d + |m| + 8, |u|);
    forall i | n + d <= i < n + d + |m| ensures IsWordChar(s[i]) {
      CharWithin(s, n, u, i - n);
      assert u[d + (i - n - d)] == m[i - n - d];
    }
    forall i | n + d + |m| + 8 <= i < n + |u| ensures IsB64Char(s[i]) {
      CharWithin(s, n, u, i - n);
      assert u[i - n] == u[d + |m| + 8..][i - n - d - |m| - 8];
    }
    DataUrlAtIndices(s, n, n + d + |m|, n + |u|, b);
  }

  /**
   * Round trip with the request format: a reply that is a data URL as
   * `_build_content` writes one (followed by anything that does not extend
   * the base64 run) yields the base64 text back.
   */
  lemma DataUrlRoundTrip(m: string, b: string, tail: string)
    requires m != [] && forall i :: 0 <= i < |m| ==> IsWordChar(m[i])
    requires b != [] && forall i :: 0 <= i < |b| ==> IsB64Char(b[i])
    requires tail == [] || !IsB64Char(tail[0])
    ensures ExtractImage(Str(DataUrl(m, b) + tail)) == Ok(b)
  {
    var none: string := [];
    var d := DataUrl(m, b);
    DataUrlAtStart(none, m, b, tail);
    assert none + d == d;
  }

  /** The search passes over positions where the pattern does not match. */
  lemma {:induction false} SearchSkip(s: string, k: nat, q: nat)
    requires k <= q <= |s|
    requires forall j :: k <= j < q ==> DataUrlAt(s, j).None?
    ensures SearchDataUrl(s, k) == SearchDataUrl(s, q)
    decreases q - k
  {
    if k < q { SearchSkip(s, k + 1, q); }
  }

  /**
   * `data:image/` cannot start inside a text that does not hold it and run on
   * into a data URL: its first letter `d` occurs in it only at its start.
   */
  lemma NoMarkerBefore(pre: string, u: string, j: nat)
    requires !Contains(pre, DataImage) && OccursAt(u, DataImage, 0)
    requires j < |pre|
    ensures !OccursAt(pre + u, DataImage, j)
  {
    var s := pre + u;
    var n := |DataImage|;
    if j + n <= |s| {
      if j + n <= |pre| {
        assert pre[j..j + n] == s[j..j + n];
        assert !OccursAt(pre, DataImage, j);
      } else {
        var d := |pre| - j;
        assert s[|pre|] == 'd' by { assert u[..n][0] == u[0]; }
        assert s[j..j + n][d] == s[|pre|];
        assert DataImage[d] != 'd';
      }
    }
  }

  /**
   * Leftmost match: after a text that does not hold `data:image/`, a data URL
   * as `_build_content` writes one is the match, and its base64 text is the
   * payload, whatever follows that does not extend the base64 run.
   */
  lemma DataUrlAfterText(pre: string, m: string, b: string, tail: string)
    requires !Contains(pre, DataImage)
    requires m != [] && forall i :: 0 <= i < |m| ==> IsWordChar(m[i])
    requires b != [] && forall i :: 0 <= i < |b| ==> IsB64Char(b[i])
    requires tail == [] || !IsB64Char(tail[0])
    ensures ExtractImage(Str(pre + DataUrl(m, b) + tail)) == Ok(b)
  {
    var u := DataUrl(m, b) + tail;
    var s := pre + u;
    assert s == pre + DataUrl(m, b) + tail;
    DataUrlLayout(m, b);
    assert OccursAt(u, DataImage, 0) by {
      assert u[..|DataImage|] == DataUrl(m, b)[..|DataImage|];
    }
    forall j | 0 <= j < |pre| ensures DataUrlAt(s, j).None? {
      NoMarkerBefore(pre, u, j);
    }
    SearchSkip(s, 0, |pre|);
    DataUrlAtStart(pre, m, b, tail);
  }

  lemma {:induction false} SearchWithoutMarker(s: string, k: nat)
    requires k <= |s|
    requires forall j :: k <= j ==> !OccursAt(s, DataImage, j)
    ensures SearchDataUrl(s, k) == None
    decreases |s| - k
  {
    if k < |s| {
      SearchWithoutMarker(s, k + 1);
    }
  }

  /** A string reply without `data:image/` holds no payload. */
  lemma NoMarkerNoPayload(s: string)
    requires !Contains(s, DataImage)
    ensures ExtractImage(Str(s)) == Ok("")
  {
    SearchWithoutMarker(s, 0);
  }

  /** The only comma of a data URL before its payload ends `base64,`. */
  lemma DataUrlCommas(m: string, b: string)
    requires forall i :: 0 <= i < |m| ==> m[i] != ','
    ensures forall i :: 0 <= i < |DataImage| + |m| + 7 ==> DataUrl(m, b)[i] != ','
  {
    var u := DataUrl(m, b);
    var w := |DataImage| + |m|;
    DataUrlLayout(m, b);
    forall i | 0 <= i < w + 7 ensures u[i] != ',' {
      if i < |DataImage| {
        assert u[i] == u[..|DataImage|][i];
      } else if i < w {
        assert u[i] == m[i - |DataImage|];
      } else {
        assert u[i] == u[w..w + 8][i - w];
      }
    }
  }

  /** In a data URL, `base64,` first occurs right after the `;` that ends the media type. */
  lemma MarkerInDataUrl(m: string, b: string)
    requires forall i :: 0 <= i < |m| ==> m[i] != ','
    ensures FindFrom(DataUrl(m, b), Base64Marker, 0) == Some(|DataImage| + |m| + 1)
  {
    var u := DataUrl(m, b);
    var at := |DataImage| + |m| + 1;
    DataUrlLayout(m, b);
    DataUrlCommas(m, b);
    assert u[at..at + 7] == u[at - 1..at + 7][1..];
    forall j | 0 <= j < at ensures !OccursAt(u, Base64Marker, j) {
      if j + 7 <= |u| {
        assert u[j..j + 7][6] == u[j + 6];
      }
    }
    FindFromFirst(u, Base64Marker, at);
  }

  /** A text without a comma does not hold `base64,`. */
  lemma NoCommaNoMarker(b: string)
    requires forall i :: 0 <= i < |b| ==> b[i] != ','
    ensures FindFrom(b, Base64Marker, 0) == None
  {
    forall j | 0 <= j ensures !OccursAt(b, Base64Marker, j) {
      if j + 7 <= |b| {
        assert b[j..j + 7][6] == b[j + 6];
      }
    }
  }

  /** In a data URL whose payload has no comma, the first `base64,` is the one before the payload. */
  lemma SecondPieceOfDataUrl(m: string, b: string)
    requires forall i :: 0 <= i < |m| ==> m[i] != ','
    requires forall i :: 0 <= i < |b| ==> b[i] != ','
    ensures Contains(DataUrl(m, b), Base64Marker)
    ensures SecondPiece(DataUrl(m, b), Base64Marker) == b
  {
    DataUrlLayout(m, b);
    MarkerInDataUrl(m, b);
    NoCommaNoMarker(b);
  }

  /**
   * Round trip through a list reply: an `image_url` item carrying a data
   * URL as the request writes it yields the base64 text, whatever follows.
   */
  lemma ImageItemRoundTrip(m: string, b: string, rest: seq<Value>)
    requires forall i :: 0 <= i < |m| ==> IsWordChar(m[i])
    requires forall i :: 0 <= i < |b| ==> IsB64Char(b[i])
    ensures ExtractImage(List([ImageItem(DataUrl(m, b))] + rest)) == Ok(b)
  {
    SecondPieceOfDataUrl(m, b);
  }

  /** A `text` item whose text holds a payload answers with it. */
  lemma TextItemFirst(text: Value, rest: seq<Value>)
    requires ExtractImage(text).Ok? && ExtractImage(text).value != ""
    ensures ExtractImage(List([TextItem(text)] + rest)) == ExtractImage(text)
  {
  }

  lemma {:induction false} ScanShift(x: Value, rest: seq<Value>, k: nat)
    ensures ScanItems(List([x] + rest), k + 1) == ScanItems(List(rest), k)
    decreases |rest| - k
  {
    var v := List([x] + rest);
    if k < |rest| {
      assert v.items[k + 1] == rest[k];
      ScanShift(x, rest, k + 1);
    }
  }

  /** A dict that is neither an `image_url` nor a `text` item is passed over. */
  lemma OtherItemSkipped(item: Value, rest: seq<Value>)
    requires item.Obj?
    requires Get(item.fields, "type", Null) != Str("image_url") && Get(item.fields, "type", Null) != Str("text")
    ensures ExtractImage(List([item] + rest)) == ExtractImage(List(rest))
  {
    ScanShift(item, rest, 0);
  }

  /** An item that is not a dict raises, as `item.get` does. */
  lemma NonDictItemRaises(item: Value, rest: seq<Value>)
    requires !item.Obj?
    ensures ExtractImage(List([item] + rest)) == Raises
  {
  }

  // ---------------------------------------------------------------------
  // The fallback loop

  /**
   * Going on from attempt `k` succeeds exactly when a later attempt
   * succeeds; when none does, each attempt adds its own error, in order.
   */
  lemma {:induction false} RunFromFacts(attempts: seq<Attempt>, k: nat, out: string, errors: seq<AttemptError>)
    requires k <= |attempts|
    decreases |attempts| - k
    ensures RunFrom(attempts, k, out, errors).Generated? <==>
              exists j :: k <= j < |attempts| && attempts[j] == Succeeded
    ensures var r := RunFrom(attempts, k, out, errors);
              r.AllFailed? ==>
                forall j :: k <= j < |attempts| ==>
                  attempts[j].AttemptFailed? && r.errors[|errors| + j - k] == attempts[j].error
  {
    if k < |attempts| && attempts[k].AttemptFailed? {
      var e := attempts[k].error;
      RunFromFacts(attempts, k + 1, out, errors + [e]);
      var r := RunFrom(attempts, k, out, errors);
      if r.AllFailed? {
        assert r.errors[..|errors| + 1] == errors + [e];
        assert r.errors[|errors|] == (errors + [e])[|errors|];
      }
    }
  }

  /** Generation succeeds, with the output path, exactly when some attempt succeeds. */
  lemma RunSucceeds(attempts: seq<Attempt>, out: string)
    ensures Run(attempts, out).Generated? <==> exists j :: 0 <= j < |attempts| && attempts[j] == Succeeded
    ensures Run(attempts, out).Generated? ==> Run(attempts, out).path == out
  {
    RunFromFacts(attempts, 0, out, []);
  }

  /** When every attempt fails, the errors are one per attempt, in attempt order. */
  lemma RunErrors(attempts: seq<Attempt>, out: string)
    ensures var r := Run(attempts, out);
              r.AllFailed? ==>
                |r.errors| == |attempts| &&
                forall j :: 0 <= j < |attempts| ==> attempts[j].AttemptFailed? && r.errors[j] == attempts[j].error
  {
    var none: seq<AttemptError> := [];
    RunFromFacts(attempts, 0, out, none);
    var r := Run(attempts, out);
    if r.AllFailed? {
      forall j | 0 <= j < |attempts| ensures attempts[j].AttemptFailed? && r.errors[j] == attempts[j].error {
        assert |none| + j - 0 == j;
      }
    }
  }

  /** Each error is reported under the model that made the attempt. */
  lemma AttemptErrorsNameModels(models: seq<(string, nat)>, content: Content,
                                call: (string, nat, Content) -> Outcome, j: nat)
    requires j < |models| && AttemptsOf(models, content, call)[j].AttemptFailed?
    ensures AttemptsOf(models, content, call)[j].error.model == models[j].0
  {
    var a := AttemptsOf(models, content, call)[j];
    assert a == AttemptOf(models[j].0, call(models[j].0, models[j].1, content));
  }

  /**
   * The primary model is called first with a 300 second timeout; the
   * fallback, with 45 seconds, only decides the result when the primary
   * failed.
   */
  lemma PrimaryThenFallback(primary: string, fallback: string, content: Content,
                            call: (string, nat, Content) -> Outcome, out: string)
    ensures var a0 := AttemptOf(primary, call(primary, 300, content));
            var a1 := AttemptOf(fallback, call(fallback, 45, content));
            Run(AttemptsOf(Models(primary, fallback), content, call), out) ==
              if a0 == Succeeded || a1 == Succeeded then Generated(out)
              else AllFailed([a0.error, a1.error])
  {
    var attempts := AttemptsOf(Models(primary, fallback), content, call);
    var a0 := attempts[0];
    var a1 := attempts[1];
    assert a0 == AttemptOf(primary, call(primary, 300, content));
    assert a1 == AttemptOf(fallback, call(fallback, 45, content));
    if a0.AttemptFailed? {
      var e0 := a0.error;
      assert [] + [e0] == [e0];
      assert Run(attempts, out) == RunFrom(attempts, 1, out, [e0]);
      if a1.AttemptFailed? {
        var e1 := a1.error;
        assert [e0] + [e1] == [e0, e1];
        assert RunFrom(attempts, 1, out, [e0]) == RunFrom(attempts, 2, out, [e0, e1]);
      }
    }
  }

  /** Every error line names its model. */
  lemma ErrorLineNamesModel(e: AttemptError)
    ensures StartsWith(ErrorLine(e), "模型 " + e.model + " ")
  {
    var prefix := "模型 " + e.model + " ";
    assert ErrorLine(e)[..|prefix|] == prefix;
  }

  /**
   * The failure message is the header line followed by one line per failed
   * model, in attempt order, when no error text holds a newline.
   */
  lemma FailureLines(errors: seq<AttemptError>)
    requires errors != []
    requires forall k :: 0 <= k < |errors| ==> '\n' !in ErrorLine(errors[k])
    ensures Split(FailureMessage(errors), '\n') == [FailureHeader] + Bullets(ErrorLines(errors))
  {
    SummaryLines(ErrorLines(errors));
  }

  /** The header, then one bulleted line per entry, when no entry holds a newline. */
  lemma SummaryLines(entries: seq<string>)
    requires entries != []
    requires forall k :: 0 <= k < |entries| ==> '\n' !in entries[k]
    ensures Split(FailureHeader + "\n" + Join(Bullets(entries), "\n"), '\n') == [FailureHeader] + Bullets(entries)
  {
    var lines := [FailureHeader] + Bullets(entries);
    HeaderIsOneLine();
    forall k | 0 <= k < |lines| ensures '\n' !in lines[k] {
      if k > 0 {
        BulletIsOneLine(entries[k - 1]);
      }
    }
    SplitJoin(lines, '\n');
    assert lines[1..] == Bullets(entries);
  }

  lemma HeaderIsOneLine()
    ensures '\n' !in FailureHeader
  {
    assert forall i :: 0 <= i < |FailureHeader| ==> FailureHeader[i] != '\n';
  }

  lemma BulletIsOneLine(line: string)
    requires '\n' !in line
    ensures '\n' !in "  - " + line
  {
    forall i | 0 <= i < |"  - " + line| ensures ("  - " + line)[i] != '\n' {
      if i >= 4 { assert ("  - " + line)[i] == line[i - 4]; }
    }
  }

  // ---------------------------------------------------------------------
  // Title lookup

  /** No article file, or no marker in it, means no title. */
  lemma TitleAbsent(s: string)
    ensures ExtractTitle(None) == ""
    ensures !Contains(s, Article.TitleMarker) ==> ExtractTitle(Some(s)) == ""
  {
  }

  /**
   * The title is the text after the marker and any `#`s and whitespace
   * (newlines included), up to the end of that line, trimmed; whatever
   * follows from the next newline on plays no part.
   */
  lemma TitleAfterMarker(pre: string, filler: string, line: string, rest: string)
    requires !Contains(pre, Article.TitleMarker)
    requires forall i :: 0 <= i < |filler| ==> IsTitleFiller(filler[i])
    requires line != [] && !IsTitleFiller(line[0]) && '\n' !in line
    requires rest == [] || rest[0] == '\n'
    ensures ExtractTitle(Some(pre + Article.TitleMarker + filler + line + rest)) == Strip(line)
  {
    var s := pre + Article.TitleMarker + filler + line + rest;
    MarkerAfter(pre, filler + line + rest);
    assert s == pre + Article.TitleMarker + (filler + line + rest);
    FillerThenLine(pre + Article.TitleMarker, filler, line, rest);
    var q := |pre| + |Article.TitleMarker| + |filler|;
    TitleAt(s, |pre|, q, q + |line|);
  }

  /** Where the filler, the title line and the line end sit in `head + filler + line + rest`. */
  lemma FillerThenLine(head: string, filler: string, line: string, rest: string)
    requires forall i :: 0 <= i < |filler| ==> IsTitleFiller(filler[i])
    requires '\n' !in line
    requires rest == [] || rest[0] == '\n'
    ensures var s := head + filler + line + rest;
      var q := |head| + |filler|;
      var e := q + |line|;
      (forall j :: |head| <= j < q ==> IsTitleFiller(s[j])) &&
      s[q..e] == line &&
      (forall j :: q <= j < e ==> s[j] != '\n') &&
      (e == |s| || s[e] == '\n')
  {
    var s := head + filler + line + rest;
    var q := |head| + |filler|;
    var e := q + |line|;
    forall j | |head| <= j < q ensures IsTitleFiller(s[j]) {
      assert s[j] == filler[j - |head|];
    }
    assert s[q..e] == line;
    forall j | q <= j < e ensures s[j] != '\n' {
      assert s[j] == line[j - q];
    }
    if rest != [] { assert s[e] == rest[0]; }
  }

  /**
   * The marker right after a text that does not hold it is the first one: an
   * occurrence cannot start in `pre` and run into the marker, since `【` opens the
   * marker and appears nowhere else in it.
   */
  lemma MarkerAfter(pre: string, rest: string)
    requires !Contains(pre, Article.TitleMarker)
    ensures FindFrom(pre + Article.TitleMarker + rest, Article.TitleMarker, 0) == Some(|pre|)
  {
    var m := Article.TitleMarker;
    var s := pre + m + rest;
    var p := |pre|;
    assert s[p..p + |m|] == m;
    OpenOnlyFirst();
    forall j | 0 <= j < p ensures !OccursAt(s, m, j) {
      if j + |m| <= |s| {
        if j + |m| <= p {
          assert s[j..j + |m|] == pre[j..j + |m|];
          assert !OccursAt(pre, m, j);
        } else {
          var d := p - j;
          assert s[j..j + |m|][d] == s[p] == m[0];
        }
      }
    }
    FindFromFirst(s, m, p);
  }

  /** `【` is the marker's first character and none of its others. */
  lemma OpenOnlyFirst()
    ensures Article.TitleMarker[0] == '【'
    ensures forall d :: 0 < d < |Article.TitleMarker| ==> Article.TitleMarker[d] != '【'
  {
  }

  /**
   * The title when the marker sits at `p`, the filler runs to `q` and the
   * title line from `q` ends at `e`, at a newline or at the end of the text.
   */
  lemma TitleAt(s: string, p: nat, q: nat, e: nat)
    requires FindFrom(s, Article.TitleMarker, 0) == Some(p)
    requires p + |Article.TitleMarker| <= q < e <= |s|
    requires forall j :: p + |Article.TitleMarker| <= j < q ==> IsTitleFiller(s[j])
    requires !IsTitleFiller(s[q])
    requires forall j :: q <= j < e ==> s[j] != '\n'
    requires e == |s| || s[e] == '\n'
    ensures ExtractTitle(Some(s)) == Strip(s[q..e])
  {
    assert FillerEnd(s, p + |Article.TitleMarker|) == q;
    assert IndexOfChar(s, '\n', q) == e;
  }

  /** The title on the marker's own line, with the body on the lines after it (an instance of `TitleAfterMarker`). */
  lemma TitleExample()
    ensures ExtractTitle(Some(Article.TitleMarker + "# " + "Hello World" + "\n正文")) == "Hello World"
  {
    TitleAfterMarker("", "# ", "Hello World", "\n正文");
    assert "" + Article.TitleMarker == Article.TitleMarker;
    StripTrimmed("Hello World");
  }

  /** With nothing after the marker on its line, the title comes from the next line (an instance of `TitleAfterMarker`). */
  lemma TitleFromNextLine()
    ensures ExtractTitle(Some(Article.TitleMarker + "\n## " + "Real Title")) == "Real Title"
  {
    TitleAfterMarker("", "\n## ", "Real Title", "");
    assert "" + Article.TitleMarker == Article.TitleMarker;
    assert Article.TitleMarker + "\n## " + "Real Title" + "" == Article.TitleMarker + "\n## " + "Real Title";
    StripTrimmed("Real Title");
  }

  /**
   * A tag line before the title marker does not hide the title: the cover tag,
   * then the marked title line, then the body gives the title (an instance of
   * `TitleAfterMarker`).
   */
  lemma TitleAfterTag()
    ensures ExtractTitle(Some("【封面主图】\n" + Article.TitleMarker + "# " + "Hello World" + "\n正文")) == "Hello World"
  {
    CoverTagHasNoMarker("【封面主图】\n");
    TitleAfterMarker("【封面主图】\n", "# ", "Hello World", "\n正文");
    StripTrimmed("Hello World");
  }

  /** The cover tag line does not hold the title marker. */
  lemma CoverTagHasNoMarker(pre: string)
    requires pre == "【封面主图】\n"
    ensures !Contains(pre, Article.TitleMarker)
  {
    var m := Article.TitleMarker;
    assert pre[1] == '封' && m[0] == '【' && m[1] == '文';
    forall j: nat | j + |m| <= |pre| ensures !OccursAt(pre, m, j) {
      assert pre[j..j + |m|][1 - j] == pre[1];
    }
  }

  /**
   * When only `#`s and whitespace follow the marker, the regex backs off by
   * one character: a trailing `#` becomes the title.
   */
  lemma TitleOfHashesOnly()
    ensures ExtractTitle(Some("【文章标题】##")) == "#"
  {
    var s := "【文章标题】##";
    assert s == Article.TitleMarker + "##";
    assert s[0..6] == Article.TitleMarker;
    assert FindFrom(s, Article.TitleMarker, 0) == Some(0);
    assert FillerEnd(s, 6) == 8;
    assert s[7..8] == "#";
    StripTrimmed("#");
  }

  // ---------------------------------------------------------------------
  // Wrapping

  /** Joining the wrapped lines gives back the text. */
  lemma {:induction false} WrappedConcat(text: string)
    ensures Concat(Wrapped(text)) == text
    decreases |text|
  {
    if |text| > MaxCharsPerLine {
      WrappedConcat(text[MaxCharsPerLine..]);
      var r := Wrapped(text);
      assert r[1..] == Wrapped(text[MaxCharsPerLine..]);
      assert text == text[..MaxCharsPerLine] + text[MaxCharsPerLine..];
    } else if text != [] {
      assert [text][1..] == [];
    }
  }

  /**
   * Every line but the last is full, the last holds 1 to 15 characters,
   * and there are ceil(|text| / 15) lines, none for empty text.
   */
  lemma {:induction false} WrappedShape(text: string)
    decreases |text|
    ensures var r := Wrapped(text);
            |r| == (|text| + MaxCharsPerLine - 1) / MaxCharsPerLine &&
            (forall k :: 0 <= k < |r| - 1 ==> |r[k]| == MaxCharsPerLine) &&
            (r != [] ==> 1 <= |r[|r| - 1]| <= MaxCharsPerLine)
  {
    if |text| > MaxCharsPerLine {
      WrappedShape(text[MaxCharsPerLine..]);
      var r := Wrapped(text);
      assert r[1..] == Wrapped(text[MaxCharsPerLine..]);
    }
  }

  /**
   * The converse: lines of that shape are the wrap of their concatenation,
   * so the wrap is the only way to cut the text into such lines.
   */
  lemma {:induction false} WrappedUnique(lines: seq<string>)
    requires forall k :: 0 <= k < |lines| - 1 ==> |lines[k]| == MaxCharsPerLine
    requires lines != [] ==> 1 <= |lines[|lines| - 1]| <= MaxCharsPerLine
    ensures Wrapped(Concat(lines)) == lines
  {
    if |lines| > 1 {
      var rest := lines[1..];
      WrappedUnique(rest);
      var t := Concat(lines);
      assert t == lines[0] + Concat(rest);
      assert Concat(rest) != [] by {
        assert Concat(rest) == rest[0] + Concat(rest[1..]);
      }
      assert t[..MaxCharsPerLine] == lines[0];
      assert t[MaxCharsPerLine..] == Concat(rest);
      assert lines == [lines[0]] + rest;
    } else if |lines| == 1 {
      assert lines[1..] == [];
      assert Concat(lines) == lines[0] + Concat(lines[1..]);
      assert Concat(lines) == lines[0];
      assert lines == [lines[0]];
    }
  }
}
