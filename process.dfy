/**
 * Per-image handling: finding the card images under a folder, turning the
 * recognition service's answer into a record or an error reason, deciding
 * whether a record is kept or logged, and appending to the error log.
 */
module Process {
  import opened Wrappers
  import opened Nurse
  import opened Strings
  import opened OsPath
  import opened Files

  const BLANK_REASON: string := "Blank Card / No data found"
  const UNKNOWN_REASON: string := "Unknown Error"
  const EMPTY_RESPONSE_REASON: string := "Empty response from Gemini (Check safety filters)"
  const JSON_REASON: string := "JSON Parsing Error (Model returned invalid format)"
  const SYSTEM_ERROR_PREFIX: string := "System Error: "
  const ERROR_HEADER: seq<string> := ["filename", "reason"]
  const JPG_SUFFIX: string := ".jpg"

  // ---------------------------------------------------------------- extraction

  /** Python truthiness of an optional string: `None` and `""` are false. */
  predicate Truthy(v: Option<string>)
  {
    v.Some? && v.value != ""
  }

  /** Opening the image: it succeeds, or raises with a message. */
  datatype ImageFile = Readable | Unreadable(message: string)

  /** The service's response object; its text may be missing. */
  datatype Response = Response(text: Option<string>)

  /**
   * What the call to the recognition service did: raised, or returned a
   * response or nothing. A raise carries its message and whether the
   * exception is a `json.JSONDecodeError`, since `extract_data` sorts
   * failures by exception class, not by the statement that raised.
   */
  datatype Reply = Raised(message: string, decodeError: bool) | Returned(response: Option<Response>)

  /**
   * What `json.loads` followed by reading the keys makes of a text: an
   * object; any other exception raised while parsing the text or reading
   * its keys (a value that is no object, nesting too deep, an integer too
   * long), with its message; or a `json.JSONDecodeError`.
   */
  datatype Parsed = JsonObjectValue(data: JsonObject) | ParseRaised(message: string) | InvalidJson

  /** The text a reply carries, when it carries a non-empty one. */
  function ReplyText(reply: Reply): Option<string>
  {
    if reply.Returned? && reply.response.Some? && Truthy(reply.response.value.text)
    then reply.response.value.text else None
  }

  /** Why extraction gave no record. */
  datatype ExtractError = EmptyResponse | JsonParsingError | SystemError(cause: string)
  {
    /** The message `extract_data` returns for this error. */
    function Message(): (m: string)
      ensures |m| > |UNKNOWN_REASON|
      ensures this.SystemError? ==> m == SYSTEM_ERROR_PREFIX + this.cause
    {
      match this
      case EmptyResponse => EMPTY_RESPONSE_REASON
      case JsonParsingError => JSON_REASON
      case SystemError(cause) => SYSTEM_ERROR_PREFIX + cause
    }
  }

  /**
   * `extract_data(client, path)`: a record or an error, never both and never
   * neither. A `json.JSONDecodeError`, from the service call or from parsing,
   * is the parse error; any other exception (opening the image, the call,
   * parsing or reading keys) is a system error carrying its message; an
   * absent response or text is the empty-response error; an object gives
   * the record for `path`.
   */
  function ExtractData(path: string, image: ImageFile, reply: Reply, loads: string -> Parsed)
    : (r: (Option<NurseCadet>, Option<ExtractError>))
    ensures r.0.Some? != r.1.Some?
    ensures r.0.Some? <==>
      image.Readable? && ReplyText(reply).Some? && loads(ReplyText(reply).value).JsonObjectValue?
    ensures r.0.Some? ==> r.0.value == FromData(loads(ReplyText(reply).value).data, path)
    ensures r.1 == Some(EmptyResponse) <==> image.Readable? && reply.Returned? && ReplyText(reply).None?
    ensures r.1 == Some(JsonParsingError) <==>
      image.Readable? &&
      ((reply.Raised? && reply.decodeError) ||
       (ReplyText(reply).Some? && loads(ReplyText(reply).value).InvalidJson?))
    ensures r.1.Some? && r.1.value.SystemError? <==>
      image.Unreadable? || (reply.Raised? && !reply.decodeError) ||
      (ReplyText(reply).Some? && loads(ReplyText(reply).value).ParseRaised?)
    ensures image.Unreadable? ==> r.1 == Some(SystemError(image.message))
    ensures image.Readable? && reply.Raised? && !reply.decodeError ==> r.1 == Some(SystemError(reply.message))
    ensures image.Readable? && ReplyText(reply).Some? && loads(ReplyText(reply).value).ParseRaised? ==>
      r.1 == Some(SystemError(loads(ReplyText(reply).value).message))
  {
    if image.Unreadable? then (None, Some(SystemError(image.message)))
    else match reply
      case Raised(m, decodeError) => (None, Some(if decodeError then JsonParsingError else SystemError(m)))
      case Returned(response) =>
        if response.None? || !Truthy(response.value.text) then (None, Some(EmptyResponse))
        else match loads(response.value.text.value)
          case InvalidJson => (None, Some(JsonParsingError))
          case ParseRaised(m) => (None, Some(SystemError(m)))
          case JsonObjectValue(data) => (Some(FromData(data, path)), None)
  }

  // ---------------------------------------------------------------- outcome

  /**
   * A blank card: first name, serial number and last name all falsy, or all
   * three the literal text "null". A mix of the two kinds is not blank.
   */
  predicate IsBlank(c: NurseCadet)
  {
    (!Truthy(c.firstName) && !Truthy(c.serialNumber) && !Truthy(c.lastName)) ||
    (c.firstName == Some("null") && c.serialNumber == Some("null") && c.lastName == Some("null"))
  }

  /** An identity value that carries text: neither falsy nor the "null" sentinel. */
  predicate HasText(v: Option<string>)
  {
    Truthy(v) && v.value != "null"
  }

  /** A card with text in any identity field is never blank, and a blank card has text in none. */
  lemma BlankMeansNoIdentityText(c: NurseCadet)
    ensures IsBlank(c) ==> !HasText(c.firstName) && !HasText(c.serialNumber) && !HasText(c.lastName)
    ensures HasText(c.firstName) || HasText(c.serialNumber) || HasText(c.lastName) ==> !IsBlank(c)
  {
  }

  /** A card whose identity fields mix a falsy value with the "null" sentinel is not blank. */
  lemma MixedSentinelsNotBlank(c: NurseCadet)
    requires !Truthy(c.firstName) || !Truthy(c.serialNumber) || !Truthy(c.lastName)
    requires c.firstName == Some("null") || c.serialNumber == Some("null") || c.lastName == Some("null")
    ensures !IsBlank(c)
  {
  }

  /** What happens to one image: its record is kept, or a reason is logged under a file name. */
  datatype Outcome = Kept(cadet: NurseCadet) | Logged(filename: string, reason: string)

  /** Python's `msg or default` on an optional message: the definition of `or`, used as is. */
  function OrElse(msg: Option<string>, default: string): string
  {
    if Truthy(msg) then msg.value else default
  }

  /**
   * The decision `worker_task` takes on an extraction result: a non-blank
   * record is kept unchanged; a blank one is logged as a blank card; no
   * record logs the message, or "Unknown Error" when there is none. Logs
   * are keyed by the basename of the path.
   */
  function Decide(path: string, nurse: Option<NurseCadet>, errorMsg: Option<string>): (o: Outcome)
    ensures o.Kept? <==> nurse.Some? && !IsBlank(nurse.value)
    ensures o.Kept? ==> o.cadet == nurse.value
    ensures o.Logged? ==> o.filename == Basename(path)
    ensures nurse.Some? && o.Logged? ==> o.reason == BLANK_REASON
    ensures nurse.None? ==> o.Logged? && o.reason == OrElse(errorMsg, UNKNOWN_REASON)
    ensures nurse.None? && Truthy(errorMsg) ==> o.reason == errorMsg.value
    ensures nurse.None? && !Truthy(errorMsg) ==> o.reason == UNKNOWN_REASON
  {
    var filename := Basename(path);
    if nurse.Some? then
      if IsBlank(nurse.value) then Logged(filename, BLANK_REASON) else Kept(nurse.value)
    else Logged(filename, OrElse(errorMsg, UNKNOWN_REASON))
  }

  /** The optional message `extract_data` hands back. */
  function MessageOf(e: Option<ExtractError>): Option<string>
  {
    if e.Some? then Some(e.value.Message()) else None
  }

  /**
   * For an actual extraction, a kept record is non-blank and carries the
   * full path, a log row carries the basename, and the reason is always a
   * specific one, never "Unknown Error".
   */
  lemma ExtractThenDecide(path: string, image: ImageFile, reply: Reply, loads: string -> Parsed)
    ensures var r := ExtractData(path, image, reply, loads);
      var o := Decide(path, r.0, MessageOf(r.1));
      && (o.Kept? ==> o.cadet.file == path && !IsBlank(o.cadet))
      && (o.Logged? ==> o.filename == Basename(path) && o.reason != UNKNOWN_REASON)
      && (o.Logged? && r.0.Some? ==> o.reason == BLANK_REASON)
      && (o.Logged? && r.1.Some? ==> o.reason == r.1.value.Message())
  {
    var r := ExtractData(path, image, reply, loads);
    if r.1.Some? {
      var m := r.1.value.Message();
      assert MessageOf(r.1) == Some(m) && Truthy(MessageOf(r.1));
      assert m != UNKNOWN_REASON;
    }
  }

  // ---------------------------------------------------------------- error log

  /**
   * `log_error(filename, reason)`: the file is opened for appending; a header
   * row is written first only when the file did not exist; then exactly one
   * row `[filename, reason]`. Earlier rows stay as they were.
   */
  method LogError(log: CsvFile, filename: string, reason: string)
    requires log.Valid()
    modifies log
    ensures log.Valid() && log.isFile
    ensures log.rows == old(log.rows) + (if old(log.isFile) then [] else [ERROR_HEADER]) + [[filename, reason]]
  {
    var fileExists := log.isFile;
    log.OpenAppend();
    if !fileExists {
      log.WriteRow(ERROR_HEADER);
    }
    log.WriteRow([filename, reason]);
  }

  /**
   * `worker_task(path, client)`: extracts, then returns the record when it is
   * kept and logs one error row otherwise; the result and the new log are
   * those `Decide` describes.
   */
  method WorkerTask(path: string, image: ImageFile, reply: Reply, loads: string -> Parsed, log: CsvFile)
    returns (nurse: Option<NurseCadet>)
    requires log.Valid()
    modifies log
    ensures log.Valid()
    ensures var r := ExtractData(path, image, reply, loads);
      match Decide(path, r.0, MessageOf(r.1))
      case Kept(c) =>
        nurse == Some(c) && log.isFile == old(log.isFile) && log.rows == old(log.rows)
      case Logged(f, reason) =>
        nurse.None? && log.isFile &&
        log.rows == old(log.rows) + (if old(log.isFile) then [] else [ERROR_HEADER]) + [[f, reason]]
  {
    var filename := Basename(path);
    var (cadet, error) := ExtractData(path, image, reply, loads);
    if cadet.Some? {
      if IsBlank(cadet.value) {
        LogError(log, filename, BLANK_REASON);
        return None;
      }
      return cadet;
    } else {
      LogError(log, filename, OrElse(MessageOf(error), UNKNOWN_REASON));
      return None;
    }
  }

  // ---------------------------------------------------------------- image scan

  /** One step of `os.walk`: a directory and the names of the files directly in it. */
  datatype WalkEntry = WalkEntry(root: string, files: seq<string>)

  /** A file name that ends in ".jpg" once lower-cased. */
  predicate IsJpg(name: string)
  {
    EndsWith(Lower(name), JPG_SUFFIX)
  }

  /** The image test character by character: a dot, then j, p, g in either case, at the very end. */
  lemma IsJpgChars(name: string)
    ensures IsJpg(name) <==>
      var n := |name|;
      && n >= 4
      && name[n - 4] == '.'
      && name[n - 3] in "jJ"
      && name[n - 2] in "pP"
      && name[n - 1] in "gG"
  {
  }

  /** An upper-case extension is still an image. */
  lemma UpperCaseJpgKept()
    ensures IsJpg("A.JPG")
  {
  }

  /** ".jpeg" is not ".jpg". */
  lemma JpegNotKept()
    ensures !IsJpg("a.jpeg")
  {
  }

  /** The full paths of the images directly in `root`, in listing order. */
  function JpgPaths(root: string, files: seq<string>): seq<string>
  {
    if files == [] then []
    else
      var name := files[|files| - 1];
      JpgPaths(root, files[..|files| - 1]) + (if IsJpg(name) then [Join(root, name)] else [])
  }

  /** The full paths of all images in a walk, directory after directory, in listing order. */
  function ImagePaths(walk: seq<WalkEntry>): seq<string>
  {
    if walk == [] then []
    else
      var e := walk[|walk| - 1];
      ImagePaths(walk[..|walk| - 1]) + JpgPaths(e.root, e.files)
  }

  /** Scanning two listings one after the other gives their images one after the other. */
  lemma {:induction false} JpgPathsAppend(root: string, xs: seq<string>, ys: seq<string>)
    ensures JpgPaths(root, xs + ys) == JpgPaths(root, xs) + JpgPaths(root, ys)
  {
    if ys == [] {
      assert xs + ys == xs;
    } else {
      var init := ys[..|ys| - 1];
      assert (xs + ys)[..|xs + ys| - 1] == xs + init;
      JpgPathsAppend(root, xs, init);
    }
  }

  /** Walking two parts of a tree one after the other gives their images one after the other. */
  lemma {:induction false} ImagePathsAppend(w1: seq<WalkEntry>, w2: seq<WalkEntry>)
    ensures ImagePaths(w1 + w2) == ImagePaths(w1) + ImagePaths(w2)
  {
    if w2 == [] {
      assert w1 + w2 == w1;
    } else {
      var init := w2[..|w2| - 1];
      assert (w1 + w2)[..|w1 + w2| - 1] == w1 + init;
      ImagePathsAppend(w1, init);
    }
  }

  /** A single directory contributes its image names, joined to its root, in listing order. */
  lemma JpgPathsSingle(root: string, name: string)
    ensures JpgPaths(root, [name]) == if IsJpg(name) then [Join(root, name)] else []
  {
  }

  /** Every image file of one listing appears among that listing's paths. */
  lemma {:induction false} JpgPathKept(root: string, files: seq<string>, j: nat)
    requires j < |files| && IsJpg(files[j])
    ensures Join(root, files[j]) in JpgPaths(root, files)
  {
    var init := files[..|files| - 1];
    if j < |files| - 1 {
      assert init[j] == files[j];
      JpgPathKept(root, init, j);
    }
  }

  /** Every image file of the walk appears in the result. */
  lemma {:induction false} ImagePathKept(walk: seq<WalkEntry>, i: nat, j: nat)
    requires i < |walk| && j < |walk[i].files| && IsJpg(walk[i].files[j])
    ensures Join(walk[i].root, walk[i].files[j]) in ImagePaths(walk)
  {
    var init := walk[..|walk| - 1];
    if i < |walk| - 1 {
      assert init[i] == walk[i];
      ImagePathKept(init, i, j);
    } else {
      JpgPathKept(walk[i].root, walk[i].files, j);
    }
  }

  /** Every path in the result is an image file of the walk joined to its directory. */
  lemma {:induction false} ImagePathOrigin(walk: seq<WalkEntry>, p: string)
    requires p in ImagePaths(walk)
    ensures exists i, j ::
      (0 <= i < |walk| && 0 <= j < |walk[i].files| &&
       IsJpg(walk[i].files[j]) && p == Join(walk[i].root, walk[i].files[j]))
  {
    var init, e := walk[..|walk| - 1], walk[|walk| - 1];
    if p in ImagePaths(init) {
      ImagePathOrigin(init, p);
      var i, j :| 0 <= i < |init| && 0 <= j < |init[i].files| &&
        IsJpg(init[i].files[j]) && p == Join(init[i].root, init[i].files[j]);
      assert walk[i] == init[i];
    } else {
      var j := JpgPathOrigin(e.root, e.files, p);
      assert walk[|walk| - 1] == e;
    }
  }

  /** The position in `files` of an image whose joined path is `p`. */
  lemma {:induction false} JpgPathOrigin(root: string, files: seq<string>, p: string) returns (j: nat)
    requires p in JpgPaths(root, files)
    ensures j < |files| && IsJpg(files[j]) && p == Join(root, files[j])
  {
    var init := files[..|files| - 1];
    if p in JpgPaths(root, init) {
      j := JpgPathOrigin(root, init, p);
    } else {
      j := |files| - 1;
    }
  }

  /**
   * `get_image_paths(base_path)`, over the listing `os.walk` produces: the
   * joined path of every file whose lower-cased name ends in ".jpg", in walk
   * order.
   */
  method GetImagePaths(walk: seq<WalkEntry>) returns (jpgFiles: seq<string>)
    ensures jpgFiles == ImagePaths(walk)
  {
    jpgFiles := [];
    for k := 0 to |walk|
      invariant jpgFiles == ImagePaths(walk[..k])
    {
      var root, files := walk[k].root, walk[k].files;
      ghost var before := jpgFiles;
      for m := 0 to |files|
        invariant jpgFiles == before + JpgPaths(root, files[..m])
      {
        var file := files[m];
        if EndsWith(Lower(file), JPG_SUFFIX) {
          var fullPath := Join(root, file);
          jpgFiles := jpgFiles + [fullPath];
        }
        assert files[..m + 1][..m] == files[..m];
      }
      assert files[..|files|] == files;
      assert walk[..k + 1][..k] == walk[..k];
    }
    assert walk[..|walk|] == walk;
  }

  /** The name each found image is logged under is the file name the walk listed. */
  lemma LoggedNameIsListedName(walk: seq<WalkEntry>, p: string)
    requires p in ImagePaths(walk)
    requires forall i, j :: 0 <= i < |walk| && 0 <= j < |walk[i].files| ==> SEP !in walk[i].files[j]
    ensures exists i, j ::
      (0 <= i < |walk| && 0 <= j < |walk[i].files| &&
       Basename(p) == walk[i].files[j] && IsJpg(walk[i].files[j]))
  {
    ImagePathOrigin(walk, p);
    var i, j :| 0 <= i < |walk| && 0 <= j < |walk[i].files| &&
      IsJpg(walk[i].files[j]) && p == Join(walk[i].root, walk[i].files[j]);
    BasenameOfJoin(walk[i].root, walk[i].files[j]);
  }
}
