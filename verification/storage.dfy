/**
 The shared `uploads` directory and the three transitions the service makes
 on it: storing an accepted upload (server.js:22-51), processing it through
 the background-removal engine (server.js:53-82), and serving a file once
 through `/download/:filename` (server.js:91-122).

 The directory is the set of base names of the files in it. Everything the
 handlers learn from the outside world — whether the engine resolves,
 whether an unlink, the result write or the file transfer succeeds — is a
 parameter, so each transition is a function from (directory, request,
 outcomes) to (directory, response).
 */
module Storage {
  import opened UploadFilter
  import opened Naming

  /** The names of the files in the shared directory. */
  type Directory = set<string>

  datatype Option<T> = None | Some(value: T)

  /** What one call into the outside world (engine, unlink, write, send) does. */
  datatype Outcome = Succeeds | Fails

  /** What a client receives. */
  datatype Response =
    | NoResponse                    // the request is never answered
    | ImageUrlJson(url: string)     // 200 with body {"imageUrl": url}
    | Attachment(filename: string)  // 200 with the file's bytes as an attachment
    | ErrorJson(status: nat)        // an error status with an {"error": ...} body
    | PassedToFramework             // the filter's Error, handed to the framework's error handler

  /** What the upload middleware leaves for the `/remove-bg` handler. */
  datatype Intake =
    | NoFile               // no file in the `image` field: `req.file` is undefined
    | Refused              // the filter called back with an Error
    | Stored(name: string) // the file was written under `name`

  /**
   Removing one file with every error swallowed, as both handlers do. The
   file goes away unless the operating system refuses; a file that is
   already gone makes the call fail, which changes nothing.
   */
  function Unlink(dir: Directory, name: string, os: Outcome): (r: Directory)
    ensures name in r <==> name in dir && os.Fails?
    ensures r - {name} == dir - {name}
  {
    if os.Succeeds? then dir - {name} else dir
  }

  /**
   The upload middleware followed by the handler's `!req.file` check. A
   refused upload writes nothing; an accepted one is stored under its
   timestamped name, whose extension is the one the filter approved.
   */
  function Accept(dir: Directory, file: Option<Upload>, now: nat): (r: (Directory, Intake))
    ensures r.1 == NoFile <==> file.None?
    ensures r.1 == Refused <==> file.Some? && !FileFilter(file.value)
    ensures !r.1.Stored? ==> r.0 == dir
    ensures r.1.Stored? ==> r.0 == dir + {r.1.name}
    ensures r.1.Stored? ==> r.1.name == InputName(now, file.value.originalName)
    ensures r.1.Stored? ==> Decimal.LeadingNumber(r.1.name) == now
    ensures r.1.Stored? ==> Paths.ExtName(r.1.name) == Paths.ExtName(file.value.originalName)
    ensures r.1.Stored? ==> MatchesFileTypes(Strings.LowerAscii(Paths.ExtName(r.1.name)))
  {
    match file
    case None => (dir, NoFile)
    case Some(u) =>
      if FileFilter(u) then
        var name := InputName(now, u.originalName);
        (dir + {name}, Stored(name))
      else
        (dir, Refused)
  }

  /**
   The continuation the handler starts after an upload is stored. If the
   engine fails, the error is only logged: nothing changes and no response
   is ever sent. If it succeeds, the original is unlinked FIRST (errors
   swallowed) and only then is the result written; a failed write answers
   500 with the original already gone, a successful one answers with the
   result's URL.
   */
  function Process(dir: Directory, input: string, now: nat, engine: Outcome, unlink: Outcome, write: Outcome)
    : (r: (Directory, Response))
    ensures engine.Fails? ==> r == (dir, NoResponse)
    ensures r.1.ImageUrlJson? <==> engine.Succeeds? && write.Succeeds?
    ensures r.1 == ErrorJson(500) <==> engine.Succeeds? && write.Fails?
    ensures r.1.ImageUrlJson? ==> r.1.url == UrlPrefix + ResultName(now) && ResultName(now) in r.0
    ensures write.Fails? ==> r.0 <= dir
    ensures engine.Succeeds? && input != ResultName(now) ==> (input in r.0 <==> input in dir && unlink.Fails?)
    ensures r.0 - {input, ResultName(now)} == dir - {input, ResultName(now)}
  {
    match engine
    case Fails => (dir, NoResponse)
    case Succeeds =>
      var outputPath := ResultPath(now);
      var afterUnlink := Unlink(dir, input, unlink);
      OnlyTwoChange(dir, afterUnlink, input, ResultName(now));
      match write
      case Fails => (afterUnlink, ErrorJson(500))
      case Succeeds =>
        ImageUrlOfResult(now);
        (afterUnlink + {ResultName(now)}, ImageUrlJson(ImageUrl(outputPath)))
  }

  /** The whole `/remove-bg` request: the middleware, then the handler and its continuation. */
  function RemoveBg(dir: Directory, file: Option<Upload>, uploadTime: nat, processTime: nat,
                    engine: Outcome, unlink: Outcome, write: Outcome): (r: (Directory, Response))
    ensures r.1 == ErrorJson(400) <==> file.None?
    ensures r.1 == PassedToFramework <==> file.Some? && !FileFilter(file.value)
    ensures r.1.ImageUrlJson? <==> file.Some? && FileFilter(file.value) && engine.Succeeds? && write.Succeeds?
    ensures r.1 == NoResponse <==> file.Some? && FileFilter(file.value) && engine.Fails?
    ensures r.1 == ErrorJson(500) <==> file.Some? && FileFilter(file.value) && engine.Succeeds? && write.Fails?
    ensures r.1.ImageUrlJson? ==> r.1.url == UrlPrefix + ResultName(processTime) && ResultName(processTime) in r.0
    ensures (file.None? || !FileFilter(file.value)) ==> r.0 == dir
    ensures file.Some? && FileFilter(file.value) && engine.Fails?
            ==> r.0 == dir + {InputName(uploadTime, file.value.originalName)}
    ensures file.Some? && FileFilter(file.value) && engine.Succeeds?
            ==> var input := InputName(uploadTime, file.value.originalName);
                && (input in r.0 <==> unlink.Fails?)
                && (write.Fails? ==> r.0 <= dir + {input})
                && r.0 - {input, ResultName(processTime)} == dir - {input, ResultName(processTime)}
  {
    var (stored, intake) := Accept(dir, file, uploadTime);
    match intake
    case NoFile => (stored, ErrorJson(400))
    case Refused => (stored, PassedToFramework)
    case Stored(name) =>
      InputAndResultNamesDiffer(uploadTime, file.value.originalName, processTime);
      AddedThenRemoved(dir, name, ResultName(processTime));
      Process(stored, name, processTime, engine, unlink, write)
  }

  /** When only `a` changed, adding `b` as well changes nothing but `a` and `b`. */
  lemma OnlyTwoChange(dir: Directory, changed: Directory, a: string, b: string)
    requires changed - {a} == dir - {a}
    ensures changed - {a, b} == dir - {a, b}
    ensures (changed + {b}) - {a, b} == dir - {a, b}
  {
    assert changed - {a, b} == (changed - {a}) - {b};
    assert dir - {a, b} == (dir - {a}) - {b};
  }

  /** Adding `a` and then removing `a` and `b` is removing `a` and `b`. */
  lemma AddedThenRemoved(dir: Directory, a: string, b: string)
    ensures (dir + {a}) - {a, b} == dir - {a, b}
  {
  }

  /**
   `/download/:filename`: a name that is not in the directory answers 404
   and changes nothing; a failed transfer answers 500 and returns before the
   unlink, so the file stays; a completed transfer is followed by an unlink
   of exactly that file (its error only logged). No other file is touched.
   */
  function Download(dir: Directory, filename: string, send: Outcome, unlink: Outcome): (r: (Directory, Response))
    ensures r.1 == ErrorJson(404) <==> filename !in dir
    ensures r.1 == ErrorJson(500) <==> filename in dir && send.Fails?
    ensures r.1 == Attachment(filename) <==> filename in dir && send.Succeeds?
    ensures filename in r.0 <==> filename in dir && (send.Fails? || unlink.Fails?)
    ensures r.0 - {filename} == dir - {filename}
  {
    if filename !in dir then (dir, ErrorJson(404))
    else if send.Fails? then (dir, ErrorJson(500))
    else (Unlink(dir, filename, unlink), Attachment(filename))
  }
}
