/**
 Properties of whole request sequences over the shared directory: the happy
 path from upload to download, what each failure leaves behind, the
 one-shot nature of downloads, what happens when two results are written in
 the same millisecond, and the invariant that every file in the directory
 carries one of the two names the service generates.
 */
module Lifecycle {
  import opened UploadFilter
  import opened Naming
  import opened Storage

  /** Every file in the directory is a stored upload or a result. */
  predicate Tidy(dir: Directory)
  {
    forall f :: f in dir ==> IsInputName(f) || IsResultName(f)
  }

  /** Adding a name of either shape keeps the directory tidy. */
  lemma AddKeepsTidy(dir: Directory, name: string)
    requires Tidy(dir)
    requires IsInputName(name) || IsResultName(name)
    ensures Tidy(dir + {name})
  {
    forall f | f in dir + {name} ensures IsInputName(f) || IsResultName(f) {
      if f != name {
        assert f in dir;
      }
    }
  }

  /** Removing files keeps the directory tidy. */
  lemma ShrinkKeepsTidy(dir: Directory, smaller: Directory)
    requires Tidy(dir)
    requires smaller <= dir
    ensures Tidy(smaller)
  {
  }

  lemma AcceptKeepsTidy(dir: Directory, file: Option<Upload>, now: nat)
    requires Tidy(dir)
    ensures Tidy(Accept(dir, file, now).0)
  {
    var r := Accept(dir, file, now);
    if r.1.Stored? {
      InputNameRecognized(now, file.value.originalName);
      AddKeepsTidy(dir, r.1.name);
    }
  }

  lemma ProcessKeepsTidy(dir: Directory, input: string, now: nat,
                         engine: Outcome, unlink: Outcome, write: Outcome)
    requires Tidy(dir)
    ensures Tidy(Process(dir, input, now, engine, unlink, write).0)
  {
    var r := Process(dir, input, now, engine, unlink, write);
    var unlinked := Unlink(dir, input, unlink);
    ShrinkKeepsTidy(dir, unlinked);
    if engine.Succeeds? && write.Succeeds? {
      assert r.0 == unlinked + {ResultName(now)};
      ResultNameRecognized(now);
      AddKeepsTidy(unlinked, ResultName(now));
    } else {
      ShrinkKeepsTidy(dir, r.0);
    }
  }

  lemma DownloadKeepsTidy(dir: Directory, filename: string, send: Outcome, unlink: Outcome)
    requires Tidy(dir)
    ensures Tidy(Download(dir, filename, send, unlink).0)
  {
  }

  /** Storing a fresh name and then removing it leaves the directory as it was. */
  lemma AddThenRemove(dir: Directory, name: string)
    requires name !in dir
    ensures (dir + {name}) - {name} == dir
  {
  }

  /**
   The successful round trip. An accepted upload whose two names are fresh
   is replaced by its result before the response goes out: at that moment
   the original is gone and the result is present. Downloading the id in the
   returned URL delivers the result and leaves the directory exactly as it
   was before the upload; a second download of the same id is a 404.
   */
  lemma RoundTrip(dir: Directory, u: Upload, uploadTime: nat, processTime: nat, send: Outcome, unlink: Outcome)
    requires FileFilter(u)
    requires InputName(uploadTime, u.originalName) !in dir
    requires ResultName(processTime) !in dir
    ensures var (after, resp) := RemoveBg(dir, Some(u), uploadTime, processTime, Succeeds, Succeeds, Succeeds);
            && resp == ImageUrlJson(UrlPrefix + ResultName(processTime))
            && InputName(uploadTime, u.originalName) !in after
            && ResultName(processTime) in after
            && var id := resp.url[|UrlPrefix|..];
               && id == ResultName(processTime)
               && var (served, delivered) := Download(after, id, Succeeds, Succeeds);
                  && delivered == Attachment(id)
                  && served == dir
                  && Download(served, id, send, unlink).1 == ErrorJson(404)
  {
    var result := ResultName(processTime);
    SuccessfulRemoveBg(dir, u, uploadTime, processTime);
    var url := UrlPrefix + result;
    assert url[|UrlPrefix|..] == result;
    AddThenRemove(dir, result);
  }

  /** With a fresh stored name, a fully successful `/remove-bg` just adds the result. */
  lemma SuccessfulRemoveBg(dir: Directory, u: Upload, uploadTime: nat, processTime: nat)
    requires FileFilter(u)
    requires InputName(uploadTime, u.originalName) !in dir
    ensures RemoveBg(dir, Some(u), uploadTime, processTime, Succeeds, Succeeds, Succeeds)
            == (dir + {ResultName(processTime)}, ImageUrlJson(UrlPrefix + ResultName(processTime)))
  {
    var input := InputName(uploadTime, u.originalName);
    var stored := Accept(dir, Some(u), uploadTime).0;
    assert stored == dir + {input};
    AddThenRemove(dir, input);
    assert Unlink(stored, input, Succeeds) == dir;
  }

  /**
   Because the original is unlinked before the result is written, a failed
   write loses the upload: the request answers 500 and the directory is back
   to what it was, holding neither the original nor a result.
   */
  lemma WriteFailureLosesUpload(dir: Directory, u: Upload, uploadTime: nat, processTime: nat)
    requires FileFilter(u)
    requires InputName(uploadTime, u.originalName) !in dir
    ensures RemoveBg(dir, Some(u), uploadTime, processTime, Succeeds, Succeeds, Fails) == (dir, ErrorJson(500))
  {
    var input := InputName(uploadTime, u.originalName);
    var stored := Accept(dir, Some(u), uploadTime).0;
    assert stored == dir + {input};
    AddThenRemove(dir, input);
    assert Unlink(stored, input, Succeeds) == dir;
  }

  /**
   When the engine fails the request is never answered and the stored
   upload stays behind; nothing in the service removes it except a download
   that happens to name it.
   */
  lemma EngineFailureOrphansUpload(dir: Directory, u: Upload, uploadTime: nat, processTime: nat,
                                   unlink: Outcome, write: Outcome)
    requires FileFilter(u)
    ensures var input := InputName(uploadTime, u.originalName);
            RemoveBg(dir, Some(u), uploadTime, processTime, Fails, unlink, write) == (dir + {input}, NoResponse)
  {
    var (stored, intake) := Accept(dir, Some(u), uploadTime);
    assert intake == Stored(InputName(uploadTime, u.originalName));
  }

  /**
   A failure to delete the original does not stop the result. Here another
   client downloads the stored upload by its name before processing
   finishes, so the handler's own unlink finds nothing; the error is
   swallowed and the client still gets its result's URL.
   */
  lemma OriginalTakenBeforeProcessing(dir: Directory, u: Upload, uploadTime: nat, processTime: nat, unlink: Outcome)
    requires FileFilter(u)
    ensures var (stored, intake) := Accept(dir, Some(u), uploadTime);
            && intake.Stored?
            && var (taken, other) := Download(stored, intake.name, Succeeds, Succeeds);
               && other == Attachment(intake.name)
               && intake.name !in taken
               && var (after, resp) := Process(taken, intake.name, processTime, Succeeds, unlink, Succeeds);
                  && resp == ImageUrlJson(UrlPrefix + ResultName(processTime))
                  && ResultName(processTime) in after
  {
    var input := InputName(uploadTime, u.originalName);
    var stored := Accept(dir, Some(u), uploadTime).0;
    assert stored == dir + {input};
    var taken := Download(stored, input, Succeeds, Succeeds).0;
    assert input !in taken;
  }

  /** A download that delivered the file and removed it cannot be repeated. */
  lemma DownloadIsOneShot(dir: Directory, filename: string, send: Outcome, unlink: Outcome)
    requires filename in dir
    ensures var (after, resp) := Download(dir, filename, Succeeds, Succeeds);
            && resp == Attachment(filename)
            && Download(after, filename, send, unlink) == (after, ErrorJson(404))
  {
  }

  /**
   Two uploads processed in the same millisecond are given the same result
   name: both clients receive the same URL and the second write replaces the
   first client's result. Once either client downloads it, the other gets a
   404, so one of the two results is lost.
   */
  lemma SameMillisecondResultsCollide(dir: Directory, first: string, second: string, now: nat)
    ensures var (d1, r1) := Process(dir, first, now, Succeeds, Succeeds, Succeeds);
            var (d2, r2) := Process(d1, second, now, Succeeds, Succeeds, Succeeds);
            && r1 == r2
            && var id := ResultName(now);
               && var (d3, r3) := Download(d2, id, Succeeds, Succeeds);
                  && r3 == Attachment(id)
                  && Download(d3, id, Succeeds, Succeeds).1 == ErrorJson(404)
  {
  }

  /** Results written in different milliseconds are returned under different URLs. */
  lemma DistinctMillisecondsDistinctUrls(dir: Directory, first: string, second: string, t1: nat, t2: nat)
    requires t1 != t2
    ensures Process(dir, first, t1, Succeeds, Succeeds, Succeeds).1
            != Process(dir, second, t2, Succeeds, Succeeds, Succeeds).1
  {
    ResultNameInjective(t1, t2);
  }
}
