/**
 * The shared downloads directory: reports are written into it, served from
 * it, and removed either right after they are sent (app.py) or by the
 * periodic sweep of files older than an age limit (app.py's background
 * thread). leader2.py never removes them.
 */
module Downloads {

  /** What the directory listing knows of one entry: regular file or not, and its modification time. */
  datatype FileInfo = FileInfo(isRegular: bool, mtime: real)

  /** The downloads directory: file name to entry. */
  type Dir = map<string, FileInfo>

  /** Age in seconds past which the sweep removes a file (the default `age_limit`). */
  const AgeLimit: real := 3600.0

  /** Writes a report: the name now holds a regular file modified at `now`, replacing any earlier one. */
  function WriteReport(dir: Dir, name: string, now: real): (d: Dir)
    ensures d.Keys == dir.Keys + {name}
    ensures d[name] == FileInfo(true, now)
    ensures forall n :: n in dir && n != name ==> d[n] == dir[n]
  {
    dir[name := FileInfo(true, now)]
  }

  // ---------------------------------------------------------------------
  // The sweep
  // ---------------------------------------------------------------------

  /** A regular file whose age at `now` strictly exceeds `limit`. */
  predicate Expired(info: FileInfo, now: real, limit: real) {
    info.isRegular && now - info.mtime > limit
  }

  /**
   * The names the sweep removes: expired regular files whose removal does
   * not fail. `failing` holds the names whose `os.remove` raises; such an
   * error is logged and the pass goes on.
   */
  predicate Swept(dir: Dir, name: string, now: real, limit: real, failing: set<string>)
    requires name in dir
  {
    Expired(dir[name], now, limit) && name !in failing
  }

  /** The directory after one sweep pass over all of it. */
  function Sweep(dir: Dir, now: real, limit: real, failing: set<string>): (d: Dir)
    ensures d.Keys <= dir.Keys
    ensures forall n :: n in d ==> d[n] == dir[n]
    ensures forall n :: n in dir ==> (n !in d <==> Expired(dir[n], now, limit) && n !in failing)
  {
    map n | n in dir && !Swept(dir, n, now, limit, failing) :: dir[n]
  }

  /** The sweep restricted to the names in `seen`: the state after visiting them. */
  function SweepOver(dir: Dir, seen: set<string>, now: real, limit: real, failing: set<string>): Dir {
    map n | n in dir && !(n in seen && Swept(dir, n, now, limit, failing)) :: dir[n]
  }

  /**
   * One pass of `cleanup_old_files`: for each name of the directory listing
   * in turn, a regular file older than the limit is removed; a removal that
   * fails is skipped and the pass continues.
   */
  method SweepPass(dir: Dir, listing: seq<string>, now: real, limit: real, failing: set<string>)
    returns (d: Dir)
    requires forall n :: n in dir <==> n in listing
    ensures d == Sweep(dir, now, limit, failing)
  {
    d := dir;
    var i := 0;
    while i < |listing|
      invariant i <= |listing|
      invariant d == SweepOver(dir, set k | 0 <= k < i :: listing[k], now, limit, failing)
    {
      var name := listing[i];
      ghost var seen := set k | 0 <= k < i :: listing[k];
      ghost var seen' := set k | 0 <= k < i + 1 :: listing[k];
      assert seen' == seen + {name};
      if name in d && d[name].isRegular {
        var age := now - d[name].mtime;
        if age > limit {
          if name !in failing {
            d := map n | n in d && n != name :: d[n];
          }
        }
      }
      i := i + 1;
    }
    ghost var all := set k | 0 <= k < |listing| :: listing[k];
    assert all == dir.Keys by {
      forall n | n in dir ensures n in all {
        var k :| 0 <= k < |listing| && listing[k] == n;
      }
    }
  }

  /** A second pass at the same instant, with no failures, removes nothing more. */
  lemma SweepIdempotent(dir: Dir, now: real, limit: real)
    ensures Sweep(Sweep(dir, now, limit, {}), now, limit, {}) == Sweep(dir, now, limit, {})
  {
  }

  /** After a pass with no failures, every regular file left is at most `limit` seconds old. */
  lemma SweepLeavesOnlyFresh(dir: Dir, now: real, limit: real, n: string)
    requires n in Sweep(dir, now, limit, {})
    ensures !Expired(Sweep(dir, now, limit, {})[n], now, limit)
  {
  }

  /** A report written at `written` survives a pass exactly while its age has not exceeded the limit. */
  lemma SweepAfterWrite(dir: Dir, name: string, written: real, now: real, limit: real)
    ensures name in Sweep(WriteReport(dir, name, written), now, limit, {}) <==> now - written <= limit
  {
  }

  /**
   * With the default age limit, a report survives every pass of its first
   * hour and is removed by the first failure-free pass after it.
   */
  lemma ReportLivesOneHour(dir: Dir, name: string, written: real, now: real)
    ensures now <= written + 3600.0 ==> name in Sweep(WriteReport(dir, name, written), now, AgeLimit, {})
    ensures now > written + 3600.0 ==> name !in Sweep(WriteReport(dir, name, written), now, AgeLimit, {})
  {
  }

  // ---------------------------------------------------------------------
  // Download
  // ---------------------------------------------------------------------

  /** What happens to a file once it has been sent. */
  datatype DeletePolicy =
    | DeleteAfterSend  // app.py: removed after the response
    | KeepAfterSend    // leader2.py: left for good

  /** The notice flashed when the requested file is missing. */
  const NotFoundNotice: string := "File not found."

  /** The response to a download request. */
  datatype DownloadResponse =
    | SendFile(name: string)           // the file streamed as an attachment
    | RedirectToLogin(notice: string)  // back to the entry page with a notice

  /**
   * `download_file`: an existing entry is sent, then (under the delete
   * policy) removed. An entry with `isRegular == false` stands for a
   * directory, for which `os.remove` raises; it also raises when
   * `removeFails`, and either error is only logged. A missing name
   * redirects with a notice.
   */
  function DownloadFile(policy: DeletePolicy, dir: Dir, name: string, removeFails: bool): (r: (DownloadResponse, Dir))
    ensures name !in dir ==> r == (RedirectToLogin(NotFoundNotice), dir)
    ensures name in dir ==> r.0 == SendFile(name)
    ensures r.1.Keys <= dir.Keys && forall n :: n in r.1 ==> r.1[n] == dir[n]
    ensures forall n :: n in dir && n != name ==> n in r.1
    ensures policy.KeepAfterSend? ==> r.1 == dir
    ensures policy.DeleteAfterSend? && name in dir ==>
      (name !in r.1 <==> dir[name].isRegular && !removeFails)
  {
    if name !in dir then (RedirectToLogin(NotFoundNotice), dir)
    else
      var after :=
        if policy.DeleteAfterSend? && dir[name].isRegular && !removeFails then dir - {name} else dir;
      (SendFile(name), after)
  }

  /** A report downloaded right after it was written is gone afterwards under the delete policy. */
  lemma DownloadAfterWrite(dir: Dir, name: string, now: real)
    ensures DownloadFile(DeleteAfterSend, WriteReport(dir, name, now), name, false)
      == (SendFile(name), dir - {name})
  {
    assert WriteReport(dir, name, now) - {name} == dir - {name};
  }
}
