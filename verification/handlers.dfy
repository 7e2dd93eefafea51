/**
 * The web request handlers of the two applications: the login page that
 * checks credentials by listing contests, the export handler (`/top3` in
 * app.py, `/download` in leader2.py) and the file download.
 */
module Handlers {
  import opened Wrappers
  import opened Api
  import opened Client
  import opened Selection
  import opened Report
  import opened Downloads

  /** The two applications of the repository. */
  datatype Variant =
    | App      // app.py: time column, file removed after download
    | Leader2  // leader2.py: no time column, file kept

  function LayoutOf(v: Variant): Layout {
    if v.App? then WithTime else WithoutTime
  }

  function PolicyOf(v: Variant): DeletePolicy {
    if v.App? then DeleteAfterSend else KeepAfterSend
  }

  /** The notice shown when the credential check fails. */
  const InvalidCredentialsNotice: string := "Invalid email or password. Please try again."

  /** The answer to a posted login form. */
  datatype LoginPage = LoginRedirect(notice: string) | ContestPicker(contests: seq<Contest>)

  /**
   * A posted login: the contests are listed with the posted credentials
   * (`contestsApi`), one request at offset 0 with limit 100. The
   * credentials are rejected exactly when that listing answers with a
   * non-200 status or a false or missing `status` flag; otherwise the
   * listed contests are offered.
   */
  function Login(contestsApi: PageRequest -> Envelope<Contest>): (page: LoginPage)
    ensures var listing := contestsApi(PageRequest(0, 100));
      && (page.LoginRedirect? <==> listing.code != HttpOk || !listing.StatusFlag())
      && (page.LoginRedirect? ==> page.notice == InvalidCredentialsNotice)
      && (page.ContestPicker? ==> page.contests == listing.Models())
  {
    match ListContests(contestsApi)
    case None => LoginRedirect(InvalidCredentialsNotice)
    case Some(contests) => ContestPicker(contests)
  }

  /** The page the export handler answers with. */
  datatype ExportPage =
    | BackToLogin
    | Top3Page(contestName: string, top3: seq<Entry>, fileName: string)

  /** The file name a report for a sanitized contest name is saved under. */
  function ReportFileName(contestName: string): string {
    contestName + ".xlsx"
  }

  /**
   * The export handler. The contest listing is fetched again with the
   * posted credentials (`contestsApi`) and searched
   * for the posted slug; with no match it redirects without touching the
   * leaderboard. Otherwise it fetches the whole leaderboard (app.py first
   * replaces missing times by 0), writes the sheet under the sanitized
   * contest name and shows the three best-ranked entries. `sanitize`
   * stands for werkzeug's `secure_filename`. The handler does not check
   * the listing for failure, so a failed listing is excluded here. The
   * sheet is the corrected `BuildSheet`, which also covers an empty
   * leaderboard (see `Report.SaveToExcelAsWritten`).
   */
  method Export(v: Variant, contestsApi: PageRequest -> Envelope<Contest>, slug: string,
                api: PageRequest -> Envelope<Entry>, ghost bound: nat,
                sanitize: string -> string, dir: Dir, now: real)
    returns (page: ExportPage, sheet: Option<Sheet>, dir': Dir, requests: seq<PageRequest>)
    requires ListContests(contestsApi).Some?
    requires HaltsAt(api, bound)
    ensures var contests := contestsApi(PageRequest(0, 100)).Models();
      page.BackToLogin? <==> forall c :: c in contests ==> c.slug != slug
    ensures page.BackToLogin? ==> sheet.None? && dir' == dir && requests == []
    ensures page.Top3Page? ==>
      var c := FindContest(ListContests(contestsApi).value, slug).value;
      var board := FullLeaderboard(api, bound);
      var exported := if v.App? then DefaultTimes(board) else board;
      && c.slug == slug
      && page.contestName == sanitize(c.name)
      && page.fileName == ReportFileName(sanitize(c.name))
      && page.top3 == TopThree(exported)
      && sheet == Some(BuildSheet(exported, LayoutOf(v)))
      && dir' == WriteReport(dir, page.fileName, now)
      && |requests| >= 1 && requests[0] == PageRequest(0, PageLimit)
  {
    var contests := ListContests(contestsApi).value;
    var found := FindContest(contests, slug);
    if found.None? {
      return BackToLogin, None, dir, [];
    }
    var contest := found.value;
    var contestName := sanitize(contest.name);
    var board, pages;
    board, pages, requests := GetFullLeaderboard(api, bound);
    if v.App? {
      board := DefaultTimes(board);
    }
    var fileName := ReportFileName(contestName);
    sheet := Some(BuildSheet(board, LayoutOf(v)));
    dir' := WriteReport(dir, fileName, now);
    page := Top3Page(contestName, TopThree(board), fileName);
  }

  /** The download route of an application. */
  function Download(v: Variant, dir: Dir, name: string, removeFails: bool): (DownloadResponse, Dir) {
    DownloadFile(PolicyOf(v), dir, name, removeFails)
  }

  /** leader2.py: a download never changes the directory, whether or not the file exists. */
  lemma Leader2DownloadKeepsDirectory(dir: Dir, name: string, removeFails: bool)
    ensures Download(Leader2, dir, name, removeFails).1 == dir
    ensures name !in dir ==> Download(Leader2, dir, name, removeFails).0 == RedirectToLogin(NotFoundNotice)
  {
  }

  /**
   * app.py: downloading an existing regular file sends it and removes it,
   * and nothing else in the directory changes.
   */
  lemma AppDownloadRemovesFile(dir: Dir, name: string)
    requires name in dir && dir[name].isRegular
    ensures Download(App, dir, name, false) == (SendFile(name), dir - {name})
  {
  }

  /** Either way a missing file is a notice and a redirect, not an error. */
  lemma MissingFileRedirects(v: Variant, dir: Dir, name: string, removeFails: bool)
    requires name !in dir
    ensures Download(v, dir, name, removeFails) == (RedirectToLogin(NotFoundNotice), dir)
  {
  }

  /**
   * The report lifecycle: after an export, the download link serves the
   * written file; app.py removes it on that download and leader2.py keeps it.
   */
  lemma ExportThenDownload(v: Variant, dir: Dir, fileName: string, now: real)
    ensures Download(v, WriteReport(dir, fileName, now), fileName, false).0 == SendFile(fileName)
    ensures v.App? ==> fileName !in Download(v, WriteReport(dir, fileName, now), fileName, false).1
    ensures v.Leader2? ==>
              Download(v, WriteReport(dir, fileName, now), fileName, false).1 == WriteReport(dir, fileName, now)
  {
  }
}
