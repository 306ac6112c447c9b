/**
 * The `retrieve` command: cursor-driven pagination over the suppression-list
 * endpoint.  Each page's entries are written out projected onto the output
 * columns, the total is reported for the first request only, and the run goes
 * on while a page carries a "next" link, ignores "first", "last" and
 * "previous" links, and stops on any other link.
 *
 * The service is a finite sequence of HTTP responses consumed in order by
 * the retry loop of `getSuppressionList`; when it runs out the run ends
 * `Waiting`.  Timing printouts are not modelled; the per-page report keeps
 * the page counter and the number of entries.
 */
module Retrieve {
  import opened Common
  import opened SuppressionFetch
  import opened CsvOutput

  /** A hypermedia link of a page: its relation and the `cursor` values of its query string, if any. */
  datatype Link = Link(rel: string, cursor: Option<seq<string>>)

  /** A decoded page: `total_count`, `results` and `links`. */
  datatype Page = Page(totalCount: int, results: seq<map<string, string>>, links: seq<Link>)

  /** A decoded JSON body: an empty object (which is falsy) or a page. */
  datatype Body = EmptyObject | PageBody(page: Page)

  /** The `cursor` parameter: the string "initial", or the value list taken from a link. */
  datatype Cursor = InitialCursor | LinkCursor(values: seq<string>)

  datatype TimeRange = TimeRange(from: string, to: string)

  /** The query parameters of a request. */
  datatype Params = Params(cursor: Cursor, perPage: int, range: Option<TimeRange>)

  /** How a run ends. */
  datatype Stop =
    | Finished                   // a page without a "next" link
    | FetchFailed                // an error status or an empty body
    | UnexpectedLink(link: Link) // a link relation other than next/first/last/previous
    | MissingCursor(link: Link)  // a "next" link whose query string has no cursor
    | Waiting                    // the modelled responses ran out inside the retry loop

  /** The progress line printed after each page. */
  datatype PageReport = PageReport(page: nat, events: nat)

  /**
   * What a run has done: the parameters of each request, the pages
   * received, the rows written, the totals reported and the progress lines.
   */
  datatype Log = Log(requests: seq<Params>, pages: seq<Page>, rows: seq<seq<string>>,
                     totals: seq<int>, progress: seq<PageReport>)

  datatype Run = Run(stop: Stop, log: Log)

  /** One log followed by another. */
  function Append(a: Log, b: Log): Log {
    Log(a.requests + b.requests, a.pages + b.pages, a.rows + b.rows, a.totals + b.totals, a.progress + b.progress)
  }

  // ---------------------------------------------------------------------------
  // The first request
  // ---------------------------------------------------------------------------

  /** Python truthiness of an optional string. */
  predicate Truthy(s: Option<string>) {
    s.Some? && s.value != ""
  }

  /** The parameters of the first request: cursor "initial", the batch size, and the range when both bounds are set. */
  function InitialParams(batchSize: int, fromTime: Option<string>, toTime: Option<string>): (p: Params)
    ensures p.cursor == InitialCursor && p.perPage == batchSize
    ensures p.range.Some? <==> Truthy(fromTime) && Truthy(toTime)
    ensures p.range.Some? ==> p.range.value == TimeRange(fromTime.value, toTime.value)
  {
    var p := Params(InitialCursor, batchSize, None);
    if Truthy(toTime) && Truthy(fromTime) then p.(range := Some(TimeRange(fromTime.value, toTime.value))) else p
  }

  // ---------------------------------------------------------------------------
  // The links of a page
  // ---------------------------------------------------------------------------

  /** The relations that neither continue nor stop the run. */
  const NeutralRels: set<string> := {"last", "first", "previous"}

  /** The outcome of walking a page's links: go on or not, the cursor, the "next" links seen; or stop. */
  datatype LinkScan = LinksOk(more: bool, cursor: Cursor, nexts: nat) | LinksAbort(stop: Stop)

  /** One link's effect on the walk. */
  function LinkStep(prev: LinkScan, l: Link): LinkScan {
    if prev.LinksAbort? then prev
    else if l.rel == "next" then
      if l.cursor.None? then LinksAbort(MissingCursor(l))
      else LinksOk(true, LinkCursor(l.cursor.value), prev.nexts + 1)
    else if l.rel in NeutralRels then prev
    else LinksAbort(UnexpectedLink(l))
  }

  /** The walk over `links`, in order, starting from the current cursor. */
  function ScanLinks(links: seq<Link>, cursor: Cursor): LinkScan
    decreases |links|
  {
    if |links| == 0 then LinksOk(false, cursor, 0)
    else LinkStep(ScanLinks(links[..|links| - 1], cursor), links[|links| - 1])
  }

  /** Whether a link stops the run. */
  predicate BadLink(l: Link) {
    if l.rel == "next" then l.cursor.None? else l.rel !in NeutralRels
  }

  /** The number of "next" links. */
  function CountNext(links: seq<Link>): nat
    decreases |links|
  {
    if |links| == 0 then 0
    else CountNext(links[..|links| - 1]) + (if links[|links| - 1].rel == "next" then 1 else 0)
  }

  /** Once the walk has stopped, the rest of the links change nothing. */
  lemma {:induction false} LinkAbortPersists(links: seq<Link>, j: nat, cursor: Cursor)
    requires j <= |links| && ScanLinks(links[..j], cursor).LinksAbort?
    ensures ScanLinks(links, cursor) == ScanLinks(links[..j], cursor)
    decreases |links| - j
  {
    if j < |links| {
      assert links[..j + 1][..j] == links[..j];
      LinkAbortPersists(links, j + 1, cursor);
    } else {
      assert links[..j] == links;
    }
  }

  /**
   * The walk stops iff some link is bad (an unknown relation, or a "next"
   * link without a cursor), even when a "next" link came before it, and
   * then for the first bad link.  Otherwise the run goes on iff some link is
   * "next", the new cursor is that of the last "next" link (the old one
   * when there is none), and every "next" link is counted.
   */
  lemma {:induction false} ScanLinksMeaning(links: seq<Link>, cursor: Cursor)
    ensures ScanLinks(links, cursor).LinksAbort? <==> exists i :: 0 <= i < |links| && BadLink(links[i])
    ensures ScanLinks(links, cursor).LinksAbort? ==>
              exists i :: 0 <= i < |links| && BadLink(links[i]) && (forall j :: 0 <= j < i ==> !BadLink(links[j])) &&
                ScanLinks(links, cursor).stop == (if links[i].rel == "next" then MissingCursor(links[i]) else UnexpectedLink(links[i]))
    ensures ScanLinks(links, cursor).LinksOk? ==>
              var scan := ScanLinks(links, cursor);
              && (scan.more <==> exists i :: 0 <= i < |links| && links[i].rel == "next")
              && scan.nexts == CountNext(links)
              && (!scan.more ==> scan.cursor == cursor)
              && (scan.more ==> exists i :: 0 <= i < |links| && links[i].rel == "next" && links[i].cursor.Some? &&
                                  scan.cursor == LinkCursor(links[i].cursor.value) &&
                                  forall j :: i < j < |links| ==> links[j].rel != "next")
    decreases |links|
  {
    if |links| > 0 {
      var init := links[..|links| - 1];
      ScanLinksMeaning(init, cursor);
      var last := links[|links| - 1];
      assert forall i :: 0 <= i < |init| ==> init[i] == links[i];
      if ScanLinks(init, cursor).LinksOk? && !BadLink(last) {
        assert forall i :: 0 <= i < |links| ==> !BadLink(links[i]) by {
          forall i | 0 <= i < |links| ensures !BadLink(links[i]) {
            if i < |init| { assert links[i] == init[i]; }
          }
        }
      }
    }
  }

  /** The facts about a walk that the page-level proofs need. */
  lemma {:induction false} ScanLinksBasics(links: seq<Link>, cursor: Cursor)
    ensures ScanLinks(links, cursor).LinksAbort? ==> EndedOnPage(ScanLinks(links, cursor).stop) && !ScanLinks(links, cursor).stop.Finished?
    ensures ScanLinks(links, cursor).LinksOk? ==> ScanLinks(links, cursor).nexts == CountNext(links)
    ensures ScanLinks(links, cursor).LinksOk? && ScanLinks(links, cursor).more ==> ScanLinks(links, cursor).cursor.LinkCursor?
    decreases |links|
  {
    if |links| > 0 {
      ScanLinksBasics(links[..|links| - 1], cursor);
    }
  }

  /** A "first", "last" or "previous" link can be dropped from anywhere without changing the walk. */
  lemma {:induction false} NeutralLinkIgnored(a: seq<Link>, l: Link, b: seq<Link>, cursor: Cursor)
    requires l.rel in NeutralRels
    ensures ScanLinks(a + [l] + b, cursor) == ScanLinks(a + b, cursor)
    decreases |b|
  {
    if |b| == 0 {
      assert (a + [l])[..|a|] == a;
      assert a + [l] + b == a + [l] && a + b == a;
    } else {
      var b' := b[..|b| - 1];
      NeutralLinkIgnored(a, l, b', cursor);
      assert (a + [l] + b)[..|a + [l] + b| - 1] == a + [l] + b';
      assert (a + b)[..|a + b| - 1] == a + b';
    }
  }

  // ---------------------------------------------------------------------------
  // The pages
  // ---------------------------------------------------------------------------

  /** The total reported for a page: only while the cursor is still "initial". */
  function NoteTotal(p: Params, page: Page): seq<int> {
    if p.cursor == InitialCursor then [page.totalCount] else []
  }

  /** What one received page adds to the log: the request, the page, its rows, its total and its progress line. */
  function PageLog(fList: seq<string>, p: Params, suppPage: nat, page: Page): Log {
    Log([p], [page], ProjectAll(fList, page.results), NoteTotal(p, page), [PageReport(suppPage, |page.results|)])
  }

  /** What one request leads to: the run stops there, or it goes on with the request `next`. */
  datatype Step =
    | Stopped(stop: Stop, here: Log)
    | Onward(here: Log, next: Params, nextPage: nat, used: nat)

  /**
   * One request with parameters `p` and page counter `suppPage` against the
   * responses `rs`: fetch, log the page, then follow its links.
   */
  function PageStep(fList: seq<string>, p: Params, suppPage: nat, rs: seq<Response<Body>>): (st: Step)
    ensures st.Onward? ==> 1 <= st.used <= |rs|
  {
    match FetchSpec(rs)
    case Pending(_) => Stopped(Waiting, Log([p], [], [], [], []))
    case Returned(v, used, _) =>
      if v.None? || v.value.EmptyObject? then Stopped(FetchFailed, Log([p], [], [], [], []))
      else
        var page := v.value.page;
        var here := PageLog(fList, p, suppPage, page);
        match ScanLinks(page.links, p.cursor)
        case LinksAbort(stop) => Stopped(stop, here)
        case LinksOk(more, cursor, nexts) =>
          if !more then Stopped(Finished, here)
          else Onward(here, p.(cursor := cursor), suppPage + nexts, used)
  }

  /**
   * The run from a request with parameters `p` and page counter `suppPage`
   * on, against the responses `rs`.
   */
  function Pages(fList: seq<string>, p: Params, suppPage: nat, rs: seq<Response<Body>>): Run
    decreases |rs|
  {
    match PageStep(fList, p, suppPage, rs)
    case Stopped(stop, here) => Run(stop, here)
    case Onward(here, next, nextPage, used) =>
      var rest := Pages(fList, next, nextPage, rs[used..]);
      Run(rest.stop, Append(here, rest.log))
  }

  /** The whole run: the header row, then the pages from the first request on. */
  function RetrieveSpec(fList: seq<string>, batchSize: int, fromTime: Option<string>, toTime: Option<string>,
                        rs: seq<Response<Body>>): Run
  {
    var run := Pages(fList, InitialParams(batchSize, fromTime, toTime), 1, rs);
    Run(run.stop, Append(Log([], [], [fList], [], []), run.log))
  }

  /** The run resumed from the given state: what is logged so far, then the rest of the pages. */
  function Resume(fList: seq<string>, log: Log, p: Params, suppPage: nat, rs: seq<Response<Body>>): Run {
    var run := Pages(fList, p, suppPage, rs);
    Run(run.stop, Append(log, run.log))
  }

  // ---------------------------------------------------------------------------
  // What a run promises
  // ---------------------------------------------------------------------------

  /** The rows written for the given pages, in order. */
  function RowsOf(fList: seq<string>, pages: seq<Page>): seq<seq<string>>
    decreases |pages|
  {
    if |pages| == 0 then [] else ProjectAll(fList, pages[0].results) + RowsOf(fList, pages[1..])
  }

  /** The number of "next" links on the first `k` pages. */
  function NextsBefore(pages: seq<Page>, k: nat): nat
    requires k <= |pages|
    decreases k
  {
    if k == 0 then 0 else CountNext(pages[0].links) + NextsBefore(pages[1..], k - 1)
  }

  /** Whether a run ended on a page (rather than on a request that got none). */
  predicate EndedOnPage(stop: Stop) {
    stop.Finished? || stop.UnexpectedLink? || stop.MissingCursor?
  }

  /** Request `next` is what the links of `page`, received for request `prev`, send the run on to. */
  predicate FollowsLinks(prev: Params, page: Page, next: Params) {
    var scan := ScanLinks(page.links, prev.cursor);
    scan.LinksOk? && scan.more && next == prev.(cursor := scan.cursor)
  }

  /** Every request after the first follows the links of the page received for the one before. */
  predicate Chained(requests: seq<Params>, pages: seq<Page>) {
    |requests| <= |pages| + 1 &&
    forall k :: 0 <= k < |pages| && k + 1 < |requests| ==> FollowsLinks(requests[k], pages[k], requests[k + 1])
  }

  /** Why a run stopped, told by the links of its last page. */
  predicate StoppedByLinks(stop: Stop, lastRequest: Params, lastPage: Page) {
    var scan := ScanLinks(lastPage.links, lastRequest.cursor);
    if stop.Finished? then scan.LinksOk? && !scan.more else scan == LinksAbort(stop)
  }

  /** One progress line per page, counting from `suppPage` plus the "next" links before it. */
  predicate ProgressCounts(progress: seq<PageReport>, pages: seq<Page>, suppPage: nat) {
    |progress| == |pages| &&
    forall k :: 0 <= k < |pages| ==> progress[k] == PageReport(suppPage + NextsBefore(pages, k), |pages[k].results|)
  }

  lemma ChainedCons(p: Params, page: Page, requests: seq<Params>, pages: seq<Page>)
    requires Chained(requests, pages) && |requests| >= 1 && FollowsLinks(p, page, requests[0])
    ensures Chained([p] + requests, [page] + pages)
  {
    var rq, pg := [p] + requests, [page] + pages;
    forall k | 0 <= k < |pg| && k + 1 < |rq| ensures FollowsLinks(rq[k], pg[k], rq[k + 1]) {
      if k > 0 {
        assert rq[k] == requests[k - 1] && pg[k] == pages[k - 1] && rq[k + 1] == requests[k];
      }
    }
  }

  lemma ProgressCons(page: Page, progress: seq<PageReport>, pages: seq<Page>, suppPage: nat)
    requires ProgressCounts(progress, pages, suppPage + CountNext(page.links))
    ensures ProgressCounts([PageReport(suppPage, |page.results|)] + progress, [page] + pages, suppPage)
  {
    var pr, pg := [PageReport(suppPage, |page.results|)] + progress, [page] + pages;
    forall k | 0 <= k < |pg| ensures pr[k] == PageReport(suppPage + NextsBefore(pg, k), |pg[k].results|) {
      if k > 0 {
        assert pg[1..] == pages;
        assert pr[k] == progress[k - 1] && pg[k] == pages[k - 1];
      }
    }
  }

  /**
   * What one request logs: itself, and the page it got if any; a run goes
   * on only through the page's "next" links, and a run that ends on a page
   * ends for a reason its links give.
   */
  lemma StepFacts(fList: seq<string>, p: Params, suppPage: nat, rs: seq<Response<Body>>)
    ensures var st := PageStep(fList, p, suppPage, rs);
            && st.here.requests == [p]
            && (if st.Onward? || EndedOnPage(st.stop)
                then |st.here.pages| == 1 && st.here == PageLog(fList, p, suppPage, st.here.pages[0])
                else st.here == Log([p], [], [], [], []))
            && (st.Onward? ==>
                  && FollowsLinks(p, st.here.pages[0], st.next)
                  && st.next.cursor.LinkCursor?
                  && st.nextPage == suppPage + CountNext(st.here.pages[0].links))
            && (st.Stopped? && EndedOnPage(st.stop) ==> StoppedByLinks(st.stop, p, st.here.pages[0]))
  {
    var f := FetchSpec(rs);
    if f.Returned? && f.value.Some? && f.value.value.PageBody? {
      var page := f.value.value.page;
      ScanLinksBasics(page.links, p.cursor);
    }
  }

  /**
   * The requests of a run: the first has the given parameters, and every
   * request got a page except, when the run stopped on a failed or
   * unanswered fetch, the last.
   */
  lemma {:induction false} PagesRequestCount(fList: seq<string>, p: Params, suppPage: nat, rs: seq<Response<Body>>)
    ensures var run := Pages(fList, p, suppPage, rs);
            && |run.log.requests| >= 1 && run.log.requests[0] == p
            && |run.log.requests| == |run.log.pages| + (if EndedOnPage(run.stop) then 0 else 1)
    decreases |rs|
  {
    StepFacts(fList, p, suppPage, rs);
    var st := PageStep(fList, p, suppPage, rs);
    if st.Onward? {
      PagesRequestCount(fList, st.next, st.nextPage, rs[st.used..]);
    }
  }

  /**
   * Every page but the last was followed by a request with the cursor of its
   * last "next" link and otherwise the same parameters, and the last page's
   * links explain why the run stopped there.
   */
  lemma {:induction false} PagesFollowLinks(fList: seq<string>, p: Params, suppPage: nat, rs: seq<Response<Body>>)
    ensures var run := Pages(fList, p, suppPage, rs);
            && Chained(run.log.requests, run.log.pages)
            && (EndedOnPage(run.stop) ==>
                  |run.log.requests| == |run.log.pages| >= 1 &&
                  StoppedByLinks(run.stop, run.log.requests[|run.log.requests| - 1], run.log.pages[|run.log.pages| - 1]))
    decreases |rs|
  {
    StepFacts(fList, p, suppPage, rs);
    var st := PageStep(fList, p, suppPage, rs);
    if st.Onward? {
      var page := st.here.pages[0];
      PagesFollowLinks(fList, st.next, st.nextPage, rs[st.used..]);
      PagesRequestCount(fList, st.next, st.nextPage, rs[st.used..]);
      var rest := Pages(fList, st.next, st.nextPage, rs[st.used..]);
      var run := Pages(fList, p, suppPage, rs);
      assert run.stop == rest.stop;
      assert run.log.requests == [p] + rest.log.requests && run.log.pages == [page] + rest.log.pages;
      ChainedCons(p, page, rest.log.requests, rest.log.pages);
      if EndedOnPage(run.stop) {
        assert run.log.requests[|run.log.requests| - 1] == rest.log.requests[|rest.log.requests| - 1];
        assert run.log.pages[|run.log.pages| - 1] == rest.log.pages[|rest.log.pages| - 1];
      }
    }
  }

  /** The rows of a run are the rows of its pages, in page order. */
  lemma {:induction false} PagesRows(fList: seq<string>, p: Params, suppPage: nat, rs: seq<Response<Body>>)
    ensures var log := Pages(fList, p, suppPage, rs).log;
            log.rows == RowsOf(fList, log.pages)
    decreases |rs|
  {
    StepFacts(fList, p, suppPage, rs);
    var st := PageStep(fList, p, suppPage, rs);
    var log := Pages(fList, p, suppPage, rs).log;
    if st.Onward? {
      PagesRows(fList, st.next, st.nextPage, rs[st.used..]);
      var rest := Pages(fList, st.next, st.nextPage, rs[st.used..]).log;
      assert log.pages[1..] == rest.pages;
    } else if EndedOnPage(st.stop) {
      assert log.pages[1..] == [];
      assert log.rows == ProjectAll(fList, log.pages[0].results) + [];
    }
  }

  /**
   * One progress line per page of a run, whose counter is the starting
   * counter plus the number of "next" links on the pages before it.
   */
  lemma {:induction false} PagesProgress(fList: seq<string>, p: Params, suppPage: nat, rs: seq<Response<Body>>)
    ensures var log := Pages(fList, p, suppPage, rs).log;
            ProgressCounts(log.progress, log.pages, suppPage)
    decreases |rs|
  {
    StepFacts(fList, p, suppPage, rs);
    var st := PageStep(fList, p, suppPage, rs);
    if st.Onward? {
      var page := st.here.pages[0];
      PagesProgress(fList, st.next, st.nextPage, rs[st.used..]);
      var rest := Pages(fList, st.next, st.nextPage, rs[st.used..]).log;
      ProgressCons(page, rest.progress, rest.pages, suppPage);
    } else if EndedOnPage(st.stop) {
      var log := Pages(fList, p, suppPage, rs).log;
      assert log.pages[0..0] == [];
    }
  }

  /** A run whose cursor is no longer "initial" reports no total. */
  lemma {:induction false} PagesNoLaterTotals(fList: seq<string>, p: Params, suppPage: nat, rs: seq<Response<Body>>)
    requires p.cursor.LinkCursor?
    ensures Pages(fList, p, suppPage, rs).log.totals == []
    decreases |rs|
  {
    StepFacts(fList, p, suppPage, rs);
    var st := PageStep(fList, p, suppPage, rs);
    if st.Onward? {
      PagesNoLaterTotals(fList, st.next, st.nextPage, rs[st.used..]);
    }
  }

  /**
   * A whole run starts with the initial parameters and writes the header row
   * `fList`, then each page's entries projected onto `fList`, one cell per
   * column.
   */
  lemma RetrieveRun(fList: seq<string>, batchSize: int, fromTime: Option<string>, toTime: Option<string>,
                    rs: seq<Response<Body>>)
    ensures var log := RetrieveSpec(fList, batchSize, fromTime, toTime, rs).log;
            && |log.requests| >= 1
            && log.requests[0] == InitialParams(batchSize, fromTime, toTime)
            && log.rows == [fList] + RowsOf(fList, log.pages)
            && (forall k :: 0 <= k < |log.rows| ==> |log.rows[k]| == |fList|)
  {
    var p := InitialParams(batchSize, fromTime, toTime);
    PagesRequestCount(fList, p, 1, rs);
    PagesRows(fList, p, 1, rs);
    var run := Pages(fList, p, 1, rs);
    var log := RetrieveSpec(fList, batchSize, fromTime, toTime, rs).log;
    assert log.pages == run.log.pages && log.rows == [fList] + run.log.rows;
    RowsHaveColumnWidth(fList, log.pages);
  }

  /** A whole run reports a total only for its first page, if there is one. */
  lemma RetrieveTotals(fList: seq<string>, batchSize: int, fromTime: Option<string>, toTime: Option<string>,
                       rs: seq<Response<Body>>)
    ensures var log := RetrieveSpec(fList, batchSize, fromTime, toTime, rs).log;
            log.totals == (if |log.pages| == 0 then [] else [log.pages[0].totalCount])
  {
    var p := InitialParams(batchSize, fromTime, toTime);
    StepFacts(fList, p, 1, rs);
    var st := PageStep(fList, p, 1, rs);
    if st.Onward? {
      PagesNoLaterTotals(fList, st.next, st.nextPage, rs[st.used..]);
    }
  }

  /** The progress lines of a whole run count pages as 1 plus the "next" links seen before. */
  lemma RetrieveProgress(fList: seq<string>, batchSize: int, fromTime: Option<string>, toTime: Option<string>,
                         rs: seq<Response<Body>>)
    ensures var log := RetrieveSpec(fList, batchSize, fromTime, toTime, rs).log;
            ProgressCounts(log.progress, log.pages, 1)
  {
    var p := InitialParams(batchSize, fromTime, toTime);
    PagesProgress(fList, p, 1, rs);
    var run := Pages(fList, p, 1, rs);
    var log := RetrieveSpec(fList, batchSize, fromTime, toTime, rs).log;
    assert log.pages == run.log.pages && log.progress == run.log.progress;
  }

  /**
   * A whole run goes from page to page only through "next" links, keeping
   * the page size and range, and the links of its last page say why it
   * stopped: no "next" link for a normal end, the first bad link otherwise.
   */
  lemma RetrieveFollowsLinks(fList: seq<string>, batchSize: int, fromTime: Option<string>, toTime: Option<string>,
                             rs: seq<Response<Body>>)
    ensures var run := RetrieveSpec(fList, batchSize, fromTime, toTime, rs);
            && Chained(run.log.requests, run.log.pages)
            && (forall k :: 0 <= k < |run.log.requests| ==>
                  run.log.requests[k].perPage == batchSize &&
                  run.log.requests[k].range == InitialParams(batchSize, fromTime, toTime).range)
            && (EndedOnPage(run.stop) ==>
                  |run.log.pages| >= 1 &&
                  StoppedByLinks(run.stop, run.log.requests[|run.log.requests| - 1], run.log.pages[|run.log.pages| - 1]))
  {
    var p := InitialParams(batchSize, fromTime, toTime);
    PagesFollowLinks(fList, p, 1, rs);
    PagesRequestCount(fList, p, 1, rs);
    var run := RetrieveSpec(fList, batchSize, fromTime, toTime, rs);
    assert run.log.requests == Pages(fList, p, 1, rs).log.requests;
    assert run.log.pages == Pages(fList, p, 1, rs).log.pages;
    var rq := run.log.requests;
    forall k | 0 <= k < |rq| ensures rq[k].perPage == batchSize && rq[k].range == p.range {
      SameSizeAndRange(rq, run.log.pages, k);
    }
  }

  /** Along a chain of requests, only the cursor changes. */
  lemma {:induction false} SameSizeAndRange(requests: seq<Params>, pages: seq<Page>, k: nat)
    requires Chained(requests, pages) && k < |requests|
    ensures requests[k].perPage == requests[0].perPage && requests[k].range == requests[0].range
  {
    if k > 0 {
      SameSizeAndRange(requests, pages, k - 1);
      assert FollowsLinks(requests[k - 1], pages[k - 1], requests[k]);
    }
  }

  /** Every written row has one cell per column. */
  lemma {:induction false} RowsHaveColumnWidth(fList: seq<string>, pages: seq<Page>)
    ensures forall k :: 0 <= k < |RowsOf(fList, pages)| ==> |RowsOf(fList, pages)[k]| == |fList|
    decreases |pages|
  {
    if |pages| > 0 {
      RowsHaveColumnWidth(fList, pages[1..]);
      var first := ProjectAll(fList, pages[0].results);
      forall k | 0 <= k < |RowsOf(fList, pages)| ensures |RowsOf(fList, pages)[k]| == |fList| {
        if k >= |first| {
          assert RowsOf(fList, pages)[k] == RowsOf(fList, pages[1..])[k - |first|];
        }
      }
    }
  }

  /** The responses a service gives when it answers every request at once with the next page. */
  function Answering(pages: seq<Page>): (rs: seq<Response<Body>>)
    ensures |rs| == |pages|
  {
    seq(|pages|, k requires 0 <= k < |pages| => Response(200, "", PageBody(pages[k])))
  }

  /** A page that sends the run on: a "next" link and no bad link. */
  predicate Continues(page: Page) {
    (exists i :: 0 <= i < |page.links| && page.links[i].rel == "next") &&
    forall i :: 0 <= i < |page.links| ==> !BadLink(page.links[i])
  }

  /** A page that ends the run normally: only "first", "last" and "previous" links. */
  predicate Closes(page: Page) {
    forall i :: 0 <= i < |page.links| ==> page.links[i].rel in NeutralRels
  }

  /**
   * Pagination stops after exactly the pages a service serves when every
   * page but the last has a "next" link and the last has none.
   */
  lemma {:induction false} PagesConsumeAll(fList: seq<string>, p: Params, suppPage: nat, pages: seq<Page>)
    requires |pages| >= 1 && Closes(pages[|pages| - 1])
    requires forall k :: 0 <= k < |pages| - 1 ==> Continues(pages[k])
    ensures Pages(fList, p, suppPage, Answering(pages)).stop == Finished
    ensures Pages(fList, p, suppPage, Answering(pages)).log.pages == pages
    ensures |Pages(fList, p, suppPage, Answering(pages)).log.requests| == |pages|
    decreases |pages|
  {
    var rs := Answering(pages);
    var page := pages[0];
    assert FetchSpec(rs) == Returned(Some(PageBody(page)), 1, 0);
    ScanLinksMeaning(page.links, p.cursor);
    var scan := ScanLinks(page.links, p.cursor);
    var here := PageLog(fList, p, suppPage, page);
    if |pages| == 1 {
      assert !scan.more by {
        forall i | 0 <= i < |page.links| ensures page.links[i].rel != "next" {
          assert page.links[i].rel in NeutralRels;
        }
      }
      assert PageStep(fList, p, suppPage, rs) == Stopped(Finished, here);
      assert Pages(fList, p, suppPage, rs) == Run(Finished, here);
      assert pages == [page];
    } else {
      assert Continues(page);
      var st := PageStep(fList, p, suppPage, rs);
      assert st == Onward(here, p.(cursor := scan.cursor), suppPage + scan.nexts, 1);
      assert rs[1..] == Answering(pages[1..]);
      PagesConsumeAll(fList, st.next, st.nextPage, pages[1..]);
      var rest := Pages(fList, st.next, st.nextPage, rs[1..]);
      assert Pages(fList, p, suppPage, rs) == Run(rest.stop, Append(here, rest.log));
      assert pages == [page] + pages[1..];
    }
  }

  /**
   * Retrieving from a service that serves `pages` this way ends normally
   * after exactly those pages, and reports the first page's total once.
   */
  lemma RetrieveTerminates(fList: seq<string>, batchSize: int, fromTime: Option<string>, toTime: Option<string>,
                           pages: seq<Page>)
    requires |pages| >= 1 && Closes(pages[|pages| - 1])
    requires forall k :: 0 <= k < |pages| - 1 ==> Continues(pages[k])
    ensures RetrieveSpec(fList, batchSize, fromTime, toTime, Answering(pages)).stop == Finished
    ensures RetrieveSpec(fList, batchSize, fromTime, toTime, Answering(pages)).log.pages == pages
    ensures |RetrieveSpec(fList, batchSize, fromTime, toTime, Answering(pages)).log.requests| == |pages|
    ensures RetrieveSpec(fList, batchSize, fromTime, toTime, Answering(pages)).log.totals == [pages[0].totalCount]
  {
    PagesConsumeAll(fList, InitialParams(batchSize, fromTime, toTime), 1, pages);
    RetrieveTotals(fList, batchSize, fromTime, toTime, Answering(pages));
  }

  /**
   * A fetch that gives no page — a response whose status is neither 200 nor
   * 429, or a 200 whose body is the empty object, after any number of
   * 429s — ends the run on its first request with nothing written but the
   * header row.
   */
  lemma RetrieveStopsOnFailedFetch(fList: seq<string>, batchSize: int, fromTime: Option<string>, toTime: Option<string>,
                                   rs: seq<Response<Body>>, i: nat)
    requires i < |rs| && rs[i].status != 429 && (rs[i].status != 200 || rs[i].json.EmptyObject?)
    requires forall j :: 0 <= j < i ==> rs[j].status == 429
    ensures RetrieveSpec(fList, batchSize, fromTime, toTime, rs).stop == FetchFailed
    ensures RetrieveSpec(fList, batchSize, fromTime, toTime, rs).log.rows == [fList]
    ensures |RetrieveSpec(fList, batchSize, fromTime, toTime, rs).log.requests| == 1
  {
    FetchEndsAtFirstFinal(rs, i);
  }

  /** Appending logs is associative. */
  lemma AppendAssociative(a: Log, b: Log, c: Log)
    ensures Append(Append(a, b), c) == Append(a, Append(b, c))
  {
  }

  /** Resuming before a request is resuming after it, with what the request logged added. */
  lemma ResumeStep(fList: seq<string>, log: Log, p: Params, suppPage: nat, rs: seq<Response<Body>>)
    ensures var st := PageStep(fList, p, suppPage, rs);
            Resume(fList, log, p, suppPage, rs) ==
              if st.Stopped? then Run(st.stop, Append(log, st.here))
              else Resume(fList, Append(log, st.here), st.next, st.nextPage, rs[st.used..])
  {
    var st := PageStep(fList, p, suppPage, rs);
    if st.Onward? {
      AppendAssociative(log, st.here, Pages(fList, st.next, st.nextPage, rs[st.used..]).log);
    }
  }

  /** The loop that writes a page's entries, one projected row each. */
  method WriteResults(fList: seq<string>, results: seq<map<string, string>>) returns (rows: seq<seq<string>>)
    ensures rows == ProjectAll(fList, results)
  {
    rows := [];
    for i := 0 to |results|
      invariant rows == ProjectAll(fList, results[..i])
    {
      assert ProjectAll(fList, results[..i + 1]) == ProjectAll(fList, results[..i]) + [Project(fList, results[i])];
      rows := rows + [Project(fList, results[i])];
    }
    assert results[..|results|] == results;
  }

  /** The loop over a page's links. */
  method FollowLinks(links: seq<Link>, cursor: Cursor) returns (scan: LinkScan)
    ensures scan == ScanLinks(links, cursor)
  {
    var morePages := false;
    var c := cursor;
    var nexts := 0;
    for j := 0 to |links|
      invariant ScanLinks(links[..j], cursor) == LinksOk(morePages, c, nexts)
    {
      var l := links[j];
      assert links[..j + 1][..j] == links[..j];
      if l.rel == "next" {
        if l.cursor.None? {
          LinkAbortPersists(links, j + 1, cursor);
          return LinksAbort(MissingCursor(l));
        }
        c := LinkCursor(l.cursor.value);
        nexts := nexts + 1;
        morePages := true;
      } else if l.rel == "last" || l.rel == "first" || l.rel == "previous" {
        // nothing to do
      } else {
        LinkAbortPersists(links, j + 1, cursor);
        return LinksAbort(UnexpectedLink(l));
      }
    }
    assert links[..|links|] == links;
    return LinksOk(morePages, c, nexts);
  }

  /**
   * One round of the pagination loop of `retrieve`: fetch a page, write its
   * entries, report the total on the initial request, then walk its links to
   * decide whether to go on and with which cursor.
   */
  method Request(fList: seq<string>, p: Params, suppPage: nat, responses: seq<Response<Body>>) returns (st: Step)
    ensures st == PageStep(fList, p, suppPage, responses)
  {
    var log := Log([p], [], [], [], []);
    var fetched := GetSuppressionList(responses);
    if fetched.Pending? {
      return Stopped(Waiting, log);
    }
    var res := fetched.value;
    if res.None? || res.value.EmptyObject? {
      return Stopped(FetchFailed, log);
    }
    var page := res.value.page;
    log := log.(pages := log.pages + [page]);
    var rows := WriteResults(fList, page.results);
    log := log.(rows := log.rows + rows);
    if p.cursor == InitialCursor {
      log := log.(totals := log.totals + [page.totalCount]);
    }
    log := log.(progress := log.progress + [PageReport(suppPage, |page.results|)]);
    assert log == PageLog(fList, p, suppPage, page);
    var scan := FollowLinks(page.links, p.cursor);
    if scan.LinksAbort? {
      return Stopped(scan.stop, log);
    }
    if !scan.more {
      return Stopped(Finished, log);
    }
    return Onward(log, p.(cursor := scan.cursor), suppPage + scan.nexts, fetched.used);
  }

  /**
   * The pagination loop of `retrieve`: write the header row, then request
   * pages for as long as the last one had a "next" link.
   */
  method Retrieve(fList: seq<string>, batchSize: int, fromTime: Option<string>, toTime: Option<string>,
                  responses: seq<Response<Body>>) returns (run: Run)
    ensures run == RetrieveSpec(fList, batchSize, fromTime, toTime, responses)
  {
    var log := Log([], [], [fList], [], []);                 // the header row
    var morePages := true;
    var suppPage: nat := 1;
    var p := Params(InitialCursor, batchSize, None);
    if Truthy(toTime) && Truthy(fromTime) {
      p := p.(range := Some(TimeRange(fromTime.value, toTime.value)));
    }
    var pending := responses;                                // the responses not yet consumed
    ghost var spec := RetrieveSpec(fList, batchSize, fromTime, toTime, responses);
    while morePages
      invariant morePages ==> spec == Resume(fList, log, p, suppPage, pending)
      invariant !morePages ==> spec == Run(Finished, log)
      decreases |pending|, morePages
    {
      var st := Request(fList, p, suppPage, pending);
      ResumeStep(fList, log, p, suppPage, pending);
      log := Append(log, st.here);
      if st.Stopped? && !st.stop.Finished? {
        return Run(st.stop, log);
      }
      morePages := st.Onward?;
      if morePages {
        p, suppPage, pending := st.next, st.nextPage, pending[st.used..];
      }
    }
    return Run(Finished, log);
  }
}
