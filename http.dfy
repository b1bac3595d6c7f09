/** `HTTPParser`: the rate state it owns, its two callbacks and the pause
    before each request, and `search`, which fetches the results page, reads
    the detail links and visits each one in turn. The network is a given
    function from URL to response, the random jitter a given sequence of draws. */
module Http {
  import opened Wrappers
  import opened Seqs
  import opened Models
  import opened Extract
  import opened Listing
  import opened Backoff

  const SearchUrl: string := "https://hh.ru/search/vacancy"

  /** A detail page's HTTP status and, for a page that loads, what it holds. */
  datatype Response = Response(status: int, page: Page)

  /** The `HTTPError` raised by `raise_for_status`. */
  datatype HttpError = HttpError(url: string, status: int)

  /** The counters of the `meta` dictionary that do not depend on the clock. */
  datatype Meta = Meta(totalFound: Option<nat>, count: nat)

  /** A block signal: 403 or 429. */
  predicate IsBlock(status: int) {
    status == 403 || status == 429
  }

  /** A status that `raise_for_status` raises for. */
  predicate IsErrorStatus(status: int) {
    400 <= status < 600
  }

  /** The records so far (or the error that ended the loop) and the rate state. */
  datatype Progress = Progress(outcome: Result<seq<Vacancy>, HttpError>, state: RateState)

  /** One pass of the per-link loop: a block backs off and skips the link, an
      error status aborts, anything else is parsed and counts as a success. */
  function Visit(records: seq<Vacancy>, s: RateState, url: string, r: Response): Progress {
    if IsBlock(r.status) then Progress(Success(records), AfterBlock(s))
    else if IsErrorStatus(r.status) then Progress(Failure(HttpError(url, r.status)), s)
    else Progress(Success(records + [ParseVacancy(r.page, url)]), AfterSuccess(s))
  }

  /** The per-link loop of `search` over `urls`. */
  function Crawl(s: RateState, urls: seq<string>, server: string -> Response): Progress {
    if urls == [] then Progress(Success([]), s)
    else
      var before := Crawl(s, urls[..|urls| - 1], server);
      var url := urls[|urls| - 1];
      match before.outcome
      case Failure(_) => before
      case Success(records) => Visit(records, before.state, url, server(url))
  }

  /** The pauses the loop over `urls` takes, one before each request it
      makes, the request that fails included, with `jitter[k]` drawn before
      the `k`-th request. */
  function Pauses(s: RateState, urls: seq<string>, server: string -> Response, jitter: seq<real>): (ps: seq<real>)
    requires |jitter| >= |urls|
    ensures |ps| <= |urls|
  {
    if urls == [] then []
    else
      var init := urls[..|urls| - 1];
      var before := Crawl(s, init, server);
      var ps := Pauses(s, init, server, jitter);
      if before.outcome.Failure? then ps else ps + [Pause(before.state.delay, jitter[|urls| - 1])]
  }

  /** What `search` returns and the rate state it leaves behind. */
  datatype SearchRun = SearchRun(outcome: Result<(seq<Vacancy>, Meta), HttpError>, state: RateState)

  function RunSearch(s: RateState, searchStatus: int, page: SearchPage, limit: int,
                     server: string -> Response): SearchRun
  {
    if IsErrorStatus(searchStatus) then SearchRun(Failure(HttpError(SearchUrl, searchStatus)), s)
    else
      var crawl := Crawl(s, Links(page, limit), server);
      match crawl.outcome
      case Failure(e) => SearchRun(Failure(e), crawl.state)
      case Success(records) => SearchRun(Success((records, Meta(TotalFound(page), |records|))), crawl.state)
  }

  // ---------- the loop, step by step, against independent readings ----------

  /** A loop that does not fail pauses once before every link. */
  lemma {:induction false} PausesOnSuccess(s: RateState, urls: seq<string>, server: string -> Response, jitter: seq<real>)
    requires |jitter| >= |urls| && Crawl(s, urls, server).outcome.Success?
    ensures |Pauses(s, urls, server, jitter)| == |urls|
  {
    if urls != [] {
      PausesOnSuccess(s, urls[..|urls| - 1], server, jitter);
    }
  }

  /** A loop that fails stops pausing at the failing link: its last pause is
      the one before the request that failed. */
  lemma {:induction false} PausesOnFailure(s: RateState, urls: seq<string>, server: string -> Response, jitter: seq<real>)
    requires |jitter| >= |urls| && Crawl(s, urls, server).outcome.Failure?
    ensures var ps := Pauses(s, urls, server, jitter);
      0 < |ps| &&
      Crawl(s, urls[..|ps| - 1], server).outcome.Success? &&
      Crawl(s, urls[..|ps|], server).outcome.Failure?
  {
    var init := urls[..|urls| - 1];
    var ps0 := Pauses(s, init, server, jitter);
    if Crawl(s, init, server).outcome.Failure? {
      PausesOnFailure(s, init, server, jitter);
      assert urls[..|ps0| - 1] == init[..|ps0| - 1];
      assert urls[..|ps0|] == init[..|ps0|];
    } else {
      PausesOnSuccess(s, init, server, jitter);
      assert urls[..|urls|] == urls;
    }
  }

  /** The loop pauses before every link it requests and stops pausing after
      a failure. */
  lemma PausesCount(s: RateState, urls: seq<string>, server: string -> Response, jitter: seq<real>)
    requires |jitter| >= |urls|
    ensures var ps := Pauses(s, urls, server, jitter);
      (Crawl(s, urls, server).outcome.Success? ==> |ps| == |urls|) &&
      (Crawl(s, urls, server).outcome.Failure? ==> (0 < |ps| &&
        Crawl(s, urls[..|ps| - 1], server).outcome.Success? &&
        Crawl(s, urls[..|ps|], server).outcome.Failure?))
  {
    if Crawl(s, urls, server).outcome.Success? {
      PausesOnSuccess(s, urls, server, jitter);
    } else {
      PausesOnFailure(s, urls, server, jitter);
    }
  }

  /** The `k`-th pause is the delay reached after the first `k` links plus
      `jitter[k]`, floored at zero. */
  lemma {:induction false} PauseAt(s: RateState, urls: seq<string>, server: string -> Response, jitter: seq<real>, k: nat)
    requires |jitter| >= |urls| && k < |Pauses(s, urls, server, jitter)|
    ensures Pauses(s, urls, server, jitter)[k] == Pause(Crawl(s, urls[..k], server).state.delay, jitter[k])
  {
    var init := urls[..|urls| - 1];
    var ps0 := Pauses(s, init, server, jitter);
    if k < |ps0| {
      PauseAt(s, init, server, jitter, k);
      assert urls[..k] == init[..k];
    } else {
      PausesCount(s, init, server, jitter);
      assert urls[..k] == init;
    }
  }

  /** Every pause the loop takes, by its position. */
  lemma PausesSpec(s: RateState, urls: seq<string>, server: string -> Response, jitter: seq<real>)
    requires |jitter| >= |urls|
    ensures var ps := Pauses(s, urls, server, jitter);
      (Crawl(s, urls, server).outcome.Success? ==> |ps| == |urls|) &&
      (Crawl(s, urls, server).outcome.Failure? ==> (0 < |ps| &&
        Crawl(s, urls[..|ps| - 1], server).outcome.Success? &&
        Crawl(s, urls[..|ps|], server).outcome.Failure?)) &&
      forall k :: 0 <= k < |ps| ==> ps[k] == Pause(Crawl(s, urls[..k], server).state.delay, jitter[k])
  {
    PausesCount(s, urls, server, jitter);
    forall k | 0 <= k < |Pauses(s, urls, server, jitter)|
      ensures Pauses(s, urls, server, jitter)[k] == Pause(Crawl(s, urls[..k], server).state.delay, jitter[k])
    {
      PauseAt(s, urls, server, jitter, k);
    }
  }

  /** The records the loop should produce: one per link that is not blocked,
      in link order, whatever the rate state. */
  function Parsed(urls: seq<string>, server: string -> Response): seq<Vacancy> {
    if urls == [] then []
    else
      var url := urls[|urls| - 1];
      Parsed(urls[..|urls| - 1], server) + (if IsBlock(server(url).status) then [] else [ParseVacancy(server(url).page, url)])
  }

  /** A link whose response aborts the search. */
  predicate Fatal(status: int) {
    IsErrorStatus(status) && !IsBlock(status)
  }

  /** The loop runs to the end exactly when no link answers with a
      non-block error. */
  lemma {:induction false} CrawlSucceedsIff(s: RateState, urls: seq<string>, server: string -> Response)
    ensures Crawl(s, urls, server).outcome.Success? <==>
      forall i :: 0 <= i < |urls| ==> !Fatal(server(urls[i]).status)
  {
    if urls != [] {
      var init := urls[..|urls| - 1];
      CrawlSucceedsIff(s, init, server);
      assert forall i :: 0 <= i < |init| ==> init[i] == urls[i];
    }
  }

  /** A loop that runs to the end yields `Parsed`. */
  lemma {:induction false} CrawlSucceeds(s: RateState, urls: seq<string>, server: string -> Response)
    requires Crawl(s, urls, server).outcome.Success?
    ensures Crawl(s, urls, server).outcome.value == Parsed(urls, server)
  {
    if urls != [] {
      CrawlSucceeds(s, urls[..|urls| - 1], server);
    }
  }

  /** When the loop aborts, it names the first link that answered with a
      non-block error, and its status. */
  lemma {:induction false} CrawlFails(s: RateState, urls: seq<string>, server: string -> Response)
    requires Crawl(s, urls, server).outcome.Failure?
    ensures exists i :: (0 <= i < |urls| && Fatal(server(urls[i]).status) &&
      (forall j :: 0 <= j < i ==> !Fatal(server(urls[j]).status)) &&
      Crawl(s, urls, server).outcome.error == HttpError(urls[i], server(urls[i]).status))
  {
    var n := |urls| - 1;
    var init := urls[..n];
    var before := Crawl(s, init, server);
    assert forall i :: 0 <= i < |init| ==> init[i] == urls[i];
    if before.outcome.Failure? {
      CrawlFails(s, init, server);
      var i :| 0 <= i < |init| && Fatal(server(init[i]).status) &&
        (forall j :: 0 <= j < i ==> !Fatal(server(init[j]).status)) &&
        before.outcome.error == HttpError(init[i], server(init[i]).status);
      assert Crawl(s, urls, server) == before;
    } else {
      CrawlSucceedsIff(s, init, server);
      assert Fatal(server(urls[n]).status);
    }
  }

  /** The loop aborts exactly when some link answers with a non-block error,
      and then names the first such link; otherwise it yields `Parsed`. */
  lemma CrawlOutcome(s: RateState, urls: seq<string>, server: string -> Response)
    ensures Crawl(s, urls, server).outcome.Success? <==>
      forall i :: 0 <= i < |urls| ==> !Fatal(server(urls[i]).status)
    ensures Crawl(s, urls, server).outcome.Success? ==>
      Crawl(s, urls, server).outcome.value == Parsed(urls, server)
    ensures Crawl(s, urls, server).outcome.Failure? ==>
      exists i :: 0 <= i < |urls| && Fatal(server(urls[i]).status) &&
        (forall j :: 0 <= j < i ==> !Fatal(server(urls[j]).status)) &&
        Crawl(s, urls, server).outcome.error == HttpError(urls[i], server(urls[i]).status)
  {
    CrawlSucceedsIff(s, urls, server);
    if Crawl(s, urls, server).outcome.Success? {
      CrawlSucceeds(s, urls, server);
    } else {
      CrawlFails(s, urls, server);
    }
  }

  /** The loop keeps the delay between base and ceiling. */
  lemma {:induction false} CrawlKeepsBounded(s: RateState, urls: seq<string>, server: string -> Response)
    requires Bounded(s)
    ensures Bounded(Crawl(s, urls, server).state)
  {
    if urls != [] {
      CrawlKeepsBounded(s, urls[..|urls| - 1], server);
      StepsKeepBounded(Crawl(s, urls[..|urls| - 1], server).state);
    }
  }

  /** If every link is blocked, the loop yields no record and the delay has
      been doubled once per link, up to the ceiling. */
  lemma {:induction false} AllBlockedCrawl(s: RateState, urls: seq<string>, server: string -> Response)
    requires forall i :: 0 <= i < |urls| ==> IsBlock(server(urls[i]).status)
    requires 0.0 <= s.delay <= MaxDelay
    ensures Crawl(s, urls, server) == Progress(Success([]), Blocks(s, |urls|))
  {
    if urls != [] {
      AllBlockedCrawl(s, urls[..|urls| - 1], server);
    }
  }

  /** A search whose every detail page is blocked still returns, with no
      record and a count of 0, and leaves the delay doubled once per link. */
  lemma AllBlockedSearch(s: RateState, searchStatus: int, page: SearchPage, limit: int, server: string -> Response)
    requires !IsErrorStatus(searchStatus)
    requires forall u :: IsBlock(server(u).status)
    requires 0.0 <= s.delay <= MaxDelay
    ensures RunSearch(s, searchStatus, page, limit, server).outcome == Success(([], Meta(TotalFound(page), 0)))
    ensures RunSearch(s, searchStatus, page, limit, server).state == Blocks(s, |Links(page, limit)|)
  {
    AllBlockedCrawl(s, Links(page, limit), server);
  }

  /** Every record of a search comes from one of its links, carries that
      link as its URL and the id read from it, and the count is the number
      of records. */
  lemma SearchRecords(s: RateState, searchStatus: int, page: SearchPage, limit: int, server: string -> Response)
    ensures RunSearch(s, searchStatus, page, limit, server).outcome.Success? <==>
      !IsErrorStatus(searchStatus) &&
      forall i :: 0 <= i < |Links(page, limit)| ==> !Fatal(server(Links(page, limit)[i]).status)
    ensures RunSearch(s, searchStatus, page, limit, server).outcome.Success? ==>
      var (records, meta) := RunSearch(s, searchStatus, page, limit, server).outcome.value;
      && meta.count == |records| && meta.totalFound == TotalFound(page)
      && records == Parsed(Links(page, limit), server)
      && (forall v :: v in records ==> v.url in Links(page, limit) && v.id == ExtractIdFromUrl(v.url))
      && (0 <= limit ==> |records| <= limit)
  {
    var links := Links(page, limit);
    CrawlOutcome(s, links, server);
    ParsedFromLinks(links, server);
    LinksSpec(page, limit);
  }

  lemma {:induction false} ParsedFromLinks(urls: seq<string>, server: string -> Response)
    ensures |Parsed(urls, server)| <= |urls|
    ensures forall v :: v in Parsed(urls, server) ==> v.url in urls && v.id == ExtractIdFromUrl(v.url)
  {
    if urls != [] {
      ParsedFromLinks(urls[..|urls| - 1], server);
      assert forall u :: u in urls[..|urls| - 1] ==> u in urls;
    }
  }

  // ---------- the parser object ----------

  class HTTPParser {
    var currentDelay: real
    var successStreak: nat

    /** The rate part of `__init__`. */
    constructor ()
      ensures State() == Initial
    {
      currentDelay := BaseDelay;
      successStreak := 0;
    }

    function State(): RateState
      reads this
    {
      RateState(currentDelay, successStreak)
    }

    /** `_sleep_with_jitter` for the jitter `j` drawn from `[-jitter, jitter]`:
        the pause, and whether it is long enough to be slept. */
    method SleepWithJitter(j: real) returns (pause: real, slept: bool)
      requires -Jitter <= j <= Jitter
      ensures pause >= 0.0
      ensures currentDelay + j >= 0.0 ==> pause == currentDelay + j
      ensures currentDelay + j < 0.0 ==> pause == 0.0
      ensures slept <==> pause >= MinSleep
    {
      pause := Pause(currentDelay, j);
      slept := Sleeps(pause);
    }

    /** `_on_block`. */
    method OnBlock(status: int, url: string)
      modifies this
      ensures State() == AfterBlock(old(State()))
    {
      currentDelay := Min(currentDelay * BackoffFactor, MaxDelay);
      successStreak := 0;
    }

    /** `_on_success`. */
    method OnSuccess()
      modifies this
      ensures State() == AfterSuccess(old(State()))
    {
      successStreak := successStreak + 1;
      if successStreak >= SuccessToRelax && currentDelay > BaseDelay {
        currentDelay := Max(BaseDelay, BaseDelay + 0.9 * (currentDelay - BaseDelay));
        successStreak := 0;
      }
    }

    /** `search`, given the results page's status and content, the server's
        answer for each URL and the jitter drawn before each request. It
        returns the result and the pause taken before each request. */
    method Search(searchStatus: int, page: SearchPage, limit: int,
                  server: string -> Response, jitter: seq<real>)
      returns (result: Result<(seq<Vacancy>, Meta), HttpError>, pauses: seq<real>)
      requires |jitter| >= |Links(page, limit)|
      requires forall k :: 0 <= k < |jitter| ==> -Jitter <= jitter[k] <= Jitter
      modifies this
      ensures result == RunSearch(old(State()), searchStatus, page, limit, server).outcome
      ensures State() == RunSearch(old(State()), searchStatus, page, limit, server).state
      ensures |pauses| <= |Links(page, limit)|
      ensures IsErrorStatus(searchStatus) ==> pauses == []
      ensures !IsErrorStatus(searchStatus) && result.Success? ==> |pauses| == |Links(page, limit)|
      ensures !IsErrorStatus(searchStatus) && result.Failure? ==> (0 < |pauses| &&
        Crawl(old(State()), Links(page, limit)[..|pauses| - 1], server).outcome.Success? &&
        Crawl(old(State()), Links(page, limit)[..|pauses|], server).outcome.Failure?)
      ensures !IsErrorStatus(searchStatus) ==> forall k :: 0 <= k < |pauses| ==>
        pauses[k] == Pause(Crawl(old(State()), Links(page, limit)[..k], server).state.delay, jitter[k])
      ensures Bounded(old(State())) ==> forall p :: p in pauses ==> Sleeps(p) && p <= MaxDelay + Jitter
    {
      pauses := [];
      if IsErrorStatus(searchStatus) {
        result := Failure(HttpError(SearchUrl, searchStatus));
        return;
      }
      var total := TotalFound(page);
      var uniq := DedupLinks(CandidateLinks(page), limit);
      var outcome;
      outcome, pauses := VisitAll(uniq, server, jitter);
      match outcome
      case Failure(e) =>
        result := Failure(e);
      case Success(out) =>
        result := Success((out, Meta(total, |out|)));
    }

    /** The per-link loop of `search`: a pause, a request, then the reaction
        to its status, for each link in order until one fails. */
    method VisitAll(urls: seq<string>, server: string -> Response, jitter: seq<real>)
      returns (outcome: Result<seq<Vacancy>, HttpError>, pauses: seq<real>)
      requires |jitter| >= |urls|
      requires forall k :: 0 <= k < |jitter| ==> -Jitter <= jitter[k] <= Jitter
      modifies this
      ensures Progress(outcome, State()) == Crawl(old(State()), urls, server)
      ensures |pauses| <= |urls|
      ensures pauses == Pauses(old(State()), urls, server, jitter)
      ensures outcome.Success? ==> |pauses| == |urls|
      ensures outcome.Failure? ==> (0 < |pauses| &&
        Crawl(old(State()), urls[..|pauses| - 1], server).outcome.Success? &&
        Crawl(old(State()), urls[..|pauses|], server).outcome.Failure?)
      ensures forall k :: 0 <= k < |pauses| ==>
        pauses[k] == Pause(Crawl(old(State()), urls[..k], server).state.delay, jitter[k])
      ensures Bounded(old(State())) ==> forall p :: p in pauses ==> Sleeps(p) && p <= MaxDelay + Jitter
    {
      pauses := [];
      ghost var s0 := State();
      var out: seq<Vacancy> := [];
      var i := 0;
      while i < |urls|
        invariant 0 <= i <= |urls| && |pauses| == i
        invariant Crawl(s0, urls[..i], server) == Progress(Success(out), State())
        invariant pauses == Pauses(s0, urls[..i], server, jitter)
        invariant Bounded(s0) ==> Bounded(State())
        invariant Bounded(s0) ==> forall p :: p in pauses ==> Sleeps(p) && p <= MaxDelay + Jitter
      {
        var url := urls[i];
        if Bounded(s0) {
          PauseWithinJitter(State(), jitter[i]);
          StepsKeepBounded(State());
        }
        var pause, slept := SleepWithJitter(jitter[i]);
        LoopStep(s0, urls, i, server, jitter, out, State(), pauses, pause);
        pauses := pauses + [pause];
        var step := VisitLink(out, url, server(url));
        if step.Failure? {
          outcome := step;
          FailedAt(s0, urls, i, server, jitter);
          PausesSpec(s0, urls, server, jitter);
          return;
        }
        out := step.value;
        i := i + 1;
      }
      assert urls[..i] == urls;
      outcome := Success(out);
      PausesSpec(s0, urls, server, jitter);
    }

    /** One pass of the per-link loop, after the request: a block backs off,
        an error status aborts, anything else is parsed and counts as a
        success. */
    method VisitLink(records: seq<Vacancy>, url: string, rr: Response)
      returns (outcome: Result<seq<Vacancy>, HttpError>)
      modifies this
      ensures Progress(outcome, State()) == Visit(records, old(State()), url, rr)
    {
      if IsBlock(rr.status) {
        OnBlock(rr.status, url);
        outcome := Success(records);
      } else if IsErrorStatus(rr.status) {
        outcome := Failure(HttpError(url, rr.status));
      } else {
        var item := ParseVacancy(rr.page, url);
        outcome := Success(records + [item]);
        OnSuccess();
      }
    }
  }

  /** One more link: the loop so far, then that link's visit unless it had
      already failed. */
  lemma CrawlStep(s: RateState, urls: seq<string>, i: nat, server: string -> Response)
    requires i < |urls|
    ensures var before := Crawl(s, urls[..i], server);
      Crawl(s, urls[..i + 1], server) ==
        if before.outcome.Failure? then before
        else Visit(before.outcome.value, before.state, urls[i], server(urls[i]))
  {
    assert urls[..i + 1][..i] == urls[..i];
  }

  /** The loop's bookkeeping for one more link after a successful prefix:
      one more pause at the delay reached, then that link's visit. */
  lemma LoopStep(s0: RateState, urls: seq<string>, i: nat, server: string -> Response, jitter: seq<real>,
                 out: seq<Vacancy>, st: RateState, pauses: seq<real>, pause: real)
    requires i < |urls| <= |jitter|
    requires Crawl(s0, urls[..i], server) == Progress(Success(out), st)
    requires pauses == Pauses(s0, urls[..i], server, jitter)
    requires pause == Pause(st.delay, jitter[i])
    ensures Pauses(s0, urls[..i + 1], server, jitter) == pauses + [pause]
    ensures Crawl(s0, urls[..i + 1], server) == Visit(out, st, urls[i], server(urls[i]))
  {
    CrawlStep(s0, urls, i, server);
    PausesStep(s0, urls, i, server, jitter);
  }

  /** One more link: the pauses so far, then one more unless the loop had
      already failed. */
  lemma PausesStep(s: RateState, urls: seq<string>, i: nat, server: string -> Response, jitter: seq<real>)
    requires i < |urls| <= |jitter|
    ensures var before := Crawl(s, urls[..i], server);
      Pauses(s, urls[..i + 1], server, jitter) ==
        if before.outcome.Failure? then Pauses(s, urls[..i], server, jitter)
        else Pauses(s, urls[..i], server, jitter) + [Pause(before.state.delay, jitter[i])]
  {
    assert urls[..i + 1][..i] == urls[..i];
  }

  /** A loop that fails at link `i` ends there: the links after it change
      neither the outcome, the state nor the pauses. */
  lemma FailedAt(s: RateState, urls: seq<string>, i: nat, server: string -> Response, jitter: seq<real>)
    requires i < |urls| <= |jitter|
    requires Crawl(s, urls[..i + 1], server).outcome.Failure?
    ensures Crawl(s, urls, server) == Crawl(s, urls[..i + 1], server)
    ensures Pauses(s, urls, server, jitter) == Pauses(s, urls[..i + 1], server, jitter)
  {
    assert urls[..i + 1] + urls[i + 1..] == urls;
    FailureStays(s, urls[..i + 1], urls[i + 1..], server);
    PausesStay(s, urls[..i + 1], urls[i + 1..], server, jitter);
  }

  /** Once the loop has failed, later links add no pause. */
  lemma {:induction false} PausesStay(s: RateState, done: seq<string>, rest: seq<string>,
                                      server: string -> Response, jitter: seq<real>)
    requires |jitter| >= |done + rest|
    requires Crawl(s, done, server).outcome.Failure?
    ensures Pauses(s, done + rest, server, jitter) == Pauses(s, done, server, jitter)
    decreases |rest|
  {
    if rest != [] {
      var init := rest[..|rest| - 1];
      assert (done + rest)[..|done + rest| - 1] == done + init;
      PausesStay(s, done, init, server, jitter);
      FailureStays(s, done, init, server);
    } else {
      assert done + rest == done;
    }
  }

  /** Once the loop has failed, later links change nothing. */
  lemma {:induction false} FailureStays(s: RateState, done: seq<string>, rest: seq<string>, server: string -> Response)
    requires Crawl(s, done, server).outcome.Failure?
    ensures Crawl(s, done + rest, server) == Crawl(s, done, server)
    decreases |rest|
  {
    if rest != [] {
      var init := rest[..|rest| - 1];
      assert (done + rest)[..|done + rest| - 1] == done + init;
      FailureStays(s, done, init, server);
    } else {
      assert done + rest == done;
    }
  }
}
