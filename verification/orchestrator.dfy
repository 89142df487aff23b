/** One run of `main`: scrape every registered career page, diff the scrapes
    against the stored state, and, only when something is new, send the
    notification and then store the updated state. Fetching a page and
    delivering the mail are outside the model; their outcomes are inputs
    (a page fetch either yields the page's `href` values or raises, the mail
    is either delivered or raises), and a raised exception ends the run. */
module Orchestrator {
  import opened Util
  import opened DiffEngine
  import JobLinks
  import Notifier

  /** What fetching one career page gave. */
  datatype Fetch = Fetched(hrefs: seq<string>) | FetchFailed

  /** The result of fetching each URL. */
  type Pages = map<string, Fetch>

  /** An observable side effect of a run, in the order it happens. */
  datatype Effect = Email(body: string) | Save(state: KnownState)

  /** How a run ends: notified and saved, nothing new to report, or ended
      by an exception (failed fetch or failed mail delivery). */
  datatype Outcome = Reported | NothingNew | Aborted

  datatype RunResult = RunResult(effects: seq<Effect>, outcome: Outcome)

  /** Every registered URL has a fetch result. */
  predicate PagesFor(registry: Registry, pages: Pages)
  {
    forall i :: 0 <= i < |registry| ==> registry[i].1 in pages
  }

  /** Every registered page was fetched without an exception. */
  predicate AllFetched(registry: Registry, pages: Pages)
    requires PagesFor(registry, pages)
  {
    forall i :: 0 <= i < |registry| ==> pages[registry[i].1].Fetched?
  }

  /** The job links of every registered company, or None as soon as one
      fetch raises (`scrape_jobs` does not catch the exception). */
  function ScrapeAll(registry: Registry, pages: Pages): (r: Option<Scrapes>)
    requires PagesFor(registry, pages)
    ensures r.Some? <==> AllFetched(registry, pages)
    ensures r.Some? ==> ScrapedAll(registry, r.value)
    ensures r.Some? ==> forall c :: c in r.value ==> c in Names(registry)
    ensures r.Some? ==> forall i :: 0 <= i < |registry| ==> registry[i].0 in r.value
    decreases |registry|
  {
    if |registry| == 0 then Some(map[])
    else
      var c := registry[0].0;
      var url := registry[0].1;
      assert Names(registry) == [c] + Names(registry[1..]);
      var rest := ScrapeAll(registry[1..], pages);
      assert forall i :: 0 <= i < |registry[1..]| ==> registry[1..][i] == registry[i + 1];
      match pages[url]
      case FetchFailed => None
      case Fetched(hrefs) =>
        if rest.None? then None
        else Some(rest.value[c := JobLinks.ExtractJobLinks(hrefs)])
  }

  /** With distinct company names, each company's scrape is the job links of
      its own page. */
  lemma {:induction false} ScrapeAllValue(registry: Registry, pages: Pages, i: nat)
    requires PagesFor(registry, pages)
    requires DistinctNames(registry)
    requires AllFetched(registry, pages)
    requires i < |registry|
    ensures ScrapeAll(registry, pages).value[registry[i].0] ==
            JobLinks.ExtractJobLinks(pages[registry[i].1].hrefs)
    decreases |registry|
  {
    if i > 0 {
      var tail := registry[1..];
      assert tail[i - 1] == registry[i];
      assert AllFetched(tail, pages) by {
        assert forall j :: 0 <= j < |tail| ==> tail[j] == registry[j + 1];
      }
      ScrapeAllValue(tail, pages, i - 1);
      NameOf(tail, i - 1);
    }
  }

  /** The name at position `i` is among the names. */
  lemma {:induction false} NameOf<V>(entries: seq<(Company, V)>, i: nat)
    requires i < |entries|
    ensures entries[i].0 in Names(entries)
    decreases |entries|
  {
    if i > 0 {
      NameOf(entries[1..], i - 1);
    }
  }

  /** The diff of a run, or None when a fetch raised before it. */
  function RunDiff(registry: Registry, pages: Pages, known: KnownState): (d: Option<DiffResult>)
    requires PagesFor(registry, pages)
    ensures d.Some? <==> AllFetched(registry, pages)
  {
    var scrapes := ScrapeAll(registry, pages);
    if scrapes.None? then None else Some(ComputeNewJobs(registry, scrapes.value, known))
  }

  /** One run of `main` (job_scaper.py:70-91). */
  function Run(registry: Registry, pages: Pages, known: KnownState, mailDelivered: bool): (r: RunResult)
    requires PagesFor(registry, pages)
    ensures var d := RunDiff(registry, pages, known);
            r.outcome == Reported <==> d.Some? && d.value.digest != [] && mailDelivered
    ensures var d := RunDiff(registry, pages, known);
            r.outcome == NothingNew <==> d.Some? && d.value.digest == []
    ensures r.outcome != Reported ==> r.effects == []
    ensures forall j :: 0 <= j < |r.effects| && r.effects[j].Save? ==> j > 0 && r.effects[j - 1].Email?
    ensures (exists j :: 0 <= j < |r.effects| && r.effects[j].Save?) <==> r.outcome == Reported
    ensures r.outcome != Reported ==> Persisted(known, r.effects) == known
  {
    var d := RunDiff(registry, pages, known);
    if d.None? then RunResult([], Aborted)
    else if d.value.digest == [] then RunResult([], NothingNew)
    else if !mailDelivered then RunResult([], Aborted)
    else
      var effects := [Email(Notifier.FormatBody(d.value.digest)), Save(d.value.known)];
      assert effects[1].Save?;
      RunResult(effects, Reported)
  }

  /** The stored state after a sequence of effects: the state of the last
      save, or the state the run started from when nothing was saved. */
  function Persisted(known: KnownState, effects: seq<Effect>): KnownState
    decreases |effects|
  {
    if |effects| == 0 then known
    else
      match effects[|effects| - 1]
      case Save(state) => state
      case Email(_) => Persisted(known, effects[..|effects| - 1])
  }

  /** A reporting run mails the body formatted from the digest and then
      stores the updated state: the state after the diff becomes the new
      stored state, and the mail has one line per new link. */
  lemma {:induction false} ReportedRun(registry: Registry, pages: Pages, known: KnownState, mailDelivered: bool)
    requires PagesFor(registry, pages)
    ensures var r := Run(registry, pages, known, mailDelivered);
            r.outcome == Reported ==>
              var diff := RunDiff(registry, pages, known).value;
              && r.effects == [Email(Notifier.FormatBody(diff.digest)), Save(diff.known)]
              && Persisted(known, r.effects) == diff.known
              && Notifier.TotalLinks(diff.digest) > 0
  {
    var r := Run(registry, pages, known, mailDelivered);
    if r.outcome == Reported {
      var diff := RunDiff(registry, pages, known).value;
      PassDigest(registry, ScrapeAll(registry, pages).value, known);
      Notifier.SomeLink(diff.digest);
    }
  }

  /** After a run that reported, running again on the stored state with the
      same pages reports nothing and has no effect. */
  lemma {:induction false} RerunIsQuiet(registry: Registry, pages: Pages, known: KnownState, mail1: bool, mail2: bool)
    requires PagesFor(registry, pages)
    requires DistinctNames(registry)
    requires AllFetched(registry, pages)
    ensures var r1 := Run(registry, pages, known, mail1);
            var r2 := Run(registry, pages, Persisted(known, r1.effects), mail2);
            r1.outcome == Reported ==> r2.outcome == NothingNew && r2.effects == []
  {
    var scrapes := ScrapeAll(registry, pages).value;
    Idempotent(registry, scrapes, known);
    ReportedRun(registry, pages, known, mail1);
  }

  /** A link mailed for a company in one run is not mailed for it again in
      the following run, whatever that run's pages are. */
  lemma {:induction false} NeverMailedTwice(registry: Registry, pages1: Pages, pages2: Pages, known: KnownState,
                         mail1: bool, c: Company, l: Link)
    requires PagesFor(registry, pages1) && PagesFor(registry, pages2)
    requires DistinctNames(registry)
    requires AllFetched(registry, pages1) && AllFetched(registry, pages2)
    ensures var r1 := Run(registry, pages1, known, mail1);
            var d1 := RunDiff(registry, pages1, known).value.digest;
            var d2 := RunDiff(registry, pages2, Persisted(known, r1.effects)).value.digest;
            var e1 := Lookup(d1, c);
            var e2 := Lookup(d2, c);
            r1.outcome == Reported && e1.Some? && e2.Some? && l in e1.value ==> l !in e2.value
  {
    var s1 := ScrapeAll(registry, pages1).value;
    var s2 := ScrapeAll(registry, pages2).value;
    ReportedRun(registry, pages1, known, mail1);
    NeverReportedTwice(registry, s1, known, registry, s2, c, l);
  }

  /** The loop of `main` as the source runs it (job_scaper.py:75-84): fetch
      a page and diff its company's links before fetching the next, and stop
      at the first fetch that raises. */
  method FetchAndDiff(registry: Registry, pages: Pages, known: KnownState)
    returns (fetched: bool, digest: Digest, state: KnownState)
    requires PagesFor(registry, pages)
    requires DistinctNames(registry)
    ensures fetched <==> AllFetched(registry, pages)
    ensures fetched ==> RunDiff(registry, pages, known) == Some(DiffResult(digest, state))
  {
    ghost var all := AllFetched(registry, pages);
    ghost var scrapes: Scrapes := if all then ScrapeAll(registry, pages).value else map[];
    ghost var whole := if all then ComputeNewJobs(registry, scrapes, known) else DiffResult([], known);
    digest, state := [], known;
    assert registry[0..] == registry;
    var i := 0;
    while i < |registry|
      invariant 0 <= i <= |registry|
      invariant forall j :: 0 <= j < i ==> pages[registry[j].1].Fetched?
      invariant all ==> ScrapedAll(registry[i..], scrapes)
      invariant all ==> digest + ComputeNewJobs(registry[i..], scrapes, state).digest == whole.digest
      invariant all ==> ComputeNewJobs(registry[i..], scrapes, state).known == whole.known
    {
      var page := pages[registry[i].1];
      if page.FetchFailed? {
        return false, digest, state;
      }
      var jobs := JobLinks.ScrapeJobs(page.hrefs);
      ghost var before, prior := digest, state;
      var entry;
      entry, state := ProcessCompany(registry[i].0, jobs, state);
      digest := digest + entry;
      if all {
        ScrapeAllValue(registry, pages, i);
        StepFrom(registry, i, scrapes, before, prior, entry, state, whole);
      }
      i := i + 1;
    }
    assert registry[|registry|..] == [];
    assert digest + [] == digest;
    fetched := true;
  }

  /** `main` as the source runs it: the loop above, then the mail and, once
      the mail is out, the save (job_scaper.py:86-91). Its effects and
      outcome are those of `Run`. */
  method MainLoop(registry: Registry, pages: Pages, known: KnownState, mailDelivered: bool)
    returns (effects: seq<Effect>, outcome: Outcome)
    requires PagesFor(registry, pages)
    requires DistinctNames(registry)
    ensures RunResult(effects, outcome) == Run(registry, pages, known, mailDelivered)
  {
    var fetched, digest, state := FetchAndDiff(registry, pages, known);
    if !fetched {
      return [], Aborted;
    }
    if digest == [] {
      return [], NothingNew;
    }
    if !mailDelivered {
      return [], Aborted;
    }
    effects := [Email(Notifier.FormatBody(digest)), Save(state)];
    outcome := Reported;
  }
}
