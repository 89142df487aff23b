/** The diff engine of `main`: for each registered company, in registry
    order, the scraped links that are not yet known become the company's new
    links; they are reported in the digest and appended to the known state. */
module DiffEngine {
  import opened Util

  type Company = string
  type Link = string

  /** The company registry (`companies.json`): company name and career-page
      URL, in the registry's order. A JSON object has distinct keys, which
      `DistinctNames` states where a property needs it. */
  type Registry = seq<(Company, string)>

  /** The persisted known-jobs state (`jobs_data.json`). */
  type KnownState = map<Company, seq<Link>>

  /** The job links scraped for each company in this run. */
  type Scrapes = map<Company, seq<Link>>

  /** The new links found per company (`new_jobs`), in insertion order. */
  type Digest = seq<(Company, seq<Link>)>

  /** What one pass over the registry produces: the digest and the updated
      known state. */
  datatype DiffResult = DiffResult(digest: Digest, known: KnownState)

  /** The company names of a registry or a digest, in order. */
  function Names<V>(entries: seq<(Company, V)>): seq<Company>
  {
    if |entries| == 0 then [] else [entries[0].0] + Names(entries[1..])
  }

  /** No company name occurs twice: each differs from all later ones. */
  predicate DistinctNames(registry: Registry)
  {
    |registry| == 0 || (registry[0].0 !in Names(registry[1..]) && DistinctNames(registry[1..]))
  }

  /** Every registered company has been scraped. */
  predicate ScrapedAll(registry: Registry, scrapes: Scrapes)
  {
    forall c :: c in Names(registry) ==> c in scrapes
  }

  /** The links known for a company before it is processed; a company
      without an entry counts as knowing nothing. */
  function Prior(known: KnownState, c: Company): seq<Link>
  {
    if c in known then known[c] else []
  }

  /** The scraped links not in the known list, in scrape order. Duplicates
      within the scrape are all kept: the membership test reads the known
      list as it was before this company's new links were appended. */
  function NewLinks(scraped: seq<Link>, known: seq<Link>): (found: seq<Link>)
    ensures IsSubsequence(found, scraped)
    ensures forall l :: l in found <==> l in scraped && l !in known
  {
    Filter(scraped, l => l !in known)
  }

  /** A new link occurs in the result as often as it was scraped: duplicates
      within one scrape are not collapsed. */
  lemma NewLinksCount(scraped: seq<Link>, known: seq<Link>, l: Link)
    ensures multiset(NewLinks(scraped, known))[l] == if l in known then 0 else multiset(scraped)[l]
  {
    FilterCount(scraped, l => l !in known, l);
  }

  /** One iteration of the loop in `main` for company `c`: the company gets
      an entry if it had none (job_scaper.py:77-78); its new links, if any,
      form its digest entry and are appended to its known list
      (job_scaper.py:81-84). Appending no links leaves the list as it is, so
      the append is written unconditionally. */
  function Advance(c: Company, scraped: seq<Link>, known: KnownState): DiffResult
  {
    var prior := Prior(known, c);
    var found := NewLinks(scraped, prior);
    DiffResult(if found == [] then [] else [(c, found)], known[c := prior + found])
  }

  /** The pass of `main` over the registry (job_scaper.py:75-84): process
      the companies front to back, threading the known state through them. */
  function ComputeNewJobs(registry: Registry, scrapes: Scrapes, known: KnownState): DiffResult
    requires ScrapedAll(registry, scrapes)
    decreases |registry|
  {
    if |registry| == 0 then DiffResult([], known)
    else
      var c := registry[0].0;
      assert Names(registry) == [c] + Names(registry[1..]);
      var step := Advance(c, scrapes[c], known);
      var rest := ComputeNewJobs(registry[1..], scrapes, step.known);
      DiffResult(step.digest + rest.digest, rest.known)
  }

  /** After the pass every registered company has an entry and no other
      company gains one; companies outside the registry keep their list. */
  lemma {:induction false} PassDomain(registry: Registry, scrapes: Scrapes, known: KnownState)
    requires ScrapedAll(registry, scrapes)
    ensures var r := ComputeNewJobs(registry, scrapes, known);
            && (forall c :: c in r.known <==> c in known || c in Names(registry))
            && (forall c :: c in known && c !in Names(registry) ==> r.known[c] == known[c])
    decreases |registry|
  {
    if |registry| > 0 {
      var c := registry[0].0;
      assert Names(registry) == [c] + Names(registry[1..]);
      var step := Advance(c, scrapes[c], known);
      PassDomain(registry[1..], scrapes, step.known);
    }
  }

  /** No digest entry is empty, and the digest lists its companies in
      registry order. */
  lemma {:induction false} PassDigest(registry: Registry, scrapes: Scrapes, known: KnownState)
    requires ScrapedAll(registry, scrapes)
    ensures var r := ComputeNewJobs(registry, scrapes, known);
            && (forall k :: 0 <= k < |r.digest| ==> r.digest[k].1 != [])
            && IsSubsequence(Names(r.digest), Names(registry))
    decreases |registry|
  {
    if |registry| > 0 {
      var c := registry[0].0;
      assert Names(registry) == [c] + Names(registry[1..]);
      var step := Advance(c, scrapes[c], known);
      var rest := ComputeNewJobs(registry[1..], scrapes, step.known);
      PassDigest(registry[1..], scrapes, step.known);
      var d := step.digest + rest.digest;
      if step.digest == [] {
        assert d == rest.digest;
      } else {
        assert d[1..] == rest.digest;
        assert Names(d) == [c] + Names(rest.digest);
      }
    }
  }

  /** The digest entry of a company, if it has one. */
  function Lookup(digest: Digest, c: Company): Option<seq<Link>>
  {
    if |digest| == 0 then None
    else if digest[0].0 == c then Some(digest[0].1)
    else Lookup(digest[1..], c)
  }

  /** A company has an entry exactly when it is named in the digest, and the
      entry found is one of the digest's pairs. */
  lemma {:induction false} LookupFinds(digest: Digest, c: Company)
    ensures Lookup(digest, c).Some? <==> c in Names(digest)
    ensures Lookup(digest, c).Some? ==> (c, Lookup(digest, c).value) in digest
    decreases |digest|
  {
    if |digest| > 0 {
      assert Names(digest) == [digest[0].0] + Names(digest[1..]);
      LookupFinds(digest[1..], c);
      if digest[0].0 != c && Lookup(digest, c).Some? {
        assert (c, Lookup(digest, c).value) in digest[1..];
      }
    }
  }

  /** Looking up a company in a concatenation of digests. */
  lemma {:induction false} LookupAppend(d1: Digest, d2: Digest, c: Company)
    ensures Lookup(d1 + d2, c) == if c in Names(d1) then Lookup(d1, c) else Lookup(d2, c)
    decreases |d1|
  {
    if |d1| == 0 {
      assert d1 + d2 == d2;
    } else {
      assert (d1 + d2)[1..] == d1[1..] + d2;
      LookupAppend(d1[1..], d2, c);
    }
  }

  /** The known list of a registered company after the pass is its prior
      list followed by its new links. */
  lemma {:induction false} CompanyKnown(registry: Registry, scrapes: Scrapes, known: KnownState, c: Company)
    requires ScrapedAll(registry, scrapes)
    requires DistinctNames(registry)
    requires c in Names(registry)
    ensures c in scrapes
    ensures c in ComputeNewJobs(registry, scrapes, known).known
    ensures ComputeNewJobs(registry, scrapes, known).known[c] ==
            Prior(known, c) + NewLinks(scrapes[c], Prior(known, c))
    decreases |registry|
  {
    var head := registry[0].0;
    assert Names(registry) == [head] + Names(registry[1..]);
    var next := Advance(head, scrapes[head], known).known;
    if c == head {
      PassDomain(registry[1..], scrapes, next);
    } else {
      assert Prior(next, c) == Prior(known, c);
      CompanyKnown(registry[1..], scrapes, next, c);
    }
  }

  /** The digest entry of a registered company is exactly its new links
      when there are any; otherwise it has no entry. */
  lemma {:induction false} CompanyDigest(registry: Registry, scrapes: Scrapes, known: KnownState, c: Company)
    requires ScrapedAll(registry, scrapes)
    requires DistinctNames(registry)
    requires c in Names(registry)
    ensures c in scrapes
    ensures var found := NewLinks(scrapes[c], Prior(known, c));
            Lookup(ComputeNewJobs(registry, scrapes, known).digest, c) ==
              if found == [] then None else Some(found)
    decreases |registry|
  {
    var head := registry[0].0;
    assert Names(registry) == [head] + Names(registry[1..]);
    var step := Advance(head, scrapes[head], known);
    var rest := ComputeNewJobs(registry[1..], scrapes, step.known);
    LookupAppend(step.digest, rest.digest, c);
    if c == head {
      PassDigest(registry[1..], scrapes, step.known);
      LookupFinds(rest.digest, c);
      if c in Names(rest.digest) {
        SubsequenceMembers(Names(rest.digest), Names(registry[1..]), c);
      }
    } else {
      assert Prior(step.known, c) == Prior(known, c);
      CompanyDigest(registry[1..], scrapes, step.known, c);
    }
  }

  /** A company is in the digest exactly when it is registered and has at
      least one new link; `CompanyDigest` gives the entry itself. */
  lemma {:induction false} DigestEntry(registry: Registry, scrapes: Scrapes, known: KnownState, c: Company)
    requires ScrapedAll(registry, scrapes)
    requires DistinctNames(registry)
    ensures Lookup(ComputeNewJobs(registry, scrapes, known).digest, c).Some? <==>
            c in Names(registry) && NewLinks(scrapes[c], Prior(known, c)) != []
  {
    var r := ComputeNewJobs(registry, scrapes, known);
    if c in Names(registry) {
      CompanyDigest(registry, scrapes, known, c);
    } else {
      PassDigest(registry, scrapes, known);
      LookupFinds(r.digest, c);
      if c in Names(r.digest) {
        SubsequenceMembers(Names(r.digest), Names(registry), c);
      }
    }
  }

  /** The updated known state: every registered company has an entry, equal
      to its prior list followed by its digest entry; other companies keep
      theirs. */
  lemma {:induction false} KnownUpdate(registry: Registry, scrapes: Scrapes, known: KnownState, c: Company)
    requires ScrapedAll(registry, scrapes)
    requires DistinctNames(registry)
    requires c in known || c in Names(registry)
    ensures var r := ComputeNewJobs(registry, scrapes, known);
            && c in r.known
            && r.known[c] == Prior(known, c) + (match Lookup(r.digest, c) case Some(e) => e case None => [])
  {
    if c in Names(registry) {
      CompanyDigest(registry, scrapes, known, c);
      CompanyKnown(registry, scrapes, known, c);
    } else {
      DigestEntry(registry, scrapes, known, c);
      PassDomain(registry, scrapes, known);
    }
  }

  /** No false positives: a link known before the run is never reported for
      that company, even when it is scraped again. */
  lemma {:induction false} NoFalsePositives(registry: Registry, scrapes: Scrapes, known: KnownState, c: Company, l: Link)
    requires ScrapedAll(registry, scrapes)
    requires DistinctNames(registry)
    requires l in Prior(known, c)
    ensures var e := Lookup(ComputeNewJobs(registry, scrapes, known).digest, c);
            e.Some? ==> l !in e.value
  {
    DigestEntry(registry, scrapes, known, c);
    if c in Names(registry) {
      CompanyDigest(registry, scrapes, known, c);
    }
  }

  /** Completeness: a scraped link that was not known for a registered
      company is reported for it. */
  lemma {:induction false} Completeness(registry: Registry, scrapes: Scrapes, known: KnownState, c: Company, l: Link)
    requires ScrapedAll(registry, scrapes)
    requires DistinctNames(registry)
    requires c in Names(registry)
    requires l in scrapes[c] && l !in Prior(known, c)
    ensures var e := Lookup(ComputeNewJobs(registry, scrapes, known).digest, c);
            e.Some? && l in e.value
  {
    CompanyDigest(registry, scrapes, known, c);
  }

  /** Monotonicity: a company's known list before the pass is a prefix of
      its list after it, whatever the registry. */
  lemma {:induction false} KnownGrows(registry: Registry, scrapes: Scrapes, known: KnownState, c: Company)
    requires ScrapedAll(registry, scrapes)
    requires c in known
    ensures c in ComputeNewJobs(registry, scrapes, known).known
    ensures known[c] <= ComputeNewJobs(registry, scrapes, known).known[c]
    decreases |registry|
  {
    if |registry| > 0 {
      var head := registry[0].0;
      assert Names(registry) == [head] + Names(registry[1..]);
      var step := Advance(head, scrapes[head], known);
      assert known[c] <= step.known[c];
      KnownGrows(registry[1..], scrapes, step.known, c);
      PrefixTransitive(known[c], step.known[c], ComputeNewJobs(registry, scrapes, known).known[c]);
    }
  }

  /** No known link is ever forgotten. */
  lemma {:induction false} KnownLinksKept(registry: Registry, scrapes: Scrapes, known: KnownState, c: Company, l: Link)
    requires ScrapedAll(registry, scrapes)
    requires c in known && l in known[c]
    ensures var after := ComputeNewJobs(registry, scrapes, known).known;
            c in after && l in after[c]
  {
    KnownGrows(registry, scrapes, known, c);
    var after := ComputeNewJobs(registry, scrapes, known).known[c];
    assert known[c] == after[..|known[c]|];
  }

  /** Every registered company whose scraped links are all known is settled:
      the pass reports nothing and leaves the state as it is. */
  lemma {:induction false} SettledPass(registry: Registry, scrapes: Scrapes, known: KnownState)
    requires ScrapedAll(registry, scrapes)
    requires forall c :: c in Names(registry) ==> c in known && forall l :: l in scrapes[c] ==> l in known[c]
    ensures ComputeNewJobs(registry, scrapes, known) == DiffResult([], known)
    decreases |registry|
  {
    if |registry| > 0 {
      var c := registry[0].0;
      assert Names(registry) == [c] + Names(registry[1..]);
      FilterNone(scrapes[c], l => l !in known[c]);
      assert known[c][..] + [] == known[c];
      assert known[c := known[c]] == known;
      SettledPass(registry[1..], scrapes, known);
    }
  }

  /** Idempotence: a second pass with the same scrapes over the updated
      state reports nothing and changes nothing. */
  lemma {:induction false} Idempotent(registry: Registry, scrapes: Scrapes, known: KnownState)
    requires ScrapedAll(registry, scrapes)
    requires DistinctNames(registry)
    ensures var r := ComputeNewJobs(registry, scrapes, known);
            ComputeNewJobs(registry, scrapes, r.known) == DiffResult([], r.known)
  {
    var r := ComputeNewJobs(registry, scrapes, known);
    forall c | c in Names(registry)
      ensures c in r.known && forall l :: l in scrapes[c] ==> l in r.known[c]
    {
      CompanyKnown(registry, scrapes, known, c);
    }
    SettledPass(registry, scrapes, r.known);
  }

  /** Across two passes, whatever the second registry and scrapes, a link
      reported for a company in the first pass is not reported for it again
      in the second. */
  lemma {:induction false} NeverReportedTwice(registry1: Registry, scrapes1: Scrapes, known: KnownState,
                           registry2: Registry, scrapes2: Scrapes, c: Company, l: Link)
    requires ScrapedAll(registry1, scrapes1) && DistinctNames(registry1)
    requires ScrapedAll(registry2, scrapes2) && DistinctNames(registry2)
    ensures var r1 := ComputeNewJobs(registry1, scrapes1, known);
            var e1 := Lookup(r1.digest, c);
            var e2 := Lookup(ComputeNewJobs(registry2, scrapes2, r1.known).digest, c);
            e1.Some? && e2.Some? && l in e1.value ==> l !in e2.value
  {
    var r1 := ComputeNewJobs(registry1, scrapes1, known);
    var e1 := Lookup(r1.digest, c);
    DigestEntry(registry1, scrapes1, known, c);
    if e1.Some? && l in e1.value {
      CompanyDigest(registry1, scrapes1, known, c);
      CompanyKnown(registry1, scrapes1, known, c);
      NoFalsePositives(registry2, scrapes2, r1.known, c, l);
    }
  }

  /** The comprehension of job_scaper.py:81 as a loop: append each scraped
      link that is not in the known list. */
  method NewLinksLoop(jobs: seq<Link>, known: seq<Link>) returns (newLinks: seq<Link>)
    ensures newLinks == NewLinks(jobs, known)
  {
    newLinks := [];
    for j := 0 to |jobs|
      invariant newLinks == Filter(jobs[..j], l => l !in known)
    {
      FilterSnoc(jobs[..j], jobs[j], l => l !in known);
      assert jobs[..j + 1] == jobs[..j] + [jobs[j]];
      if jobs[j] !in known {
        newLinks := newLinks + [jobs[j]];
      }
    }
    assert jobs[..|jobs|] == jobs;
  }

  /** The body of the loop in `main`, mutating the company's entry in
      place, computes one step of the pass. */
  method ProcessCompany(company: Company, jobs: seq<Link>, state: KnownState)
    returns (entry: Digest, updated: KnownState)
    ensures DiffResult(entry, updated) == Advance(company, jobs, state)
  {
    ghost var prior := Prior(state, company);
    updated := state;
    if company !in updated {
      updated := updated[company := []];
    }
    assert updated == state[company := prior];
    var newLinks := NewLinksLoop(jobs, updated[company]);
    entry := [];
    if newLinks != [] {
      entry := [(company, newLinks)];
      updated := updated[company := updated[company] + newLinks];
    } else {
      assert prior + newLinks == prior;
    }
    assert updated == state[company := prior + newLinks];
  }

  /** The loop of `main` (job_scaper.py:75-84), collecting `new_jobs` and
      updating `old_jobs` in place, computes the recursive pass. */
  method DiffLoop(registry: Registry, scrapes: Scrapes, known: KnownState)
    returns (digest: Digest, state: KnownState)
    requires ScrapedAll(registry, scrapes)
    ensures DiffResult(digest, state) == ComputeNewJobs(registry, scrapes, known)
  {
    ghost var result := ComputeNewJobs(registry, scrapes, known);
    digest, state := [], known;
    for i := 0 to |registry|
      invariant ScrapedAll(registry[i..], scrapes)
      invariant digest + ComputeNewJobs(registry[i..], scrapes, state).digest == result.digest
      invariant ComputeNewJobs(registry[i..], scrapes, state).known == result.known
    {
      var company := registry[i].0;
      PassFrom(registry, i, scrapes, state);
      var entry;
      ghost var before, prior := digest, state;
      entry, state := ProcessCompany(company, scrapes[company], state);
      digest := digest + entry;
      StepFrom(registry, i, scrapes, before, prior, entry, state, result);
    }
  }

  /** The pass over the registry from position `i` on is one step for the
      company at `i` followed by the pass from `i + 1`. */
  lemma PassFrom(registry: Registry, i: nat, scrapes: Scrapes, known: KnownState)
    requires i < |registry|
    requires ScrapedAll(registry[i..], scrapes)
    ensures registry[i].0 in scrapes
    ensures ScrapedAll(registry[i + 1..], scrapes)
    ensures var step := Advance(registry[i].0, scrapes[registry[i].0], known);
            var rest := ComputeNewJobs(registry[i + 1..], scrapes, step.known);
            ComputeNewJobs(registry[i..], scrapes, known) == DiffResult(step.digest + rest.digest, rest.known)
  {
    assert registry[i..][1..] == registry[i + 1..];
    assert Names(registry[i..]) == [registry[i].0] + Names(registry[i + 1..]);
  }

  /** Processing the company at `i` keeps the split of the whole pass into
      the digest so far and the pass over the rest. */
  lemma {:induction false} StepFrom(registry: Registry, i: nat, scrapes: Scrapes, digest: Digest, state: KnownState,
                                    entry: Digest, updated: KnownState, whole: DiffResult)
    requires i < |registry|
    requires ScrapedAll(registry[i..], scrapes)
    requires digest + ComputeNewJobs(registry[i..], scrapes, state).digest == whole.digest
    requires ComputeNewJobs(registry[i..], scrapes, state).known == whole.known
    requires registry[i].0 in scrapes
    requires DiffResult(entry, updated) == Advance(registry[i].0, scrapes[registry[i].0], state)
    ensures ScrapedAll(registry[i + 1..], scrapes)
    ensures (digest + entry) + ComputeNewJobs(registry[i + 1..], scrapes, updated).digest == whole.digest
    ensures ComputeNewJobs(registry[i + 1..], scrapes, updated).known == whole.known
  {
    PassFrom(registry, i, scrapes, state);
    AppendAssoc(digest, entry, ComputeNewJobs(registry[i + 1..], scrapes, updated).digest);
  }

  // The example runs of a single company "Acme".

  lemma NewLinksOfTwo(a: Link, b: Link, known: seq<Link>)
    ensures NewLinks([a, b], known) == (if a in known then [] else [a]) + (if b in known then [] else [b])
  {
    FilterAppend([a], [b], l => l !in known);
    assert [a] + [b] == [a, b];
  }

  lemma OneCompany(c: Company, url: string, scrapes: Scrapes, known: KnownState)
    requires c in scrapes
    ensures ComputeNewJobs([(c, url)], scrapes, known) == Advance(c, scrapes[c], known)
  {
    assert [(c, url)][1..] == [];
    assert Names([(c, url)]) == [c];
    var step := Advance(c, scrapes[c], known);
    assert step.digest + [] == step.digest;
  }

  lemma ScenarioFirstRun()
    ensures ComputeNewJobs([("Acme", "u")], map["Acme" := ["/job/1", "/job/2"]], map[]) ==
            DiffResult([("Acme", ["/job/1", "/job/2"])], map["Acme" := ["/job/1", "/job/2"]])
  {
    OneCompany("Acme", "u", map["Acme" := ["/job/1", "/job/2"]], map[]);
    NewLinksOfTwo("/job/1", "/job/2", []);
    assert Prior(map[], "Acme") == [];
    assert NewLinks(["/job/1", "/job/2"], []) == ["/job/1", "/job/2"];
    var step := Advance("Acme", ["/job/1", "/job/2"], map[]);
    assert Prior(map[], "Acme") + ["/job/1", "/job/2"] == ["/job/1", "/job/2"];
    assert step.known == map["Acme" := ["/job/1", "/job/2"]];
  }

  lemma ScenarioOneNew()
    ensures ComputeNewJobs([("Acme", "u")], map["Acme" := ["/job/1", "/job/2"]], map["Acme" := ["/job/1"]]) ==
            DiffResult([("Acme", ["/job/2"])], map["Acme" := ["/job/1", "/job/2"]])
  {
    OneCompany("Acme", "u", map["Acme" := ["/job/1", "/job/2"]], map["Acme" := ["/job/1"]]);
    assert "/job/1" != "/job/2";
    NewLinksOfTwo("/job/1", "/job/2", ["/job/1"]);
    assert NewLinks(["/job/1", "/job/2"], ["/job/1"]) == ["/job/2"];
    assert Prior(map["Acme" := ["/job/1"]], "Acme") + ["/job/2"] == ["/job/1", "/job/2"];
  }

  lemma ScenarioNothingNew()
    ensures ComputeNewJobs([("Acme", "u")], map["Acme" := ["/job/1"]], map["Acme" := ["/job/1"]]) ==
            DiffResult([], map["Acme" := ["/job/1"]])
  {
    OneCompany("Acme", "u", map["Acme" := ["/job/1"]], map["Acme" := ["/job/1"]]);
    FilterNone(["/job/1"], l => l !in ["/job/1"]);
    assert ["/job/1"] + [] == ["/job/1"];
  }

  lemma ScenarioEmptyScrape()
    ensures ComputeNewJobs([("Acme", "u")], map["Acme" := []], map[]) ==
            DiffResult([], map["Acme" := []])
  {
    OneCompany("Acme", "u", map["Acme" := []], map[]);
  }

  /** A link scraped twice on a first run is reported, and recorded, twice. */
  lemma ScenarioDuplicateScrape()
    ensures ComputeNewJobs([("Acme", "u")], map["Acme" := ["/job/1", "/job/1"]], map[]) ==
            DiffResult([("Acme", ["/job/1", "/job/1"])], map["Acme" := ["/job/1", "/job/1"]])
  {
    OneCompany("Acme", "u", map["Acme" := ["/job/1", "/job/1"]], map[]);
    NewLinksOfTwo("/job/1", "/job/1", []);
    assert NewLinks(["/job/1", "/job/1"], []) == ["/job/1", "/job/1"];
    assert Prior(map[], "Acme") + ["/job/1", "/job/1"] == ["/job/1", "/job/1"];
  }
}
