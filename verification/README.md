# Job-posting watcher, modelled in Dafny

`job_scaper.py` watches a list of company career pages. Each run does four things:

1. It loads the company registry (name to career-page URL) and the stored known-jobs state (name to the links seen so far).
2. For every company it fetches the page and keeps each anchor `href` that contains `job`.
3. It compares those links with the company's known list. The links not in it become the company's new links. They go into the run's digest and are appended to the known list.
4. When the digest is non-empty, it mails one line `company: url` per new link. Only after the mail has gone out does it write the updated state back.

The model has five modules:

- `Util` — an Option type, subsequences, order-preserving `Filter`, and Python-style `Join`/`Split`.
- `JobLinks` — the href filter of `scrape_jobs`.
- `DiffEngine` — the diff/update pass of `main`, plus the loop that computes it.
- `Notifier` — the mail body of `send_email`.
- `Orchestrator` — one whole run: fetch results in, effects (mail, save) and outcome out. It includes the loop as the source interleaves it.

The registry is a sequence of (name, URL) pairs in the registry's order. The source's registry is a JSON object, so its names are distinct. `DistinctNames` states this, as a requirement of the properties that need it. States and per-run scrapes are maps from company name to a list of links. The digest (`new_jobs`) is a sequence of (name, links) in insertion order.

## Model

| member | source | states |
|---|---|---|
| JobLinks.ContainsIff | job_scaper.py:47 | the scan behind the substring test accepts exactly when the marker occurs at some position of the `href` |
| JobLinks.JobLinkIff | job_scaper.py:47 | an `href` is a job link iff the lower-case letters `j`,`o`,`b` appear consecutively in it |
| JobLinks.JobLinkExamples | job_scaper.py:47 | `/jobs/42` is a job link and `JOB` is not: the test is case-sensitive |
| JobLinks.ExtractJobLinks | job_scaper.py:45-49 | the kept links are a subsequence of the page's hrefs (page order kept), and a link is kept iff it is on the page and contains `job` |
| JobLinks.ExtractJobLinksCount | job_scaper.py:45-49 | each job link is kept as often as it occurs on the page; other links not at all |
| JobLinks.ScrapeJobs | job_scaper.py:45-49 | the appending loop computes exactly the extracted job links |
| DiffEngine.NewLinks | job_scaper.py:81 | the new links are a subsequence of the scrape, and a link is new iff it was scraped and is not in the known list |
| DiffEngine.NewLinksCount | job_scaper.py:81 | a new link appears as often as it was scraped (duplicates within one scrape are kept); a known link never appears |
| DiffEngine.NewLinksLoop | job_scaper.py:81 | the comprehension written as a loop computes the new links |
| DiffEngine.PassDomain | job_scaper.py:75-84 | after the pass every registry company has a state entry and no other company gains one; companies outside the registry keep their list |
| DiffEngine.PassDigest | job_scaper.py:75-84 | no digest entry is empty, and the digest's companies are a subsequence of the registry's (registry order) |
| DiffEngine.CompanyKnown | job_scaper.py:77-84 | a registry company's list after the pass is its prior list (empty if it had none) followed by its new links |
| DiffEngine.CompanyDigest | job_scaper.py:81-83 | a registry company has a digest entry iff it has new links, and then the entry is exactly those links |
| DiffEngine.DigestEntry | job_scaper.py:75-84 | a company has a digest entry iff it is in the registry and its scrape has at least one link not in its prior list |
| DiffEngine.KnownUpdate | job_scaper.py:75-84 | a company's list after the pass is its prior list followed by its digest entry (nothing if it has no entry) |
| DiffEngine.NoFalsePositives | job_scaper.py:81-83 | a link already known for a company is never in that company's digest entry |
| DiffEngine.Completeness | job_scaper.py:81-83 | every scraped link not known for a registry company is in that company's digest entry |
| DiffEngine.KnownGrows | job_scaper.py:84 | a company's known list before the pass is a prefix of its list after it: links are only appended |
| DiffEngine.KnownLinksKept | job_scaper.py:84 | no known link is ever dropped from a company's list |
| DiffEngine.SettledPass | job_scaper.py:75-84 | when every registry company already has a state entry and every link scraped for it is already in that entry, the pass reports nothing and leaves the state unchanged |
| DiffEngine.Idempotent | job_scaper.py:75-84 | a second pass with the same scrapes over the updated state reports nothing and changes nothing |
| DiffEngine.NeverReportedTwice | job_scaper.py:75-84 | a link reported for a company in one pass is not reported for it in the next pass over the updated state, whatever that pass scrapes |
| DiffEngine.ProcessCompany | job_scaper.py:77-84 | the in-place body of the loop (create the entry if missing, append the new links only if there are any) yields the same entry and state as the pure step |
| DiffEngine.DiffLoop | job_scaper.py:75-84 | the loop that mutates `new_jobs` and `old_jobs` in place computes the recursive pass |
| DiffEngine.ScenarioFirstRun | job_scaper.py:75-84 | with no stored state, every scraped link is reported and stored |
| DiffEngine.ScenarioOneNew | job_scaper.py:75-84 | with one of two scraped links known, only the other is reported, and it is appended after the known one |
| DiffEngine.ScenarioNothingNew | job_scaper.py:75-84 | when the only scraped link is known, the digest is empty and the state is unchanged |
| DiffEngine.ScenarioEmptyScrape | job_scaper.py:77-78 | a new company with an empty scrape gets an empty list and no digest entry |
| DiffEngine.ScenarioDuplicateScrape | job_scaper.py:81 | a link scraped twice on a first run is reported twice and stored twice |
| Notifier.Pairs | job_scaper.py:59 | the body has one (company, link) pair per digest link, and the pairs are exactly the digest's company-link combinations |
| Notifier.PairsAt | job_scaper.py:59 | link j of digest entry k is the pair at position (links of the entries before k) + j; with the length, the pairs are the nested comprehension exactly: company by company in digest order, each company's links in order, each occurrence once |
| Notifier.PairsAppend | job_scaper.py:59 | the pairs of two concatenated digests are the pairs of the first followed by those of the second (digest order is line order) |
| Notifier.BodyLines | job_scaper.py:59 | when names and links have no line breaks and there is a link, splitting the body at newlines gives back the `company: url` lines in pair order, one per link |
| Orchestrator.ScrapeAll | job_scaper.py:40-49 | the scrapes exist iff every page fetch succeeded; they then cover exactly the registry's companies |
| Orchestrator.ScrapeAllValue | job_scaper.py:45-49 | with distinct names, each company's scrape is the job links of its own page |
| Orchestrator.RunDiff | job_scaper.py:75-84 | the pass takes place iff no fetch raised |
| Orchestrator.Run | job_scaper.py:86-91 | the run reports iff the fetches succeeded, the digest is non-empty and the mail went out; it has nothing to report iff the digest is empty; a save only ever comes right after the mail; there is a save iff the run reported; a run that does not report leaves the stored state as it was |
| Orchestrator.ReportedRun | job_scaper.py:86-88 | a reporting run mails the body of the digest, then saves the updated state, which becomes the stored state; the mail has at least one link |
| Orchestrator.RerunIsQuiet | job_scaper.py:75-91 | after a run that reported, a rerun on the stored state with the same pages has nothing new and no effect |
| Orchestrator.NeverMailedTwice | job_scaper.py:75-91 | a link mailed for a company in one run is not in that company's digest in the next run, whatever that run fetches |
| Orchestrator.FetchAndDiff | job_scaper.py:75-84 | the loop that fetches and diffs company by company, stopping at the first fetch that raises, ends normally iff every fetch succeeded, and then gives the digest and state of the pass |
| Orchestrator.MainLoop | job_scaper.py:70-91 | `main` as the source orders it (interleaved fetch and diff, then mail, then save) has the effects and outcome of `Run` |

## Left out

- Fetching and parsing pages (job_scaper.py:40-43): HTTP and the HTML parser are not modelled. A page is given as the list of its anchors' `href` values in document order, or as a fetch that raised. Fetch results are keyed by URL, so two companies registered with the same URL see the same result; the source calls `requests.get` once per company (job_scaper.py:76, 42), and the two responses could differ.
- Loading and saving JSON (job_scaper.py:21-37): the registry and stored state are inputs. Saving is an `Effect` carrying the state that would be written. A missing file counts as empty only through the caller's choice of input.
- The MIME message and the SMTP session (job_scaper.py:53-56, 60-67): only the plain-text body is modelled. Delivery is a boolean input, and a failed delivery ends the run, as an uncaught exception would.
- The account, server and file-name constants (job_scaper.py:10-18) and the console messages (job_scaper.py:89, 91): the outcome `Reported` or `NothingNew` stands for which message is printed.
- An exception after the mail went out is not modelled. `server.quit()` (job_scaper.py:67) can raise after `sendmail` (job_scaper.py:66) succeeded, and `save_jobs` (job_scaper.py:88) can raise. Either way the run has mailed but not saved, so the next run mails the same links again. No `Effect` sequence of the model is an `Email` without a `Save`.
- A save that fails part-way is not modelled. `open(DATA_FILE, "w")` (job_scaper.py:36) truncates the file before `json.dump` (job_scaper.py:37) writes it. A failure in between leaves a partial `jobs_data.json`, and the next run's `json.load` (job_scaper.py:31) raises.
- DiffEngine.CompanyKnown: requires distinct company names, which the source's registry, a JSON object, always has.
- DiffEngine.CompanyDigest: requires distinct company names, which the source's registry, a JSON object, always has.
- DiffEngine.DigestEntry: requires distinct company names, which the source's registry, a JSON object, always has.
- DiffEngine.KnownUpdate: requires distinct company names, which the source's registry, a JSON object, always has.
- DiffEngine.NoFalsePositives: requires distinct company names, which the source's registry, a JSON object, always has.
- DiffEngine.Completeness: requires distinct company names, which the source's registry, a JSON object, always has.
- DiffEngine.Idempotent: requires distinct company names, which the source's registry, a JSON object, always has.
- DiffEngine.NeverReportedTwice: requires distinct company names, which the source's registry, a JSON object, always has.
- Orchestrator.ScrapeAllValue: requires distinct company names, which the source's registry, a JSON object, always has.
- Orchestrator.RerunIsQuiet: requires distinct company names, which the source's registry, a JSON object, always has.
- Orchestrator.NeverMailedTwice: requires distinct company names, which the source's registry, a JSON object, always has.
- Orchestrator.FetchAndDiff: requires distinct company names, which the source's registry, a JSON object, always has.
- Orchestrator.MainLoop: requires distinct company names, which the source's registry, a JSON object, always has.
- Notifier.BodyLines: this requires single-line names and links. A name or link holding a newline would add lines of its own.
