/** The link extractor of `scrape_jobs`: of the `href` values of a page's
    anchors, keep the ones that look like job postings. Fetching the page and
    parsing its HTML are not modelled; the extractor sees the anchors' `href`
    values in page order. */
module JobLinks {
  import opened Util

  /** `t` occurs in `s` starting at position `i`. */
  ghost predicate OccursAt(s: string, t: string, i: int)
  {
    0 <= i && i + |t| <= |s| && s[i..i + |t|] == t
  }

  /** Python's substring test `t in s`, by scanning the start positions. */
  predicate Contains(s: string, t: string)
    decreases |s|
  {
    t <= s || (|s| > 0 && Contains(s[1..], t))
  }

  /** The scan finds `t` exactly when `t` occurs somewhere in `s`. */
  lemma {:induction false} ContainsIff(s: string, t: string)
    ensures Contains(s, t) <==> exists i :: OccursAt(s, t, i)
    decreases |s|
  {
    if t <= s {
      assert OccursAt(s, t, 0);
    } else if |s| == 0 {
      forall i | OccursAt(s, t, i)
        ensures false
      {
      }
    } else {
      ContainsIff(s[1..], t);
      if Contains(s[1..], t) {
        var i :| OccursAt(s[1..], t, i);
        assert s[i + 1..i + 1 + |t|] == s[1..][i..i + |t|];
        assert OccursAt(s, t, i + 1);
      }
      forall i | OccursAt(s, t, i)
        ensures Contains(s[1..], t)
      {
        if i > 0 {
          assert s[1..][i - 1..i - 1 + |t|] == s[i..i + |t|];
          assert OccursAt(s[1..], t, i - 1);
        }
      }
    }
  }

  /** The marker an `href` must contain to count as a job link. */
  const JobMarker: string := "job"

  /** The test of job_scaper.py:47. */
  predicate IsJobLink(href: string)
  {
    Contains(href, JobMarker)
  }

  /** An `href` is a job link exactly when the lower-case letters `j`, `o`,
      `b` appear consecutively in it; the test does not fold case. */
  lemma JobLinkIff(href: string)
    ensures IsJobLink(href) <==>
      exists i :: 0 <= i && i + 3 <= |href| && href[i] == 'j' && href[i + 1] == 'o' && href[i + 2] == 'b'
  {
    ContainsIff(href, JobMarker);
    if IsJobLink(href) {
      var i :| OccursAt(href, JobMarker, i);
      var w := href[i..i + 3];
      assert w == JobMarker;
      assert href[i] == w[0] && href[i + 1] == w[1] && href[i + 2] == w[2];
      assert 0 <= i && i + 3 <= |href| && href[i] == 'j' && href[i + 1] == 'o' && href[i + 2] == 'b';
    } else {
      forall i | 0 <= i && i + 3 <= |href| && href[i] == 'j' && href[i + 1] == 'o' && href[i + 2] == 'b'
        ensures false
      {
        assert href[i..i + 3] == JobMarker;
        assert OccursAt(href, JobMarker, i);
      }
    }
  }

  /** The job links of a page, in page order, duplicates kept
      (the loop of job_scaper.py:45-49). */
  function ExtractJobLinks(hrefs: seq<string>): (jobs: seq<string>)
    ensures IsSubsequence(jobs, hrefs)
    ensures forall h :: h in jobs <==> h in hrefs && IsJobLink(h)
  {
    Filter(hrefs, IsJobLink)
  }

  /** Every occurrence of a job link on the page is kept. */
  lemma ExtractJobLinksCount(hrefs: seq<string>, h: string)
    ensures multiset(ExtractJobLinks(hrefs))[h] == if IsJobLink(h) then multiset(hrefs)[h] else 0
  {
    FilterCount(hrefs, IsJobLink, h);
  }

  /** The accumulating loop of `scrape_jobs`, appending each matching `href`
      in turn, computes the filter above. */
  method ScrapeJobs(hrefs: seq<string>) returns (jobs: seq<string>)
    ensures jobs == ExtractJobLinks(hrefs)
  {
    jobs := [];
    for i := 0 to |hrefs|
      invariant jobs == Filter(hrefs[..i], IsJobLink)
    {
      FilterSnoc(hrefs[..i], hrefs[i], IsJobLink);
      assert hrefs[..i + 1] == hrefs[..i] + [hrefs[i]];
      if IsJobLink(hrefs[i]) {
        jobs := jobs + [hrefs[i]];
      }
    }
    assert hrefs[..|hrefs|] == hrefs;
  }

  /** The test is case-sensitive and accepts the marker anywhere. */
  lemma JobLinkExamples()
    ensures IsJobLink("/jobs/42")
    ensures !IsJobLink("JOB")
  {
    JobLinkIff("/jobs/42");
    JobLinkIff("JOB");
  }
}
