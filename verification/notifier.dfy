/** The message body of `send_email`: one line `company: url` for every link
    of every company in the digest, joined with newlines. The MIME envelope,
    the SMTP session and the fixed addresses are not modelled. */
module Notifier {
  import opened Util
  import opened DiffEngine

  /** The number of (company, link) pairs in a digest. */
  function TotalLinks(digest: Digest): nat
  {
    if |digest| == 0 then 0 else |digest[0].1| + TotalLinks(digest[1..])
  }

  /** The (company, link) pairs of a digest: company by company in digest
      order, and link by link within a company (the nested comprehension of
      job_scaper.py:59). */
  function Pairs(digest: Digest): (pairs: seq<(Company, Link)>)
    ensures |pairs| == TotalLinks(digest)
    ensures forall c, l :: (c, l) in pairs <==>
      exists k :: 0 <= k < |digest| && digest[k].0 == c && l in digest[k].1
  {
    if |digest| == 0 then []
    else
      var c := digest[0].0;
      var links := digest[0].1;
      var first := seq(|links|, j requires 0 <= j < |links| => (c, links[j]));
      var rest := Pairs(digest[1..]);
      assert forall c', l :: (c', l) in first <==> c' == c && l in links by {
        forall c', l | (c', l) in first
          ensures c' == c && l in links
        {
          var j :| 0 <= j < |first| && first[j] == (c', l);
        }
        forall l | l in links
          ensures (c, l) in first
        {
          var j :| 0 <= j < |links| && links[j] == l;
          assert first[j] == (c, l);
        }
      }
      first + rest
  }

  /** The pairs of a concatenation are the pairs of each part, in order. */
  lemma {:induction false} PairsAppend(d1: Digest, d2: Digest)
    ensures Pairs(d1 + d2) == Pairs(d1) + Pairs(d2)
    decreases |d1|
  {
    if |d1| == 0 {
      assert d1 + d2 == d2;
    } else {
      assert (d1 + d2)[0] == d1[0];
      assert (d1 + d2)[1..] == d1[1..] + d2;
      PairsAppend(d1[1..], d2);
    }
  }

  /** The pair for link `j` of entry `k` sits right after the pairs of the
      entries before `k` and the links before `j`: company by company, link
      by link, each occurrence once. */
  lemma {:induction false} PairsAt(digest: Digest, k: nat, j: nat)
    requires k < |digest| && j < |digest[k].1|
    ensures TotalLinks(digest[..k]) + j < |Pairs(digest)|
    ensures Pairs(digest)[TotalLinks(digest[..k]) + j] == (digest[k].0, digest[k].1[j])
    decreases k
  {
    var first := |digest[0].1|;
    if k == 0 {
      assert digest[..0] == [];
    } else {
      var tail := digest[1..];
      assert digest[..k][0] == digest[0];
      assert digest[..k][1..] == tail[..k - 1];
      PairsAt(tail, k - 1, j);
      assert TotalLinks(digest[..k]) == first + TotalLinks(tail[..k - 1]);
    }
  }

  /** The line of job_scaper.py:59 for one pair. */
  function Line(c: Company, l: Link): string
  {
    c + ": " + l
  }

  function Lines(digest: Digest): seq<string>
  {
    var pairs := Pairs(digest);
    seq(|pairs|, k requires 0 <= k < |pairs| => Line(pairs[k].0, pairs[k].1))
  }

  /** The body of the notification. */
  function FormatBody(digest: Digest): string
  {
    Join(Lines(digest), '\n')
  }

  /** No company name or link contains a line break. */
  predicate SingleLineEntries(digest: Digest)
  {
    forall k :: 0 <= k < |digest| ==>
      '\n' !in digest[k].0 && forall l :: l in digest[k].1 ==> '\n' !in l
  }

  /** When names and links are single-line and there is at least one link,
      the lines of the body are exactly the `company: url` lines, one per
      pair in digest order, so there are as many lines as links. */
  lemma {:induction false} BodyLines(digest: Digest)
    requires SingleLineEntries(digest)
    requires TotalLinks(digest) > 0
    ensures Split(FormatBody(digest), '\n') == Lines(digest)
    ensures |Split(FormatBody(digest), '\n')| == TotalLinks(digest)
    ensures forall k :: 0 <= k < TotalLinks(digest) ==>
      Split(FormatBody(digest), '\n')[k] == Line(Pairs(digest)[k].0, Pairs(digest)[k].1)
  {
    var pairs := Pairs(digest);
    var lines := Lines(digest);
    forall k | 0 <= k < |lines|
      ensures '\n' !in lines[k]
    {
      var c := pairs[k].0;
      var l := pairs[k].1;
      assert (c, l) in pairs;
      var i :| 0 <= i < |digest| && digest[i].0 == c && l in digest[i].1;
      assert lines[k] == c + ": " + l;
    }
    SplitJoin(lines, '\n');
  }

  /** A digest whose entries are non-empty has a link as soon as it has an
      entry. */
  lemma {:induction false} SomeLink(digest: Digest)
    requires |digest| > 0
    requires forall k :: 0 <= k < |digest| ==> digest[k].1 != []
    ensures TotalLinks(digest) > 0
  {
    assert digest[0].1 != [];
  }
}
