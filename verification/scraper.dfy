/** The pure part of `scrape_linkedin_jobs(query, location, max_results)`
    (app.py:97-175): per-tier truncation and card extraction, tracking
    parameter removal, tier selection and the synthetic placeholder
    fallback. The HTTP fetch, the HTML parse and the browser session are
    inputs: each tier is given as what it observed. */
module Scraper {
  import opened Outcomes
  import opened Text
  import opened Jobs
  import Splitting
  import Decimal
  import Selection

  /** The four texts read from one result card, before `.strip()`. */
  datatype Card = Card(title: string, company: string, location: string, href: string)

  /** What one scraping tier observed. `None` when it raised before reaching
      any card (network error, parse error, wait timeout); otherwise one entry
      per result card in page order, `None` where reading that card raised. */
  type TierOutcome = Option<seq<Option<Card>>>

  const PlaceholderCompany: string := "TechCorp"

  const ViewUrlPrefix: string := "https://www.linkedin.com/jobs/view/"

  /** The bounds of `random.randint(1000000, 9999999)`. */
  const SuffixLow: nat := 1000000
  const SuffixHigh: nat := 9999999

  /** Python's `xs[:n]`; a negative `n` drops `-n` elements from the end. */
  function Head<T>(xs: seq<T>, n: int): (r: seq<T>)
    ensures |r| <= |xs| && r == xs[..|r|]
    ensures n >= 0 ==> |r| == Min(n, |xs|)
    ensures n < 0 ==> |r| == Max(0, |xs| + n)
  {
    if n >= 0 then
      if n <= |xs| then xs[..n] else xs
    else
      if |xs| + n >= 0 then xs[..|xs| + n] else []
  }

  /** `href.split('?')[0]`: the longest prefix of `href` without a '?'. */
  function StripTracking(href: string): (r: string)
    ensures IsPrefix(r, href)
    ensures '?' !in r
    ensures |r| < |href| ==> href[|r|] == '?'
  {
    var parts := Splitting.SplitOn(href, '?');
    var r := parts[0];
    Splitting.JoinSplit(href, '?');
    if |parts| == 1 then
      assert href == r;
      r
    else
      var tail := ['?'] + Splitting.Join(parts[1..], '?');
      assert href == r + tail;
      assert href[..|r|] == r;
      assert href[|r|] == tail[0];
      r
  }

  /** Removing tracking parameters twice is removing them once. */
  lemma StripTrackingIdempotent(href: string)
    ensures StripTracking(StripTracking(href)) == StripTracking(href)
  {
    Splitting.SplitNoSep(StripTracking(href), '?');
  }

  /** A link is left alone exactly when it carries no query string. */
  lemma StripTrackingFixpoint(href: string)
    ensures StripTracking(href) == href <==> '?' !in href
  {
    if '?' !in href {
      Splitting.SplitNoSep(href, '?');
    }
  }

  /** The listing dict built from one card. */
  function ToJob(c: Card): (j: Job)
    ensures j.matchScore.None? && '?' !in j.url
  {
    Job(Strip(c.title), Strip(c.company), "Location: " + Strip(c.location), StripTracking(c.href), None)
  }

  /** The cards that were read successfully, as listings, in page order. */
  function Extract(cards: seq<Option<Card>>): (jobs: seq<Job>)
    ensures |jobs| <= |cards|
    ensures (forall i :: 0 <= i < |cards| ==> cards[i].Some?) ==> |jobs| == |cards|
  {
    Selection.Present(cards, ToJob)
  }

  /** Extraction yields exactly the listings of the cards that were read. */
  lemma ExtractSoundComplete(cards: seq<Option<Card>>)
    ensures forall j :: j in Extract(cards) ==> exists k :: 0 <= k < |cards| && cards[k].Some? && j == ToJob(cards[k].value)
    ensures forall k :: 0 <= k < |cards| && cards[k].Some? ==> ToJob(cards[k].value) in Extract(cards)
  {
    Selection.PresentSound(cards, ToJob);
    Selection.PresentComplete(cards, ToJob);
  }

  /** Extraction goes card by card in page order: a read card gives its one
      listing, a card whose reading raised gives none, and the listings of
      consecutive stretches of cards are concatenated. */
  lemma ExtractInOrder(a: seq<Option<Card>>, b: seq<Option<Card>>, c: Card)
    ensures Extract(a + b) == Extract(a) + Extract(b)
    ensures Extract([Some(c)]) == [ToJob(c)]
    ensures Extract([None]) == []
  {
    Selection.PresentConcat(a, b, ToJob);
    var read: seq<Option<Card>> := [Some(c)];
    var raised: seq<Option<Card>> := [None];
    assert read[..0] == [] && raised[..0] == [];
  }

  /** The listings one tier yields: only the first `max_results` cards are
      read, and a card whose reading raised is skipped. */
  function TierJobs(tier: TierOutcome, maxResults: int): (jobs: seq<Job>)
    ensures tier.None? ==> jobs == []
    ensures maxResults >= 0 ==> |jobs| <= maxResults
    ensures forall i :: 0 <= i < |jobs| ==> jobs[i].matchScore.None? && '?' !in jobs[i].url
  {
    match tier
    case None => []
    case Some(cards) =>
      var read := Head(cards, maxResults);
      var jobs := Extract(read);
      ExtractSoundComplete(read);
      assert forall i :: 0 <= i < |jobs| ==> jobs[i].matchScore.None? && '?' !in jobs[i].url by {
        forall i | 0 <= i < |jobs|
          ensures jobs[i].matchScore.None? && '?' !in jobs[i].url
        {
          assert jobs[i] in jobs;
          var k :| 0 <= k < |read| && read[k].Some? && jobs[i] == ToJob(read[k].value);
        }
      }
      jobs
  }

  /** A tier yields exactly the listings of the cards read among its first
      `max_results` cards. */
  lemma TierJobsSoundComplete(cards: seq<Option<Card>>, maxResults: int)
    requires maxResults >= 0
    ensures forall j :: j in TierJobs(Some(cards), maxResults) ==>
              exists k :: 0 <= k < |cards| && k < maxResults && cards[k].Some? && j == ToJob(cards[k].value)
    ensures forall k :: 0 <= k < |cards| && k < maxResults && cards[k].Some? ==>
              ToJob(cards[k].value) in TierJobs(Some(cards), maxResults)
  {
    var read := Head(cards, maxResults);
    var jobs := TierJobs(Some(cards), maxResults);
    assert jobs == Extract(read);
    assert |read| == Min(maxResults, |cards|);
    assert forall k :: 0 <= k < |read| ==> read[k] == cards[k];
    ExtractSoundComplete(read);
    forall j | j in jobs
      ensures exists k :: 0 <= k < |cards| && k < maxResults && cards[k].Some? && j == ToJob(cards[k].value)
    {
      var k :| 0 <= k < |read| && read[k].Some? && j == ToJob(read[k].value);
      assert read[k] == cards[k];
    }
    forall k | 0 <= k < |cards| && k < maxResults && cards[k].Some?
      ensures ToJob(cards[k].value) in jobs
    {
      assert read[k] == cards[k];
    }
  }

  /** Rendered decimals contain no '?', so the placeholder links are bare. */
  lemma PlaceholderUrlBare(suffix: nat)
    ensures '?' !in ViewUrlPrefix + Decimal.Digits(suffix)
  {
    var d := Decimal.Digits(suffix);
    var u := ViewUrlPrefix + d;
    forall i | 0 <= i < |u|
      ensures u[i] != '?'
    {
      if i >= |ViewUrlPrefix| {
        assert u[i] == d[i - |ViewUrlPrefix|];
      }
    }
  }

  /** One synthetic listing for `query` whose first word is `word`. */
  function Placeholder(query: string, word: string, suffix: nat): (j: Job)
    ensures j.title == query + " at TechCorp" && j.company == "TechCorp"
    ensures j.url == ViewUrlPrefix + Decimal.Digits(suffix) && '?' !in j.url
    ensures j.matchScore.None?
  {
    PlaceholderUrlBare(suffix);
    Job(query + " at " + PlaceholderCompany,
        PlaceholderCompany,
        "A " + Lower(query) + " role requiring " + word + " skills.",
        ViewUrlPrefix + Decimal.Digits(suffix),
        None)
  }

  /** The fallback list comprehension: `max_results` placeholders (none when
      `max_results <= 0`, where the body never runs); `IndexError` when the
      body runs on a blank query. `suffixes[i]` is the random number drawn
      for the i-th placeholder. */
  function Placeholders(query: string, maxResults: int, suffixes: seq<nat>): (r: Result<seq<Job>>)
    requires |suffixes| >= maxResults
    ensures r.IndexError? <==> maxResults > 0 && AllSpace(query)
    ensures r.Ok? ==> |r.value| == Max(0, maxResults)
    ensures r.Ok? ==>
              forall i :: 0 <= i < |r.value| ==>
                && r.value[i].title == query + " at TechCorp"
                && r.value[i].company == "TechCorp"
                && r.value[i].url == ViewUrlPrefix + Decimal.Digits(suffixes[i])
                && '?' !in r.value[i].url
                && r.value[i].matchScore.None?
  {
    if maxResults <= 0 then Ok([])
    else
      match FirstWord(query)
      case None => IndexError
      case Some(w) =>
        Ok(seq(maxResults, i requires 0 <= i < maxResults => Placeholder(query, w, suffixes[i])))
  }

  /** Placeholder links coincide exactly where the drawn numbers do: the
      code does not make them distinct, the random draws have to. */
  lemma PlaceholderUrlsDistinct(query: string, maxResults: int, suffixes: seq<nat>, i: int, j: int)
    requires |suffixes| >= maxResults
    requires Placeholders(query, maxResults, suffixes).Ok?
    requires 0 <= i < |Placeholders(query, maxResults, suffixes).value|
    requires 0 <= j < |Placeholders(query, maxResults, suffixes).value|
    ensures Placeholders(query, maxResults, suffixes).value[i].url == Placeholders(query, maxResults, suffixes).value[j].url
            <==> suffixes[i] == suffixes[j]
  {
    var ps := Placeholders(query, maxResults, suffixes).value;
    if ps[i].url == ps[j].url {
      var a := Decimal.Digits(suffixes[i]);
      var b := Decimal.Digits(suffixes[j]);
      assert a == (ViewUrlPrefix + a)[|ViewUrlPrefix|..];
      assert b == (ViewUrlPrefix + b)[|ViewUrlPrefix|..];
      Decimal.DigitsInjective(suffixes[i], suffixes[j]);
    }
  }

  /** Every placeholder link is the fixed prefix and seven digits. */
  lemma PlaceholderUrlShape(suffix: nat)
    requires SuffixLow <= suffix <= SuffixHigh
    ensures |ViewUrlPrefix + Decimal.Digits(suffix)| == |ViewUrlPrefix| + 7
  {
    Decimal.SevenDigits(suffix);
  }

  /** `scrape_linkedin_jobs`: the first tier that yields a listing wins;
      otherwise the placeholders. */
  function Scrape(query: string, maxResults: int, simple: TierOutcome, browser: TierOutcome, suffixes: seq<nat>): (r: Result<seq<Job>>)
    requires |suffixes| >= maxResults
    ensures TierJobs(simple, maxResults) != [] ==> r == Ok(TierJobs(simple, maxResults))
    ensures TierJobs(simple, maxResults) == [] && TierJobs(browser, maxResults) != [] ==> r == Ok(TierJobs(browser, maxResults))
    ensures TierJobs(simple, maxResults) == [] && TierJobs(browser, maxResults) == [] ==> r == Placeholders(query, maxResults, suffixes)
    ensures r.IndexError? <==>
              TierJobs(simple, maxResults) == [] && TierJobs(browser, maxResults) == [] && maxResults > 0 && AllSpace(query)
    ensures r.Ok? && maxResults >= 0 ==> |r.value| <= maxResults && (|r.value| == 0 <==> maxResults == 0)
    ensures r.Ok? ==> forall i :: 0 <= i < |r.value| ==> '?' !in r.value[i].url && r.value[i].matchScore.None?
  {
    var first := TierJobs(simple, maxResults);
    if first != [] then Ok(first)
    else
      var second := TierJobs(browser, maxResults);
      if second != [] then Ok(second)
      else Placeholders(query, maxResults, suffixes)
  }
}
