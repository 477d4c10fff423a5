/** The search action of the page (app.py:500-507): scrape with the default
    of five results, parse the skills box, then filter and rank. */
module Pipeline {
  import opened Outcomes
  import opened Text
  import opened Jobs
  import Ranker
  import Scraper
  import Skills
  import StableSort
  import Selection

  /** The default `max_results` of `scrape_linkedin_jobs`. */
  const DefaultMaxResults: int := 5

  /** `filter_jobs(scrape_linkedin_jobs(query, location), skills, query)`
      with `skills` parsed from the skills box. A blank query raises in the
      ranker, or already in the scraper when it falls back to placeholders. */
  function Search(query: string, skillsInput: string, simple: Scraper.TierOutcome, browser: Scraper.TierOutcome,
                  suffixes: seq<nat>): (r: Result<seq<Job>>)
    requires |suffixes| >= DefaultMaxResults
    ensures r.IndexError? <==> AllSpace(query)
    ensures r.Ok? ==> |r.value| <= DefaultMaxResults && StableSort.SortedDesc(r.value, Ranker.ScoreKey)
    ensures r.Ok? ==> forall i :: 0 <= i < |r.value| ==> Ranker.Ranked(r.value[i], Lower(FirstWord(query).value))
  {
    match Scraper.Scrape(query, DefaultMaxResults, simple, browser, suffixes)
    case IndexError => IndexError
    case Ok(jobs) => Ranker.FilterJobs(jobs, Skills.ParseSkills(skillsInput), query)
  }

  /** A listing whose title starts with the query mentions the query's
      first word, so a placeholder ("<query> at TechCorp") always passes the
      primary-skill check. */
  lemma TitledByQueryMentionsPrimary(j: Job, query: string, w: string)
    requires FirstWord(query) == Some(w)
    requires IsPrefix(query, j.title)
    ensures Contains(Ranker.Content(j), Lower(w))
  {
    var rest := j.title[|query|..];
    var tail := rest + " " + j.summary;
    assert j.title == query + rest;
    assert j.title + " " + j.summary == query + tail;
    FirstWordInLower(query, w, tail);
  }

  /** When both scraping tiers come back empty and the query's first word,
      lower-cased, is "python", all five placeholders survive ranking. */
  lemma PythonFallbackKeepsAll(query: string, skillsInput: string, simple: Scraper.TierOutcome,
                               browser: Scraper.TierOutcome, suffixes: seq<nat>)
    requires |suffixes| >= DefaultMaxResults
    requires Scraper.TierJobs(simple, DefaultMaxResults) == [] && Scraper.TierJobs(browser, DefaultMaxResults) == []
    requires FirstWord(query).Some? && Lower(FirstWord(query).value) == "python"
    ensures Search(query, skillsInput, simple, browser, suffixes).Ok?
    ensures |Search(query, skillsInput, simple, browser, suffixes).value| == DefaultMaxResults
  {
    var w := FirstWord(query).value;
    var ps := Scraper.Scrape(query, DefaultMaxResults, simple, browser, suffixes).value;
    var skills := Skills.ParseSkills(skillsInput);
    forall i | 0 <= i < |ps|
      ensures Ranker.Kept(ps[i], skills, "python")
    {
      assert ps[i].title[..|query|] == query;
      TitledByQueryMentionsPrimary(ps[i], query, w);
      Ranker.PythonKeepsEveryMention(ps[i], skills);
    }
    var keep := j => Ranker.Kept(j, skills, "python");
    var score := j => Ranker.Scored(j, skills, "python");
    Selection.SelectAll(ps, keep, score);
    var kept := Ranker.Retained(ps, skills, "python");
    assert |kept| == |ps|;
    var r := Ranker.Rank(ps, skills, "python");
    assert |multiset(r)| == |multiset(kept)|;
  }

  /** With a blank skills box the skill list is one empty skill, which every
      listing matches: each score gains exactly one point. */
  lemma BlankSkillsBoxAddsOne(j: Job, skillsInput: string, primary: string)
    requires AllSpace(skillsInput)
    ensures Ranker.Score(j, Skills.ParseSkills(skillsInput), primary)
            == 4 - Ranker.CountFound(Ranker.Competitors(primary), Ranker.Content(j))
  {
    var skills := Skills.ParseSkills(skillsInput);
    Skills.BlankInputIsOneEmptySkill(skillsInput);
    Ranker.EmptySkillAlwaysCounts(j, skills, 0);
  }
}
