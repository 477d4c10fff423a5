/** The relevance filter and ranker `filter_jobs(jobs, skills, query)`
    (app.py:177-194). */
module Ranker {
  import opened Outcomes
  import opened Text
  import opened Jobs
  import StableSort
  import Selection

  /** Competing technologies when the primary skill is "python". */
  const PythonRivals: seq<string> := ["java", "c#"]

  /** Competing technologies for every other primary skill. */
  const DefaultRivals: seq<string> := ["python", "c++", "javascript"]

  /** The competing-technology list, chosen by a single comparison of the
      primary skill with "python". */
  function Competitors(primary: string): (c: seq<string>)
    ensures |c| <= 3
    ensures primary == "python" ==> |c| == 2
  {
    if primary != "python" then DefaultRivals else PythonRivals
  }

  /** The haystack `f"{title} {summary}".lower()`. */
  function Content(j: Job): string {
    Lower(j.title + " " + j.summary)
  }

  /** Positions of the needles that occur in `content`. */
  ghost function FoundIndices(needles: seq<string>, content: string): set<int> {
    set i | 0 <= i < |needles| && Contains(content, needles[i])
  }

  /** `sum(1 for t in needles if t in content)`: how many needles occur in
      `content`, counting repeated needles once per entry. */
  function CountFound(needles: seq<string>, content: string): (n: nat)
    ensures n <= |needles|
    ensures n == 0 <==> forall i :: 0 <= i < |needles| ==> !Contains(content, needles[i])
    ensures n == |needles| <==> forall i :: 0 <= i < |needles| ==> Contains(content, needles[i])
  {
    if |needles| == 0 then 0
    else
      var init := needles[..|needles| - 1];
      var last := needles[|needles| - 1];
      assert forall i :: 0 <= i < |init| ==> init[i] == needles[i];
      CountFound(init, content) + (if Contains(content, last) then 1 else 0)
  }

  /** The count is the number of positions whose needle occurs. */
  lemma {:induction false} CountFoundIsCardinality(needles: seq<string>, content: string)
    ensures CountFound(needles, content) == |FoundIndices(needles, content)|
    decreases |needles|
  {
    if |needles| > 0 {
      var n := |needles| - 1;
      var init := needles[..n];
      CountFoundIsCardinality(init, content);
      assert forall i :: 0 <= i < n ==> init[i] == needles[i];
      var found := FoundIndices(needles, content);
      var before := FoundIndices(init, content);
      assert n !in before;
      if Contains(content, needles[n]) {
        assert found == before + {n};
        assert |before + {n}| == |before| + 1;
      } else {
        assert found == before;
      }
    }
  }

  /** Every skill lower-cased, as `skill.lower()` does before the test. */
  function LowerAll(skills: seq<string>): (r: seq<string>)
    ensures |r| == |skills|
    ensures forall i :: 0 <= i < |r| ==> r[i] == Lower(skills[i])
  {
    seq(|skills|, i requires 0 <= i < |skills| => Lower(skills[i]))
  }

  /** The raw relevance score: 3, plus one per skill found, minus one per
      competing technology found. */
  function Score(j: Job, skills: seq<string>, primary: string): int {
    3 + CountFound(LowerAll(skills), Content(j)) - CountFound(Competitors(primary), Content(j))
  }

  /** A listing survives when its haystack holds the primary skill and its
      score is positive. */
  predicate Kept(j: Job, skills: seq<string>, primary: string) {
    Contains(Content(j), primary) && Score(j, skills, primary) > 0
  }

  /** The listing with `match_score` set to the score clamped at 5. */
  function Scored(j: Job, skills: seq<string>, primary: string): Job {
    j.(matchScore := Some(Min(5, Score(j, skills, primary))))
  }

  /** The sort key `x["match_score"]`. */
  function ScoreKey(j: Job): int {
    if j.matchScore.Some? then j.matchScore.value else 0
  }

  /** What every ranked listing satisfies: its haystack holds the primary
      skill and its `match_score` lies in 1..5. */
  predicate Ranked(j: Job, primary: string) {
    Contains(Content(j), primary) && j.matchScore.Some? && 1 <= j.matchScore.value <= 5
  }

  /** `x` is the scored copy of some kept input listing. */
  ghost predicate FromInput(x: Job, jobs: seq<Job>, skills: seq<string>, primary: string) {
    exists k :: 0 <= k < |jobs| && Kept(jobs[k], skills, primary) && x == Scored(jobs[k], skills, primary)
  }

  /** The `filtered` list the loop builds: the kept listings, scored, in
      input order. */
  function Retained(jobs: seq<Job>, skills: seq<string>, primary: string): (r: seq<Job>)
    ensures |r| <= |jobs|
    ensures forall i :: 0 <= i < |r| ==> Ranked(r[i], primary)
  {
    var keep := j => Kept(j, skills, primary);
    var score := j => Scored(j, skills, primary);
    var r := Selection.Select(jobs, keep, score);
    Selection.SelectSound(jobs, keep, score);
    forall i | 0 <= i < |r|
      ensures Ranked(r[i], primary)
    {
      assert r[i] in r;
      var k :| 0 <= k < |jobs| && keep(jobs[k]) && r[i] == score(jobs[k]);
      assert Content(r[i]) == Content(jobs[k]);
    }
    r
  }

  /** The loop keeps input order: filtering a concatenation is filtering
      each part, so the earlier listing of two kept ones comes first. */
  lemma RetainedConcat(a: seq<Job>, b: seq<Job>, skills: seq<string>, primary: string)
    ensures Retained(a + b, skills, primary) == Retained(a, skills, primary) + Retained(b, skills, primary)
  {
    Selection.SelectConcat(a, b, j => Kept(j, skills, primary), j => Scored(j, skills, primary));
  }

  /** Everything retained is the scored copy of a kept input listing. */
  lemma RetainedSound(jobs: seq<Job>, skills: seq<string>, primary: string)
    ensures forall x :: x in Retained(jobs, skills, primary) ==> FromInput(x, jobs, skills, primary)
  {
    Selection.SelectSound(jobs, j => Kept(j, skills, primary), j => Scored(j, skills, primary));
  }

  /** Every kept input listing is retained, scored. */
  lemma RetainedComplete(jobs: seq<Job>, skills: seq<string>, primary: string)
    ensures forall k :: 0 <= k < |jobs| && Kept(jobs[k], skills, primary) ==> Scored(jobs[k], skills, primary) in Retained(jobs, skills, primary)
  {
    Selection.SelectComplete(jobs, j => Kept(j, skills, primary), j => Scored(j, skills, primary));
  }

  /** `sorted(filtered, key=lambda x: x["match_score"], reverse=True)`. */
  function Rank(jobs: seq<Job>, skills: seq<string>, primary: string): (r: seq<Job>)
    ensures |r| <= |jobs|
    ensures StableSort.SortedDesc(r, ScoreKey)
    ensures multiset(r) == multiset(Retained(jobs, skills, primary))
    ensures forall k :: StableSort.WithKey(r, ScoreKey, k) == StableSort.WithKey(Retained(jobs, skills, primary), ScoreKey, k)
    ensures forall i :: 0 <= i < |r| ==> Ranked(r[i], primary)
  {
    var kept := Retained(jobs, skills, primary);
    var r := StableSort.Sort(kept, ScoreKey);
    forall i | 0 <= i < |r|
      ensures Ranked(r[i], primary)
    {
      assert r[i] in multiset(kept);
    }
    r
  }

  /** The ranking holds exactly the scored copies of the kept listings:
      nothing else, and none of them missing. */
  lemma RankSoundComplete(jobs: seq<Job>, skills: seq<string>, primary: string)
    ensures forall x :: x in Rank(jobs, skills, primary) ==> FromInput(x, jobs, skills, primary)
    ensures forall k :: 0 <= k < |jobs| && Kept(jobs[k], skills, primary) ==> Scored(jobs[k], skills, primary) in Rank(jobs, skills, primary)
  {
    var kept := Retained(jobs, skills, primary);
    var r := Rank(jobs, skills, primary);
    RetainedSound(jobs, skills, primary);
    RetainedComplete(jobs, skills, primary);
    forall x | x in r
      ensures FromInput(x, jobs, skills, primary)
    {
      assert x in multiset(kept);
    }
    forall k | 0 <= k < |jobs| && Kept(jobs[k], skills, primary)
      ensures Scored(jobs[k], skills, primary) in r
    {
      assert Scored(jobs[k], skills, primary) in multiset(r);
    }
  }

  /** `filter_jobs(jobs, skills, query)`: raises `IndexError` on a blank
      query (even with no jobs); otherwise ranks by the lower-cased first
      word of the query. */
  function FilterJobs(jobs: seq<Job>, skills: seq<string>, query: string): (r: Result<seq<Job>>)
    ensures r.IndexError? <==> AllSpace(query)
    ensures r.Ok? ==> |r.value| <= |jobs| && StableSort.SortedDesc(r.value, ScoreKey)
    ensures r.Ok? ==> forall i :: 0 <= i < |r.value| ==> Ranked(r.value[i], Lower(FirstWord(query).value))
  {
    match FirstWord(query)
    case None => IndexError
    case Some(w) => Ok(Rank(jobs, skills, Lower(w)))
  }

  /** `match_score` is min(5, 3 + #skills found - #competitors found), the
      counts taken over list positions. */
  lemma ScoreCounts(j: Job, skills: seq<string>, primary: string)
    ensures Scored(j, skills, primary).matchScore
         == Some(Min(5, 3 + |FoundIndices(LowerAll(skills), Content(j))|
                          - |FoundIndices(Competitors(primary), Content(j))|))
  {
    assert Score(j, skills, primary) == 3 + |FoundIndices(LowerAll(skills), Content(j))|
                          - |FoundIndices(Competitors(primary), Content(j))| by {
      CountFoundIsCardinality(LowerAll(skills), Content(j));
      CountFoundIsCardinality(Competitors(primary), Content(j));
    }
  }

  /** With primary skill "python" only two competitors can be subtracted, so
      every listing that mentions "python" is kept. */
  lemma PythonKeepsEveryMention(j: Job, skills: seq<string>)
    ensures Score(j, skills, "python") >= 1
    ensures Kept(j, skills, "python") <==> Contains(Content(j), "python")
  {
  }

  /** For any other primary skill the score is never negative, and it is
      zero exactly when no skill matches and all three competitors occur. */
  lemma OtherScoreZero(j: Job, skills: seq<string>, primary: string)
    requires primary != "python"
    ensures Score(j, skills, primary) >= 0
    ensures Score(j, skills, primary) == 0 <==>
              (forall i :: 0 <= i < |skills| ==> !Contains(Content(j), Lower(skills[i])))
              && Contains(Content(j), "python") && Contains(Content(j), "c++")
              && Contains(Content(j), "javascript")
  {
    var c := Content(j);
    var rivals := Competitors(primary);
    assert rivals == DefaultRivals;
    if Contains(c, "python") && Contains(c, "c++") && Contains(c, "javascript") {
      assert forall i :: 0 <= i < |rivals| ==> Contains(c, rivals[i]);
    } else if !Contains(c, "python") {
      assert !Contains(c, rivals[0]);
    } else if !Contains(c, "c++") {
      assert !Contains(c, rivals[1]);
    } else {
      assert !Contains(c, rivals[2]);
    }
  }

  /** A listing lacking the primary skill never reaches the output, whatever
      its skill overlap: no ranked entry has its title and summary. */
  lemma MissingPrimaryExcluded(jobs: seq<Job>, skills: seq<string>, primary: string, j: Job)
    requires !Contains(Content(j), primary)
    ensures forall i :: 0 <= i < |Rank(jobs, skills, primary)| ==>
              Rank(jobs, skills, primary)[i].title != j.title || Rank(jobs, skills, primary)[i].summary != j.summary
  {
  }

  /** The ranking is the kept listings with score 5, then 4, 3, 2 and 1, each
      group in input order: the only order a stable descending sort allows. */
  lemma RankIsBuckets(jobs: seq<Job>, skills: seq<string>, primary: string)
    ensures Rank(jobs, skills, primary) == StableSort.Buckets(Retained(jobs, skills, primary), ScoreKey, 5, 1)
  {
    StableSort.SortIsBuckets(Retained(jobs, skills, primary), ScoreKey, 5, 1);
  }

  /** Ranking touches nothing but `match_score`: every output listing has the
      title, company, summary and link of a kept input listing, and the score
      computed for that listing. */
  lemma RankKeepsFields(jobs: seq<Job>, skills: seq<string>, primary: string)
    ensures forall x :: x in Rank(jobs, skills, primary) ==>
              exists k :: 0 <= k < |jobs| && Kept(jobs[k], skills, primary)
                          && x.title == jobs[k].title && x.company == jobs[k].company
                          && x.summary == jobs[k].summary && x.url == jobs[k].url
                          && x.matchScore == Some(Min(5, Score(jobs[k], skills, primary)))
  {
    RankSoundComplete(jobs, skills, primary);
  }

  /** An empty skill (from a blank piece of the skills box) is found in
      every listing, so it adds one to every score. */
  lemma EmptySkillAlwaysCounts(j: Job, skills: seq<string>, i: int)
    requires 0 <= i < |skills| && skills[i] == ""
    ensures CountFound(LowerAll(skills), Content(j)) >= 1
  {
    var lowered := LowerAll(skills);
    assert lowered[i] == "";
    EmptyAlwaysContained(Content(j));
  }

  /** "java" is part of "javascript": with primary skill "python" a listing
      that mentions JavaScript is penalised as a Java listing. */
  lemma JavascriptCountsAsJava(j: Job, skills: seq<string>)
    requires Contains(Content(j), "javascript")
    ensures Contains(Content(j), PythonRivals[0])
    ensures Score(j, skills, "python") <= 2 + CountFound(LowerAll(skills), Content(j))
  {
    var c := Content(j);
    ContainsImpliesOccurs(c, "javascript");
    var i :| OccursAt(c, "javascript", i);
    assert c[i..i + 4] == c[i..i + 10][..4];
    assert "javascript"[..4] == "java";
    OccursImpliesContains(c, "java", i);
    assert Contains(c, Competitors("python")[0]);
  }
}
