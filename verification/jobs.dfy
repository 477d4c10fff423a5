/** The job listing record shared by the scraper and the ranker. */
module Jobs {
  import opened Outcomes

  /** A listing as the scraper builds it (a dict with `title`, `company`,
      `summary`, `url`); `matchScore` is the `match_score` key that ranking
      adds, absent until then. */
  datatype Job = Job(title: string, company: string, summary: string, url: string, matchScore: Option<int>)
}
