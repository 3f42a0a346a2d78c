/** The API server's keyword matcher (`matchJob`), the match-then-filter step of
    the `/api/jobs/update` handler and the record mapping of the Anthropic
    scraper. Scores are exact decimals: 0.1 per positive term and 0.3 per
    negative term, so every score is a whole number of tenths. */
module Matcher {
  import opened Text
  import opened Seqs
  import opened Jobs

  /** The `preferences` object of the request body. */
  datatype Preferences = Preferences(lookingFor: Option<string>, notLookingFor: Option<string>)

  datatype MatchResult = MatchResult(matched: bool, matchScore: real)

  /** Each of these found in the job text adds 0.1. */
  const PositiveTerms: seq<string> := [
    "senior", "staff", "engineer", "engineering", "distributed", "system",
    "ai", "infrastructure", "backend", "platform", "workflow", "orchestration"
  ]

  /** Each of these found in the job text subtracts 0.3. */
  const NegativeTerms: seq<string> := ["frontend", "research", "prompt-only", "model training"]

  /** The lower-cased `${title} ${team || ''} ${location || ''}` the terms are searched in:
      the three fields and two separating spaces, with no upper-case letter left. */
  function JobText(job: Job): (r: string)
    ensures |r| == |job.title| + |OrEmpty(job.team)| + |OrEmpty(job.location)| + 2
    ensures forall i :: 0 <= i < |r| ==> !('A' <= r[i] <= 'Z')
  {
    ToLower(job.title + " " + OrEmpty(job.team) + " " + OrEmpty(job.location))
  }

  /** How many of `terms` occur in `text`; each term counts at most once. */
  function Hits(terms: seq<string>, text: string): (n: nat)
    ensures n <= |terms|
  {
    if terms == [] then 0
    else Hits(terms[..|terms| - 1], text) + (if Contains(text, terms[|terms| - 1]) then 1 else 0)
  }

  /** The accumulated score in tenths: `pos - 3 * neg`. */
  function RawTenths(text: string): int
  {
    Hits(PositiveTerms, text) - 3 * Hits(NegativeTerms, text)
  }

  function Clamp(x: int, lo: int, hi: int): (r: int)
    requires lo <= hi
    ensures lo <= r <= hi
    ensures lo <= x <= hi ==> r == x
  {
    if x < lo then lo else if x > hi then hi else x
  }

  /** What `matchJob` returns, in tenths: matched when the raw score exceeds 0.2,
      and the reported score is the raw score clamped to [0, 1]. */
  function Match(job: Job, preferences: Option<Preferences>): (r: MatchResult)
    ensures 0.0 <= r.matchScore <= 1.0
    ensures r.matched ==> r.matchScore > 0.2
    ensures !r.matched ==> r.matchScore <= 0.2
  {
    var raw := RawTenths(JobText(job));
    MatchResult(raw > 2, Clamp(raw, 0, 10) as real / 10.0)
  }

  /** `matchJob`: two loops over the fixed term tables update a decimal score,
      then a threshold and a clamp. The preference strings are lower-cased and
      never used. */
  method MatchJob(job: Job, preferences: Option<Preferences>) returns (r: MatchResult)
    ensures r.matched <==> Hits(PositiveTerms, JobText(job)) - 3 * Hits(NegativeTerms, JobText(job)) > 2
    ensures r.matchScore == Clamp(RawTenths(JobText(job)), 0, 10) as real / 10.0
    ensures r == Match(job, preferences)
  {
    var lookingFor := ToLower(if preferences.Some? then OrEmpty(preferences.value.lookingFor) else "");
    var notLookingFor := ToLower(if preferences.Some? then OrEmpty(preferences.value.notLookingFor) else "");
    var jobText := ToLower(job.title + " " + OrEmpty(job.team) + " " + OrEmpty(job.location));

    var score: real := 0.0;
    var matched := false;

    for k := 0 to |PositiveTerms|
      invariant score == Hits(PositiveTerms[..k], jobText) as real / 10.0
    {
      assert PositiveTerms[..k + 1][..k] == PositiveTerms[..k];
      if Contains(jobText, PositiveTerms[k]) {
        score := score + 0.1;
      }
    }
    assert PositiveTerms[..|PositiveTerms|] == PositiveTerms;
    ghost var pos := Hits(PositiveTerms, jobText);

    for k := 0 to |NegativeTerms|
      invariant score == (pos - 3 * Hits(NegativeTerms[..k], jobText)) as real / 10.0
    {
      assert NegativeTerms[..k + 1][..k] == NegativeTerms[..k];
      if Contains(jobText, NegativeTerms[k]) {
        score := score - 0.3;
      }
    }
    assert NegativeTerms[..|NegativeTerms|] == NegativeTerms;

    matched := score > 0.2;
    var upper := if score < 1.0 then score else 1.0;
    r := MatchResult(matched, if 0.0 < upper then upper else 0.0);
  }

  /** The terms of `terms` that occur in `text`. */
  function Found(terms: seq<string>, text: string): set<string>
  {
    set t | t in terms && Contains(text, t)
  }

  /** With no repeated entry, the hit count is the number of distinct terms
      found: a term contributes once, however often it occurs. */
  lemma {:induction false} HitsCountsFoundTerms(terms: seq<string>, text: string)
    requires Distinct(terms)
    ensures Hits(terms, text) == |Found(terms, text)|
  {
    if terms != [] {
      var init, last := terms[..|terms| - 1], terms[|terms| - 1];
      HitsCountsFoundTerms(init, text);
      assert terms == init + [last];
      assert last !in init;
      if Contains(text, last) {
        assert Found(terms, text) == Found(init, text) + {last};
      } else {
        assert Found(terms, text) == Found(init, text);
      }
    } else {
      assert Found(terms, text) == {};
    }
  }

  lemma TermTablesDistinct()
    ensures Distinct(PositiveTerms) && Distinct(NegativeTerms)
  {
  }

  /** When none of `terms` occurs in `text` there are no hits. */
  lemma {:induction false} HitsNone(terms: seq<string>, text: string)
    requires forall t :: t in terms ==> !Contains(text, t)
    ensures Hits(terms, text) == 0
  {
    if terms != [] {
      HitsNone(terms[..|terms| - 1], text);
    }
  }

  /** Without a positive term the job is never matched and scores zero. */
  lemma NoPositiveTermNoMatch(job: Job, preferences: Option<Preferences>)
    requires forall t :: t in PositiveTerms ==> !Contains(JobText(job), t)
    ensures Match(job, preferences) == MatchResult(false, 0.0)
  {
    HitsNone(PositiveTerms, JobText(job));
  }

  /** The job text is the lower-cased fields joined by spaces. */
  lemma JobTextParts(j: Job)
    ensures JobText(j) == ToLower(j.title) + " " + ToLower(OrEmpty(j.team)) + " " + ToLower(OrEmpty(j.location))
  {
  }

  /** The result depends only on the lower-cased title, team and location: the
      preferences, the snippet and letter case never change it. */
  lemma MatchDependsOnlyOnLoweredFields(a: Job, b: Job, pa: Option<Preferences>, pb: Option<Preferences>)
    requires ToLower(a.title) == ToLower(b.title)
    requires ToLower(OrEmpty(a.team)) == ToLower(OrEmpty(b.team))
    requires ToLower(OrEmpty(a.location)) == ToLower(OrEmpty(b.location))
    ensures Match(a, pa) == Match(b, pb)
  {
    JobTextParts(a);
    JobTextParts(b);
  }

  /** A text holding "engineering" also holds "engineer", and both terms score:
      overlapping terms count independently. */
  lemma OverlappingTermsCountIndependently(text: string)
    requires Contains(text, "engineering")
    ensures {"engineer", "engineering"} <= Found(PositiveTerms, text)
    ensures Hits(PositiveTerms, text) >= 2
  {
    assert "engineer" + "ing" == "engineering";
    ContainsExtended(text, "engineer", "ing");
    assert PositiveTerms[2] == "engineer" && PositiveTerms[3] == "engineering";
    TermTablesDistinct();
    HitsCountsFoundTerms(PositiveTerms, text);
    assert |{"engineer", "engineering"}| == 2;
    SubsetCardinality({"engineer", "engineering"}, Found(PositiveTerms, text));
  }

  /** A table term that starts a longer word of the text still scores: "system"
      counts for a text holding "systems". */
  lemma TermInsideLongerWordCounts(text: string, term: string, rest: string)
    requires term in PositiveTerms
    requires Contains(text, term + rest)
    ensures term in Found(PositiveTerms, text)
  {
    ContainsExtended(text, term, rest);
  }

  lemma SubsetCardinality(a: set<string>, b: set<string>)
    requires a <= b
    ensures |a| <= |b|
  {
    assert b == a + (b - a);
  }

  // ----- The update handler: score every job, keep the matched ones -----

  /** `{ ...job, matched, matchScore }` with the job's own computed match. */
  function Scored(job: Job, preferences: Option<Preferences>): (r: Job)
    ensures r.(matched := job.matched, matchScore := job.matchScore) == job
    ensures r.matched == Match(job, preferences).matched
    ensures r.matchScore == Some(Match(job, preferences).matchScore)
  {
    var m := Match(job, preferences);
    job.(matched := m.matched, matchScore := Some(m.matchScore))
  }

  /** `allJobs.map(...)`. */
  function Rescore(jobs: seq<Job>, preferences: Option<Preferences>): (r: seq<Job>)
    ensures |r| == |jobs|
    ensures forall i :: 0 <= i < |r| ==> r[i] == Scored(jobs[i], preferences)
  {
    seq(|jobs|, i requires 0 <= i < |jobs| => Scored(jobs[i], preferences))
  }

  /** `allJobs.map(...).filter(job => job.matched)`. */
  function UpdateJobs(jobs: seq<Job>, preferences: Option<Preferences>): (r: seq<Job>)
    ensures |r| <= |jobs|
    ensures forall i :: 0 <= i < |r| ==>
              r[i].matched && r[i].matchScore.Some? && 0.2 < r[i].matchScore.value <= 1.0
    ensures forall i :: 0 <= i < |r| ==>
              exists k :: 0 <= k < |jobs| && Match(jobs[k], preferences).matched && r[i] == Scored(jobs[k], preferences)
    ensures forall k :: 0 <= k < |jobs| && Match(jobs[k], preferences).matched ==>
              Scored(jobs[k], preferences) in r
  {
    var all := Rescore(jobs, preferences);
    var kept := Filter(all, (j: Job) => j.matched);
    assert forall i :: 0 <= i < |kept| ==> exists k :: 0 <= k < |jobs| && kept[i] == all[k];
    kept
  }

  /** The update distributes over concatenation, so it keeps the input order. */
  lemma UpdateJobsAppend(a: seq<Job>, b: seq<Job>, preferences: Option<Preferences>)
    ensures UpdateJobs(a + b, preferences) == UpdateJobs(a, preferences) + UpdateJobs(b, preferences)
  {
    assert Rescore(a + b, preferences) == Rescore(a, preferences) + Rescore(b, preferences);
    FilterAppend(Rescore(a, preferences), Rescore(b, preferences), (j: Job) => j.matched);
  }

  /** A single job survives the update exactly when it matches, carrying its own score. */
  lemma UpdateJobsSingle(job: Job, preferences: Option<Preferences>)
    ensures UpdateJobs([job], preferences) ==
            if Match(job, preferences).matched then [Scored(job, preferences)] else []
  {
  }

  /** Re-scoring a scored job changes nothing: the match ignores the two fields it writes. */
  lemma ScoredIdempotent(job: Job, p: Option<Preferences>, q: Option<Preferences>)
    ensures Scored(Scored(job, p), q) == Scored(job, p)
  {
  }

  /** Running the update on its own output returns that output. */
  lemma UpdateJobsIdempotent(jobs: seq<Job>, p: Option<Preferences>, q: Option<Preferences>)
    ensures UpdateJobs(UpdateJobs(jobs, p), q) == UpdateJobs(jobs, p)
  {
    var once := UpdateJobs(jobs, p);
    forall i | 0 <= i < |once|
      ensures Scored(once[i], q) == once[i]
    {
      var k :| 0 <= k < |jobs| && Match(jobs[k], p).matched && once[i] == Scored(jobs[k], p);
      ScoredIdempotent(jobs[k], p, q);
    }
    assert Rescore(once, q) == once;
    FilterAll(once, (j: Job) => j.matched);
  }

  // ----- The Anthropic scraper's record mapping -----

  /** One entry of the job board's `jobs` array, with the fields the mapping reads.
      A missing `departments` array is an empty one. */
  datatype BoardJob = BoardJob(
    id: string,
    title: string,
    departmentNames: seq<Option<string>>,
    locationName: Option<string>,
    updatedAt: Option<string>,
    absoluteUrl: string)

  /** At most this many board entries are kept. */
  const BoardLimit := 50

  /** `job.departments?.[0]?.name || ''`: the first department's name, or empty
      when there is no department or it has no name. */
  function FirstDepartment(b: BoardJob): (r: string)
    ensures |b.departmentNames| > 0 && b.departmentNames[0].Some? ==> r == b.departmentNames[0].value
    ensures |b.departmentNames| == 0 || b.departmentNames[0].None? ==> r == ""
  {
    if |b.departmentNames| > 0 then OrEmpty(b.departmentNames[0]) else ""
  }

  /** One board entry as a job. The board id can be read back after the prefix. */
  function FromBoard(b: BoardJob): (r: Job)
    ensures |r.id| == 10 + |b.id| && r.id[..10] == "anthropic-" && r.id[10..] == b.id
    ensures r.company == "Anthropic" && r.title == b.title && r.url == b.absoluteUrl
    ensures r.team == Some(FirstDepartment(b)) && r.location == Some(OrEmpty(b.locationName))
    ensures r.posted == b.updatedAt && r.snippet == Some("")
    ensures !r.matched && r.matchScore == Some(0.0)
  {
    Job("anthropic-" + b.id, "Anthropic", b.title, Some(FirstDepartment(b)), Some(OrEmpty(b.locationName)),
        b.updatedAt, Some(""), b.absoluteUrl, Some(0.0), false)
  }

  /** `data.jobs.slice(0, 50).map(...)`; `None` is a failed fetch or an unreadable
      response, which the scraper turns into an empty list. */
  function AnthropicJobs(response: Option<seq<BoardJob>>): (r: seq<Job>)
    ensures response.None? ==> r == []
    ensures response.Some? ==> |r| == if |response.value| < BoardLimit then |response.value| else BoardLimit
    ensures forall i :: 0 <= i < |r| ==>
              && r[i].id == "anthropic-" + response.value[i].id
              && r[i].company == "Anthropic"
              && r[i].title == response.value[i].title
              && r[i].url == response.value[i].absoluteUrl
              && r[i].team == Some(FirstDepartment(response.value[i]))
              && r[i].location == Some(OrEmpty(response.value[i].locationName))
              && r[i].posted == response.value[i].updatedAt
              && r[i].snippet == Some("")
              && !r[i].matched
              && r[i].matchScore == Some(0.0)
  {
    match response
    case None => []
    case Some(board) =>
      var kept := if |board| <= BoardLimit then board else board[..BoardLimit];
      seq(|kept|, i requires 0 <= i < |kept| => FromBoard(kept[i]))
  }

  /** The jobs the update handler stores: the Anthropic board's records scored
      and filtered (the other-companies scraper contributes no jobs). */
  function RefreshedJobs(response: Option<seq<BoardJob>>, preferences: Option<Preferences>): (r: seq<Job>)
    ensures |r| <= BoardLimit
    ensures forall i :: 0 <= i < |r| ==>
              && r[i].company == "Anthropic"
              && r[i].matched
              && |r[i].id| >= 10 && r[i].id[..10] == "anthropic-"
  {
    var scraped := AnthropicJobs(response);
    var r := UpdateJobs(scraped, preferences);
    assert forall i :: 0 <= i < |r| ==>
      exists k :: 0 <= k < |scraped| && r[i] == Scored(scraped[k], preferences);
    r
  }
}
