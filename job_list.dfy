/** The web client's list logic: the saved-job and collapsed-company toggles,
    the grouping of the fetched jobs by company, and the filters applied to one
    company's jobs before they are sorted and shown. */
module JobList {
  import opened Text
  import opened Seqs
  import opened Jobs
  import opened SortControls

  // ----- toggleSaveJob / toggleCompany -----

  /** `after` is `before` with the membership of `x` flipped and nothing else changed. */
  ghost predicate Flipped(before: set<string>, after: set<string>, x: string)
  {
    && (x in after <==> x !in before)
    && forall y :: y != x ==> (y in after <==> y in before)
  }

  /** `toggleSaveJob(jobId)`: copies the saved set, then deletes or adds the id. */
  method ToggleSaveJob(savedJobs: set<string>, jobId: string) returns (newSet: set<string>)
    ensures Flipped(savedJobs, newSet, jobId)
  {
    newSet := savedJobs;
    if jobId in newSet {
      newSet := newSet - {jobId};
    } else {
      newSet := newSet + {jobId};
    }
  }

  /** `toggleCompany(company)`: copies the collapsed set, then deletes or adds the company. */
  method ToggleCompany(collapsedCompanies: set<string>, company: string) returns (newSet: set<string>)
    ensures Flipped(collapsedCompanies, newSet, company)
    ensures |newSet| == if company in collapsedCompanies then |collapsedCompanies| - 1 else |collapsedCompanies| + 1
  {
    newSet := collapsedCompanies;
    if company in newSet {
      newSet := newSet - {company};
    } else {
      newSet := newSet + {company};
    }
  }

  /** Toggling the same element twice restores the set. */
  lemma ToggleTwiceRestores(s: set<string>, t: set<string>, u: set<string>, x: string)
    requires Flipped(s, t, x) && Flipped(t, u, x)
    ensures u == s
  {
  }

  /** A flip determines the new set. */
  lemma FlipIsDeterministic(s: set<string>, t: set<string>, t': set<string>, x: string)
    requires Flipped(s, t, x) && Flipped(s, t', x)
    ensures t == t'
  {
  }

  // ----- jobsByCompany -----

  function AtCompany(company: string): Job -> bool
  {
    (j: Job) => j.company == company
  }

  /** The jobs of one company, in their original order. */
  function OfCompany(jobs: seq<Job>, company: string): seq<Job>
  {
    Filter(jobs, AtCompany(company))
  }

  function Companies(jobs: seq<Job>): set<string>
  {
    set j | j in jobs :: j.company
  }

  /** A company absent from the jobs has an empty bucket. */
  lemma {:induction false} OfCompanyAbsent(jobs: seq<Job>, company: string)
    requires company !in Companies(jobs)
    ensures OfCompany(jobs, company) == []
  {
    if jobs != [] {
      assert jobs[0] in jobs && Companies(jobs[1..]) <= Companies(jobs);
      OfCompanyAbsent(jobs[1..], company);
    }

  }

  lemma CompaniesSnoc(prefix: seq<Job>, job: Job)
    ensures Companies(prefix + [job]) == Companies(prefix) + {job.company}
  {
  }

  /** Appending one job extends exactly its own company's bucket. */
  lemma OfCompanySnoc(prefix: seq<Job>, job: Job, c: string)
    ensures OfCompany(prefix + [job], c) == OfCompany(prefix, c) + (if job.company == c then [job] else [])
  {
    FilterAppend(prefix, [job], AtCompany(c));
    assert OfCompany([job], c) == (if job.company == c then [job] else []) by {
      assert [job][1..] == [];
    }
  }

  /** Pushing a job onto its company's bucket keeps every bucket equal to that
      company's jobs so far. */
  lemma PushKeepsBuckets(before: map<string, seq<Job>>, after: map<string, seq<Job>>, prefix: seq<Job>, job: Job)
    requires before.Keys == Companies(prefix)
    requires forall c :: c in before ==> before[c] == OfCompany(prefix, c)
    requires after == before[job.company := (if job.company in before then before[job.company] else []) + [job]]
    ensures after.Keys == Companies(prefix + [job])
    ensures forall c :: c in after ==> after[c] == OfCompany(prefix + [job], c)
  {
    CompaniesSnoc(prefix, job);
    forall c | c in after
      ensures after[c] == OfCompany(prefix + [job], c)
    {
      OfCompanySnoc(prefix, job, c);
      if c != job.company {
        assert after[c] == before[c];
      } else if job.company !in before {
        OfCompanyAbsent(prefix, job.company);
      }
    }
  }

  lemma PrefixSnoc<T>(s: seq<T>, i: nat)
    requires i < |s|
    ensures s[..i + 1] == s[..i] + [s[i]]
  {
  }

  /** The `reduce` that pushes each job onto its company's list. */
  method GroupByCompany(jobs: seq<Job>) returns (acc: map<string, seq<Job>>)
    ensures acc.Keys == Companies(jobs)
    ensures forall c :: c in acc ==> acc[c] == OfCompany(jobs, c)
  {
    acc := map[];
    for i := 0 to |jobs|
      invariant acc.Keys == Companies(jobs[..i])
      invariant forall c :: c in acc ==> acc[c] == OfCompany(jobs[..i], c)
    {
      var job := jobs[i];
      ghost var before := acc;
      if job.company !in acc {
        acc := acc[job.company := []];
      }
      acc := acc[job.company := acc[job.company] + [job]];
      PushKeepsBuckets(before, acc, jobs[..i], job);
      PrefixSnoc(jobs, i);
    }
    assert jobs[..|jobs|] == jobs;
  }

  /** The summed sizes of the named companies' buckets. */
  function BucketSizes(jobs: seq<Job>, companies: seq<string>): nat
  {
    if companies == [] then 0
    else |OfCompany(jobs, companies[0])| + BucketSizes(jobs, companies[1..])
  }

  lemma {:induction false} BucketSizesOfOne(job: Job, companies: seq<string>)
    requires Distinct(companies)
    ensures BucketSizes([job], companies) == if job.company in companies then 1 else 0
  {
    if companies != [] {
      BucketSizesOfOne(job, companies[1..]);
      assert job.company == companies[0] ==> job.company !in companies[1..];
      assert job.company in companies <==> job.company == companies[0] || job.company in companies[1..];
    }
  }

  lemma {:induction false} BucketSizesOfNone(companies: seq<string>)
    ensures BucketSizes([], companies) == 0
  {
    if companies != [] { BucketSizesOfNone(companies[1..]); }
  }

  lemma {:induction false} BucketSizesAppend(a: seq<Job>, b: seq<Job>, companies: seq<string>)
    ensures BucketSizes(a + b, companies) == BucketSizes(a, companies) + BucketSizes(b, companies)
  {
    if companies != [] {
      BucketSizesAppend(a, b, companies[1..]);
      FilterAppend(a, b, AtCompany(companies[0]));
    }
  }

  /** Listing every company once, the bucket sizes add up to the number of jobs. */
  lemma {:induction false} BucketSizesSum(jobs: seq<Job>, companies: seq<string>)
    requires Distinct(companies)
    requires Companies(jobs) <= set c | c in companies
    ensures BucketSizes(jobs, companies) == |jobs|
  {
    if jobs != [] {
      assert jobs == [jobs[0]] + jobs[1..];
      assert Companies(jobs[1..]) <= Companies(jobs);
      assert jobs[0].company in Companies(jobs);
      BucketSizesSum(jobs[1..], companies);
      BucketSizesOfOne(jobs[0], companies);
      BucketSizesAppend([jobs[0]], jobs[1..], companies);
    } else {
      BucketSizesOfNone(companies);
    }
  }

  /** `jobsByCompany[company] || []`. */
  function CompanyJobs(groups: map<string, seq<Job>>, company: string): seq<Job>
  {
    if company in groups then groups[company] else []
  }

  /** Reading a company's jobs from the grouping gives exactly that company's jobs
      in their original order, and none for a company without jobs. */
  lemma CompanyJobsOfGrouping(jobs: seq<Job>, groups: map<string, seq<Job>>, company: string)
    requires groups.Keys == Companies(jobs)
    requires forall c :: c in groups ==> groups[c] == OfCompany(jobs, c)
    ensures CompanyJobs(groups, company) == OfCompany(jobs, company)
  {
    if company !in groups {
      OfCompanyAbsent(jobs, company);
    }
  }

  // ----- the filters applied to one company's jobs -----

  /** The search box: an empty term keeps every job, `:saved` keeps the saved
      jobs, and any other term keeps jobs whose lower-cased title or location
      contains the lower-cased term. */
  function SearchPasses(job: Job, searchTerm: string, savedJobs: set<string>): (b: bool)
    ensures searchTerm == "" ==> b
    ensures searchTerm == ":saved" ==> (b <==> job.id in savedJobs)
  {
    if searchTerm == "" then true
    else if searchTerm == ":saved" then job.id in savedJobs
    else
      var searchLower := ToLower(searchTerm);
      Contains(ToLower(job.title), searchLower) || Contains(ToLower(OrEmpty(job.location)), searchLower)
  }

  /** A search term other than `:saved` keeps a job exactly when the lower-cased
      term occurs at some position of its lower-cased title or location. */
  lemma SearchTermOccurs(job: Job, searchTerm: string, savedJobs: set<string>)
    requires searchTerm != "" && searchTerm != ":saved"
    ensures SearchPasses(job, searchTerm, savedJobs) <==>
              OccursSomewhere(ToLower(job.title), ToLower(searchTerm)) ||
              OccursSomewhere(ToLower(OrEmpty(job.location)), ToLower(searchTerm))
  {
    ContainsAt(ToLower(job.title), ToLower(searchTerm));
    ContainsAt(ToLower(OrEmpty(job.location)), ToLower(searchTerm));
  }

  /** The location select on a lower-cased location; `usStateName` stands for the
      regular-expression test for a spelled-out state name. "remote" keeps the
      locations holding "remote" at some position, and any other value keeps all. */
  function LocationTest(location: string, locationFilter: string, usStateName: string -> bool): (b: bool)
    ensures locationFilter == "remote" ==> (b <==> OccursSomewhere(location, "remote"))
    ensures locationFilter != "us" && locationFilter != "remote" ==> b
    ensures locationFilter == "us" && (Contains(location, "us") || usStateName(location)) ==> b
  {
    ContainsAt(location, "remote");
    if locationFilter == "us" then
      || Contains(location, "united states")
      || Contains(location, "us")
      || Contains(location, ", ca")
      || Contains(location, ", ny")
      || Contains(location, ", tx")
      || Contains(location, ", wa")
      || usStateName(location)
    else if locationFilter == "remote" then Contains(location, "remote")
    else true
  }

  /** The "us" choice tests for the letters "us" anywhere, so a location outside
      the United States such as "sydney, australia" passes it. */
  lemma UsFilterAdmitsAustralia(usStateName: string -> bool)
    ensures LocationTest("sydney, australia", "us", usStateName)
  {
  }

  /** The location select applied to a job; "all" skips it. */
  function LocationPasses(job: Job, locationFilter: string, usStateName: string -> bool): (b: bool)
    ensures locationFilter == "all" ==> b
    ensures locationFilter == "remote" ==> (b <==> Contains(ToLower(OrEmpty(job.location)), "remote"))
  {
    locationFilter == "all" || LocationTest(ToLower(OrEmpty(job.location)), locationFilter, usStateName)
  }

  /** Whether a job of the company is listed. */
  predicate Shown(job: Job, searchTerm: string, savedJobs: set<string>, locationFilter: string, usStateName: string -> bool)
  {
    job.matched && SearchPasses(job, searchTerm, savedJobs) && LocationPasses(job, locationFilter, usStateName)
  }

  function IsMatched(): Job -> bool
  {
    (j: Job) => j.matched
  }

  function SearchBox(searchTerm: string, savedJobs: set<string>): Job -> bool
  {
    (j: Job) => SearchPasses(j, searchTerm, savedJobs)
  }

  function LocationSelect(locationFilter: string, usStateName: string -> bool): Job -> bool
  {
    (j: Job) => LocationPasses(j, locationFilter, usStateName)
  }

  function ShownBy(searchTerm: string, savedJobs: set<string>, locationFilter: string, usStateName: string -> bool): Job -> bool
  {
    (j: Job) => Shown(j, searchTerm, savedJobs, locationFilter, usStateName)
  }

  /** `companyJobs.filter(job => job.matched)`: its length is the heading's
      matched count. */
  function MatchedJobs(companyJobs: seq<Job>): (r: seq<Job>)
    ensures |r| == Count(companyJobs, IsMatched())
    ensures forall i :: 0 <= i < |r| ==> r[i] in companyJobs && r[i].matched
  {
    FilterLength(companyJobs, IsMatched());
    Filter(companyJobs, IsMatched())
  }

  /** The search-box step: nothing when the term is empty, the saved ids for
      `:saved`, otherwise a case-insensitive title-or-location search. */
  function SearchStage(jobs: seq<Job>, searchTerm: string, savedJobs: set<string>): (r: seq<Job>)
    ensures r == Filter(jobs, SearchBox(searchTerm, savedJobs))
  {
    if searchTerm == "" then
      FilterAll(jobs, SearchBox(searchTerm, savedJobs));
      jobs
    else if searchTerm == ":saved" then
      var saved := (j: Job) => j.id in savedJobs;
      FilterSame(jobs, saved, SearchBox(searchTerm, savedJobs));
      Filter(jobs, saved)
    else
      var searchLower := ToLower(searchTerm);
      var hit := (j: Job) => Contains(ToLower(j.title), searchLower) || Contains(ToLower(OrEmpty(j.location)), searchLower);
      FilterSame(jobs, hit, SearchBox(searchTerm, savedJobs));
      Filter(jobs, hit)
  }

  /** The location-select step, skipped for "all". */
  function LocationStage(jobs: seq<Job>, locationFilter: string, usStateName: string -> bool): (r: seq<Job>)
    ensures r == Filter(jobs, LocationSelect(locationFilter, usStateName))
  {
    if locationFilter != "all" then
      var test := (j: Job) => LocationTest(ToLower(OrEmpty(j.location)), locationFilter, usStateName);
      FilterSame(jobs, test, LocationSelect(locationFilter, usStateName));
      Filter(jobs, test)
    else
      FilterAll(jobs, LocationSelect(locationFilter, usStateName));
      jobs
  }

  /** The chain of `filter` reassignments: matched jobs, then the search, then the
      location select. It is one filter by `Shown`, so it keeps the input order,
      and the counts shown in the heading satisfy filtered <= matched <= total. */
  function VisibleJobs(companyJobs: seq<Job>, searchTerm: string, savedJobs: set<string>,
                       locationFilter: string, usStateName: string -> bool): (r: seq<Job>)
    ensures r == Filter(companyJobs, ShownBy(searchTerm, savedJobs, locationFilter, usStateName))
    ensures |r| <= |MatchedJobs(companyJobs)| <= |companyJobs|
  {
    var matchedJobs := MatchedJobs(companyJobs);
    var searched := SearchStage(matchedJobs, searchTerm, savedJobs);
    var r := LocationStage(searched, locationFilter, usStateName);
    ShownIsOneFilter(companyJobs, searchTerm, savedJobs, locationFilter, usStateName);
    r
  }

  lemma ShownIsOneFilter(companyJobs: seq<Job>, searchTerm: string, savedJobs: set<string>,
                         locationFilter: string, usStateName: string -> bool)
    ensures Filter(Filter(Filter(companyJobs, IsMatched()), SearchBox(searchTerm, savedJobs)),
                   LocationSelect(locationFilter, usStateName))
            == Filter(companyJobs, ShownBy(searchTerm, savedJobs, locationFilter, usStateName))
  {
    FilterThree(companyJobs, IsMatched(), SearchBox(searchTerm, savedJobs),
                LocationSelect(locationFilter, usStateName),
                ShownBy(searchTerm, savedJobs, locationFilter, usStateName));
  }

  /** What the listed jobs satisfy: each is a matched job of the company that
      passes the search box and the location select, and every such job is listed. */
  lemma VisibleJobsMeaning(companyJobs: seq<Job>, searchTerm: string, savedJobs: set<string>,
                           locationFilter: string, usStateName: string -> bool)
    ensures var r := VisibleJobs(companyJobs, searchTerm, savedJobs, locationFilter, usStateName);
            && (forall i :: 0 <= i < |r| ==> r[i] in companyJobs && r[i].matched)
            && (forall k :: 0 <= k < |companyJobs| && Shown(companyJobs[k], searchTerm, savedJobs, locationFilter, usStateName) ==>
                  companyJobs[k] in r)
            && (searchTerm == ":saved" ==> forall i :: 0 <= i < |r| ==> r[i].id in savedJobs)
            && (searchTerm != "" && searchTerm != ":saved" ==>
                  forall i :: 0 <= i < |r| ==>
                    Contains(ToLower(r[i].title), ToLower(searchTerm)) ||
                    Contains(ToLower(OrEmpty(r[i].location)), ToLower(searchTerm)))
            && (locationFilter == "remote" ==>
                  forall i :: 0 <= i < |r| ==> Contains(ToLower(OrEmpty(r[i].location)), "remote"))
  {
    var r := VisibleJobs(companyJobs, searchTerm, savedJobs, locationFilter, usStateName);
    forall i | 0 <= i < |r|
      ensures Shown(r[i], searchTerm, savedJobs, locationFilter, usStateName)
    {
      assert ShownBy(searchTerm, savedJobs, locationFilter, usStateName)(r[i]);
    }
  }

  /** One company's rows: its jobs from the grouping, filtered, then sorted. The
      sort only reorders the visible jobs. */
  function CompanyRows(groups: map<string, seq<Job>>, company: string, searchTerm: string,
                       savedJobs: set<string>, locationFilter: string, usStateName: string -> bool,
                       st: SortState): (r: seq<Job>)
    ensures multiset(r) == multiset(VisibleJobs(CompanyJobs(groups, company), searchTerm, savedJobs, locationFilter, usStateName))
  {
    SortJobs(VisibleJobs(CompanyJobs(groups, company), searchTerm, savedJobs, locationFilter, usStateName), st, company)
  }

  /** Every row shown under a company is a matched job of that company. */
  lemma CompanyRowsAreMatchedJobsOfTheCompany(groups: map<string, seq<Job>>, company: string, searchTerm: string,
                                              savedJobs: set<string>, locationFilter: string, usStateName: string -> bool,
                                              st: SortState)
    ensures var r := CompanyRows(groups, company, searchTerm, savedJobs, locationFilter, usStateName, st);
            forall i :: 0 <= i < |r| ==> r[i] in CompanyJobs(groups, company) && r[i].matched
  {
    var r := CompanyRows(groups, company, searchTerm, savedJobs, locationFilter, usStateName, st);
    var visible := VisibleJobs(CompanyJobs(groups, company), searchTerm, savedJobs, locationFilter, usStateName);
    VisibleJobsMeaning(CompanyJobs(groups, company), searchTerm, savedJobs, locationFilter, usStateName);
    forall i | 0 <= i < |r|
      ensures r[i] in visible
    {
      assert r[i] in multiset(r);
    }
  }
}
