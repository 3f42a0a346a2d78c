/** The web client's per-company sorting: the column-header click handler
    (`handleSort`), the order it induces on a company's jobs (`sortJobs`) and the
    arrow shown next to each header (`getSortIndicator`). */
module SortControls {
  import opened Text
  import opened Jobs

  datatype SortColumn = Title | Location | Match
  datatype Direction = Asc | Desc

  /** The two records kept per company name. A company never clicked has no
      entry; `None` is an explicit `null`. Both read the same way. */
  datatype SortState = SortState(
    columns: map<string, Option<SortColumn>>,
    directions: map<string, Option<Direction>>)

  function ColumnOf(st: SortState, company: string): Option<SortColumn>
  {
    if company in st.columns then st.columns[company] else None
  }

  function DirectionOf(st: SortState, company: string): Option<Direction>
  {
    if company in st.directions then st.directions[company] else None
  }

  /** A company's column is unset exactly when its direction is unset. */
  ghost predicate Consistent(st: SortState)
  {
    forall company :: ColumnOf(st, company).None? <==> DirectionOf(st, company).None?
  }

  /** The direction after a click on `column`: another column starts at asc, and
      a click on the current column always changes the direction. */
  function NextDirection(current: Option<SortColumn>, direction: Option<Direction>, column: SortColumn): (r: Option<Direction>)
    ensures current != Some(column) ==> r == Some(Asc)
    ensures current == Some(column) ==> r != direction
  {
    if current == Some(column) then
      match direction
      case Some(Asc) => Some(Desc)
      case Some(Desc) => None
      case None => Some(Asc)
    else
      Some(Asc)
  }

  /** `handleSort(company, column)`: on the company's current column the
      direction cycles asc, desc, none; any other column starts at asc. Only the
      company's entries are written. */
  function HandleSort(st: SortState, company: string, column: SortColumn): (r: SortState)
    ensures r.columns.Keys == st.columns.Keys + {company}
    ensures r.directions.Keys == st.directions.Keys + {company}
    ensures forall c :: c in st.columns && c != company ==> r.columns[c] == st.columns[c]
    ensures forall c :: c in st.directions && c != company ==> r.directions[c] == st.directions[c]
    ensures ColumnOf(r, company).None? <==> DirectionOf(r, company).None?
    ensures ColumnOf(r, company).Some? ==> ColumnOf(r, company) == Some(column)
    ensures ColumnOf(st, company) != Some(column) ==> DirectionOf(r, company) == Some(Asc)
    ensures ColumnOf(st, company) == Some(column) ==>
              (DirectionOf(st, company) == Some(Asc) ==> DirectionOf(r, company) == Some(Desc)) &&
              (DirectionOf(st, company) == Some(Desc) ==> DirectionOf(r, company) == None) &&
              (DirectionOf(st, company) == None ==> DirectionOf(r, company) == Some(Asc))
  {
    var newDirection := NextDirection(ColumnOf(st, company), DirectionOf(st, company), column);
    SortState(st.columns[company := if newDirection.Some? then Some(column) else None],
              st.directions[company := newDirection])
  }

  /** Every click keeps column and direction unset together. */
  lemma HandleSortKeepsConsistent(st: SortState, company: string, column: SortColumn)
    requires Consistent(st)
    ensures Consistent(HandleSort(st, company, column))
  {
    var r := HandleSort(st, company, column);
    forall c
      ensures ColumnOf(r, c).None? <==> DirectionOf(r, c).None?
    {
      if c != company {
        assert ColumnOf(r, c) == ColumnOf(st, c) && DirectionOf(r, c) == DirectionOf(st, c);
      }
    }
  }

  /** Three clicks on the same header bring a company back to where it was, when
      it was unsorted or sorted by that header. */
  lemma ThreeClicksRestore(st: SortState, company: string, column: SortColumn)
    requires ColumnOf(st, company).None? <==> DirectionOf(st, company).None?
    requires ColumnOf(st, company) == None || ColumnOf(st, company) == Some(column)
    ensures var r := HandleSort(HandleSort(HandleSort(st, company, column), company, column), company, column);
            ColumnOf(r, company) == ColumnOf(st, company) && DirectionOf(r, company) == DirectionOf(st, company)
  {
  }

  const UpArrow: string := " ▲"
  const DownArrow: string := " ▼"

  /** `getSortIndicator(column)` for one company's header. */
  function SortIndicator(st: SortState, company: string, column: SortColumn): (r: string)
    ensures r == UpArrow <==> ColumnOf(st, company) == Some(column) && DirectionOf(st, company) == Some(Asc)
    ensures r == DownArrow <==> ColumnOf(st, company) == Some(column) && DirectionOf(st, company) != Some(Asc)
    ensures r == "" <==> ColumnOf(st, company) != Some(column)
  {
    if ColumnOf(st, company) == Some(column) then
      (if DirectionOf(st, company) == Some(Asc) then UpArrow else DownArrow)
    else ""
  }

  /** After a click, only the clicked header can show an arrow, and it shows none
      exactly when the click cleared the sort. */
  lemma IndicatorAfterClick(st: SortState, company: string, column: SortColumn, other: SortColumn)
    ensures var r := HandleSort(st, company, column);
            && (other != column ==> SortIndicator(r, company, other) == "")
            && (SortIndicator(r, company, column) == "" <==> DirectionOf(r, company) == None)
            && (SortIndicator(r, company, column) == UpArrow <==> DirectionOf(r, company) == Some(Asc))
  {
  }

  // ----- sortJobs -----

  /** A value compared by the sort comparator. */
  datatype Key = Text(s: string) | Number(x: real)

  /** The comparator's `aVal < bVal`. */
  predicate KeyLess(a: Key, b: Key)
  {
    match (a, b)
    case (Text(s), Text(t)) => LexLess(s, t)
    case (Number(x), Number(y)) => x < y
    case _ => false
  }

  /** The value a column sorts by: title and location lower-cased, the score with
      a missing score read as zero. */
  function KeyOf(job: Job, column: SortColumn): (r: Key)
    ensures r.Number? <==> column == Match
    ensures r.Number? ==> r.x == ScoreOrZero(job)
    ensures column == Title ==> r == Text(ToLower(job.title))
    ensures column == Location ==> r == Text(ToLower(OrEmpty(job.location)))
    ensures r.Text? ==> forall i :: 0 <= i < |r.s| ==> !('A' <= r.s[i] <= 'Z')
  {
    match column
    case Title => Text(ToLower(job.title))
    case Location => Text(ToLower(OrEmpty(job.location)))
    case Match => Number(ScoreOrZero(job))
  }

  /** The comparator in use: the default one, or one column in one direction. */
  datatype Order = ByScoreDescending | ByColumn(column: SortColumn, direction: Direction)

  /** The order `sortJobs` applies for a company: without both a column and a
      direction it falls back to the default. */
  function OrderOf(st: SortState, company: string): (r: Order)
    ensures r.ByColumn? <==> ColumnOf(st, company).Some? && DirectionOf(st, company).Some?
    ensures r.ByColumn? ==> Some(r.column) == ColumnOf(st, company) && Some(r.direction) == DirectionOf(st, company)
  {
    match (ColumnOf(st, company), DirectionOf(st, company))
    case (Some(c), Some(d)) => ByColumn(c, d)
    case _ => ByScoreDescending
  }

  /** The comparators passed to `sort`: negative puts `a` first. */
  function Compare(a: Job, b: Job, order: Order): (r: real)
    ensures order == ByScoreDescending ==> (r < 0.0 <==> ScoreOrZero(b) < ScoreOrZero(a))
    ensures order == ByScoreDescending ==> (r == 0.0 <==> ScoreOrZero(b) == ScoreOrZero(a))
    ensures order.ByColumn? && order.direction == Asc ==>
              (r < 0.0 <==> KeyLess(KeyOf(a, order.column), KeyOf(b, order.column)))
    ensures order.ByColumn? && order.direction == Desc ==>
              (r < 0.0 <==> KeyLess(KeyOf(b, order.column), KeyOf(a, order.column)))
    ensures order.ByColumn? ==>
              (r == 0.0 <==> !KeyLess(KeyOf(a, order.column), KeyOf(b, order.column)) &&
                             !KeyLess(KeyOf(b, order.column), KeyOf(a, order.column)))
  {
    match order
    case ByScoreDescending => ScoreOrZero(b) - ScoreOrZero(a)
    case ByColumn(column, direction) =>
      KeysOfOneColumnAreOrdered(a, b, a, column);
      var aVal, bVal := KeyOf(a, column), KeyOf(b, column);
      if KeyLess(aVal, bVal) then (if direction == Asc then -1.0 else 1.0)
      else if KeyLess(bVal, aVal) then (if direction == Asc then 1.0 else -1.0)
      else 0.0
  }

  /** No later element compares before an earlier one. */
  ghost predicate Sorted(s: seq<Job>, order: Order)
  {
    forall i, j :: 0 <= i < j < |s| ==> Compare(s[i], s[j], order) <= 0.0
  }

  lemma KeysOfOneColumnAreOrdered(a: Job, b: Job, c: Job, column: SortColumn)
    ensures KeyLess(KeyOf(a, column), KeyOf(b, column)) ==> !KeyLess(KeyOf(b, column), KeyOf(a, column))
    ensures KeyLess(KeyOf(c, column), KeyOf(a, column)) ==>
              KeyLess(KeyOf(c, column), KeyOf(b, column)) || KeyLess(KeyOf(b, column), KeyOf(a, column))
  {
    var ka, kb, kc := KeyOf(a, column), KeyOf(b, column), KeyOf(c, column);
    if column != Match {
      LexLessAsymmetric(ka.s, kb.s);
      LexLessTotal(ka.s, kb.s);
      LexLessTransitive(kc.s, ka.s, kb.s);
    }
  }

  /** A comparator that puts `a` after `b` does not put `b` after `a`. */
  lemma CompareFlip(a: Job, b: Job, order: Order)
    ensures Compare(a, b, order) > 0.0 ==> Compare(b, a, order) <= 0.0
  {
  }

  /** Every comparator returns zero when a job is compared with itself. */
  lemma CompareWithItself(a: Job, order: Order)
    ensures Compare(a, a, order) == 0.0
  {
    if order.ByColumn? && order.column != Match {
      LexLessIrreflexive(KeyOf(a, order.column).s);
    }
  }

  /** Sorting by title or location ignores letter case: jobs whose lower-cased
      field is the same compare as equal in either direction. */
  lemma SortIgnoresCase(a: Job, b: Job, direction: Direction)
    ensures ToLower(a.title) == ToLower(b.title) ==> Compare(a, b, ByColumn(Title, direction)) == 0.0
    ensures ToLower(OrEmpty(a.location)) == ToLower(OrEmpty(b.location)) ==>
              Compare(a, b, ByColumn(Location, direction)) == 0.0
  {
    LexLessIrreflexive(ToLower(a.title));
    LexLessIrreflexive(ToLower(OrEmpty(a.location)));
  }

  /** "Not after" is transitive. */
  lemma CompareTransitive(a: Job, b: Job, c: Job, order: Order)
    ensures Compare(a, b, order) <= 0.0 && Compare(b, c, order) <= 0.0 ==> Compare(a, c, order) <= 0.0
  {
    if order.ByColumn? {
      var col := order.column;
      KeysOfOneColumnAreOrdered(a, b, c, col);
      KeysOfOneColumnAreOrdered(c, b, a, col);
      KeysOfOneColumnAreOrdered(a, c, b, col);
      KeysOfOneColumnAreOrdered(b, a, c, col);
    }
  }

  /** Puts `x` before the first element it does not compare after. */
  function Insert(x: Job, s: seq<Job>, order: Order): (r: seq<Job>)
    ensures multiset(r) == multiset(s) + multiset{x}
  {
    if s == [] then [x]
    else if Compare(x, s[0], order) <= 0.0 then [x] + s
    else
      assert s == [s[0]] + s[1..];
      [s[0]] + Insert(x, s[1..], order)
  }

  /** A sorted list stays sorted under a new head that compares before all of it. */
  lemma SortedCons(x: Job, s: seq<Job>, order: Order)
    requires Sorted(s, order)
    requires forall k :: 0 <= k < |s| ==> Compare(x, s[k], order) <= 0.0
    ensures Sorted([x] + s, order)
  {
  }

  lemma {:induction false} InsertSorted(x: Job, s: seq<Job>, order: Order)
    requires Sorted(s, order)
    ensures Sorted(Insert(x, s, order), order)
  {
    if s == [] {
    } else if Compare(x, s[0], order) <= 0.0 {
      forall k | 0 <= k < |s|
        ensures Compare(x, s[k], order) <= 0.0
      {
        CompareTransitive(x, s[0], s[k], order);
      }
      SortedCons(x, s, order);
    } else {
      var t := Insert(x, s[1..], order);
      assert Sorted(s[1..], order) by {
        forall i, j | 0 <= i < j < |s[1..]|
          ensures Compare(s[1..][i], s[1..][j], order) <= 0.0
        {
          assert s[1..][i] == s[i + 1] && s[1..][j] == s[j + 1];
        }
      }
      InsertSorted(x, s[1..], order);
      CompareFlip(x, s[0], order);
      forall k | 0 <= k < |t|
        ensures Compare(s[0], t[k], order) <= 0.0
      {
        assert t[k] in multiset(t);
        assert t[k] in multiset(s[1..]) + multiset{x};
        if t[k] != x {
          assert t[k] in s[1..];
          var m :| 0 <= m < |s[1..]| && s[1..][m] == t[k];
          assert s[m + 1] == t[k];
        }
      }
      SortedCons(s[0], t, order);
    }
  }

  /** What sortedness means for each comparator. */
  lemma SortedMeaning(r: seq<Job>, order: Order)
    requires Sorted(r, order)
    ensures order == ByScoreDescending ==>
              forall i, j :: 0 <= i < j < |r| ==> ScoreOrZero(r[j]) <= ScoreOrZero(r[i])
    ensures order.ByColumn? && order.direction == Asc ==>
              forall i, j :: 0 <= i < j < |r| ==> !KeyLess(KeyOf(r[j], order.column), KeyOf(r[i], order.column))
    ensures order.ByColumn? && order.direction == Desc ==>
              forall i, j :: 0 <= i < j < |r| ==> !KeyLess(KeyOf(r[i], order.column), KeyOf(r[j], order.column))
  {
    forall i, j | 0 <= i < j < |r|
      ensures order.ByColumn? ==> (order.direction == Asc ==> !KeyLess(KeyOf(r[j], order.column), KeyOf(r[i], order.column)))
      ensures order.ByColumn? ==> (order.direction == Desc ==> !KeyLess(KeyOf(r[i], order.column), KeyOf(r[j], order.column)))
    {
      assert Compare(r[i], r[j], order) <= 0.0;
      if order.ByColumn? {
        KeysOfOneColumnAreOrdered(r[i], r[j], r[i], order.column);
      }
    }
  }

  /** The stable insertion sort standing for `[...jobs].sort(comparator)`. */
  function SortBy(s: seq<Job>, order: Order): (r: seq<Job>)
    ensures multiset(r) == multiset(s)
  {
    if s == [] then []
    else
      assert s == [s[0]] + s[1..];
      Insert(s[0], SortBy(s[1..], order), order)
  }

  lemma {:induction false} SortBySorted(s: seq<Job>, order: Order)
    ensures Sorted(SortBy(s, order), order)
  {
    if s != [] {
      SortBySorted(s[1..], order);
      InsertSorted(s[0], SortBy(s[1..], order), order);
    }
  }

  /** `sortJobs(jobs, company)`: a sorted copy of the company's jobs. Without a
      column and direction the scores do not increase; with them the column's
      key never decreases (asc) or never increases (desc). */
  function SortJobs(jobs: seq<Job>, st: SortState, company: string): (r: seq<Job>)
    ensures multiset(r) == multiset(jobs)
    ensures |r| == |jobs|
    ensures ColumnOf(st, company).None? || DirectionOf(st, company).None? ==>
              forall i, j :: 0 <= i < j < |r| ==> ScoreOrZero(r[j]) <= ScoreOrZero(r[i])
    ensures ColumnOf(st, company).Some? && DirectionOf(st, company) == Some(Asc) ==>
              var c := ColumnOf(st, company).value;
              forall i, j :: 0 <= i < j < |r| ==> !KeyLess(KeyOf(r[j], c), KeyOf(r[i], c))
    ensures ColumnOf(st, company).Some? && DirectionOf(st, company) == Some(Desc) ==>
              var c := ColumnOf(st, company).value;
              forall i, j :: 0 <= i < j < |r| ==> !KeyLess(KeyOf(r[i], c), KeyOf(r[j], c))
  {
    var order := OrderOf(st, company);
    SortBySorted(jobs, order);
    var r := SortBy(jobs, order);
    SortedMeaning(r, order);
    assert |multiset(r)| == |multiset(jobs)|;
    r
  }

  /** The default comparator orders jobs as a descending sort on the match column. */
  lemma DefaultIsMatchDescending(a: Job, b: Job)
    ensures Compare(a, b, ByScoreDescending) <= 0.0 <==> Compare(a, b, ByColumn(Match, Desc)) <= 0.0
  {
  }
}
