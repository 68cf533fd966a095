/**
  The visitor ledger: a `visitors` table holding one profile per barcode
  and an append-only `visit_history` table holding one row per check-in,
  the check-in operation that updates both in one transaction, and the
  read-only queries over them.

  The SQLite tables are modelled as a map and a sequence; the AUTOINCREMENT
  counter of `visit_history` is `nextId`. The clock is a parameter.
 */
module Database {
  import opened Wrappers

  /** A row of `visitors`; its key, the barcode, is the map key. */
  datatype Profile = Profile(name: string, firstVisitDate: string, visitCount: int, lastVisitDate: string)

  /** A row of `visit_history`; `isFirstVisit` is the stored INTEGER (1 or 0). */
  datatype Visit = Visit(id: int, barcode: string, name: string, visitDate: string, visitTime: string, isFirstVisit: int)

  /** The contents of the two tables, and the next AUTOINCREMENT id. */
  datatype Store = Store(visitors: map<string, Profile>, history: seq<Visit>, nextId: int)

  /** Freshly created tables. */
  const EmptyStore := Store(map[], [], 1)

  /** The three readings `check_in` takes of the clock: date, time of day, and both together. */
  datatype Clock = Clock(date: string, time: string, datetime: string)

  /** What `check_in` returns: first visit or not, the visit count, and a timestamp. */
  datatype CheckInOutcome = CheckInOutcome(isFirstVisit: bool, visitCount: int, lastVisit: string)

  /** The statements of `check_in` at which the storage layer may fail. */
  datatype Stage = Connect | LookUp | WriteProfile | AppendVisit | Commit

  datatype StorageError = StorageError(stage: Stage)

  // ---------------------------------------------------------------------
  // Counting history rows

  /** Number of history rows carrying `barcode`. */
  function VisitsOf(history: seq<Visit>, barcode: string): (n: nat)
    ensures n <= |history|
  {
    if |history| == 0 then 0
    else VisitsOf(history[..|history| - 1], barcode) + (if history[|history| - 1].barcode == barcode then 1 else 0)
  }

  /** Number of history rows flagged as first visits (`is_first_visit = 1`). */
  function FirstVisits(history: seq<Visit>): (n: nat)
    ensures n <= |history|
  {
    if |history| == 0 then 0
    else FirstVisits(history[..|history| - 1]) + (if history[|history| - 1].isFirstVisit == 1 then 1 else 0)
  }

  /** Some earlier row carries the same barcode as row `i`. */
  predicate SeenBefore(history: seq<Visit>, i: nat)
    requires i < |history|
  {
    exists j :: 0 <= j < i && history[j].barcode == history[i].barcode
  }

  lemma VisitsOfSnoc(history: seq<Visit>, v: Visit, barcode: string)
    ensures VisitsOf(history + [v], barcode) == VisitsOf(history, barcode) + (if v.barcode == barcode then 1 else 0)
  {
    assert (history + [v])[..|history|] == history;
  }

  lemma FirstVisitsSnoc(history: seq<Visit>, v: Visit)
    ensures FirstVisits(history + [v]) == FirstVisits(history) + (if v.isFirstVisit == 1 then 1 else 0)
  {
    assert (history + [v])[..|history|] == history;
  }

  /** A barcode no row carries has no visits. */
  lemma {:induction false} VisitsOfAbsent(history: seq<Visit>, barcode: string)
    requires forall i :: 0 <= i < |history| ==> history[i].barcode != barcode
    ensures VisitsOf(history, barcode) == 0
  {
    if |history| > 0 {
      VisitsOfAbsent(history[..|history| - 1], barcode);
    }
  }

  /** A barcode with a visit is carried by some row. */
  lemma {:induction false} VisitsOfPresent(history: seq<Visit>, barcode: string)
    requires VisitsOf(history, barcode) > 0
    ensures exists i :: 0 <= i < |history| && history[i].barcode == barcode
  {
    var front := history[..|history| - 1];
    if history[|history| - 1].barcode != barcode {
      VisitsOfPresent(front, barcode);
      var i :| 0 <= i < |front| && front[i].barcode == barcode;
      assert history[i] == front[i];
    }
  }

  // ---------------------------------------------------------------------
  // The ledger invariant

  /** Each profile's `visit_count` is at least 1 and equals the number of its history rows. */
  predicate CountsMatch(s: Store) {
    forall b :: b in s.visitors ==> 1 <= s.visitors[b].visitCount == VisitsOf(s.history, b)
  }

  /** Every history row refers to an existing profile (the FOREIGN KEY of `visit_history`). */
  predicate RowsHaveProfiles(s: Store) {
    forall i :: 0 <= i < |s.history| ==> s.history[i].barcode in s.visitors
  }

  /** A row is flagged as a first visit exactly when no earlier row has its barcode. */
  predicate FirstFlagsExact(s: Store) {
    forall i :: 0 <= i < |s.history| ==> s.history[i].isFirstVisit == if SeenBefore(s.history, i) then 0 else 1
  }

  /** There are as many profiles as first-visit rows. */
  predicate ProfilesCounted(s: Store) {
    |s.visitors| == FirstVisits(s.history)
  }

  /** Row ids are positive, strictly increasing, and below the next id, which is positive. */
  predicate IdsIncreasing(s: Store) {
    && 1 <= s.nextId
    && (forall i :: 0 <= i < |s.history| ==> 1 <= s.history[i].id < s.nextId)
    && (forall i, j :: 0 <= i < j < |s.history| ==> s.history[i].id < s.history[j].id)
  }

  /** What every sequence of check-ins from empty tables keeps true. */
  predicate Invariant(s: Store) {
    CountsMatch(s) && RowsHaveProfiles(s) && FirstFlagsExact(s) && ProfilesCounted(s) && IdsIncreasing(s)
  }

  /**
    Every history row carries the name stored in its barcode's profile. The
    ledger alone does not keep this (it stores whatever name it is given);
    the kiosk's callers do.
   */
  predicate NamesAgree(s: Store) {
    forall i :: 0 <= i < |s.history| && s.history[i].barcode in s.visitors ==>
      s.history[i].name == s.visitors[s.history[i].barcode].name
  }

  lemma EmptyStoreInvariant()
    ensures Invariant(EmptyStore) && NamesAgree(EmptyStore)
  {
  }

  /** Under the invariant, a barcode has a profile exactly when some history row carries it. */
  lemma ProfileIffVisited(s: Store, barcode: string)
    requires CountsMatch(s) && RowsHaveProfiles(s)
    ensures barcode in s.visitors <==> exists i :: 0 <= i < |s.history| && s.history[i].barcode == barcode
  {
    if barcode in s.visitors {
      VisitsOfPresent(s.history, barcode);
    }
  }

  // ---------------------------------------------------------------------
  // check_in

  /** The store and the returned tuple after a check-in that commits. */
  datatype Committed = Committed(store: Store, outcome: CheckInOutcome)

  /**
    A committed check-in. A new barcode gets a profile with count 1 and a
    first-visit row and yields (true, 1, now). A known barcode gets its
    count incremented and its last visit set to now, a return row, and
    yields (false, new count, previous last visit). The history row stores
    the name passed in, on both paths.
   */
  function CheckInEffect(s: Store, barcode: string, name: string, clock: Clock): Committed {
    if barcode !in s.visitors then
      Committed(
        Store(s.visitors[barcode := Profile(name, clock.datetime, 1, clock.datetime)],
              s.history + [Visit(s.nextId, barcode, name, clock.date, clock.time, 1)],
              s.nextId + 1),
        CheckInOutcome(true, 1, clock.datetime))
    else
      var p := s.visitors[barcode];
      Committed(
        Store(s.visitors[barcode := p.(visitCount := p.visitCount + 1, lastVisitDate := clock.datetime)],
              s.history + [Visit(s.nextId, barcode, name, clock.date, clock.time, 0)],
              s.nextId + 1),
        CheckInOutcome(false, p.visitCount + 1, p.lastVisitDate))
  }

  /** The row a check-in appends. */
  function AppendedVisit(s: Store, barcode: string, name: string, clock: Clock): Visit {
    Visit(s.nextId, barcode, name, clock.date, clock.time, if barcode in s.visitors then 0 else 1)
  }

  /** Nothing else changes: other profiles, existing rows; history grows by exactly the appended row. */
  lemma CheckInFrame(s: Store, barcode: string, name: string, clock: Clock)
    ensures var t := CheckInEffect(s, barcode, name, clock).store;
      && t.history == s.history + [AppendedVisit(s, barcode, name, clock)]
      && t.visitors.Keys == s.visitors.Keys + {barcode}
      && (forall b :: b != barcode ==> VisitorInfo(t, b) == VisitorInfo(s, b))
      && t.nextId == s.nextId + 1
  {
  }

  lemma CheckInKeepsCounts(s: Store, barcode: string, name: string, clock: Clock)
    requires CountsMatch(s) && RowsHaveProfiles(s)
    ensures CountsMatch(CheckInEffect(s, barcode, name, clock).store)
  {
    var t := CheckInEffect(s, barcode, name, clock).store;
    var v := AppendedVisit(s, barcode, name, clock);
    assert t.history == s.history + [v];
    if barcode !in s.visitors {
      VisitsOfAbsent(s.history, barcode);
    }
    forall b | b in t.visitors
      ensures 1 <= t.visitors[b].visitCount == VisitsOf(t.history, b)
    {
      VisitsOfSnoc(s.history, v, b);
    }
  }

  lemma CheckInKeepsRowsHaveProfiles(s: Store, barcode: string, name: string, clock: Clock)
    requires RowsHaveProfiles(s)
    ensures RowsHaveProfiles(CheckInEffect(s, barcode, name, clock).store)
  {
  }

  lemma CheckInKeepsFirstFlags(s: Store, barcode: string, name: string, clock: Clock)
    requires CountsMatch(s) && RowsHaveProfiles(s) && FirstFlagsExact(s)
    ensures FirstFlagsExact(CheckInEffect(s, barcode, name, clock).store)
  {
    var h := s.history;
    var v := AppendedVisit(s, barcode, name, clock);
    var h' := CheckInEffect(s, barcode, name, clock).store.history;
    assert h' == h + [v];
    forall i | 0 <= i < |h'|
      ensures h'[i].isFirstVisit == if SeenBefore(h', i) then 0 else 1
    {
      if i < |h| {
        assert forall j :: 0 <= j <= i ==> h'[j] == h[j];
        assert SeenBefore(h', i) == SeenBefore(h, i);
      } else {
        ProfileIffVisited(s, barcode);
        assert forall j :: 0 <= j < |h| ==> h'[j] == h[j];
        assert SeenBefore(h', i) <==> exists j :: 0 <= j < |h| && h[j].barcode == barcode;
      }
    }
  }

  lemma CheckInKeepsProfilesCounted(s: Store, barcode: string, name: string, clock: Clock)
    requires ProfilesCounted(s)
    ensures ProfilesCounted(CheckInEffect(s, barcode, name, clock).store)
  {
    FirstVisitsSnoc(s.history, AppendedVisit(s, barcode, name, clock));
  }

  lemma CheckInKeepsIds(s: Store, barcode: string, name: string, clock: Clock)
    requires IdsIncreasing(s)
    ensures IdsIncreasing(CheckInEffect(s, barcode, name, clock).store)
  {
    var t := CheckInEffect(s, barcode, name, clock).store;
    assert t.history == s.history + [AppendedVisit(s, barcode, name, clock)];
    forall i | 0 <= i < |t.history|
      ensures 1 <= t.history[i].id < t.nextId
    {
      if i < |s.history| {
        assert t.history[i] == s.history[i];
      }
    }
  }

  /**
    Check-in preserves the ledger invariant: at most one profile per
    barcode (the map key), counts equal to history rows, rows referring to
    profiles, exact first-visit flags, one profile per first-visit row, and
    increasing ids.
   */
  lemma CheckInPreservesInvariant(s: Store, barcode: string, name: string, clock: Clock)
    requires Invariant(s)
    ensures Invariant(CheckInEffect(s, barcode, name, clock).store)
  {
    CheckInKeepsCounts(s, barcode, name, clock);
    CheckInKeepsRowsHaveProfiles(s, barcode, name, clock);
    CheckInKeepsFirstFlags(s, barcode, name, clock);
    CheckInKeepsProfilesCounted(s, barcode, name, clock);
    CheckInKeepsIds(s, barcode, name, clock);
  }

  /**
    First visit: before it the barcode has no history row; afterwards its
    profile has the supplied name, count 1 and both dates equal to now, it
    has exactly one row, and the call returns (true, 1, now).
   */
  lemma CheckInFirstVisit(s: Store, barcode: string, name: string, clock: Clock)
    requires CountsMatch(s) && RowsHaveProfiles(s) && barcode !in s.visitors
    ensures var r := CheckInEffect(s, barcode, name, clock);
      && VisitsOf(s.history, barcode) == 0
      && VisitorInfo(r.store, barcode) == Some(Profile(name, clock.datetime, 1, clock.datetime))
      && VisitsOf(r.store.history, barcode) == 1
      && r.store.history[|s.history|] == Visit(s.nextId, barcode, name, clock.date, clock.time, 1)
      && r.outcome == CheckInOutcome(true, 1, clock.datetime)
  {
    VisitsOfAbsent(s.history, barcode);
    VisitsOfSnoc(s.history, AppendedVisit(s, barcode, name, clock), barcode);
  }

  /**
    Return visit: the profile keeps its name and first visit date, its count
    goes up by one to equal its row count, its last visit becomes now, a
    return row with the supplied name is appended, and the call returns
    (false, new count, the previous last visit).
   */
  lemma CheckInReturnVisit(s: Store, barcode: string, name: string, clock: Clock)
    requires CountsMatch(s) && barcode in s.visitors
    ensures var p, r := s.visitors[barcode], CheckInEffect(s, barcode, name, clock);
      && VisitorInfo(r.store, barcode) == Some(Profile(p.name, p.firstVisitDate, p.visitCount + 1, clock.datetime))
      && VisitsOf(r.store.history, barcode) == p.visitCount + 1
      && r.store.history[|s.history|] == Visit(s.nextId, barcode, name, clock.date, clock.time, 0)
      && r.outcome == CheckInOutcome(false, p.visitCount + 1, p.lastVisitDate)
  {
    VisitsOfSnoc(s.history, AppendedVisit(s, barcode, name, clock), barcode);
  }

  /** When the name passed for a known barcode is the stored one, every row still carries its profile's name. */
  lemma CheckInPreservesNames(s: Store, barcode: string, name: string, clock: Clock)
    requires RowsHaveProfiles(s) && NamesAgree(s)
    requires barcode in s.visitors ==> name == s.visitors[barcode].name
    ensures NamesAgree(CheckInEffect(s, barcode, name, clock).store)
  {
    var t := CheckInEffect(s, barcode, name, clock).store;
    assert forall i :: 0 <= i < |s.history| ==> t.history[i] == s.history[i];
  }

  /**
    As written, the return path stores the name passed in, not the stored
    one: a different name for a known barcode leaves a row whose name
    disagrees with its profile.
   */
  lemma CheckInStoresSuppliedName(s: Store, barcode: string, name: string, clock: Clock)
    requires barcode in s.visitors && name != s.visitors[barcode].name
    ensures !NamesAgree(CheckInEffect(s, barcode, name, clock).store)
  {
    var t := CheckInEffect(s, barcode, name, clock).store;
    assert t.history[|s.history|].barcode == barcode;
  }

  /**
    Two scans of the same card: the first registers it, the second returns
    the count 2 and the first visit's timestamp, keeps the registered name
    on the profile and records the name passed in on the new row.
   */
  lemma TwoCheckIns(first: Clock, second: Clock)
    ensures var r1 := CheckInEffect(EmptyStore, "A1", "Taro", first);
      var r2 := CheckInEffect(r1.store, "A1", "Hanako", second);
      && r1.outcome == CheckInOutcome(true, 1, first.datetime)
      && r2.outcome == CheckInOutcome(false, 2, first.datetime)
      && r2.store.visitors == map["A1" := Profile("Taro", first.datetime, 2, second.datetime)]
      && r2.store.history == [Visit(1, "A1", "Taro", first.date, first.time, 1),
                              Visit(2, "A1", "Hanako", second.date, second.time, 0)]
  {
  }

  // ---------------------------------------------------------------------
  // get_visitor_info

  /** The stored profile of a present barcode, `None` for an absent one. */
  function VisitorInfo(s: Store, barcode: string): (r: Option<Profile>)
    ensures r.Some? <==> barcode in s.visitors
    ensures r.Some? ==> r.value == s.visitors[barcode]
  {
    if barcode in s.visitors then Some(s.visitors[barcode]) else None
  }

  // ---------------------------------------------------------------------
  // get_today_visitors

  /** One entry of today's list; the stored flag is read as a bool. */
  datatype TodayVisit = TodayVisit(barcode: string, name: string, visitTime: string, isFirstVisit: bool)

  function Summary(v: Visit): TodayVisit {
    TodayVisit(v.barcode, v.name, v.visitTime, v.isFirstVisit != 0)
  }

  function Summaries(rows: seq<Visit>): (r: seq<TodayVisit>)
    ensures |r| == |rows|
  {
    if |rows| == 0 then [] else Summaries(rows[..|rows| - 1]) + [Summary(rows[|rows| - 1])]
  }

  /** The history rows dated `today`, in history order (`WHERE visit_date = ?`). */
  function TodayRows(history: seq<Visit>, today: string): (r: seq<Visit>)
    ensures |r| <= |history|
  {
    if |history| == 0 then []
    else
      var last := history[|history| - 1];
      TodayRows(history[..|history| - 1], today) + (if last.visitDate == today then [last] else [])
  }

  /** SQLite's BINARY ordering of TEXT: lexicographic by character. */
  predicate TextLe(a: string, b: string) {
    a == [] || (b != [] && (a[0] < b[0] || (a[0] == b[0] && TextLe(a[1..], b[1..]))))
  }

  lemma {:induction false} TextLeTotal(a: string, b: string)
    ensures TextLe(a, b) || TextLe(b, a)
  {
    if a != [] && b != [] && a[0] == b[0] {
      TextLeTotal(a[1..], b[1..]);
    }
  }

  lemma {:induction false} TextLeTransitive(a: string, b: string, c: string)
    requires TextLe(a, b) && TextLe(b, c)
    ensures TextLe(a, c)
  {
    if a != [] && a[0] == b[0] && b[0] == c[0] {
      TextLeTransitive(a[1..], b[1..], c[1..]);
    }
  }

  /** Sorted by `visit_time`, most recent first (`ORDER BY visit_time DESC`). */
  predicate NewestFirst(xs: seq<TodayVisit>) {
    forall i, j :: 0 <= i < j < |xs| ==> TextLe(xs[j].visitTime, xs[i].visitTime)
  }

  function InsertNewestFirst(x: TodayVisit, xs: seq<TodayVisit>): seq<TodayVisit> {
    if xs == [] then [x]
    else if TextLe(xs[0].visitTime, x.visitTime) then [x] + xs
    else [xs[0]] + InsertNewestFirst(x, xs[1..])
  }

  lemma {:induction false} InsertNewestFirstPermutes(x: TodayVisit, xs: seq<TodayVisit>)
    ensures multiset(InsertNewestFirst(x, xs)) == multiset(xs) + multiset{x}
  {
    if xs != [] && !TextLe(xs[0].visitTime, x.visitTime) {
      InsertNewestFirstPermutes(x, xs[1..]);
      assert xs == [xs[0]] + xs[1..];
    }
  }

  lemma {:induction false} InsertNewestFirstSorted(x: TodayVisit, xs: seq<TodayVisit>)
    requires NewestFirst(xs)
    ensures NewestFirst(InsertNewestFirst(x, xs))
  {
    if xs == [] {
    } else if TextLe(xs[0].visitTime, x.visitTime) {
      forall j | 0 < j < |xs| + 1
        ensures TextLe(([x] + xs)[j].visitTime, x.visitTime)
      {
        if j > 1 {
          TextLeTransitive(xs[j - 1].visitTime, xs[0].visitTime, x.visitTime);
        }
      }
    } else {
      var rest := InsertNewestFirst(x, xs[1..]);
      InsertNewestFirstSorted(x, xs[1..]);
      InsertNewestFirstPermutes(x, xs[1..]);
      TextLeTotal(xs[0].visitTime, x.visitTime);
      forall j | 0 <= j < |rest|
        ensures TextLe(rest[j].visitTime, xs[0].visitTime)
      {
        assert rest[j] in multiset(xs[1..]) + multiset{x};
      }
    }
  }

  function SortNewestFirst(xs: seq<TodayVisit>): seq<TodayVisit> {
    if xs == [] then [] else InsertNewestFirst(xs[0], SortNewestFirst(xs[1..]))
  }

  /** The sort returns a permutation of its input, most recent first. */
  lemma {:induction false} SortNewestFirstSpec(xs: seq<TodayVisit>)
    ensures multiset(SortNewestFirst(xs)) == multiset(xs)
    ensures NewestFirst(SortNewestFirst(xs))
  {
    if xs != [] {
      SortNewestFirstSpec(xs[1..]);
      InsertNewestFirstPermutes(xs[0], SortNewestFirst(xs[1..]));
      InsertNewestFirstSorted(xs[0], SortNewestFirst(xs[1..]));
      assert xs == [xs[0]] + xs[1..];
    }
  }

  /** Today's check-ins, most recent first. */
  function TodayVisitors(s: Store, today: string): seq<TodayVisit> {
    SortNewestFirst(Summaries(TodayRows(s.history, today)))
  }

  // ---------------------------------------------------------------------
  // get_statistics

  datatype Stats = Stats(totalVisitors: int, todayVisitors: int, todayFirstVisitors: int,
                         todayReturningVisitors: int, totalVisits: int)

  /** The five figures, computed from the tables as they are now. */
  function StatisticsOf(s: Store, today: string): Stats {
    var todayRows := TodayRows(s.history, today);
    Stats(|s.visitors|, |todayRows|, FirstVisits(todayRows), |todayRows| - FirstVisits(todayRows), |s.history|)
  }

  /** The counts are consistent: returning = today - first, and 0 <= first <= today <= total visits. */
  lemma StatisticsConsistent(s: Store, today: string)
    ensures var st := StatisticsOf(s, today);
      && st.todayReturningVisitors == st.todayVisitors - st.todayFirstVisitors
      && 0 <= st.todayFirstVisitors <= st.todayVisitors <= st.totalVisits
      && st.todayVisitors == |TodayVisitors(s, today)|
  {
    SortNewestFirstSpec(Summaries(TodayRows(s.history, today)));
    assert |SortNewestFirst(Summaries(TodayRows(s.history, today)))|
        == |multiset(SortNewestFirst(Summaries(TodayRows(s.history, today))))|;
  }

  lemma {:induction false} FirstVisitsOfTodayRows(history: seq<Visit>, today: string)
    ensures FirstVisits(TodayRows(history, today)) <= FirstVisits(history)
  {
    if |history| > 0 {
      var front, last := history[..|history| - 1], history[|history| - 1];
      FirstVisitsOfTodayRows(front, today);
      if last.visitDate == today {
        assert TodayRows(history, today) == TodayRows(front, today) + [last];
        FirstVisitsSnoc(TodayRows(front, today), last);
      } else {
        assert TodayRows(history, today) == TodayRows(front, today);
      }
    }
  }

  /**
    Under the invariant the total number of visitors equals the number of
    first-visit rows, so it never exceeds the total number of visits, and
    today's first visitors never exceed the total number of visitors.
   */
  lemma StatisticsUnderInvariant(s: Store, today: string)
    requires ProfilesCounted(s)
    ensures var st := StatisticsOf(s, today);
      && st.totalVisitors == FirstVisits(s.history)
      && st.todayFirstVisitors <= st.totalVisitors <= st.totalVisits
  {
    FirstVisitsOfTodayRows(s.history, today);
  }

  /**
    How one committed check-in moves the figures of a day: one more visit
    in total; one more visitor exactly on a first visit; one more visit
    today when the clock's date is that day, counted as a first visit
    exactly when it is one.
   */
  lemma CheckInStatistics(s: Store, barcode: string, name: string, clock: Clock, today: string)
    ensures var st, st' := StatisticsOf(s, today), StatisticsOf(CheckInEffect(s, barcode, name, clock).store, today);
      var first, counted := barcode !in s.visitors, clock.date == today;
      && st'.totalVisits == st.totalVisits + 1
      && st'.totalVisitors == st.totalVisitors + (if first then 1 else 0)
      && st'.todayVisitors == st.todayVisitors + (if counted then 1 else 0)
      && st'.todayFirstVisitors == st.todayFirstVisitors + (if counted && first then 1 else 0)
  {
    var v := AppendedVisit(s, barcode, name, clock);
    var h' := s.history + [v];
    assert h'[..|s.history|] == s.history;
    if clock.date == today {
      assert TodayRows(h', today) == TodayRows(s.history, today) + [v];
      FirstVisitsSnoc(TodayRows(s.history, today), v);
    } else {
      assert TodayRows(h', today) == TodayRows(s.history, today);
    }
  }

  lemma {:induction false} SummariesMembers(rows: seq<Visit>, e: TodayVisit)
    ensures e in Summaries(rows) <==> exists v :: v in rows && e == Summary(v)
  {
    if |rows| > 0 {
      var front := rows[..|rows| - 1];
      SummariesMembers(front, e);
      assert rows == front + [rows[|rows| - 1]];
    }
  }

  lemma {:induction false} TodayRowsMembers(history: seq<Visit>, today: string, v: Visit)
    ensures v in TodayRows(history, today) <==> v in history && v.visitDate == today
  {
    if |history| > 0 {
      var front := history[..|history| - 1];
      TodayRowsMembers(front, today, v);
      assert history == front + [history[|history| - 1]];
    }
  }

  /**
    Today's list is sorted most recent first, and an entry is in it exactly
    when some history row dated today has that barcode, name, time and flag.
   */
  lemma TodayVisitorsSpec(s: Store, today: string, e: TodayVisit)
    ensures NewestFirst(TodayVisitors(s, today))
    ensures multiset(TodayVisitors(s, today)) == multiset(Summaries(TodayRows(s.history, today)))
    ensures e in TodayVisitors(s, today) <==> exists v :: v in s.history && v.visitDate == today && e == Summary(v)
  {
    var rows := TodayRows(s.history, today);
    SortNewestFirstSpec(Summaries(rows));
    assert e in TodayVisitors(s, today) <==> e in multiset(Summaries(rows));
    SummariesMembers(rows, e);
    forall v
      ensures v in rows <==> v in s.history && v.visitDate == today
    {
      TodayRowsMembers(s.history, today, v);
    }
  }

  /** Under the invariant, everyone on today's list has a profile. */
  lemma TodayVisitorsHaveProfiles(s: Store, today: string, e: TodayVisit)
    requires CountsMatch(s) && RowsHaveProfiles(s)
    requires e in TodayVisitors(s, today)
    ensures e.barcode in s.visitors && s.visitors[e.barcode].visitCount >= 1
  {
    TodayVisitorsSpec(s, today, e);
    var v :| v in s.history && v.visitDate == today && e == Summary(v);
    var i :| 0 <= i < |s.history| && s.history[i] == v;
  }

  // ---------------------------------------------------------------------
  // The database object

  /**
    The database file: whether the two tables exist, and their contents.
    Every operation opens its own connection, so the fields are the whole
    persistent state.
   */
  class VisitorDatabase {
    var schemaReady: bool
    var visitors: map<string, Profile>
    var history: seq<Visit>
    var nextId: int

    function State(): Store
      reads this
    {
      Store(visitors, history, nextId)
    }

    ghost predicate Valid()
      reads this
    {
      schemaReady && Invariant(State())
    }

    /**
      Opens the database file, which either already holds the two tables
      (with contents that satisfy the invariant) or does not; then runs
      `InitDatabase`.
     */
    constructor Open(persisted: Option<Store>)
      requires persisted.Some? ==> Invariant(persisted.value)
      ensures Valid()
      ensures State() == if persisted.Some? then persisted.value else EmptyStore
    {
      var s := if persisted.Some? then persisted.value else EmptyStore;
      schemaReady := persisted.Some?;
      visitors, history, nextId := s.visitors, s.history, s.nextId;
      new;
      InitDatabase();
    }

    /** `CREATE TABLE IF NOT EXISTS` for both tables: existing tables and rows are kept. */
    method InitDatabase()
      requires schemaReady ==> Invariant(State())
      modifies this
      ensures Valid()
      ensures old(schemaReady) ==> State() == old(State())
      ensures !old(schemaReady) ==> State() == EmptyStore
    {
      if !schemaReady {
        visitors, history, nextId := map[], [], 1;
        schemaReady := true;
        EmptyStoreInvariant();
      }
    }

    /** `conn.rollback()`: every write of the open transaction is undone. */
    method RollBack(saved: Store)
      requires schemaReady && Invariant(saved)
      modifies this
      ensures State() == saved && schemaReady
      ensures Valid()
    {
      visitors, history, nextId := saved.visitors, saved.history, saved.nextId;
    }

    /**
      The profile write of `check_in`: `INSERT` a new profile, or `UPDATE`
      the count and last visit of an existing one; returns the tuple the
      call will return once committed.
     */
    method PutProfile(barcode: string, name: string, clock: Clock) returns (outcome: CheckInOutcome)
      modifies this
      ensures var c := CheckInEffect(old(State()), barcode, name, clock);
        visitors == c.store.visitors && outcome == c.outcome
      ensures history == old(history) && nextId == old(nextId) && schemaReady == old(schemaReady)
    {
      if barcode !in visitors {
        visitors := visitors[barcode := Profile(name, clock.datetime, 1, clock.datetime)];
        outcome := CheckInOutcome(true, 1, clock.datetime);
      } else {
        var p := visitors[barcode];
        var newCount := p.visitCount + 1;
        visitors := visitors[barcode := p.(visitCount := newCount, lastVisitDate := clock.datetime)];
        outcome := CheckInOutcome(false, newCount, p.lastVisitDate);
      }
    }

    /** The history `INSERT` of `check_in`, taking the next AUTOINCREMENT id. */
    method InsertVisit(barcode: string, name: string, clock: Clock, firstVisit: bool)
      modifies this
      ensures history == old(history) + [Visit(old(nextId), barcode, name, clock.date, clock.time, if firstVisit then 1 else 0)]
      ensures nextId == old(nextId) + 1
      ensures visitors == old(visitors) && schemaReady == old(schemaReady)
    {
      history := history + [Visit(nextId, barcode, name, clock.date, clock.time, if firstVisit then 1 else 0)];
      nextId := nextId + 1;
    }

    /**
      `check_in`: looks the barcode up, writes the profile, appends the
      history row and commits. `fault` names the statement at which the
      storage layer raises, if any; the transaction is then rolled back and
      the error passed on. On success the new state and the result are
      those of `CheckInEffect`.
     */
    method CheckIn(barcode: string, name: string, clock: Clock, fault: Option<Stage>)
      returns (r: Result<CheckInOutcome, StorageError>)
      requires Valid()
      modifies this
      ensures Valid()
      ensures r.Failure? <==> fault.Some?
      ensures r.Failure? ==> r.error == StorageError(fault.value) && State() == old(State())
      ensures r.Success? ==> Committed(State(), r.value) == CheckInEffect(old(State()), barcode, name, clock)
    {
      if fault == Some(Connect) {
        return Failure(StorageError(Connect));
      }
      var saved := State();
      if fault == Some(LookUp) {
        RollBack(saved);
        return Failure(StorageError(LookUp));
      }
      var known := barcode in visitors;
      if fault == Some(WriteProfile) {
        RollBack(saved);
        return Failure(StorageError(WriteProfile));
      }
      var outcome := PutProfile(barcode, name, clock);
      if fault == Some(AppendVisit) {
        RollBack(saved);
        return Failure(StorageError(AppendVisit));
      }
      InsertVisit(barcode, name, clock, !known);
      if fault.Some? {
        // the only stage left is Commit
        RollBack(saved);
        return Failure(StorageError(fault.value));
      }
      CheckInPreservesInvariant(saved, barcode, name, clock);
      assert State() == CheckInEffect(saved, barcode, name, clock).store;
      r := Success(outcome);
    }

    /** `get_visitor_info`: the stored profile, or `None` for an unknown barcode. */
    method GetVisitorInfo(barcode: string) returns (info: Option<Profile>)
      ensures info.Some? <==> barcode in visitors
      ensures info.Some? ==> info.value == visitors[barcode]
    {
      info := if barcode in visitors then Some(visitors[barcode]) else None;
    }

    /** `get_today_visitors`: today's rows, most recent first, as exactly the rows dated today. */
    method GetTodayVisitors(today: string) returns (rows: seq<TodayVisit>)
      ensures NewestFirst(rows)
      ensures multiset(rows) == multiset(Summaries(TodayRows(history, today)))
    {
      rows := TodayVisitors(State(), today);
      SortNewestFirstSpec(Summaries(TodayRows(history, today)));
    }

    /** `get_statistics`: the five figures for `today`, consistent with each other. */
    method GetStatistics(today: string) returns (stats: Stats)
      ensures stats == StatisticsOf(State(), today)
      ensures stats.todayReturningVisitors == stats.todayVisitors - stats.todayFirstVisitors
      ensures 0 <= stats.todayFirstVisitors <= stats.todayVisitors <= stats.totalVisits
    {
      var todayRows := TodayRows(history, today);
      stats := Stats(|visitors|, |todayRows|, FirstVisits(todayRows), |todayRows| - FirstVisits(todayRows), |history|);
      StatisticsConsistent(State(), today);
    }
  }
}
