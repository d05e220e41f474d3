/** `searchSessions`: a case-insensitive text query and optional structured
    filters over the stored sessions, all combined conjunctively, with the
    result newest first. */
module Search {
  import opened Optional
  import opened Text
  import opened Records
  import opened Ordering
  import opened MemStorage

  /** The optional filters.  A string filter is applied only when present and
      non-empty (JavaScript truthiness); a date bound whenever present. */
  datatype Filters = Filters(
    location: Option<string>,
    gameType: Option<string>,
    tableType: Option<string>,
    dateFrom: Option<Time>,
    dateTo: Option<Time>,
    result: Option<string>)

  /** A string filter that takes part: present and non-empty. */
  predicate Active(f: Option<string>) {
    f.Some? && f.value != ""
  }

  /** `field.toLowerCase().includes(lowerQuery)`. */
  predicate FieldHit(field: string, lowerQuery: string) {
    Includes(Lower(field), lowerQuery)
  }

  /** The text query hits the location, game type, stakes, notes (when
      present) or any tag. */
  predicate QueryHit(s: Session, lowerQuery: string) {
    || FieldHit(s.location, lowerQuery)
    || FieldHit(s.gameType, lowerQuery)
    || FieldHit(s.stakes, lowerQuery)
    || (s.notes.Some? && FieldHit(s.notes.value, lowerQuery))
    || (exists i :: 0 <= i < |s.tags| && FieldHit(s.tags[i], lowerQuery))
  }

  /** "win" selects a positive profit; any other requested result selects a
      profit of zero or less, so a break-even session counts as a loss. */
  predicate ResultHit(s: Session, result: string) {
    if result == "win" then s.profit > 0.0 else s.profit <= 0.0
  }

  predicate QueryOk(s: Session, query: string) {
    query == "" || QueryHit(s, Lower(query))
  }

  predicate LocationOk(s: Session, f: Filters) {
    !Active(f.location) || FieldHit(s.location, Lower(f.location.value))
  }

  predicate GameTypeOk(s: Session, f: Filters) {
    !Active(f.gameType) || s.gameType == f.gameType.value
  }

  predicate TableTypeOk(s: Session, f: Filters) {
    !Active(f.tableType) || s.tableType == f.tableType.value
  }

  predicate ResultOk(s: Session, f: Filters) {
    !Active(f.result) || ResultHit(s, f.result.value)
  }

  /** Every active predicate holds of `s`. */
  predicate Matches(s: Session, query: string, f: Filters) {
    && QueryOk(s, query)
    && LocationOk(s, f)
    && GameTypeOk(s, f)
    && TableTypeOk(s, f)
    && InDateRange(s, f.dateFrom, f.dateTo)
    && ResultOk(s, f)
  }

  // One stage per `filter` call of the source, in its order.

  function QueryStage(s: seq<Session>, query: string): (r: seq<Session>)
    ensures forall x :: x in r <==> x in s && QueryOk(x, query)
    ensures multiset(r) <= multiset(s)
  {
    if query == "" then s
    else
      var lowerQuery := Lower(query);
      FilterMembers(s, (x: Session) => QueryHit(x, lowerQuery));
      Filter(s, (x: Session) => QueryHit(x, lowerQuery))
  }

  function LocationStage(s: seq<Session>, f: Filters): (r: seq<Session>)
    ensures forall x :: x in r <==> x in s && LocationOk(x, f)
    ensures multiset(r) <= multiset(s)
  {
    if Active(f.location) then
      var lowerLocation := Lower(f.location.value);
      FilterMembers(s, (x: Session) => FieldHit(x.location, lowerLocation));
      Filter(s, (x: Session) => FieldHit(x.location, lowerLocation))
    else s
  }

  function GameTypeStage(s: seq<Session>, f: Filters): (r: seq<Session>)
    ensures forall x :: x in r <==> x in s && GameTypeOk(x, f)
    ensures multiset(r) <= multiset(s)
  {
    if Active(f.gameType) then
      var g := f.gameType.value;
      FilterMembers(s, (x: Session) => x.gameType == g);
      Filter(s, (x: Session) => x.gameType == g)
    else s
  }

  function TableTypeStage(s: seq<Session>, f: Filters): (r: seq<Session>)
    ensures forall x :: x in r <==> x in s && TableTypeOk(x, f)
    ensures multiset(r) <= multiset(s)
  {
    if Active(f.tableType) then
      var t := f.tableType.value;
      FilterMembers(s, (x: Session) => x.tableType == t);
      Filter(s, (x: Session) => x.tableType == t)
    else s
  }

  function DateFromStage(s: seq<Session>, f: Filters): (r: seq<Session>)
    ensures forall x :: x in r <==> x in s && (f.dateFrom.None? || f.dateFrom.value <= x.date)
    ensures multiset(r) <= multiset(s)
  {
    if f.dateFrom.Some? then
      var from := f.dateFrom.value;
      FilterMembers(s, (x: Session) => from <= x.date);
      Filter(s, (x: Session) => from <= x.date)
    else s
  }

  function DateToStage(s: seq<Session>, f: Filters): (r: seq<Session>)
    ensures forall x :: x in r <==> x in s && (f.dateTo.None? || x.date <= f.dateTo.value)
    ensures multiset(r) <= multiset(s)
  {
    if f.dateTo.Some? then
      var to := f.dateTo.value;
      FilterMembers(s, (x: Session) => x.date <= to);
      Filter(s, (x: Session) => x.date <= to)
    else s
  }

  function ResultStage(s: seq<Session>, f: Filters): (r: seq<Session>)
    ensures forall x :: x in r <==> x in s && ResultOk(x, f)
    ensures multiset(r) <= multiset(s)
  {
    if Active(f.result) then
      var wanted := f.result.value;
      FilterMembers(s, (x: Session) => ResultHit(x, wanted));
      Filter(s, (x: Session) => ResultHit(x, wanted))
    else s
  }

  /** The stages chained: exactly the sessions every active predicate accepts. */
  function Narrow(s: seq<Session>, query: string, f: Filters): (r: seq<Session>)
    ensures forall x :: x in r <==> x in s && Matches(x, query, f)
    ensures multiset(r) <= multiset(s)
  {
    ResultStage(DateToStage(DateFromStage(TableTypeStage(GameTypeStage(LocationStage(QueryStage(s, query), f), f), f), f), f), f)
  }

  /** `searchSessions(query, filters)`: sound (every result is a stored
      session every active predicate accepts), complete (every such session
      is among the results), and newest first. */
  function SearchSessions(st: Store, query: string, f: Filters): (r: seq<Session>)
    ensures forall x :: x in r <==> x in st.sessions && Matches(x, query, f)
    ensures forall i, j :: 0 <= i < j < |r| ==> r[i].date >= r[j].date
    ensures multiset(r) <= multiset(st.sessions)
  {
    var narrowed := Narrow(st.sessions, query, f);
    var r := NewestFirst(narrowed);
    assert forall x :: x in r <==> x in multiset(narrowed);
    r
  }

  /** With no query and no active filter the search is the whole store,
      newest first: the same order the listing pages through. */
  lemma SearchWithoutCriteria(st: Store, f: Filters)
    requires !Active(f.location) && !Active(f.gameType) && !Active(f.tableType) && !Active(f.result)
    requires f.dateFrom.None? && f.dateTo.None?
    ensures SearchSessions(st, "", f) == NewestFirst(st.sessions)
    ensures SearchSessions(st, "", f) == GetSessions(st, Some(|st.sessions|), Some(0))
  {
    var sorted := NewestFirst(st.sessions);
    PageShape(sorted, |st.sessions|, 0);
    assert GetSessions(st, Some(|st.sessions|), Some(0)) == Page(sorted, |st.sessions|, 0);
  }

  /** The query is matched case-insensitively: searching for a query or for
      its lower-cased form gives the same list. */
  lemma SearchIgnoresQueryCase(st: Store, query: string, f: Filters)
    ensures SearchSessions(st, Lower(query), f) == SearchSessions(st, query, f)
  {
    LowerIdempotent(query);
  }

  /** The result filter: "win" keeps only positive profits; any other
      non-empty value keeps only profits of zero or less. */
  lemma SearchByResult(st: Store, query: string, f: Filters)
    requires Active(f.result)
    ensures f.result.value == "win" ==>
              forall x :: x in SearchSessions(st, query, f) <==> x in st.sessions && Matches(x, query, f.(result := None)) && x.profit > 0.0
    ensures f.result.value != "win" ==>
              forall x :: x in SearchSessions(st, query, f) <==> x in st.sessions && Matches(x, query, f.(result := None)) && x.profit <= 0.0
  {
    var g := f.(result := None);
    forall x
      ensures Matches(x, query, f) <==> Matches(x, query, g) && ResultHit(x, f.result.value)
    {
      assert LocationOk(x, f) == LocationOk(x, g);
      assert GameTypeOk(x, f) == GameTypeOk(x, g);
      assert TableTypeOk(x, f) == TableTypeOk(x, g);
      assert ResultOk(x, g);
    }
  }
}
