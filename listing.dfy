/** GET /appointments: filter the stored appointments by the query, sort them by day
    and then by time text, cut out the requested page and describe the pagination. */
module Listing {
  import opened Wrappers
  import opened Strings
  import opened Calendar
  import opened AppointmentModel
  import opened Environment
  import opened Outcomes

  const DefaultPage: int := 1
  const DefaultLimit: int := 10

  /** The query string. `page` and `limit` are what `parseInt` makes of their texts,
      `None` standing for NaN (an absent or unreadable number). */
  datatype ListQuery = ListQuery(
    page: Option<int>,
    limit: Option<int>,
    status: Option<string>,
    dentistId: Option<string>,
    patientId: Option<string>,
    date: Option<string>)

  /** A stored appointment together with its id. */
  datatype Record = Record(id: nat, appointment: Appointment)

  datatype Pagination = Pagination(
    currentPage: int,
    totalPages: int,
    totalAppointments: nat,
    hasNextPage: bool,
    hasPrevPage: bool)

  datatype Listed = Listed(records: seq<Record>, pagination: Pagination)

  /** `parseInt(text) || fallback`: NaN and zero both give way to the fallback. */
  function IntOr(v: Option<int>, fallback: int): (r: int)
    ensures v.Some? && v.value != 0 ==> r == v.value
    ensures v.None? || v.value == 0 ==> r == fallback
  {
    if v.None? || v.value == 0 then fallback else v.value
  }

  function Page(q: ListQuery): int { IntOr(q.page, DefaultPage) }
  function Limit(q: ListQuery): int { IntOr(q.limit, DefaultLimit) }
  function Skip(q: ListQuery): int { (Page(q) - 1) * Limit(q) }

  function Abs(x: int): nat { if x < 0 then -x else x }

  /** The query cannot be run: an id filter does not cast to an object id or the date
      filter is not a date. A filter value is used only when it is truthy. */
  predicate CastFails(q: ListQuery, env: Env) {
    || (Truthy(q.dentistId) && !Casts(env, q.dentistId.value))
    || (Truthy(q.patientId) && !Casts(env, q.patientId.value))
    || (Truthy(q.date) && env.readDate(q.date.value).None?)
  }

  /** The day the date filter selects, if there is one. */
  function FilterDay(q: ListQuery, env: Env): Option<Date> {
    if Truthy(q.date) then env.readDate(q.date.value) else None
  }

  /** The filter object the query builds, with the ids cast and the date read; an
      absent entry does not filter. */
  datatype Filter = Filter(
    status: Option<string>,
    dentistId: Option<string>,
    patientId: Option<string>,
    day: Option<Date>)

  function FilterOf(q: ListQuery, env: Env): (f: Filter)
    requires !CastFails(q, env)
    ensures f.status == (if Truthy(q.status) then q.status else None)
    ensures f.dentistId == (if Truthy(q.dentistId) then env.castId(q.dentistId.value) else None)
    ensures f.patientId == (if Truthy(q.patientId) then env.castId(q.patientId.value) else None)
    ensures f.day.Some? <==> Truthy(q.date)
    ensures f.day.Some? ==> f.day == env.readDate(q.date.value)
  {
    Filter(
      if Truthy(q.status) then q.status else None,
      if Truthy(q.dentistId) then env.castId(q.dentistId.value) else None,
      if Truthy(q.patientId) then env.castId(q.patientId.value) else None,
      FilterDay(q, env))
  }

  /** Whether the record passes every entry of the filter: status by name, dentist
      and patient by id, and the day. */
  predicate Matches(f: Filter, a: Appointment) {
    && (f.status.Some? ==> StatusName(a.status) == f.status.value)
    && (f.dentistId.Some? ==> a.dentistId == f.dentistId.value)
    && (f.patientId.Some? ==> a.patientId == f.patientId.value)
    && (f.day.Some? ==> a.date == f.day.value)
  }

  /** The stored records with ids below `n`, in id order. */
  function Collect(store: map<nat, Appointment>, n: nat): (rs: seq<Record>)
    ensures forall r :: r in rs <==> r.id < n && r.id in store && store[r.id] == r.appointment
    ensures forall i, j :: 0 <= i < j < |rs| ==> rs[i].id < rs[j].id
  {
    if n == 0 then []
    else
      var before := Collect(store, n - 1);
      before + (if n - 1 in store then [Record(n - 1, store[n - 1])] else [])
  }

  /** The records of `rs` that pass the filter, in their order. */
  function Select(rs: seq<Record>, f: Filter): (out: seq<Record>)
    ensures forall r :: r in out <==> r in rs && Matches(f, r.appointment)
    ensures |out| <= |rs|
  {
    if rs == [] then []
    else
      (if Matches(f, rs[0].appointment) then [rs[0]] else []) + Select(rs[1..], f)
  }

  /** The sort order: earlier day first, then smaller time text. */
  predicate KeyLess(a: Appointment, b: Appointment) {
    DateLess(a.date, b.date) || (a.date == b.date && LexLess(a.time, b.time))
  }

  predicate SortedByMoment(rs: seq<Record>) {
    forall i, j :: 0 <= i < j < |rs| ==> !KeyLess(rs[j].appointment, rs[i].appointment)
  }

  lemma KeyLessTransitive(a: Appointment, b: Appointment, c: Appointment)
    requires KeyLess(a, b) && KeyLess(b, c)
    ensures KeyLess(a, c)
  {
    if DateLess(a.date, b.date) && DateLess(b.date, c.date) {
      DateLessTransitive(a.date, b.date, c.date);
    } else if a.date == b.date && b.date == c.date {
      LexLessTransitive(a.time, b.time, c.time);
    }
  }

  lemma NotBothBefore(a: Appointment, b: Appointment)
    requires KeyLess(a, b)
    ensures !KeyLess(b, a)
  {
    if DateLess(a.date, b.date) {
    } else {
      LexLessAsymmetric(a.time, b.time);
    }
  }

  /** Not coming after is transitive: the keys are totally preordered. */
  lemma NotAfterTransitive(a: Appointment, b: Appointment, c: Appointment)
    requires !KeyLess(b, a) && !KeyLess(c, b)
    ensures !KeyLess(c, a)
  {
    DateTotal(a.date, b.date);
    DateTotal(b.date, c.date);
    LexTotal(a.time, b.time);
    LexTotal(b.time, c.time);
    if KeyLess(c, a) && KeyLess(a, b) {
      KeyLessTransitive(c, a, b);
    }
  }

  /** Inserts `r` before the first record that does not come before it. */
  function Insert(r: Record, rs: seq<Record>): (out: seq<Record>)
    requires SortedByMoment(rs)
    ensures multiset(out) == multiset(rs) + multiset{r}
    ensures SortedByMoment(out)
  {
    if rs == [] then [r]
    else if !KeyLess(rs[0].appointment, r.appointment) then
      InsertFront(r, rs);
      [r] + rs
    else
      var tail := Insert(r, rs[1..]);
      assert rs == [rs[0]] + rs[1..];
      InsertBehind(rs[0], r, rs[1..], tail);
      [rs[0]] + tail
  }

  lemma InsertFront(r: Record, rs: seq<Record>)
    requires SortedByMoment(rs) && rs != [] && !KeyLess(rs[0].appointment, r.appointment)
    ensures SortedByMoment([r] + rs)
  {
    var out := [r] + rs;
    forall i, j | 0 <= i < j < |out|
      ensures !KeyLess(out[j].appointment, out[i].appointment)
    {
      if i == 0 && j > 1 {
        NotAfterTransitive(r.appointment, rs[0].appointment, rs[j - 1].appointment);
      }
    }
  }

  lemma InsertBehind(first: Record, r: Record, rest: seq<Record>, tail: seq<Record>)
    requires SortedByMoment([first] + rest) && SortedByMoment(tail)
    requires KeyLess(first.appointment, r.appointment)
    requires multiset(tail) == multiset(rest) + multiset{r}
    ensures SortedByMoment([first] + tail)
  {
    var out := [first] + tail;
    forall i, j | 0 <= i < j < |out|
      ensures !KeyLess(out[j].appointment, out[i].appointment)
    {
      if i > 0 {
        assert out[i] == tail[i - 1] && out[j] == tail[j - 1];
      } else {
        var x := tail[j - 1];
        assert out[j] == x && out[0] == first;
        assert x in multiset(tail);
        if x == r {
          NotBothBefore(first.appointment, r.appointment);
        } else {
          assert x in multiset(rest);
          var k :| 0 <= k < |rest| && rest[k] == x;
          var fr := [first] + rest;
          assert fr[k + 1] == x && fr[0] == first;
          assert !KeyLess(fr[k + 1].appointment, fr[0].appointment);
        }
      }
    }
  }

  /** The records sorted by day and time. */
  function Sort(rs: seq<Record>): (out: seq<Record>)
    ensures multiset(out) == multiset(rs)
    ensures SortedByMoment(out)
  {
    if rs == [] then []
    else
      assert rs == [rs[0]] + rs[1..];
      Insert(rs[0], Sort(rs[1..]))
  }

  function Min(a: int, b: int): int { if a < b then a else b }
  function Max(a: int, b: int): int { if a < b then b else a }

  /** The page `.skip(skip).limit(count)` returns. */
  function PageOf(rs: seq<Record>, skip: nat, count: nat): (out: seq<Record>)
    ensures |out| == Min(count, Max(0, |rs| - skip))
    ensures forall i :: 0 <= i < |out| ==> out[i] == rs[skip + i]
  {
    var from := Min(skip, |rs|);
    var to := Min(skip + count, |rs|);
    rs[from..to]
  }

  /** `Math.ceil(a / b)` for a count `a` and a non-zero divisor. */
  function CeilDiv(a: nat, b: int): (q: int)
    requires b != 0
    ensures b > 0 ==> (q - 1) * b < a <= q * b
    ensures b < 0 ==> q * b <= a < (q - 1) * b
  {
    if b > 0 then
      var q := (a + b - 1) / b;
      assert q * b == a + b - 1 - (a + b - 1) % b;
      q
    else
      var q := -(a / -b);
      assert q * b == a - a % -b;
      q
  }

  /** The pagination block for a page, a limit and a count of matching records. */
  function Paginate(page: int, limit: int, total: nat): (p: Pagination)
    requires limit != 0
    ensures p.currentPage == page && p.totalAppointments == total
    ensures p.totalPages == CeilDiv(total, limit)
    ensures limit > 0 ==> (p.hasNextPage <==> page * limit < total)
    ensures limit < 0 ==> (p.hasNextPage <==> page * limit > total)
    ensures p.hasPrevPage <==> page > 1
  {
    var pages := CeilDiv(total, limit);
    NextPageMeaning(page, limit, total, pages);
    Pagination(page, pages, total, page < pages, page > 1)
  }

  /** Multiplying by a non-negative number keeps the order. */
  lemma MulMonotone(x: int, y: int, k: int)
    requires x <= y && k >= 0
    ensures x * k <= y * k
  {
    assert y * k - x * k == (y - x) * k;
  }

  lemma NextPageMeaning(page: int, limit: int, total: nat, pages: int)
    requires limit != 0 && pages == CeilDiv(total, limit)
    ensures limit > 0 ==> (page < pages <==> page * limit < total)
    ensures limit < 0 ==> (page < pages <==> page * limit > total)
  {
    if limit > 0 {
      if page < pages {
        MulMonotone(page, pages - 1, limit);
      } else {
        MulMonotone(pages, page, limit);
      }
    } else {
      assert page * limit == -(page * -limit) && pages * limit == -(pages * -limit);
      assert (pages - 1) * limit == -((pages - 1) * -limit);
      if page < pages {
        MulMonotone(page, pages - 1, -limit);
      } else {
        MulMonotone(pages, page, -limit);
      }
    }
  }

  /** The ids of the stored records that pass the filter: what `countDocuments`
      counts. */
  function MatchingIds(store: map<nat, Appointment>, f: Filter): set<nat> {
    set id | id in store && Matches(f, store[id])
  }

  function IdsOf(rs: seq<Record>): set<nat> {
    set r | r in rs :: r.id
  }

  predicate IncreasingIds(rs: seq<Record>) {
    forall i, j :: 0 <= i < j < |rs| ==> rs[i].id < rs[j].id
  }

  lemma IdsOfCons(rs: seq<Record>)
    requires rs != []
    ensures IdsOf(rs) == {rs[0].id} + IdsOf(rs[1..])
  {
    assert forall r :: r in rs <==> r == rs[0] || r in rs[1..];
  }

  /** Dropping the first record keeps the ids increasing. */
  lemma IncreasingTail(rs: seq<Record>)
    requires rs != [] && IncreasingIds(rs)
    ensures IncreasingIds(rs[1..])
    ensures forall r :: r in rs[1..] ==> rs[0].id < r.id
  {
    var rest := rs[1..];
    forall i, j | 0 <= i < j < |rest| ensures rest[i].id < rest[j].id {
      assert rest[i] == rs[i + 1] && rest[j] == rs[j + 1];
    }
    forall r | r in rest ensures rs[0].id < r.id {
      var k :| 0 <= k < |rest| && rest[k] == r;
      assert rs[k + 1] == r;
    }
  }

  /** A record with a smaller id than all of an increasing list extends it. */
  lemma IncreasingCons(r: Record, rest: seq<Record>)
    requires IncreasingIds(rest) && forall x :: x in rest ==> r.id < x.id
    ensures IncreasingIds([r] + rest)
  {
    var rs := [r] + rest;
    forall i, j | 0 <= i < j < |rs| ensures rs[i].id < rs[j].id {
      assert rs[j] == rest[j - 1] && rest[j - 1] in rest;
      if i > 0 {
        assert rs[i] == rest[i - 1];
      }
    }
  }

  /** A list whose ids strictly increase has as many records as ids. */
  lemma {:induction false} IncreasingIdsCount(rs: seq<Record>)
    requires IncreasingIds(rs)
    ensures |IdsOf(rs)| == |rs|
  {
    if rs != [] {
      IncreasingTail(rs);
      IncreasingIdsCount(rs[1..]);
      IdsOfCons(rs);
      assert rs[0].id !in IdsOf(rs[1..]);
    }
  }

  lemma {:induction false} SelectKeepsIncreasing(rs: seq<Record>, f: Filter)
    requires IncreasingIds(rs)
    ensures IncreasingIds(Select(rs, f))
  {
    if rs != [] {
      IncreasingTail(rs);
      SelectKeepsIncreasing(rs[1..], f);
      var rest := Select(rs[1..], f);
      if Matches(f, rs[0].appointment) {
        IncreasingCons(rs[0], rest);
        assert Select(rs, f) == [rs[0]] + rest;
      } else {
        assert [] + rest == rest;
        assert Select(rs, f) == rest;
      }
    }
  }

  /** The page is cut from this list: the matching records, sorted. */
  function Matching(store: map<nat, Appointment>, bound: nat, f: Filter): seq<Record> {
    Sort(Select(Collect(store, bound), f))
  }

  /** The count of the unsorted, unpaged matching records is the number of matching
      ids. */
  lemma TotalCountsMatchingIds(store: map<nat, Appointment>, bound: nat, f: Filter)
    requires forall id :: id in store ==> id < bound
    ensures |Select(Collect(store, bound), f)| == |MatchingIds(store, f)|
  {
    var sel := Select(Collect(store, bound), f);
    SelectKeepsIncreasing(Collect(store, bound), f);
    IncreasingIdsCount(sel);
    assert IdsOf(sel) == MatchingIds(store, f) by {
      forall id | id in MatchingIds(store, f) ensures id in IdsOf(sel) {
        assert Record(id, store[id]) in sel;
      }
    }
  }

  /** A page of a sorted list is sorted. */
  lemma PageSorted(rs: seq<Record>, skip: nat, count: nat)
    requires SortedByMoment(rs)
    ensures SortedByMoment(PageOf(rs, skip, count))
  {
    var page := PageOf(rs, skip, count);
    forall i, j | 0 <= i < j < |page|
      ensures !KeyLess(page[j].appointment, page[i].appointment)
    {
      assert page[i] == rs[skip + i] && page[j] == rs[skip + j];
    }
  }

  /** Every record of a page comes from the list it is cut from. */
  lemma PageWithin(rs: seq<Record>, skip: nat, count: nat)
    ensures forall x :: x in PageOf(rs, skip, count) ==> x in rs
  {
    var page := PageOf(rs, skip, count);
    forall x | x in page ensures x in rs {
      var k :| 0 <= k < |page| && page[k] == x;
      assert rs[skip + k] == x;
    }
  }

  /** `rs` lists every stored record that passes the filter exactly once, sorted by
      day and time: it holds only matching stored records, all of them, and as many
      entries as there are matching ids. */
  ghost predicate ListsMatching(store: map<nat, Appointment>, f: Filter, rs: seq<Record>) {
    && SortedByMoment(rs)
    && (forall x :: x in rs <==> x.id in store && store[x.id] == x.appointment && Matches(f, x.appointment))
    && |rs| == |MatchingIds(store, f)|
  }

  /** The sorted matching records are such a list. */
  lemma MatchingListsMatching(store: map<nat, Appointment>, bound: nat, f: Filter)
    requires forall id :: id in store ==> id < bound
    ensures ListsMatching(store, f, Matching(store, bound, f))
  {
    var selected := Select(Collect(store, bound), f);
    var sorted := Sort(selected);
    TotalCountsMatchingIds(store, bound, f);
    assert |sorted| == |selected| by {
      assert |multiset(sorted)| == |multiset(selected)|;
    }
    forall x
      ensures x in sorted <==> x.id in store && store[x.id] == x.appointment && Matches(f, x.appointment)
    {
      assert x in sorted <==> x in multiset(sorted);
      assert x in selected <==> x in multiset(selected);
    }
  }

  /** `page` is cut at offset `skip` from a list of the matching records: its record i
      is record `skip` + i of that list. */
  ghost predicate PageAt(store: map<nat, Appointment>, f: Filter, skip: nat, page: seq<Record>) {
    exists rs :: ListsMatching(store, f, rs)
      && forall i :: 0 <= i < |page| ==> skip + i < |rs| && page[i] == rs[skip + i]
  }

  /** A page cut from a list of the matching records is cut at its offset, and holds
      only stored, matching records. */
  lemma PageOfListing(store: map<nat, Appointment>, f: Filter, rs: seq<Record>, skip: nat, count: nat)
    requires ListsMatching(store, f, rs)
    ensures PageAt(store, f, skip, PageOf(rs, skip, count))
    ensures forall x :: x in PageOf(rs, skip, count) ==>
      x.id in store && store[x.id] == x.appointment && Matches(f, x.appointment)
  {
    var page := PageOf(rs, skip, count);
    assert forall i :: 0 <= i < |page| ==> skip + i < |rs| && page[i] == rs[skip + i];
    PageWithin(rs, skip, count);
  }

  /** What the page cut from the sorted matching records holds: it is cut at offset
      `skip` from a list of the matching records, so each record is a stored, matching
      record; the page is sorted and has the expected size. */
  lemma PageFacts(store: map<nat, Appointment>, bound: nat, f: Filter, skip: nat, count: nat)
    requires forall id :: id in store ==> id < bound
    ensures var page := PageOf(Matching(store, bound, f), skip, count);
      && PageAt(store, f, skip, page)
      && (forall x :: x in page ==> x.id in store && store[x.id] == x.appointment && Matches(f, x.appointment))
      && SortedByMoment(page)
      && |page| == Min(count, Max(0, |MatchingIds(store, f)| - skip))
  {
    var sorted := Matching(store, bound, f);
    MatchingListsMatching(store, bound, f);
    PageOfListing(store, f, sorted, skip, count);
    PageSorted(sorted, skip, count);
  }

  /** The listing endpoint. A query that cannot be cast, or a page whose skip count is
      negative, is answered with 500; otherwise the page at offset `Skip(q)` of the
      matching records sorted by day and time, and the pagination block. */
  function List(store: map<nat, Appointment>, bound: nat, q: ListQuery, env: Env): (r: Result<Listed>)
    requires forall id :: id in store ==> id < bound
    ensures r.Err? <==> CastFails(q, env) || Skip(q) < 0
    ensures r.Err? ==> r.failure.ServerError?
    ensures r.Ok? ==> PageAt(store, FilterOf(q, env), Skip(q), r.value.records)
    ensures r.Ok? ==> forall x :: x in r.value.records ==>
      x.id in store && store[x.id] == x.appointment && Matches(FilterOf(q, env), x.appointment)
    ensures r.Ok? ==> SortedByMoment(r.value.records)
    ensures r.Ok? ==> var total := |MatchingIds(store, FilterOf(q, env))|;
      && |r.value.records| == Min(Abs(Limit(q)), Max(0, total - Skip(q)))
      && r.value.pagination == Paginate(Page(q), Limit(q), total)
  {
    if Truthy(q.dentistId) && !Casts(env, q.dentistId.value) then Err(ServerError(InvalidIdCast))
    else if Truthy(q.patientId) && !Casts(env, q.patientId.value) then Err(ServerError(InvalidIdCast))
    else if Truthy(q.date) && env.readDate(q.date.value).None? then Err(ServerError(InvalidDateCast))
    else if Skip(q) < 0 then Err(ServerError(NegativeSkip))
    else
      var f := FilterOf(q, env);
      PageFacts(store, bound, f, Skip(q), Abs(Limit(q)));
      Ok(Listed(PageOf(Matching(store, bound, f), Skip(q), Abs(Limit(q))),
        Paginate(Page(q), Limit(q), |MatchingIds(store, f)|)))
  }
}
