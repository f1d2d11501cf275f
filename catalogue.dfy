/** `GET /api/events`, the part after the database query: each event's
    figures from its AVAILABLE tickets, the price-range filter and the
    three sort orders. The rows arrive already filtered (text search, date
    range) and ordered by date by the database. */
module Catalogue {
  import opened Basics
  import Records
  import Ordering

  /** A ticket as the query selects it. */
  datatype TicketRow = TicketRow(price: Cents, status: Records.TicketStatus)

  /** An event row with its tickets. */
  datatype EventRow = EventRow(id: Id, date: int, tickets: seq<TicketRow>)

  /** An event as returned: its row's fields plus the two derived figures. */
  datatype Summary = Summary(id: Id, date: int, minPrice: Option<Cents>, availableTickets: nat)

  predicate IsAvailable(t: TicketRow) {
    t.status == Records.Available
  }

  /** The number of AVAILABLE tickets. */
  function AvailableCount(ts: seq<TicketRow>): (n: nat)
    ensures n == |Ordering.Filter(ts, IsAvailable)|
    ensures n <= |ts|
    ensures n == 0 <==> forall i :: 0 <= i < |ts| ==> !IsAvailable(ts[i])
  {
    if ts == [] then 0
    else (if IsAvailable(ts[0]) then 1 else 0) + AvailableCount(ts[1..])
  }

  /** The lowest price among the AVAILABLE tickets; None when there is none. */
  function MinPrice(ts: seq<TicketRow>): (m: Option<Cents>)
    ensures m.None? <==> forall i :: 0 <= i < |ts| ==> !IsAvailable(ts[i])
    ensures m.Some? ==> exists i :: 0 <= i < |ts| && IsAvailable(ts[i]) && ts[i].price == m.value
    ensures m.Some? ==> forall i :: 0 <= i < |ts| && IsAvailable(ts[i]) ==> m.value <= ts[i].price
  {
    if ts == [] then None
    else
      var rest := MinPrice(ts[1..]);
      assert forall i :: 1 <= i < |ts| ==> ts[i] == ts[1..][i - 1];
      if !IsAvailable(ts[0]) then
        assert rest.Some? ==> exists i :: 0 <= i < |ts| && IsAvailable(ts[i]) && ts[i].price == rest.value by {
          if rest.Some? {
            var j :| 0 <= j < |ts[1..]| && IsAvailable(ts[1..][j]) && ts[1..][j].price == rest.value;
            assert ts[j + 1] == ts[1..][j];
          }
        }
        rest
      else if rest.None? || ts[0].price <= rest.value then Some(ts[0].price)
      else
        assert exists i :: 0 <= i < |ts| && IsAvailable(ts[i]) && ts[i].price == rest.value by {
          var j :| 0 <= j < |ts[1..]| && IsAvailable(ts[1..][j]) && ts[1..][j].price == rest.value;
          assert ts[j + 1] == ts[1..][j];
        }
        rest
  }

  /** One event's entry: its row's id and date, the lowest AVAILABLE price
      and the number of AVAILABLE tickets. */
  function Summarize(e: EventRow): (s: Summary)
    ensures s.id == e.id && s.date == e.date
    ensures s.minPrice == MinPrice(e.tickets) && s.availableTickets == AvailableCount(e.tickets)
  {
    Summary(e.id, e.date, MinPrice(e.tickets), AvailableCount(e.tickets))
  }

  /** The `map` step: one summary per row, in row order. */
  function Summaries(rows: seq<EventRow>): (r: seq<Summary>)
    ensures |r| == |rows|
    ensures forall i :: 0 <= i < |rows| ==> r[i] == Summarize(rows[i])
  {
    if rows == [] then [] else [Summarize(rows[0])] + Summaries(rows[1..])
  }

  /** A summary has no price exactly when its event has no ticket for sale. */
  lemma NoPriceIffSoldOut(e: EventRow)
    ensures Summarize(e).minPrice.None? <==> Summarize(e).availableTickets == 0
  {
  }

  // ---- the price-range filter ----

  /** Whether an event survives the filter with bounds `lo` and `hi`
      (absent bounds are not given). */
  predicate InRange(s: Summary, lo: Option<Cents>, hi: Option<Cents>) {
    && s.minPrice.Some?
    && (lo.Some? ==> lo.value <= s.minPrice.value)
    && (hi.Some? ==> s.minPrice.value <= hi.value)
  }

  function InRangeFilter(lo: Option<Cents>, hi: Option<Cents>): Summary -> bool {
    s => InRange(s, lo, hi)
  }

  /** The filter is applied only when a bound is given. */
  function PriceFilter(ss: seq<Summary>, lo: Option<Cents>, hi: Option<Cents>): (r: seq<Summary>)
    ensures lo.None? && hi.None? ==> r == ss
    ensures lo.Some? || hi.Some? ==>
              (forall i :: 0 <= i < |r| ==> r[i] in ss && InRange(r[i], lo, hi)) &&
              (forall i :: 0 <= i < |ss| && InRange(ss[i], lo, hi) ==> ss[i] in r)
  {
    if lo.None? && hi.None? then ss else Ordering.Filter(ss, InRangeFilter(lo, hi))
  }

  /** With any bound, an event without a price is dropped. */
  lemma BoundDropsUnpriced(ss: seq<Summary>, lo: Option<Cents>, hi: Option<Cents>, i: nat)
    requires lo.Some? || hi.Some?
    requires i < |PriceFilter(ss, lo, hi)|
    ensures PriceFilter(ss, lo, hi)[i].minPrice.Some?
  {
  }

  /** Filtering only removes: what is kept is in its original order. */
  lemma PriceFilterKeepsOrder(ss: seq<Summary>, lo: Option<Cents>, hi: Option<Cents>)
    ensures Ordering.IsSubsequence(PriceFilter(ss, lo, hi), ss)
  {
    if lo.Some? || hi.Some? {
      Ordering.FilterKeepsOrder(ss, InRangeFilter(lo, hi));
    } else {
      SubsequenceOfSelf(ss);
    }
  }

  lemma {:induction false} SubsequenceOfSelf(s: seq<Summary>)
    ensures Ordering.IsSubsequence(s, s)
  {
    if s != [] {
      SubsequenceOfSelf(s[1..]);
    }
  }

  // ---- the sort orders ----

  datatype SortMode = ByPrice | ByAvailability | ByDate

  /** `sortBy` defaults to "date" when absent or empty; any other unknown
      value selects no sort. */
  function ParseSort(sortBy: Option<string>): (m: Option<SortMode>)
    ensures sortBy.None? || sortBy == Some("") || sortBy == Some("date") <==> m == Some(ByDate)
    ensures sortBy == Some("price") <==> m == Some(ByPrice)
    ensures sortBy == Some("availability") <==> m == Some(ByAvailability)
  {
    var s := if sortBy.None? || sortBy.value == "" then "date" else sortBy.value;
    if s == "price" then Some(ByPrice)
    else if s == "availability" then Some(ByAvailability)
    else if s == "date" then Some(ByDate)
    else None
  }

  /** `minPrice || Infinity`: no price, or a price of 0, ranks after every
      real price. */
  predicate Unpriced(s: Summary) {
    s.minPrice.None? || s.minPrice.value == 0
  }

  /** Whether `a` may precede `b` in the chosen order (the comparator is
      not positive). */
  predicate Le(a: Summary, b: Summary, mode: SortMode) {
    match mode
    case ByPrice => Unpriced(b) || (!Unpriced(a) && a.minPrice.value <= b.minPrice.value)
    case ByAvailability => a.availableTickets >= b.availableTickets
    case ByDate => a.date <= b.date
  }

  lemma LeTotal(a: Summary, b: Summary, mode: SortMode)
    ensures Le(a, b, mode) || Le(b, a, mode)
  {
  }

  predicate SortedIn(s: seq<Summary>, mode: SortMode) {
    forall i, j :: 0 <= i < j < |s| ==> Le(s[i], s[j], mode)
  }

  /** In price order, once an unpriced event appears every later one is
      unpriced too; the priced ones come first, ascending. */
  lemma UnpricedLast(s: seq<Summary>, i: nat, j: nat)
    requires SortedIn(s, ByPrice)
    requires i < j < |s| && Unpriced(s[i])
    ensures Unpriced(s[j])
  {
    assert Le(s[i], s[j], ByPrice);
  }

  lemma PricedAscending(s: seq<Summary>, i: nat, j: nat)
    requires SortedIn(s, ByPrice)
    requires i < j < |s| && !Unpriced(s[j])
    ensures !Unpriced(s[i]) && s[i].minPrice.value <= s[j].minPrice.value
  {
    assert Le(s[i], s[j], ByPrice);
  }

  /** `Array.prototype.sort` with the chosen comparator, by insertion:
      each element in turn is moved left past the larger ones before it. */
  method SortInPlace(a: array<Summary>, mode: SortMode)
    modifies a
    ensures SortedIn(a[..], mode)
    ensures multiset(a[..]) == old(multiset(a[..]))
  {
    var i := 0;
    while i < a.Length
      invariant 0 <= i <= a.Length
      invariant SortedIn(a[..i], mode)
      invariant multiset(a[..]) == old(multiset(a[..]))
    {
      InsertStep(a, i, mode);
      i := i + 1;
    }
    assert a[..] == a[..a.Length];
  }

  /** One insertion: with `a[..i]` in order, swap `a[i]` leftwards until
      `a[..i+1]` is in order; the elements after `i` stay where they are. */
  method InsertStep(a: array<Summary>, i: nat, mode: SortMode)
    requires i < a.Length
    requires SortedIn(a[..i], mode)
    modifies a
    ensures SortedIn(a[..i + 1], mode)
    ensures multiset(a[..i + 1]) == old(multiset(a[..i + 1]))
    ensures a[i + 1..] == old(a[i + 1..])
    ensures multiset(a[..]) == old(multiset(a[..]))
  {
    ghost var s0 := a[..];
    assert a[..][..i] == a[..i];
    StartInsert(a[..], i, mode);
    var j := i;
    while j > 0 && !Le(a[j - 1], a[j], mode)
      invariant 0 <= j <= i
      invariant multiset(a[..]) == old(multiset(a[..]))
      invariant Inserting(a[..], i, j, mode)
      invariant a[i + 1..] == old(a[i + 1..])
    {
      ghost var s := a[..];
      SwapStep(s, i, j, mode);
      a[j - 1], a[j] := a[j], a[j - 1];
      assert a[..] == s[j - 1 := s[j]][j := s[j - 1]];
      assert a[i + 1..] == s[i + 1..];
      j := j - 1;
    }
    InsertDone(a[..], i, j, mode);
    assert a[..][..i + 1] == a[..i + 1];
    PrefixPermuted(s0, a[..], i + 1);
    assert a[..][..i + 1] == a[..i + 1] && s0[..i + 1] == old(a[..i + 1]);
  }

  /** A permutation that leaves the suffix from `k` in place permutes the
      prefix up to `k`. */
  lemma PrefixPermuted(s: seq<Summary>, t: seq<Summary>, k: nat)
    requires |s| == |t| && k <= |s|
    requires multiset(t) == multiset(s) && t[k..] == s[k..]
    ensures multiset(t[..k]) == multiset(s[..k])
  {
    assert s == s[..k] + s[k..] && t == t[..k] + t[k..];
    calc {
      multiset(t[..k]) + multiset(t[k..]);
      multiset(t[..k] + t[k..]);
      multiset(t);
      multiset(s);
      multiset(s[..k] + s[k..]);
      multiset(s[..k]) + multiset(s[k..]);
    }
    var left, right := multiset(t[..k]), multiset(s[..k]);
    var tail := multiset(s[k..]);
    assert left + tail == right + tail;
    forall x ensures left[x] == right[x] {
      assert (left + tail)[x] == (right + tail)[x];
    }
  }

  /** The state of an insertion of `s[..i+1]` whose moving element is at
      `j`: every other pair is in order, and the moving element precedes
      everything to its right. */
  predicate Inserting(s: seq<Summary>, i: nat, j: nat, mode: SortMode)
    requires j <= i < |s|
  {
    && (forall p, q :: 0 <= p < q <= i && p != j && q != j ==> Le(s[p], s[q], mode))
    && (forall q :: j < q <= i ==> Le(s[j], s[q], mode))
  }

  lemma StartInsert(s: seq<Summary>, i: nat, mode: SortMode)
    requires i < |s| && SortedIn(s[..i], mode)
    ensures Inserting(s, i, i, mode)
  {
    forall p, q | 0 <= p < q < i ensures Le(s[p], s[q], mode) {
      assert s[p] == s[..i][p] && s[q] == s[..i][q];
    }
  }

  lemma SwapStep(s: seq<Summary>, i: nat, j: nat, mode: SortMode)
    requires 0 < j <= i < |s| && Inserting(s, i, j, mode) && !Le(s[j - 1], s[j], mode)
    ensures Inserting(s[j - 1 := s[j]][j := s[j - 1]], i, j - 1, mode)
    ensures multiset(s[j - 1 := s[j]][j := s[j - 1]]) == multiset(s)
  {
    var t := s[j - 1 := s[j]][j := s[j - 1]];
    LeTotal(s[j - 1], s[j], mode);
    forall p, q | 0 <= p < q <= i && p != j - 1 && q != j - 1 ensures Le(t[p], t[q], mode) {
      if p == j {
        assert Le(s[j - 1], s[q], mode);
      } else if q == j {
        assert Le(s[p], s[j - 1], mode);
      } else {
        assert Le(s[p], s[q], mode);
      }
    }
    forall q | j - 1 < q <= i ensures Le(t[j - 1], t[q], mode) {
      if q > j {
        assert Le(s[j], s[q], mode);
      }
    }
  }

  lemma InsertDone(s: seq<Summary>, i: nat, j: nat, mode: SortMode)
    requires j <= i < |s| && Inserting(s, i, j, mode)
    requires j > 0 ==> Le(s[j - 1], s[j], mode)
    ensures SortedIn(s[..i + 1], mode)
  {
    forall p, q | 0 <= p < q <= i ensures Le(s[p], s[q], mode) {
      if q == j && p < j - 1 {
        LeTrans(s[p], s[j - 1], s[j], mode);
      }
    }
  }

  lemma LeTrans(a: Summary, b: Summary, c: Summary, mode: SortMode)
    requires Le(a, b, mode) && Le(b, c, mode)
    ensures Le(a, c, mode)
  {
  }

  /** The post-query part of the handler: summarise, filter, then sort a
      copy when `sortBy` names a known order. */
  method ListEvents(rows: seq<EventRow>, lo: Option<Cents>, hi: Option<Cents>, sortBy: Option<string>)
    returns (r: seq<Summary>)
    ensures multiset(r) == multiset(PriceFilter(Summaries(rows), lo, hi))
    ensures ParseSort(sortBy).Some? ==> SortedIn(r, ParseSort(sortBy).value)
    ensures ParseSort(sortBy).None? ==> r == PriceFilter(Summaries(rows), lo, hi)
  {
    var events := PriceFilter(Summaries(rows), lo, hi);
    var mode := ParseSort(sortBy);
    if mode.None? {
      return events;
    }
    var a := new Summary[|events|](i requires 0 <= i < |events| => events[i]);
    assert a[..] == events;
    SortInPlace(a, mode.value);
    r := a[..];
  }
}
