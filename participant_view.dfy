/**
 * The admin participant list as the browser derives it: search, the
 * "only without squares" filter and the four sort orders. Nothing here touches the store.
 */
module ParticipantView {
  import opened Wrappers
  import Js
  import Collections

  /** A participant as the list shows it; `square_count` may be absent. */
  datatype ListRow = ListRow(id: string, displayName: string, squareCount: Option<Js.Number>)

  datatype SortOption = NameAsc | NameDesc | SquaresDesc | SquaresAsc

  datatype ViewOptions = ViewOptions(search: string, sort: SortOption, onlyWithoutSquares: bool)

  /** normalizeSquareCount: a finite count is kept; an absent, NaN or infinite one counts as 0. */
  function NormalizeSquareCount(value: Option<Js.Number>): (c: real)
    ensures value.Some? && value.value.Finite? ==> c == value.value.r
    ensures !(value.Some? && value.value.Finite?) ==> c == 0.0
  {
    if value.Some? && Js.IsFinite(value.value) then value.value.r else 0.0
  }

  /** `localeCompare(..., { sensitivity: 'base' })` on names, read as a comparison that ignores letter case. */
  function CompareNames(a: string, b: string): (r: int)
    ensures -1 <= r <= 1
    ensures r == 0 <==> Js.Lower(a) == Js.Lower(b)
  {
    Collections.Compare(Js.Lower(a), Js.Lower(b))
  }

  /** compareNameAscending: by name ignoring case, then by id. */
  function CompareNameAscending(a: ListRow, b: ListRow): (r: int)
    ensures -1 <= r <= 1
    ensures r == 0 <==> Js.Lower(a.displayName) == Js.Lower(b.displayName) && a.id == b.id
    ensures r < 0 <==> CompareNames(a.displayName, b.displayName) < 0
                       || (CompareNames(a.displayName, b.displayName) == 0 && Collections.Compare(a.id, b.id) < 0)
  {
    var byName := CompareNames(a.displayName, b.displayName);
    if byName != 0 then byName else Collections.Compare(a.id, b.id)
  }

  /** compareNameAscending is antisymmetric in sign and transitive. */
  lemma NameOrderIsConsistent(a: ListRow, b: ListRow, c: ListRow)
    ensures CompareNameAscending(a, b) == -CompareNameAscending(b, a)
    ensures CompareNameAscending(a, b) <= 0 && CompareNameAscending(b, c) <= 0 ==> CompareNameAscending(a, c) <= 0
  {
    Collections.CompareFlip(Js.Lower(a.displayName), Js.Lower(b.displayName));
    Collections.CompareFlip(a.id, b.id);
    if CompareNameAscending(a, b) <= 0 && CompareNameAscending(b, c) <= 0 {
      var la, lb, lc := Js.Lower(a.displayName), Js.Lower(b.displayName), Js.Lower(c.displayName);
      Collections.CompareTransitive(la, lb, lc);
      Collections.CompareFlip(la, lc);
      Collections.CompareFlip(la, lb);
      if la == lb && lb == lc {
        Collections.CompareTransitive(a.id, b.id, c.id);
      }
    }
  }

  /** The comparator handed to `sort` for each option. */
  function Comparator(sort: SortOption, a: ListRow, b: ListRow): real {
    match sort
    case NameAsc => CompareNameAscending(a, b) as real
    case NameDesc => CompareNameAscending(b, a) as real
    case _ =>
      var aCount := NormalizeSquareCount(a.squareCount);
      var bCount := NormalizeSquareCount(b.squareCount);
      var byCount := if sort == SquaresDesc then bCount - aCount else aCount - bCount;
      if byCount != 0.0 then byCount else CompareNameAscending(a, b) as real
  }

  /** `a` may come before `b` in the sorted output. */
  predicate Before(sort: SortOption, a: ListRow, b: ListRow) {
    Comparator(sort, a, b) <= 0.0
  }

  /**
   * What each order means: names ascending (case-insensitive, id tie-break), its exact
   * reverse, and square counts descending or ascending with names ascending among equal counts.
   */
  lemma OrdersAreAsDescribed(a: ListRow, b: ListRow)
    ensures Before(NameAsc, a, b) <==> CompareNameAscending(a, b) <= 0
    ensures Before(NameDesc, a, b) <==> Before(NameAsc, b, a)
    ensures Before(SquaresDesc, a, b) <==>
      NormalizeSquareCount(a.squareCount) > NormalizeSquareCount(b.squareCount)
      || (NormalizeSquareCount(a.squareCount) == NormalizeSquareCount(b.squareCount) && Before(NameAsc, a, b))
    ensures Before(SquaresAsc, a, b) <==>
      NormalizeSquareCount(a.squareCount) < NormalizeSquareCount(b.squareCount)
      || (NormalizeSquareCount(a.squareCount) == NormalizeSquareCount(b.squareCount) && Before(NameAsc, a, b))
  {
  }

  /** Every comparator orders all pairs consistently, so the sort result is ordered by it. */
  lemma ComparatorIsConsistent(sort: SortOption)
    ensures Collections.TotalPreorder((a: ListRow, b: ListRow) => Before(sort, a, b))
  {
    forall a: ListRow, b: ListRow ensures Before(sort, a, b) || Before(sort, b, a) {
      NameOrderIsConsistent(a, b, a);
    }
    forall a: ListRow, b: ListRow, c: ListRow | Before(sort, a, b) && Before(sort, b, c)
      ensures Before(sort, a, c)
    {
      NameOrderIsConsistent(a, b, c);
      NameOrderIsConsistent(c, b, a);
    }
  }

  /** The row filter: the zero-squares switch, then the case-insensitive substring search. */
  predicate Keep(options: ViewOptions, needle: string, p: ListRow) {
    var squareCount := NormalizeSquareCount(p.squareCount);
    if options.onlyWithoutSquares && squareCount != 0.0 then false
    else if needle == "" then true
    else Js.Includes(Js.Lower(p.displayName), needle)
  }

  /** `options.search.trim().toLowerCase()` */
  function SearchNeedle(options: ViewOptions): string {
    Js.Lower(Js.Trim(options.search))
  }

  /**
   * deriveParticipantRows: the rows the filter keeps, each exactly as often as in the
   * input, ordered by the chosen comparator. The input sequence is a value and is not changed.
   */
  function DeriveParticipantRows(participants: seq<ListRow>, options: ViewOptions): (r: seq<ListRow>)
    ensures forall x :: multiset(r)[x] == if Keep(options, SearchNeedle(options), x) then multiset(participants)[x] else 0
    ensures multiset(r) <= multiset(participants)
    ensures forall i, j :: 0 <= i < j < |r| ==> Before(options.sort, r[i], r[j])
  {
    var needle := SearchNeedle(options);
    var kept := Collections.Filter(participants, (p: ListRow) => Keep(options, needle, p));
    ComparatorIsConsistent(options.sort);
    Collections.Sort(kept, (a: ListRow, b: ListRow) => Before(options.sort, a, b))
  }

  /**
   * With only-without-squares on, every row shown has a zero (or missing) count; with a
   * blank search and the switch off, every input row is shown.
   */
  lemma FiltersAreAsDescribed(participants: seq<ListRow>, options: ViewOptions)
    ensures options.onlyWithoutSquares ==>
      forall x :: x in DeriveParticipantRows(participants, options) ==> NormalizeSquareCount(x.squareCount) == 0.0
    ensures !options.onlyWithoutSquares && Js.Trim(options.search) == "" ==>
      multiset(DeriveParticipantRows(participants, options)) == multiset(participants)
    ensures forall x :: x in DeriveParticipantRows(participants, options) && SearchNeedle(options) != "" ==>
      Js.Includes(Js.Lower(x.displayName), SearchNeedle(options))
  {
    var r := DeriveParticipantRows(participants, options);
    forall x | x in r ensures Keep(options, SearchNeedle(options), x) {
      assert multiset(r)[x] > 0;
    }
    if !options.onlyWithoutSquares && Js.Trim(options.search) == "" {
      assert SearchNeedle(options) == "";
      assert forall x :: multiset(r)[x] == multiset(participants)[x];
    }
  }
}
