/**
 * The transform stage: the two `Array.filter` predicates, the rating
 * comparator handed to `Array.prototype.sort`, and the order a sort with that
 * comparator leaves behind.
 */
module Transforms {
  import opened Wrappers
  import opened JsValues
  import opened JsDate
  import opened Diary

  /** The predicate of one filter call. */
  datatype Criterion =
    | WatchedInYear(year: int)  // filterByWatchedDate(year): `watchedYear == yearFilter`
    | RewatchIs(flag: bool)     // filterByRewatch(flag): `entry.rewatch == rewatch`

  /**
   * A year filter can only match a four-digit year, and a rewatch filter never
   * matches an entry whose rewatch is `undefined` or `null`.
   */
  predicate Matches(e: DiaryEntry, c: Criterion)
    ensures Matches(e, c) && c.WatchedInYear? ==> 0 <= c.year < 10000
    ensures Matches(e, c) && c.RewatchIs? ==> !IsNullish(e.rewatch)
  {
    match c
    case WatchedInYear(y) => UtcFullYear(e.watchedDate) == Some(y)
    case RewatchIs(f) => LooselyEqualsBoolean(e.rewatch, f)
  }

  /** `s.filter(e => Matches(e, c))`: a new list, scanned left to right. */
  function Filter(s: seq<DiaryEntry>, c: Criterion): (r: seq<DiaryEntry>)
    ensures |r| <= |s|
  {
    if s == [] then []
    else (if Matches(s[0], c) then [s[0]] else []) + Filter(s[1..], c)
  }

  /** `idx` lists strictly increasing positions of `s` whose entries, in that order, form `r`. */
  ghost predicate SubsequenceAt(r: seq<DiaryEntry>, s: seq<DiaryEntry>, idx: seq<nat>) {
    && |idx| == |r|
    && (forall k :: 0 <= k < |idx| ==> idx[k] < |s| && r[k] == s[idx[k]])
    && (forall k, l :: 0 <= k < l < |idx| ==> idx[k] < idx[l])
  }

  /**
   * The filter keeps, in their original order, exactly the positions whose
   * entries match: it is the subsequence of matching entries.
   */
  lemma {:induction false} FilterKeepsMatchingPositions(s: seq<DiaryEntry>, c: Criterion)
    returns (idx: seq<nat>)
    ensures SubsequenceAt(Filter(s, c), s, idx)
    ensures forall i :: 0 <= i < |s| ==> (i in idx <==> Matches(s[i], c))
  {
    if s == [] {
      idx := [];
    } else {
      var rest := FilterKeepsMatchingPositions(s[1..], c);
      var shifted := Shifted(rest);
      ShiftedMembers(rest);
      var tail := Filter(s[1..], c);
      assert SubsequenceAt(tail, s, shifted) by {
        forall k | 0 <= k < |shifted| ensures shifted[k] < |s| && tail[k] == s[shifted[k]] {
          assert tail[k] == s[1..][rest[k]];
        }
      }
      assert forall i :: 1 <= i < |s| ==> (i in shifted <==> Matches(s[i], c)) by {
        forall i | 1 <= i < |s| ensures i in shifted <==> Matches(s[i], c) {
          assert s[1..][i - 1] == s[i];
        }
      }
      if Matches(s[0], c) {
        idx := [0] + shifted;
        assert Filter(s, c) == [s[0]] + tail;
        PrependPosition(s, tail, shifted);
      } else {
        idx := shifted;
        assert Filter(s, c) == tail;
      }
    }
  }

  lemma PrependPosition(s: seq<DiaryEntry>, tail: seq<DiaryEntry>, shifted: seq<nat>)
    requires |s| > 0 && SubsequenceAt(tail, s, shifted)
    requires forall k :: 0 <= k < |shifted| ==> 1 <= shifted[k]
    ensures SubsequenceAt([s[0]] + tail, s, [0] + shifted)
    ensures forall i: nat :: i in [0] + shifted <==> i == 0 || i in shifted
  {
    var r, idx := [s[0]] + tail, [0] + shifted;
    forall k | 0 <= k < |idx| ensures idx[k] < |s| && r[k] == s[idx[k]] {
      if k > 0 {
        assert idx[k] == shifted[k - 1] && r[k] == tail[k - 1];
      }
    }
    forall k, l | 0 <= k < l < |idx| ensures idx[k] < idx[l] {
      assert idx[l] == shifted[l - 1];
      if k > 0 {
        assert idx[k] == shifted[k - 1];
      }
    }
  }

  /** Every position moved one to the right. */
  ghost function Shifted(idx: seq<nat>): (shifted: seq<nat>)
    ensures |shifted| == |idx| && forall k :: 0 <= k < |idx| ==> shifted[k] == idx[k] + 1
  {
    seq(|idx|, k requires 0 <= k < |idx| => idx[k] + 1)
  }

  /** A position is among the shifted ones exactly when its left neighbour was among the original ones. */
  lemma ShiftedMembers(idx: seq<nat>)
    ensures forall i: nat :: i in Shifted(idx) <==> 1 <= i && i - 1 in idx
  {
    var shifted := Shifted(idx);
    forall i: nat ensures i in shifted <==> 1 <= i && i - 1 in idx {
      if i in shifted {
        var k :| 0 <= k < |shifted| && shifted[k] == i;
      }
      if 1 <= i && i - 1 in idx {
        var k :| 0 <= k < |idx| && idx[k] == i - 1;
        assert shifted[k] == i;
      }
    }
  }

  /** Counted with multiplicity, the filter keeps every matching entry and no other. */
  lemma {:induction false} FilterCounts(s: seq<DiaryEntry>, c: Criterion)
    ensures forall e :: multiset(Filter(s, c))[e] == (if Matches(e, c) then multiset(s)[e] else 0)
  {
    if s != [] {
      FilterCounts(s[1..], c);
      assert s == [s[0]] + s[1..];
    }
  }

  /** Membership form of the counts. */
  lemma FilterMembers(s: seq<DiaryEntry>, c: Criterion)
    ensures forall e :: e in Filter(s, c) <==> e in s && Matches(e, c)
  {
    FilterCounts(s, c);
    forall e ensures e in Filter(s, c) <==> e in s && Matches(e, c) {
      assert e in Filter(s, c) <==> multiset(Filter(s, c))[e] > 0;
      assert e in s <==> multiset(s)[e] > 0;
    }
  }

  /** Every rewatch field is a boolean, as Boolean() makes it. */
  ghost predicate BooleanRewatch(s: seq<DiaryEntry>) {
    forall i :: 0 <= i < |s| ==> s[i].rewatch.Bool?
  }

  /** When every rewatch is a boolean, filtering for `true` and for `false` splits the diary in two. */
  lemma RewatchPartition(s: seq<DiaryEntry>)
    requires BooleanRewatch(s)
    ensures multiset(Filter(s, RewatchIs(true))) + multiset(Filter(s, RewatchIs(false))) == multiset(s)
  {
    FilterCounts(s, RewatchIs(true));
    FilterCounts(s, RewatchIs(false));
    forall e | e in multiset(s) ensures e.rewatch.Bool? {
      var i :| 0 <= i < |s| && s[i] == e;
    }
  }

  /** No entry is kept both by filterByRewatch(true) and by filterByRewatch(false). */
  lemma RewatchFiltersDisjoint(s: seq<DiaryEntry>)
    ensures forall e :: e in Filter(s, RewatchIs(true)) ==> e !in Filter(s, RewatchIs(false))
  {
    FilterMembers(s, RewatchIs(true));
    FilterMembers(s, RewatchIs(false));
    forall e | e in Filter(s, RewatchIs(true)) ensures e !in Filter(s, RewatchIs(false)) {
      assert !IsNullish(e.rewatch) && ToNumber(e.rewatch) == Finite(1.0);
    }
  }

  /** A diary built by the csv-parse mapper has boolean rewatch fields throughout. */
  lemma CsvDiaryRewatchIsBoolean(rows: seq<CsvRow>, entries: seq<DiaryEntry>)
    requires |entries| == |rows|
    requires forall i :: 0 <= i < |rows| ==> entries[i] == EntryFromCsvRow(rows[i])
    ensures BooleanRewatch(entries)
  {
  }

  /**
   * In the PapaParse variant a Rewatch cell "Yes" (a string, kept by `|| false`)
   * is neither `== true` nor `== false`: that entry passes neither rewatch filter.
   */
  lemma PapaYesMatchesNeither(row: PapaRow)
    requires "Rewatch" in row && row["Rewatch"] == Str("Yes")
    ensures !Matches(EntryFromPapaRow(row), RewatchIs(true))
    ensures !Matches(EntryFromPapaRow(row), RewatchIs(false))
  {
    var yes := Str("Yes");
    assert ToBoolean(yes);
    assert EntryFromPapaRow(row).rewatch == yes;
    NumberOfYes();
    assert !LooselyEqualsBoolean(yes, true) && !LooselyEqualsBoolean(yes, false);
  }

  lemma NumberOfYes()
    ensures NumberOf("Yes") == NaN
  {
    var s := "Yes";
    assert !IsWhiteSpace(s[0]) && !IsWhiteSpace(s[2]) && !Decimal.IsDigit(s[0]);
    NumberOfNonNumeric(s);
  }

  /**
   * PapaParse does not trim cells, and a blank Rewatch cell is truthy, so
   * `|| false` keeps it; Number() of a blank string is 0, so it is `== false`
   * and the entry passes filterByRewatch(false) but not filterByRewatch(true).
   */
  lemma PapaBlankRewatchIsFalse(row: PapaRow, blank: string)
    requires "Rewatch" in row && row["Rewatch"] == Str(blank)
    requires blank != [] && forall i :: 0 <= i < |blank| ==> IsWhiteSpace(blank[i])
    ensures EntryFromPapaRow(row).rewatch == Str(blank)
    ensures Matches(EntryFromPapaRow(row), RewatchIs(false))
    ensures !Matches(EntryFromPapaRow(row), RewatchIs(true))
  {
    assert NumberOf(blank) == Finite(0.0);
  }

  /** An entry whose watched date has no valid year passes no year filter. */
  lemma InvalidDateNeverMatches(e: DiaryEntry, y: int)
    requires UtcFullYear(e.watchedDate) == None
    ensures !Matches(e, WatchedInYear(y))
  {
  }

  // ---------------------------------------------------------------- the sort

  /** The comparator of sortDiaryByRating: `returner` is 1 ascending, -1 descending. */
  function Compare(a: DiaryEntry, b: DiaryEntry, descending: bool): (r: int)
    ensures r == 1 || r == -1
  {
    var returner := if descending then -1 else 1;
    if IsNullish(a.rating) then returner
    else if IsNullish(b.rating) then -returner
    else if GreaterOrEqual(a.rating, b.rating) then returner
    else -returner
  }

  /** Two rated entries with equal ratings get `returner` in both argument orders. */
  lemma CompareTies(a: DiaryEntry, b: DiaryEntry, descending: bool)
    requires !IsNullish(a.rating) && a.rating == b.rating && a.rating.Num? && a.rating.n.Finite?
    ensures Compare(a, b, descending) == Compare(b, a, descending) == (if descending then -1 else 1)
  {
  }

  /** The ratings the comparator orders consistently: none, or a finite number. */
  predicate Comparable(e: DiaryEntry) {
    IsNullish(e.rating) || (e.rating.Num? && e.rating.n.Finite?)
  }

  ghost predicate AllComparable(s: seq<DiaryEntry>) {
    forall i :: 0 <= i < |s| ==> Comparable(s[i])
  }

  /** Finite-number ratings in order. */
  predicate RatingAtMost(x: Value, y: Value) {
    x.Num? && x.n.Finite? && y.Num? && y.n.Finite? && x.n.r <= y.n.r
  }

  /**
   * `a` may stand before `b` in the sorted diary: ascending, unrated entries
   * go last and ratings rise; descending, unrated entries go first and ratings fall.
   */
  predicate Before(a: DiaryEntry, b: DiaryEntry, descending: bool) {
    if descending then IsNullish(a.rating) || (!IsNullish(b.rating) && RatingAtMost(b.rating, a.rating))
    else IsNullish(b.rating) || (!IsNullish(a.rating) && RatingAtMost(a.rating, b.rating))
  }

  /** The comparator's sign decides which of two comparable entries may come first. */
  lemma CompareDecidesBefore(a: DiaryEntry, b: DiaryEntry, descending: bool)
    requires Comparable(a) && Comparable(b)
    ensures Compare(a, b, descending) > 0 ==> Before(b, a, descending)
    ensures Compare(a, b, descending) <= 0 ==> Before(a, b, descending)
  {
  }

  ghost predicate AdjacentInOrder(s: seq<DiaryEntry>, descending: bool) {
    forall k :: 0 < k < |s| ==> Before(s[k - 1], s[k], descending)
  }

  /** Rated entries appear in non-decreasing (ascending) or non-increasing (descending) rating order. */
  ghost predicate RatedInOrder(s: seq<DiaryEntry>, descending: bool) {
    forall i, j :: 0 <= i < j < |s| && !IsNullish(s[i].rating) && !IsNullish(s[j].rating) ==>
      if descending then RatingAtMost(s[j].rating, s[i].rating) else RatingAtMost(s[i].rating, s[j].rating)
  }

  /** Ascending, no unrated entry precedes a rated one; descending, no rated entry precedes an unrated one. */
  ghost predicate UnratedPlaced(s: seq<DiaryEntry>, descending: bool) {
    forall i, j :: 0 <= i < j < |s| ==>
      if descending then !(!IsNullish(s[i].rating) && IsNullish(s[j].rating))
      else !(IsNullish(s[i].rating) && !IsNullish(s[j].rating))
  }

  lemma BeforeTransitive(a: DiaryEntry, b: DiaryEntry, c: DiaryEntry, descending: bool)
    requires Before(a, b, descending) && Before(b, c, descending)
    ensures Before(a, c, descending)
  {
  }

  /** Order between neighbours is order between any two positions. */
  lemma {:induction false} AdjacentInOrderIsSorted(s: seq<DiaryEntry>, descending: bool)
    requires AllComparable(s) && AdjacentInOrder(s, descending)
    ensures forall i, j :: 0 <= i < j < |s| ==> Before(s[i], s[j], descending)
    ensures RatedInOrder(s, descending) && UnratedPlaced(s, descending)
  {
    if |s| > 1 {
      var p := s[..|s| - 1];
      assert AdjacentInOrder(p, descending);
      AdjacentInOrderIsSorted(p, descending);
      forall i | 0 <= i < |s| - 1 ensures Before(s[i], s[|s| - 1], descending) {
        if i < |s| - 2 {
          assert Before(p[i], p[|s| - 2], descending);
          BeforeTransitive(s[i], s[|s| - 2], s[|s| - 1], descending);
        }
      }
      assert forall i, j :: 0 <= i < j < |s| - 1 ==> Before(s[i], s[j], descending) by {
        forall i, j | 0 <= i < j < |s| - 1 ensures Before(s[i], s[j], descending) {
          assert Before(p[i], p[j], descending);
        }
      }
    }
  }

  /**
   * The state of one insertion pass over `s[..i + 1]` with the moving entry at
   * `j`: both sides of it are in order, it is in order with its right
   * neighbour, and its two neighbours are in order with each other.
   */
  ghost predicate Sifting(s: seq<DiaryEntry>, i: nat, j: nat, descending: bool) {
    && j <= i < |s|
    && (forall k :: 0 < k < j ==> Before(s[k - 1], s[k], descending))
    && (forall k :: j + 1 < k <= i ==> Before(s[k - 1], s[k], descending))
    && (j < i ==> Before(s[j], s[j + 1], descending))
    && (0 < j < i ==> Before(s[j - 1], s[j + 1], descending))
  }

  /** A pass starts with the new entry at the end of a sorted prefix. */
  lemma SiftStart(s: seq<DiaryEntry>, i: nat, descending: bool)
    requires i < |s| && AdjacentInOrder(s[..i], descending)
    ensures Sifting(s, i, i, descending)
  {
    forall k | 0 < k < i ensures Before(s[k - 1], s[k], descending) {
      assert s[..i][k - 1] == s[k - 1] && s[..i][k] == s[k];
    }
  }

  /** Swapping the moving entry with a left neighbour the comparator puts after it keeps the pass in order. */
  lemma SiftStep(s: seq<DiaryEntry>, i: nat, j: nat, descending: bool)
    requires AllComparable(s) && Sifting(s, i, j, descending)
    requires 0 < j && Compare(s[j - 1], s[j], descending) > 0
    ensures Sifting(s[j - 1 := s[j]][j := s[j - 1]], i, j - 1, descending)
  {
    CompareDecidesBefore(s[j - 1], s[j], descending);
  }

  /** A pass that stops, at the front or before a neighbour in order, leaves `s[..i + 1]` sorted. */
  lemma SiftDone(s: seq<DiaryEntry>, i: nat, j: nat, descending: bool)
    requires AllComparable(s) && Sifting(s, i, j, descending)
    requires j == 0 || Compare(s[j - 1], s[j], descending) <= 0
    ensures AdjacentInOrder(s[..i + 1], descending)
  {
    if j > 0 {
      CompareDecidesBefore(s[j - 1], s[j], descending);
    }
    var done := s[..i + 1];
    forall k | 0 < k < |done| ensures Before(done[k - 1], done[k], descending) {
      assert done[k - 1] == s[k - 1] && done[k] == s[k];
    }
  }

  /** Two permutations of each other that agree after position `n` are permutations before it. */
  lemma PrefixMultiset(s: seq<DiaryEntry>, t: seq<DiaryEntry>, n: nat)
    requires |s| == |t| && n <= |s| && multiset(s) == multiset(t) && s[n..] == t[n..]
    ensures multiset(s[..n]) == multiset(t[..n])
  {
    assert s == s[..n] + s[n..];
    assert t == t[..n] + t[n..];
    assert multiset(s[..n]) + multiset(s[n..]) == multiset(t[..n]) + multiset(t[n..]);
    assert multiset(s[..n]) == multiset(s) - multiset(s[n..]);
  }

  /** Comparability depends only on which entries are present. */
  lemma AllComparablePermutation(s: seq<DiaryEntry>, t: seq<DiaryEntry>)
    requires multiset(s) == multiset(t) && AllComparable(s)
    ensures AllComparable(t)
  {
    forall i | 0 <= i < |t| ensures Comparable(t[i]) {
      assert t[i] in multiset(s);
      var k :| 0 <= k < |s| && s[k] == t[i];
    }
  }

  // ------------------------------------------------------- the year pipeline

  /** getLetterboxdDataForYearFirstWatches before its sort: year filter, then rewatch `false`. */
  function FirstWatches(s: seq<DiaryEntry>, year: int): (r: seq<DiaryEntry>)
    ensures |r| <= |s|
    ensures forall e :: e in r <==> e in s && Matches(e, WatchedInYear(year)) && Matches(e, RewatchIs(false))
  {
    FilterMembers(s, WatchedInYear(year));
    FilterMembers(Filter(s, WatchedInYear(year)), RewatchIs(false));
    Filter(Filter(s, WatchedInYear(year)), RewatchIs(false))
  }

  /** The first watches of a year are exactly the entries of that year with rewatch `== false`. */
  lemma FirstWatchesCounts(s: seq<DiaryEntry>, year: int)
    ensures forall e :: multiset(FirstWatches(s, year))[e] ==
                          (if Matches(e, WatchedInYear(year)) && Matches(e, RewatchIs(false)) then multiset(s)[e] else 0)
  {
    FilterCounts(s, WatchedInYear(year));
    FilterCounts(Filter(s, WatchedInYear(year)), RewatchIs(false));
  }

  /** Filtering keeps the entries comparable when they were. */
  lemma FilterComparable(s: seq<DiaryEntry>, c: Criterion)
    requires AllComparable(s)
    ensures AllComparable(Filter(s, c))
  {
    FilterMembers(s, c);
    var r := Filter(s, c);
    forall i | 0 <= i < |r| ensures Comparable(r[i]) {
      assert r[i] in r;
      var k :| 0 <= k < |s| && s[k] == r[i];
    }
  }
}
