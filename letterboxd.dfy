/**
 * The LetterboxdData class: a diary held in an array field, built from parsed
 * rows, filtered into fresh instances and sorted in place, and the
 * year-first-watches pipeline over it.
 */
module Letterboxd {
  import opened Wrappers
  import opened JsValues
  import opened Diary
  import opened Transforms
  import opened ListExport

  class LetterboxdData {
    var diary: array<DiaryEntry>

    /** `this.diary = []` */
    constructor ()
      ensures fresh(diary) && diary.Length == 0
    {
      diary := new DiaryEntry[0];
    }

    /** A fresh array holding `s`: the array a list of pushed entries ends up as. */
    static method NewDiaryArray(s: seq<DiaryEntry>) returns (a: array<DiaryEntry>)
      ensures fresh(a) && a[..] == s
    {
      a := new DiaryEntry[|s|](i requires 0 <= i < |s| => s[i]);
    }

    /** initFromDiaryArray: the instance shares the given array, it does not copy it. */
    static method InitFromDiaryArray(diaryEntryArray: array<DiaryEntry>) returns (instance: LetterboxdData)
      ensures fresh(instance) && instance.diary == diaryEntryArray
    {
      instance := new LetterboxdData();
      instance.diary := diaryEntryArray;
    }

    /** readDiary of the csv-parse variants: one entry pushed per row, in row order. */
    static method ReadDiary(rows: seq<CsvRow>) returns (diaryEntries: seq<DiaryEntry>)
      ensures |diaryEntries| == |rows|
      ensures forall i :: 0 <= i < |rows| ==> diaryEntries[i] == EntryFromCsvRow(rows[i])
    {
      diaryEntries := [];
      var k := 0;
      while k < |rows|
        invariant 0 <= k <= |rows|
        invariant |diaryEntries| == k
        invariant forall i :: 0 <= i < k ==> diaryEntries[i] == EntryFromCsvRow(rows[i])
      {
        var entry := EntryFromCsvRow(rows[k]);
        diaryEntries := diaryEntries + [entry];
        k := k + 1;
      }
    }

    /** readDiary of the PapaParse variant: `forEach` row, push its entry. */
    static method ReadDiaryPapa(rows: seq<PapaRow>) returns (diaryEntries: seq<DiaryEntry>)
      ensures |diaryEntries| == |rows|
      ensures forall i :: 0 <= i < |rows| ==> diaryEntries[i] == EntryFromPapaRow(rows[i])
    {
      diaryEntries := [];
      for k := 0 to |rows|
        invariant |diaryEntries| == k
        invariant forall i :: 0 <= i < k ==> diaryEntries[i] == EntryFromPapaRow(rows[i])
      {
        diaryEntries := diaryEntries + [EntryFromPapaRow(rows[k])];
      }
    }

    /** initFromString, from the rows csv-parse has produced. */
    static method InitFromCsvRows(rows: seq<CsvRow>) returns (instance: LetterboxdData)
      ensures fresh(instance) && fresh(instance.diary)
      ensures instance.diary.Length == |rows|
      ensures forall i :: 0 <= i < |rows| ==> instance.diary[i] == EntryFromCsvRow(rows[i])
    {
      instance := new LetterboxdData();
      var entries := ReadDiary(rows);
      instance.diary := NewDiaryArray(entries);
    }

    /** initFromString of the PapaParse variant, from the rows PapaParse has produced. */
    static method InitFromPapaRows(rows: seq<PapaRow>) returns (instance: LetterboxdData)
      ensures fresh(instance) && fresh(instance.diary)
      ensures instance.diary.Length == |rows|
      ensures forall i :: 0 <= i < |rows| ==> instance.diary[i] == EntryFromPapaRow(rows[i])
    {
      instance := new LetterboxdData();
      var entries := ReadDiaryPapa(rows);
      instance.diary := NewDiaryArray(entries);
    }

    /**
     * init(array?): a given array (even an empty one, which JavaScript treats
     * as true) becomes the diary as it is; without one the diary file is read,
     * here as the rows it parses to.
     */
    static method Init(diaryEntryArray: Option<array<DiaryEntry>>, fileRows: seq<CsvRow>)
      returns (instance: LetterboxdData)
      ensures fresh(instance)
      ensures diaryEntryArray.Some? ==> instance.diary == diaryEntryArray.value
      ensures diaryEntryArray.None? ==>
                && fresh(instance.diary)
                && instance.diary.Length == |fileRows|
                && forall i :: 0 <= i < |fileRows| ==> instance.diary[i] == EntryFromCsvRow(fileRows[i])
    {
      if diaryEntryArray.Some? {
        instance := new LetterboxdData();
        instance.diary := diaryEntryArray.value;
        return;
      }
      instance := InitFromCsvRows(fileRows);
    }

    /**
     * filterByWatchedDate(yearFilter, monthFilter, dayFilter): a new instance
     * holding the entries watched in `yearFilter`; month and day play no part.
     */
    method FilterByWatchedDate(yearFilter: int, monthFilter: Option<int>, dayFilter: Option<int>)
      returns (filtered: LetterboxdData)
      ensures fresh(filtered) && fresh(filtered.diary)
      ensures filtered.diary[..] == Filter(diary[..], WatchedInYear(yearFilter))
      ensures unchanged(diary)
    {
      var filteredDiary := NewDiaryArray(Filter(diary[..], WatchedInYear(yearFilter)));
      filtered := InitFromDiaryArray(filteredDiary);
    }

    /** filterByRewatch(rewatch): a new instance holding the entries whose rewatch `== rewatch`. */
    method FilterByRewatch(rewatch: bool) returns (filtered: LetterboxdData)
      ensures fresh(filtered) && fresh(filtered.diary)
      ensures filtered.diary[..] == Filter(diary[..], RewatchIs(rewatch))
      ensures unchanged(diary)
    {
      var filteredDiary := NewDiaryArray(Filter(diary[..], RewatchIs(rewatch)));
      filtered := InitFromDiaryArray(filteredDiary);
    }

    /** getDiaryAsLetterboxdListString, up to the CSV text. */
    function GetDiaryAsLetterboxdList(): (r: seq<ListRow>)
      reads this, diary
      ensures |r| == diary.Length + 1 && r[0] == Header
      ensures forall i :: 0 <= i < diary.Length ==> r[i + 1] == (diary[i].uri, diary[i].name)
    {
      LetterboxdList(diary[..])
    }

    /**
     * sortDiaryByRating(descending): reorders the diary array in place with the
     * rating comparator. The entries stay the same; when every rating is absent
     * or a finite number the order is the one the comparator describes. Which
     * of two equally rated entries comes first is not specified.
     */
    method SortDiaryByRating(descending: bool)
      modifies diary
      ensures multiset(diary[..]) == multiset(old(diary[..]))
      ensures AllComparable(old(diary[..])) ==>
                RatedInOrder(diary[..], descending) && UnratedPlaced(diary[..], descending)
    {
      ghost var ok := AllComparable(diary[..]);
      var a := diary;
      var i := 0;
      while i < a.Length
        invariant 0 <= i <= a.Length
        invariant multiset(a[..]) == multiset(old(a[..]))
        invariant ok ==> AdjacentInOrder(a[..i], descending)
      {
        if ok {
          AllComparablePermutation(old(a[..]), a[..]);
        }
        Insert(a, i, descending, ok);
        i := i + 1;
      }
      if ok {
        assert a[..a.Length] == a[..];
        AllComparablePermutation(old(a[..]), a[..]);
        AdjacentInOrderIsSorted(a[..], descending);
      }
    }
  }

  /** Swaps two neighbouring entries. */
  method SwapDown(a: array<DiaryEntry>, j: nat)
    requires 0 < j < a.Length
    modifies a
    ensures a[..] == old(a[..])[j - 1 := old(a[j])][j := old(a[j - 1])]
    ensures multiset(a[..]) == multiset(old(a[..]))
  {
    a[j - 1], a[j] := a[j], a[j - 1];
  }

  /**
   * One pass of the insertion sort: moves a[i] towards the front while the
   * comparator says its left neighbour belongs after it.
   */
  method Insert(a: array<DiaryEntry>, i: nat, descending: bool, ghost ok: bool)
    requires i < a.Length
    requires ok ==> AllComparable(a[..]) && AdjacentInOrder(a[..i], descending)
    modifies a
    ensures multiset(a[..]) == multiset(old(a[..]))
    ensures a[i + 1..] == old(a[i + 1..])
    ensures multiset(a[..i + 1]) == multiset(old(a[..i + 1]))
    ensures ok ==> AllComparable(a[..]) && AdjacentInOrder(a[..i + 1], descending)
  {
    var j := i;
    if ok {
      SiftStart(a[..], i, descending);
    }
    while j > 0 && Compare(a[j - 1], a[j], descending) > 0
      invariant 0 <= j <= i
      invariant multiset(a[..]) == multiset(old(a[..]))
      invariant a[i + 1..] == old(a[i + 1..])
      invariant ok ==> AllComparable(a[..]) && Sifting(a[..], i, j, descending)
    {
      ghost var prev := a[..];
      SwapDown(a, j);
      if ok {
        SiftStep(prev, i, j, descending);
        AllComparablePermutation(prev, a[..]);
      }
      j := j - 1;
    }
    PrefixMultiset(a[..], old(a[..]), i + 1);
    if ok {
      SiftDone(a[..], i, j, descending);
    }
  }

  /**
   * getLetterboxdDataForYearFirstWatches: the 2024 entries whose rewatch is
   * `== false`, in a fresh instance sorted descending by rating.
   */
  method GetLetterboxdDataForYearFirstWatches(lbData: LetterboxdData) returns (result: LetterboxdData)
    ensures fresh(result) && fresh(result.diary)
    ensures multiset(result.diary[..]) == multiset(FirstWatches(lbData.diary[..], 2024))
    ensures forall e :: e in result.diary[..] ==> Matches(e, WatchedInYear(2024)) && Matches(e, RewatchIs(false))
    ensures AllComparable(lbData.diary[..]) ==>
              RatedInOrder(result.diary[..], true) && UnratedPlaced(result.diary[..], true)
    ensures unchanged(lbData, lbData.diary)
  {
    var filteredByDate := lbData.FilterByWatchedDate(2024, None, None);
    var filteredLBData := filteredByDate.FilterByRewatch(false);
    ghost var firstWatches := filteredLBData.diary[..];
    filteredLBData.SortDiaryByRating(true);
    result := filteredLBData;
    FirstWatchesCounts(lbData.diary[..], 2024);
    forall e | e in result.diary[..]
      ensures Matches(e, WatchedInYear(2024)) && Matches(e, RewatchIs(false))
    {
      assert multiset(result.diary[..])[e] > 0;
    }
    if AllComparable(lbData.diary[..]) {
      FilterComparable(lbData.diary[..], WatchedInYear(2024));
      FilterComparable(Filter(lbData.diary[..], WatchedInYear(2024)), RewatchIs(false));
    }
  }
}
