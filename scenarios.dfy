/** Worked cases of the pipeline, stated over the model's functions. */
module Scenarios {
  import opened Wrappers
  import opened Decimal
  import opened JsValues
  import opened JsDate
  import opened Diary
  import opened Transforms
  import opened ListExport

  const FooRow: CsvRow := map[
    "Date" := "2024-01-01", "Name" := "Foo", "Year" := "2023", "Letterboxd URI" := "http://x",
    "Rating" := "4", "Rewatch" := "", "Tags" := "", "Watched Date" := "2024-05-02"]

  const FooEntry: DiaryEntry := DiaryEntry(
    Str("2024-01-01"), Str("Foo"), Num(Finite(2023.0)), Str("http://x"),
    Num(Finite(4.0)), Bool(false), Str(""), Str("2024-05-02"))

  /** csv-parse maps the row to rating 4, rewatch false and release year 2023, the text fields as they are. */
  lemma FooRowEntry()
    ensures EntryFromCsvRow(FooRow) == FooEntry
  {
    FooRowCells();
    FooRowNumbers();
  }

  lemma FooRowNumbers()
    ensures ToNumber(Str("2023")) == Finite(2023.0) && ToNumber(Str("4")) == Finite(4.0)
  {
    FooRating();
    FooYear();
  }

  lemma FooRating()
    ensures NumberOf("4") == Finite(4.0)
  {
    assert Digits(4, 1) == "4";
    ReadsAsNumber(4, 1, "4");
  }

  lemma FooYear()
    ensures NumberOf("2023") == Finite(2023.0)
  {
    assert Digits(2023, 4) == "2023" by {
      assert Digits(2023, 4) == Digits(202, 3) + [DigitChar(3)];
      assert Digits(202, 3) == "202";
    }
    ReadsAsNumber(2023, 4, "2023");
  }

  lemma FooRowCells()
    ensures CsvCell(FooRow, "Date") == Str("2024-01-01") && CsvCell(FooRow, "Name") == Str("Foo")
    ensures CsvCell(FooRow, "Year") == Str("2023") && CsvCell(FooRow, "Letterboxd URI") == Str("http://x")
    ensures CsvCell(FooRow, "Rating") == Str("4") && CsvCell(FooRow, "Rewatch") == Str("")
    ensures CsvCell(FooRow, "Tags") == Str("") && CsvCell(FooRow, "Watched Date") == Str("2024-05-02")
  {
  }

  lemma ReadsAsNumber(n: nat, width: nat, s: string)
    requires 0 < width && n < Pow10(width) && Digits(n, width) == s
    ensures NumberOf(s) == Finite(n as real)
  {
    NumberOfDigits(n, width);
  }

  /** The entry, watched on 2024-05-02 and no rewatch, is a 2024 first watch and exports as (http://x, Foo). */
  lemma FooEntryThroughThePipeline()
    ensures FirstWatches([FooEntry], 2024) == [FooEntry]
    ensures LetterboxdList(FirstWatches([FooEntry], 2024)) == [Header, (Str("http://x"), Str("Foo"))]
  {
    assert IsoYear("2024-05-02") == Some(2024) by {
      IsoYearOfFormatted(2024, 5, 2);
      DateDigits();
    }
    assert Filter([FooEntry], WatchedInYear(2024)) == [FooEntry];
    assert Filter([FooEntry], RewatchIs(false)) == [FooEntry];
  }

  lemma DateDigits()
    ensures Digits(2024, 4) + "-" + Digits(5, 2) + "-" + Digits(2, 2) == "2024-05-02"
  {
    assert Digits(2024, 4) == "2024";
    assert Digits(5, 2) == "05";
    assert Digits(2, 2) == "02";
  }

  function Rated(r: real): DiaryEntry {
    DiaryEntry(Undefined, Undefined, Undefined, Undefined, Num(Finite(r)), Bool(false), Undefined, Undefined)
  }

  const Unrated: DiaryEntry :=
    DiaryEntry(Undefined, Undefined, Undefined, Undefined, Null, Bool(false), Undefined, Undefined)

  /**
   * Ratings 3, 5 and none: sorted descending the unrated entry comes first,
   * [none, 5, 3]; sorted ascending it comes last, [3, 5, none].
   */
  lemma UnratedPlacementByDirection()
    ensures UnratedPlaced([Unrated, Rated(5.0), Rated(3.0)], true)
    ensures RatedInOrder([Unrated, Rated(5.0), Rated(3.0)], true)
    ensures !UnratedPlaced([Rated(5.0), Rated(3.0), Unrated], true)
    ensures UnratedPlaced([Rated(3.0), Rated(5.0), Unrated], false)
    ensures RatedInOrder([Rated(3.0), Rated(5.0), Unrated], false)
  {
    var s := [Rated(5.0), Rated(3.0), Unrated];
    assert !IsNullish(s[0].rating) && IsNullish(s[2].rating);
  }
}
