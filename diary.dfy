/**
 * Diary entries and the two ways a parsed CSV row becomes one: the csv-parse
 * mapper of dist/index.js and src/index.ts, where every cell is a string, and
 * the PapaParse mapper of docs/index.js, where cells arrive dynamically typed.
 */
module Diary {
  import opened JsValues

  /**
   * One diary entry. The declared interface types year as a number, rating as
   * an optional number, rewatch as an optional boolean; at run time each field
   * holds whatever the mapper put there, so each is a JavaScript value.
   */
  datatype DiaryEntry = DiaryEntry(
    date: Value,
    name: Value,
    year: Value,
    uri: Value,
    rating: Value,
    rewatch: Value,
    tags: Value,
    watchedDate: Value)

  /** A csv-parse record with `columns: true`: header name to (trimmed) cell text. */
  type CsvRow = map<string, string>

  /** A PapaParse record with `header: true, dynamicTyping: true`. */
  type PapaRow = map<string, Value>

  /** The eight columns of a diary export that the mappers read. */
  const Columns: set<string> :=
    {"Date", "Name", "Year", "Letterboxd URI", "Rating", "Rewatch", "Tags", "Watched Date"}

  /** `row[column]`: a missing column is `undefined`. */
  function CsvCell(row: CsvRow, column: string): Value {
    if column in row then Str(row[column]) else Undefined
  }

  function PapaCell(row: PapaRow, column: string): Value {
    if column in row then row[column] else Undefined
  }

  /** The entry built for one csv-parse row: Number() on year and rating, Boolean() on rewatch. */
  function EntryFromCsvRow(row: CsvRow): (e: DiaryEntry)
    ensures e.year.Num? && e.rating.Num? && e.rewatch.Bool?
  {
    DiaryEntry(
      date := CsvCell(row, "Date"),
      name := CsvCell(row, "Name"),
      year := Num(ToNumber(CsvCell(row, "Year"))),
      uri := CsvCell(row, "Letterboxd URI"),
      rating := Num(ToNumber(CsvCell(row, "Rating"))),
      rewatch := Bool(ToBoolean(CsvCell(row, "Rewatch"))),
      tags := CsvCell(row, "Tags"),
      watchedDate := CsvCell(row, "Watched Date"))
  }

  /** The entry built for one PapaParse row: cells kept as typed, rewatch defaulted with `|| false`. */
  function EntryFromPapaRow(row: PapaRow): (e: DiaryEntry)
    ensures e.rewatch == Bool(false) || ToBoolean(e.rewatch)
    ensures ToBoolean(PapaCell(row, "Rewatch")) ==> e.rewatch == PapaCell(row, "Rewatch")
  {
    DiaryEntry(
      date := PapaCell(row, "Date"),
      name := PapaCell(row, "Name"),
      year := PapaCell(row, "Year"),
      uri := PapaCell(row, "Letterboxd URI"),
      rating := PapaCell(row, "Rating"),
      rewatch := Or(PapaCell(row, "Rewatch"), Bool(false)),
      tags := PapaCell(row, "Tags"),
      watchedDate := PapaCell(row, "Watched Date"))
  }

  /** Columns other than the eight are ignored by the csv-parse mapper. */
  lemma CsvRowIgnoresOtherColumns(row: CsvRow, column: string, text: string)
    requires column !in Columns
    ensures EntryFromCsvRow(row[column := text]) == EntryFromCsvRow(row)
  {
  }

  /** Columns other than the eight are ignored by the PapaParse mapper. */
  lemma PapaRowIgnoresOtherColumns(row: PapaRow, column: string, cell: Value)
    requires column !in Columns
    ensures EntryFromPapaRow(row[column := cell]) == EntryFromPapaRow(row)
  {
  }

  /**
   * csv-parse text fields are copied by exact column name, and a missing
   * column leaves the field `undefined`.
   */
  lemma CsvTextFields(row: CsvRow)
    ensures var e := EntryFromCsvRow(row);
      && (e.date == if "Date" in row then Str(row["Date"]) else Undefined)
      && (e.tags == if "Tags" in row then Str(row["Tags"]) else Undefined)
      && (e.name == if "Name" in row then Str(row["Name"]) else Undefined)
      && (e.uri == if "Letterboxd URI" in row then Str(row["Letterboxd URI"]) else Undefined)
      && (e.watchedDate == if "Watched Date" in row then Str(row["Watched Date"]) else Undefined)
  {
  }

  /** With Boolean(), rewatch is a boolean, true exactly when the Rewatch cell is present and non-empty. */
  lemma CsvRewatchIsBoolean(row: CsvRow)
    ensures EntryFromCsvRow(row).rewatch == Bool("Rewatch" in row && row["Rewatch"] != "")
  {
  }

  /**
   * With Number(), a rating is never `undefined` or `null`: an empty Rating
   * cell reads as the number 0 and a missing column as NaN, so a csv-parse
   * entry is never "unrated" in the sort's sense.
   */
  lemma CsvRatingNeverNullish(row: CsvRow)
    ensures !IsNullish(EntryFromCsvRow(row).rating)
    ensures "Rating" in row && row["Rating"] == "" ==> EntryFromCsvRow(row).rating == Num(Finite(0.0))
    ensures "Rating" !in row ==> EntryFromCsvRow(row).rating == Num(NaN)
  {
  }

  /** A release year of four digits reads as that year. */
  lemma CsvYear(row: CsvRow, y: nat)
    requires y < 10000 && "Year" in row && row["Year"] == Decimal.Digits(y, 4)
    ensures EntryFromCsvRow(row).year == Num(Finite(y as real))
  {
    NumberOfDigits(y, 4);
  }

  /**
   * `|| false`: a falsy or missing Rewatch cell becomes `false`, a truthy one
   * is kept as it is, whatever its type.
   */
  lemma PapaRewatch(row: PapaRow)
    ensures var e := EntryFromPapaRow(row);
      if "Rewatch" in row && ToBoolean(row["Rewatch"]) then e.rewatch == row["Rewatch"]
      else e.rewatch == Bool(false)
  {
  }

  /** An empty cell, which PapaParse types as `null`, or a missing column leaves the entry unrated. */
  lemma PapaEmptyRatingIsUnrated(row: PapaRow)
    requires "Rating" !in row || row["Rating"] == Null
    ensures IsNullish(EntryFromPapaRow(row).rating)
  {
  }
}
