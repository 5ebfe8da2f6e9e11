/**
 * The list export of dist/index.js: csv-stringify with `header: true` and the
 * columns `uri` as "Letterboxd URI" and `name` as "Title". The model stops at
 * the cells; writing them out as CSV text is the library's.
 */
module ListExport {
  import opened JsValues
  import opened Diary

  /** One exported row: the Letterboxd URI cell and the Title cell. */
  type ListRow = (Value, Value)

  const Header: ListRow := (Str("Letterboxd URI"), Str("Title"))

  function EntryRows(s: seq<DiaryEntry>): (r: seq<ListRow>)
    ensures |r| == |s|
    ensures forall i :: 0 <= i < |s| ==> r[i] == (s[i].uri, s[i].name)
  {
    if s == [] then [] else [(s[0].uri, s[0].name)] + EntryRows(s[1..])
  }

  /** The header, then one (uri, name) row per entry in diary order; every other field is dropped. */
  function LetterboxdList(s: seq<DiaryEntry>): (r: seq<ListRow>)
    ensures |r| == |s| + 1 && r[0] == Header
    ensures forall i :: 0 <= i < |s| ==> r[i + 1] == (s[i].uri, s[i].name)
  {
    [Header] + EntryRows(s)
  }

  /** An empty diary exports the header alone. */
  lemma EmptyDiaryExportsHeader()
    ensures LetterboxdList([]) == [Header]
  {
  }

  /**
   * Read by the csv-parse mapper and exported again, rows that carry the two
   * columns come back as their URI and Name cells, in input order.
   */
  lemma CsvRowsRoundTrip(rows: seq<CsvRow>, entries: seq<DiaryEntry>)
    requires |entries| == |rows|
    requires forall i :: 0 <= i < |rows| ==> entries[i] == EntryFromCsvRow(rows[i])
    requires forall i :: 0 <= i < |rows| ==> "Letterboxd URI" in rows[i] && "Name" in rows[i]
    ensures |LetterboxdList(entries)| == |rows| + 1
    ensures forall i :: 0 <= i < |rows| ==>
                LetterboxdList(entries)[i + 1] == (Str(rows[i]["Letterboxd URI"]), Str(rows[i]["Name"]))
  {
  }

  /** Entries that agree on uri and name export identically, whatever their other fields. */
  lemma ExportSeesOnlyUriAndName(s: seq<DiaryEntry>, t: seq<DiaryEntry>)
    requires |s| == |t| && forall i :: 0 <= i < |s| ==> s[i].uri == t[i].uri && s[i].name == t[i].name
    ensures LetterboxdList(s) == LetterboxdList(t)
  {
  }
}
