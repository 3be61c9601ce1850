/** The three columns a run adds to every row of every table before writing it: when the run
    started, which file the row came from, and the MD5 digest of that file's bytes. */
module Lineage {
  import opened Extract
  import opened Timestamps

  /** `upload_utc_dt`, `filename`, `file_contents_md5`. */
  datatype Origin = Origin(uploadUtc: Instant, filename: string, md5: string)

  datatype TracedRow = TracedRow(row: Row, origin: Origin)

  /** A table as it is written: a loader's table with the lineage columns filled in. */
  datatype TracedTable = TracedTable(name: string, headers: seq<string>, rows: seq<TracedRow>)

  const DateSiteColumns := ["filename_date", "filename_site"]
  const LineageColumns := ["upload_utc_dt", "filename", "file_contents_md5"]

  /** The frame's columns in order: the loader's names, the two columns the loader adds, the
      three lineage columns. */
  function Columns(t: TracedTable): (r: seq<string>)
    ensures |r| == |t.headers| + 5
  {
    t.headers + DateSiteColumns + LineageColumns
  }

  /** Setting the three columns on a frame: every row gets the same values. */
  function AddLineage(t: Table, o: Origin): (r: TracedTable)
    ensures r.name == t.name && r.headers == t.headers && |r.rows| == |t.rows|
    ensures forall i :: 0 <= i < |r.rows| ==> r.rows[i].row == t.rows[i]
    ensures forall row :: row in r.rows ==> row.origin == o
  {
    TracedTable(t.name, t.headers, seq(|t.rows|, i requires 0 <= i < |t.rows| => TracedRow(t.rows[i], o)))
  }

  /** The loader's table inside a written one. */
  function DropLineage(t: TracedTable): (r: Table)
    ensures r.name == t.name && r.headers == t.headers && |r.rows| == |t.rows|
  {
    Table(t.name, t.headers, seq(|t.rows|, i requires 0 <= i < |t.rows| => t.rows[i].row))
  }

  /** Adding lineage loses nothing: dropping it again gives the loader's table back. */
  lemma LineageRoundTrip(t: Table, o: Origin)
    ensures DropLineage(AddLineage(t, o)) == t
  {
  }

  /** A table whose rows share one origin is that origin added to its own contents. */
  lemma LineageOfShared(t: TracedTable, o: Origin)
    requires forall row :: row in t.rows ==> row.origin == o
    ensures AddLineage(DropLineage(t), o) == t
  {
    var r := AddLineage(DropLineage(t), o);
    assert forall i :: 0 <= i < |t.rows| ==> t.rows[i] in t.rows;
    assert r.rows == t.rows;
  }

  /** The written columns extend the loader's names by exactly five, in the order the frame
      gains them. */
  lemma ColumnsOfAdded(t: Table, o: Origin)
    ensures Columns(AddLineage(t, o))[..|t.headers|] == t.headers
    ensures Columns(AddLineage(t, o))[|t.headers|..] ==
      ["filename_date", "filename_site", "upload_utc_dt", "filename", "file_contents_md5"]
  {
  }
}
