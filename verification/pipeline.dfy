/** `run`, the storage-triggered entry point, and `run_local`, its desktop twin. A run checks the
    file's name, reads its date and site from the name, downloads it, archives a copy, and then
    loads, stamps, appends and exports the five tables one after another. The outside services are
    parameters; a run is described by what it leaves behind: an outcome and the list of writes
    that took effect, in order. */
module Pipeline {
  import opened Wrappers
  import opened Calendar
  import opened Sites
  import opened NameCheck
  import FileDate
  import FileDateExamples
  import opened Buckets
  import opened Extract
  import opened Lineage
  import opened Timestamps

  type Bytes = seq<bv8>

  /** The storage event: the new object's name and its bucket. */
  datatype Event = Event(name: string, bucket: string)

  /** A downloaded report: its bytes and the workbook they hold. */
  datatype Download = Download(bytes: Bytes, book: Workbook)

  /** The outside world, as the answers its calls give. `fetch` is the guarded block that looks up
      the bucket and downloads the object (`None` when any step of it raises); `copy` is
      `copy_blob`; `append` is the warehouse load with `WRITE_APPEND`; `write` is `to_csv` or
      `to_pickle` on a storage path; `md5` is the hex digest of the file's bytes. A `false` answer
      is a call that raised. */
  datatype Services = Services(
    fetch: (string, string) -> Option<Download>,
    copy: (string, string, string, string) -> bool,
    append: (string, TracedTable) -> bool,
    write: (string, TracedTable) -> bool,
    md5: Bytes -> string)

  /** A write that took effect. */
  datatype Effect =
    | ArchiveCopy(fromBucket: string, name: string, toBucket: string, toName: string)
    | AppendRows(dest: string, table: TracedTable)
    | WriteFile(path: string, table: TracedTable)

  /** What stopped a run with an exception. */
  datatype Fault =
    | BadDate(dateError: FileDate.DateError)
    | CopyFailed
    | SheetMissing(loadError: LoadError)
    | AppendFailed(dest: string)
    | WriteFailed(path: string)

  datatype Outcome =
    | Skipped          // the name check failed: the run returns early
    | FetchAborted     // the download block raised: the run returns early
    | Crashed(f: Fault)
    | Completed

  datatype Trace = Trace(outcome: Outcome, effects: seq<Effect>)

  /** What every table of one run is made from. */
  datatype Source = Source(book: Workbook, date: Date, site: Site, origin: Origin)

  /** Where one run's exports go. */
  datatype Target = Target(saveBucket: string, stamp: string)

  /** `hilton.<table>`, the warehouse table a loader's rows are appended to. */
  function Destination(table: string): string {
    "hilton." + table
  }

  /** The export path without its extension. */
  function ExportBase(dst: Target, site: Site, table: string): string {
    "gs://" + dst.saveBucket + "/" + dst.stamp + "_" + SiteName(site) + "_" + table
  }

  /** The archive copy a run makes before loading anything. */
  function Archive(ev: Event, now: Instant): Effect {
    ArchiveCopy(ev.bucket, ev.name, SaveToBucketName(ev.bucket), Stamp(now) + "_" + ev.name)
  }

  predicate HasSheets(book: Workbook, schemas: seq<Schema>) {
    forall i :: 0 <= i < |schemas| ==> schemas[i].sheet in book
  }

  /** How many loaders, from the first, find their sheet. */
  function PresentPrefix(book: Workbook, schemas: seq<Schema>): (k: nat)
    ensures k <= |schemas| && HasSheets(book, schemas[..k])
    ensures k < |schemas| ==> schemas[k].sheet !in book
  {
    if |schemas| == 0 || schemas[0].sheet !in book then 0
    else
      var k := PresentPrefix(book, schemas[1..]);
      assert forall i :: 0 <= i < k ==> schemas[1..][..k][i] == schemas[..k + 1][i + 1];
      1 + k
  }

  // The loop body and the loop.

  /** One loader's output with the lineage columns set. */
  function Written(src: Source, s: Schema): TracedTable
    requires s.sheet in src.book
  {
    AddLineage(Load(src.book, s, src.date, src.site).value, src.origin)
  }

  /** The three writes one iteration makes when nothing fails. */
  function Group(src: Source, dst: Target, s: Schema): seq<Effect>
    requires s.sheet in src.book
  {
    var t := Written(src, s);
    var base := ExportBase(dst, src.site, s.table);
    [AppendRows(Destination(s.table), t), WriteFile(base + ".csv", t), WriteFile(base + ".pk", t)]
  }

  /** The writes of a loop in which nothing fails: the reference the loop is measured against. */
  function CommitAll(src: Source, dst: Target, schemas: seq<Schema>): seq<Effect>
    requires HasSheets(src.book, schemas)
  {
    if |schemas| == 0 then []
    else
      assert HasSheets(src.book, schemas[1..]) by {
        assert forall i :: 0 <= i < |schemas| - 1 ==> schemas[1..][i] == schemas[i + 1];
      }
      Group(src, dst, schemas[0]) + CommitAll(src, dst, schemas[1..])
  }

  /** The loop of `run`: each loader in turn, its table appended, then exported twice. The first
      exception ends the run; what was written before it stays written. */
  function CommitTables(sv: Services, src: Source, dst: Target, schemas: seq<Schema>): (r: Trace)
    ensures r.outcome.Completed? || r.outcome.Crashed?
    ensures r.outcome.Crashed? ==> !r.outcome.f.BadDate? && !r.outcome.f.CopyFailed?
    decreases |schemas|
  {
    if |schemas| == 0 then Trace(Completed, [])
    else
      match Load(src.book, schemas[0], src.date, src.site)
      case Failure(e) => Trace(Crashed(SheetMissing(e)), [])
      case Success(t) =>
        var lt := AddLineage(t, src.origin);
        var dest := Destination(t.name);
        var base := ExportBase(dst, src.site, t.name);
        if !sv.append(dest, lt) then Trace(Crashed(AppendFailed(dest)), [])
        else if !sv.write(base + ".csv", lt) then
          Trace(Crashed(WriteFailed(base + ".csv")), [AppendRows(dest, lt)])
        else if !sv.write(base + ".pk", lt) then
          Trace(Crashed(WriteFailed(base + ".pk")), [AppendRows(dest, lt), WriteFile(base + ".csv", lt)])
        else
          var rest := CommitTables(sv, src, dst, schemas[1..]);
          Trace(rest.outcome, [AppendRows(dest, lt), WriteFile(base + ".csv", lt), WriteFile(base + ".pk", lt)]
                              + rest.effects)
  }

  /** `run`. The clock reading is `now_utc`, which the module takes once when it is imported. The
      date is read with the corrected reading of the filename. */
  function Run(ev: Event, now: Instant, sv: Services): (r: Trace)
    ensures r.outcome == Skipped <==> !IsCorrectFileName(ev.name)
    ensures r.outcome.Crashed? && r.outcome.f.BadDate? <==>
      IsCorrectFileName(ev.name) && FileDate.GetDateChecked(ev.name).Failure?
    ensures r.outcome == FetchAborted <==>
      && IsCorrectFileName(ev.name) && FileDate.GetDateChecked(ev.name).Success?
      && sv.fetch(ev.bucket, ev.name).None?
    ensures r.outcome in {Skipped, FetchAborted} || (r.outcome.Crashed? && r.outcome.f.BadDate?)
            ==> r.effects == []
    ensures r.outcome == Crashed(CopyFailed) ==> r.effects == []
    ensures r.effects != [] ==> r.effects[0] == Archive(ev, now)
  {
    if !IsCorrectFileName(ev.name) then Trace(Skipped, [])
    else
      match FileDate.GetDateChecked(ev.name)
      case Failure(e) => Trace(Crashed(BadDate(e)), [])
      case Success(date) =>
        match sv.fetch(ev.bucket, ev.name)
        case None => Trace(FetchAborted, [])
        case Some(dl) =>
          var archive := Archive(ev, now);
          if !sv.copy(ev.bucket, ev.name, archive.toBucket, archive.toName) then Trace(Crashed(CopyFailed), [])
          else
            var rest := CommitTables(sv, RunSource(ev, now, sv, dl, date), RunTarget(ev, now), Loaders);
            Trace(rest.outcome, [archive] + rest.effects)
  }

  /** What the tables of a run are made from once the file is downloaded: its workbook, the date and
      site its name gives, and the run's lineage. */
  function RunSource(ev: Event, now: Instant, sv: Services, dl: Download, date: Date): Source {
    Source(dl.book, date, InferSite(ev.name), Origin(now, ev.name, sv.md5(dl.bytes)))
  }

  /** Where a run's exports go: the output bucket, under the run's stamp. */
  function RunTarget(ev: Event, now: Instant): Target {
    Target(SaveToBucketName(ev.bucket), Stamp(now))
  }

  /** A run gets as far as the loop: the name passes, the date reads, the download and the archive
      copy succeed. */
  predicate Proceeds(ev: Event, now: Instant, sv: Services) {
    && IsCorrectFileName(ev.name)
    && FileDate.GetDateChecked(ev.name).Success?
    && sv.fetch(ev.bucket, ev.name).Some?
    && sv.copy(ev.bucket, ev.name, SaveToBucketName(ev.bucket), Archive(ev, now).toName)
  }

  /** The loop of a run that gets that far. */
  function RunLoop(ev: Event, now: Instant, sv: Services): Trace
    requires Proceeds(ev, now, sv)
  {
    var dl := sv.fetch(ev.bucket, ev.name).value;
    var date := FileDate.GetDateChecked(ev.name).value;
    CommitTables(sv, RunSource(ev, now, sv, dl, date), RunTarget(ev, now), Loaders)
  }

  /** A run either stops before the loop having written nothing, or archives the file and then
      runs the loop. */
  lemma RunCases(ev: Event, now: Instant, sv: Services)
    ensures !Proceeds(ev, now, sv) ==> Run(ev, now, sv).effects == [] && Run(ev, now, sv).outcome != Completed
    ensures Proceeds(ev, now, sv) ==>
      Run(ev, now, sv) == Trace(RunLoop(ev, now, sv).outcome, [Archive(ev, now)] + RunLoop(ev, now, sv).effects)
  {
  }

  /** The loop of `run_local`: each loader in turn, its table appended, nothing exported. */
  function AppendTables(append: (string, TracedTable) -> bool, src: Source, schemas: seq<Schema>): (r: Trace)
    ensures r.outcome.Completed? || r.outcome.Crashed?
    ensures r.outcome.Crashed? ==> !r.outcome.f.BadDate? && !r.outcome.f.CopyFailed?
    decreases |schemas|
  {
    if |schemas| == 0 then Trace(Completed, [])
    else
      match Load(src.book, schemas[0], src.date, src.site)
      case Failure(e) => Trace(Crashed(SheetMissing(e)), [])
      case Success(t) =>
        var lt := AddLineage(t, src.origin);
        var dest := Destination(t.name);
        if !append(dest, lt) then Trace(Crashed(AppendFailed(dest)), [])
        else
          var rest := AppendTables(append, src, schemas[1..]);
          Trace(rest.outcome, [AppendRows(dest, lt)] + rest.effects)
  }

  /** `run_local` on the report `name`, whose contents are `file`. The date and site are computed
      when the module is imported, so a filename without a readable date fails before the name
      is checked. */
  function RunLocal(name: string, file: Download, now: Instant,
                    append: (string, TracedTable) -> bool, md5: Bytes -> string): (r: Trace)
    ensures FileDate.GetDateChecked(name).Failure? ==> r.outcome.Crashed? && r.outcome.f.BadDate?
    ensures r.outcome == Skipped <==>
      FileDate.GetDateChecked(name).Success? && !IsCorrectFileName(name)
    ensures r.outcome == Skipped ==> r.effects == []
  {
    match FileDate.GetDateChecked(name)
    case Failure(e) => Trace(Crashed(BadDate(e)), [])
    case Success(date) =>
      if !IsCorrectFileName(name) then Trace(Skipped, [])
      else AppendTables(append, Source(file.book, date, InferSite(name), Origin(now, name, md5(file.bytes))), Loaders)
  }

  // Views of a trace.

  /** The warehouse tables appended to, in order. */
  function AppendedTo(effects: seq<Effect>): seq<string> {
    if |effects| == 0 then []
    else (if effects[0].AppendRows? then [effects[0].dest] else []) + AppendedTo(effects[1..])
  }

  /** The appends alone. */
  function AppendsOnly(effects: seq<Effect>): seq<Effect> {
    if |effects| == 0 then []
    else (if effects[0].AppendRows? then [effects[0]] else []) + AppendsOnly(effects[1..])
  }

  /** The destinations of the loaders, in the order a run calls them. */
  function Destinations(schemas: seq<Schema>): (r: seq<string>)
    ensures |r| == |schemas|
  {
    seq(|schemas|, i requires 0 <= i < |schemas| => Destination(schemas[i].table))
  }

  lemma {:induction false} AppendedToConcat(a: seq<Effect>, b: seq<Effect>)
    ensures AppendedTo(a + b) == AppendedTo(a) + AppendedTo(b)
    decreases |a|
  {
    if |a| == 0 {
      assert a + b == b;
    } else {
      var h := if a[0].AppendRows? then [a[0].dest] else [];
      assert (a + b)[0] == a[0] && (a + b)[1..] == a[1..] + b;
      assert AppendedTo(a + b) == h + AppendedTo(a[1..] + b);
      AppendedToConcat(a[1..], b);
    }
  }

  lemma {:induction false} AppendsOnlyConcat(a: seq<Effect>, b: seq<Effect>)
    ensures AppendsOnly(a + b) == AppendsOnly(a) + AppendsOnly(b)
    decreases |a|
  {
    if |a| == 0 {
      assert a + b == b;
    } else {
      var h := if a[0].AppendRows? then [a[0]] else [];
      assert (a + b)[0] == a[0] && (a + b)[1..] == a[1..] + b;
      assert AppendsOnly(a + b) == h + AppendsOnly(a[1..] + b);
      AppendsOnlyConcat(a[1..], b);
    }
  }

  /** A table written with lineage `o` on every row. */
  predicate CarriesOrigin(e: Effect, o: Origin) {
    e.ArchiveCopy? || forall row :: row in e.table.rows ==> row.origin == o
  }

  // The reference loop.

  lemma GroupAppends(src: Source, dst: Target, s: Schema)
    requires s.sheet in src.book
    ensures AppendedTo(Group(src, dst, s)) == [Destination(s.table)]
  {
    var g := Group(src, dst, s);
    assert AppendedTo(g) == [g[0].dest] + AppendedTo(g[1..]);
    assert AppendedTo(g[1..]) == AppendedTo(g[2..]);
    assert AppendedTo(g[2..]) == AppendedTo(g[3..]);
  }

  lemma GroupOrigins(src: Source, dst: Target, s: Schema)
    requires s.sheet in src.book
    ensures forall e :: e in Group(src, dst, s) ==> CarriesOrigin(e, src.origin) && !e.ArchiveCopy?
  {
  }

  lemma HasSheetsTail(book: Workbook, schemas: seq<Schema>)
    requires HasSheets(book, schemas) && |schemas| > 0
    ensures HasSheets(book, schemas[1..])
  {
    assert forall i :: 0 <= i < |schemas| - 1 ==> schemas[1..][i] == schemas[i + 1];
  }

  /** The loop without failures makes three writes per loader. */
  lemma {:induction false} CommitAllLength(src: Source, dst: Target, schemas: seq<Schema>)
    requires HasSheets(src.book, schemas)
    ensures |CommitAll(src, dst, schemas)| == 3 * |schemas|
    decreases |schemas|
  {
    if |schemas| > 0 {
      HasSheetsTail(src.book, schemas);
      CommitAllLength(src, dst, schemas[1..]);
    }
  }

  /** The loop without failures appends to every loader's table once, in the fixed order. */
  lemma {:induction false} CommitAllAppends(src: Source, dst: Target, schemas: seq<Schema>)
    requires HasSheets(src.book, schemas)
    ensures AppendedTo(CommitAll(src, dst, schemas)) == Destinations(schemas)
    decreases |schemas|
  {
    if |schemas| > 0 {
      HasSheetsTail(src.book, schemas);
      var g := Group(src, dst, schemas[0]);
      var rest := CommitAll(src, dst, schemas[1..]);
      assert AppendedTo(rest) == Destinations(schemas[1..]) by {
        CommitAllAppends(src, dst, schemas[1..]);
      }
      assert AppendedTo(g) == [Destination(schemas[0].table)] by {
        GroupAppends(src, dst, schemas[0]);
      }
      assert CommitAll(src, dst, schemas) == g + rest;
      AppendedToConcat(g, rest);
      assert Destinations(schemas) == [Destination(schemas[0].table)] + Destinations(schemas[1..]);
    }
  }

  /** The loop without failures writes every row with the run's lineage, and makes no archive
      copy. */
  lemma {:induction false} CommitAllOrigins(src: Source, dst: Target, schemas: seq<Schema>)
    requires HasSheets(src.book, schemas)
    ensures forall e :: e in CommitAll(src, dst, schemas) ==> CarriesOrigin(e, src.origin) && !e.ArchiveCopy?
    decreases |schemas|
  {
    if |schemas| > 0 {
      HasSheetsTail(src.book, schemas);
      CommitAllOrigins(src, dst, schemas[1..]);
      GroupOrigins(src, dst, schemas[0]);
    }
  }

  /** The loop's `i`-th iteration writes the `i`-th loader's table to the warehouse, then to its
      two export files. */
  lemma {:induction false} CommitAllGroups(src: Source, dst: Target, schemas: seq<Schema>, i: nat)
    requires HasSheets(src.book, schemas) && i < |schemas|
    ensures |CommitAll(src, dst, schemas)| == 3 * |schemas|
    ensures CommitAll(src, dst, schemas)[3 * i..3 * i + 3] == Group(src, dst, schemas[i])
    decreases i
  {
    CommitAllLength(src, dst, schemas);
    HasSheetsTail(src.book, schemas);
    var g := Group(src, dst, schemas[0]);
    var rest := CommitAll(src, dst, schemas[1..]);
    assert CommitAll(src, dst, schemas) == g + rest;
    if i > 0 {
      CommitAllGroups(src, dst, schemas[1..], i - 1);
      assert schemas[1..][i - 1] == schemas[i];
      SliceAfter(g, rest, 3 * (i - 1), 3);
    } else {
      assert (g + rest)[..3] == g;
    }
  }

  lemma SliceAfter(g: seq<Effect>, rest: seq<Effect>, x: nat, n: nat)
    requires x + n <= |rest|
    ensures (g + rest)[|g| + x..|g| + x + n] == rest[x..x + n]
  {
  }

  lemma CommitAllSplit(src: Source, dst: Target, schemas: seq<Schema>, k: nat)
    requires k < |schemas| && HasSheets(src.book, schemas[..k + 1])
    ensures HasSheets(src.book, schemas[..k]) && HasSheets(src.book, schemas[1..][..k])
    ensures CommitAll(src, dst, schemas[..k + 1]) == Group(src, dst, schemas[0]) + CommitAll(src, dst, schemas[1..][..k])
  {
    assert schemas[..k + 1][1..] == schemas[1..][..k];
    assert forall i :: 0 <= i < k ==> schemas[..k][i] == schemas[..k + 1][i];
    assert forall i :: 0 <= i < k ==> schemas[1..][..k][i] == schemas[..k + 1][i + 1];
  }

  // The loop against the reference.

  /** One iteration of the loop on a loader that finds its sheet: either a call fails part-way
      through the three writes, or all three are made and the loop goes on. */
  lemma CommitTablesStep(sv: Services, src: Source, dst: Target, schemas: seq<Schema>)
    requires |schemas| > 0 && schemas[0].sheet in src.book
    ensures
      var r := CommitTables(sv, src, dst, schemas);
      var rest := CommitTables(sv, src, dst, schemas[1..]);
      || (r.outcome.Crashed? && r.effects < Group(src, dst, schemas[0]))
      || r == Trace(rest.outcome, Group(src, dst, schemas[0]) + rest.effects)
  {
    var t := Load(src.book, schemas[0], src.date, src.site).value;
    assert t.name == schemas[0].table;
  }

  /** Whatever fails, the loop's writes are a prefix of the failure-free writes of the loaders that
      find their sheet. */
  lemma {:induction false} CommitTablesIsPrefix(sv: Services, src: Source, dst: Target, schemas: seq<Schema>)
    ensures CommitTables(sv, src, dst, schemas).effects
            <= CommitAll(src, dst, schemas[..PresentPrefix(src.book, schemas)])
    decreases |schemas|
  {
    var k := PresentPrefix(src.book, schemas);
    if |schemas| > 0 && schemas[0].sheet in src.book {
      var g := Group(src, dst, schemas[0]);
      var r := CommitTables(sv, src, dst, schemas);
      var rest := CommitTables(sv, src, dst, schemas[1..]);
      assert k - 1 == PresentPrefix(src.book, schemas[1..]);
      CommitAllSplit(src, dst, schemas, k - 1);
      var tail := CommitAll(src, dst, schemas[1..][..k - 1]);
      assert rest.effects <= tail by {
        CommitTablesIsPrefix(sv, src, dst, schemas[1..]);
      }
      CommitTablesStep(sv, src, dst, schemas);
      if r.effects < g {
        assert r.effects <= g + tail;
      } else {
        assert r.effects == g + rest.effects;
      }
    }
  }

  /** The loop completes only when every sheet is present, and then it made every write. */
  lemma {:induction false} CommitTablesCompleted(sv: Services, src: Source, dst: Target, schemas: seq<Schema>)
    requires CommitTables(sv, src, dst, schemas).outcome == Completed
    ensures HasSheets(src.book, schemas)
    ensures CommitTables(sv, src, dst, schemas).effects == CommitAll(src, dst, schemas)
    decreases |schemas|
  {
    if |schemas| > 0 {
      assert schemas[0].sheet in src.book;
      CommitTablesStep(sv, src, dst, schemas);
      CommitTablesCompleted(sv, src, dst, schemas[1..]);
      assert HasSheets(src.book, schemas) by {
        assert forall i :: 0 < i < |schemas| ==> schemas[i] == schemas[1..][i - 1];
      }
    }
  }

  /** When every call succeeds, the loop makes exactly the failure-free writes of the loaders that
      find their sheet, and stops at the first missing one: nothing already written is undone. */
  lemma {:induction false} CommitTablesWhenCallsSucceed(sv: Services, src: Source, dst: Target, schemas: seq<Schema>)
    requires forall d, t :: sv.append(d, t)
    requires forall p, t :: sv.write(p, t)
    ensures CommitTables(sv, src, dst, schemas).effects
            == CommitAll(src, dst, schemas[..PresentPrefix(src.book, schemas)])
    ensures CommitTables(sv, src, dst, schemas).outcome ==
      if PresentPrefix(src.book, schemas) == |schemas| then Completed
      else Crashed(SheetMissing(SheetNotFound(schemas[PresentPrefix(src.book, schemas)].sheet)))
    decreases |schemas|
  {
    var k := PresentPrefix(src.book, schemas);
    if |schemas| > 0 && schemas[0].sheet in src.book {
      var s := schemas[0];
      var t := Load(src.book, s, src.date, src.site).value;
      assert t.name == s.table;
      CommitTablesWhenCallsSucceed(sv, src, dst, schemas[1..]);
      CommitAllSplit(src, dst, schemas, k - 1);
    }
  }

  /** The loop of `run_local` makes the appends of the loop of `run`, and ends the same way, as long
      as the exports of `run` succeed. */
  lemma {:induction false} AppendTablesMatchesCommitTables(sv: Services, src: Source, dst: Target, schemas: seq<Schema>)
    requires forall p, t :: sv.write(p, t)
    ensures AppendTables(sv.append, src, schemas).outcome == CommitTables(sv, src, dst, schemas).outcome
    ensures AppendTables(sv.append, src, schemas).effects == AppendsOnly(CommitTables(sv, src, dst, schemas).effects)
    decreases |schemas|
  {
    if |schemas| > 0 && schemas[0].sheet in src.book {
      var t := Load(src.book, schemas[0], src.date, src.site).value;
      var lt := AddLineage(t, src.origin);
      if sv.append(Destination(t.name), lt) {
        AppendTablesMatchesCommitTables(sv, src, dst, schemas[1..]);
        var base := ExportBase(dst, src.site, t.name);
        var g := [AppendRows(Destination(t.name), lt), WriteFile(base + ".csv", lt), WriteFile(base + ".pk", lt)];
        AppendsOnlyConcat(g, CommitTables(sv, src, dst, schemas[1..]).effects);
        assert AppendsOnly(g) == [g[0]] + AppendsOnly(g[1..]);
        assert AppendsOnly(g[1..]) == AppendsOnly(g[2..]);
        assert AppendsOnly(g[2..]) == AppendsOnly(g[3..]);
      }
    }
  }

  // Views of a prefix.

  lemma {:induction false} AppendedToPrefix(a: seq<Effect>, b: seq<Effect>)
    requires a <= b
    ensures AppendedTo(a) <= AppendedTo(b)
    decreases |a|
  {
    if |a| > 0 {
      assert a[1..] <= b[1..];
      AppendedToPrefix(a[1..], b[1..]);
    }
  }

  lemma DestinationsPrefix(schemas: seq<Schema>, k: nat)
    requires k <= |schemas|
    ensures Destinations(schemas[..k]) <= Destinations(schemas)
  {
  }

  /** The five warehouse tables, in the order a run appends to them. */
  lemma LoaderDestinations()
    ensures Destinations(Loaders) == ["hilton.hilton_masterdata", "hilton.hilton_servicelevel",
      "hilton.hilton_servicegroup", "hilton.hilton_forecast", "hilton.hilton_customer"]
  {
    var d := Destinations(Loaders);
    assert d[0] == Destination("hilton_masterdata") && d[1] == Destination("hilton_servicelevel");
    assert d[2] == Destination("hilton_servicegroup") && d[3] == Destination("hilton_forecast");
    assert d[4] == Destination("hilton_customer");
    DestinationLiterals();
  }

  /** The five warehouse table names written out, one small lemma per name. */
  lemma DestinationLiterals()
    ensures Destination("hilton_masterdata") == "hilton.hilton_masterdata"
    ensures Destination("hilton_servicelevel") == "hilton.hilton_servicelevel"
    ensures Destination("hilton_servicegroup") == "hilton.hilton_servicegroup"
    ensures Destination("hilton_forecast") == "hilton.hilton_forecast"
    ensures Destination("hilton_customer") == "hilton.hilton_customer"
  {
    DestinationMasterdata();
    DestinationServicelevel();
    DestinationServicegroup();
    DestinationForecast();
    DestinationCustomer();
  }

  // `hilton.` prefixed to one table name, split off so each literal is checked on its own.
  lemma DestinationMasterdata()
    ensures Destination("hilton_masterdata") == "hilton.hilton_masterdata"
  {
  }

  // `hilton.` prefixed to one table name, split off so each literal is checked on its own.
  lemma DestinationServicelevel()
    ensures Destination("hilton_servicelevel") == "hilton.hilton_servicelevel"
  {
  }

  // `hilton.` prefixed to one table name, split off so each literal is checked on its own.
  lemma DestinationServicegroup()
    ensures Destination("hilton_servicegroup") == "hilton.hilton_servicegroup"
  {
  }

  // `hilton.` prefixed to one table name, split off so each literal is checked on its own.
  lemma DestinationForecast()
    ensures Destination("hilton_forecast") == "hilton.hilton_forecast"
  {
  }

  // `hilton.` prefixed to one table name, split off so each literal is checked on its own.
  lemma DestinationCustomer()
    ensures Destination("hilton_customer") == "hilton.hilton_customer"
  {
  }

  // Properties of the loop, whatever fails.

  /** The loop appends to a prefix of the loaders' tables in order, and to all when it completes. */
  lemma CommitTablesInOrder(sv: Services, src: Source, dst: Target, schemas: seq<Schema>)
    ensures AppendedTo(CommitTables(sv, src, dst, schemas).effects) <= Destinations(schemas)
    ensures CommitTables(sv, src, dst, schemas).outcome == Completed ==>
      AppendedTo(CommitTables(sv, src, dst, schemas).effects) == Destinations(schemas)
  {
    var loop := CommitTables(sv, src, dst, schemas);
    var k := PresentPrefix(src.book, schemas);
    var all := CommitAll(src, dst, schemas[..k]);
    assert AppendedTo(loop.effects) <= Destinations(schemas) by {
      CommitTablesIsPrefix(sv, src, dst, schemas);
      AppendedToPrefix(loop.effects, all);
      CommitAllAppends(src, dst, schemas[..k]);
      DestinationsPrefix(schemas, k);
    }
    if loop.outcome == Completed {
      CommitTablesCompleted(sv, src, dst, schemas);
      CommitAllAppends(src, dst, schemas);
    }
  }

  /** Every write of the loop carries the run's lineage, and none is an archive copy. */
  lemma CommitTablesOrigins(sv: Services, src: Source, dst: Target, schemas: seq<Schema>)
    ensures forall e :: e in CommitTables(sv, src, dst, schemas).effects ==>
      CarriesOrigin(e, src.origin) && !e.ArchiveCopy?
  {
    var k := PresentPrefix(src.book, schemas);
    CommitTablesIsPrefix(sv, src, dst, schemas);
    CommitAllOrigins(src, dst, schemas[..k]);
    var effects := CommitTables(sv, src, dst, schemas).effects;
    assert forall e :: e in effects ==> e in CommitAll(src, dst, schemas[..k]) by {
      assert forall i :: 0 <= i < |effects| ==> effects[i] == CommitAll(src, dst, schemas[..k])[i];
    }
  }

  /** Every write of the loop is named after the table it holds. */
  lemma CommitTablesNaming(sv: Services, src: Source, dst: Target, schemas: seq<Schema>)
    ensures forall e :: e in CommitTables(sv, src, dst, schemas).effects && e.AppendRows? ==>
      e.dest == Destination(e.table.name)
    ensures forall e :: e in CommitTables(sv, src, dst, schemas).effects && e.WriteFile? ==>
      || e.path == ExportBase(dst, src.site, e.table.name) + ".csv"
      || e.path == ExportBase(dst, src.site, e.table.name) + ".pk"
  {
    var k := PresentPrefix(src.book, schemas);
    CommitTablesIsPrefix(sv, src, dst, schemas);
    CommitAllNaming(src, dst, schemas[..k]);
    var effects := CommitTables(sv, src, dst, schemas).effects;
    assert forall e :: e in effects ==> e in CommitAll(src, dst, schemas[..k]) by {
      assert forall i :: 0 <= i < |effects| ==> effects[i] == CommitAll(src, dst, schemas[..k])[i];
    }
  }

  // Properties of a whole run.

  /** Whatever fails, a run appends to a prefix of the five warehouse tables in the fixed order,
      and when it completes it has appended to all five. */
  lemma RunAppendsInOrder(ev: Event, now: Instant, sv: Services)
    ensures AppendedTo(Run(ev, now, sv).effects) <= Destinations(Loaders)
    ensures Run(ev, now, sv).outcome == Completed ==> AppendedTo(Run(ev, now, sv).effects) == Destinations(Loaders)
  {
    RunCases(ev, now, sv);
    if Proceeds(ev, now, sv) {
      var dl := sv.fetch(ev.bucket, ev.name).value;
      var src := RunSource(ev, now, sv, dl, FileDate.GetDateChecked(ev.name).value);
      var loop := RunLoop(ev, now, sv);
      CommitTablesInOrder(sv, src, RunTarget(ev, now), Loaders);
      AppendedToConcat([Archive(ev, now)], loop.effects);
    }
  }

  /** Every table a run writes, to the warehouse or to storage, carries on every row the same
      lineage: the run's clock reading, the file's name and the digest of its bytes. */
  lemma RunSharesOrigin(ev: Event, now: Instant, sv: Services)
    requires sv.fetch(ev.bucket, ev.name).Some?
    ensures forall e :: e in Run(ev, now, sv).effects ==>
      CarriesOrigin(e, Origin(now, ev.name, sv.md5(sv.fetch(ev.bucket, ev.name).value.bytes)))
  {
    RunCases(ev, now, sv);
    if Proceeds(ev, now, sv) {
      var dl := sv.fetch(ev.bucket, ev.name).value;
      var src := RunSource(ev, now, sv, dl, FileDate.GetDateChecked(ev.name).value);
      CommitTablesOrigins(sv, src, RunTarget(ev, now), Loaders);
    }
  }

  /** The archive copy is the first write of a run and the only one. */
  lemma RunArchivesOnce(ev: Event, now: Instant, sv: Services)
    ensures Run(ev, now, sv).effects != [] ==>
      && Run(ev, now, sv).effects[0] == Archive(ev, now)
      && forall i :: 0 < i < |Run(ev, now, sv).effects| ==> !Run(ev, now, sv).effects[i].ArchiveCopy?
  {
    RunCases(ev, now, sv);
    if Proceeds(ev, now, sv) {
      var dl := sv.fetch(ev.bucket, ev.name).value;
      var src := RunSource(ev, now, sv, dl, FileDate.GetDateChecked(ev.name).value);
      var loop := RunLoop(ev, now, sv);
      CommitTablesOrigins(sv, src, RunTarget(ev, now), Loaders);
      var effects := [Archive(ev, now)] + loop.effects;
      assert forall i :: 0 < i < |effects| ==> effects[i] in loop.effects by {
        assert forall i :: 0 < i < |effects| ==> effects[i] == loop.effects[i - 1];
      }
    }
  }

  /** The archive copy's name is the run's stamp, an underscore and the file's name: the stamp
      reads back as the run's clock reading to the second. */
  lemma ArchiveNameRoundTrip(ev: Event, now: Instant)
    requires ValidInstant(now)
    ensures Archive(ev, now).toBucket == SaveToBucketName(ev.bucket)
    ensures FromStamp(Archive(ev, now).toName[..17]) == Some(now.(microsecond := 0))
    ensures Archive(ev, now).toName[17] == '_' && Archive(ev, now).toName[18..] == ev.name
  {
    StampRoundTrip(now);
    assert Archive(ev, now).toName[..17] == Stamp(now);
  }

  /** The writes of the failure-free loop name their targets after the table they hold. */
  lemma {:induction false} CommitAllNaming(src: Source, dst: Target, schemas: seq<Schema>)
    requires HasSheets(src.book, schemas)
    ensures forall e :: e in CommitAll(src, dst, schemas) && e.AppendRows? ==> e.dest == Destination(e.table.name)
    ensures forall e :: e in CommitAll(src, dst, schemas) && e.WriteFile? ==>
      || e.path == ExportBase(dst, src.site, e.table.name) + ".csv"
      || e.path == ExportBase(dst, src.site, e.table.name) + ".pk"
    decreases |schemas|
  {
    if |schemas| > 0 {
      HasSheetsTail(src.book, schemas);
      CommitAllNaming(src, dst, schemas[1..]);
      assert Written(src, schemas[0]).name == schemas[0].table;
    }
  }

  /** Every warehouse append of a run goes to `hilton.<table>`, and every export sits in the output
      bucket at `<stamp>_<site>_<table>` with the extension `.csv` or `.pk`. */
  lemma RunNamesItsWrites(ev: Event, now: Instant, sv: Services)
    ensures forall e :: e in Run(ev, now, sv).effects && e.AppendRows? ==> e.dest == Destination(e.table.name)
    ensures forall e :: e in Run(ev, now, sv).effects && e.WriteFile? ==>
      || e.path == ExportBase(RunTarget(ev, now), InferSite(ev.name), e.table.name) + ".csv"
      || e.path == ExportBase(RunTarget(ev, now), InferSite(ev.name), e.table.name) + ".pk"
  {
    RunCases(ev, now, sv);
    if Proceeds(ev, now, sv) {
      var dl := sv.fetch(ev.bucket, ev.name).value;
      var src := RunSource(ev, now, sv, dl, FileDate.GetDateChecked(ev.name).value);
      CommitTablesNaming(sv, src, RunTarget(ev, now), Loaders);
    }
  }

  /** An export path is the storage path of an object in the output bucket, and names that bucket
      back when bucket names hold no `/`. */
  lemma ExportBaseInOutputBucket(bucket: string, now: Instant, site: Site, table: string)
    requires '/' !in bucket
    ensures ExportBase(Target(SaveToBucketName(bucket), Stamp(now)), site, table)
            == GenFullBucketPath(SaveToBucketName(bucket), Stamp(now) + "_" + SiteName(site) + "_" + table)
    ensures SplitBucketPath(ExportBase(Target(SaveToBucketName(bucket), Stamp(now)), site, table))
            == Some((SaveToBucketName(bucket), Stamp(now) + "_" + SiteName(site) + "_" + table))
  {
    var out := SaveToBucketName(bucket);
    SaveToBucketNameKeepsSlashFree(bucket);
    GenFullBucketPathRoundTrip(out, Stamp(now) + "_" + SiteName(site) + "_" + table);
  }

  /** When every call succeeds, a run that reaches the loop archives the file and commits the tables
      of the loaders that find their sheet, in order, then stops at the first missing sheet. The
      tables already appended and exported stay: there is no rollback. */
  lemma RunStopsAtMissingSheet(ev: Event, now: Instant, sv: Services)
    requires Proceeds(ev, now, sv)
    requires forall d, t :: sv.append(d, t)
    requires forall p, t :: sv.write(p, t)
    ensures
      var dl := sv.fetch(ev.bucket, ev.name).value;
      var src := RunSource(ev, now, sv, dl, FileDate.GetDateChecked(ev.name).value);
      var k := PresentPrefix(dl.book, Loaders);
      && Run(ev, now, sv).effects == [Archive(ev, now)] + CommitAll(src, RunTarget(ev, now), Loaders[..k])
      && Run(ev, now, sv).outcome ==
           if k == |Loaders| then Completed else Crashed(SheetMissing(SheetNotFound(Loaders[k].sheet)))
  {
    RunCases(ev, now, sv);
    var dl := sv.fetch(ev.bucket, ev.name).value;
    var src := RunSource(ev, now, sv, dl, FileDate.GetDateChecked(ev.name).value);
    CommitTablesWhenCallsSucceed(sv, src, RunTarget(ev, now), Loaders);
  }

  /** With every call succeeding, the loop completes exactly when every loader finds its sheet,
      and then makes three writes per loader. */
  lemma CommitTablesCompletesIff(sv: Services, src: Source, dst: Target, schemas: seq<Schema>)
    requires forall d, t :: sv.append(d, t)
    requires forall p, t :: sv.write(p, t)
    ensures CommitTables(sv, src, dst, schemas).outcome == Completed <==> HasSheets(src.book, schemas)
    ensures CommitTables(sv, src, dst, schemas).outcome == Completed ==>
      |CommitTables(sv, src, dst, schemas).effects| == 3 * |schemas|
  {
    CommitTablesWhenCallsSucceed(sv, src, dst, schemas);
    var k := PresentPrefix(src.book, schemas);
    if k == |schemas| {
      assert schemas[..k] == schemas;
      CommitAllLength(src, dst, schemas);
    }
  }

  /** With every call succeeding, a run that reaches the loop completes exactly when the workbook
      has all five sheets; it then makes sixteen writes. */
  lemma RunCompletesIffAllSheets(ev: Event, now: Instant, sv: Services)
    requires Proceeds(ev, now, sv)
    requires forall d, t :: sv.append(d, t)
    requires forall p, t :: sv.write(p, t)
    ensures Run(ev, now, sv).outcome == Completed <==> HasSheets(sv.fetch(ev.bucket, ev.name).value.book, Loaders)
    ensures Run(ev, now, sv).outcome == Completed ==> |Run(ev, now, sv).effects| == 16
  {
    RunCases(ev, now, sv);
    var dl := sv.fetch(ev.bucket, ev.name).value;
    var src := RunSource(ev, now, sv, dl, FileDate.GetDateChecked(ev.name).value);
    CommitTablesCompletesIff(sv, src, RunTarget(ev, now), Loaders);
  }

  lemma ForecastIsFourth(book: Workbook)
    requires "Master Data" in book && "Service Level Data" in book && "Service Group" in book
    requires "Forecast Data" !in book
    ensures PresentPrefix(book, Loaders) == 3
  {
    var l := Loaders;
    assert l[1..][1..][1..][0].sheet == "Forecast Data";
    assert PresentPrefix(book, l[1..][1..][1..]) == 0;
  }

  lemma FirstThreeDestinations()
    ensures Destinations(Loaders[..3])
            == ["hilton.hilton_masterdata", "hilton.hilton_servicelevel", "hilton.hilton_servicegroup"]
  {
    LoaderDestinations();
    DestinationsPrefix(Loaders, 3);
  }

  /** The missing-sheet case written out: a workbook without its forecast sheet gets the master
      data, service level and service group tables appended before the run fails. */
  lemma ForecastMissingKeepsEarlierTables(ev: Event, now: Instant, sv: Services)
    requires Proceeds(ev, now, sv)
    requires forall d, t :: sv.append(d, t)
    requires forall p, t :: sv.write(p, t)
    requires
      var book := sv.fetch(ev.bucket, ev.name).value.book;
      "Master Data" in book && "Service Level Data" in book && "Service Group" in book
      && "Forecast Data" !in book
    ensures Run(ev, now, sv).outcome == Crashed(SheetMissing(SheetNotFound("Forecast Data")))
    ensures AppendedTo(Run(ev, now, sv).effects)
            == ["hilton.hilton_masterdata", "hilton.hilton_servicelevel", "hilton.hilton_servicegroup"]
  {
    var dl := sv.fetch(ev.bucket, ev.name).value;
    var src := RunSource(ev, now, sv, dl, FileDate.GetDateChecked(ev.name).value);
    var dst := RunTarget(ev, now);
    ForecastIsFourth(dl.book);
    RunStopsAtMissingSheet(ev, now, sv);
    var all := CommitAll(src, dst, Loaders[..3]);
    assert AppendedTo(all) == ["hilton.hilton_masterdata", "hilton.hilton_servicelevel", "hilton.hilton_servicegroup"] by {
      CommitAllAppends(src, dst, Loaders[..3]);
      FirstThreeDestinations();
    }
    AppendedToConcat([Archive(ev, now)], all);
  }

  // `run_local` against `run`.

  /** `run_local` appends what `run` appends, in the same order, and ends the same way, when both
      see the same file, the same clock reading and the same warehouse, and the storage writes of
      `run` succeed. */
  lemma RunLocalMatchesRun(ev: Event, now: Instant, sv: Services)
    requires Proceeds(ev, now, sv)
    requires forall p, t :: sv.write(p, t)
    ensures RunLocal(ev.name, sv.fetch(ev.bucket, ev.name).value, now, sv.append, sv.md5).outcome
            == Run(ev, now, sv).outcome
    ensures RunLocal(ev.name, sv.fetch(ev.bucket, ev.name).value, now, sv.append, sv.md5).effects
            == AppendsOnly(Run(ev, now, sv).effects)
  {
    RunCases(ev, now, sv);
    var dl := sv.fetch(ev.bucket, ev.name).value;
    var src := RunSource(ev, now, sv, dl, FileDate.GetDateChecked(ev.name).value);
    AppendTablesMatchesCommitTables(sv, src, RunTarget(ev, now), Loaders);
    AppendsOnlyConcat([Archive(ev, now)], RunLoop(ev, now, sv).effects);
  }

  /** `run_local` writes nothing but warehouse appends. */
  lemma {:induction false} AppendTablesOnlyAppends(append: (string, TracedTable) -> bool, src: Source, schemas: seq<Schema>)
    ensures forall e :: e in AppendTables(append, src, schemas).effects ==> e.AppendRows?
    decreases |schemas|
  {
    if |schemas| > 0 {
      AppendTablesOnlyAppends(append, src, schemas[1..]);
    }
  }

  /** The loop of `run_local` appends to a prefix of the loaders' tables, and to all of them when it
      completes. */
  lemma {:induction false} AppendTablesInOrder(append: (string, TracedTable) -> bool, src: Source, schemas: seq<Schema>)
    ensures AppendedTo(AppendTables(append, src, schemas).effects) <= Destinations(schemas)
    ensures AppendTables(append, src, schemas).outcome == Completed ==>
      AppendedTo(AppendTables(append, src, schemas).effects) == Destinations(schemas)
    decreases |schemas|
  {
    if |schemas| > 0 && schemas[0].sheet in src.book {
      var t := Load(src.book, schemas[0], src.date, src.site).value;
      assert t.name == schemas[0].table;
      var lt := AddLineage(t, src.origin);
      if append(Destination(t.name), lt) {
        var rest := AppendTables(append, src, schemas[1..]);
        AppendTablesInOrder(append, src, schemas[1..]);
        AppendedToConcat([AppendRows(Destination(t.name), lt)], rest.effects);
        assert Destinations(schemas) == [Destination(schemas[0].table)] + Destinations(schemas[1..]);
      }
    }
  }

  /** Every row the loop of `run_local` appends carries the filename's date and site and the run's
      lineage. */
  lemma {:induction false} AppendTablesStampsRows(append: (string, TracedTable) -> bool, src: Source, schemas: seq<Schema>)
    ensures forall e, row :: e in AppendTables(append, src, schemas).effects && e.AppendRows? && row in e.table.rows ==>
      row.row.filenameDate == src.date && row.row.filenameSite == src.site && row.origin == src.origin
    decreases |schemas|
  {
    if |schemas| > 0 && schemas[0].sheet in src.book {
      var t := Load(src.book, schemas[0], src.date, src.site).value;
      var lt := AddLineage(t, src.origin);
      assert forall row :: row in lt.rows ==> row.row in t.rows by {
        assert forall i :: 0 <= i < |lt.rows| ==> lt.rows[i].row == t.rows[i];
      }
      AppendTablesStampsRows(append, src, schemas[1..]);
    }
  }

  /** The report `run_local` is written for, `Heathwood Service Level Report - 16032022.xlsx`. */
  const SampleName := "Heathwood " + "Service Level Report" + " - 16032022.xlsx"

  /** The sample name cut into the parts `SampleNameAccepted` takes. */
  lemma SampleNameForCheck()
    ensures SampleName == "Heathwood " + "Service Level Report" + " - 16032022." + "xlsx"
  {
    assert " - 16032022.xlsx" == " - 16032022." + "xlsx";
  }

  /** The sample name cut into the parts `HeathwoodSampleDate` takes. */
  lemma SampleNameForDate()
    ensures SampleName == "Heathwood " + "Service Level Report" + " - " + "16032022" + ".xlsx"
  {
    assert " - 16032022.xlsx" == " - " + "16032022" + ".xlsx";
  }

  /** `run_local` on a well-named report whose date reads, with every sheet present and every
      append succeeding, completes, appends to the five tables in order, and stamps every row with
      the name's date and site and the run's lineage. */
  lemma RunLocalCompletes(name: string, file: Download, now: Instant,
                          append: (string, TracedTable) -> bool, md5: Bytes -> string)
    requires IsCorrectFileName(name) && FileDate.GetDateChecked(name).Success?
    requires HasSheets(file.book, Loaders)
    requires forall d, t :: append(d, t)
    ensures RunLocal(name, file, now, append, md5).outcome == Completed
    ensures AppendedTo(RunLocal(name, file, now, append, md5).effects) == Destinations(Loaders)
    ensures forall e, row :: e in RunLocal(name, file, now, append, md5).effects && e.AppendRows? && row in e.table.rows ==>
      && row.row.filenameDate == FileDate.GetDateChecked(name).value && row.row.filenameSite == InferSite(name)
      && row.origin == Origin(now, name, md5(file.bytes))
  {
    var src := Source(file.book, FileDate.GetDateChecked(name).value, InferSite(name), Origin(now, name, md5(file.bytes)));
    AppendTablesCompletes(append, src, Loaders);
    AppendTablesInOrder(append, src, Loaders);
    AppendTablesStampsRows(append, src, Loaders);
  }

  /** The same, on the sample report: the rows are stamped 16 March 2022 and Heathwood. */
  lemma SampleRunLocal(name: string, file: Download, now: Instant,
                       append: (string, TracedTable) -> bool, md5: Bytes -> string)
    requires name == SampleName
    requires HasSheets(file.book, Loaders)
    requires forall d, t :: append(d, t)
    ensures RunLocal(name, file, now, append, md5).outcome == Completed
    ensures forall e, row :: e in RunLocal(name, file, now, append, md5).effects && e.AppendRows? && row in e.table.rows ==>
      row.row.filenameDate == Date(16, 3, 2022) && row.row.filenameSite == Heathwood
  {
    assert IsCorrectFileName(name) by {
      SampleNameForCheck();
      SampleNameAccepted();
    }
    assert FileDate.GetDateChecked(name) == Success(Date(16, 3, 2022)) by {
      SampleNameForDate();
      FileDateExamples.HeathwoodSampleDate();
    }
    assert InferSite(name) == Heathwood by {
      HeathwoodSampleSite();
    }
    RunLocalCompletes(name, file, now, append, md5);
  }

  /** With every append succeeding, the loop of `run_local` completes when every sheet is there. */
  lemma {:induction false} AppendTablesCompletes(append: (string, TracedTable) -> bool, src: Source, schemas: seq<Schema>)
    requires HasSheets(src.book, schemas)
    requires forall d, t :: append(d, t)
    ensures AppendTables(append, src, schemas).outcome == Completed
    decreases |schemas|
  {
    if |schemas| > 0 {
      HasSheetsTail(src.book, schemas);
      AppendTablesCompletes(append, src, schemas[1..]);
    }
  }
}
