/** Mapping a Toggl entry to Notion row properties and upserting it into the data source,
    keyed by the Toggl id: patch the first row that carries the id, otherwise create one. */
module NotionUpsert {
  import opened Wrappers
  import opened Lookup
  import opened TogglTypes
  import opened NotionTypes

  // ---------------------------------------------------------------------------
  // Property mapping
  // ---------------------------------------------------------------------------

  /** JavaScript truthiness of a nullable string: null and "" are falsy. */
  predicate IsTruthyText(s: Option<string>) {
    s.Some? && s.value != ""
  }

  /** The property set for an entry: description (or ""), the date range copied verbatim and
      the Toggl id always; a project or client select only when the entry's name is truthy. */
  function BuildPropertiesFromEntry(entry: TogglReportsEntry): (p: NotionTableProperties)
    ensures p.description == (if entry.description.Some? then entry.description.value else "")
    ensures p.date.start == entry.start && p.date.end == entry.end
    ensures p.id == Some(entry.id)
    ensures p.project.Some? <==> IsTruthyText(entry.project)
    ensures p.project.Some? ==> p.project == entry.project
    ensures p.client.Some? <==> IsTruthyText(entry.client)
    ensures p.client.Some? ==> p.client == entry.client
  {
    var base := NotionTableProperties(
      entry.description.GetOr(""), DateRange(entry.start, entry.end), Some(entry.id), None, None);
    var withProject := if IsTruthyText(entry.project) then base.(project := entry.project) else base;
    if IsTruthyText(entry.client) then withProject.(client := entry.client) else withProject
  }

  /** The payload of an update: the built properties with `id` deleted. */
  function UpdatePayload(props: NotionTableProperties): (u: NotionTableProperties)
    ensures u.id.None?
    ensures u.description == props.description && u.date == props.date
    ensures u.project == props.project && u.client == props.client
  {
    props.(id := None)
  }

  // ---------------------------------------------------------------------------
  // The remote table
  // ---------------------------------------------------------------------------

  /** A row of the table: the data source it was created under, and its properties. */
  datatype Page = Page(parent: string, properties: NotionTableProperties)

  /** How the remote service applies a PATCH, taken as given rather than derived from the
      script: each property the payload carries replaces the stored one, each it omits is kept. */
  function ApplyPatch(stored: NotionTableProperties, payload: NotionTableProperties): NotionTableProperties
  {
    NotionTableProperties(
      payload.description,
      payload.date,
      if payload.id.Some? then payload.id else stored.id,
      if payload.project.Some? then payload.project else stored.project,
      if payload.client.Some? then payload.client else stored.client)
  }

  /** What the update path writes into a matched row: the row keeps its `id`, takes the
      entry's description and dates, and takes a project or client only when the entry has a
      truthy one, keeping the stored select otherwise. Patching again changes nothing. */
  lemma PatchWithUpdatePayload(stored: NotionTableProperties, entry: TogglReportsEntry)
    ensures var payload := UpdatePayload(BuildPropertiesFromEntry(entry));
            var r := ApplyPatch(stored, payload);
            && r.id == stored.id
            && r.description == (if entry.description.Some? then entry.description.value else "")
            && r.date == DateRange(entry.start, entry.end)
            && r.project == (if IsTruthyText(entry.project) then entry.project else stored.project)
            && r.client == (if IsTruthyText(entry.client) then entry.client else stored.client)
            && ApplyPatch(r, payload) == r
  {
  }

  /** The row the query on the `id` property returns first: the first row, in table order,
      whose `id` equals the entry id; None when no row carries it. */
  function FindPageByTogglId(rows: seq<Page>, entryId: int): (r: Option<nat>)
    ensures r.Some? ==> r.value < |rows| && rows[r.value].properties.id == Some(entryId)
    ensures r.Some? ==> forall j :: 0 <= j < r.value ==> rows[j].properties.id != Some(entryId)
    ensures r.None? <==> forall j :: 0 <= j < |rows| ==> rows[j].properties.id != Some(entryId)
  {
    FindFirst(rows, (p: Page) => p.properties.id == Some(entryId))
  }

  /** The number of rows whose `id` property is `id`. */
  function CountWithId(rows: seq<Page>, id: int): nat
    decreases |rows|
  {
    if |rows| == 0 then 0
    else CountWithId(rows[..|rows| - 1], id) + (if rows[|rows| - 1].properties.id == Some(id) then 1 else 0)
  }

  /** No row carries the id exactly when its count is zero. */
  lemma {:induction false} CountZeroIffAbsent(rows: seq<Page>, id: int)
    ensures CountWithId(rows, id) == 0 <==> forall j :: 0 <= j < |rows| ==> rows[j].properties.id != Some(id)
    decreases |rows|
  {
    if |rows| > 0 {
      var init := rows[..|rows| - 1];
      CountZeroIffAbsent(init, id);
      assert forall j :: 0 <= j < |init| ==> init[j] == rows[j];
    }
  }

  /** Appending a row adds one to the count of its own id and nothing to any other. */
  lemma CountAppend(rows: seq<Page>, p: Page, id: int)
    ensures CountWithId(rows + [p], id) == CountWithId(rows, id) + (if p.properties.id == Some(id) then 1 else 0)
  {
  }

  /** Replacing a row by one with the same `id` property changes no count. */
  lemma {:induction false} CountUpdateSameId(rows: seq<Page>, i: nat, p: Page, id: int)
    requires i < |rows| && rows[i].properties.id == p.properties.id
    ensures CountWithId(rows[i := p], id) == CountWithId(rows, id)
    decreases |rows|
  {
    var n := |rows| - 1;
    if i < n {
      CountUpdateSameId(rows[..n], i, p, id);
      assert rows[i := p][..n] == rows[..n][i := p];
    } else {
      assert rows[i := p][..n] == rows[..n];
    }
  }

  // ---------------------------------------------------------------------------
  // Upsert, as a function of the table
  // ---------------------------------------------------------------------------

  /** Which remote calls of one upsert fail: the query, or the patch/create that follows it. */
  datatype Faults = Faults(queryFails: bool, mutationFails: bool)

  /** What one upsert did, as the log line reports it. */
  datatype UpsertOutcome = Updated | Created | Failed

  /** Neither remote call of the upsert fails. */
  predicate Succeeds(f: Faults) {
    !f.queryFails && !f.mutationFails
  }

  /** The table after upserting `entry` under the data source `parent`. */
  function UpsertRows(rows: seq<Page>, parent: string, entry: TogglReportsEntry, f: Faults): (r: seq<Page>)
    ensures !Succeeds(f) ==> r == rows
    ensures Succeeds(f) && FindPageByTogglId(rows, entry.id).None? ==>
              r == rows + [Page(parent, BuildPropertiesFromEntry(entry))]
    ensures Succeeds(f) && FindPageByTogglId(rows, entry.id).Some? ==>
              var i := FindPageByTogglId(rows, entry.id).value;
              && |r| == |rows|
              && (forall j :: 0 <= j < |rows| && j != i ==> r[j] == rows[j])
              && r[i].parent == rows[i].parent
              && r[i].properties.id == rows[i].properties.id
              && r[i].properties == ApplyPatch(rows[i].properties, UpdatePayload(BuildPropertiesFromEntry(entry)))
  {
    if f.queryFails then rows
    else
      match FindPageByTogglId(rows, entry.id)
      case Some(i) =>
        if f.mutationFails then rows
        else
          rows[i := rows[i].(properties := ApplyPatch(rows[i].properties, UpdatePayload(BuildPropertiesFromEntry(entry))))]
      case None =>
        if f.mutationFails then rows
        else rows + [Page(parent, BuildPropertiesFromEntry(entry))]
  }

  /** The outcome reported for upserting `entry` into `rows`. */
  function UpsertOutcomeOf(rows: seq<Page>, entry: TogglReportsEntry, f: Faults): (o: UpsertOutcome)
    ensures o == Failed <==> !Succeeds(f)
    ensures o == Created <==> Succeeds(f) && CountWithId(rows, entry.id) == 0
    ensures o == Updated <==> Succeeds(f) && CountWithId(rows, entry.id) > 0
  {
    CountZeroIffAbsent(rows, entry.id);
    if !Succeeds(f) then Failed
    else if FindPageByTogglId(rows, entry.id).Some? then Updated
    else Created
  }

  /** An upsert never duplicates: after a successful one exactly one row carries the id if
      none did, and the count is unchanged if some did; no other id's count moves. */
  lemma UpsertCounts(rows: seq<Page>, parent: string, entry: TogglReportsEntry, f: Faults, x: int)
    ensures var r := UpsertRows(rows, parent, entry, f);
            CountWithId(r, x) ==
              if Succeeds(f) && x == entry.id && CountWithId(rows, x) == 0 then 1 else CountWithId(rows, x)
  {
    CountZeroIffAbsent(rows, entry.id);
    if Succeeds(f) {
      match FindPageByTogglId(rows, entry.id)
      case Some(i) =>
        var p := rows[i].(properties := ApplyPatch(rows[i].properties, UpdatePayload(BuildPropertiesFromEntry(entry))));
        CountUpdateSameId(rows, i, p, x);
      case None =>
        CountAppend(rows, Page(parent, BuildPropertiesFromEntry(entry)), x);
    }
  }

  /** A successful upsert of an entry whose id no row carries appends the created row. */
  lemma UpsertAbsentCreates(rows: seq<Page>, parent: string, entry: TogglReportsEntry, f: Faults)
    requires Succeeds(f) && CountWithId(rows, entry.id) == 0
    ensures UpsertRows(rows, parent, entry, f) == rows + [Page(parent, BuildPropertiesFromEntry(entry))]
  {
  }

  /** Upserting the same entry again, right after it was upserted, changes nothing, unless the
      first attempt failed and the second succeeds (then the second does the first's work). */
  lemma UpsertIdempotent(rows: seq<Page>, parent: string, entry: TogglReportsEntry, f1: Faults, f2: Faults)
    requires Succeeds(f1) || !Succeeds(f2)
    ensures var r1 := UpsertRows(rows, parent, entry, f1);
            UpsertRows(r1, parent, entry, f2) == r1
  {
    var r1 := UpsertRows(rows, parent, entry, f1);
    if Succeeds(f2) {
      var payload := UpdatePayload(BuildPropertiesFromEntry(entry));
      match FindPageByTogglId(rows, entry.id)
      case None =>
        var built := BuildPropertiesFromEntry(entry);
        assert r1 == rows + [Page(parent, built)];
        assert forall j :: 0 <= j < |rows| ==> r1[j] == rows[j];
        assert r1[|rows|].properties.id == Some(entry.id);
        assert FindPageByTogglId(r1, entry.id) == Some(|rows|);
        PatchWithUpdatePayload(built, entry);
      case Some(i) =>
        assert forall j :: 0 <= j < |rows| ==> r1[j].properties.id == rows[j].properties.id;
        assert FindPageByTogglId(r1, entry.id) == Some(i);
        PatchWithUpdatePayload(rows[i].properties, entry);
    }
  }

  /** Repeated upserts do not converge to the built properties when a matched row carries a
      project that the entry no longer has: the PATCH omits `project`, so the stale select stays. */
  lemma StaleProjectKept(rows: seq<Page>, parent: string, entry: TogglReportsEntry)
    requires |rows| > 0 && rows[0].properties.id == Some(entry.id)
    requires rows[0].properties.project.Some? && !IsTruthyText(entry.project)
    ensures var ok := Faults(false, false);
            var r := UpsertRows(UpsertRows(rows, parent, entry, ok), parent, entry, ok);
            && r[0].properties.project == rows[0].properties.project
            && r[0].properties != BuildPropertiesFromEntry(entry)
  {
  }

  /** Upserting the same entry twice into a table without its id: one row is created at the
      end, the second upsert patches it, and its properties are exactly the built ones. */
  lemma UpsertTwice(rows: seq<Page>, parent: string, entry: TogglReportsEntry)
    requires CountWithId(rows, entry.id) == 0
    ensures var none := Faults(false, false);
            var r := UpsertRows(UpsertRows(rows, parent, entry, none), parent, entry, none);
            && |r| == |rows| + 1
            && r[..|rows|] == rows
            && r[|rows|] == Page(parent, BuildPropertiesFromEntry(entry))
            && CountWithId(r, entry.id) == 1
  {
    var none := Faults(false, false);
    CountZeroIffAbsent(rows, entry.id);
    var r1 := UpsertRows(rows, parent, entry, none);
    assert r1 == rows + [Page(parent, BuildPropertiesFromEntry(entry))];
    assert r1[|rows|].properties.id == Some(entry.id);
    assert forall j :: 0 <= j < |rows| ==> r1[j] == rows[j];
    assert FindPageByTogglId(r1, entry.id) == Some(|rows|);
    UpsertCounts(rows, parent, entry, none, entry.id);
    UpsertCounts(r1, parent, entry, none, entry.id);
  }

  // ---------------------------------------------------------------------------
  // The sequential loop over all entries
  // ---------------------------------------------------------------------------

  /** The table after upserting `entries` one at a time, in list order. */
  function SyncRows(rows: seq<Page>, parent: string, entries: seq<TogglReportsEntry>, faults: seq<Faults>): seq<Page>
    requires |faults| == |entries|
    decreases |entries|
  {
    if |entries| == 0 then rows
    else
      var n := |entries| - 1;
      UpsertRows(SyncRows(rows, parent, entries[..n], faults[..n]), parent, entries[n], faults[n])
  }

  /** Syncing one more entry is upserting it into the result of syncing the ones before. */
  lemma SyncRowsSnoc(rows: seq<Page>, parent: string, entries: seq<TogglReportsEntry>, faults: seq<Faults>, k: nat)
    requires |faults| == |entries| && k < |entries|
    ensures SyncRows(rows, parent, entries[..k + 1], faults[..k + 1]) ==
              UpsertRows(SyncRows(rows, parent, entries[..k], faults[..k]), parent, entries[k], faults[k])
    ensures SyncOutcomes(rows, parent, entries[..k + 1], faults[..k + 1]) ==
              SyncOutcomes(rows, parent, entries[..k], faults[..k]) +
                [UpsertOutcomeOf(SyncRows(rows, parent, entries[..k], faults[..k]), entries[k], faults[k])]
  {
    assert entries[..k + 1][..k] == entries[..k] && faults[..k + 1][..k] == faults[..k];
  }

  /** The outcomes of upserting `entries` one at a time, in list order. */
  function SyncOutcomes(rows: seq<Page>, parent: string, entries: seq<TogglReportsEntry>, faults: seq<Faults>): (os: seq<UpsertOutcome>)
    requires |faults| == |entries|
    ensures |os| == |entries|
    decreases |entries|
  {
    if |entries| == 0 then []
    else
      var n := |entries| - 1;
      SyncOutcomes(rows, parent, entries[..n], faults[..n]) +
        [UpsertOutcomeOf(SyncRows(rows, parent, entries[..n], faults[..n]), entries[n], faults[n])]
  }

  /** Taking a prefix of a prefix, and indexing into one, as the sync lemmas do. */
  lemma PrefixOfPrefix(entries: seq<TogglReportsEntry>, faults: seq<Faults>, n: nat, k: nat)
    requires |faults| == |entries| && k < n <= |entries|
    ensures entries[..n][..k] == entries[..k] && faults[..n][..k] == faults[..k]
    ensures entries[..n][k] == entries[k] && faults[..n][k] == faults[k]
  {
  }

  /** The k-th outcome is that of upserting the k-th entry into the table as synced through
      the entries before it. */
  lemma {:induction false} SyncOutcomesAt(rows: seq<Page>, parent: string, entries: seq<TogglReportsEntry>, faults: seq<Faults>)
    requires |faults| == |entries|
    ensures |SyncOutcomes(rows, parent, entries, faults)| == |entries|
    ensures forall k :: 0 <= k < |entries| ==>
              SyncOutcomes(rows, parent, entries, faults)[k] ==
                UpsertOutcomeOf(SyncRows(rows, parent, entries[..k], faults[..k]), entries[k], faults[k])
    decreases |entries|
  {
    if |entries| > 0 {
      var n := |entries| - 1;
      SyncOutcomesAt(rows, parent, entries[..n], faults[..n]);
      var prefix := SyncOutcomes(rows, parent, entries[..n], faults[..n]);
      var last := UpsertOutcomeOf(SyncRows(rows, parent, entries[..n], faults[..n]), entries[n], faults[n]);
      assert SyncOutcomes(rows, parent, entries, faults) == prefix + [last];
      forall k | 0 <= k < |entries|
        ensures SyncOutcomes(rows, parent, entries, faults)[k] ==
                  UpsertOutcomeOf(SyncRows(rows, parent, entries[..k], faults[..k]), entries[k], faults[k])
      {
        if k < n {
          PrefixOfPrefix(entries, faults, n, k);
        }
      }
    }
  }

  /** Some entry of the list has the Toggl id `x`. */
  predicate HasEntryWithId(entries: seq<TogglReportsEntry>, x: int) {
    exists k :: 0 <= k < |entries| && entries[k].id == x
  }

  /** No remote call of any upsert in the run fails. */
  predicate AllSucceed(faults: seq<Faults>) {
    forall k :: 0 <= k < |faults| ==> Succeeds(faults[k])
  }

  /** An id occurs in a non-empty list exactly when it occurs before the last entry or is the
      last entry's id. */
  lemma HasEntryWithIdSnoc(entries: seq<TogglReportsEntry>, x: int)
    requires |entries| > 0
    ensures HasEntryWithId(entries, x) <==>
              HasEntryWithId(entries[..|entries| - 1], x) || entries[|entries| - 1].id == x
  {
  }

  /** With distinct ids, no entry's id occurs earlier in the list. */
  lemma DistinctNotEarlier(entries: seq<TogglReportsEntry>, k: nat)
    requires k < |entries|
    requires forall i, l :: 0 <= i < l < |entries| ==> entries[i].id != entries[l].id
    ensures !HasEntryWithId(entries[..k], entries[k].id)
  {
  }

  /** Whatever fails, a sync never leaves more than one row per id that had none, adds rows
      only for ids of the synced entries, and never removes a row's id. */
  lemma {:induction false} SyncCounts(rows: seq<Page>, parent: string, entries: seq<TogglReportsEntry>, faults: seq<Faults>, x: int)
    requires |faults| == |entries|
    ensures var c, c' := CountWithId(rows, x), CountWithId(SyncRows(rows, parent, entries, faults), x);
            c' == c || (c == 0 && c' == 1 && HasEntryWithId(entries, x))
    decreases |entries|
  {
    if |entries| > 0 {
      var n := |entries| - 1;
      SyncCounts(rows, parent, entries[..n], faults[..n], x);
      UpsertCounts(SyncRows(rows, parent, entries[..n], faults[..n]), parent, entries[n], faults[n], x);
      HasEntryWithIdSnoc(entries, x);
    }
  }

  /** When every call succeeds, afterwards each synced id is carried by exactly one row if no
      row carried it before, and every other count is unchanged. */
  lemma {:induction false} SyncCountsAllSucceed(rows: seq<Page>, parent: string, entries: seq<TogglReportsEntry>, faults: seq<Faults>, x: int)
    requires |faults| == |entries| && AllSucceed(faults)
    ensures CountWithId(SyncRows(rows, parent, entries, faults), x) ==
              if CountWithId(rows, x) == 0 && HasEntryWithId(entries, x) then 1 else CountWithId(rows, x)
    decreases |entries|
  {
    if |entries| > 0 {
      var n := |entries| - 1;
      assert AllSucceed(faults[..n]);
      SyncCountsAllSucceed(rows, parent, entries[..n], faults[..n], x);
      UpsertCounts(SyncRows(rows, parent, entries[..n], faults[..n]), parent, entries[n], faults[n], x);
      HasEntryWithIdSnoc(entries, x);
    }
  }

  /** The rows a run creates for `entries`, one per entry, in list order. */
  function CreatedPages(parent: string, entries: seq<TogglReportsEntry>): seq<Page>
    decreases |entries|
  {
    if |entries| == 0 then []
    else
      var n := |entries| - 1;
      CreatedPages(parent, entries[..n]) + [Page(parent, BuildPropertiesFromEntry(entries[n]))]
  }

  /** The rows a run creates are one per entry, the k-th built from the k-th entry. */
  lemma {:induction false} CreatedPagesAt(parent: string, entries: seq<TogglReportsEntry>)
    ensures |CreatedPages(parent, entries)| == |entries|
    ensures forall k :: 0 <= k < |entries| ==>
              CreatedPages(parent, entries)[k] == Page(parent, BuildPropertiesFromEntry(entries[k]))
    decreases |entries|
  {
    if |entries| > 0 {
      var n := |entries| - 1;
      CreatedPagesAt(parent, entries[..n]);
      assert forall k :: 0 <= k < n ==> entries[..n][k] == entries[k];
    }
  }

  /** A first run over a table that carries none of the ids, with distinct ids and no
      failures, appends one created row per entry, in list order, and changes no old row. */
  lemma {:induction false} SyncFirstRun(rows: seq<Page>, parent: string, entries: seq<TogglReportsEntry>, faults: seq<Faults>)
    requires |faults| == |entries| && AllSucceed(faults)
    requires forall k :: 0 <= k < |entries| ==> CountWithId(rows, entries[k].id) == 0
    requires forall k, l :: 0 <= k < l < |entries| ==> entries[k].id != entries[l].id
    ensures SyncRows(rows, parent, entries, faults) == rows + CreatedPages(parent, entries)
    decreases |entries|
  {
    if |entries| > 0 {
      var n := |entries| - 1;
      var e := entries[n];
      assert AllSucceed(faults[..n]);
      SyncFirstRun(rows, parent, entries[..n], faults[..n]);
      var prev := SyncRows(rows, parent, entries[..n], faults[..n]);
      SyncCountsAllSucceed(rows, parent, entries[..n], faults[..n], e.id);
      DistinctNotEarlier(entries, n);
      UpsertAbsentCreates(prev, parent, e, faults[n]);
      assert rows + CreatedPages(parent, entries) == rows + CreatedPages(parent, entries[..n]) + [Page(parent, BuildPropertiesFromEntry(e))];
    }
  }

  /** In such a first run every outcome is Created: no update is issued. */
  lemma {:induction false} FirstRunOnlyCreates(rows: seq<Page>, parent: string, entries: seq<TogglReportsEntry>, faults: seq<Faults>)
    requires |faults| == |entries| && AllSucceed(faults)
    requires forall k :: 0 <= k < |entries| ==> CountWithId(rows, entries[k].id) == 0
    requires forall k, l :: 0 <= k < l < |entries| ==> entries[k].id != entries[l].id
    ensures forall k :: 0 <= k < |entries| ==> SyncOutcomes(rows, parent, entries, faults)[k] == Created
    decreases |entries|
  {
    if |entries| > 0 {
      var n := |entries| - 1;
      var e := entries[n];
      assert AllSucceed(faults[..n]);
      FirstRunOnlyCreates(rows, parent, entries[..n], faults[..n]);
      SyncCountsAllSucceed(rows, parent, entries[..n], faults[..n], e.id);
      DistinctNotEarlier(entries, n);
    }
  }

  /** Syncing entries whose ids are all present already, with no failures, only patches:
      the table keeps its length and every id keeps its count. */
  lemma {:induction false} SyncPresentOnlyUpdates(rows: seq<Page>, parent: string, entries: seq<TogglReportsEntry>, faults: seq<Faults>)
    requires |faults| == |entries| && AllSucceed(faults)
    requires forall k :: 0 <= k < |entries| ==> CountWithId(rows, entries[k].id) > 0
    ensures |SyncRows(rows, parent, entries, faults)| == |rows|
    ensures forall x :: CountWithId(SyncRows(rows, parent, entries, faults), x) == CountWithId(rows, x)
    decreases |entries|
  {
    if |entries| > 0 {
      var n := |entries| - 1;
      var e := entries[n];
      assert AllSucceed(faults[..n]);
      SyncPresentOnlyUpdates(rows, parent, entries[..n], faults[..n]);
      var prev := SyncRows(rows, parent, entries[..n], faults[..n]);
      CountZeroIffAbsent(prev, e.id);
      forall x ensures CountWithId(SyncRows(rows, parent, entries, faults), x) == CountWithId(rows, x) {
        UpsertCounts(prev, parent, e, faults[n], x);
      }
    }
  }

  /** Re-running a successful sync with the same entries creates no row and no duplicate. */
  lemma SyncRerunIdempotent(rows: seq<Page>, parent: string, entries: seq<TogglReportsEntry>, faults: seq<Faults>)
    requires |faults| == |entries| && AllSucceed(faults)
    ensures var r1 := SyncRows(rows, parent, entries, faults);
            var r2 := SyncRows(r1, parent, entries, faults);
            && |r2| == |r1|
            && forall x :: CountWithId(r2, x) == CountWithId(r1, x)
  {
    var r1 := SyncRows(rows, parent, entries, faults);
    forall k | 0 <= k < |entries| ensures CountWithId(r1, entries[k].id) > 0 {
      SyncCountsAllSucceed(rows, parent, entries, faults, entries[k].id);
    }
    SyncPresentOnlyUpdates(r1, parent, entries, faults);
  }

  // ---------------------------------------------------------------------------
  // The table as a mutable object
  // ---------------------------------------------------------------------------

  /** The rows of one Notion data source; page ids are modelled as positions. */
  class NotionTable {
    const dataSourceId: string
    var rows: seq<Page>

    constructor (dataSourceId: string, rows: seq<Page>)
      ensures this.dataSourceId == dataSourceId && this.rows == rows
    {
      this.dataSourceId := dataSourceId;
      this.rows := rows;
    }

    /** PATCH /pages/{id}: a partial update of one row's properties. */
    method PatchPage(i: nat, payload: NotionTableProperties)
      requires i < |rows|
      requires payload.id.None?
      modifies this
      ensures rows == old(rows)[i := old(rows)[i].(properties := ApplyPatch(old(rows)[i].properties, payload))]
    {
      rows := rows[i := rows[i].(properties := ApplyPatch(rows[i].properties, payload))];
    }

    /** POST /pages: a new row under `parent`, appended to the table. */
    method CreatePage(parent: string, props: NotionTableProperties)
      modifies this
      ensures rows == old(rows) + [Page(parent, props)]
    {
      rows := rows + [Page(parent, props)];
    }

    /** Upserts one entry; a failing query or mutation is caught and reported as Failed. */
    method UpsertEntry(entry: TogglReportsEntry, f: Faults) returns (outcome: UpsertOutcome)
      modifies this
      ensures rows == UpsertRows(old(rows), dataSourceId, entry, f)
      ensures outcome == UpsertOutcomeOf(old(rows), entry, f)
    {
      if f.queryFails {
        return Failed;
      }
      var existingPage := FindPageByTogglId(rows, entry.id);
      var props := BuildPropertiesFromEntry(entry);
      if existingPage.Some? {
        props := UpdatePayload(props);
        if f.mutationFails {
          return Failed;
        }
        PatchPage(existingPage.value, props);
        outcome := Updated;
      } else {
        if f.mutationFails {
          return Failed;
        }
        CreatePage(dataSourceId, props);
        outcome := Created;
      }
    }

    /** Upserts the entries one at a time, in list order; `faults[k]` is what fails for the
        k-th one. Returns the outcome of each. */
    method SyncEntries(entries: seq<TogglReportsEntry>, faults: seq<Faults>) returns (outcomes: seq<UpsertOutcome>)
      requires |faults| == |entries|
      modifies this
      ensures rows == SyncRows(old(rows), dataSourceId, entries, faults)
      ensures outcomes == SyncOutcomes(old(rows), dataSourceId, entries, faults)
    {
      outcomes := [];
      for k := 0 to |entries|
        invariant rows == SyncRows(old(rows), dataSourceId, entries[..k], faults[..k])
        invariant outcomes == SyncOutcomes(old(rows), dataSourceId, entries[..k], faults[..k])
      {
        SyncRowsSnoc(old(rows), dataSourceId, entries, faults, k);
        var o := UpsertEntry(entries[k], faults[k]);
        outcomes := outcomes + [o];
      }
      assert entries[..|entries|] == entries && faults[..|faults|] == faults;
    }
  }
}
