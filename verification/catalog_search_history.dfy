/** When the document of an entry is current, said of the events alone. */
module CatalogSearchHistory {
  import opened Text
  import opened Sequences
  import opened CatalogModel
  import opened CatalogSearch
  import opened CatalogSearchIndex

  /** The event refreshes the document of an entry that exists. */
  ghost predicate Restores(sources: Sources, event: Event, id: Str) {
    id in sources && (event == Refreshed(id) || event == RebuiltAll)
  }

  /** A column that the trigger on updates watches: any but the kind, the historical context and the research. */
  predicate IsWatched(column: Column) {
    column != KindColumn && column != FieldColumn(HistoricalContext) && column != FieldColumn(ScholarlyResearch)
  }

  /** The event leaves the entry without a current document, unless it had none. */
  ghost predicate Disturbs(sources: Sources, event: Event, id: Str) {
    match event
    case EntryInserted(_, _) => false
    case EntryUpdated(updated, entry, columns) =>
      && updated == id && MayUpdate(sources, id, entry, columns)
      && exists column :: column in columns && IsWatched(column)
    case EntryDeleted(deleted) => deleted == id
    case ChildrenWritten(written, _, _) => written == id && id in sources
    case Truncated(_) => true
    case Refreshed(_) => false
    case RebuiltAll => id !in sources
  }

  lemma VersionsDiffer()
    ensures CURRENT != INVALIDATED
  {
    assert |CURRENT| != |INVALIDATED|;
  }

  lemma WatchedColumns(columns: set<Column>)
    ensures !(columns <= UNWATCHED) <==> exists column :: column in columns && IsWatched(column)
  {
    forall column ensures column in UNWATCHED <==> !IsWatched(column) {}
  }

  lemma CurrentStep(sources: Sources, index: Index, event: Event, project: SourceEntry -> Document, id: Str)
    ensures IsCurrent(StepIndex(sources, index, event, project), id)
      <==> Restores(sources, event, id) || (IsCurrent(index, id) && !Disturbs(sources, event, id))
  {
    VersionsDiffer();
    match event
    case EntryInserted(_, _) =>
    case EntryUpdated(_, _, columns) => WatchedColumns(columns);
    case EntryDeleted(_) =>
    case ChildrenWritten(_, _, _) =>
    case Truncated(_) =>
    case Refreshed(_) =>
    case RebuiltAll =>
  }

  ghost predicate RestoresAt(events: seq<Event>, i: nat, id: Str)
    requires i < |events|
  {
    Restores(RunSources(events[..i]), events[i], id)
  }

  ghost predicate DisturbsAt(events: seq<Event>, i: nat, id: Str)
    requires i < |events|
  {
    Disturbs(RunSources(events[..i]), events[i], id)
  }

  /** The document was last restored here, and nothing has disturbed it since. */
  ghost predicate StandsFrom(events: seq<Event>, i: nat, id: Str)
    requires i < |events|
  {
    RestoresAt(events, i, id) && forall k :: i < k < |events| ==> !DisturbsAt(events, k, id)
  }

  ghost predicate Stands(events: seq<Event>, id: Str) {
    exists i :: 0 <= i < |events| && StandsFrom(events, i, id)
  }

  lemma SameUpTo(events: seq<Event>, n: nat, i: nat, id: Str)
    requires i < n <= |events|
    ensures RestoresAt(events[..n], i, id) <==> RestoresAt(events, i, id)
    ensures DisturbsAt(events[..n], i, id) <==> DisturbsAt(events, i, id)
  {
    Shorter(events, n, i);
  }

  lemma StandsLonger(events: seq<Event>, n: nat, i: nat, id: Str)
    requires i < n && n == |events| - 1
    ensures StandsFrom(events, i, id) <==> StandsFrom(events[..n], i, id) && !DisturbsAt(events, n, id)
  {
    forall k | i <= k < n
      ensures RestoresAt(events[..n], k, id) <==> RestoresAt(events, k, id)
      ensures DisturbsAt(events[..n], k, id) <==> DisturbsAt(events, k, id)
    {
      SameUpTo(events, n, k, id);
    }
  }

  lemma StandsOneMore(events: seq<Event>, id: Str)
    requires events != []
    ensures var n := |events| - 1;
      Stands(events, id) <==> RestoresAt(events, n, id) || (Stands(events[..n], id) && !DisturbsAt(events, n, id))
  {
    var n := |events| - 1;
    forall i | 0 <= i < n
      ensures StandsFrom(events, i, id) <==> StandsFrom(events[..n], i, id) && !DisturbsAt(events, n, id)
    {
      StandsLonger(events, n, i, id);
    }
    if RestoresAt(events, n, id) { assert StandsFrom(events, n, id); }
  }

  /**
   In every run an entry has a current document exactly if it was refreshed, by itself or by a rebuild, and since then
   no update has set a watched column of it, none of its children was written, no child table was truncated, and it was
   not deleted.
   */
  lemma {:induction false} CurrentTellsHistory(events: seq<Event>, project: SourceEntry -> Document, id: Str)
    ensures IsCurrent(RunIndex(events, project), id) <==> Stands(events, id)
  {
    if events == [] {
    } else {
      var n := |events| - 1;
      CurrentTellsHistory(events[..n], project, id);
      StandsOneMore(events, id);
      CurrentStep(RunSources(events[..n]), RunIndex(events[..n], project), events[n], project, id);
    }
  }
}
