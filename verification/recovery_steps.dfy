/**
 The directories that open() passes through before the log is replayed, write by write,
 and why a crash after any of them is recovered from as if it had not happened.
 */
module RecoverySteps {
  import opened Sequences
  import opened SegmentModel
  import opened Shelves
  import opened Rebuild
  import opened RebuildScan
  import opened Operations
  import opened Recovery
  import opened CrashSteps

  /**
   A crash that leaves e instead of d makes no difference to the next open(), which again
   finds a keymap log or a marker.
   */
  ghost predicate RecoversAlike(d: Disk, e: Disk) {
    && Openable(d) && Openable(e)
    && e.order == d.order && e.wal == d.wal && e.next >= d.next && (e.marker || e.log.Some?)
    && RecoveredKeymap(e) == RecoveredKeymap(d)
    && RecoveredShelf(e) == RecoveredShelf(d)
  }

  /** Unless the keymap log was lost without a marker to say so. */
  ghost predicate AllAlike(d: Disk, passed: seq<Disk>) {
    d.marker || d.log.Some? ==> forall i :: 0 <= i < |passed| ==> RecoversAlike(d, passed[i])
  }

  lemma AlikeGrows(d: Disk, passed: seq<Disk>, e: Disk)
    requires AllAlike(d, passed) && (d.marker || d.log.Some? ==> RecoversAlike(d, e))
    ensures AllAlike(d, passed + [e])
  {
    hide RecoversAlike;
  }

  lemma AlikeJoins(d: Disk, a: seq<Disk>, b: seq<Disk>)
    requires AllAlike(d, a) && AllAlike(d, b)
    ensures AllAlike(d, a + b)
  {
    hide RecoversAlike;
  }

  /** The segments' files are untouched. */
  ghost predicate SameFiles(d: Disk, e: Disk) {
    && e.order == d.order && e.wal == d.wal && e.next >= d.next
    && forall g :: g in d.order ==>
         (g in e.files <==> g in d.files) && (g in d.files ==> e.files[g] == d.files[g]) && DelOf(e, g) == DelOf(d, g)
  }

  lemma SameFilesShelf(d: Disk, e: Disk)
    requires SameFiles(d, e) && Openable(d)
    ensures Openable(e) && DiskShelf(e) == DiskShelf(d)
  {
  }

  /** Sweeping orphans, replacing a log the marker distrusts, dropping entries without a segment. */
  lemma TidyingIsAlike(d: Disk, e: Disk)
    requires Openable(d) && SameFiles(d, e) && e.marker == d.marker
    requires !d.marker ==> d.log.Some? && e.log.Some? && Retain(e.log.value, Elements(d.order)) == Retain(d.log.value, Elements(d.order))
    ensures RecoversAlike(d, e)
  {
    SameFilesShelf(d, e);
  }

  /** While a marked directory is rebuilt: any keymap records, some of the tombstones. */
  ghost predicate Rebuilding(d: Disk, shelf: Shelf, dirty: set<nat>, e: Disk) {
    exists saved :: saved <= dirty && e == d.(log := e.log, dels := SavedDels(d.dels, shelf, saved))
  }

  lemma RebuildingIsAlike(d: Disk, e: Disk)
    requires Openable(d) && d.marker
    requires Stocked(d.order, DiskShelf(d)) && Stocked(d.order, RecoveredShelf(d))
    requires Rebuilding(d, RecoveredShelf(d), Changed(d.order, DiskShelf(d), RecoveredShelf(d)), e)
    ensures RecoversAlike(d, e)
  {
    var before, after := DiskShelf(d), RecoveredShelf(d);
    DiskShelfIsStocked(d);
    var dirty := Changed(d.order, before, after);
    var saved :| saved <= dirty && e == d.(log := e.log, dels := SavedDels(d.dels, after, saved));
    assert Openable(e);
    DiskShelfIsStocked(e);
    forall g | g in before
      ensures DiskShelf(e)[g].docs == before[g].docs
      ensures before[g].dead <= DiskShelf(e)[g].dead <= after[g].dead
    {
      PartlySaved(d, after, saved, e, g);
    }
    hide RebuiltShelf, RebuiltKeymap, DiskShelf, SavedDels;
    InterruptedRebuildResumes(d.order, before, DiskShelf(e));
  }

  lemma PartlySaved(d: Disk, after: Shelf, saved: set<nat>, e: Disk, g: nat)
    requires Openable(d) && Openable(e) && e.order == d.order && e.files == d.files
    requires e.dels == SavedDels(d.dels, after, saved) && saved <= after.Keys
    requires g in DiskShelf(d) && g in after
    ensures DiskShelf(e)[g].docs == DiskShelf(d)[g].docs
    ensures DiskShelf(e)[g].dead == if g in saved then after[g].dead else DiskShelf(d)[g].dead
  {
  }

  /** Once the rebuild has been saved and the marker removed. */
  lemma RebuiltIsAlike(d: Disk, e: Disk)
    requires Openable(d) && NeedsRebuild(d)
    requires e.order == d.order && e.wal == d.wal && e.next >= d.next && !e.marker
    requires e.log == Some(RecoveredKeymap(d))
    requires Openable(e) && DiskShelf(e) == RecoveredShelf(d)
    ensures RecoversAlike(d, e)
  {
    DiskShelfIsStocked(d);
    RebuiltNamesSegments(d.order, DiskShelf(d));
  }

  lemma RebuiltNamesSegments(order: seq<nat>, shelf: Shelf)
    requires Stocked(order, shelf)
    ensures Retain(RebuiltKeymap(order, shelf), Elements(order)) == RebuiltKeymap(order, shelf)
  {
  }

  // -------------------------------------------------------------- what is left at the end

  /** The directory after the sweep. */
  function Swept(d: Disk): (r: Disk) {
    d.(files := map g | g in d.files && g in d.order :: d.files[g],
       dels := map g | g in d.dels && g in d.order :: d.dels[g])
  }

  lemma SavedAfterSweep(d: Disk)
    requires Openable(d)
    requires Stocked(d.order, DiskShelf(d)) && Stocked(d.order, RecoveredShelf(d))
    ensures SavedDels(Swept(d).dels, RecoveredShelf(d), Changed(d.order, DiskShelf(d), RecoveredShelf(d)))
         == RecoveredDisk(d).dels
  {
    hide RecoveredShelf, RecoveredKeymap, RecoveredDisk, DiskShelf, SavedDels, Changed;
    var s := RecoveredShelf(d);
    var a, b := SavedDels(Swept(d).dels, s, Changed(d.order, DiskShelf(d), s)), RecoveredDisk(d).dels;
    forall g ensures (g in a <==> g in b) && (g in a ==> a[g] == b[g]) {
      SavedAt(d, g);
    }
  }

  lemma SavedAt(d: Disk, g: nat)
    requires Openable(d)
    requires Stocked(d.order, DiskShelf(d)) && Stocked(d.order, RecoveredShelf(d))
    ensures var s := RecoveredShelf(d);
            var a, b := SavedDels(Swept(d).dels, s, Changed(d.order, DiskShelf(d), s)), RecoveredDisk(d).dels;
            (g in a <==> g in b) && (g in a ==> a[g] == b[g])
  {
    hide RebuiltShelf, RebuiltKeymap, RecoveredKeymap, RecoveredShelf;
    var s := RecoveredShelf(d);
    if g in d.order {
      var i :| 0 <= i < |d.order| && d.order[i] == g;
      assert g in Elements(d.order);
      assert DiskShelf(d)[g].dead == DelOf(d, g);
      assert g in Changed(d.order, DiskShelf(d), s) <==> s[g].dead != DelOf(d, g);
    }
  }

  // ------------------------------------------------------------- the rebuild's writes

  ghost predicate RebuildSteps(d: Disk, shelf: Shelf, dirty: set<nat>, passed: seq<Disk>) {
    forall i :: 0 <= i < |passed| ==> Rebuilding(d, shelf, dirty, passed[i])
  }

  lemma ScanThenSave(d: Disk, shelf: Shelf, dirty: set<nat>, scan: seq<Disk>, log: Option<Keymap>, save: seq<Disk>)
    requires Logging(d, scan) && Saving(d.(log := log), shelf, dirty, save)
    ensures RebuildSteps(d, shelf, dirty, scan + save)
  {
    var all := scan + save;
    forall i | 0 <= i < |all| ensures Rebuilding(d, shelf, dirty, all[i]) {
      if i < |scan| {
        assert all[i] == scan[i] == d.(log := all[i].log);
        SavingStarts(d, shelf, dirty);
        assert all[i] == d.(log := all[i].log, dels := SavedDels(d.dels, shelf, {}));
      } else {
        var saved :| saved <= dirty && save[i - |scan|] == d.(log := log).(dels := SavedDels(d.dels, shelf, saved));
        assert all[i] == d.(log := all[i].log, dels := SavedDels(d.dels, shelf, saved));
      }
    }
  }

  /** Directories during the sweep. */
  ghost predicate Sweeping(d: Disk, e: Disk) {
    && e == d.(files := e.files, dels := e.dels)
    && forall g :: g in d.order ==>
         (g in e.files <==> g in d.files) && (g in d.files ==> e.files[g] == d.files[g]) && DelOf(e, g) == DelOf(d, g)
  }

  function Orphans(d: Disk): (r: set<nat>) {
    set g | g in d.files.Keys + d.dels.Keys && g !in d.order
  }

  lemma GoneNext(d: Disk, files: set<nat>, dels: set<nat>, g: nat)
    ensures FilesGone(d, files, dels).(files := FilesGone(d, files, dels).files - {g}) == FilesGone(d, files + {g}, dels)
    ensures FilesGone(d, files, dels).(dels := FilesGone(d, files, dels).dels - {g}) == FilesGone(d, files, dels + {g})
  {
    assert (d.files - files) - {g} == d.files - (files + {g});
    assert (d.dels - dels) - {g} == d.dels - (dels + {g});
  }

  lemma GoneIsSweeping(d: Disk, files: set<nat>, dels: set<nat>)
    requires files <= Orphans(d) && dels <= Orphans(d)
    ensures Sweeping(d, FilesGone(d, files, dels))
  {
  }

  lemma GoneIsSwept(d: Disk)
    ensures FilesGone(d, {}, {}) == d && FilesGone(d, Orphans(d), Orphans(d)) == Swept(d)
  {
    assert d.files - Orphans(d) == Swept(d).files && d.dels - Orphans(d) == Swept(d).dels;
  }

  // ---------------------------------------------------------------- putting them together

  lemma AlikeThen(d: Disk, e: Disk, f: Disk)
    requires RecoversAlike(d, e) && RecoversAlike(e, f)
    ensures RecoversAlike(d, f)
  {
    hide RecoveredKeymap, RecoveredShelf, Openable;
  }

  lemma AllAlikeThen(d: Disk, e: Disk, passed: seq<Disk>)
    requires d.marker || d.log.Some? ==> RecoversAlike(d, e) && (e.marker || e.log.Some?)
    requires AllAlike(e, passed)
    ensures AllAlike(d, passed)
  {
    hide RecoversAlike;
    if d.marker || d.log.Some? {
      forall i | 0 <= i < |passed| ensures RecoversAlike(d, passed[i]) {
        AlikeThen(d, e, passed[i]);
      }
    }
  }

  /** The keymap log was created, or thrown away because of the marker. */
  lemma LoadingIsAlike(d: Disk, passed: seq<Disk>)
    requires Openable(d) && Logging(d, passed)
    requires !d.marker && d.log.Some? ==> passed == []
    ensures AllAlike(d, passed)
  {
    if d.marker {
      forall i | 0 <= i < |passed| ensures RecoversAlike(d, passed[i]) {
        TidyingIsAlike(d, passed[i]);
      }
    }
  }

  lemma SweepingIsAlike(d: Disk, passed: seq<Disk>)
    requires Openable(d) && forall i :: 0 <= i < |passed| ==> Sweeping(d, passed[i])
    ensures AllAlike(d, passed)
    ensures d.marker || d.log.Some? ==> RecoversAlike(d, Swept(d))
    ensures Openable(Swept(d)) && DiskShelf(Swept(d)) == DiskShelf(d)
  {
    SweptFiles(d);
    SameFilesShelf(d, Swept(d));
    hide DiskShelf, RecoversAlike, Swept;
    if d.marker || d.log.Some? {
      forall i | 0 <= i < |passed| ensures RecoversAlike(d, passed[i]) {
        assert Sweeping(d, passed[i]);
        TidyingIsAlike(d, passed[i]);
      }
      TidyingIsAlike(d, Swept(d));
    }
  }

  lemma SweptFiles(d: Disk)
    requires Openable(d)
    ensures SameFiles(d, Swept(d)) && Swept(d).marker == d.marker && Swept(d).log == d.log
  {
  }

  lemma RebuildStepsAlike(d: Disk, passed: seq<Disk>)
    requires Openable(d)
    requires Stocked(d.order, DiskShelf(d)) && Stocked(d.order, RecoveredShelf(d))
    requires RebuildSteps(d, RecoveredShelf(d), Changed(d.order, DiskShelf(d), RecoveredShelf(d)), passed)
    ensures d.marker ==> AllAlike(d, passed)
  {
    hide RecoveredShelf, Changed, RecoversAlike;
    if d.marker {
      forall i | 0 <= i < |passed| ensures RecoversAlike(d, passed[i]) {
        RebuildingIsAlike(d, passed[i]);
      }
    }
  }

  /** The keys retain_generations() drops. */
  function Stale(km: Keymap, order: seq<nat>): (r: set<Key>) {
    set k | k in km && km[k].generation !in order
  }

  lemma DroppedIsAlike(d: Disk, km: Keymap, dropped: set<Key>)
    requires Openable(d) && !d.marker && d.log == Some(km) && dropped <= Stale(km, d.order)
    ensures RecoversAlike(d, d.(log := Some(km - dropped)))
  {
    TidyingIsAlike(d, d.(log := Some(km - dropped)));
  }

  lemma DropsAdd(km: Keymap, order: seq<nat>, dropped: set<Key>, k: Key)
    ensures km - dropped - {k} == km - (dropped + {k}) && km - {} == km
    ensures km - Stale(km, order) == Retain(km, Elements(order))
  {
  }

  lemma NothingIsAlike(d: Disk)
    ensures AllAlike(d, [])
  {
  }

  // ------------------------------------------------------------- the recovered directory

  lemma RecoveredIsStocked(d: Disk)
    requires Openable(d)
    ensures Stocked(d.order, DiskShelf(d)) && DiskShelf(d).Keys == Elements(d.order)
    ensures Stocked(d.order, RecoveredShelf(d)) && Distinct(d.order)
    ensures NeedsRebuild(d) ==> RecoveredShelf(d) == RebuiltShelf(d.order, DiskShelf(d)) && RecoveredKeymap(d) == RebuiltKeymap(d.order, DiskShelf(d))
    ensures !NeedsRebuild(d) ==> RecoveredShelf(d) == DiskShelf(d)
  {
    DiskShelfIsStocked(d);
  }

  /** The directory after the rebuild or the reconciliation, before the next writer. */
  function Reconciled(d: Disk): (r: Disk)
    requires Openable(d)
  {
    RecoveredDisk(d).(next := d.next)
  }

  lemma ReconciledIs(d: Disk)
    requires Openable(d)
    requires Stocked(d.order, DiskShelf(d)) && Stocked(d.order, RecoveredShelf(d))
    ensures Reconciled(d) == Swept(d).(log := Some(RecoveredKeymap(d)), marker := false,
              dels := SavedDels(Swept(d).dels, RecoveredShelf(d), Changed(d.order, DiskShelf(d), RecoveredShelf(d))))
    ensures !NeedsRebuild(d) ==> Reconciled(d) == Swept(d).(log := Some(RecoveredKeymap(d)))
  {
    SavedAfterSweep(d);
    if !NeedsRebuild(d) {
      assert Changed(d.order, DiskShelf(d), RecoveredShelf(d)) == {};
      SavedStays(Swept(d).dels, RecoveredShelf(d));
    }
  }

  lemma SavedStays(dels: map<nat, set<nat>>, shelf: Shelf)
    ensures SavedDels(dels, shelf, {}) == dels
  {
  }

  lemma ReconciledIsAlike(d: Disk)
    requires Openable(d) && NeedsRebuild(d)
    ensures RecoversAlike(d, Reconciled(d))
  {
    hide RebuiltShelf, RebuiltKeymap;
    var e := Reconciled(d);
    DiskShelfIsStocked(d);
    RecoveredDels(d);
    forall g | g in d.order ensures g in e.files && Volume(e.files[g], DelOf(e, g)) == RecoveredShelf(d)[g] {
      assert Stores(RecoveredDisk(d), RecoveredShelf(d), g);
    }
    assert DiskShelf(e) == RecoveredShelf(d);
    RebuiltIsAlike(d, e);
  }

  /** The directory that has been swept and whose log has been loaded. */
  function Loaded(d: Disk): (r: Disk) {
    Swept(d.(log := Some(if d.marker || d.log.None? then map[] else d.log.value)))
  }

  lemma LoadedIsAlike(d: Disk)
    requires Openable(d)
    ensures Openable(Loaded(d)) && DiskShelf(Loaded(d)) == DiskShelf(d)
    ensures d.marker || d.log.Some? ==> RecoversAlike(d, Loaded(d))
    ensures d.marker ==> RecoveredShelf(Loaded(d)) == RecoveredShelf(d)
  {
    var e := Loaded(d);
    SweptFiles(d.(log := e.log));
    assert SameFiles(d, e);
    SameFilesShelf(d, e);
    hide Swept, DiskShelf;
    if d.marker || d.log.Some? {
      TidyingIsAlike(d, e);
    }
  }

  lemma LoadedIs(d: Disk)
    ensures Loaded(d) == Swept(d).(log := Loaded(d).log)
    ensures Loaded(d).order == d.order && Loaded(d).dels == Swept(d).dels && Loaded(d).marker == d.marker
    ensures Loaded(d).log == Some(if d.marker || d.log.None? then map[] else d.log.value)
    ensures Loaded(d) == Swept(d.(log := Loaded(d).log))
  {
  }

  lemma MarkedRebuildIsAlike(d: Disk, passed: seq<Disk>)
    requires Openable(d) && NeedsRebuild(d)
    requires Stocked(d.order, DiskShelf(d)) && Stocked(d.order, RecoveredShelf(d))
    requires RebuildSteps(Loaded(d), RecoveredShelf(d), Changed(d.order, DiskShelf(d), RecoveredShelf(d)), passed)
    ensures AllAlike(d, passed)
  {
    hide RecoveredShelf, Changed, RecoversAlike, DiskShelf, Swept, RebuildSteps;
    LoadedIsAlike(d);
    LoadedIs(d);
    if d.marker {
      RebuildStepsAlike(Loaded(d), passed);
      AllAlikeThen(d, Loaded(d), passed);
    }
  }

  /** The directory in terms of the rebuild's outcome. */
  lemma RebuiltDirectory(d: Disk)
    requires Openable(d) && NeedsRebuild(d)
    requires Stocked(d.order, DiskShelf(d)) && Stocked(d.order, RecoveredShelf(d))
    ensures Reconciled(d) == Loaded(d).(log := Some(RecoveredKeymap(d)), marker := false,
              dels := SavedDels(Loaded(d).dels, RecoveredShelf(d), Changed(d.order, DiskShelf(d), RecoveredShelf(d))))
  {
    hide RecoveredShelf, RecoveredKeymap, Changed, SavedDels, Swept, DiskShelf, Reconciled;
    ReconciledIs(d);
    LoadedIs(d);
  }

  lemma EmptyRebuild(d: Disk)
    requires Openable(d) && NeedsRebuild(d) && d.order == []
    ensures RecoveredShelf(d) == DiskShelf(d) && RecoveredKeymap(d) == map[]
    ensures Reconciled(d) == Loaded(d).(marker := false)
  {
    RecoveredIsStocked(d);
    assert RebuiltKeymap([], DiskShelf(d)) == map[];
    RebuiltDirectory(d);
    assert Changed(d.order, DiskShelf(d), RecoveredShelf(d)) == {};
    SavedStays(Loaded(d).dels, RecoveredShelf(d));
  }

  lemma RetainedDirectory(d: Disk, km: Keymap)
    requires Openable(d) && !NeedsRebuild(d) && Loaded(d).log == Some(km)
    ensures Openable(Loaded(d)) && !Loaded(d).marker
    ensures RecoveredShelf(d) == DiskShelf(d) && RecoveredKeymap(d) == Retain(km, Elements(d.order))
    ensures Reconciled(d) == Loaded(d).(log := Some(RecoveredKeymap(d)))
    ensures d.log.Some? ==> RecoversAlike(d, Reconciled(d))
  {
    hide Swept, DiskShelf, RecoversAlike;
    RecoveredIsStocked(d);
    LoadedIsAlike(d);
    LoadedIs(d);
    ReconciledIs(d);
    if d.log.Some? {
      assert Retain(Retain(km, Elements(d.order)), Elements(d.order)) == Retain(km, Elements(d.order));
      TidyingIsAlike(Loaded(d), Reconciled(d));
      AlikeThen(d, Loaded(d), Reconciled(d));
    }
  }

  /** The keymap log has no part in which segments there are. */
  lemma LoggedOpens(d: Disk, e: Disk)
    requires e == d.(log := e.log) && Distinct(d.order)
    ensures Openable(e) <==> Openable(d)
    ensures Openable(d) ==> DiskShelf(e) == DiskShelf(d)
  {
  }

  lemma SweepingAfterLoad(d: Disk, e: Disk, passed: seq<Disk>)
    requires Openable(d) && e == d.(log := Loaded(d).log)
    requires forall i :: 0 <= i < |passed| ==> Sweeping(e, passed[i])
    ensures AllAlike(d, passed)
  {
    hide Loaded, DiskShelf, RecoversAlike, Sweeping, Swept;
    LoadedIs(d);
    LoggedOpens(d, e);
    SweepingIsAlike(e, passed);
    if d.marker || d.log.Some? {
      TidyingIsAlike(d, e);
      AllAlikeThen(d, e, passed);
    }
  }

  lemma StartedIsAlike(d: Disk, next: nat)
    requires Openable(d) && next >= d.next
    requires d.marker || d.log.Some? ==> RecoversAlike(d, Reconciled(d))
    ensures d.marker || d.log.Some? ==> RecoversAlike(d, Reconciled(d).(next := next))
  {
    hide Openable, Reconciled, DiskShelf, RecoversAlike, RecoveredShelf, RecoveredKeymap, RebuiltShelf, RebuiltKeymap;
    if d.marker || d.log.Some? {
      ReconciledOpens(d);
      LaterIsAlike(Reconciled(d), next);
      AlikeThen(d, Reconciled(d), Reconciled(d).(next := next));
    }
  }

  lemma ReconciledOpens(d: Disk)
    requires Openable(d)
    ensures var e := Reconciled(d); Openable(e) && e.next == d.next && e.log.Some? && !e.marker
  {
    hide RecoveredShelf, RecoveredKeymap;
  }

  lemma LaterIsAlike(e: Disk, next: nat)
    requires Openable(e) && e.log.Some? && !e.marker && next >= e.next
    ensures RecoversAlike(e, e.(next := next))
  {
    hide RecoversAlike, DiskShelf, Retain, Elements;
    TidyingIsAlike(e, e.(next := next));
  }

  lemma OpenedIs(d: Disk, policy: Policy)
    requires Openable(d)
    ensures var g0 := Clamp(d.next, d.order);
            Opened(d, policy) == Index(d.order, WithEmpty(RecoveredShelf(d), g0), RecoveredKeymap(d), g0 + 1, g0, policy,
                                       true, false, false, Reconciled(d).(next := g0 + 1))
  {
    hide RecoveredShelf, RecoveredKeymap;
  }
}
