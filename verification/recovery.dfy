/**
 open(): what an index directory recovers to, and the directories from which it
 recovers what the index held -- in particular every directory a crash can leave
 behind while flush() or compact() is running.
 */
module Recovery {
  import opened Sequences
  import opened SegmentModel
  import opened Shelves
  import opened Rebuild
  import opened Operations
  import opened Compaction

  /** A "compacting" marker, or segments without a keymap log. */
  predicate NeedsRebuild(d: Disk) {
    d.marker || (d.log.None? && d.order != [])
  }

  lemma DiskShelfIsStocked(d: Disk)
    requires Openable(d)
    ensures Stocked(d.order, DiskShelf(d)) && DiskShelf(d).Keys == Elements(d.order)
  {
    forall i | 0 <= i < |d.order| ensures d.order[i] in DiskShelf(d) {
      assert d.order[i] in d.order;
    }
  }

  function RecoveredKeymap(d: Disk): Keymap
    requires Openable(d)
  {
    DiskShelfIsStocked(d);
    if NeedsRebuild(d) then RebuiltKeymap(d.order, DiskShelf(d))
    else if d.log.Some? then Retain(d.log.value, Elements(d.order))
    else map[]
  }

  function RecoveredShelf(d: Disk): (r: Shelf)
    requires Openable(d)
    ensures r.Keys == Elements(d.order)
  {
    DiskShelfIsStocked(d);
    if NeedsRebuild(d) then RebuiltShelf(d.order, DiskShelf(d)) else DiskShelf(d)
  }

  /** The directory once open() has swept orphans, saved tombstones and the keymap. */
  function RecoveredDisk(d: Disk): (r: Disk)
    requires Openable(d)
  {
    var g0 := Clamp(d.next, d.order);
    var s := RecoveredShelf(d);
    Disk(g0 + 1,
         d.order,
         map g | g in d.files && g in d.order :: d.files[g],
         map g | g in s && (g in d.dels || s[g].dead != {}) :: s[g].dead,
         Some(RecoveredKeymap(d)),
         d.wal,
         false)
  }

  /** open() up to, not including, the replay of the write-ahead log. */
  function Opened(d: Disk, policy: Policy): (ix: Index)
    requires Openable(d)
  {
    var g0 := Clamp(d.next, d.order);
    Index(d.order, WithEmpty(RecoveredShelf(d), g0), RecoveredKeymap(d),
          g0 + 1, g0, policy, true, false, false, RecoveredDisk(d))
  }

  // --------------------------------------------------- what a directory holds

  /**
   The manifested files are `shelf`, whose keymap is `km`, and the keymap log can be
   trusted unless recovery is going to rebuild it anyway.
   */
  ghost predicate Preserves(d: Disk, shelf: Shelf, km: Keymap) {
    && Distinct(d.order)
    && shelf.Keys == Elements(d.order)
    && (forall g :: g in d.order ==> Stores(d, shelf, g))
    && WellStored(shelf)
    && Coherent(shelf, km)
    && (!d.marker && d.log.Some? ==> Retain(d.log.value, Elements(d.order)) == km)
  }

  /** The same of an index that may hold stray copies: then the log has to be trusted. */
  ghost predicate Carries(d: Disk, shelf: Shelf, km: Keymap) {
    && Distinct(d.order)
    && shelf.Keys == Elements(d.order)
    && (forall g :: g in d.order ==> Stores(d, shelf, g))
    && WellStored(shelf)
    && Sound(shelf, km)
    && !d.marker && d.log.Some? && Retain(d.log.value, Elements(d.order)) == km
  }

  /** Strays or not, such a directory opens to what it carries. */
  lemma OpensToCarried(d: Disk, shelf: Shelf, km: Keymap, policy: Policy)
    requires Carries(d, shelf, km)
    ensures var ix := Opened(d, policy);
            && Openable(d) && Structured(ix) && Mirrored(ix) && Sound(ix.shelf, ix.keymap)
            && (Complete(ix.shelf, ix.keymap) <==> Complete(shelf, km))
            && ix.keymap == km && Contents(ix) == Flushable(ix) == View(shelf, km)
  {
    CarriedIsOpenable(d, shelf, km);
    OpenedShape(d, policy);
    EntriesAreShelved(shelf, km);
    var ix := Opened(d, policy);
    hide WellStored, Sound, View, Stores, Only, Retain, Opened, Structured, Mirrored, RecoveredKeymap, RecoveredShelf, WithEmpty, Complete;
    OpenedIsMirrored(d, policy);
    OnlyOfWithEmpty(shelf, ix.writer);
    EmptyKeeps(shelf, km, ix.writer);
    if Complete(ix.shelf, ix.keymap) {
      EmptyHidesNoStray(shelf, km, ix.writer);
    }
  }

  lemma CarriedIsOpenable(d: Disk, shelf: Shelf, km: Keymap)
    requires Carries(d, shelf, km)
    ensures Openable(d) && DiskShelf(d) == shelf && RecoveredShelf(d) == shelf && RecoveredKeymap(d) == km
  {
    forall g | g in d.order ensures g in d.files && shelf[g] == Volume(d.files[g], DelOf(d, g)) {
      assert Stores(d, shelf, g);
    }
  }

  lemma EmptyHidesNoStray(shelf: Shelf, km: Keymap, g: nat)
    requires g !in shelf && Complete(WithEmpty(shelf, g), km)
    ensures Complete(shelf, km)
  {
    forall loc: Loc | Alive(shelf, loc) ensures Named(shelf, km, loc) {
      EmptyAt(shelf, g, loc);
      assert Named(WithEmpty(shelf, g), km, loc);
    }
  }

  lemma PreservesIsOpenable(d: Disk, shelf: Shelf, km: Keymap)
    requires Preserves(d, shelf, km)
    ensures Openable(d) && DiskShelf(d) == shelf
  {
    forall g | g in d.order ensures g in d.files && shelf[g] == Volume(d.files[g], DelOf(d, g)) {
      assert Stores(d, shelf, g);
    }
  }

  lemma PreservedKeymap(d: Disk, shelf: Shelf, km: Keymap)
    requires Preserves(d, shelf, km)
    ensures Openable(d)
    ensures RecoveredKeymap(d) == km && RecoveredShelf(d) == shelf
  {
    PreservesIsOpenable(d, shelf, km);
    DiskShelfIsStocked(d);
    EntriesAreShelved(shelf, km);
    if NeedsRebuild(d) {
      RebuildReproduces(d.order, shelf, km);
    } else if d.log.None? {
      assert shelf.Keys == {};
    }
  }

  lemma EntriesAreShelved(shelf: Shelf, km: Keymap)
    requires Sound(shelf, km)
    ensures forall k :: k in km ==> km[k].generation in shelf
    ensures Retain(km, shelf.Keys) == km
  {
    forall k | k in km ensures km[k].generation in shelf {
      EntryIsLive(shelf, km, k);
    }
  }

  lemma OpenedIsMirrored(d: Disk, policy: Policy)
    requires Openable(d)
    ensures Mirrored(Opened(d, policy))
    ensures WellStored(RecoveredShelf(d)) ==> Structured(Opened(d, policy))
  {
    var ix, s := Opened(d, policy), RecoveredShelf(d);
    assert ix.writer !in d.order;
    RecoveredDels(d);
    assert ix.disk.files.Keys == Elements(ix.order);
    assert ix.disk.dels.Keys <= Elements(ix.order);
    EmptyKeeps(s, map[], ix.writer);
    forall g | g in ix.order ensures Stores(ix.disk, ix.shelf, g) {
      assert ix.shelf[g] == s[g];
    }
  }

  /** The swept, re-tombstoned directory stores the recovered shelf. */
  lemma RecoveredDels(d: Disk)
    requires Openable(d)
    ensures forall g :: g in d.order ==> Stores(RecoveredDisk(d), RecoveredShelf(d), g)
  {
    DiskShelfIsStocked(d);
    var s := RecoveredShelf(d);
    forall g | g in d.order ensures Stores(RecoveredDisk(d), s, g) {
      assert g in Elements(d.order);
      assert s[g].docs == DiskShelf(d)[g].docs;
    }
  }

  /** A directory that preserves an index recovers to exactly that index. */
  lemma OpensTo(d: Disk, shelf: Shelf, km: Keymap, policy: Policy)
    requires Preserves(d, shelf, km)
    ensures Openable(d) && Consistent(Opened(d, policy))
    ensures Opened(d, policy).keymap == km
    ensures Contents(Opened(d, policy)) == View(shelf, km)
    ensures Flushable(Opened(d, policy)) == View(shelf, km)
  {
    PreservedKeymap(d, shelf, km);
    OpenedShape(d, policy);
    EntriesAreShelved(shelf, km);
    var ix := Opened(d, policy);
    hide WellStored, Sound, Complete, View, Stores, Only, Retain, Opened, Structured, Mirrored, RecoveredKeymap, RecoveredShelf, WithEmpty;
    OpenedIsMirrored(d, policy);
    OnlyOfWithEmpty(shelf, ix.writer);
    EmptyKeeps(shelf, km, ix.writer);
  }

  lemma OpenedShape(d: Disk, policy: Policy)
    requires Openable(d)
    ensures var ix := Opened(d, policy);
            && ix.order == d.order && ix.keymap == RecoveredKeymap(d)
            && ix.shelf == WithEmpty(RecoveredShelf(d), ix.writer)
            && ix.writer !in RecoveredShelf(d)
  {
  }

  lemma OnlyOfWithEmpty(shelf: Shelf, g: nat)
    requires g !in shelf
    ensures Only(WithEmpty(shelf, g), shelf.Keys) == shelf
  {
  }

  /** Even a directory with stray live copies recovers consistently when it is rebuilt. */
  lemma RebuildAlwaysOpens(d: Disk, policy: Policy)
    requires Openable(d) && NeedsRebuild(d) && WellStored(DiskShelf(d))
    ensures Consistent(Opened(d, policy))
  {
    DiskShelfIsStocked(d);
    RebuiltIsCoherent(d.order, DiskShelf(d));
    OpenedIsMirrored(d, policy);
    EmptyKeeps(RecoveredShelf(d), RecoveredKeymap(d), Opened(d, policy).writer);
  }

  /** Only manifested generations are left on disk, and only unmanifested ones were removed. */
  lemma SweepRemovesOnlyOrphans(d: Disk, policy: Policy, g: nat)
    requires Openable(d)
    ensures g in Opened(d, policy).disk.files <==> g in d.order
    ensures g in d.order ==> Opened(d, policy).disk.files[g] == d.files[g]
  {
  }

  // ------------------------------------------------------------ crash points

  /** The flushed part of an index, and its keymap. */
  function DiskPart(ix: Index): Shelf {
    Only(ix.shelf, Elements(ix.order))
  }

  function DiskKeymap(ix: Index): Keymap {
    Retain(ix.keymap, Elements(ix.order))
  }

  /**
   A directory that differs from a consistent index's only by files no manifest names,
   a marker, keymap records written under the marker, and generations handed out.
   */
  ghost predicate SameSegments(d: Disk, ix: Index) {
    && d.order == ix.order
    && (forall g :: g in ix.order ==> Stores(d, ix.shelf, g))
    && (!d.marker ==> d.log == Some(ix.keymap))
  }

  lemma SameSegmentsPreserve(d: Disk, ix: Index)
    requires Structured(ix) && Coherent(ix.shelf, ix.keymap) && SameSegments(d, ix)
    ensures Preserves(d, DiskPart(ix), DiskKeymap(ix))
  {
    assert DiskPart(ix).Keys == Elements(ix.order);
    RetainIsCoherent(ix.shelf, ix.keymap, Elements(ix.order));
    forall g | g in d.order ensures Stores(d, DiskPart(ix), g) {
      assert Stores(d, ix.shelf, g);
    }
  }

  /** A crash between operations: flushed documents survive, and nothing else. */
  lemma CrashKeepsFlushed(ix: Index, policy: Policy)
    requires Consistent(ix)
    ensures Openable(ix.disk) && Consistent(Opened(ix.disk, policy))
    ensures Contents(Opened(ix.disk, policy)) == Flushable(ix)
  {
    SameSegmentsPreserve(ix.disk, ix);
    OpensTo(ix.disk, DiskPart(ix), DiskKeymap(ix), policy);
  }

  /**
   A crash anywhere inside compact(), before or after the manifest swap, recovers the
   same key -> document map with no duplicates: the old segments describe it until the
   swap, the new ones afterwards.
   */
  lemma CompactionCrash(d: Disk, ix: Index, gens: seq<nat>, policy: Policy)
    requires Consistent(ix) && Compactable(ix, gens)
    requires SameSegments(d, ix) || SameSegments(d, Compacted(ix, gens))
    ensures Openable(d) && Consistent(Opened(d, policy))
    ensures Contents(Opened(d, policy)) == Flushable(ix)
    ensures Opened(d, policy).disk.files.Keys == Elements(d.order)
  {
    CompactPreserves(ix, gens);
    var jx := if SameSegments(d, ix) then ix else Compacted(ix, gens);
    SameSegmentsPreserve(d, jx);
    OpensTo(d, DiskPart(jx), DiskKeymap(jx), policy);
  }

  /** A crash inside flush() recovers the documents flushed before it, or all of them. */
  lemma FlushCrash(d: Disk, ix: Index, policy: Policy)
    requires Consistent(ix) && ix.shelf[ix.writer].docs != []
    requires SameSegments(d, ix) || SameSegments(d, Flushed(ix))
    ensures Openable(d) && Consistent(Opened(d, policy))
    ensures Contents(Opened(d, policy)) == if SameSegments(d, ix) then Flushable(ix) else Contents(ix)
  {
    var jx := if SameSegments(d, ix) then ix else Flushed(ix);
    FlushedIsStructured(ix);
    FlushKeeps(ix);
    FlushMakesDurable(ix);
    SameSegmentsPreserve(d, jx);
    OpensTo(d, DiskPart(jx), DiskKeymap(jx), policy);
  }

  // -------------------------------------------------- crashes inside recovery

  lemma PartlyRebuiltIsStored(order: seq<nat>, shelf: Shelf, partial: Shelf)
    requires Stocked(order, shelf) && WellStored(shelf) && PartlyRebuilt(order, shelf, partial)
    ensures WellStored(partial)
  {
    forall g | g in partial ensures WellKept(partial[g]) {
      assert WellKept(shelf[g]);
    }
  }

  /**
   A crash inside a marker-triggered recovery, after any of its tombstones were saved
   and any keymap records written, is recovered from by the next open().
   */
  lemma InterruptedRecovery(d: Disk, e: Disk, policy: Policy)
    requires Openable(d) && d.marker && WellStored(DiskShelf(d))
    requires e.marker && e.order == d.order && Openable(e)
    requires Stocked(d.order, DiskShelf(d)) && PartlyRebuilt(d.order, DiskShelf(d), DiskShelf(e))
    ensures RecoveredKeymap(e) == RecoveredKeymap(d)
    ensures RecoveredShelf(e) == RecoveredShelf(d)
    ensures Consistent(Opened(e, policy))
  {
    DiskShelfIsStocked(d);
    DiskShelfIsStocked(e);
    PartlyRebuiltIsStored(d.order, DiskShelf(d), DiskShelf(e));
    hide WellStored, PartlyRebuilt, RebuiltShelf, RebuiltKeymap, DiskShelf, Opened, Consistent;
    InterruptedRebuildResumes(d.order, DiskShelf(d), DiskShelf(e));
    RebuildAlwaysOpens(e, policy);
  }
}
