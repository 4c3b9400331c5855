/**
 Rebuilding a lost keymap log, which no marker protects: what a crash inside it leaves for
 the next open(), which trusts whatever log it finds.
 */
module LostLog {
  import opened Sequences
  import opened SegmentModel
  import opened Shelves
  import opened Rebuild
  import opened RebuildScan
  import opened Operations
  import opened Recovery
  import opened RecoverySteps

  /** A live document with a usable key stands at the scan's position or behind it. */
  ghost predicate RecordsLeft(order: seq<nat>, shelf: Shelf, end: Place) {
    exists p: Place, k: Key :: ValidKey(k) && Holds(order, shelf, p, k) && !Before(p, end)
  }

  /** The directory when the scan has reached `end` and the tombstones of `saved` were written. */
  function Interrupted(d: Disk, end: Place, saved: set<nat>): Disk
    requires Openable(d) && Stocked(d.order, DiskShelf(d)) && Reached(d.order, DiskShelf(d), end)
  {
    d.(log := Some(ScannedKeymap(d.order, DiskShelf(d), end)),
       dels := SavedDels(d.dels, RebuiltShelf(d.order, DiskShelf(d)), saved))
  }

  /** The segments whose tombstones the rebuild changes. */
  function ToSave(d: Disk): set<nat>
    requires Openable(d) && Stocked(d.order, DiskShelf(d))
  {
    RebuiltIsStocked(d.order, DiskShelf(d));
    Changed(d.order, DiskShelf(d), RebuiltShelf(d.order, DiskShelf(d)))
  }

  /** Tombstones are only saved after the scan. */
  ghost predicate CanInterrupt(d: Disk, end: Place, saved: set<nat>) {
    && Openable(d) && WellStored(DiskShelf(d)) && Stocked(d.order, DiskShelf(d))
    && Reached(d.order, DiskShelf(d), end) && saved <= ToSave(d)
    && (saved == {} || end == Place(|d.order|, 0))
  }

  /** The scanned keymap is the final one exactly when no record is left. */
  lemma ScannedAll(order: seq<nat>, shelf: Shelf, end: Place)
    requires Stocked(order, shelf) && Reached(order, shelf, end) && Distinct(order)
    ensures ScannedKeymap(order, shelf, end) == RebuiltKeymap(order, shelf) <==> !RecordsLeft(order, shelf, end)
  {
    hide ScannedKeymap, Holds, Distinct;
    if RecordsLeft(order, shelf, end) {
      var p: Place, k: Key :| ValidKey(k) && Holds(order, shelf, p, k) && !Before(p, end);
      RecordIsMissing(order, shelf, end, p, k);
    } else {
      forall k ensures k in ScannedKeymap(order, shelf, end) <==> k in RebuiltKeymap(order, shelf)
               ensures k in RebuiltKeymap(order, shelf) ==> ScannedKeymap(order, shelf, end)[k] == RebuiltKeymap(order, shelf)[k]
      {
        RecordIsThere(order, shelf, end, k);
      }
    }
  }

  lemma RecordIsMissing(order: seq<nat>, shelf: Shelf, end: Place, p: Place, k: Key)
    requires Stocked(order, shelf) && Reached(order, shelf, end) && Distinct(order)
    requires ValidKey(k) && Holds(order, shelf, p, k) && !Before(p, end)
    ensures var now, final := ScannedKeymap(order, shelf, end), RebuiltKeymap(order, shelf);
            k in final && (k in now ==> now[k] != final[k])
  {
    assert Before(p, Place(|order|, 0));
    var q := Newest(order, shelf, k).value;
    assert EntryAt(shelf, LocAt(order, p)).key == k;
    assert !Before(q, end);
    var n := NewestBefore(order, shelf, k, end);
    assert n.Some? ==> Before(n.value, end) && n.value != q;
  }

  lemma RecordIsThere(order: seq<nat>, shelf: Shelf, end: Place, k: Key)
    requires Stocked(order, shelf) && Reached(order, shelf, end) && !RecordsLeft(order, shelf, end)
    ensures var now, final := ScannedKeymap(order, shelf, end), RebuiltKeymap(order, shelf);
            (k in now <==> k in final) && (k in final ==> now[k] == final[k])
  {
    if ValidKey(k) {
      assert forall p: Place :: Holds(order, shelf, p, k) ==> Before(p, end);
      hide Holds, NewestBefore;
      SameNewest(order, shelf, k, end);
    }
  }

  lemma SameNewest(order: seq<nat>, shelf: Shelf, k: Key, end: Place)
    requires Stocked(order, shelf) && Reached(order, shelf, end)
    requires forall p: Place :: Holds(order, shelf, p, k) ==> Before(p, end)
    ensures NewestBefore(order, shelf, k, end) == Newest(order, shelf, k)
  {
    var now, final := NewestBefore(order, shelf, k, end), Newest(order, shelf, k);
    if final.Some? {
      assert Before(final.value, end);
      assert now.value == final.value || Before(final.value, now.value);
    }
    if now.Some? {
      assert Before(now.value, Place(|order|, 0));
      assert final.value == now.value || Before(now.value, final.value);
    }
  }

  lemma InterruptedShelf(d: Disk, end: Place, saved: set<nat>, g: nat)
    requires CanInterrupt(d, end, saved) && g in d.order
    ensures var e, before, after := Interrupted(d, end, saved), DiskShelf(d), RebuiltShelf(d.order, DiskShelf(d));
            && Openable(e) && g in before && g in after && g in DiskShelf(e)
            && DiskShelf(e)[g].docs == before[g].docs
            && DiskShelf(e)[g].dead == if g in saved then after[g].dead else before[g].dead
  {
    DiskShelfIsStocked(d);
    ChangedAreListed(d.order, DiskShelf(d), RebuiltShelf(d.order, DiskShelf(d)));
    assert Openable(Interrupted(d, end, saved));
    PartlySaved(d, RebuiltShelf(d.order, DiskShelf(d)), saved, Interrupted(d, end, saved), g);
  }

  /** Live copies and entries of the directory, as the next open() will read them, match. */
  lemma CoherentWhenWritten(d: Disk, end: Place, saved: set<nat>)
    requires CanInterrupt(d, end, saved)
    ensures Openable(Interrupted(d, end, saved))
    ensures Coherent(DiskShelf(Interrupted(d, end, saved)), ScannedKeymap(d.order, DiskShelf(d), end)) <==>
            !RecordsLeft(d.order, DiskShelf(d), end) && saved == ToSave(d)
  {
    var order, before := d.order, DiskShelf(d);
    var e, after, km := Interrupted(d, end, saved), RebuiltShelf(order, before), ScannedKeymap(order, before, end);
    DiskShelfIsStocked(d);
    ShelfFound(d, end, saved);
    hide DiskShelf, SavedDels, RebuiltShelf, ScannedKeymap, RecordsLeft, Coherent, CanInterrupt, ToSave;
    ScannedAll(order, before, end);
    if !RecordsLeft(order, before, end) && saved == ToSave(d) {
      RebuiltIsCoherent(order, before);
      SavedAll(d, DiskShelf(e), saved);
      assert DiskShelf(e) == after;
    }
    if Coherent(DiskShelf(e), km) {
      NothingLeft(d, end, saved);
      AllSaved(d, DiskShelf(e), saved);
    }
  }

  /** The volume of a segment whose tombstones were saved, or were not. */
  function FoundVolume(d: Disk, saved: set<nat>, g: nat): Volume
    requires Openable(d) && Stocked(d.order, DiskShelf(d)) && g in DiskShelf(d)
  {
    var before := DiskShelf(d);
    Volume(before[g].docs, if g in saved then RebuiltShelf(d.order, before)[g].dead else before[g].dead)
  }

  ghost predicate Found(d: Disk, now: Shelf, saved: set<nat>)
    requires Openable(d) && Stocked(d.order, DiskShelf(d))
  {
    now.Keys == DiskShelf(d).Keys && forall g :: g in DiskShelf(d) ==> now[g] == FoundVolume(d, saved, g)
  }

  lemma ShelfFound(d: Disk, end: Place, saved: set<nat>)
    requires CanInterrupt(d, end, saved)
    ensures var e := Interrupted(d, end, saved);
            Openable(e) && d.order == e.order && Distinct(d.order) && Found(d, DiskShelf(e), saved)
  {
    var e := Interrupted(d, end, saved);
    DiskShelfIsStocked(d);
    assert Openable(e);
    DiskShelfIsStocked(e);
    forall g | g in DiskShelf(d) ensures g in DiskShelf(e) && DiskShelf(e)[g] == FoundVolume(d, saved, g) {
      InterruptedShelf(d, end, saved, g);
    }
  }

  lemma NothingLeft(d: Disk, end: Place, saved: set<nat>)
    requires CanInterrupt(d, end, saved) && Distinct(d.order)
    requires Openable(Interrupted(d, end, saved)) && Found(d, DiskShelf(Interrupted(d, end, saved)), saved)
    requires Complete(DiskShelf(Interrupted(d, end, saved)), ScannedKeymap(d.order, DiskShelf(d), end))
    ensures !RecordsLeft(d.order, DiskShelf(d), end)
  {
    hide SavedDels, ScannedKeymap, DiskShelf, WellStored, RecordsLeft, ToSave, Complete, RebuiltShelf;
    var order, before, now := d.order, DiskShelf(d), DiskShelf(Interrupted(d, end, saved));
    if saved == {} {
      assert forall g :: g in before ==> now[g] == before[g];
      assert now == before;
      NoneLeft(order, before, ScannedKeymap(order, before, end), end);
    } else {
      NoneAtTheEnd(order, before);
    }
  }

  lemma NoneAtTheEnd(order: seq<nat>, shelf: Shelf)
    ensures !RecordsLeft(order, shelf, Place(|order|, 0))
  {
  }

  lemma SavedAll(d: Disk, now: Shelf, saved: set<nat>)
    requires Openable(d) && Stocked(d.order, DiskShelf(d)) && DiskShelf(d).Keys == Elements(d.order)
    requires saved == ToSave(d) && Found(d, now, saved)
    ensures now == RebuiltShelf(d.order, DiskShelf(d))
  {
    hide DiskShelf;
    var after := RebuiltShelf(d.order, DiskShelf(d));
    forall g | g in DiskShelf(d) ensures now[g] == after[g] {
      var i :| 0 <= i < |d.order| && d.order[i] == g;
      assert g in saved <==> after[d.order[i]].dead != DiskShelf(d)[d.order[i]].dead;
    }
  }

  lemma NoneLeft(order: seq<nat>, shelf: Shelf, km: Keymap, end: Place)
    requires Stocked(order, shelf) && Reached(order, shelf, end)
    requires Distinct(order)
    requires km == ScannedKeymap(order, shelf, end) && Complete(shelf, km)
    ensures !RecordsLeft(order, shelf, end)
  {
    forall p: Place, k: Key | ValidKey(k) && Holds(order, shelf, p, k) ensures Before(p, end) {
      assert Named(shelf, km, LocAt(order, p));
      var q := NewestBefore(order, shelf, k, end).value;
      assert km[k] == LocAt(order, q) == LocAt(order, p);
      assert q.segment == p.segment;
    }
  }

  lemma IsNamed(now: Shelf, km: Keymap, loc: Loc)
    requires Complete(now, km) && Alive(now, loc)
    ensures Named(now, km, loc)
  {
  }

  lemma AllSaved(d: Disk, now: Shelf, saved: set<nat>)
    requires Openable(d) && Stocked(d.order, DiskShelf(d)) && DiskShelf(d).Keys == Elements(d.order)
    requires saved <= ToSave(d) && Found(d, now, saved) && Complete(now, RebuiltKeymap(d.order, DiskShelf(d)))
    ensures saved == ToSave(d)
  {
    hide DiskShelf, ScannedKeymap;
    var before, km := DiskShelf(d), RebuiltKeymap(d.order, DiskShelf(d));
    forall g | g in before && g !in saved ensures g !in ToSave(d) {
      forall x: nat | x < |before[g].docs| && x !in before[g].dead ensures x !in Superseded(before, km, g) {
        IsNamed(now, km, Loc(g, x));
      }
      assert before[g].dead + Superseded(before, km, g) == before[g].dead;
    }
  }

  /**
   After a crash inside the rebuild of a lost log, the next open() is right about the keymap
   exactly when no record was left to write, and consistent exactly when, on top of that, every
   changed segment's tombstones had been saved.
   */
  lemma InterruptedLogRebuild(d: Disk, end: Place, saved: set<nat>, policy: Policy)
    requires CanInterrupt(d, end, saved) && !d.marker && d.log.None? && d.order != []
    ensures var e := Interrupted(d, end, saved);
            && Openable(e)
            && (Opened(e, policy).keymap == Opened(d, policy).keymap <==> !RecordsLeft(d.order, DiskShelf(d), end))
            && (Consistent(Opened(e, policy)) <==>
                  !RecordsLeft(d.order, DiskShelf(d), end) && saved == ToSave(d))
  {
    var e, km := Interrupted(d, end, saved), ScannedKeymap(d.order, DiskShelf(d), end);
    CoherentWhenWritten(d, end, saved);
    ScannedAll(d.order, DiskShelf(d), end);
    ScannedNames(d.order, DiskShelf(d), end);
    InterruptedIsStored(d, end, saved);
    hide CanInterrupt, RecordsLeft, ToSave, ScannedKeymap, DiskShelf, Coherent;
    OpensAsFound(e, km, policy);
  }

  lemma ScannedNames(order: seq<nat>, shelf: Shelf, end: Place)
    requires Stocked(order, shelf) && Reached(order, shelf, end)
    ensures Retain(ScannedKeymap(order, shelf, end), set g | g in order) == ScannedKeymap(order, shelf, end)
  {
  }

  lemma InterruptedIsStored(d: Disk, end: Place, saved: set<nat>)
    requires CanInterrupt(d, end, saved)
    ensures Openable(Interrupted(d, end, saved)) && WellStored(DiskShelf(Interrupted(d, end, saved)))
  {
    var e, after := Interrupted(d, end, saved), RebuiltShelf(d.order, DiskShelf(d));
    DiskShelfIsStocked(d);
    ShelfFound(d, end, saved);
    hide DiskShelf, RebuiltShelf, SavedDels, Coherent;
    RebuiltIsCoherent(d.order, DiskShelf(d));
    forall g | g in DiskShelf(e) ensures WellKept(DiskShelf(e)[g]) {
      assert WellKept(DiskShelf(d)[g]) && WellKept(after[g]) && after[g].docs == DiskShelf(d)[g].docs by {
        InterruptedShelf(d, end, saved, g);
      }
    }
  }

  /** A log that is there is trusted. */
  lemma OpensAsFound(e: Disk, km: Keymap, policy: Policy)
    requires Openable(e) && !e.marker && e.log == Some(km) && WellStored(DiskShelf(e))
    requires Retain(km, set g | g in e.order) == km
    ensures Opened(e, policy).keymap == km
    ensures Consistent(Opened(e, policy)) <==> Coherent(DiskShelf(e), km)
  {
    var ix, s := Opened(e, policy), DiskShelf(e);
    OpenedShape(e, policy);
    OpenedIsMirrored(e, policy);
    EmptyKeeps(s, km, ix.writer);
    if Consistent(ix) {
      EmptyHidesNoStray(s, km, ix.writer);
      forall k | k in km ensures Alive(s, km[k]) && EntryAt(s, km[k]).key == k {
        EmptyAt(s, ix.writer, km[k]);
      }
    }
  }

  const TWICE := Disk(2, [1], map[1 := [Entry("k", Document("old", 1)), Entry("k", Document("new", 1))]], map[], None, [], false)

  /**
   One segment with two copies of a key.  When every record was written, but not the
   tombstones, the next open() has the keymap right, and both copies live.
   */
  lemma DuplicateStays(policy: Policy)
    ensures Openable(TWICE) && Stocked(TWICE.order, DiskShelf(TWICE)) && CanInterrupt(TWICE, Place(1, 0), {})
    ensures var e := Interrupted(TWICE, Place(1, 0), {});
            && Openable(e) && Opened(e, policy).keymap == Opened(TWICE, policy).keymap
            && Alive(Opened(e, policy).shelf, Loc(1, 0)) && Alive(Opened(e, policy).shelf, Loc(1, 1))
            && !Consistent(Opened(e, policy))
  {
    TwiceIsStored();
    hide ValidKey, ScannedKeymap, RebuiltShelf, CanInterrupt, Stocked, Reached, DiskShelf, Opened, Consistent, ToSave;
    var e := Interrupted(TWICE, Place(1, 0), {});
    InterruptedLogRebuild(TWICE, Place(1, 0), {}, policy);
    NoneAtTheEnd(TWICE.order, DiskShelf(TWICE));
    InterruptedShelf(TWICE, Place(1, 0), {}, 1);
    TrustedShelf(e, policy);
    BothAlive(Opened(e, policy));
  }

  lemma TwiceIsStored()
    ensures Openable(TWICE) && Stocked(TWICE.order, DiskShelf(TWICE)) && CanInterrupt(TWICE, Place(1, 0), {})
    ensures DiskShelf(TWICE) == map[1 := Volume(TWICE.files[1], {})]
  {
    assert ValidKey("k") && TWICE.order[0] == 1;
    assert DiskShelf(TWICE) == map[1 := Volume(TWICE.files[1], {})];
  }

  lemma TrustedShelf(e: Disk, policy: Policy)
    requires Openable(e) && !e.marker && e.log.Some? && 1 in e.order
    ensures 1 in DiskShelf(e) && 1 in Opened(e, policy).shelf && Opened(e, policy).shelf[1] == DiskShelf(e)[1]
  {
    OpenedShape(e, policy);
    DiskShelfIsStocked(e);
  }

  lemma BothAlive(ix: Index)
    requires Alive(ix.shelf, Loc(1, 0)) && Alive(ix.shelf, Loc(1, 1))
    requires EntryAt(ix.shelf, Loc(1, 0)).key == EntryAt(ix.shelf, Loc(1, 1)).key
    ensures !Consistent(ix)
  {
    assert !(Named(ix.shelf, ix.keymap, Loc(1, 0)) && Named(ix.shelf, ix.keymap, Loc(1, 1)));
  }
}
