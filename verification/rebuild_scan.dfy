/** How the scan of rebuild_keymap() maintains what Rebuild specifies, a document at a time. */
module RebuildScan {
  import opened Sequences
  import opened SegmentModel
  import opened Rebuild

  /** A place the scan can have reached. */
  predicate Reached(order: seq<nat>, shelf: Shelf, end: Place)
    requires Stocked(order, shelf)
  {
    && end.segment <= |order|
    && (end.docid == 0 || (end.segment < |order| && end.docid <= |shelf[order[end.segment]].docs|))
  }

  /** The live copies before `end`, in the i-th segment, that km maps elsewhere. */
  function Passed(order: seq<nat>, shelf: Shelf, km: Keymap, i: nat, end: Place): (r: set<nat>)
    requires Stocked(order, shelf) && i < |order|
  {
    set d | 0 <= d < |shelf[order[i]].docs| && d !in shelf[order[i]].dead && Before(Place(i, d), end) &&
            shelf[order[i]].docs[d].key in km && km[shelf[order[i]].docs[d].key] != Loc(order[i], d)
  }

  /** The i-th segment once the scan of `before` has reached `end`. */
  function ScannedVolume(order: seq<nat>, before: Shelf, km: Keymap, i: nat, end: Place): Volume
    requires Stocked(order, before) && i < |order|
  {
    before[order[i]].(dead := before[order[i]].dead + Passed(order, before, km, i, end))
  }

  /** What the scan has made of the shelf `before` when it reaches `end`. */
  ghost predicate Scanned(order: seq<nat>, before: Shelf, end: Place, shelf: Shelf, km: Keymap)
    requires Stocked(order, before) && Reached(order, before, end)
  {
    && km == ScannedKeymap(order, before, end)
    && shelf.Keys == before.Keys
    && Stocked(order, shelf)
    && forall i: nat :: i < |order| ==> shelf[order[i]] == ScannedVolume(order, before, km, i, end)
  }

  lemma ScanStarts(order: seq<nat>, before: Shelf)
    requires Stocked(order, before)
    ensures Scanned(order, before, Place(0, 0), before, map[])
  {
    assert ScannedKeymap(order, before, Place(0, 0)) == map[];
    forall i: nat | i < |order| ensures before[order[i]] == ScannedVolume(order, before, map[], i, Place(0, 0)) {
      assert Passed(order, before, map[], i, Place(0, 0)) == {};
    }
  }

  lemma ScanPassesSegment(order: seq<nat>, before: Shelf, w: nat, shelf: Shelf, km: Keymap)
    requires Stocked(order, before) && w < |order|
    requires Scanned(order, before, Place(w, |before[order[w]].docs|), shelf, km)
    ensures Scanned(order, before, Place(w + 1, 0), shelf, km)
  {
    hide ScannedKeymap, Passed, Before;
    KeymapAfterSegment(order, before, w);
    forall i: nat | i < |order| {
      PassedAfterSegment(order, before, km, i, w);
    }
  }

  lemma KeymapAfterSegment(order: seq<nat>, before: Shelf, w: nat)
    requires Stocked(order, before) && w < |order|
    ensures ScannedKeymap(order, before, Place(w + 1, 0))
         == ScannedKeymap(order, before, Place(w, |before[order[w]].docs|))
  {
  }

  lemma PassedAfterSegment(order: seq<nat>, before: Shelf, km: Keymap, i: nat, w: nat)
    requires Stocked(order, before) && w < |order| && i < |order|
    ensures Passed(order, before, km, i, Place(w + 1, 0)) == Passed(order, before, km, i, Place(w, |before[order[w]].docs|))
  {
  }

  /** A document that is dead already, or whose key the keymap refuses, changes nothing. */
  lemma ScanSkips(order: seq<nat>, before: Shelf, w: nat, d: nat, shelf: Shelf, km: Keymap)
    requires Distinct(order) && Stocked(order, before) && w < |order| && d < |before[order[w]].docs|
    requires Scanned(order, before, Place(w, d), shelf, km)
    requires d in before[order[w]].dead || !ValidKey(before[order[w]].docs[d].key)
    ensures Scanned(order, before, Place(w, d + 1), shelf, km)
  {
    hide Passed, Before, NewestBefore;
    KeymapAfterSkip(order, before, w, d);
    forall i: nat | i < |order| {
      PassedAfterSkip(order, before, w, d, km, i);
    }
  }

  lemma PassedAfterSkip(order: seq<nat>, before: Shelf, w: nat, d: nat, km: Keymap, i: nat)
    requires Distinct(order) && Stocked(order, before) && w < |order| && d < |before[order[w]].docs| && i < |order|
    requires d in before[order[w]].dead || !ValidKey(before[order[w]].docs[d].key)
    requires km == ScannedKeymap(order, before, Place(w, d))
    ensures Passed(order, before, km, i, Place(w, d + 1)) == Passed(order, before, km, i, Place(w, d))
  {
  }

  lemma KeymapAfterSkip(order: seq<nat>, before: Shelf, w: nat, d: nat)
    requires Stocked(order, before) && w < |order| && d < |before[order[w]].docs|
    requires d in before[order[w]].dead || !ValidKey(before[order[w]].docs[d].key)
    ensures ScannedKeymap(order, before, Place(w, d + 1)) == ScannedKeymap(order, before, Place(w, d))
  {
    forall k | ValidKey(k)
      ensures NewestBefore(order, before, k, Place(w, d + 1)) == NewestBefore(order, before, k, Place(w, d))
    {
    }
  }

  lemma KeymapAfterCopy(order: seq<nat>, before: Shelf, w: nat, d: nat)
    requires Stocked(order, before) && w < |order| && d < |before[order[w]].docs|
    requires d !in before[order[w]].dead && ValidKey(before[order[w]].docs[d].key)
    ensures ScannedKeymap(order, before, Place(w, d + 1))
         == ScannedKeymap(order, before, Place(w, d))[before[order[w]].docs[d].key := Loc(order[w], d)]
  {
    var key := before[order[w]].docs[d].key;
    forall k | ValidKey(k)
      ensures NewestBefore(order, before, k, Place(w, d + 1))
           == if k == key then Some(Place(w, d)) else NewestBefore(order, before, k, Place(w, d))
    {
    }
  }

  /** The entry the scan has so far for a key names a live copy it has passed. */
  lemma EntryWasPassed(order: seq<nat>, before: Shelf, end: Place, k: Key)
    requires Stocked(order, before) && Reached(order, before, end)
    requires k in ScannedKeymap(order, before, end)
    ensures var q := NewestBefore(order, before, k, end).value;
            && Before(q, end) && Holds(order, before, q, k)
            && ScannedKeymap(order, before, end)[k] == LocAt(order, q)
    ensures ScannedKeymap(order, before, end)[k].generation in order
  {
  }

  /** Recording a copy retires exactly the copy its key was mapped to. */
  lemma PassedAfterCopy(order: seq<nat>, before: Shelf, w: nat, d: nat, km: Keymap, i: nat)
    requires Distinct(order) && Stocked(order, before) && w < |order| && d < |before[order[w]].docs| && i < |order|
    requires km == ScannedKeymap(order, before, Place(w, d))
    requires d !in before[order[w]].dead && ValidKey(before[order[w]].docs[d].key)
    ensures var key := before[order[w]].docs[d].key;
            Passed(order, before, km[key := Loc(order[w], d)], i, Place(w, d + 1))
              == Passed(order, before, km, i, Place(w, d))
                 + if key in km && km[key].generation == order[i] then {km[key].docid} else {}
  {
    var key := before[order[w]].docs[d].key;
    var a, b := Passed(order, before, km, i, Place(w, d)), Passed(order, before, km[key := Loc(order[w], d)], i, Place(w, d + 1));
    if key in km {
      EntryWasPassed(order, before, Place(w, d), key);
    }
    forall x: nat | x < |before[order[i]].docs| && x !in before[order[i]].dead
      ensures x in b <==> x in a || (key in km && km[key] == Loc(order[i], x))
    {
      var k := before[order[i]].docs[x].key;
      if Before(Place(i, x), Place(w, d)) && ValidKey(k) {
        assert Holds(order, before, Place(i, x), k);
        assert NewestBefore(order, before, k, Place(w, d)).Some?;
      }
    }
  }

  lemma ScanRecords(order: seq<nat>, before: Shelf, w: nat, d: nat, shelf: Shelf, km: Keymap)
    requires Distinct(order) && Stocked(order, before) && w < |order| && d < |before[order[w]].docs|
    requires Scanned(order, before, Place(w, d), shelf, km)
    requires d !in before[order[w]].dead && ValidKey(before[order[w]].docs[d].key)
    ensures var key := before[order[w]].docs[d].key;
            && (key in km ==> km[key].generation in order)
            && Scanned(order, before, Place(w, d + 1),
                       if key in km then Kill(shelf, km[key]) else shelf, km[key := Loc(order[w], d)])
  {
    hide ScannedKeymap, Passed, NewestBefore, ValidKey, Holds;
    var key := before[order[w]].docs[d].key;
    KeymapAfterCopy(order, before, w, d);
    if key in km {
      EntryWasPassed(order, before, Place(w, d), key);
      assert km[key].generation in order;
    }
    var after := if key in km then Kill(shelf, km[key]) else shelf;
    forall i: nat | i < |order|
      ensures after[order[i]] == ScannedVolume(order, before, km[key := Loc(order[w], d)], i, Place(w, d + 1))
    {
      PassedAfterCopy(order, before, w, d, km, i);
      assert shelf[order[i]] == ScannedVolume(order, before, km, i, Place(w, d));
      if key in km {
        KilledVolume(shelf, km[key], order[i]);
      }
    }
  }

  lemma KilledVolume(shelf: Shelf, victim: Loc, g: nat)
    requires g in shelf
    ensures g in Kill(shelf, victim)
    ensures Kill(shelf, victim)[g] ==
              if g == victim.generation then shelf[g].(dead := shelf[g].dead + {victim.docid}) else shelf[g]
  {
  }

  /** The scan does not look at what it tombstones itself. */
  lemma AheadIsUntouched(order: seq<nat>, before: Shelf, w: nat, d: nat, shelf: Shelf, km: Keymap)
    requires Stocked(order, before) && w < |order| && d < |before[order[w]].docs|
    requires Scanned(order, before, Place(w, d), shelf, km)
    ensures d in shelf[order[w]].dead <==> d in before[order[w]].dead
    ensures shelf[order[w]].docs == before[order[w]].docs
  {
    assert shelf[order[w]] == ScannedVolume(order, before, km, w, Place(w, d));
  }

  lemma ScanEnds(order: seq<nat>, before: Shelf, shelf: Shelf, km: Keymap)
    requires Distinct(order) && Stocked(order, before) && before.Keys == Elements(order)
    requires Scanned(order, before, Place(|order|, 0), shelf, km)
    ensures km == RebuiltKeymap(order, before) && shelf == RebuiltShelf(order, before)
  {
    hide Passed, Superseded, ScannedKeymap, Stocked;
    var rebuilt := RebuiltShelf(order, before);
    forall g | g in before ensures shelf[g] == rebuilt[g] {
      var i: nat :| i < |order| && order[i] == g;
      PassedAtTheEnd(order, before, km, i);
      assert shelf[order[i]] == ScannedVolume(order, before, km, i, Place(|order|, 0));
    }
  }

  lemma PassedAtTheEnd(order: seq<nat>, before: Shelf, km: Keymap, i: nat)
    requires Stocked(order, before) && i < |order|
    ensures Passed(order, before, km, i, Place(|order|, 0)) == Superseded(before, km, order[i])
  {
  }

  // ------------------------------------------------------------- dirty segments

  /** The segments whose tombstones differ from what was loaded. */
  function Changed(order: seq<nat>, before: Shelf, shelf: Shelf): (r: set<nat>)
    requires Stocked(order, before) && Stocked(order, shelf)
  {
    set i | 0 <= i < |order| && shelf[order[i]].dead != before[order[i]].dead :: order[i]
  }

  lemma ScanChanges(order: seq<nat>, before: Shelf, w: nat, d: nat, shelf: Shelf, km: Keymap)
    requires Distinct(order) && Stocked(order, before) && w < |order| && d < |before[order[w]].docs|
    requires Scanned(order, before, Place(w, d), shelf, km)
    requires d !in before[order[w]].dead && before[order[w]].docs[d].key in km
    ensures var victim := km[before[order[w]].docs[d].key];
            && Stocked(order, Kill(shelf, victim))
            && Changed(order, before, Kill(shelf, victim)) == Changed(order, before, shelf) + {victim.generation}
  {
    var key := before[order[w]].docs[d].key;
    var victim := km[key];
    EntryWasPassed(order, before, Place(w, d), key);
    var q := NewestBefore(order, before, key, Place(w, d)).value;
    assert victim == LocAt(order, q) && victim.docid !in before[victim.generation].dead;
    hide ScannedKeymap, Scanned, NewestBefore, Holds;
    forall i | 0 <= i < |order|
      ensures order[i] in Kill(shelf, victim)
      ensures Kill(shelf, victim)[order[i]].dead != before[order[i]].dead <==>
                shelf[order[i]].dead != before[order[i]].dead || order[i] == victim.generation
    {
      KilledVolume(shelf, victim, order[i]);
    }
    assert victim.generation == order[q.segment];
  }

  /** The .del files after the changed ones were saved. */
  function SavedDels(dels: map<nat, set<nat>>, shelf: Shelf, saved: set<nat>): (r: map<nat, set<nat>>) {
    map g | g in dels.Keys + saved :: if g in saved && g in shelf then shelf[g].dead else if g in dels then dels[g] else {}
  }

  lemma ScannedDocs(order: seq<nat>, before: Shelf, end: Place, shelf: Shelf, km: Keymap, w: nat)
    requires Stocked(order, before) && Reached(order, before, end) && w < |order|
    requires Scanned(order, before, end, shelf, km)
    ensures Stocked(order, shelf) && shelf[order[w]].docs == before[order[w]].docs
  {
    assert shelf[order[w]] == ScannedVolume(order, before, km, w, end);
  }

  /** Directories in which only some of the changed segments' tombstones were saved. */
  ghost predicate Saving(d: Disk, shelf: Shelf, dirty: set<nat>, passed: seq<Disk>) {
    forall i :: 0 <= i < |passed| ==> exists saved ::
      saved <= dirty && passed[i] == d.(dels := SavedDels(d.dels, shelf, saved))
  }

  lemma SavingStarts(d: Disk, shelf: Shelf, dirty: set<nat>)
    ensures Saving(d, shelf, dirty, [])
    ensures d == d.(dels := SavedDels(d.dels, shelf, {}))
  {
  }

  lemma SavingGrows(d: Disk, shelf: Shelf, dirty: set<nat>, passed: seq<Disk>, saved: set<nat>)
    requires Saving(d, shelf, dirty, passed) && saved <= dirty
    ensures Saving(d, shelf, dirty, passed + [d.(dels := SavedDels(d.dels, shelf, saved))])
  {
    hide SavedDels;
    var more := passed + [d.(dels := SavedDels(d.dels, shelf, saved))];
    forall i | 0 <= i < |more|
      ensures exists saved :: saved <= dirty && more[i] == d.(dels := SavedDels(d.dels, shelf, saved))
    {
      if i < |passed| {
        assert more[i] == passed[i];
      }
    }
  }

  lemma SavedNext(dels: map<nat, set<nat>>, shelf: Shelf, saved: set<nat>, g: nat)
    requires g in shelf
    ensures SavedDels(dels, shelf, saved)[g := shelf[g].dead] == SavedDels(dels, shelf, saved + {g})
    ensures SavedDels(dels, shelf, {}) == dels
  {
  }

  lemma RebuiltIsStocked(order: seq<nat>, shelf: Shelf)
    requires Stocked(order, shelf)
    ensures Stocked(order, RebuiltShelf(order, shelf))
  {
  }

  lemma ChangedAreListed(order: seq<nat>, before: Shelf, shelf: Shelf)
    requires Stocked(order, before) && Stocked(order, shelf)
    ensures Changed(order, before, shelf) <= Elements(order)
  {
  }

  lemma ElementsNext(s: seq<nat>, n: nat)
    requires n < |s| && Distinct(s)
    ensures Elements(s[..n + 1]) == Elements(s[..n]) + {s[n]} && s[n] !in Elements(s[..n])
  {
  }

  lemma ElementsAll(s: seq<nat>)
    ensures Elements(s[..0]) == {} && s[..|s|] == s
  {
  }
}
