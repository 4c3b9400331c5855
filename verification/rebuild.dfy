/**
 rebuild_keymap(): reconstructing the keymap from the filenames the segments store.

 The specification says which document wins a key -- the newest, walking the
 segments in manifest order and docids upwards -- and that every other live copy is
 tombstoned.
 */
module Rebuild {
  import opened Sequences
  import opened SegmentModel

  ghost predicate Stocked(order: seq<nat>, shelf: Shelf) {
    forall i :: 0 <= i < |order| ==> order[i] in shelf
  }

  /** A document's place in the scan: its segment's manifest position, and its docid. */
  datatype Place = Place(segment: nat, docid: nat)

  predicate Before(a: Place, b: Place) {
    a.segment < b.segment || (a.segment == b.segment && a.docid < b.docid)
  }

  predicate Holds(order: seq<nat>, shelf: Shelf, p: Place, k: Key) {
    && p.segment < |order|
    && Alive(shelf, Loc(order[p.segment], p.docid))
    && EntryAt(shelf, Loc(order[p.segment], p.docid)).key == k
  }

  /** The last place before `end` that holds a live copy of k. */
  function NewestBefore(order: seq<nat>, shelf: Shelf, k: Key, end: Place): (r: Option<Place>)
    requires Stocked(order, shelf)
    requires end.segment <= |order|
    requires end.docid == 0 || (end.segment < |order| && end.docid <= |shelf[order[end.segment]].docs|)
    ensures r.Some? ==> Before(r.value, end) && Holds(order, shelf, r.value, k)
    ensures forall p: Place :: Before(p, end) && Holds(order, shelf, p, k) ==>
              r.Some? && (p == r.value || Before(p, r.value))
    decreases end.segment, end.docid
  {
    if end.docid > 0 then
      var p := Place(end.segment, end.docid - 1);
      if Holds(order, shelf, p, k) then Some(p) else NewestBefore(order, shelf, k, p)
    else if end.segment > 0 then
      var s := end.segment - 1;
      NewestBefore(order, shelf, k, Place(s, |shelf[order[s]].docs|))
    else None
  }

  function Newest(order: seq<nat>, shelf: Shelf, k: Key): Option<Place>
    requires Stocked(order, shelf)
  {
    NewestBefore(order, shelf, k, Place(|order|, 0))
  }

  function LocAt(order: seq<nat>, p: Place): Loc
    requires p.segment < |order|
  {
    Loc(order[p.segment], p.docid)
  }

  function KeysOf(shelf: Shelf): (r: set<Key>)
    ensures forall g, d :: g in shelf && 0 <= d < |shelf[g].docs| ==> shelf[g].docs[d].key in r
  {
    set g, d | g in shelf && 0 <= d < |shelf[g].docs| :: shelf[g].docs[d].key
  }

  /** The keymap after the scan has passed every place before `end`. */
  function ScannedKeymap(order: seq<nat>, shelf: Shelf, end: Place): (r: Keymap)
    requires Stocked(order, shelf)
    requires end.segment <= |order|
    requires end.docid == 0 || (end.segment < |order| && end.docid <= |shelf[order[end.segment]].docs|)
  {
    map k | k in KeysOf(shelf) && ValidKey(k) && NewestBefore(order, shelf, k, end).Some? ::
      LocAt(order, NewestBefore(order, shelf, k, end).value)
  }

  /** The docids of generation g whose key is mapped, by km, to another copy. */
  function Superseded(shelf: Shelf, km: Keymap, g: nat): (r: set<nat>)
    requires g in shelf
  {
    set d | 0 <= d < |shelf[g].docs| && d !in shelf[g].dead &&
            shelf[g].docs[d].key in km && km[shelf[g].docs[d].key] != Loc(g, d)
  }

  function RebuiltKeymap(order: seq<nat>, shelf: Shelf): Keymap
    requires Stocked(order, shelf)
  {
    ScannedKeymap(order, shelf, Place(|order|, 0))
  }

  function RebuiltShelf(order: seq<nat>, shelf: Shelf): Shelf
    requires Stocked(order, shelf)
  {
    map g | g in shelf ::
      shelf[g].(dead := shelf[g].dead + Superseded(shelf, RebuiltKeymap(order, shelf), g))
  }

  /**
   Every usable key with a live copy is mapped to the newest one; exactly the other
   live copies are tombstoned; nothing else changes.
   */
  lemma NewestCopyWins(order: seq<nat>, shelf: Shelf, p: Place, k: Key)
    requires Distinct(order) && Stocked(order, shelf)
    requires Holds(order, shelf, p, k) && ValidKey(k)
    ensures k in RebuiltKeymap(order, shelf)
    ensures var km := RebuiltKeymap(order, shelf);
            exists q: Place :: Holds(order, shelf, q, k) && km[k] == LocAt(order, q) && (p == q || Before(p, q))
    ensures Alive(RebuiltShelf(order, shelf), LocAt(order, p)) <==>
              RebuiltKeymap(order, shelf)[k] == LocAt(order, p)
  {
    var loc := LocAt(order, p);
    assert shelf[loc.generation].docs[loc.docid].key == k;
    var q := Newest(order, shelf, k).value;
    assert Before(p, Place(|order|, 0));
    assert Holds(order, shelf, q, k);
  }

  /**
   In segments and docids: the copy that is mapped is live, and no live copy of its key lies in
   a later segment of the manifest, or in the same one under a higher docid.
   */
  lemma NewestIs(order: seq<nat>, shelf: Shelf, k: Key)
    requires Distinct(order) && Stocked(order, shelf)
    ensures var km := RebuiltKeymap(order, shelf);
            && (k in km ==> km[k].generation in order && Alive(shelf, km[k]) && EntryAt(shelf, km[k]).key == k)
            && (k in km ==> forall i: nat, j: nat, d: nat ::
                  i < |order| && j < |order| && order[i] == km[k].generation
                  && Alive(shelf, Loc(order[j], d)) && EntryAt(shelf, Loc(order[j], d)).key == k ==>
                    j < i || (j == i && d <= km[k].docid))
            && (k !in km && ValidKey(k) ==> forall j: nat, d: nat ::
                  j < |order| && Alive(shelf, Loc(order[j], d)) ==> EntryAt(shelf, Loc(order[j], d)).key != k)
  {
    var km := RebuiltKeymap(order, shelf);
    if k in km {
      var q := Newest(order, shelf, k).value;
      assert Holds(order, shelf, q, k) && km[k] == LocAt(order, q);
      forall i: nat, j: nat, d: nat | i < |order| && j < |order| && order[i] == km[k].generation
        && Alive(shelf, Loc(order[j], d)) && EntryAt(shelf, Loc(order[j], d)).key == k
        ensures j < i || (j == i && d <= km[k].docid)
      {
        assert Holds(order, shelf, Place(j, d), k) && Before(Place(j, d), Place(|order|, 0));
        assert i == q.segment;
      }
    } else if ValidKey(k) {
      forall j: nat, d: nat | j < |order| && Alive(shelf, Loc(order[j], d)) ensures EntryAt(shelf, Loc(order[j], d)).key != k {
        if EntryAt(shelf, Loc(order[j], d)).key == k {
          assert Holds(order, shelf, Place(j, d), k);
          NewestCopyWins(order, shelf, Place(j, d), k);
        }
      }
    }
  }

  /** A successful rebuild is coherent, whatever duplicates it started from. */
  lemma RebuiltIsCoherent(order: seq<nat>, shelf: Shelf)
    requires Distinct(order) && Stocked(order, shelf)
    requires shelf.Keys == Elements(order) && WellStored(shelf)
    ensures Coherent(RebuiltShelf(order, shelf), RebuiltKeymap(order, shelf))
    ensures WellStored(RebuiltShelf(order, shelf))
  {
    var s, km := RebuiltShelf(order, shelf), RebuiltKeymap(order, shelf);
    forall k | k in km ensures Alive(s, km[k]) && EntryAt(s, km[k]).key == k {
      var q := Newest(order, shelf, k).value;
      assert Holds(order, shelf, q, k);
    }
    forall loc: Loc | Alive(s, loc) ensures Named(s, km, loc) {
      var i :| 0 <= i < |order| && order[i] == loc.generation;
      NewestCopyWins(order, shelf, Place(i, loc.docid), EntryAt(s, loc).key);
    }
  }

  /** With no duplicates at entry the rebuild reproduces the keymap and tombstones nothing. */
  lemma RebuildReproduces(order: seq<nat>, shelf: Shelf, km: Keymap)
    requires Distinct(order) && Stocked(order, shelf)
    requires shelf.Keys == Elements(order) && WellStored(shelf)
    requires Coherent(shelf, km)
    ensures RebuiltKeymap(order, shelf) == km
    ensures RebuiltShelf(order, shelf) == shelf
  {
    var m := RebuiltKeymap(order, shelf);
    forall k | k in m ensures k in km && km[k] == m[k] {
      assert Holds(order, shelf, Newest(order, shelf, k).value, k);
      assert Alive(shelf, m[k]);
    }
    forall k | k in km ensures k in m {
      assert Alive(shelf, km[k]);
      var i :| 0 <= i < |order| && order[i] == km[k].generation;
      NewestCopyWins(order, shelf, Place(i, km[k].docid), k);
    }
    assert m == km;
    forall g | g in shelf ensures RebuiltShelf(order, shelf)[g] == shelf[g] {
      forall d | d in Superseded(shelf, m, g) ensures false {
        assert Alive(shelf, Loc(g, d));
      }
      assert shelf[g].dead + Superseded(shelf, m, g) == shelf[g].dead;
    }
  }

  /** Tombstones a later rebuild would raise anyway. */
  ghost predicate PartlyRebuilt(order: seq<nat>, shelf: Shelf, partial: Shelf)
    requires Stocked(order, shelf)
  {
    && partial.Keys == shelf.Keys
    && forall g :: g in shelf ==>
         && partial[g].docs == shelf[g].docs
         && shelf[g].dead <= partial[g].dead <= RebuiltShelf(order, shelf)[g].dead
  }

  lemma WinnerIs(order: seq<nat>, shelf: Shelf, k: Key, p: Place)
    requires Stocked(order, shelf) && Holds(order, shelf, p, k)
    requires forall q: Place :: Holds(order, shelf, q, k) ==> q == p || Before(q, p)
    ensures Newest(order, shelf, k) == Some(p)
  {
    assert Before(p, Place(|order|, 0));
  }

  lemma WinnerSurvives(order: seq<nat>, shelf: Shelf, partial: Shelf, k: Key)
    requires Distinct(order) && Stocked(order, shelf)
    requires shelf.Keys == Elements(order) && ValidKey(k)
    requires PartlyRebuilt(order, shelf, partial)
    ensures Newest(order, partial, k) == Newest(order, shelf, k)
  {
    var a := Newest(order, shelf, k);
    if a.Some? {
      var loc := LocAt(order, a.value);
      NewestCopyWins(order, shelf, a.value, k);
      assert Alive(partial, loc) by {
        assert Alive(RebuiltShelf(order, shelf), loc) by {
          var q: Place :| Holds(order, shelf, q, k) && RebuiltKeymap(order, shelf)[k] == LocAt(order, q) && (a.value == q || Before(a.value, q));
        }
      }
      forall q: Place | Holds(order, partial, q, k) ensures q == a.value || Before(q, a.value) {
        assert Holds(order, shelf, q, k);
        assert Before(q, Place(|order|, 0));
      }
      WinnerIs(order, partial, k, a.value);
    }
    NothingNewIsHeld(order, shelf, partial, k);
  }

  lemma NothingNewIsHeld(order: seq<nat>, shelf: Shelf, partial: Shelf, k: Key)
    requires Stocked(order, shelf) && PartlyRebuilt(order, shelf, partial)
    ensures Newest(order, partial, k).Some? ==> Newest(order, shelf, k).Some?
  {
    var b := Newest(order, partial, k);
    if b.Some? {
      assert Holds(order, shelf, b.value, k);
      assert Before(b.value, Place(|order|, 0));
    }
  }

  lemma KeysOfPartial(order: seq<nat>, shelf: Shelf, partial: Shelf)
    requires Stocked(order, shelf) && PartlyRebuilt(order, shelf, partial)
    ensures KeysOf(partial) == KeysOf(shelf)
  {
  }

  /**
   A rebuild that was itself interrupted, after saving any of the tombstones it
   raises, is completed by the next rebuild with the same outcome.
   */
  lemma InterruptedRebuildResumes(order: seq<nat>, shelf: Shelf, partial: Shelf)
    requires Distinct(order) && Stocked(order, shelf)
    requires shelf.Keys == Elements(order)
    requires PartlyRebuilt(order, shelf, partial)
    ensures RebuiltKeymap(order, partial) == RebuiltKeymap(order, shelf)
    ensures RebuiltShelf(order, partial) == RebuiltShelf(order, shelf)
  {
    KeysOfPartial(order, shelf, partial);
    forall k | ValidKey(k) ensures Newest(order, partial, k) == Newest(order, shelf, k) {
      WinnerSurvives(order, shelf, partial, k);
    }
    assert RebuiltKeymap(order, partial) == RebuiltKeymap(order, shelf);
    SameSuperseded(order, shelf, partial);
  }

  lemma SameSuperseded(order: seq<nat>, shelf: Shelf, partial: Shelf)
    requires Stocked(order, shelf) && PartlyRebuilt(order, shelf, partial)
    requires RebuiltKeymap(order, partial) == RebuiltKeymap(order, shelf)
    ensures RebuiltShelf(order, partial) == RebuiltShelf(order, shelf)
  {
    hide ScannedKeymap, RebuiltKeymap;
    var km := RebuiltKeymap(order, shelf);
    forall g | g in shelf
      ensures partial[g].dead + Superseded(partial, km, g) == shelf[g].dead + Superseded(shelf, km, g)
    {
      assert RebuiltShelf(order, shelf)[g].dead == shelf[g].dead + Superseded(shelf, km, g);
      assert Superseded(partial, km, g) <= Superseded(shelf, km, g);
      assert Superseded(shelf, km, g) <= partial[g].dead + Superseded(partial, km, g);
    }
  }
}
