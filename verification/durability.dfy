/**
 Durable mode: the write-ahead log replayed over a recovered directory gives back
 every completed operation.
 */
module Durability {
  import opened Sequences
  import opened SegmentModel
  import opened Shelves
  import opened Operations
  import opened Mutations
  import opened Compaction
  import opened Recovery

  /** What one record does to the key -> document map. */
  function Written(view: map<Key, Document>, r: WalRecord): map<Key, Document> {
    match r
    case Added(k, doc) => view[k := doc]
    case Updated(k, doc) => view[k := doc]
    case Deleted(k) => view - {k}
  }

  function Overlay(view: map<Key, Document>, wal: seq<WalRecord>): map<Key, Document> {
    if wal == [] then view
    else Written(Overlay(view, wal[..|wal| - 1]), wal[|wal| - 1])
  }

  /** The log only holds records of operations that succeeded. */
  ghost predicate Loggable(r: WalRecord) {
    ValidKey(r.key) && (!r.Deleted? ==> r.document.terms > 0)
  }

  ghost predicate WellLogged(wal: seq<WalRecord>) {
    forall i :: 0 <= i < |wal| ==> Loggable(wal[i])
  }

  /** No added key was present when, in log order, its record is reached. */
  ghost predicate AddsAreFresh(view: map<Key, Document>, wal: seq<WalRecord>) {
    forall i :: 0 <= i < |wal| && wal[i].Added? ==> wal[i].key !in Overlay(view, wal[..i])
  }

  // ------------------------------------------------------------------ replay

  /** One record, replayed through the public methods. */
  function Applied(ix: Index, r: WalRecord): (jx: Index)
    requires ix.writer in ix.shelf
    ensures jx.writer in jx.shelf
  {
    match r
    case Added(k, doc) => Add(ix, k, doc)
    case Updated(k, doc) => Update(ix, k, doc)
    case Deleted(k) => Delete(ix, k)
  }

  lemma AppliedWrites(ix: Index, r: WalRecord)
    requires Usable(ix) && Loggable(r)
    ensures Usable(Applied(ix, r))
    ensures Contents(Applied(ix, r)) == Written(Contents(ix), r)
    ensures Coherent(ix.shelf, ix.keymap) && !(r.Added? && r.key in Contents(ix)) ==> Consistent(Applied(ix, r))
  {
    ContentsKeys(ix);
    match r {
      case Added(k, doc) =>
        AddWrites(ix, k, doc);
        if Consistent(ix) { AddIsConsistent(ix, k, doc); }
      case Updated(k, doc) => UpdateWrites(ix, k, doc);
      case Deleted(k) => DeleteForgets(ix, k);
    }
  }

  lemma ContentsKeys(ix: Index)
    requires Sound(ix.shelf, ix.keymap)
    ensures Contents(ix).Keys == ix.keymap.Keys
  {
  }

  /** A live copy no entry names. */
  ghost predicate Stray(shelf: Shelf, km: Keymap, loc: Loc) {
    Alive(shelf, loc) && !Named(shelf, km, loc)
  }

  lemma StrayOutlivesAppend(shelf: Shelf, km: Keymap, g: nat, e: Entry, next: nat, stray: Loc)
    requires g in shelf && WellKept(shelf[g]) && next !in shelf && Stray(shelf, km, stray)
    ensures Stray(Append(shelf, g, e), km[e.key := End(shelf, g)], stray)
    ensures Stray(WithEmpty(Append(shelf, g, e), next), km[e.key := End(shelf, g)], stray)
  {
    AppendAt(shelf, g, e, stray);
    EmptyAt(Append(shelf, g, e), next, stray);
  }

  lemma StrayOutlivesKill(shelf: Shelf, km: Keymap, victim: Loc, stray: Loc)
    requires Stray(shelf, km, stray) && victim != stray
    ensures Stray(Kill(shelf, victim), km, stray)
  {
    KillAt(shelf, victim, stray);
  }

  lemma StrayOutlivesRemoval(shelf: Shelf, km: Keymap, k: Key, stray: Loc)
    requires Stray(shelf, km, stray)
    ensures Stray(shelf, km - {k}, stray)
  {
  }

  lemma NamedIsNoStray(shelf: Shelf, km: Keymap, k: Key, stray: Loc)
    requires Sound(shelf, km) && k in km && Stray(shelf, km, stray)
    ensures km[k] != stray
  {
    EntryIsLive(shelf, km, k);
  }

  /** The shelf after an add or update has stored its copy. */
  lemma StoringShape(ix: Index, k: Key, doc: Document)
    requires Structured(ix) && doc.terms > 0
    ensures var s := Append(ix.shelf, ix.writer, Entry(k, doc));
            && ix.next !in ix.shelf && WellKept(ix.shelf[ix.writer])
            && Add(ix, k, doc).shelf in {s, WithEmpty(s, ix.next)}
            && Superseding(ix, k, doc).shelf in {s, WithEmpty(s, ix.next)}
            && Add(ix, k, doc).keymap == Superseding(ix, k, doc).keymap == ix.keymap[k := End(ix.shelf, ix.writer)]
  {
  }

  lemma UpdateKills(ix: Index, k: Key, doc: Document)
    requires Usable(ix) && ValidKey(k) && k in ix.keymap
    ensures Tombstoned(Superseding(ix, k, doc), ix.keymap[k]).shelf == Kill(Superseding(ix, k, doc).shelf, ix.keymap[k])
  {
    assert ix.writer in ix.shelf;
    hide Structured, Mirrored, Sound, View, ValidKey, Superseding, Tombstoned;
    SupersedingWrites(ix, k, doc);
    SupersedingStrands(ix, k, doc);
    TombstonedIsStructured(Superseding(ix, k, doc), ix.keymap[k]);
  }

  lemma DeleteKills(ix: Index, k: Key)
    requires Usable(ix) && k in ix.keymap
    ensures Delete(ix, k).shelf == Kill(ix.shelf, ix.keymap[k]) && Delete(ix, k).keymap == ix.keymap - {k}
  {
    EntryIsLive(ix.shelf, ix.keymap, k);
    assert ix.keymap[k].generation in Elements(ix.order) + {ix.writer};
    hide WellStored, Mirrored, Sound;
    TombstonedIsStructured(ix, ix.keymap[k]);
    TombstonedKeymap(ix, ix.keymap[k]);
    hide Tombstoned, Logged, Kill, Structured;
    LoggedShelf(Forgotten(Tombstoned(ix, ix.keymap[k]), k), Deleted(k));
  }

  /** Such a copy is out of reach of every later add, update and delete. */
  lemma StrayPersists(ix: Index, r: WalRecord)
    requires Usable(ix) && Loggable(r) && !Complete(ix.shelf, ix.keymap)
    ensures !Complete(Applied(ix, r).shelf, Applied(ix, r).keymap)
  {
    var stray: Loc :| Alive(ix.shelf, stray) && !Named(ix.shelf, ix.keymap, stray);
    if r.Deleted? {
      StrayOutlivesDelete(ix, r.key, stray);
    } else {
      StrayOutlivesStoring(ix, r.key, r.document, stray);
    }
  }

  lemma StrayOutlivesStoring(ix: Index, k: Key, doc: Document, stray: Loc)
    requires Usable(ix) && ValidKey(k) && doc.terms > 0 && Stray(ix.shelf, ix.keymap, stray)
    ensures Stray(Add(ix, k, doc).shelf, Add(ix, k, doc).keymap, stray)
    ensures Stray(Update(ix, k, doc).shelf, Update(ix, k, doc).keymap, stray)
  {
    var sx := Superseding(ix, k, doc);
    StoringShape(ix, k, doc);
    if k in ix.keymap {
      NamedIsNoStray(ix.shelf, ix.keymap, k, stray);
      UpdateKills(ix, k, doc);
      TombstonedKeymap(sx, ix.keymap[k]);
    }
    assert Update(ix, k, doc) == if k in ix.keymap then Tombstoned(sx, ix.keymap[k]) else sx;
    hide Structured, Mirrored, Sound, WellKept, Stray, Append, WithEmpty, Kill, Add, Superseding, Update, Tombstoned, ValidKey;
    StrayOutlivesAppend(ix.shelf, ix.keymap, ix.writer, Entry(k, doc), ix.next, stray);
    if k in ix.keymap {
      StrayOutlivesKill(sx.shelf, sx.keymap, ix.keymap[k], stray);
    }
  }

  lemma StrayOutlivesDelete(ix: Index, k: Key, stray: Loc)
    requires Usable(ix) && ValidKey(k) && Stray(ix.shelf, ix.keymap, stray)
    ensures Stray(Delete(ix, k).shelf, Delete(ix, k).keymap, stray)
  {
    if k in ix.keymap {
      DeleteKills(ix, k);
      NamedIsNoStray(ix.shelf, ix.keymap, k, stray);
      hide Structured, Mirrored, Sound, Stray, Kill, Delete;
      StrayOutlivesKill(ix.shelf, ix.keymap, ix.keymap[k], stray);
      StrayOutlivesRemoval(Kill(ix.shelf, ix.keymap[k]), ix.keymap, k, stray);
    }
  }

  function Replayed(ix: Index, wal: seq<WalRecord>): (jx: Index)
    requires ix.writer in ix.shelf
    ensures jx.writer in jx.shelf
  {
    if wal == [] then ix
    else Applied(Replayed(ix, wal[..|wal| - 1]), wal[|wal| - 1])
  }

  /**
   Replaying the log overlays its records on whatever the directory recovered to, and
   leaves one live copy per key exactly when there was one before and no record adds a key
   that is present.
   */
  lemma {:induction false} ReplayOverlays(ix: Index, wal: seq<WalRecord>)
    requires Usable(ix) && WellLogged(wal)
    ensures Usable(Replayed(ix, wal))
    ensures Contents(Replayed(ix, wal)) == Overlay(Contents(ix), wal)
    ensures Consistent(Replayed(ix, wal)) <==> Consistent(ix) && AddsAreFresh(Contents(ix), wal)
  {
    if wal != [] {
      var n := |wal| - 1;
      var init, r := wal[..n], wal[n];
      ReplayOverlays(ix, init);
      var jx := Replayed(ix, init);
      AppliedWrites(jx, r);
      FreshnessSplits(Contents(ix), wal);
      hide Structured, Mirrored, Sound, View;
      if !Complete(jx.shelf, jx.keymap) {
        StrayPersists(jx, r);
      } else if r.Added? && r.key in Contents(jx) {
        AddedTwice(jx, r.key, r.document);
      }
    }
  }

  lemma AddedTwice(ix: Index, k: Key, doc: Document)
    requires Consistent(ix) && ValidKey(k) && doc.terms > 0 && k in Contents(ix)
    ensures !Consistent(Add(ix, k, doc))
  {
    AddIsConsistent(ix, k, doc);
  }

  lemma FreshnessSplits(view: map<Key, Document>, wal: seq<WalRecord>)
    requires wal != []
    ensures var n := |wal| - 1;
            AddsAreFresh(view, wal) <==>
              AddsAreFresh(view, wal[..n]) && (wal[n].Added? ==> wal[n].key !in Overlay(view, wal[..n]))
  {
    var n := |wal| - 1;
    forall i | 0 <= i < n ensures wal[..n][i] == wal[i] && wal[..n][..i] == wal[..i] {
    }
  }

  // ------------------------------------------------- what overlaying depends on

  ghost predicate AgreeOff(a: map<Key, Document>, b: map<Key, Document>, keys: set<Key>) {
    forall k :: k !in keys ==> (k in a <==> k in b) && (k in a ==> a[k] == b[k])
  }

  function KeysIn(wal: seq<WalRecord>): (r: set<Key>) {
    set i | 0 <= i < |wal| :: wal[i].key
  }

  lemma KeysInPrefix(wal: seq<WalRecord>)
    requires wal != []
    ensures KeysIn(wal) == KeysIn(wal[..|wal| - 1]) + {wal[|wal| - 1].key}
  {
    var n := |wal| - 1;
    assert forall i :: 0 <= i < n ==> wal[..n][i] == wal[i];
  }

  /** The replayed map depends only on keys the log does not mention. */
  lemma {:induction false} OverlayAbsorbs(a: map<Key, Document>, b: map<Key, Document>, wal: seq<WalRecord>, keys: set<Key>)
    requires AgreeOff(a, b, keys)
    ensures AgreeOff(Overlay(a, wal), Overlay(b, wal), keys - KeysIn(wal))
  {
    if wal != [] {
      var n := |wal| - 1;
      OverlayAbsorbs(a, b, wal[..n], keys);
      KeysInPrefix(wal);
    }
  }

  lemma {:induction false} OverlayTouchesOnlyItsKeys(view: map<Key, Document>, wal: seq<WalRecord>)
    ensures AgreeOff(Overlay(view, wal), view, KeysIn(wal))
  {
    if wal != [] {
      OverlayTouchesOnlyItsKeys(view, wal[..|wal| - 1]);
      KeysInPrefix(wal);
    }
  }

  lemma AgreeEverywhere(a: map<Key, Document>, b: map<Key, Document>)
    requires AgreeOff(a, b, {})
    ensures a == b
  {
    forall k ensures (k in a <==> k in b) && (k in a ==> a[k] == b[k]) {
      assert k !in {};
    }
  }

  /**
   Replaying a log over any state that already contains part of its effect -- agreeing
   with the original only on keys the log never mentions -- gives the same map.
   */
  lemma ReplayIsIdempotent(base: map<Key, Document>, state: map<Key, Document>, wal: seq<WalRecord>)
    requires AgreeOff(state, base, KeysIn(wal))
    ensures Overlay(state, wal) == Overlay(base, wal)
  {
    OverlayAbsorbs(state, base, wal, KeysIn(wal));
    assert KeysIn(wal) - KeysIn(wal) == {};
    AgreeEverywhere(Overlay(state, wal), Overlay(base, wal));
  }

  /** In particular replaying over the finished state changes nothing. */
  lemma ReplayOverFinishedState(base: map<Key, Document>, wal: seq<WalRecord>)
    ensures Overlay(Overlay(base, wal), wal) == Overlay(base, wal)
  {
    OverlayTouchesOnlyItsKeys(base, wal);
    ReplayIsIdempotent(base, Overlay(base, wal), wal);
  }
}
