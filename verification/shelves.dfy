/** How the three elementary changes to a shelf act on single documents. */
module Shelves {
  import opened Sequences
  import opened SegmentModel

  function Append(shelf: Shelf, g: nat, e: Entry): (r: Shelf)
    requires g in shelf
  {
    shelf[g := shelf[g].(docs := shelf[g].docs + [e])]
  }

  function End(shelf: Shelf, g: nat): Loc
    requires g in shelf
  {
    Loc(g, |shelf[g].docs|)
  }

  function WithEmpty(shelf: Shelf, g: nat): (r: Shelf) {
    shelf[g := EMPTY_VOLUME]
  }

  /** `stray` is the only live copy its key's entry does not name. */
  ghost predicate CoherentBut(shelf: Shelf, km: Keymap, stray: Loc) {
    && Sound(shelf, km)
    && Alive(shelf, stray)
    && EntryAt(shelf, stray).key in km && km[EntryAt(shelf, stray).key] != stray
    && forall loc: Loc :: Alive(shelf, loc) && loc != stray ==> Named(shelf, km, loc)
  }

  lemma AppendAt(shelf: Shelf, g: nat, e: Entry, loc: Loc)
    requires g in shelf && WellKept(shelf[g])
    ensures InRange(Append(shelf, g, e), loc) <==> InRange(shelf, loc) || loc == End(shelf, g)
    ensures Alive(Append(shelf, g, e), loc) <==> Alive(shelf, loc) || loc == End(shelf, g)
    ensures InRange(shelf, loc) ==> EntryAt(Append(shelf, g, e), loc) == EntryAt(shelf, loc)
    ensures !InRange(shelf, End(shelf, g))
    ensures EntryAt(Append(shelf, g, e), End(shelf, g)) == e
  {
  }

  lemma KillAt(shelf: Shelf, victim: Loc, loc: Loc)
    ensures InRange(Kill(shelf, victim), loc) <==> InRange(shelf, loc)
    ensures Alive(Kill(shelf, victim), loc) <==> Alive(shelf, loc) && loc != victim
    ensures InRange(shelf, loc) ==> EntryAt(Kill(shelf, victim), loc) == EntryAt(shelf, loc)
  {
  }

  lemma EmptyAt(shelf: Shelf, g: nat, loc: Loc)
    requires g !in shelf
    ensures InRange(WithEmpty(shelf, g), loc) <==> InRange(shelf, loc)
    ensures Alive(WithEmpty(shelf, g), loc) <==> Alive(shelf, loc)
    ensures InRange(shelf, loc) ==> EntryAt(WithEmpty(shelf, g), loc) == EntryAt(shelf, loc)
  {
  }

  /** Storing a copy keeps the keymap sound; the copy is what its key now shows. */
  lemma AppendIsSound(shelf: Shelf, km: Keymap, g: nat, e: Entry)
    requires g in shelf && WellStored(shelf) && Sound(shelf, km) && ValidKey(e.key)
    ensures WellStored(Append(shelf, g, e))
    ensures Sound(Append(shelf, g, e), km[e.key := End(shelf, g)])
    ensures View(Append(shelf, g, e), km[e.key := End(shelf, g)]) == View(shelf, km)[e.key := e.document]
  {
    var s, m := Append(shelf, g, e), km[e.key := End(shelf, g)];
    forall k | k in m ensures Alive(s, m[k]) && EntryAt(s, m[k]).key == k
    {
      AppendAt(shelf, g, e, m[k]);
    }
    forall k ensures k in View(s, m) <==> k in View(shelf, km)[e.key := e.document]
    {
      if k in m { AppendAt(shelf, g, e, m[k]); }
    }
    forall k | k in View(s, m) ensures View(s, m)[k] == View(shelf, km)[e.key := e.document][k]
    {
      AppendAt(shelf, g, e, m[k]);
    }
  }

  /** Storing a fresh key keeps coherence; storing a mapped one strands its old copy. */
  lemma AppendIsComplete(shelf: Shelf, km: Keymap, g: nat, e: Entry)
    requires g in shelf && WellStored(shelf) && Coherent(shelf, km) && ValidKey(e.key)
    ensures e.key !in km ==> Coherent(Append(shelf, g, e), km[e.key := End(shelf, g)])
    ensures e.key in km ==> CoherentBut(Append(shelf, g, e), km[e.key := End(shelf, g)], km[e.key])
  {
    AppendIsSound(shelf, km, g, e);
    var s, m := Append(shelf, g, e), km[e.key := End(shelf, g)];
    forall loc: Loc | Alive(s, loc) && (e.key in km ==> loc != km[e.key])
      ensures Named(s, m, loc)
    {
      AppendAt(shelf, g, e, loc);
      if loc != End(shelf, g) {
        assert Named(shelf, km, loc);
      }
    }
    if e.key in km {
      AppendAt(shelf, g, e, km[e.key]);
    }
  }

  lemma KilledStray(shelf: Shelf, km: Keymap, stray: Loc)
    requires CoherentBut(shelf, km, stray)
    ensures Coherent(Kill(shelf, stray), km)
    ensures View(Kill(shelf, stray), km) == View(shelf, km)
  {
    var s := Kill(shelf, stray);
    forall loc: Loc | Alive(s, loc) ensures Named(s, km, loc) {
      KillAt(shelf, stray, loc);
      assert Named(shelf, km, loc);
    }
    forall k | k in km ensures Alive(s, km[k]) && EntryAt(s, km[k]) == EntryAt(shelf, km[k]) {
      KillAt(shelf, stray, km[k]);
    }
  }

  lemma KilledMapped(shelf: Shelf, km: Keymap, k: Key)
    requires Sound(shelf, km) && k in km
    ensures Sound(Kill(shelf, km[k]), km - {k})
    ensures Coherent(shelf, km) ==> Coherent(Kill(shelf, km[k]), km - {k})
    ensures View(Kill(shelf, km[k]), km - {k}) == View(shelf, km) - {k}
  {
    var s := Kill(shelf, km[k]);
    forall x | x in km - {k} ensures Alive(s, km[x]) && EntryAt(s, km[x]) == EntryAt(shelf, km[x]) {
      KillAt(shelf, km[k], km[x]);
      assert EntryAt(shelf, km[x]).key == x && EntryAt(shelf, km[k]).key == k;
    }
    if Coherent(shelf, km) {
      forall loc: Loc | Alive(s, loc) ensures Named(s, km - {k}, loc) {
        KillAt(shelf, km[k], loc);
        assert Named(shelf, km, loc);
      }
    }
  }

  lemma KillKeepsStored(shelf: Shelf, loc: Loc)
    requires WellStored(shelf) && InRange(shelf, loc)
    ensures WellStored(Kill(shelf, loc)) && Kill(shelf, loc).Keys == shelf.Keys
  {
  }

  lemma EmptyKeeps(shelf: Shelf, km: Keymap, g: nat)
    requires g !in shelf
    ensures WellStored(shelf) ==> WellStored(WithEmpty(shelf, g))
    ensures Sound(shelf, km) ==> Sound(WithEmpty(shelf, g), km)
    ensures Complete(shelf, km) ==> Complete(WithEmpty(shelf, g), km)
    ensures View(WithEmpty(shelf, g), km) == View(shelf, km)
  {
    var s := WithEmpty(shelf, g);
    forall k | k in km
      ensures InRange(s, km[k]) == InRange(shelf, km[k])
      ensures InRange(s, km[k]) ==> EntryAt(s, km[k]) == EntryAt(shelf, km[k])
    {
      EmptyAt(shelf, g, km[k]);
    }
    if Complete(shelf, km) {
      forall loc: Loc | Alive(s, loc) ensures Named(s, km, loc) {
        EmptyAt(shelf, g, loc);
        assert Named(shelf, km, loc);
      }
    }
  }

  lemma EmptyKeepsStray(shelf: Shelf, km: Keymap, g: nat, stray: Loc)
    requires g !in shelf && CoherentBut(shelf, km, stray)
    ensures CoherentBut(WithEmpty(shelf, g), km, stray)
  {
    var s := WithEmpty(shelf, g);
    EmptyKeeps(shelf, km, g);
    EmptyAt(shelf, g, stray);
    forall loc: Loc | Alive(s, loc) && loc != stray ensures Named(s, km, loc) {
      EmptyAt(shelf, g, loc);
      assert Named(shelf, km, loc);
    }
  }
}
