/** get_document_count(): the summed segment counts equal the keymap's size. */
module DocumentCount {
  import opened Sequences
  import opened SegmentModel

  function LiveDocids(v: Volume): (r: set<nat>) {
    set d: nat | d < |v.docs| && d !in v.dead
  }

  function VolumeCount(v: Volume): int {
    |v.docs| - |v.dead|
  }

  /** The loop of get_document_count() over the volumes of `generations`. */
  function SummedCount(shelf: Shelf, generations: seq<nat>): int
    requires forall g :: g in generations ==> g in shelf
  {
    if generations == [] then 0
    else
      var last := |generations| - 1;
      SummedCount(shelf, generations[..last]) + VolumeCount(shelf[generations[last]])
  }

  function LiveLocs(shelf: Shelf, generations: set<nat>): (r: set<Loc>) {
    set g, d | g in generations && g in shelf && d in LiveDocids(shelf[g]) :: Loc(g, d)
  }

  lemma VolumeCountIsLive(v: Volume)
    requires WellKept(v)
    ensures |LiveDocids(v)| == VolumeCount(v)
  {
    assert LiveDocids(v) == Naturals(|v.docs|) - v.dead;
    assert v.dead <= Naturals(|v.docs|);
  }

  lemma {:induction false} ImageSize(g: nat, ds: set<nat>)
    ensures |set d | d in ds :: Loc(g, d)| == |ds|
  {
    if ds != {} {
      var x :| x in ds;
      ImageSize(g, ds - {x});
      assert (set d | d in ds :: Loc(g, d)) == (set d | d in ds - {x} :: Loc(g, d)) + {Loc(g, x)};
    }
  }

  lemma {:induction false} SummedCountIsLive(shelf: Shelf, generations: seq<nat>)
    requires Distinct(generations)
    requires forall g :: g in generations ==> g in shelf
    requires WellStored(shelf)
    ensures SummedCount(shelf, generations) == |LiveLocs(shelf, Elements(generations))|
  {
    if generations == [] {
      assert LiveLocs(shelf, Elements(generations)) == {};
    } else {
      var n := |generations| - 1;
      var g, init := generations[n], generations[..n];
      SummedCountIsLive(shelf, init);
      VolumeCountIsLive(shelf[g]);
      var here := set d | d in LiveDocids(shelf[g]) :: Loc(g, d);
      ImageSize(g, LiveDocids(shelf[g]));
      assert generations == init + [g];
      assert Elements(generations) == Elements(init) + {g};
      assert g !in init;
      assert LiveLocs(shelf, Elements(generations)) == LiveLocs(shelf, Elements(init)) + here;
      assert LiveLocs(shelf, Elements(init)) !! here;
    }
  }

  lemma {:induction false} InjectiveSize(km: Keymap)
    requires forall a, b :: a in km && b in km && a != b ==> km[a] != km[b]
    ensures |km.Values| == |km|
  {
    if |km| > 0 {
      var k :| k in km;
      var rest := km - {k};
      InjectiveSize(rest);
      assert km.Values == rest.Values + {km[k]} by {
        forall v | v in km.Values ensures v in rest.Values + {km[k]} {
          var x :| x in km && km[x] == v;
          if x != k {
            assert x in rest && rest[x] == v;
          }
        }
      }
      assert km[k] !in rest.Values;
      assert |km| == |rest| + 1 by {
        assert km.Keys == rest.Keys + {k};
        assert |km.Keys| == |km| && |rest.Keys| == |rest|;
      }
    } else {
      assert km.Values == {};
    }
  }

  /** The counter the index reports is the number of keys it can look up. */
  lemma DocumentCountIsKeymapSize(shelf: Shelf, km: Keymap, generations: seq<nat>)
    requires Coherent(shelf, km) && WellStored(shelf)
    requires Distinct(generations) && shelf.Keys == Elements(generations)
    ensures SummedCount(shelf, generations) == |km|
  {
    LiveAreMapped(shelf, km, generations);
    InjectiveMap(shelf, km);
    hide Sound, Complete, WellStored, Distinct, LiveLocs;
    SummedCountIsLive(shelf, generations);
    InjectiveSize(km);
  }

  lemma InjectiveMap(shelf: Shelf, km: Keymap)
    requires Sound(shelf, km)
    ensures forall a, b :: a in km && b in km && a != b ==> km[a] != km[b]
  {
  }

  /** Live documents and keymap entries are in bijection. */
  lemma LiveAreMapped(shelf: Shelf, km: Keymap, generations: seq<nat>)
    requires Coherent(shelf, km) && shelf.Keys == Elements(generations)
    ensures LiveLocs(shelf, Elements(generations)) == km.Values
  {
    var live := LiveLocs(shelf, Elements(generations));
    forall loc | loc in live ensures loc in km.Values {
      assert Alive(shelf, loc);
      assert EntryAt(shelf, loc).key in km;
    }
    forall loc | loc in km.Values ensures loc in live {
      var k :| k in km && km[k] == loc;
      assert Alive(shelf, loc);
    }
  }
}
