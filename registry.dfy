/** The zone registry and the setup pass that fills it.
    The registry is the source's dictionary from ingredient name to captured
    position; it is only ever added to, so its enumeration order is insertion
    order and it is kept here as a sequence of zones with distinct names. */
module ZoneRegistry {
  import opened Zones

  /** The fixed ingredient list, in setup order. */
  const Ingredients: seq<string> := ["Lettuce", "Tomato"]

  /** The outcome of one dictionary Add on a sequence of entries: the new
      entries and whether the add succeeded (an existing key is an error and
      leaves the entries as they were). */
  function AddEntry(zs: seq<Zone>, name: string, center: Point): (r: (seq<Zone>, bool))
    ensures r.1 <==> name !in Labels(zs)
    ensures DistinctLabels(zs) ==> DistinctLabels(r.0)
    ensures Labels(r.0) == Labels(zs) + {name}
    ensures r.1 ==> r.0 == zs + [Zone(name, center)]
    ensures !r.1 ==> r.0 == zs
  {
    if name in Labels(zs) then (zs, false)
    else
      var zs' := zs + [Zone(name, center)];
      assert forall z :: z in zs' <==> z in zs || z == Zone(name, center);
      (zs', true)
  }

  /** One zone per name, pairing the i-th name with the i-th captured point. */
  function ZonesOf(names: seq<string>, captured: seq<Point>): (r: seq<Zone>)
    requires |captured| == |names|
    ensures |r| == |names|
  {
    if names == [] then [] else [Zone(names[0], captured[0])] + ZonesOf(names[1..], captured[1..])
  }

  /** The i-th zone built from a name list is the i-th name at the i-th captured point. */
  lemma {:induction false} ZonesOfAt(names: seq<string>, captured: seq<Point>, i: nat)
    requires |captured| == |names| && i < |names|
    ensures ZonesOf(names, captured)[i] == Zone(names[i], captured[i])
    decreases |names|
  {
    if i > 0 {
      ZonesOfAt(names[1..], captured[1..], i - 1);
    }
  }

  /** No name occurs twice in the list. */
  predicate DistinctNames(names: seq<string>) {
    forall i, j :: 0 <= i < j < |names| ==> names[i] != names[j]
  }

  /** The setup pass: add the names in order, each with its captured point,
      stopping at the first add that fails; the entries added before the
      failure stay. Returns the entries and whether every add succeeded. */
  function Populate(zs: seq<Zone>, names: seq<string>, captured: seq<Point>): (seq<Zone>, bool)
    requires |captured| == |names|
    decreases |names|
  {
    if names == [] then (zs, true)
    else
      var a := AddEntry(zs, names[0], captured[0]);
      if !a.1 then (zs, false) else Populate(a.0, names[1..], captured[1..])
  }

  /** Setup keeps names unique, whatever it is given. */
  lemma {:induction false} PopulateKeepsDistinct(zs: seq<Zone>, names: seq<string>, captured: seq<Point>)
    requires |captured| == |names|
    requires DistinctLabels(zs)
    ensures DistinctLabels(Populate(zs, names, captured).0)
    decreases |names|
  {
    if names != [] {
      var a := AddEntry(zs, names[0], captured[0]);
      if a.1 {
        PopulateKeepsDistinct(a.0, names[1..], captured[1..]);
      }
    }
  }

  /** No name of the list is among the given keys. */
  predicate NamesFresh(names: seq<string>, keys: set<string>) {
    forall i :: 0 <= i < |names| ==> names[i] !in keys
  }

  /** Splitting the success condition of setup at the first name. */
  lemma FreshCons(names: seq<string>, keys: set<string>)
    requires names != []
    ensures (DistinctNames(names) && NamesFresh(names, keys))
        <==> (names[0] !in keys && DistinctNames(names[1..]) && NamesFresh(names[1..], keys + {names[0]}))
  {
    var rest := names[1..];
    if names[0] !in keys && DistinctNames(rest) && NamesFresh(rest, keys + {names[0]}) {
      forall i, j | 0 <= i < j < |names| ensures names[i] != names[j] {
        assert names[j] == rest[j - 1];
        if i > 0 { assert names[i] == rest[i - 1]; }
      }
      forall i | 0 <= i < |names| ensures names[i] !in keys {
        if i > 0 { assert names[i] == rest[i - 1]; }
      }
    }
    if DistinctNames(names) && NamesFresh(names, keys) {
      forall i | 0 <= i < |rest| ensures rest[i] !in keys + {names[0]} {
        assert rest[i] == names[i + 1];
      }
    }
  }

  /** Setup succeeds exactly when the names are distinct and none is already a key. */
  lemma {:induction false} PopulateOkIff(zs: seq<Zone>, names: seq<string>, captured: seq<Point>)
    requires |captured| == |names|
    ensures Populate(zs, names, captured).1 <==> DistinctNames(names) && NamesFresh(names, Labels(zs))
    decreases |names|
  {
    if names != [] {
      FreshCons(names, Labels(zs));
      var a := AddEntry(zs, names[0], captured[0]);
      if a.1 {
        PopulateOkIff(a.0, names[1..], captured[1..]);
      }
    }
  }

  /** A successful setup appends one zone per name, in list order. */
  lemma {:induction false} PopulateOnSuccess(zs: seq<Zone>, names: seq<string>, captured: seq<Point>)
    requires |captured| == |names|
    ensures Populate(zs, names, captured).1 ==> Populate(zs, names, captured).0 == zs + ZonesOf(names, captured)
    decreases |names|
  {
    if names != [] {
      var a := AddEntry(zs, names[0], captured[0]);
      if a.1 {
        PopulateOnSuccess(a.0, names[1..], captured[1..]);
        assert ZonesOf(names, captured) == [Zone(names[0], captured[0])] + ZonesOf(names[1..], captured[1..]);
        assert a.0 + ZonesOf(names[1..], captured[1..]) == zs + ZonesOf(names, captured);
      }
    }
  }

  lemma LabelsAppend(a: seq<Zone>, b: seq<Zone>)
    ensures Labels(a + b) == Labels(a) + Labels(b)
  {
    assert forall z :: z in a + b <==> z in a || z in b;
  }

  /** The keys of the zones built from a name list are exactly the names. */
  lemma {:induction false} LabelsOfZones(names: seq<string>, captured: seq<Point>)
    requires |captured| == |names|
    ensures Labels(ZonesOf(names, captured)) == set n | n in names
    decreases |names|
  {
    if names != [] {
      var head := [Zone(names[0], captured[0])];
      LabelsOfZones(names[1..], captured[1..]);
      LabelsAppend(head, ZonesOf(names[1..], captured[1..]));
      assert Labels(head) == {names[0]};
      assert (set n | n in names) == {names[0]} + set n | n in names[1..];
    }
  }

  /** Setup succeeds exactly when the names are distinct and none is already
      registered; it then appends one zone per name, in list order, and the
      key set grows by exactly the names. */
  lemma PopulateSucceeds(zs: seq<Zone>, names: seq<string>, captured: seq<Point>)
    requires |captured| == |names|
    ensures var (r, ok) := Populate(zs, names, captured);
            && (ok <==> DistinctNames(names) && forall i :: 0 <= i < |names| ==> names[i] !in Labels(zs))
            && (ok ==> r == zs + ZonesOf(names, captured))
            && (ok ==> Labels(r) == Labels(zs) + set n | n in names)
  {
    PopulateOkIff(zs, names, captured);
    PopulateOnSuccess(zs, names, captured);
    LabelsAppend(zs, ZonesOf(names, captured));
    LabelsOfZones(names, captured);
  }

  /** The zones of a prefix of length k + 1 start with the first name's zone. */
  lemma ZonesOfPrefix(names: seq<string>, captured: seq<Point>, k: nat)
    requires |captured| == |names| && k < |names|
    ensures ZonesOf(names[..k + 1], captured[..k + 1])
         == [Zone(names[0], captured[0])] + ZonesOf(names[1..][..k], captured[1..][..k])
  {
    assert names[..k + 1][1..] == names[1..][..k];
    assert captured[..k + 1][1..] == captured[1..][..k];
  }

  /** Setup stopped at the k-th name, which was already a key, leaving the
      zones of the names before it appended to zs. */
  predicate StoppedAt(zs: seq<Zone>, names: seq<string>, captured: seq<Point>, r: seq<Zone>, k: int)
    requires |captured| == |names|
  {
    0 <= k < |names| && r == zs + ZonesOf(names[..k], captured[..k]) && names[k] in Labels(r)
  }

  /** Stopping at the k-th of the remaining names is stopping at the
      (k + 1)-th of the whole list, once the first name has been added. */
  lemma StoppedAtStep(zs: seq<Zone>, names: seq<string>, captured: seq<Point>, r: seq<Zone>, k: int)
    requires |captured| == |names| && names != []
    requires StoppedAt(zs + [Zone(names[0], captured[0])], names[1..], captured[1..], r, k)
    ensures StoppedAt(zs, names, captured, r, k + 1)
  {
    var z0 := Zone(names[0], captured[0]);
    var rest := ZonesOf(names[1..][..k], captured[1..][..k]);
    ZonesOfPrefix(names, captured, k);
    assert r == (zs + [z0]) + rest;
    assert (zs + [z0]) + rest == zs + ([z0] + rest);
    assert names[k + 1] == names[1..][k];
  }

  /** A failing setup has added the zones of the names before the failing
      one, and the failing name is already a key. */
  lemma {:induction false} PopulateOnFailure(zs: seq<Zone>, names: seq<string>, captured: seq<Point>)
    requires |captured| == |names|
    ensures var (r, ok) := Populate(zs, names, captured);
            !ok ==> exists k :: StoppedAt(zs, names, captured, r, k)
    decreases |names|
  {
    if names != [] {
      var a := AddEntry(zs, names[0], captured[0]);
      var (r, ok) := Populate(zs, names, captured);
      if !a.1 {
        assert StoppedAt(zs, names, captured, r, 0) by {
          assert names[..0] == [] && captured[..0] == [];
          assert zs + ZonesOf([], []) == zs;
        }
      } else if !ok {
        PopulateOnFailure(a.0, names[1..], captured[1..]);
        var k :| StoppedAt(a.0, names[1..], captured[1..], r, k);
        StoppedAtStep(zs, names, captured, r, k);
      }
    }
  }

  /** The entries present before setup stay in place and in order. */
  lemma {:induction false} PopulateKeepsPrefix(zs: seq<Zone>, names: seq<string>, captured: seq<Point>)
    requires |captured| == |names|
    ensures |zs| <= |Populate(zs, names, captured).0| && Populate(zs, names, captured).0[..|zs|] == zs
    decreases |names|
  {
    if names != [] {
      var a := AddEntry(zs, names[0], captured[0]);
      if a.1 {
        PopulateKeepsPrefix(a.0, names[1..], captured[1..]);
        var r := Populate(a.0, names[1..], captured[1..]).0;
        assert r[..|zs|] == r[..|a.0|][..|zs|];
      }
    }
  }

  /** The entries present before setup stay, in place and in order, whether
      or not setup succeeds; when an add fails, the zones added before it
      remain and the failing name is already a key. */
  lemma PopulateExtends(zs: seq<Zone>, names: seq<string>, captured: seq<Point>)
    requires |captured| == |names|
    ensures var (r, ok) := Populate(zs, names, captured);
            && |zs| <= |r| && r[..|zs|] == zs
            && (!ok ==> exists k :: 0 <= k < |names| && r == zs + ZonesOf(names[..k], captured[..k])
                                    && names[k] in Labels(r))
  {
    PopulateKeepsPrefix(zs, names, captured);
    PopulateOnFailure(zs, names, captured);
    var (r, ok) := Populate(zs, names, captured);
    if !ok {
      var k :| StoppedAt(zs, names, captured, r, k);
    }
  }

  /** Setup of the fixed ingredient list on the initially empty registry
      succeeds, creates one zone per ingredient in list order, and leaves
      exactly the ingredient names as keys. */
  lemma IngredientSetup(captured: seq<Point>)
    requires |captured| == |Ingredients|
    ensures var (r, ok) := Populate([], Ingredients, captured);
            && ok
            && r == [Zone("Lettuce", captured[0]), Zone("Tomato", captured[1])]
            && Labels(r) == {"Lettuce", "Tomato"}
  {
    PopulateOkIff([], Ingredients, captured);
    PopulateOnSuccess([], Ingredients, captured);
    LabelsOfZones(Ingredients, captured);
    var r := Populate([], Ingredients, captured).0;
    assert [] + ZonesOf(Ingredients, captured) == ZonesOf(Ingredients, captured);
    assert (set n | n in Ingredients) == {"Lettuce", "Tomato"};
  }

  /** The source's dictionary of zones, filled only by Add. */
  class Registry {
    var entries: seq<Zone>

    ghost predicate Valid()
      reads this
    {
      DistinctLabels(entries)
    }

    /** The key set of the dictionary. */
    function Keys(): set<string>
      reads this
    {
      Labels(entries)
    }

    constructor ()
      ensures Valid() && entries == []
    {
      entries := [];
    }

    /** Dictionary.Add: appends a new key; an existing key is an error
        (no overwrite), reported by ok == false with nothing changed. */
    method Add(name: string, center: Point) returns (ok: bool)
      requires Valid()
      modifies this
      ensures Valid()
      ensures (entries, ok) == AddEntry(old(entries), name, center)
      ensures ok <==> name !in old(Keys())
      ensures Keys() == old(Keys()) + {name}
      ensures entries == if ok then old(entries) + [Zone(name, center)] else old(entries)
    {
      ok := name !in Labels(entries);
      if ok {
        entries := entries + [Zone(name, center)];
      }
    }
  }

  /** The setup loop: for each name in order, add it with the point captured
      for it; an add that fails aborts the rest of the loop. */
  method Setup(registry: Registry, names: seq<string>, captured: seq<Point>) returns (ok: bool)
    requires registry.Valid()
    requires |captured| == |names|
    modifies registry
    ensures registry.Valid()
    ensures (registry.entries, ok) == Populate(old(registry.entries), names, captured)
  {
    var i := 0;
    while i < |names|
      invariant 0 <= i <= |names|
      invariant registry.Valid()
      invariant Populate(old(registry.entries), names, captured)
             == Populate(registry.entries, names[i..], captured[i..])
    {
      assert names[i..][1..] == names[i + 1..] && captured[i..][1..] == captured[i + 1..];
      ok := registry.Add(names[i], captured[i]);
      if !ok {
        return;
      }
      i := i + 1;
    }
    ok := true;
  }

  /** The setup pass of the program: the ingredient list on the empty registry. */
  method SetupIngredients(registry: Registry, captured: seq<Point>)
    requires registry.Valid() && registry.entries == []
    requires |captured| == |Ingredients|
    modifies registry
    ensures registry.Valid()
    ensures registry.entries == ZonesOf(Ingredients, captured)
    ensures registry.Keys() == {"Lettuce", "Tomato"}
  {
    var ok := Setup(registry, Ingredients, captured);
    IngredientSetup(captured);
  }
}
