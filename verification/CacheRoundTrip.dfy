/** A conversion pushed to the remote cache and fetched into an empty one. */
module CacheRoundTrip {
  import opened Digest
  import opened Oci
  import opened CacheLayers
  import opened CacheRecords
  import opened CacheUpdate
  import opened CacheConservation

  /** A registry that has the source of every stored layer, each under its own digest. */
  predicate Serves(registry: map<string, Descriptor>, layers: seq<Descriptor>) {
    (forall d | d in registry :: registry[d].digest == d) && Available(layers, registry)
  }

  predicate Names(layers: seq<Descriptor>, i: int, d: string) {
    0 <= i < |layers| && SourceOf(layers[i]) == d
  }

  lemma {:induction false} ImportedFields(layer: Descriptor, source: Descriptor)
    ensures ImportedItem(layer, source).source.digest == source.digest
  {
  }

  /** The last layer that names a source digest, or -1. */
  function LastNaming(layers: seq<Descriptor>, d: string): (r: int)
    ensures -1 <= r < |layers|
    ensures r >= 0 ==> Names(layers, r, d)
    ensures forall j | r < j < |layers| :: !Names(layers, j, d)
  {
    if layers == [] then -1
    else if SourceOf(layers[|layers| - 1]) == d then |layers| - 1
    else
      var r := LastNaming(layers[..|layers| - 1], d);
      assert forall j | 0 <= j < |layers| - 1 :: layers[..|layers| - 1][j] == layers[j];
      assert forall j | r < j < |layers| - 1 :: Names(layers, j, d) ==> Names(layers[..|layers| - 1], j, d);
      r
  }

  /** Importing any manifest gives one record for each distinct valid source digest in it, that of
      the last layer that names it, and links it to that layer; other records stay. */
  lemma {:induction false} ImportGivesRecords(records: Records, layers: seq<Descriptor>,
                                              registry: map<string, Descriptor>, d: string)
    requires Serves(registry, layers)
    ensures var r, i := Imported(records, layers, registry), LastNaming(layers, d);
            if ValidDigest(d) && i >= 0 then d in r && r[d] == ImportedItem(layers[i], registry[d])
            else (d in r <==> d in records) && (d in r ==> r[d] == records[d])
  {
    hide ImportedItem, ValidDigest, SourceOf;
    if layers != [] {
      var n := |layers| - 1;
      var front := layers[..n];
      assert forall i | 0 <= i < n :: front[i] == layers[i];
      if ValidDigest(SourceOf(layers[n])) {
        ImportedFields(layers[n], registry[SourceOf(layers[n])]);
      }
      ImportGivesRecords(records, front, registry, d);
    }
  }

  lemma {:induction false} ImportedLinks(layer: Descriptor, source: Descriptor)
    requires SOURCE_DIGEST in AnnotationsOf(layer) && SourceOf(layer) == source.digest
    ensures Linked(ImportedItem(layer, source)) && ImportedItem(layer, source).target.digest == layer.digest
    ensures ImportedItem(layer, source).target == Annotated(layer, UNCOMPRESSED, layer.digest)
  {
    assert |UNCOMPRESSED| != |SOURCE_DIGEST|;
    var notes := AnnotationsOf(layer)[UNCOMPRESSED := layer.digest];
    assert notes[SOURCE_DIGEST := source.digest] == notes;
  }

  lemma {:induction false} ImportedTarget(layer: Descriptor, source: Descriptor)
    requires ValidDigest(SourceOf(layer)) && SourceOf(layer) == source.digest
    ensures var item := ImportedItem(layer, source);
            && item.source.digest == source.digest && Linked(item)
            && Pairs(item, source, Annotated(layer, UNCOMPRESSED, layer.digest))
            && item.target == Annotated(layer, UNCOMPRESSED, layer.digest) && item.target.digest == layer.digest
  {
    ImportedLinks(layer, source);
    NewItemRecords(source, Annotated(layer, UNCOMPRESSED, layer.digest));
  }

  lemma {:induction false} LastNamingConcat(a: seq<Descriptor>, b: seq<Descriptor>, d: string)
    ensures LastNaming(a + b, d) == if LastNaming(b, d) >= 0 then |a| + LastNaming(b, d) else LastNaming(a, d)
  {
    hide LastNaming, SourceOf;
    var c := a + b;
    assert forall i | 0 <= i < |a| :: Names(c, i, d) <==> Names(a, i, d);
    assert forall i | 0 <= i < |b| :: Names(c, |a| + i, d) <==> Names(b, i, d);
    var i := LastNaming(c, d);
    if i >= |a| {
      assert Names(b, i - |a|, d);
    }
    if LastNaming(b, d) >= 0 {
      assert Names(c, |a| + LastNaming(b, d), d);
    }
    if LastNaming(a, d) >= 0 {
      assert Names(c, LastNaming(a, d), d);
    }
  }

  /** Source i of an image has a record, and the target in it names d. Where links are cut, d need not
      be the digest of that source. */
  predicate Speaks(records: Records, sources: seq<Descriptor>, i: int, d: string) {
    && 0 <= i < |sources| && sources[i].digest in records
    && SourceOf(records[sources[i].digest].target) == d
  }

  /** The last source of an image that speaks for d, or -1. */
  function LastSpeaking(records: Records, sources: seq<Descriptor>, d: string): (r: int)
    ensures -1 <= r < |sources|
    ensures r >= 0 ==> Speaks(records, sources, r, d)
    ensures forall j | r < j < |sources| :: !Speaks(records, sources, j, d)
  {
    if sources == [] then -1
    else if Speaks(records, sources, |sources| - 1, d) then |sources| - 1
    else
      var front := sources[..|sources| - 1];
      var r := LastSpeaking(records, front, d);
      assert forall j | 0 <= j < |front| :: Speaks(records, front, j, d) <==> Speaks(records, sources, j, d);
      r
  }

  /** The layer stored last for d is the target of the last source that speaks for d. */
  lemma {:induction false} StoredLast(records: Records, sources: seq<Descriptor>, d: string)
    ensures var layers, n := TargetLayers(records, sources), LastSpeaking(records, sources, d);
            if n >= 0 then
              LastNaming(layers, d) >= 0 && layers[LastNaming(layers, d)] == records[sources[n].digest].target
            else LastNaming(layers, d) < 0
  {
    if sources != [] {
      hide SourceOf, Speaks;
      var n := |sources| - 1;
      StoredLast(records, sources[..n], d);
      assert sources == sources[..n] + [sources[n]];
      TargetLayersSplit(records, sources[..n], [sources[n]]);
      LastNamingConcat(TargetLayers(records, sources[..n]), TargetLayers(records, [sources[n]]), d);
      OneStored(records, sources, d);
    }
  }

  lemma {:induction false} OneStored(records: Records, sources: seq<Descriptor>, d: string)
    requires sources != []
    ensures var n := |sources| - 1;
            && TargetLayers(records, [sources[n]]) ==
               (if sources[n].digest in records then [records[sources[n].digest].target] else [])
            && LastNaming(TargetLayers(records, [sources[n]]), d) == (if Speaks(records, sources, n, d) then 0 else -1)
            && (Speaks(records, sources, n, d) ==> sources[n].digest in records)
  {
    hide SourceOf;
    var one := TargetLayers(records, [sources[|sources| - 1]]);
    assert [sources[|sources| - 1]][1..] == [];
    if one != [] {
      assert one[..0] == [];
    }
  }

  /** What comes back of the layers stored for an image, whether the links of the records hold or not:
      a record for every valid digest that some recorded target of the image names, with the target of
      the last source that does, annotated with itself as its uncompressed digest, and both links. */
  lemma {:induction false} RoundTrip(records: Records, sources: seq<Descriptor>, registry: map<string, Descriptor>,
                                     d: string)
    requires Serves(registry, TargetLayers(records, sources))
    ensures var r := Imported(map[], TargetLayers(records, sources), registry);
            && (d in r <==> ValidDigest(d) && exists i :: Speaks(records, sources, i, d))
            && (d in r ==>
                  && r[d].source.digest == d && Linked(r[d])
                  && var n := LastSpeaking(records, sources, d);
                  && Speaks(records, sources, n, d)
                  && var t := records[sources[n].digest].target;
                  && r[d].target == Annotated(t, UNCOMPRESSED, t.digest))
  {
    hide TargetLayers, Linked, ImportedItem, ValidDigest, Imported, SourceOf, LastSpeaking, LastNaming;
    var layers := TargetLayers(records, sources);
    ImportGivesRecords(map[], layers, registry, d);
    StoredLast(records, sources, d);
    var i := LastNaming(layers, d);
    if i >= 0 && ValidDigest(d) {
      ImportedTarget(layers[i], registry[d]);
    }
  }

  /** Linked records speak for themselves only. */
  lemma {:induction false} LinkedSpeak(records: Records, sources: seq<Descriptor>, d: string)
    requires AllLinked(records)
    ensures forall i :: Speaks(records, sources, i, d) <==> 0 <= i < |sources| && sources[i].digest == d && d in records
    ensures (exists i :: Speaks(records, sources, i, d)) <==> d in records && d in Digests(sources)
  {
    assert forall e | e in records :: SourceOf(records[e].target) == e;
    if d in records && d in Digests(sources) {
      var i :| 0 <= i < |sources| && sources[i].digest == d;
      assert Speaks(records, sources, i, d);
    }
  }

  /** So, while all links hold, just the recorded sources of the image with valid digests come back,
      each with its own target. */
  lemma {:induction false} LinkedRoundTrip(records: Records, sources: seq<Descriptor>,
                                           registry: map<string, Descriptor>, d: string)
    requires AllLinked(records) && Serves(registry, TargetLayers(records, sources))
    ensures var r := Imported(map[], TargetLayers(records, sources), registry);
            && (d in r <==> d in records && d in Digests(sources) && ValidDigest(d))
            && (d in r ==> r[d].source.digest == d && Linked(r[d]) &&
                           r[d].target == Annotated(records[d].target, UNCOMPRESSED, records[d].target.digest))
  {
    hide TargetLayers, Linked, ValidDigest, Imported, AllLinked, Digests, Speaks, LastSpeaking;
    RoundTrip(records, sources, registry, d);
    LinkedSpeak(records, sources, d);
  }

  /** A record that was updated through its target comes back just when the merged annotations name its
      source after all, or another record of the image does so in its stead, which no linked one does. */
  lemma {:induction false} CutLinkIsLost(records: Records, k: string, labels: Annotations, sources: seq<Descriptor>,
                                         registry: map<string, Descriptor>)
    requires k in records && k in Digests(sources) && ValidDigest(k)
    requires Serves(registry, TargetLayers(records[k := Relabelled(records[k], true, labels)], sources))
    ensures var merged := AnnotationsOf(records[k].source) + labels;
            var named := SOURCE_DIGEST in merged && merged[SOURCE_DIGEST] == k;
            var now := records[k := Relabelled(records[k], true, labels)];
            var r := Imported(map[], TargetLayers(now, sources), registry);
            && (k in r <==> named || exists i :: Speaks(records, sources, i, k) && sources[i].digest != k)
            && (AllLinked(records) ==> (k in r <==> named))
  {
    hide TargetLayers, Imported, LastSpeaking, Linked, SourceOf, ValidDigest, AllLinked;
    var now := records[k := Relabelled(records[k], true, labels)];
    RoundTrip(now, sources, registry, k);
    RelabelledSource(records[k], labels, k);
    var n :| 0 <= n < |sources| && sources[n].digest == k;
    assert Speaks(now, sources, n, k) <==> SourceOf(now[k].target) == k;
    assert forall i | 0 <= i < |sources| && sources[i].digest != k ::
        Speaks(now, sources, i, k) <==> Speaks(records, sources, i, k);
    if AllLinked(records) {
      LinkedSpeak(records, sources, k);
    }
  }

  lemma {:induction false} RelabelledSource(item: Item, labels: Annotations, k: string)
    requires ValidDigest(k)
    ensures var merged := AnnotationsOf(item.source) + labels;
            SourceOf(Relabelled(item, true, labels).target) == k <==>
            SOURCE_DIGEST in merged && merged[SOURCE_DIGEST] == k
  {
  }

  /** The new layers of a merge that name d: those whose targets are not cached yet. */
  predicate SpeaksAnew(records: Records, sources: seq<Descriptor>, i: int, d: string, known: set<string>) {
    Speaks(records, sources, i, d) && records[sources[i].digest].target.digest !in known
  }

  lemma {:induction false} StoredFrom(records: Records, sources: seq<Descriptor>, x: Descriptor)
    ensures x in TargetLayers(records, sources) <==>
            exists i :: 0 <= i < |sources| && sources[i].digest in records && records[sources[i].digest].target == x
  {
    if sources != [] {
      var n := |sources| - 1;
      StoredFrom(records, sources[..n], x);
      assert sources == sources[..n] + [sources[n]];
      TargetLayersSplit(records, sources[..n], [sources[n]]);
      assert [sources[n]][1..] == [];
      assert forall i | 0 <= i < n :: sources[..n][i] == sources[i];
      if i :| 0 <= i < n && sources[..n][i].digest in records && records[sources[..n][i].digest].target == x {
        assert sources[i].digest in records && records[sources[i].digest].target == x;
      }
    }
  }

  lemma {:induction false} NewNames(records: Records, sources: seq<Descriptor>, known: set<string>, d: string)
    ensures var added := Unknown(known, TargetLayers(records, sources));
            LastNaming(added, d) >= 0 <==> exists i :: SpeaksAnew(records, sources, i, d, known)
  {
    hide TargetLayers, SourceOf, LastNaming;
    var layers := TargetLayers(records, sources);
    var added := Unknown(known, layers);
    UnknownMembers(known, layers);
    var n := LastNaming(added, d);
    if n >= 0 {
      assert added[n] in layers && added[n].digest !in known;
      StoredFrom(records, sources, added[n]);
      var i :| 0 <= i < |sources| && sources[i].digest in records && records[sources[i].digest].target == added[n];
      assert SpeaksAnew(records, sources, i, d, known);
    }
    if i :| SpeaksAnew(records, sources, i, d, known) {
      var x := records[sources[i].digest].target;
      StoredFrom(records, sources, x);
      assert x in added;
      var m :| 0 <= m < |added| && added[m] == x;
      assert Names(added, m, d);
    }
  }

  /** What comes back of a merged list that is not full, whatever the links and the cached layers say:
      a valid digest that a cached layer names, or a recorded target of the image that is not cached
      under its digest. The dedupe looks at target digests only, so that a cached layer stands in for
      the recorded one even if it names another source or none. */
  lemma {:induction false} MergedRoundTrip(records: Records, sources: seq<Descriptor>, before: seq<Descriptor>,
                                           size: nat, registry: map<string, Descriptor>, d: string)
    requires var layers := Merged(before, TargetLayers(records, sources), size);
             |layers| < size && Serves(registry, layers)
    ensures var r := Imported(map[], Merged(before, TargetLayers(records, sources), size), registry);
            && (d in r <==> ValidDigest(d) &&
                            (LastNaming(before, d) >= 0 ||
                             exists i :: SpeaksAnew(records, sources, i, d, Digests(before))))
            && (d in r ==> r[d].source.digest == d && Linked(r[d]))
            && (d in r && !(exists i :: SpeaksAnew(records, sources, i, d, Digests(before))) ==>
                  r[d].target.digest == before[LastNaming(before, d)].digest)
  {
    hide TargetLayers, SourceOf, LastNaming, Imported, ImportedItem, Linked, ValidDigest, Digests, SpeaksAnew;
    var news := TargetLayers(records, sources);
    var layers := Merged(before, news, size);
    var added := Unknown(Digests(before), news);
    assert layers == before + added;
    LastNamingConcat(before, added, d);
    NewNames(records, sources, Digests(before), d);
    ImportGivesRecords(map[], layers, registry, d);
    var i := LastNaming(layers, d);
    if i >= 0 && ValidDigest(d) {
      ImportedTarget(layers[i], registry[d]);
    }
  }

  /** For linked records the exact condition is on the cached layers alone. A recorded source of the
      image comes back if and only if its target is not cached, or a cached layer names the source;
      and it comes back with its target if and only if, moreover, the last such layer is that target. */
  lemma {:induction false} LinkedMergedRoundTrip(records: Records, sources: seq<Descriptor>, before: seq<Descriptor>,
                                                 size: nat, registry: map<string, Descriptor>, d: string)
    requires AllLinked(records) && d in records && d in Digests(sources) && ValidDigest(d)
    requires var layers := Merged(before, TargetLayers(records, sources), size);
             |layers| < size && Serves(registry, layers)
    ensures var r := Imported(map[], Merged(before, TargetLayers(records, sources), size), registry);
            var x := records[d].target.digest;
            && (d in r <==> x !in Digests(before) || LastNaming(before, d) >= 0)
            && (d in r ==> (r[d].target.digest == x <==>
                            x !in Digests(before) || before[LastNaming(before, d)].digest == x))
  {
    hide TargetLayers, LastNaming, Imported, Linked, ValidDigest, AllLinked;
    MergedRoundTrip(records, sources, before, size, registry, d);
    LinkedSpeak(records, sources, d);
    var x := records[d].target.digest;
    var n :| 0 <= n < |sources| && sources[n].digest == d;
    assert SpeaksAnew(records, sources, n, d, Digests(before)) <==> x !in Digests(before);
    assert forall i :: SpeaksAnew(records, sources, i, d, Digests(before)) ==> x !in Digests(before);
    if x !in Digests(before) {
      NewTarget(records, sources, before, size, registry, d);
    }
  }

  /** The target of a linked record is what its new layer is. */
  lemma {:induction false} NewLayer(records: Records, sources: seq<Descriptor>, known: set<string>, d: string)
    requires AllLinked(records) && d in records && d in Digests(sources)
    requires records[d].target.digest !in known
    ensures var added := Unknown(known, TargetLayers(records, sources));
            LastNaming(added, d) >= 0 && added[LastNaming(added, d)] == records[d].target
  {
    hide TargetLayers, LastNaming, Linked, AllLinked, Digests;
    var news := TargetLayers(records, sources);
    var added := Unknown(known, news);
    LinkedSpeak(records, sources, d);
    var n :| Speaks(records, sources, n, d);
    assert SpeaksAnew(records, sources, n, d, known);
    NewNames(records, sources, known, d);
    UnknownMembers(known, news);
    var layer := added[LastNaming(added, d)];
    assert layer in news;
    StoredFrom(records, sources, layer);
    var i :| 0 <= i < |sources| && sources[i].digest in records && records[sources[i].digest].target == layer;
    assert Speaks(records, sources, i, d);
  }

  lemma {:induction false} NewTarget(records: Records, sources: seq<Descriptor>, before: seq<Descriptor>,
                                     size: nat, registry: map<string, Descriptor>, d: string)
    requires AllLinked(records) && d in records && d in Digests(sources) && ValidDigest(d)
    requires records[d].target.digest !in Digests(before)
    requires var layers := Merged(before, TargetLayers(records, sources), size);
             |layers| < size && Serves(registry, layers)
    ensures var r := Imported(map[], Merged(before, TargetLayers(records, sources), size), registry);
            d in r && r[d].target.digest == records[d].target.digest
  {
    hide TargetLayers, LastNaming, Imported, ImportedItem, ValidDigest, Linked, AllLinked, Digests, SourceOf;
    var news := TargetLayers(records, sources);
    var added := Unknown(Digests(before), news);
    NewLayer(records, sources, Digests(before), d);
    assert Merged(before, news, size) == before + added;
    LastNamingConcat(before, added, d);
    ImportGivesRecords(map[], before + added, registry, d);
    var layer := (before + added)[LastNaming(before + added, d)];
    assert layer == records[d].target;
    ImportedTarget(layer, registry[d]);
  }

  /** Whatever manifest `update` wrote for an image, a cache of the same version reads it, and just the
      valid digests that its layers name come back, each with the last layer that names it. If the
      layers are those of the image, RoundTrip says which these are, and MergedRoundTrip if they were
      merged into a list that is not full. */
  lemma {:induction false} PushedIsFetched(t: Target, cached: Cached, c: Setting, result: Cached, k: nat,
                                           before: seq<Descriptor>, registry: map<string, Descriptor>, d: string)
    requires WrittenFor(t, cached, c, result, k, before)
    requires Serves(registry, ManifestsOf(result)[k].layers)
    ensures var layers := ManifestsOf(result)[k].layers;
            var r := Imported(map[], layers, registry);
            && VersionOf(ManifestsOf(result)[k]) == c.version
            && (layers == t.layers || layers == Merged(before, t.layers, c.size))
            && (d in r <==> ValidDigest(d) && LastNaming(layers, d) >= 0)
            && (d in r ==> r[d].source.digest == d && Linked(r[d]) &&
                           r[d].target.digest == layers[LastNaming(layers, d)].digest)
  {
    hide Merged, Linked, ImportedItem, ValidDigest, Imported, SourceOf;
    var layers := ManifestsOf(result)[k].layers;
    ImportGivesRecords(map[], layers, registry, d);
    var i := LastNaming(layers, d);
    if i >= 0 && ValidDigest(d) {
      ImportedTarget(layers[i], registry[d]);
    }
  }

  /** A cut link outlives the process that cut it. The layer was stored without the name of its
      source. A cache that fetches it learns nothing; the source is converted again, to the same
      target; but the merge finds that digest cached and keeps the nameless layer, however often this
      is repeated, so that the record never comes back. */
  lemma {:induction false} CutLayerStays(s: Descriptor, t: Descriptor, labels: Annotations, size: nat,
                                         registry: map<string, Descriptor>)
    requires SOURCE_DIGEST !in AnnotationsOf(s) && SOURCE_DIGEST !in labels && ValidDigest(s.digest) && size >= 2
    ensures var layer := Relabelled(NewItem(s, t), true, labels).target;
            var records: Records := map[s.digest := NewItem(s, t)];
            && AllLinked(records) && Available([layer], registry)
            && Imported(records, [layer], registry) == records
            && Merged([layer], TargetLayers(records, [s]), size) == [layer]
            && s.digest !in Imported(map[], [layer], registry)
  {
    var item := NewItem(s, t);
    var layer := Relabelled(item, true, labels).target;
    var records: Records := map[s.digest := item];
    assert |TARGET_DIGEST| == |SOURCE_DIGEST|;
    NamesDiffer();
    assert SourceOf(layer) == "";
    assert Linked(item);
    assert [layer][..0] == [];
    assert [s][1..] == [];
    assert TargetLayers(records, [s]) == [item.target];
    assert layer.digest == t.digest && layer.digest in Digests([layer]) by {
      assert [layer][0].digest == t.digest;
    }
    UnknownNone(Digests([layer]), [item.target]);
  }

  lemma {:induction false} NamesDiffer()
    ensures TARGET_DIGEST != SOURCE_DIGEST
  {
    assert TARGET_DIGEST[29] != SOURCE_DIGEST[29];
  }
}
