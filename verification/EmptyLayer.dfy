/** Rewriting an OCI image so that a runtime can share none of its layers with a stock image. */
module EmptyLayer {
  import opened Wrappers
  import opened ChainIds
  import opened Oci

  const EMPTY_LAYER := "containerd.io/snapshot/nydus-empty-layer"

  /** The digest of the empty tar archive. */
  const EMPTY_DIFF_ID := "sha256:5f70bf18a086007016e948b04aed3b82103a36bea41755b6cddfaf10ace3c6ef"

  const OCI_LAYER := "application/vnd.oci.image.layer.v1.tar+gzip"
  const OCI_CONFIG := "application/vnd.oci.image.config.v1+json"
  const DOCKER_MANIFEST := "application/vnd.docker.distribution.manifest.v2+json"
  const DOCKER_SCHEMA1 := "application/vnd.docker.distribution.manifest.v1+prettyjws"
  const DOCKER_LAYER := "application/vnd.docker.image.rootfs.diff.tar.gzip"
  const DOCKER_CONFIG := "application/vnd.docker.container.image.v1+json"

  const SOURCE_REFERENCE := "containerd.io/snapshot/nydus-source-reference"
  const FS_VERSION := "containerd.io/snapshot/nydus-fs-version"
  const BUILDER_VERSION := "containerd.io/snapshot/nydus-builder-version"

  const NYDUS_IMAGE := "application/vnd.nydus.image.manifest.v1+json"

  datatype History = History(createdBy: string, comment: string, emptyLayer: bool)

  datatype Config = Config(platform: Platform, diffIds: seq<string>, history: seq<History>)

  datatype Blob =
    | ManifestBlob(manifest: Manifest)
    | ConfigBlob(config: Config)
    | IndexBlob(manifests: seq<Descriptor>, annotations: Annotations)
    | EmptyArchive
    | OtherBlob(text: string)

  /** How blobs are written out: their digests and sizes. */
  datatype Encoding = Encoding(digest: Blob -> string, size: Blob -> nat)

  datatype PrependError = NoManifest | BadManifest | NoConfig | BadConfig

  ghost predicate Faithful(enc: Encoding) {
    forall a, b | enc.digest(a) == enc.digest(b) :: a == b
  }

  function Plain(enc: Encoding, mediaType: string, blob: Blob): Descriptor {
    Descriptor(mediaType, enc.digest(blob), enc.size(blob), None, [], "", None)
  }

  /** A descriptor says how long the blob is that it leads to. */
  predicate Fits(enc: Encoding, blobs: map<string, Blob>, d: Descriptor) {
    d.digest in blobs && d.size == enc.size(blobs[d.digest])
  }

  /** The media types of a layer and of a config that go with a kind of manifest; an unknown kind
      gives none. */
  predicate TypesFor(mediaType: string, layerType: string, configType: string) {
    if mediaType == OCI_MANIFEST then layerType == OCI_LAYER && configType == OCI_CONFIG
    else if mediaType == DOCKER_MANIFEST || mediaType == DOCKER_SCHEMA1 then
      layerType == DOCKER_LAYER && configType == DOCKER_CONFIG
    else layerType == "" && configType == ""
  }

  /** A content-addressed store. */
  class Store {
    const enc: Encoding
    var blobs: map<string, Blob>

    ghost predicate Valid()
      reads this
    {
      Faithful(enc) && forall d | d in blobs :: enc.digest(blobs[d]) == d
    }

    /** Writing a blob that is there already does nothing. */
    method Write(blob: Blob)
      requires Valid()
      modifies this
      ensures Valid() && blobs == old(blobs)[enc.digest(blob) := blob]
    {
      var d := enc.digest(blob);
      if d !in blobs {
        blobs := blobs[d := blob];
      }
    }
  }

  /** The manifest and the config that a manifest descriptor leads to. */
  function Image(blobs: map<string, Blob>, d: Descriptor): Result<(Manifest, Config), PrependError> {
    if d.digest !in blobs then Err(NoManifest)
    else if !blobs[d.digest].ManifestBlob? then Err(BadManifest)
    else
      var m := blobs[d.digest].manifest;
      if m.config.digest !in blobs then Err(NoConfig)
      else if !blobs[m.config.digest].ConfigBlob? then Err(BadConfig)
      else Ok((m, blobs[m.config.digest].config))
  }

  /** One image is another with an empty layer put under it: the layers, the DiffIDs and the
      history are those of the other after one more entry, and the manifest says where it comes from. */
  predicate IsPrepended(enc: Encoding, source: Descriptor, m: Manifest, c: Config, m': Manifest, c': Config) {
    && m'.mediaType == m.mediaType && Sets(m.annotations, SOURCE_DIGEST, source.digest, m'.annotations)
    && |m'.layers| == 1 + |m.layers| && m'.layers[1..] == m.layers
    && m'.layers[0].digest == enc.digest(EmptyArchive) && m'.layers[0].size == enc.size(EmptyArchive)
    && m'.layers[0].annotations == Some(map[EMPTY_LAYER := "true"]) && Bare(m'.layers[0])
    && m'.config.digest == enc.digest(ConfigBlob(c')) && m'.config.size == enc.size(ConfigBlob(c'))
    && m'.config.annotations == None && Bare(m'.config)
    && TypesFor(m.mediaType, m'.layers[0].mediaType, m'.config.mediaType)
    && c'.platform == c.platform
    && c'.diffIds == [EMPTY_DIFF_ID] + c.diffIds
    && c'.history == [History("Nydus Converter", "Nydus Empty Layer", false)] + c.history
  }

  predicate Bare(d: Descriptor) {
    d.platform == None && d.urls == [] && d.artifactType == ""
  }

  /** The descriptor returned for a rewritten image keeps what the original descriptor says, and
      names the platform of the config if that says nothing. */
  predicate Redescribes(source: Descriptor, d: Descriptor, mediaType: string, c: Config) {
    && d.mediaType == mediaType && d.urls == source.urls && d.artifactType == source.artifactType
    && d.platform == Some(if source.platform.Some? then source.platform.value else c.platform)
    && Sets(source.annotations, SOURCE_DIGEST, source.digest, d.annotations)
  }

  /** `d` leads to the image that `source` leads to, with an empty layer put under it. All that was
      written has the length that is said of it. */
  predicate Prepended(enc: Encoding, blobs: map<string, Blob>, source: Descriptor, d: Descriptor) {
    && Image(blobs, source).Ok? && Image(blobs, d).Ok?
    && var (m, c), (m', c') := Image(blobs, source).value, Image(blobs, d).value;
    && IsPrepended(enc, source, m, c, m', c')
    && Redescribes(source, d, m.mediaType, c)
    && Fits(enc, blobs, d) && Fits(enc, blobs, m'.config)
    && Fits(enc, blobs, m'.layers[0]) && blobs[m'.layers[0].digest] == EmptyArchive
  }

  /** The three blobs of a rewritten image, written to a store that has the source image. */
  function Rewritten(enc: Encoding, blobs: map<string, Blob>, m: Manifest, c: Config): map<string, Blob> {
    blobs[enc.digest(ConfigBlob(c)) := ConfigBlob(c)][enc.digest(EmptyArchive) := EmptyArchive]
         [enc.digest(ManifestBlob(m)) := ManifestBlob(m)]
  }

  lemma {:induction false} RewrittenIsPrepended(enc: Encoding, blobs: map<string, Blob>, source: Descriptor,
                                                d: Descriptor, m: Manifest, c: Config, m': Manifest, c': Config)
    requires Faithful(enc) && forall x | x in blobs :: enc.digest(blobs[x]) == x
    requires Image(blobs, source) == Ok((m, c)) && IsPrepended(enc, source, m, c, m', c')
    requires Redescribes(source, d, m.mediaType, c)
    requires d.digest == enc.digest(ManifestBlob(m')) && d.size == enc.size(ManifestBlob(m'))
    ensures Prepended(enc, Rewritten(enc, blobs, m', c'), source, d)
    ensures forall x | x in blobs ::
              x in Rewritten(enc, blobs, m', c') && Rewritten(enc, blobs, m', c')[x] == blobs[x]
  {
    hide IsPrepended, Redescribes, Sets;
    var after := Rewritten(enc, blobs, m', c');
    RewrittenKeeps(enc, blobs, m', c');
    ImageStays(blobs, after, source);
    NewParts(enc, source, m, c, m', c');
    assert Image(after, d) == Ok((m', c')) by {
      assert ConfigBlob(c') != ManifestBlob(m') && ConfigBlob(c') != EmptyArchive;
    }
  }

  lemma {:induction false} NewParts(enc: Encoding, source: Descriptor, m: Manifest, c: Config, m': Manifest,
                                    c': Config)
    requires IsPrepended(enc, source, m, c, m', c')
    ensures m'.config.digest == enc.digest(ConfigBlob(c')) && m'.config.size == enc.size(ConfigBlob(c'))
    ensures m'.layers != [] && m'.layers[0].digest == enc.digest(EmptyArchive)
    ensures m'.layers[0].size == enc.size(EmptyArchive)
  {
  }

  lemma {:induction false} RewrittenKeeps(enc: Encoding, blobs: map<string, Blob>, m: Manifest, c: Config)
    requires Faithful(enc) && forall x | x in blobs :: enc.digest(blobs[x]) == x
    ensures forall x | x in blobs :: x in Rewritten(enc, blobs, m, c) && Rewritten(enc, blobs, m, c)[x] == blobs[x]
  {
  }

  method PrependEmptyLayer(cs: Store, manifestDesc: Descriptor) returns (r: Result<Descriptor, PrependError>)
    requires cs.Valid()
    modifies cs
    ensures cs.Valid()
    ensures forall d | d in old(cs.blobs) :: d in cs.blobs && cs.blobs[d] == old(cs.blobs)[d]
    ensures Image(old(cs.blobs), manifestDesc).Err? ==>
              r == Err(Image(old(cs.blobs), manifestDesc).error) && cs.blobs == old(cs.blobs)
    ensures Image(old(cs.blobs), manifestDesc).Ok? ==> r.Ok? && Prepended(cs.enc, cs.blobs, manifestDesc, r.value)
  {
    hide Faithful, Prepended, IsPrepended, Redescribes;
    ghost var before := cs.blobs;
    if manifestDesc.digest !in cs.blobs {
      return Err(NoManifest);
    }
    if !cs.blobs[manifestDesc.digest].ManifestBlob? {
      return Err(BadManifest);
    }
    var manifest := cs.blobs[manifestDesc.digest].manifest;
    if manifest.config.digest !in cs.blobs {
      return Err(NoConfig);
    }
    if !cs.blobs[manifest.config.digest].ConfigBlob? {
      return Err(BadConfig);
    }
    var config := cs.blobs[manifest.config.digest].config;
    ghost var m, c := manifest, config;

    var emptyLayerMediaType, configMediaType := "", "";
    if manifest.mediaType == OCI_MANIFEST {
      emptyLayerMediaType, configMediaType := OCI_LAYER, OCI_CONFIG;
    } else if manifest.mediaType == DOCKER_MANIFEST || manifest.mediaType == DOCKER_SCHEMA1 {
      emptyLayerMediaType, configMediaType := DOCKER_LAYER, DOCKER_CONFIG;
    }
    var emptyDescriptor :=
      Plain(cs.enc, emptyLayerMediaType, EmptyArchive).(annotations := Some(map[EMPTY_LAYER := "true"]));
    manifest := manifest.(layers := [emptyDescriptor] + manifest.layers,
                          annotations := With(manifest.annotations, SOURCE_DIGEST, manifestDesc.digest));
    config := config.(diffIds := [EMPTY_DIFF_ID] + config.diffIds,
                      history := [History("Nydus Converter", "Nydus Empty Layer", false)] + config.history);
    var newConfigDesc := Plain(cs.enc, configMediaType, ConfigBlob(config));
    manifest := manifest.(config := newConfigDesc);
    var newManifestDesc := Plain(cs.enc, manifest.mediaType, ManifestBlob(manifest));
    newManifestDesc := newManifestDesc.(
      platform := if manifestDesc.platform.None? then Some(config.platform) else manifestDesc.platform,
      urls := manifestDesc.urls,
      artifactType := manifestDesc.artifactType,
      annotations := With(manifestDesc.annotations, SOURCE_DIGEST, manifestDesc.digest));

    cs.Write(ConfigBlob(config));
    cs.Write(EmptyArchive);
    cs.Write(ManifestBlob(manifest));
    PrependedParts(cs.enc, manifestDesc, m, c, emptyLayerMediaType, configMediaType, manifest, config, newManifestDesc);
    RewrittenIsPrepended(cs.enc, before, manifestDesc, newManifestDesc, m, c, manifest, config);
    return Ok(newManifestDesc);
  }

  lemma {:induction false} PrependedParts(enc: Encoding, source: Descriptor, m: Manifest, c: Config,
                                          layerType: string, configType: string, m': Manifest, c': Config,
                                          d: Descriptor)
    requires TypesFor(m.mediaType, layerType, configType)
    requires c' == c.(diffIds := [EMPTY_DIFF_ID] + c.diffIds,
                      history := [History("Nydus Converter", "Nydus Empty Layer", false)] + c.history)
    requires m' == m.(layers := [Plain(enc, layerType, EmptyArchive).(
                                   annotations := Some(map[EMPTY_LAYER := "true"]))] + m.layers,
                      annotations := With(m.annotations, SOURCE_DIGEST, source.digest),
                      config := Plain(enc, configType, ConfigBlob(c')))
    requires d == Plain(enc, m.mediaType, ManifestBlob(m')).(
               platform := if source.platform.None? then Some(c.platform) else source.platform,
               urls := source.urls, artifactType := source.artifactType,
               annotations := With(source.annotations, SOURCE_DIGEST, source.digest))
    ensures IsPrepended(enc, source, m, c, m', c') && Redescribes(source, d, m.mediaType, c)
    ensures d.digest == enc.digest(ManifestBlob(m')) && d.size == enc.size(ManifestBlob(m'))
  {
    hide Sets;
    WithSets(m.annotations, SOURCE_DIGEST, source.digest);
    WithSets(source.annotations, SOURCE_DIGEST, source.digest);
  }

  function Filled(history: seq<History>): nat {
    if history == [] then 0
    else (if history[0].emptyLayer then 0 else 1) + Filled(history[1..])
  }

  /** Every layer has a DiffID and, where there is a history at all, an entry of it. */
  predicate Aligned(m: Manifest, c: Config) {
    |c.diffIds| == |m.layers| && (c.history == [] || Filled(c.history) == |m.layers|)
  }

  /** Layers, DiffIDs and history still line up, unless the history was left out of an image that
      has layers: then the new entry is the only one. */
  lemma {:induction false} AlignmentKept(enc: Encoding, source: Descriptor, m: Manifest, c: Config,
                                         m': Manifest, c': Config)
    requires IsPrepended(enc, source, m, c, m', c') && Aligned(m, c)
    ensures |c'.diffIds| == |m'.layers|
    ensures Aligned(m', c') <==> c.history != [] || m.layers == []
  {
    assert c'.history[1..] == c.history;
    assert Filled(c'.history) == 1 + Filled(c.history);
  }

  /** The rewritten image shares no layer with any image, except one that starts with the empty
      layer itself. */
  lemma {:induction false} NoLayerReuse(enc: Encoding, blobs: map<string, Blob>, source: Descriptor, d: Descriptor,
                                        hash: string -> string, stock: seq<string>)
    requires Prepended(enc, blobs, source, d)
    requires CollisionFree(hash) && AreDiffIds(hash, stock) && IsDiffId(hash, EMPTY_DIFF_ID)
    requires AreDiffIds(hash, Image(blobs, source).value.1.diffIds)
    ensures Sharing(hash, Image(blobs, d).value.1.diffIds, stock) <==> stock != [] && stock[0] == EMPTY_DIFF_ID
  {
    var before, after := Image(blobs, source).value.1.diffIds, Image(blobs, d).value.1.diffIds;
    assert forall i | 1 <= i < |after| :: after[i] == before[i - 1];
    SharingNeedsSameBase(hash, after, stock);
  }

  lemma {:induction false} PrependedStays(enc: Encoding, blobs: map<string, Blob>, blobs': map<string, Blob>,
                                          source: Descriptor, d: Descriptor)
    requires Prepended(enc, blobs, source, d)
    requires forall x | x in blobs :: x in blobs' && blobs'[x] == blobs[x]
    ensures Prepended(enc, blobs', source, d)
  {
  }

  /** The nydus manifest at position i of a merged index: marked as such, and for the platform of
      the OCI manifest at the same position if it names none itself. */
  predicate MarkedNydus(ociDescs: seq<Descriptor>, i: nat, nydus: Descriptor, d: Descriptor, default: Platform) {
    d == nydus.(artifactType := NYDUS_IMAGE,
                platform := if nydus.platform.Some? then nydus.platform
                            else if i < |ociDescs| && ociDescs[i].platform.Some? then ociDescs[i].platform
                            else Some(default))
  }

  /** What an index says of itself; a builder that does not tell its version is left out. */
  predicate DescribesSource(annotations: Annotations, source: Descriptor, sourceRef: string, origin: Origin) {
    && annotations.Keys == {SOURCE_DIGEST, SOURCE_REFERENCE, FS_VERSION} +
                           (if origin.builderVersion == "" then {} else {BUILDER_VERSION})
    && annotations[SOURCE_DIGEST] == source.digest
    && annotations[SOURCE_REFERENCE] == sourceRef
    && annotations[FS_VERSION] == origin.fsVersion
    && (origin.builderVersion != "" ==> annotations[BUILDER_VERSION] == origin.builderVersion)
  }

  /** What the driver knows apart from the image. */
  datatype Origin = Origin(fsVersion: string, builderVersion: string, defaultPlatform: Platform)

  /** The manifests of an index: the rewritten OCI manifests in their positions, then the nydus ones. */
  ghost predicate OffersBoth(enc: Encoding, blobs: map<string, Blob>, oci: seq<Descriptor>, nydus: seq<Descriptor>,
                             descs: seq<Descriptor>, default: Platform)
  {
    && |descs| == |oci| + |nydus|
    && (forall i | 0 <= i < |oci| :: Prepended(enc, blobs, oci[i], descs[i]))
    && (forall i | 0 <= i < |nydus| :: MarkedNydus(descs[..|oci|], i, nydus[i], descs[|oci| + i], default))
  }

  lemma {:induction false} OffersStay(enc: Encoding, blobs: map<string, Blob>, blobs': map<string, Blob>,
                                      oci: seq<Descriptor>, nydus: seq<Descriptor>, descs: seq<Descriptor>,
                                      default: Platform)
    requires OffersBoth(enc, blobs, oci, nydus, descs, default)
    requires forall x | x in blobs :: x in blobs' && blobs'[x] == blobs[x]
    ensures OffersBoth(enc, blobs', oci, nydus, descs, default)
  {
    hide Prepended;
    forall i | 0 <= i < |oci|
      ensures Prepended(enc, blobs', oci[i], descs[i])
    {
      PrependedStays(enc, blobs, blobs', oci[i], descs[i]);
    }
  }

  /** The loop that rewrites the OCI manifests in place. */
  method PrependAll(cs: Store, oci: seq<Descriptor>) returns (r: Result<seq<Descriptor>, PrependError>)
    requires cs.Valid()
    modifies cs
    ensures cs.Valid()
    ensures forall d | d in old(cs.blobs) :: d in cs.blobs && cs.blobs[d] == old(cs.blobs)[d]
    ensures r.Err? ==> exists i :: 0 <= i < |oci| && Image(old(cs.blobs), oci[i]).Err?
    ensures r.Ok? ==> |r.value| == |oci| && forall i | 0 <= i < |oci| :: Prepended(cs.enc, cs.blobs, oci[i], r.value[i])
  {
    hide Prepended, Image;
    var ociDescs := oci;
    for idx := 0 to |oci|
      invariant cs.Valid() && |ociDescs| == |oci|
      invariant forall d | d in old(cs.blobs) :: d in cs.blobs && cs.blobs[d] == old(cs.blobs)[d]
      invariant forall i | 0 <= i < idx :: Prepended(cs.enc, cs.blobs, oci[i], ociDescs[i])
      invariant forall i | idx <= i < |oci| :: ociDescs[i] == oci[i]
    {
      ghost var before := cs.blobs;
      var desc := PrependEmptyLayer(cs, ociDescs[idx]);
      match desc
      case Err(e) =>
        ImageStays(old(cs.blobs), before, oci[idx]);
        return Err(e);
      case Ok(d) =>
        forall i | 0 <= i < idx
          ensures Prepended(cs.enc, cs.blobs, oci[i], ociDescs[i])
        {
          PrependedStays(cs.enc, before, cs.blobs, oci[i], ociDescs[i]);
        }
        ociDescs := ociDescs[idx := d];
    }
    return Ok(ociDescs);
  }

  /** The loop that marks the nydus manifests in place. */
  method MarkAll(ociDescs: seq<Descriptor>, nydus: seq<Descriptor>, default: Platform) returns (descs: seq<Descriptor>)
    ensures |descs| == |nydus|
    ensures forall i | 0 <= i < |nydus| :: MarkedNydus(ociDescs, i, nydus[i], descs[i], default)
  {
    descs := nydus;
    for idx := 0 to |nydus|
      invariant |descs| == |nydus|
      invariant forall i | 0 <= i < idx :: MarkedNydus(ociDescs, i, nydus[i], descs[i], default)
      invariant forall i | idx <= i < |nydus| :: descs[i] == nydus[i]
    {
      var desc := descs[idx];
      if desc.platform.None? {
        if idx < |ociDescs| && ociDescs[idx].platform.Some? {
          desc := desc.(platform := ociDescs[idx].platform);
        } else {
          desc := desc.(platform := Some(default));
        }
      }
      desc := desc.(artifactType := NYDUS_IMAGE);
      descs := descs[idx := desc];
    }
  }

  /** Writes the index that offers both the OCI image and its conversion, and returns where it is.
      Every OCI manifest in it is rewritten, in its position, before the nydus manifests follow. */
  method MakeManifestIndex(cs: Store, source: Descriptor, sourceRef: string, oci: seq<Descriptor>,
                           nydus: seq<Descriptor>, origin: Origin)
    returns (r: Result<Descriptor, PrependError>)
    requires cs.Valid()
    modifies cs
    ensures cs.Valid()
    ensures forall d | d in old(cs.blobs) :: d in cs.blobs && cs.blobs[d] == old(cs.blobs)[d]
    ensures r.Err? ==> exists i :: 0 <= i < |oci| && Image(old(cs.blobs), oci[i]).Err?
    ensures r.Ok? ==>
              && r.value.digest in cs.blobs && cs.blobs[r.value.digest].IndexBlob?
              && var index := cs.blobs[r.value.digest];
              && r.value == Descriptor(OCI_INDEX, r.value.digest, cs.enc.size(index), None, [], "", None)
              && DescribesSource(index.annotations, source, sourceRef, origin)
              && OffersBoth(cs.enc, cs.blobs, oci, nydus, index.manifests, origin.defaultPlatform)
  {
    hide Prepended, Image, MarkedNydus;
    var prepended := PrependAll(cs, oci);
    match prepended
    case Err(e) => return Err(e);
    case Ok(ociDescs) =>
      var nydusDescs := MarkAll(ociDescs, nydus, origin.defaultPlatform);
      var descs := ociDescs + nydusDescs;
      assert descs[..|oci|] == ociDescs;
      var annotations :=
        map[SOURCE_DIGEST := source.digest, SOURCE_REFERENCE := sourceRef, FS_VERSION := origin.fsVersion];
      if origin.builderVersion != "" {
        annotations := annotations[BUILDER_VERSION := origin.builderVersion];
      }
      DescribedSource(annotations, source, sourceRef, origin);
      var index := IndexBlob(descs, annotations);
      ghost var before := cs.blobs;
      assert OffersBoth(cs.enc, before, oci, nydus, descs, origin.defaultPlatform);
      cs.Write(index);
      Overwritten(cs.enc, before, index);
      OffersStay(cs.enc, before, cs.blobs, oci, nydus, descs, origin.defaultPlatform);
      return Ok(Plain(cs.enc, OCI_INDEX, index));
  }

  lemma {:induction false} DescribedSource(annotations: Annotations, source: Descriptor, sourceRef: string,
                                           origin: Origin)
    requires var first :=
               map[SOURCE_DIGEST := source.digest, SOURCE_REFERENCE := sourceRef, FS_VERSION := origin.fsVersion];
             annotations == if origin.builderVersion == "" then first
                            else first[BUILDER_VERSION := origin.builderVersion]
    ensures DescribesSource(annotations, source, sourceRef, origin)
  {
    assert |SOURCE_DIGEST| != |SOURCE_REFERENCE| && |SOURCE_DIGEST| != |FS_VERSION|;
    assert |SOURCE_REFERENCE| != |FS_VERSION| && |SOURCE_DIGEST| != |BUILDER_VERSION|;
    assert |SOURCE_REFERENCE| != |BUILDER_VERSION| && |FS_VERSION| != |BUILDER_VERSION|;
  }

  /** Writing a blob replaces nothing else. */
  lemma {:induction false} Overwritten(enc: Encoding, blobs: map<string, Blob>, blob: Blob)
    requires Faithful(enc) && forall d | d in blobs :: enc.digest(blobs[d]) == d
    ensures forall d | d in blobs :: blobs[enc.digest(blob) := blob][d] == blobs[d]
  {
  }

  lemma {:induction false} ImageStays(blobs: map<string, Blob>, blobs': map<string, Blob>, d: Descriptor)
    requires forall x | x in blobs :: x in blobs' && blobs'[x] == blobs[x]
    ensures Image(blobs, d).Ok? ==> Image(blobs', d) == Image(blobs, d)
  {
  }
}
