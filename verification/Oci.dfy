/** Descriptors and manifests of the OCI image specification. */
module Oci {
  import opened Wrappers

  type Annotations = map<string, string>

  /** The digest of the source layer or image that something was converted from. */
  const SOURCE_DIGEST := "containerd.io/snapshot/nydus-source-digest"

  const OCI_MANIFEST := "application/vnd.oci.image.manifest.v1+json"
  const OCI_INDEX := "application/vnd.oci.image.index.v1+json"

  datatype Platform = Platform(os: string, architecture: string, osVersion: string, variant: string)

  datatype Descriptor = Descriptor(
    mediaType: string, digest: string, size: nat, platform: Option<Platform>, urls: seq<string>,
    artifactType: string, annotations: Option<Annotations>)

  datatype Manifest = Manifest(
    mediaType: string, config: Descriptor, layers: seq<Descriptor>, annotations: Option<Annotations>)

  /** Missing annotations read as none. */
  function Entries(annotations: Option<Annotations>): Annotations {
    if annotations.Some? then annotations.value else map[]
  }

  function With(annotations: Option<Annotations>, key: string, value: string): Option<Annotations> {
    Some(Entries(annotations)[key := value])
  }

  /** One annotation says `value` afterwards, and every other one is there just if it was, unchanged. */
  predicate Sets(before: Option<Annotations>, key: string, value: string, after: Option<Annotations>) {
    && after.Some? && after.value.Keys == Entries(before).Keys + {key} && after.value[key] == value
    && forall k | k in Entries(before) && k != key :: after.value[k] == Entries(before)[k]
  }

  lemma {:induction false} WithSets(annotations: Option<Annotations>, key: string, value: string)
    ensures Sets(annotations, key, value, With(annotations, key, value))
  {
  }
}
