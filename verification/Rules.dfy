/** Where a conversion pushes to, and why its own pushes do not start further conversions. */
module Rules {
  import opened Wrappers
  import opened Digest
  import opened References

  /** A configured rule; an empty text means that it does not set that option. */
  datatype ConversionRule = ConversionRule(tagSuffix: string, cacheTag: string)

  datatype MapOption = TagSuffix | CacheTag

  datatype MapError = InvalidReference | AlreadyConverted | SameTag | NoRule

  /** What a request to convert a reference leads to. */
  datatype Decision = Skip(reason: MapError) | Fail(error: MapError) | Push(target: string, cacheRef: string)

  predicate HasSuffix(s: string, suffix: string) {
    |suffix| <= |s| && s[|s| - |suffix|..] == suffix
  }

  /** A reference without its digest. */
  function Undigested(r: Reference): Reference {
    r.(digest := None)
  }

  function TagNameOnly(r: Reference): Reference {
    if r.tag.None? && r.digest.None? then r.(tag := Some(LATEST)) else r
  }

  function AddSuffix(ref: string, suffix: string): Result<string, MapError> {
    match ParseNormalized(ref)
    case None => Err(InvalidReference)
    case Some(named) => Ok(Print(TagNameOnly(Undigested(named))) + suffix)
  }

  function SetReferenceTag(ref: string, tag: string): Result<string, MapError> {
    match ParseNormalized(ref)
    case None => Err(InvalidReference)
    case Some(named) =>
      if Undigested(named).tag == Some(tag) then Err(SameTag) else Ok(Name(named) + ":" + tag)
  }

  /** The suffix of the first rule that sets one, and likewise the cache tag; else empty. */
  function SuffixOf(items: seq<ConversionRule>): string {
    if items == [] then "" else if items[0].tagSuffix != "" then items[0].tagSuffix else SuffixOf(items[1..])
  }

  function CacheTagOf(items: seq<ConversionRule>): string {
    if items == [] then "" else if items[0].cacheTag != "" then items[0].cacheTag else CacheTagOf(items[1..])
  }

  /** Each option is that of the first rule that sets it, which need not be the same rule for both,
      and empty only if no rule does. */
  lemma {:induction false} FirstRuleCounts(items: seq<ConversionRule>, i: nat, k: nat)
    requires i <= |items| && k <= |items|
    requires forall j | 0 <= j < i :: items[j].tagSuffix == ""
    requires forall j | 0 <= j < k :: items[j].cacheTag == ""
    ensures i == |items| ==> SuffixOf(items) == ""
    ensures i < |items| && items[i].tagSuffix != "" ==> SuffixOf(items) == items[i].tagSuffix
    ensures k == |items| ==> CacheTagOf(items) == ""
    ensures k < |items| && items[k].cacheTag != "" ==> CacheTagOf(items) == items[k].cacheTag
  {
    if items != [] {
      FirstRuleCounts(items[1..], if i > 0 then i - 1 else 0, if k > 0 then k - 1 else 0);
    }
  }

  function Map(items: seq<ConversionRule>, ref: string, opt: MapOption): Result<string, MapError> {
    match opt
    case TagSuffix =>
      var suffix := SuffixOf(items);
      if suffix == "" then Err(NoRule)
      else if HasSuffix(ref, suffix) then Err(AlreadyConverted)
      else AddSuffix(ref, suffix)
    case CacheTag =>
      var tag := CacheTagOf(items);
      if tag == "" then Ok("") else SetReferenceTag(ref, tag)
  }

  /** The guards at the start of a conversion. */
  function Decide(items: seq<ConversionRule>, source: string): Decision {
    match Map(items, source, TagSuffix)
    case Err(e) => if e == AlreadyConverted then Skip(e) else Fail(e)
    case Ok(target) =>
      match Map(items, source, CacheTag)
      case Err(e) => if e == SameTag then Skip(e) else Fail(e)
      case Ok(cacheRef) => Push(target, cacheRef)
  }

  lemma {:induction false} ConcatHasSuffix(s: string, suffix: string)
    ensures HasSuffix(s + suffix, suffix)
  {
  }

  /** A reference of the same repository with another valid tag and no digest reads back as such. */
  lemma {:induction false} Retagged(ref: string, named: Reference, tag: string)
    requires ParseNormalized(ref) == Some(named) && ValidTag(tag)
    ensures ParseNormalized(Name(named) + ":" + tag) == Some(named.(tag := Some(tag), digest := None))
  {
    hide ParseNormalized, Canonical, ValidTag, ValidDigest, Name;
    ParsedIsCanonical(ref, named);
    var r := named.(tag := Some(tag), digest := None);
    RetaggedIsCanonical(named, Some(tag), None);
    NormalizedRoundTrip(r);
    assert Print(r) == Name(named) + ":" + tag;
  }

  lemma {:induction false} SameName(r: Reference, s: Reference)
    requires r.domain == s.domain && r.path == s.path
    ensures Name(r) == Name(s)
  {
  }

  /** Exactly when a request leads to a push, and to where: the reference does not end with the
      suffix, can be read, and does not have the cache tag. The target is the same repository, with
      the tag of the source (or "latest") and the suffix. */
  lemma {:induction false} PushesJustWhen(items: seq<ConversionRule>, source: string, target: string, cacheRef: string)
    ensures Decide(items, source) == Push(target, cacheRef) <==>
            && SuffixOf(items) != "" && !HasSuffix(source, SuffixOf(items))
            && ParseNormalized(source).Some?
            && var named := ParseNormalized(source).value;
            && !(CacheTagOf(items) != "" && named.tag == Some(CacheTagOf(items)))
            && target == Name(named) + ":" + (if named.tag.Some? then named.tag.value else LATEST) + SuffixOf(items)
            && cacheRef == if CacheTagOf(items) == "" then "" else Name(named) + ":" + CacheTagOf(items)
  {
    hide ParseNormalized, Name, SuffixOf, CacheTagOf, HasSuffix;
    if ParseNormalized(source).Some? {
      var named := ParseNormalized(source).value;
      var r := TagNameOnly(Undigested(named));
      var tag := if named.tag.Some? then named.tag.value else LATEST;
      SameName(r, named);
      assert Print(r) == Name(named) + ":" + tag;
    }
  }

  /** And what becomes of a request that leads to none: it is skipped when the reference ends with
      the suffix or has the cache tag, and fails without a rule or when it cannot be read. */
  lemma {:induction false} StopsJustWhen(items: seq<ConversionRule>, source: string)
    ensures Decide(items, source) == Fail(NoRule) <==> SuffixOf(items) == ""
    ensures Decide(items, source) == Skip(AlreadyConverted) <==>
            SuffixOf(items) != "" && HasSuffix(source, SuffixOf(items))
    ensures Decide(items, source) == Fail(InvalidReference) <==>
            SuffixOf(items) != "" && !HasSuffix(source, SuffixOf(items)) && ParseNormalized(source).None?
    ensures Decide(items, source) == Skip(SameTag) <==>
            && SuffixOf(items) != "" && !HasSuffix(source, SuffixOf(items)) && ParseNormalized(source).Some?
            && CacheTagOf(items) != "" && ParseNormalized(source).value.tag == Some(CacheTagOf(items))
  {
    hide ParseNormalized, Print, Name, SuffixOf, CacheTagOf, HasSuffix;
  }

  /** The target of a conversion is a tag of the same repository just when the tag with the suffix
      is still a valid tag. */
  lemma {:induction false} TargetIsRetagged(items: seq<ConversionRule>, source: string,
                                            target: string, cacheRef: string)
    requires Decide(items, source) == Push(target, cacheRef)
    ensures var named := ParseNormalized(source).value;
            var tag := (if named.tag.Some? then named.tag.value else LATEST) + SuffixOf(items);
            ParseNormalized(target) == Some(named.(tag := Some(tag), digest := None)) <==> ValidTag(tag)
  {
    hide ParseNormalized, SuffixOf, CacheTagOf, HasSuffix;
    PushesJustWhen(items, source, target, cacheRef);
    var named := ParseNormalized(source).value;
    var tag := (if named.tag.Some? then named.tag.value else LATEST) + SuffixOf(items);
    assert target == Name(named) + ":" + tag;
    if ValidTag(tag) {
      Retagged(source, named, tag);
    }
    if ParseNormalized(target) == Some(named.(tag := Some(tag), digest := None)) {
      ParsedIsCanonical(target, named.(tag := Some(tag), digest := None));
    }
  }

  /** The feedback loop has depth one: when the registry reports the target that a conversion pushed,
      by its tag, that report is recognised and skipped. So is a report of the cache reference, if the
      configured cache tag is a valid tag; one that is not passes the guards again just when the
      reference made with it can be read at all, as "c@sha256:..." can, whose tag is read as "c". */
  lemma {:induction false} FeedbackStops(items: seq<ConversionRule>, source: string, target: string, cacheRef: string)
    requires Decide(items, source) == Push(target, cacheRef)
    ensures Decide(items, target) == Skip(AlreadyConverted)
    ensures cacheRef != "" && ValidTag(CacheTagOf(items)) ==>
              Decide(items, cacheRef) ==
              Skip(if HasSuffix(cacheRef, SuffixOf(items)) then AlreadyConverted else SameTag)
    ensures cacheRef != "" && !ValidTag(CacheTagOf(items)) ==>
              (Decide(items, cacheRef).Push? <==>
               !HasSuffix(cacheRef, SuffixOf(items)) && ParseNormalized(cacheRef).Some?)
  {
    hide ParseNormalized, SuffixOf, CacheTagOf, Print, Name, ValidTag;
    PushesJustWhen(items, source, target, cacheRef);
    var named := ParseNormalized(source).value;
    ConcatHasSuffix(Name(named) + ":" + (if named.tag.Some? then named.tag.value else LATEST), SuffixOf(items));
    if cacheRef != "" {
      if ValidTag(CacheTagOf(items)) {
        Retagged(source, named, CacheTagOf(items));
      } else if ParseNormalized(cacheRef).Some? {
        ReadTagIsValid(cacheRef, ParseNormalized(cacheRef).value);
      }
    }
  }

  lemma {:induction false} ReadTagIsValid(ref: string, named: Reference)
    requires ParseNormalized(ref) == Some(named)
    ensures named.tag.Some? ==> ValidTag(named.tag.value)
  {
    hide ParseNormalized, WellNamed, ValidTag, ValidDigest, KeptDomain;
    ParsedIsCanonical(ref, named);
  }

  /** But a report by digest is recognised by neither guard, whether it names a tag as well or not,
      unless the digest itself ends with the suffix or the tag is the cache tag: it leads to another
      push, for the tag it names or for "latest". */
  lemma {:induction false} DigestIsConvertedAgain(items: seq<ConversionRule>, named: Reference)
    requires Canonical(named) && named.digest.Some?
    requires SuffixOf(items) != "" && !HasSuffix(Print(named), SuffixOf(items))
    requires CacheTagOf(items) != "" ==> named.tag != Some(CacheTagOf(items))
    ensures Decide(items, Print(named)) ==
            Push(Name(named) + ":" + (if named.tag.Some? then named.tag.value else LATEST) + SuffixOf(items),
                 if CacheTagOf(items) == "" then "" else Name(named) + ":" + CacheTagOf(items))
  {
    hide ParseNormalized, SuffixOf, CacheTagOf, Print, Name, HasSuffix, Canonical, Decide;
    NormalizedRoundTrip(named);
    PushesJustWhen(items, Print(named),
                   Name(named) + ":" + (if named.tag.Some? then named.tag.value else LATEST) + SuffixOf(items),
                   if CacheTagOf(items) == "" then "" else Name(named) + ":" + CacheTagOf(items));
  }

  lemma {:induction false} PrintBoth(named: Reference, tag: string, digest: string)
    ensures Print(named.(tag := Some(tag), digest := Some(digest))) == Name(named) + ":" + tag + "@" + digest
  {
    hide Name;
    var r := named.(tag := Some(tag), digest := Some(digest));
    SameName(r, named);
    Join(Name(named), ":", tag);
    Join(Name(named) + ":" + tag, "@", digest);
  }

  lemma {:induction false} Join(a: string, b: string, c: string)
    ensures a + (b + c) == a + b + c
  {
  }

  /** So the target that a conversion pushed, fed back with its digest, is converted once more and
      pushed with the suffix doubled. */
  lemma {:induction false} TargetWithDigestIsConvertedAgain(items: seq<ConversionRule>, source: string,
                                                           named: Reference, target: string, cacheRef: string,
                                                           tag: string, digest: string)
    requires ParseNormalized(source) == Some(named) && Decide(items, source) == Push(target, cacheRef)
    requires tag == (if named.tag.Some? then named.tag.value else LATEST) + SuffixOf(items) && ValidTag(tag)
    requires CacheTagOf(items) != "" ==> tag != CacheTagOf(items)
    requires ValidDigest(digest) && !HasSuffix(target + "@" + digest, SuffixOf(items))
    ensures Decide(items, target + "@" + digest) == Push(target + SuffixOf(items), cacheRef)
  {
    hide *;
    PushesJustWhen(items, source, target, cacheRef);
    ParsedIsCanonical(source, named);
    var r := named.(tag := Some(tag), digest := Some(digest));
    RetaggedIsCanonical(named, Some(tag), Some(digest));
    PrintBoth(named, tag, digest);
    Join(Name(named) + ":", if named.tag.Some? then named.tag.value else LATEST, SuffixOf(items));
    DigestIsConvertedAgain(items, r);
  }

  /** How the converter reads a reference: of a tag and a digest only the digest is kept. */
  function ParseDockerRef(ref: string): Option<Reference> {
    match ParseNormalized(ref)
    case None => None
    case Some(named) =>
      if named.tag.Some? && named.digest.Some? then Some(named.(tag := None)) else Some(TagNameOnly(named))
  }

  /** What comes of a request: behind the guards the converter reads source and target before it does
      anything else. */
  function Convert(items: seq<ConversionRule>, source: string): Decision {
    match Decide(items, source)
    case Push(target, cacheRef) =>
      if ParseDockerRef(source).None? then Fail(InvalidReference)
      else
        (match ParseDockerRef(target)
         case None => Fail(InvalidReference)
         case Some(named) => Push(Print(named), cacheRef))
    case decision => decision
  }

  /** With a suffix of tag characters, a request leads to a push if and only if it passes the guards
      and the tag with the suffix is at most 128 characters long; the push goes to the target that the
      guards computed. */
  lemma {:induction false} ConvertsJustWhen(items: seq<ConversionRule>, source: string, named: Reference)
    requires ParseNormalized(source) == Some(named) && Decide(items, source).Push? && TagText(SuffixOf(items))
    ensures var tag := if named.tag.Some? then named.tag.value else LATEST;
            Convert(items, source) ==
            if |tag + SuffixOf(items)| <= MAX_TAG then Decide(items, source) else Fail(InvalidReference)
  {
    hide ParseNormalized, SuffixOf, CacheTagOf, Decide, Print, Name, ValidTag, TagText, Canonical;
    var decision := Decide(items, source);
    var tag := if named.tag.Some? then named.tag.value else LATEST;
    PushesJustWhen(items, source, decision.target, decision.cacheRef);
    ParsedIsCanonical(source, named);
    ReadTagIsValid(source, named);
    LatestIsTag();
    SuffixedTag(tag, SuffixOf(items));
    TaggedIsReadable(named, tag + SuffixOf(items));
    Join(Name(named) + ":", tag, SuffixOf(items));
    PrintTagged(named, tag + SuffixOf(items));
  }

  lemma {:induction false} LatestIsTag()
    ensures ValidTag(LATEST)
  {
    assert forall i | 0 <= i < |LATEST| :: IsWord(LATEST[i]);
  }

  lemma {:induction false} SuffixedTag(tag: string, suffix: string)
    requires ValidTag(tag) && TagText(suffix)
    ensures TagText(tag + suffix) && (ValidTag(tag + suffix) <==> |tag + suffix| <= MAX_TAG)
  {
  }

  lemma {:induction false} PrintTagged(named: Reference, tag: string)
    ensures Print(named.(tag := Some(tag), digest := None)) == Name(named) + ":" + tag
  {
    hide Name;
    SameName(named.(tag := Some(tag), digest := None), named);
  }

  function Repeat(s: string, n: nat): string {
    if n == 0 then "" else Repeat(s, n - 1) + s
  }

  lemma {:induction false} RepeatedTag(tag: string, suffix: string, n: nat)
    requires ValidTag(tag) && TagText(suffix)
    ensures |Repeat(suffix, n)| == n * |suffix| && TagText(Repeat(suffix, n))
    ensures TagText(tag + Repeat(suffix, n))
    ensures ValidTag(tag + Repeat(suffix, n)) <==> |tag| + n * |suffix| <= MAX_TAG
  {
    if n > 0 {
      RepeatedTag(tag, suffix, n - 1);
    }
    SuffixedTag(tag, Repeat(suffix, n));
  }

  /** So the feedback by tag and digest is finite, and this long. The report of a tag with n suffixes
      leads to a push of n + 1 of them if and only if these fit into a tag; the converter refuses the
      next one. */
  lemma {:induction false} FeedbackLength(items: seq<ConversionRule>, named: Reference, tag: string, n: nat,
                                          digest: string)
    requires Canonical(named) && ValidTag(tag) && TagText(SuffixOf(items)) && SuffixOf(items) != ""
    requires |tag| + n * |SuffixOf(items)| <= MAX_TAG && ValidDigest(digest)
    requires var t := tag + Repeat(SuffixOf(items), n);
             !HasSuffix(Name(named) + ":" + t + "@" + digest, SuffixOf(items)) &&
             (CacheTagOf(items) != "" ==> t != CacheTagOf(items))
    ensures var suffix := SuffixOf(items);
            var cacheRef := if CacheTagOf(items) == "" then "" else Name(named) + ":" + CacheTagOf(items);
            Convert(items, Name(named) + ":" + (tag + Repeat(suffix, n)) + "@" + digest) ==
            if |tag| + (n + 1) * |suffix| <= MAX_TAG then
              Push(Name(named) + ":" + (tag + Repeat(suffix, n + 1)), cacheRef)
            else Fail(InvalidReference)
  {
    hide *;
    var suffix := SuffixOf(items);
    var t := tag + Repeat(suffix, n);
    RepeatedTag(tag, suffix, n);
    var r := named.(tag := Some(t), digest := Some(digest));
    RetaggedIsCanonical(named, Some(t), Some(digest));
    PrintBoth(named, t, digest);
    DigestIsConvertedAgain(items, r);
    NormalizedRoundTrip(r);
    ConvertsJustWhen(items, Print(r), r);
    RepeatStep(tag, suffix, n);
    Join(Name(named) + ":", t, suffix);
  }

  lemma {:induction false} RepeatStep(tag: string, suffix: string, n: nat)
    ensures tag + Repeat(suffix, n) + suffix == tag + Repeat(suffix, n + 1)
    ensures |Repeat(suffix, n)| == n * |suffix|
    ensures |tag + Repeat(suffix, n) + suffix| == |tag| + (n + 1) * |suffix|
  {
    if n > 0 {
      RepeatStep(tag, suffix, n - 1);
    }
  }
}
