/** Image references, "host:port/path:tag@digest", read and written as the distribution project's
    reference library (v0.6.0) does it. */
module References {
  import opened Wrappers
  import opened Decimal
  import opened Digest
  import opened Text

  /** The domain is empty where the grammar takes the whole name for a path. */
  datatype Reference = Reference(domain: string, path: string, tag: Option<string>, digest: Option<string>)

  const MAX_PATH := 255
  const MAX_TAG := 128
  const LATEST := "latest"
  const DEFAULT_DOMAIN := "docker.io"
  const LEGACY_DOMAIN := "index.docker.io"
  const LOCALHOST := "localhost"
  const OFFICIAL_PREFIX := "library/"

  predicate IsLower(c: char) {
    'a' <= c <= 'z'
  }

  predicate IsUpper(c: char) {
    'A' <= c <= 'Z'
  }

  predicate IsWord(c: char) {
    IsLower(c) || IsDigit(c)
  }

  predicate HasUpper(s: string) {
    exists i | 0 <= i < |s| :: IsUpper(s[i])
  }

  /** What may stand at position i of a path component: a dot, one or two underscores or any number
      of dashes separate runs of lower-case letters and digits. */
  predicate ComponentAt(s: string, i: nat)
    requires i < |s|
  {
    IsWord(s[i]) ||
    (0 < i < |s| - 1 &&
     if s[i] == '.' then IsWord(s[i - 1]) && IsWord(s[i + 1])
     else if s[i] == '-' then (IsWord(s[i - 1]) || s[i - 1] == '-') && (IsWord(s[i + 1]) || s[i + 1] == '-')
     else s[i] == '_' && (IsWord(s[i - 1]) || IsWord(s[i + 1])) &&
          (IsWord(s[i - 1]) || s[i - 1] == '_') && (IsWord(s[i + 1]) || s[i + 1] == '_'))
  }

  predicate ValidComponent(s: string) {
    s != "" && forall i | 0 <= i < |s| :: ComponentAt(s, i)
  }

  /** Components separated by slashes. */
  predicate ValidPath(s: string) {
    var i := IndexOf(s, '/');
    if i < 0 then ValidComponent(s) else ValidComponent(s[..i]) && ValidPath(s[i + 1..])
  }

  predicate ValidLabel(s: string) {
    && s != "" && s[0] != '-' && s[|s| - 1] != '-'
    && forall i | 0 <= i < |s| :: IsWord(s[i]) || IsUpper(s[i]) || s[i] == '-'
  }

  predicate ValidHost(s: string) {
    var i := IndexOf(s, '.');
    if i < 0 then ValidLabel(s) else ValidLabel(s[..i]) && ValidHost(s[i + 1..])
  }

  /** What may stand between the brackets of a host in IPv6 notation. */
  predicate IsAddressChar(c: char) {
    IsDigit(c) || 'a' <= c <= 'f' || 'A' <= c <= 'F' || c == ':'
  }

  /** The bracketed address at the start of a text ends before this position; 0 if there is none. */
  function AddressEnd(s: string): (n: nat)
    ensures n <= |s|
  {
    var i := IndexOf(s, ']');
    if i > 1 && s[0] == '[' && forall k | 0 < k < i :: IsAddressChar(s[k]) then i + 1 else 0
  }

  /** Where the host part of a domain ends. */
  function HostEnd(s: string): (n: nat)
    ensures n <= |s|
  {
    if AddressEnd(s) > 0 then AddressEnd(s)
    else
      var i := IndexOf(s, ':');
      if i < 0 then |s| else i
  }

  /** A host name or a bracketed address, with an optional port. */
  predicate ValidDomain(s: string) {
    var n := HostEnd(s);
    && (AddressEnd(s) > 0 || ValidHost(s[..n]))
    && (n < |s| ==> s[n] == ':' && n + 1 < |s| && forall k | n < k < |s| :: IsDigit(s[k]))
  }

  /** The characters a tag is made of. */
  predicate IsTagChar(c: char) {
    IsWord(c) || IsUpper(c) || c in {'_', '.', '-'}
  }

  predicate TagText(s: string) {
    forall i | 0 <= i < |s| :: IsTagChar(s[i])
  }

  predicate ValidTag(s: string) {
    0 < |s| <= MAX_TAG && s[0] != '.' && s[0] != '-' && TagText(s)
  }

  function Name(r: Reference): string {
    if r.domain == "" then r.path else r.domain + "/" + r.path
  }

  function TagPart(r: Reference): string {
    if r.tag.Some? then ":" + r.tag.value else ""
  }

  function DigestPart(r: Reference): string {
    if r.digest.Some? then "@" + r.digest.value else ""
  }

  function Print(r: Reference): string {
    Name(r) + TagPart(r) + DigestPart(r)
  }

  /** A name is read as domain and path where its first component can be a domain. */
  function ParseName(name: string): Option<(string, string)> {
    var i := IndexOf(name, '/');
    if i >= 0 && ValidDomain(name[..i]) && ValidPath(name[i + 1..]) then Some((name[..i], name[i + 1..]))
    else if ValidPath(name) then Some(("", name))
    else None
  }

  function ParseTagged(left: string, digest: Option<string>): Option<Reference> {
    var colon := LastIndexOf(left, ':');
    var tagged := colon > LastIndexOf(left, '/');
    var name := if tagged then left[..colon] else left;
    var tag := if tagged then Some(left[colon + 1..]) else None;
    if tag.Some? && !ValidTag(tag.value) then None
    else
      match ParseName(name)
      case None => None
      case Some((domain, path)) =>
        if |path| > MAX_PATH then None else Some(Reference(domain, path, tag, digest))
  }

  function ParseReference(s: string): Option<Reference> {
    var at := IndexOf(s, '@');
    if at < 0 then ParseTagged(s, None)
    else if ValidDigest(s[at + 1..]) then ParseTagged(s[..at], Some(s[at + 1..]))
    else None
  }

  /** Where the first component of a name is not taken for a domain, the default one is meant. */
  function SplitDockerDomain(s: string): (string, string) {
    var i := IndexOf(s, '/');
    var (domain, remainder) :=
      if i < 0 then (DEFAULT_DOMAIN, OFFICIAL_PREFIX + s)
      else
        var first := s[..i];
        if first == LOCALHOST then (first, s[i + 1..])
        else if first == LEGACY_DOMAIN then (DEFAULT_DOMAIN, s[i + 1..])
        else if '.' in first || ':' in first || HasUpper(first) then (first, s[i + 1..])
        else (DEFAULT_DOMAIN, s);
    if i >= 0 && domain == DEFAULT_DOMAIN && '/' !in remainder then (domain, OFFICIAL_PREFIX + remainder)
    else (domain, remainder)
  }

  function ParseNormalized(s: string): Option<Reference> {
    if HexOf(s, 64) then None
    else
      var (domain, remainder) := SplitDockerDomain(s);
      var colon := IndexOf(remainder, ':');
      if HasUpper(if colon < 0 then remainder else remainder[..colon]) then None
      else ParseReference(domain + "/" + remainder)
  }

  predicate WellNamed(domain: string, path: string) {
    && ValidPath(path)
    && if domain == "" then
         var i := IndexOf(path, '/');
         !(i >= 0 && ValidDomain(path[..i]) && ValidPath(path[i + 1..]))
       else ValidDomain(domain)
  }

  /** What is read from the part before a digest. */
  predicate WellTagged(r: Reference) {
    WellNamed(r.domain, r.path) && |r.path| <= MAX_PATH && (r.tag.Some? ==> ValidTag(r.tag.value))
  }

  predicate WellFormed(r: Reference) {
    WellTagged(r) && (r.digest.Some? ==> ValidDigest(r.digest.value))
  }

  predicate PathChar(c: char) {
    c != ':' && c != '@' && !IsUpper(c)
  }

  lemma {:induction false} ComponentChars(s: string, k: nat)
    requires ValidComponent(s) && k < |s|
    ensures PathChar(s[k])
  {
    assert ComponentAt(s, k);
  }

  lemma {:induction false} PathCharAt(s: string, k: nat)
    requires ValidPath(s) && k < |s|
    ensures PathChar(s[k])
    decreases |s|
  {
    var i := IndexOf(s, '/');
    if i < 0 {
      ComponentChars(s, k);
    } else if k < i {
      ComponentChars(s[..i], k);
    } else if k > i {
      PathCharAt(s[i + 1..], k - i - 1);
    }
  }

  lemma {:induction false} PathChars(s: string)
    requires ValidPath(s)
    ensures s != "" && ':' !in s && '@' !in s && !HasUpper(s)
  {
    forall k: nat | k < |s|
      ensures PathChar(s[k])
    {
      PathCharAt(s, k);
    }
  }

  predicate HostChar(c: char) {
    c != '/' && c != '@'
  }

  lemma {:induction false} HostCharAt(s: string, k: nat)
    requires ValidHost(s) && k < |s|
    ensures HostChar(s[k])
    decreases |s|
  {
    var i := IndexOf(s, '.');
    if i >= 0 && k > i {
      HostCharAt(s[i + 1..], k - i - 1);
    } else if i >= 0 && k < i {
      assert s[..i][k] == s[k];
    }
  }

  lemma {:induction false} DomainChars(s: string)
    requires ValidDomain(s)
    ensures s != "" && '/' !in s && '@' !in s
  {
    hide ValidHost;
    var n := HostEnd(s);
    if AddressEnd(s) == 0 {
      HostNotEmpty(s[..n]);
    }
    forall k: nat | k < |s|
      ensures HostChar(s[k])
    {
      if AddressEnd(s) == 0 && k < n {
        HostCharAt(s[..n], k);
      }
    }
  }

  lemma {:induction false} HostNotEmpty(s: string)
    requires ValidHost(s)
    ensures s != ""
  {
  }

  lemma {:induction false} SlashedParts(domain: string, path: string)
    requires '/' !in domain
    ensures var name, i := domain + "/" + path, |domain|;
            IndexOf(name, '/') == i && i < |name| && name[..i] == domain && name[i + 1..] == path
  {
    hide IndexOf;
    FirstAt(domain, '/', path);
    assert domain + "/" + path == domain + ['/'] + path;
  }

  lemma {:induction false} PartsSlashed(name: string)
    requires IndexOf(name, '/') >= 0
    ensures var i := IndexOf(name, '/'); name == name[..i] + "/" + name[i + 1..]
  {
    hide IndexOf;
    ApartAt(name, IndexOf(name, '/'));
  }

  lemma {:induction false} ParsedName(name: string, domain: string, path: string)
    requires ParseName(name) == Some((domain, path))
    ensures WellNamed(domain, path) && name == if domain == "" then path else domain + "/" + path
  {
    hide ValidDomain, ValidPath, IndexOf;
    var i := IndexOf(name, '/');
    if i >= 0 && ValidDomain(name[..i]) && ValidPath(name[i + 1..]) {
      DomainChars(name[..i]);
      PartsSlashed(name);
    }
  }

  lemma {:induction false} PrintedName(domain: string, path: string)
    requires WellNamed(domain, path)
    ensures ParseName(if domain == "" then path else domain + "/" + path) == Some((domain, path))
  {
    hide ValidDomain, ValidPath, IndexOf;
    if domain != "" {
      DomainChars(domain);
      SlashedParts(domain, path);
    }
  }

  /** The two readings of a name exclude each other, and each is undone by printing. */
  lemma {:induction false} NameRoundTrip(name: string, domain: string, path: string)
    ensures ParseName(name) == Some((domain, path)) <==>
            WellNamed(domain, path) && name == if domain == "" then path else domain + "/" + path
  {
    hide *;
    if ParseName(name) == Some((domain, path)) {
      ParsedName(name, domain, path);
    }
    if WellNamed(domain, path) {
      PrintedName(domain, path);
    }
  }

  /** Outside a tag no colon follows the last slash of a name. */
  lemma {:induction false} NoTagInName(r: Reference)
    requires WellNamed(r.domain, r.path)
    ensures LastIndexOf(Name(r), ':') <= LastIndexOf(Name(r), '/')
  {
    PathChars(r.path);
    if r.domain != "" {
      var front := r.domain + "/";
      assert Name(r) == front + r.path;
      LastOfConcat(front, r.path, ':');
      assert Name(r)[|r.domain|] == '/';
      assert front[|r.domain|] == '/';
    }
  }

  lemma {:induction false} TagChars(tag: string)
    requires ValidTag(tag)
    ensures ':' !in tag && '/' !in tag && '@' !in tag
  {
  }

  lemma {:induction false} ApartAt(s: string, k: nat)
    requires k < |s|
    ensures s == s[..k] + ([s[k]] + s[k + 1..])
  {
  }

  /** The parts that a reference is read from. */
  lemma {:induction false} TaggedParts(left: string, digest: Option<string>, r: Reference)
    requires ParseTagged(left, digest) == Some(r)
    ensures var colon := LastIndexOf(left, ':');
            && r.digest == digest && |r.path| <= MAX_PATH
            && if colon > LastIndexOf(left, '/') then
                 r.tag == Some(left[colon + 1..]) && ValidTag(left[colon + 1..]) &&
                 ParseName(left[..colon]) == Some((r.domain, r.path))
               else
                 r.tag == None && ParseName(left) == Some((r.domain, r.path))
  {
    hide ParseName, ValidTag, LastIndexOf;
  }

  lemma {:induction false} NameParts(name: string, r: Reference)
    requires ParseName(name) == Some((r.domain, r.path))
    ensures WellNamed(r.domain, r.path) && name == Name(r)
  {
    hide WellNamed, ParseName;
    NameRoundTrip(name, r.domain, r.path);
  }

  lemma {:induction false} TagJoins(left: string, r: Reference)
    requires var colon := LastIndexOf(left, ':');
             if r.tag.Some? then colon >= 0 && r.tag.value == left[colon + 1..] && left[..colon] == Name(r)
             else left == Name(r)
    ensures left == Name(r) + TagPart(r)
  {
    hide Name, LastIndexOf;
    var colon := LastIndexOf(left, ':');
    if r.tag.Some? {
      ApartAt(left, colon);
      assert TagPart(r) == [left[colon]] + left[colon + 1..];
    } else {
      assert TagPart(r) == "";
      assert left + "" == left;
    }
  }

  lemma {:induction false} TaggedIsPrinted(left: string, digest: Option<string>, r: Reference)
    requires ParseTagged(left, digest) == Some(r)
    ensures WellTagged(r) && r.digest == digest && left == Name(r) + TagPart(r)
  {
    hide WellNamed, ParseName, ValidTag, LastIndexOf, ParseTagged, Name, TagPart;
    TaggedParts(left, digest, r);
    NameParts(if r.tag.Some? then left[..LastIndexOf(left, ':')] else left, r);
    TagJoins(left, r);
  }

  lemma {:induction false} SplitTag(r: Reference)
    requires WellTagged(r)
    ensures var left := Name(r) + TagPart(r);
            var colon := LastIndexOf(left, ':');
            if r.tag.Some? then
              colon == |Name(r)| > LastIndexOf(left, '/') &&
              left[..colon] == Name(r) && left[colon + 1..] == r.tag.value
            else left == Name(r) && colon <= LastIndexOf(left, '/')
  {
    hide WellNamed, ValidTag, Name, IndexOf, LastIndexOf;
    var left := Name(r) + TagPart(r);
    if r.tag.Some? {
      TagChars(r.tag.value);
      assert left == Name(r) + [':'] + r.tag.value;
      LastAt(Name(r), ':', r.tag.value);
      LastOfConcat(Name(r), TagPart(r), '/');
    } else {
      assert left == Name(r);
      NoTagInName(r);
    }
  }

  lemma {:induction false} PrintedIsTagged(r: Reference)
    requires WellTagged(r)
    ensures ParseTagged(Name(r) + TagPart(r), r.digest) == Some(r)
  {
    hide WellNamed, ValidTag, ParseName, TagPart;
    SplitTag(r);
    NameRoundTrip(Name(r), r.domain, r.path);
  }

  lemma {:induction false} NoAtSign(r: Reference)
    requires WellTagged(r)
    ensures '@' !in Name(r) + TagPart(r)
  {
    hide WellNamed, ValidTag;
    WellNamedPath(r.domain, r.path);
    PathChars(r.path);
    if r.domain != "" {
      DomainChars(r.domain);
    }
    if r.tag.Some? {
      TagChars(r.tag.value);
    }
  }

  lemma {:induction false} WellNamedPath(domain: string, path: string)
    requires WellNamed(domain, path)
    ensures ValidPath(path) && (domain != "" ==> ValidDomain(domain))
  {
  }

  /** Reading and writing references undo each other: a text is read as r just when r is well
      formed and is written as that text. */
  lemma {:induction false} ReferenceRoundTrip(s: string, r: Reference)
    ensures ParseReference(s) == Some(r) <==> WellFormed(r) && s == Print(r)
  {
    hide WellTagged, ParseTagged, ValidDigest, Name, TagPart, IndexOf;
    var at := IndexOf(s, '@');
    if ParseReference(s) == Some(r) {
      var left, digest := if at < 0 then s else s[..at], if at < 0 then None else Some(s[at + 1..]);
      TaggedIsPrinted(left, digest, r);
      assert s == left + DigestPart(r);
    }
    if WellFormed(r) && s == Print(r) {
      var left := Name(r) + TagPart(r);
      NoAtSign(r);
      PrintedIsTagged(r);
      if r.digest.Some? {
        assert s == left + ['@'] + r.digest.value;
        FirstAt(left, '@', r.digest.value);
        assert s[..at] == left && s[at + 1..] == r.digest.value;
      } else {
        assert s == left;
      }
    }
  }

  /** A first component that is kept as a domain when a reference is normalised. */
  predicate KeptDomain(d: string) {
    d == LOCALHOST || (d != LEGACY_DOMAIN && ('.' in d || ':' in d || HasUpper(d)))
  }

  /** A reference in the form that normalising brings it to. */
  predicate Canonical(r: Reference) {
    WellFormed(r) &&
    var name := Name(r);
    var i := IndexOf(name, '/');
    i >= 0 && KeptDomain(name[..i]) && (name[..i] == DEFAULT_DOMAIN ==> '/' in name[i + 1..])
  }

  lemma {:induction false} SplitKeepsDomain(s: string)
    ensures var (d, rest) := SplitDockerDomain(s);
            '/' !in d && KeptDomain(d) && (d == DEFAULT_DOMAIN ==> '/' in rest)
  {
    assert DEFAULT_DOMAIN[6] == '.';
    assert OFFICIAL_PREFIX[7] == '/';
    assert |DEFAULT_DOMAIN| != |LEGACY_DOMAIN|;
    var i := IndexOf(s, '/');
    if i < 0 {
      assert (OFFICIAL_PREFIX + s)[7] == '/';
    } else {
      assert s[i] == '/';
      assert (OFFICIAL_PREFIX + s[i + 1..])[7] == '/';
      assert '/' !in s[..i] by {
        assert forall k | 0 <= k < i :: s[..i][k] == s[k];
      }
    }
  }

  lemma {:induction false} SuffixChars(r: Reference, k: nat)
    requires WellFormed(r) && |Name(r)| <= k < |Print(r)|
    ensures Print(r)[k] != '/'
    ensures r.tag.None? ==> !IsUpper(Print(r)[k])
    ensures r.tag.Some? && k == |Name(r)| ==> Print(r)[k] == ':'
  {
    hide WellNamed, Name;
    var at := |Name(r)| + |TagPart(r)|;
    if r.tag.Some? && k < at {
      TagChars(r.tag.value);
      assert Print(r)[k] == TagPart(r)[k - |Name(r)|];
      assert k > |Name(r)| ==> Print(r)[k] == r.tag.value[k - |Name(r)| - 1] && Print(r)[k] in r.tag.value;
    } else {
      assert Print(r)[k] == DigestPart(r)[k - at];
      if k > at {
        DigestChar(r.digest.value, k - at - 1);
        assert Print(r)[k] == r.digest.value[k - at - 1];
      }
    }
  }

  lemma {:induction false} DigestChar(d: string, k: nat)
    requires ValidDigest(d) && k < |d|
    ensures d[k] != '/' && !IsUpper(d[k])
  {
    var algorithm := d[..7];
    if k >= 7 {
      assert d[k] == d[7..][k - 7];
    } else {
      assert d[k] == algorithm[k];
    }
  }

  /** Past the first slash a name holds nothing but a path. */
  lemma {:induction false} TailChar(r: Reference, k: nat)
    requires WellNamed(r.domain, r.path) && IndexOf(Name(r), '/') >= 0
    requires IndexOf(Name(r), '/') < k < |Name(r)|
    ensures PathChar(Name(r)[k])
  {
    if r.domain == "" {
      PathCharAt(r.path, k);
    } else {
      DomainChars(r.domain);
      FirstAt(r.domain, '/', r.path);
      assert Name(r) == r.domain + ['/'] + r.path;
      PathCharAt(r.path, k - |r.domain| - 1);
    }
  }

  lemma {:induction false} PrintStartsWithName(r: Reference)
    ensures Name(r) <= Print(r)
  {
  }

  lemma {:induction false} TaggedIsLonger(r: Reference)
    requires r.tag.Some?
    ensures |Name(r)| < |Print(r)|
  {
  }

  lemma {:induction false} SlashIsInName(r: Reference, k: nat)
    requires WellFormed(r) && k < |Print(r)| && Print(r)[k] == '/'
    ensures k < |Name(r)|
  {
    hide WellFormed, Name, Print;
    if k >= |Name(r)| {
      SuffixChars(r, k);
    }
  }

  lemma {:induction false} FirstSlash(name: string, d: string, rest: string)
    requires name <= d + "/" + rest && |d| < |name| && '/' !in d
    ensures IndexOf(name, '/') == |d| && name[..|d|] == d && name[|d| + 1..] <= rest
  {
    var full := d + "/" + rest;
    assert name == full[..|name|];
    assert name[..|d|] == full[..|d|] == d;
    assert full[|d|] == '/' && full[|d| + 1..] == rest;
    assert name == d + ['/'] + name[|d| + 1..];
    FirstAt(d, '/', name[|d| + 1..]);
  }

  /** Whatever is accepted comes out in normal form. */
  lemma {:induction false} ParsedIsCanonical(s: string, r: Reference)
    requires ParseNormalized(s) == Some(r)
    ensures Canonical(r)
  {
    hide WellFormed, ParseReference, Name, Print, KeptDomain, SplitDockerDomain, IndexOf;
    var (d, rest) := SplitDockerDomain(s);
    SplitKeepsDomain(s);
    var full := d + "/" + rest;
    ReferenceRoundTrip(full, r);
    PrintStartsWithName(r);
    assert full[|d|] == '/';
    SlashIsInName(r, |d|);
    FirstSlash(Name(r), d, rest);
    if d == DEFAULT_DOMAIN {
      var k :| 0 <= k < |rest| && rest[k] == '/';
      assert full[|d| + 1 + k] == '/';
      SlashIsInName(r, |d| + 1 + k);
      assert Name(r)[|d| + 1..][k] == rest[k];
    }
  }

  /** A text whose first component is kept as a domain is normalised to itself. */
  lemma {:induction false} SplitKept(s: string)
    requires var i := IndexOf(s, '/');
             i >= 0 && KeptDomain(s[..i]) && (s[..i] == DEFAULT_DOMAIN ==> '/' in s[i + 1..])
    ensures var i := IndexOf(s, '/');
            SplitDockerDomain(s) == (s[..i], s[i + 1..]) && s == s[..i] + "/" + s[i + 1..]
  {
    hide IndexOf, HasUpper;
    PartsSlashed(s);
    assert DEFAULT_DOMAIN[6] == '.';
    assert |DEFAULT_DOMAIN| != |LEGACY_DOMAIN|;
  }

  /** Whatever follows a canonical name, its domain stays what it is. */
  lemma {:induction false} SplitAfterName(r: Reference, rest: string)
    requires Canonical(r)
    ensures var i, s := IndexOf(Name(r), '/'), Name(r) + rest;
            IndexOf(s, '/') == i < |s| && SplitDockerDomain(s) == (s[..i], s[i + 1..]) &&
            s == s[..i] + "/" + s[i + 1..]
  {
    hide WellFormed, Name, IndexOf, SplitDockerDomain, KeptDomain;
    var name, s := Name(r), Name(r) + rest;
    var i := IndexOf(name, '/');
    assert forall k | 0 <= k < |name| :: s[k] == name[k];
    FirstSlash(s, s[..i], s[i + 1..]) by {
      assert s == s[..i] + "/" + s[i + 1..];
      assert '/' !in s[..i];
    }
    assert s[..i] == name[..i];
    if name[..i] == DEFAULT_DOMAIN {
      var k :| 0 <= k < |name[i + 1..]| && name[i + 1..][k] == '/';
      assert s[i + 1..][k] == '/';
    }
    SplitKept(s);
  }

  lemma {:induction false} SplitOfCanonical(r: Reference)
    requires Canonical(r)
    ensures var i := IndexOf(Name(r), '/');
            i < |Print(r)| && SplitDockerDomain(Print(r)) == (Print(r)[..i], Print(r)[i + 1..])
  {
    hide Canonical, Name, TagPart, DigestPart, IndexOf, SplitDockerDomain;
    SplitAfterName(r, TagPart(r) + DigestPart(r));
    assert Print(r) == Name(r) + (TagPart(r) + DigestPart(r));
  }

  lemma {:induction false} RemoteChar(r: Reference, k: nat)
    requires Canonical(r) && IndexOf(Name(r), '/') < k < |Print(r)|
    requires r.tag.Some? ==> k < |Name(r)|
    ensures !IsUpper(Print(r)[k])
  {
    hide KeptDomain, Name, Print, WellNamed, ValidTag, ValidDigest, IndexOf;
    PrintStartsWithName(r);
    if k < |Name(r)| {
      TailChar(r, k);
    } else {
      SuffixChars(r, k);
    }
  }

  lemma {:induction false} NoUpperInRemote(r: Reference)
    requires Canonical(r)
    ensures var rest := Print(r)[IndexOf(Name(r), '/') + 1..];
            var colon := IndexOf(rest, ':');
            !HasUpper(if colon < 0 then rest else rest[..colon])
  {
    hide KeptDomain, Name, Print, WellFormed, IndexOf;
    PrintStartsWithName(r);
    var name, s := Name(r), Print(r);
    var i := IndexOf(name, '/');
    var rest := s[i + 1..];
    var colon := IndexOf(rest, ':');
    var remote := if colon < 0 then rest else rest[..colon];
    if r.tag.Some? {
      TaggedIsLonger(r);
      SuffixChars(r, |name|);
      assert rest[|name| - i - 1] == ':';
    }
    forall k: nat | k < |remote|
      ensures !IsUpper(remote[k])
    {
      assert remote[k] == rest[k] == s[i + 1 + k];
      RemoteChar(r, i + 1 + k);
    }
  }

  /** Reading a normal form changes nothing. */
  lemma {:induction false} NormalizedRoundTrip(r: Reference)
    requires Canonical(r)
    ensures ParseNormalized(Print(r)) == Some(r)
  {
    hide WellNamed, WellTagged, ParseReference, Name, KeptDomain, SplitDockerDomain, Print, IndexOf, HasUpper;
    var s := Print(r);
    var i := IndexOf(Name(r), '/');
    SplitOfCanonical(r);
    NoUpperInRemote(r);
    ReferenceRoundTrip(s, r);
    PrintStartsWithName(r);
    assert s[i] == '/';
    assert !HexOf(s, 64) by {
      assert !IsHex(s[i]);
    }
    assert s == s[..i] + "/" + s[i + 1..];
  }

  /** Another valid tag or digest keeps a reference in normal form. */
  lemma {:induction false} RetaggedIsCanonical(r: Reference, tag: Option<string>, digest: Option<string>)
    requires Canonical(r)
    requires (tag.Some? ==> ValidTag(tag.value)) && (digest.Some? ==> ValidDigest(digest.value))
    ensures var s := r.(tag := tag, digest := digest); Canonical(s) && Name(s) == Name(r)
  {
    hide WellNamed, ValidTag, ValidDigest, KeptDomain, IndexOf;
  }

  lemma {:induction false} TagTextChars(s: string)
    requires TagText(s)
    ensures ':' !in s && '/' !in s && '@' !in s
  {
  }

  lemma {:induction false} ReadTag(name: string, tag: string, r: Reference)
    requires WellTagged(r) && TagText(tag) && LastIndexOf(name, ':') <= LastIndexOf(name, '/')
    requires Name(r) + TagPart(r) == name + ":" + tag
    ensures r.tag == Some(tag)
  {
    hide WellTagged, Name, LastIndexOf, TagText, TagPart;
    TagTextChars(tag);
    var left := name + ":" + tag;
    assert left == name + [':'] + tag;
    LastAt(name, ':', tag);
    assert '/' !in ":" + tag;
    LastOfConcat(name, ":" + tag, '/');
    assert left == name + (":" + tag);
    SplitTag(r);
    assert left[|name| + 1..] == tag;
  }

  lemma {:induction false} NameAlone(r: Reference)
    requires Canonical(r)
    ensures '@' !in Name(r) && LastIndexOf(Name(r), ':') <= LastIndexOf(Name(r), '/')
  {
    hide WellNamed, ValidTag, Name, KeptDomain, LastIndexOf, IndexOf;
    NoAtSign(r);
    NoTagInName(r);
    assert forall k | 0 <= k < |Name(r)| :: (Name(r) + TagPart(r))[k] == Name(r)[k];
  }

  /** A canonical name with a text of tag characters can be read just when the text is a valid tag,
      which it may fail to be by its length or its first character. */
  lemma {:induction false} TaggedIsReadable(named: Reference, tag: string)
    requires Canonical(named) && TagText(tag)
    ensures ParseNormalized(Name(named) + ":" + tag).Some? <==> ValidTag(tag)
    ensures ValidTag(tag) ==>
              ParseNormalized(Name(named) + ":" + tag) == Some(named.(tag := Some(tag), digest := None))
  {
    hide Canonical, Name, ParseReference, ValidTag, TagText, SplitDockerDomain, IndexOf, HexOf, HasUpper;
    var s := Name(named) + ":" + tag;
    if ValidTag(tag) {
      RetaggedIsCanonical(named, Some(tag), None);
      var r := named.(tag := Some(tag), digest := None);
      assert Print(r) == s;
      NormalizedRoundTrip(r);
    }
    if ParseNormalized(s).Some? {
      var r := ParseNormalized(s).value;
      assert s == Name(named) + (":" + tag);
      SplitAfterName(named, ":" + tag);
      ReferenceRoundTrip(s, r);
      NameAlone(named);
      TagTextChars(tag);
      PlainPrint(s, r);
      ReadTag(Name(named), tag, r);
    }
  }

  /** A text without an at sign has no digest. */
  lemma {:induction false} PlainPrint(s: string, r: Reference)
    requires WellFormed(r) && s == Print(r) && '@' !in s
    ensures r.digest.None? && s == Name(r) + TagPart(r) && WellTagged(r)
    ensures r.tag.Some? ==> ValidTag(r.tag.value)
  {
    hide Name, TagPart, WellNamed, ValidTag, ValidDigest;
    if r.digest.Some? {
      DigestShows(r);
    }
  }

  lemma {:induction false} DigestShows(r: Reference)
    requires r.digest.Some?
    ensures '@' in Print(r)
  {
    assert Print(r)[|Name(r) + TagPart(r)|] == '@';
  }
}
