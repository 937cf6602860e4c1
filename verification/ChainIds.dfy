/** Layer ChainIDs, as the OCI Image Configuration specification v1.1 defines them. Container
    runtimes share an unpacked layer between images exactly when the ChainIDs are equal. */
module ChainIds {
  /** The ChainID of a stack of layers: the DiffID of the lowest one alone, and from there on the
      digest of the ChainID below, a space and the next DiffID. */
  function ChainId(hash: string -> string, diffIds: seq<string>): string
    requires diffIds != []
  {
    var n := |diffIds| - 1;
    if n == 0 then diffIds[0] else hash(ChainId(hash, diffIds[..n]) + " " + diffIds[n])
  }

  predicate NoSpace(s: string) {
    ' ' !in s
  }

  /** Different texts have different digests, and a digest is a word. */
  ghost predicate CollisionFree(hash: string -> string) {
    && (forall a, b | hash(a) == hash(b) :: a == b)
    && (forall a :: NoSpace(hash(a)))
  }

  /** The digest of some layer, not of a line that a ChainID is computed from. */
  ghost predicate IsDiffId(hash: string -> string, d: string) {
    NoSpace(d) && forall a, b: string :: d != hash(a + " " + b)
  }

  ghost predicate AreDiffIds(hash: string -> string, diffIds: seq<string>) {
    forall i | 0 <= i < |diffIds| :: IsDiffId(hash, diffIds[i])
  }

  lemma {:induction false} SplitAtSpace(a: string, b: string, x: string, y: string)
    requires NoSpace(a) && NoSpace(x) && a + " " + b == x + " " + y
    ensures a == x && b == y
  {
    var s := a + " " + b;
    assert s == x + " " + y;
    assert s[|a|] == ' ' && s[|x|] == ' ';
    assert forall i | 0 <= i < |a| :: s[i] == a[i] && a[i] in a && s[i] != ' ';
    assert forall i | 0 <= i < |x| :: s[i] == x[i] && x[i] in x && s[i] != ' ';
    assert s[..|a|] == a && s[..|x|] == x;
    assert s[|a| + 1..] == b && s[|x| + 1..] == y;
  }

  lemma {:induction false} ChainIdIsWord(hash: string -> string, diffIds: seq<string>)
    requires CollisionFree(hash) && AreDiffIds(hash, diffIds) && diffIds != []
    ensures NoSpace(ChainId(hash, diffIds))
  {
  }

  lemma {:induction false} DiffIdIsNoChain(hash: string -> string, diffIds: seq<string>, d: string)
    requires |diffIds| > 1 && IsDiffId(hash, d)
    ensures ChainId(hash, diffIds) != d
  {
  }

  /** A ChainID determines the whole stack of layers below it. */
  lemma {:induction false} ChainIdInjective(hash: string -> string, a: seq<string>, b: seq<string>)
    requires CollisionFree(hash) && AreDiffIds(hash, a) && AreDiffIds(hash, b)
    requires a != [] && b != [] && ChainId(hash, a) == ChainId(hash, b)
    ensures a == b
    decreases |a|
  {
    var m, n := |a| - 1, |b| - 1;
    var a0, b0 := a[0], b[0];
    if m > 0 && n > 0 {
      ChainIdIsWord(hash, a[..m]);
      ChainIdIsWord(hash, b[..n]);
      SplitAtSpace(ChainId(hash, a[..m]), a[m], ChainId(hash, b[..n]), b[n]);
      ChainIdInjective(hash, a[..m], b[..n]);
      assert a == a[..m] + [a[m]] && b == b[..n] + [b[n]];
    } else if m > 0 {
      DiffIdIsNoChain(hash, a, b0);
    } else if n > 0 {
      DiffIdIsNoChain(hash, b, a0);
    } else {
      assert a == [a[0]] && b == [b[0]];
    }
  }

  /** Some layer of one image is shared with some layer of the other. */
  ghost predicate Sharing(hash: string -> string, a: seq<string>, b: seq<string>) {
    exists i, j :: 0 < i <= |a| && 0 < j <= |b| && ChainId(hash, a[..i]) == ChainId(hash, b[..j])
  }

  /** Two images share a layer just when they have the same lowest layer. */
  lemma {:induction false} SharingNeedsSameBase(hash: string -> string, a: seq<string>, b: seq<string>)
    requires CollisionFree(hash) && AreDiffIds(hash, a) && AreDiffIds(hash, b)
    ensures Sharing(hash, a, b) <==> a != [] && b != [] && a[0] == b[0]
  {
    if Sharing(hash, a, b) {
      var i, j :| 0 < i <= |a| && 0 < j <= |b| && ChainId(hash, a[..i]) == ChainId(hash, b[..j]);
      ChainIdInjective(hash, a[..i], b[..j]);
      assert a[..i][0] == a[0] && b[..j][0] == b[0];
    } else if a != [] && b != [] {
      assert ChainId(hash, a[..1]) == a[0] && ChainId(hash, b[..1]) == b[0];
    }
  }
}
