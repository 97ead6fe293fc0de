/**
 * The standard FIFO acquisition policy of a lock built on sequential
 * ephemeral nodes: a participant holds one of `maxLeases` leases when its node
 * is among the first `maxLeases` of the sorted siblings, and otherwise watches
 * the single node `maxLeases` places ahead of it.
 */
module StandardLockDriver {
  import opened Wrappers
  import opened Strings

  /** What a policy decides: whether the lock is held, and if not which node to watch. */
  datatype PredicateResults = PredicateResults(pathToWatch: Option<string>, getsTheLock: bool)

  /** The exceptions the policies raise. */
  datatype LockError =
    | NoNode(path: string)   // our sequential node is not among the children
    | IndexOutOfBounds       // `children.get` outside the list (only a negative lease bound leads here)

  /**
   * Raises NoNode for a position that `indexOf` reported as absent; any real
   * position passes.
   */
  function ValidateOurIndex(sequenceNodeName: string, ourIndex: int): (r: Outcome<LockError>)
    ensures r.Fail? <==> ourIndex < 0
    ensures r.Fail? ==> r.error == NoNode(sequenceNodeName)
  {
    if ourIndex < 0 then Fail(NoNode(sequenceNodeName)) else Pass
  }

  /** How many of `n` children fall inside a window of `maxLeases` leases. */
  function LeaseWindow(maxLeases: int, n: nat): (w: nat)
    ensures w <= n
    ensures maxLeases <= 0 ==> w == 0
    ensures 0 <= maxLeases <= n ==> w == maxLeases
    ensures maxLeases >= n ==> w == n
  {
    if maxLeases <= 0 then 0 else Min(maxLeases, n)
  }

  /**
   * The FIFO predicate. `children` are the sorted sibling node names and
   * `sequenceNodeName` is our own node; its position is the first occurrence
   * that `IndexOf` finds.
   */
  function GetsTheLock(children: seq<string>, sequenceNodeName: string, maxLeases: int)
    : (r: Result<PredicateResults, LockError>)
    // our node missing is exactly the NoNode case
    ensures (r.Failure? && r.error.NoNode?) <==> sequenceNodeName !in children
    ensures r.Failure? && r.error.NoNode? ==> r.error.path == sequenceNodeName
    // granted exactly when our node's position is below the lease bound, and then nothing is watched
    ensures r.Success? ==> (r.value.getsTheLock <==> IndexOf(children, sequenceNodeName) < maxLeases)
    ensures r.Success? && r.value.getsTheLock ==> r.value.pathToWatch == None
    // otherwise the watched node is maxLeases places ahead of ours
    ensures r.Success? && !r.value.getsTheLock ==>
      var ourIndex := IndexOf(children, sequenceNodeName);
      0 <= ourIndex - maxLeases < |children| && r.value.pathToWatch == Some(children[ourIndex - maxLeases])
    // IndexOutOfBounds exactly when a waiting node's watch position lies past the end
    ensures (r.Failure? && r.error.IndexOutOfBounds?) <==>
      var ourIndex := IndexOf(children, sequenceNodeName);
      ourIndex != -1 && ourIndex >= maxLeases && ourIndex - maxLeases >= |children|
    // with a non-negative bound nothing but NoNode can be raised
    ensures maxLeases >= 0 && r.Failure? ==> r.error.NoNode?
  {
    var ourIndex := IndexOf(children, sequenceNodeName);
    match ValidateOurIndex(sequenceNodeName, ourIndex)
    case Fail(e) => Failure(e)
    case Pass =>
      var getsTheLock := ourIndex < maxLeases;
      if getsTheLock then Success(PredicateResults(None, true))
      else if ourIndex - maxLeases < |children| then
        Success(PredicateResults(Some(children[ourIndex - maxLeases]), false))
      else
        Failure(IndexOutOfBounds)
  }

  /** The predicate grants exactly the nodes among the first `maxLeases` children. */
  lemma GrantedExactlyInsideLeaseWindow(children: seq<string>, sequenceNodeName: string, maxLeases: int)
    requires GetsTheLock(children, sequenceNodeName, maxLeases).Success?
    ensures GetsTheLock(children, sequenceNodeName, maxLeases).value.getsTheLock <==>
      sequenceNodeName in children[..LeaseWindow(maxLeases, |children|)]
  {
    var ourIndex := IndexOf(children, sequenceNodeName);
    var w := LeaseWindow(maxLeases, |children|);
    if ourIndex < maxLeases {
      assert children[..w][ourIndex] == sequenceNodeName;
    } else {
      assert w <= ourIndex;
      assert children[..w] == children[..ourIndex][..w];
    }
  }

  /**
   * With at least one lease, a waiting participant watches a strict
   * predecessor exactly `maxLeases` places ahead of its own node, and the
   * predicate never fails for a node that is present.
   */
  lemma WatchedNodeIsAhead(children: seq<string>, sequenceNodeName: string, maxLeases: int)
    requires maxLeases >= 1 && IndexOf(children, sequenceNodeName) != -1
    ensures GetsTheLock(children, sequenceNodeName, maxLeases).Success?
    ensures !GetsTheLock(children, sequenceNodeName, maxLeases).value.getsTheLock <==>
      IndexOf(children, sequenceNodeName) >= maxLeases
    ensures var ourIndex := IndexOf(children, sequenceNodeName);
      !GetsTheLock(children, sequenceNodeName, maxLeases).value.getsTheLock ==>
        0 <= ourIndex - maxLeases < ourIndex
        && GetsTheLock(children, sequenceNodeName, maxLeases).value.pathToWatch == Some(children[ourIndex - maxLeases])
  {
    var ourIndex := IndexOf(children, sequenceNodeName);
    assert 0 <= ourIndex < |children|;
  }

  /**
   * `standardFixForSorting`: everything up to and including the last
   * occurrence of `lockName` is removed; a name without the marker is kept.
   * (`fixForSorting` of the standard driver delegates to it.)
   */
  function StandardFixForSorting(str: string, lockName: string): (r: string)
    ensures !Contains(str, lockName) ==> r == str
    ensures Contains(str, lockName) ==>
      IsSuffix(r, str) && |r| <= |str| - |lockName|
      // the marker sits immediately before the result ...
      && OccursAt(str, lockName, |str| - |r| - |lockName|)
      // ... and no later occurrence of it begins in str
      && (forall k :: OccursAt(str, lockName, k) ==> k <= |str| - |r| - |lockName|)
  {
    var index := LastIndexOf(str, lockName);
    if index >= 0 then
      var start := index + |lockName|;
      if start <= |str| then str[start..] else assert false; ""
    else str
  }

  /** A non-empty marker never occurs again in what is left after stripping. */
  lemma StrippedHasNoMarker(str: string, lockName: string)
    requires lockName != [] && Contains(str, lockName)
    ensures !Contains(StandardFixForSorting(str, lockName), lockName)
  {
    var r := StandardFixForSorting(str, lockName);
    var offset := |str| - |r|;
    if k :| 0 <= k <= |r| - |lockName| && OccursAt(r, lockName, k) {
      assert str[offset + k..offset + k + |lockName|] == r[k..k + |lockName|];
      assert OccursAt(str, lockName, offset + k);
      assert false;
    }
  }

  /** Stripping twice with the same marker is stripping once. */
  lemma StandardFixIdempotent(str: string, lockName: string)
    ensures StandardFixForSorting(StandardFixForSorting(str, lockName), lockName)
         == StandardFixForSorting(str, lockName)
  {
    var r := StandardFixForSorting(str, lockName);
    if Contains(str, lockName) {
      if lockName == [] {
        assert OccursAt(str, lockName, |str|);
        assert r == [];
        assert OccursAt(r, lockName, 0);
      } else {
        StrippedHasNoMarker(str, lockName);
      }
    }
  }
}
