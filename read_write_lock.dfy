/**
 * The read/write lock: two mutexes sharing one lock directory, told apart by
 * the markers `__READ__` and `__WRIT__` in their node names. Writers use the
 * standard FIFO policy with a single lease; readers are held back only by a
 * writer queued ahead of them.
 */
module ReadWriteLock {
  import opened Wrappers
  import opened Strings
  import opened StandardLockDriver

  const ReadLockName: string := "__READ__"
  const WriteLockName: string := "__WRIT__"

  /** Java's `Integer.MAX_VALUE`: the read lease bound and the "no writer" sentinel. */
  const MaxInt: int := 0x7fff_ffff

  /** The two markers must have the same length, so names of both kinds line up. */
  lemma MarkersHaveEqualLength()
    ensures |ReadLockName| == |WriteLockName| == 8
  {
  }

  // ---------------------------------------------------------------------------
  // Sorting normaliser
  // ---------------------------------------------------------------------------

  /**
   * The sorting driver's `fixForSorting`: strips the read marker and then the
   * write marker, whatever marker the caller passes as `lockName`.
   */
  function SortingFixForSorting(str: string, lockName: string): (r: string)
    ensures IsSuffix(r, str)
    ensures !Contains(r, ReadLockName) && !Contains(r, WriteLockName)
  {
    var t := StandardFixForSorting(str, ReadLockName);
    assert !Contains(t, ReadLockName) by {
      if Contains(str, ReadLockName) { StrippedHasNoMarker(str, ReadLockName); }
    }
    var r := StandardFixForSorting(t, WriteLockName);
    assert !Contains(r, WriteLockName) by {
      if Contains(t, WriteLockName) { StrippedHasNoMarker(t, WriteLockName); }
    }
    assert !Contains(r, ReadLockName) by { SuffixKeepsAbsence(r, t, ReadLockName); }
    r
  }

  /** A marker absent from a string is absent from each of its suffixes. */
  lemma SuffixKeepsAbsence(r: string, t: string, pat: string)
    requires IsSuffix(r, t) && !Contains(t, pat)
    ensures !Contains(r, pat)
  {
    var offset := |t| - |r|;
    if k :| 0 <= k <= |r| - |pat| && OccursAt(r, pat, k) {
      assert t[offset + k..offset + k + |pat|] == r[k..k + |pat|];
      assert OccursAt(t, pat, offset + k);
    }
  }

  /** The normaliser ignores the marker it is given. */
  lemma SortingFixIgnoresLockName(str: string, a: string, b: string)
    ensures SortingFixForSorting(str, a) == SortingFixForSorting(str, b)
  {
  }

  /** A zero-padded sequence number as the coordination service appends it. */
  predicate IsSequenceNumber(s: string) {
    forall i :: 0 <= i < |s| ==> '0' <= s[i] <= '9'
  }

  /**
   * The prefix before a marker (the protection token and its separator) does
   * not end in a character of the read marker, so no read marker can straddle
   * the prefix and the marker that follows it.
   */
  predicate SeparatedPrefix(prefix: string) {
    prefix == [] || prefix[|prefix| - 1] !in ReadLockName
  }

  /**
   * When the last character of a marker is absent from `s`, the marker placed
   * between `p` and `s` is its last occurrence.
   */
  lemma {:induction false} MarkerIsLastOccurrence(p: string, m: string, s: string)
    requires m != [] && m[|m| - 1] !in s
    ensures LastIndexOf(p + m + s, m) == |p|
  {
    var x := p + m + s;
    assert x[|p|..|p| + |m|] == m;
    assert OccursAt(x, m, |p|);
    forall k | OccursAt(x, m, k) ensures k <= |p| {
      assert x[k + |m| - 1] == x[k..k + |m|][|m| - 1] == m[|m| - 1];
    }
  }

  /** A string of digits holds no character of either marker. */
  lemma DigitsHaveNoUnderscore(s: string)
    requires IsSequenceNumber(s)
    ensures '_' !in s
    ensures !Contains(s, WriteLockName)
  {
    forall k | 0 <= k <= |s| - |WriteLockName| ensures !OccursAt(s, WriteLockName, k) {
      assert s[k..k + 8][0] == s[k];
    }
  }

  /**
   * Normalising a node of either kind leaves exactly its sequence number, so
   * sorting by the normalised names orders read and write nodes together by
   * sequence number alone.
   */
  lemma {:induction false} SortingFixIsSequenceNumber(prefix: string, marker: string, seqNo: string, lockName: string)
    requires marker == ReadLockName || marker == WriteLockName
    requires IsSequenceNumber(seqNo) && SeparatedPrefix(prefix)
    ensures SortingFixForSorting(prefix + marker + seqNo, lockName) == seqNo
  {
    DigitsHaveNoUnderscore(seqNo);
    if marker == ReadLockName {
      ReadFixLeavesSequenceNumber(prefix, seqNo);
      assert StandardFixForSorting(seqNo, WriteLockName) == seqNo;
    } else {
      var q := WriteNodeAfterReadFix(prefix, seqNo);
      WriteFixLeavesSequenceNumber(q, seqNo);
    }
  }

  /** Stripping the read marker from a read node leaves its sequence number. */
  lemma ReadFixLeavesSequenceNumber(prefix: string, seqNo: string)
    requires '_' !in seqNo
    ensures StandardFixForSorting(prefix + ReadLockName + seqNo, ReadLockName) == seqNo
  {
    var x := prefix + ReadLockName + seqNo;
    MarkerIsLastOccurrence(prefix, ReadLockName, seqNo);
    assert x[|prefix| + 8..] == seqNo;
  }

  /**
   * Stripping the read marker from a write node leaves a tail of the prefix
   * followed by the write marker and the sequence number.
   */
  lemma WriteNodeAfterReadFix(prefix: string, seqNo: string) returns (q: string)
    requires '_' !in seqNo && SeparatedPrefix(prefix)
    ensures StandardFixForSorting(prefix + WriteLockName + seqNo, ReadLockName) == q + WriteLockName + seqNo
  {
    var x := prefix + WriteLockName + seqNo;
    if Contains(x, ReadLockName) {
      var k := LastIndexOf(x, ReadLockName);
      ReadMarkerEndsInPrefix(prefix, seqNo, k);
      q := prefix[k + 8..];
      assert x[k + 8..] == q + WriteLockName + seqNo;
    } else {
      q := prefix;
    }
  }

  /** Stripping the write marker from what is left of a write node leaves its sequence number. */
  lemma WriteFixLeavesSequenceNumber(q: string, seqNo: string)
    requires '_' !in seqNo
    ensures StandardFixForSorting(q + WriteLockName + seqNo, WriteLockName) == seqNo
  {
    var t := q + WriteLockName + seqNo;
    MarkerIsLastOccurrence(q, WriteLockName, seqNo);
    assert t[|q| + 8..] == seqNo;
  }

  /** In a write node, every read marker lies wholly inside the prefix. */
  lemma ReadMarkerEndsInPrefix(prefix: string, seqNo: string, k: int)
    requires '_' !in seqNo && SeparatedPrefix(prefix)
    requires OccursAt(prefix + WriteLockName + seqNo, ReadLockName, k)
    ensures k + 8 <= |prefix|
  {
    var x := prefix + WriteLockName + seqNo;
    assert forall i :: 0 <= i < |prefix| ==> x[i] == prefix[i];
    assert forall i :: |prefix| <= i < |prefix| + 8 ==> x[i] == WriteLockName[i - |prefix|];
    assert forall i :: |prefix| + 8 <= i < |x| ==> x[i] == seqNo[i - |prefix| - 8];
    assert forall i :: k <= i < k + 8 ==> x[i] == x[k..k + 8][i - k] == ReadLockName[i - k];
    // the marker's last character is not in the sequence number, its third is
    // not the write marker's third, and its characters do not end the prefix
    assert x[k + 7] == '_' && x[k + 2] == 'R';
    assert |prefix| > 0 ==> x[|prefix| - 1] == prefix[|prefix| - 1];
  }

  /** A read node and a write node with the same sequence number sort as equals. */
  lemma ReadAndWriteNodesCompareBySequence(readPrefix: string, writePrefix: string, seqNo: string, lockName: string)
    requires IsSequenceNumber(seqNo) && SeparatedPrefix(readPrefix) && SeparatedPrefix(writePrefix)
    ensures SortingFixForSorting(readPrefix + ReadLockName + seqNo, lockName)
         == SortingFixForSorting(writePrefix + WriteLockName + seqNo, lockName)
         == seqNo
  {
    SortingFixIsSequenceNumber(readPrefix, ReadLockName, seqNo, lockName);
    SortingFixIsSequenceNumber(writePrefix, WriteLockName, seqNo, lockName);
  }

  // ---------------------------------------------------------------------------
  // Read predicate
  // ---------------------------------------------------------------------------

  /** A node of the write mutex. */
  predicate IsWriteNode(node: string) {
    Contains(node, WriteLockName)
  }

  /** The node the read scan stops at: not a write node, and starting with our name. */
  predicate IsOurReadNode(node: string, sequenceNodeName: string) {
    !IsWriteNode(node) && StartsWith(node, sequenceNodeName)
  }

  /** The first position the read scan stops at, or -1 when there is none. */
  function OurReadIndex(children: seq<string>, sequenceNodeName: string): (r: int)
    ensures r == -1 <==> forall i :: 0 <= i < |children| ==> !IsOurReadNode(children[i], sequenceNodeName)
    ensures r != -1 ==> 0 <= r < |children| && IsOurReadNode(children[r], sequenceNodeName)
    ensures r != -1 ==> forall j :: 0 <= j < r ==> !IsOurReadNode(children[j], sequenceNodeName)
  {
    if children == [] then -1
    else if IsOurReadNode(children[0], sequenceNodeName) then 0
    else
      var i := OurReadIndex(children[1..], sequenceNodeName);
      if i == -1 then -1 else i + 1
  }

  /** The position of the first write node among `children[..k]`, or MaxInt when there is none. */
  function FirstWriteBefore(children: seq<string>, k: nat): (r: int)
    requires k <= |children| && k <= MaxInt
    ensures r == MaxInt <==> forall j :: 0 <= j < k ==> !IsWriteNode(children[j])
    ensures r != MaxInt ==> 0 <= r < k && IsWriteNode(children[r])
    ensures r != MaxInt ==> forall j :: 0 <= j < r ==> !IsWriteNode(children[j])
  {
    if k == 0 then MaxInt
    else
      var f := FirstWriteBefore(children, k - 1);
      if f == MaxInt && IsWriteNode(children[k - 1]) then k - 1 else f
  }

  /**
   * What the read predicate decides. A caller that owns the write mutex is
   * granted at once; otherwise a reader is granted exactly when no write node
   * precedes its own node, and a blocked reader watches the first write node.
   */
  function ReadLockDecision(children: seq<string>, sequenceNodeName: string, writeOwnedByCaller: bool)
    : (r: Result<PredicateResults, LockError>)
    requires |children| <= MaxInt
    ensures writeOwnedByCaller ==> r == Success(PredicateResults(None, true))
    ensures !writeOwnedByCaller ==>
      (r.Failure? <==> forall i :: 0 <= i < |children| ==> !IsOurReadNode(children[i], sequenceNodeName))
    ensures r.Failure? ==> r.error == NoNode(sequenceNodeName)
    ensures !writeOwnedByCaller && r.Success? ==>
      var ourIndex := OurReadIndex(children, sequenceNodeName);
      (r.value.getsTheLock <==> forall j :: 0 <= j < ourIndex ==> !IsWriteNode(children[j]))
    ensures r.Success? && r.value.getsTheLock ==> r.value.pathToWatch == None
    ensures r.Success? && !r.value.getsTheLock ==>
      exists w :: 0 <= w < OurReadIndex(children, sequenceNodeName) && IsWriteNode(children[w])
        && (forall j :: 0 <= j < w ==> !IsWriteNode(children[j]))
        && r.value.pathToWatch == Some(children[w])
  {
    if writeOwnedByCaller then Success(PredicateResults(None, true))
    else
      var ourIndex := OurReadIndex(children, sequenceNodeName);
      if ourIndex < 0 then Failure(NoNode(sequenceNodeName))
      else
        var firstWriteIndex := FirstWriteBefore(children, ourIndex);
        if ourIndex < firstWriteIndex then Success(PredicateResults(None, true))
        else Success(PredicateResults(Some(children[firstWriteIndex]), false))
  }

  /**
   * `readLockPredicate`: one pass over the sorted children that records the
   * first write node and stops at our own read node.
   */
  method ReadLockPredicate(children: seq<string>, sequenceNodeName: string, writeOwnedByCaller: bool)
    returns (r: Result<PredicateResults, LockError>)
    requires |children| <= MaxInt
    ensures r == ReadLockDecision(children, sequenceNodeName, writeOwnedByCaller)
  {
    if writeOwnedByCaller {
      return Success(PredicateResults(None, true));
    }
    var index := 0;
    var firstWriteIndex := MaxInt;
    var ourIndex := -1;
    while index < |children|
      invariant 0 <= index <= |children|
      invariant ourIndex == -1
      invariant firstWriteIndex == FirstWriteBefore(children, index)
      invariant forall j :: 0 <= j < index ==> !IsOurReadNode(children[j], sequenceNodeName)
    {
      var node := children[index];
      if Contains(node, WriteLockName) {
        firstWriteIndex := Min(index, firstWriteIndex);
      } else if StartsWith(node, sequenceNodeName) {
        ourIndex := index;
        break;
      }
      index := index + 1;
    }
    var valid := ValidateOurIndex(sequenceNodeName, ourIndex);
    if valid.Fail? {
      return Failure(valid.error);
    }
    var getsTheLock := ourIndex < firstWriteIndex;
    var pathToWatch := if getsTheLock then None else Some(children[firstWriteIndex]);
    r := Success(PredicateResults(pathToWatch, getsTheLock));
  }

  /** With no write node in the directory, every present reader is granted. */
  lemma ReadersWithoutWritersAreGranted(children: seq<string>, sequenceNodeName: string)
    requires |children| <= MaxInt
    requires forall i :: 0 <= i < |children| ==> !IsWriteNode(children[i])
    requires exists i :: 0 <= i < |children| && IsOurReadNode(children[i], sequenceNodeName)
    ensures ReadLockDecision(children, sequenceNodeName, false) == Success(PredicateResults(None, true))
  {
  }

  // ---------------------------------------------------------------------------
  // Write predicate and the interplay of the two
  // ---------------------------------------------------------------------------

  /**
   * The write mutex runs the standard predicate with one lease: its node is
   * granted only at the head of all read and write children, and otherwise
   * watches the node immediately before it.
   */
  lemma {:induction false} WriteLockGrantedOnlyAtHead(children: seq<string>, sequenceNodeName: string)
    requires sequenceNodeName in children
    ensures var r := GetsTheLock(children, sequenceNodeName, 1);
      var ourIndex := IndexOf(children, sequenceNodeName);
      r.Success?
      && (r.value.getsTheLock <==> children[0] == sequenceNodeName)
      && (!r.value.getsTheLock ==> ourIndex >= 1 && r.value.pathToWatch == Some(children[ourIndex - 1]))
  {
    var r := GetsTheLock(children, sequenceNodeName, 1);
    assert LeaseWindow(1, |children|) == 1;
    assert children[..1] == [children[0]];
    WatchedNodeIsAhead(children, sequenceNodeName, 1);
  }

  /**
   * A writer whose node is behind another participant's node (the caller's own
   * read node included) is told to wait, never failed: an upgrade blocks.
   */
  lemma UpgradeBlocks(children: seq<string>, readNode: string, writeNode: string)
    requires readNode in children && writeNode in children
    requires IndexOf(children, readNode) < IndexOf(children, writeNode)
    ensures GetsTheLock(children, writeNode, 1).Success?
    ensures !GetsTheLock(children, writeNode, 1).value.getsTheLock
  {
    WriteLockGrantedOnlyAtHead(children, writeNode);
  }

  /**
   * Exclusion between the two sides: while a write node holds the write lock,
   * no reader that does not own the write mutex is granted the read lock.
   */
  lemma {:induction false} GrantedWriterExcludesReaders(children: seq<string>, writeNode: string, readName: string)
    requires |children| <= MaxInt && IsWriteNode(writeNode)
    requires GetsTheLock(children, writeNode, 1).Success? && GetsTheLock(children, writeNode, 1).value.getsTheLock
    ensures var r := ReadLockDecision(children, readName, false);
      r.Failure? || !r.value.getsTheLock
  {
    WriteLockGrantedOnlyAtHead(children, writeNode);
    var r := ReadLockDecision(children, readName, false);
    if r.Success? {
      var ourIndex := OurReadIndex(children, readName);
      assert ourIndex != 0;
      assert IsWriteNode(children[0]);
    }
  }

  // ---------------------------------------------------------------------------
  // The two mutexes
  // ---------------------------------------------------------------------------

  /**
   * `getParticipantNodes` of one side: the directory's participants that carry
   * that side's marker, in their original order.
   */
  function ParticipantNodes(nodes: seq<string>, lockName: string): (r: seq<string>)
    ensures |r| <= |nodes|
    ensures forall i :: 0 <= i < |r| ==> Contains(r[i], lockName)
  {
    if nodes == [] then []
    else (if Contains(nodes[0], lockName) then [nodes[0]] else []) + ParticipantNodes(nodes[1..], lockName)
  }

  /** Every node carrying the marker is kept, as often as it occurs; no other node is. */
  lemma {:induction false} ParticipantNodesAreExactlyTheMarked(nodes: seq<string>, lockName: string, x: string)
    ensures multiset(ParticipantNodes(nodes, lockName))[x]
         == if Contains(x, lockName) then multiset(nodes)[x] else 0
  {
    if nodes != [] {
      assert nodes == [nodes[0]] + nodes[1..];
      ParticipantNodesAreExactlyTheMarked(nodes[1..], lockName, x);
    }
  }

  /** Filtering distributes over concatenation, so relative order is kept. */
  lemma {:induction false} ParticipantNodesKeepOrder(a: seq<string>, b: seq<string>, lockName: string)
    ensures ParticipantNodes(a + b, lockName) == ParticipantNodes(a, lockName) + ParticipantNodes(b, lockName)
  {
    if a == [] {
      assert a + b == b;
    } else {
      var head := if Contains(a[0], lockName) then [a[0]] else [];
      assert (a + b)[0] == a[0] && (a + b)[1..] == a[1..] + b;
      assert ParticipantNodes(a + b, lockName) == head + ParticipantNodes(a[1..] + b, lockName);
      assert ParticipantNodes(a, lockName) == head + ParticipantNodes(a[1..], lockName);
      ParticipantNodesKeepOrder(a[1..], b, lockName);
    }
  }

  /** Which acquisition policy a mutex is parameterised by. */
  datatype Driver =
    | StandardDriver      // plain FIFO with the mutex's lease bound
    | WriteSortingDriver  // FIFO with the lease bound, sorting by sequence number
    | ReadSortingDriver   // the read predicate, sorting by sequence number

  /**
   * The mutex's `fixForSorting`. The two sorting drivers are the ones the
   * read/write lock builds; `StandardDriver` stands for the plain
   * `StandardLockInternalsDriver.fixForSorting`, which delegates to
   * `standardFixForSorting` with the mutex's own marker.
   */
  function FixForSorting(driver: Driver, str: string, lockName: string): (r: string)
    ensures driver.StandardDriver? ==> r == StandardFixForSorting(str, lockName)
    ensures !driver.StandardDriver? ==> r == SortingFixForSorting(str, lockName)
    ensures IsSuffix(r, str)
    ensures !driver.StandardDriver? ==> !Contains(r, ReadLockName) && !Contains(r, WriteLockName)
  {
    if driver.StandardDriver? then
      var r := StandardFixForSorting(str, lockName);
      assert !Contains(str, lockName) ==> r == str;
      r
    else SortingFixForSorting(str, lockName)
  }

  /** One side of the read/write lock: its marker, node payload, lease bound and policy. */
  class InternalInterProcessMutex {
    const basePath: string
    const lockName: string
    const lockData: array?<bv8>
    const maxLeases: int
    const driver: Driver

    constructor (basePath: string, lockName: string, lockData: array?<bv8>, maxLeases: int, driver: Driver)
      ensures this.basePath == basePath && this.lockName == lockName && this.lockData == lockData
      ensures this.maxLeases == maxLeases && this.driver == driver
    {
      this.basePath := basePath;
      this.lockName := lockName;
      this.lockData := lockData;
      this.maxLeases := maxLeases;
      this.driver := driver;
    }

    /**
     * The mutex's `getsTheLock`; `writeOwnedByCaller` answers the read side's
     * question whether the calling thread owns the write mutex.
     */
    method GetsTheLock(children: seq<string>, sequenceNodeName: string, writeOwnedByCaller: bool)
      returns (r: Result<PredicateResults, LockError>)
      requires |children| <= MaxInt
      ensures driver.ReadSortingDriver? ==> r == ReadLockDecision(children, sequenceNodeName, writeOwnedByCaller)
      ensures !driver.ReadSortingDriver? ==> r == StandardLockDriver.GetsTheLock(children, sequenceNodeName, maxLeases)
    {
      if driver.ReadSortingDriver? {
        r := ReadLockPredicate(children, sequenceNodeName, writeOwnedByCaller);
      } else {
        r := StandardLockDriver.GetsTheLock(children, sequenceNodeName, maxLeases);
      }
    }
  }

  /** The read/write lock: two mutexes over one directory sharing a private copy of the payload. */
  class InterProcessReadWriteLock {
    const readMutex: InternalInterProcessMutex
    const writeMutex: InternalInterProcessMutex

    constructor (basePath: string, lockData: array?<bv8>)
      ensures writeMutex.lockName == WriteLockName && writeMutex.maxLeases == 1
      ensures writeMutex.driver == WriteSortingDriver
      ensures readMutex.lockName == ReadLockName && readMutex.maxLeases == MaxInt
      ensures readMutex.driver == ReadSortingDriver
      ensures readMutex.basePath == basePath && writeMutex.basePath == basePath
      ensures fresh(readMutex) && fresh(writeMutex) && readMutex != writeMutex
      // both sides store the same copy, taken before construction returns
      ensures readMutex.lockData == writeMutex.lockData
      ensures (lockData == null) <==> (writeMutex.lockData == null)
      ensures lockData != null ==> fresh(writeMutex.lockData) && writeMutex.lockData[..] == lockData[..]
    {
      var copy: array?<bv8> := null;
      if lockData != null {
        copy := new bv8[lockData.Length](i reads lockData requires 0 <= i < lockData.Length => lockData[i]);
      }
      writeMutex := new InternalInterProcessMutex(basePath, WriteLockName, copy, 1, WriteSortingDriver);
      readMutex := new InternalInterProcessMutex(basePath, ReadLockName, copy, MaxInt, ReadSortingDriver);
    }
  }
}
