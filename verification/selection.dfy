/** Thompson-sampling host selection.

    The selection step draws one sample from each address's Beta belief and
    keeps the address whose sample is strictly greater than every sample
    before it, starting from a floor of -1.0. The draws themselves come from
    a random-number library and are taken here as a given sequence, one
    sample per address, in address order.
 */
module Selection {
  import opened HostPool

  /** The score the scan starts from; any Beta draw lies above it. */
  const Floor: real := -1.0

  /** `k` is the first index holding the greatest sample, and that sample
      beats the floor. */
  predicate IsFirstMax(samples: seq<real>, k: int)
  {
    && 0 <= k < |samples|
    && samples[k] > Floor
    && (forall j :: 0 <= j < k ==> samples[j] < samples[k])
    && (forall j :: 0 <= j < |samples| ==> samples[j] <= samples[k])
  }

  /** The index the scan ends on, or -1 when no sample beat the floor. The
      recursion walks the samples in order, one step per loop iteration: the
      last sample replaces the current choice only when it is strictly
      greater than the best score so far. */
  function SelectIndex(samples: seq<real>): (k: int)
    ensures -1 <= k < |samples|
    ensures k == -1 <==> forall j :: 0 <= j < |samples| ==> samples[j] <= Floor
    ensures k != -1 ==> IsFirstMax(samples, k)
  {
    if |samples| == 0 then -1
    else
      var prefix := samples[..|samples| - 1];
      var k := SelectIndex(prefix);
      var best := if k == -1 then Floor else samples[k];
      assert forall j :: 0 <= j < |prefix| ==> prefix[j] == samples[j];
      if samples[|samples| - 1] > best then |samples| - 1 else k
  }

  /** There is at most one first maximum: the characterisation above pins
      the scan's result down completely. */
  lemma FirstMaxUnique(samples: seq<real>, k: int, k': int)
    requires IsFirstMax(samples, k) && IsFirstMax(samples, k')
    ensures k == k'
  {
  }

  /** The host chosen for one request, given the sample drawn for each of
      the pool's addresses: the address at the first index of the greatest
      sample, or "" when no sample beat the floor (always so for an empty
      pool). Selection reads the pool and changes nothing in it. */
  function SelectHost(hp: Pool, samples: seq<real>): (host: string)
    requires |samples| == |hp.addrs|
    ensures forall k :: IsFirstMax(samples, k) ==> host == hp.addrs[k]
    ensures (forall j :: 0 <= j < |samples| ==> samples[j] <= Floor) ==> host == ""
    ensures |hp.addrs| == 0 ==> host == ""
    ensures (exists j :: 0 <= j < |samples| && samples[j] > Floor) ==> host in hp.addrs
  {
    var k := SelectIndex(samples);
    if k == -1 then "" else hp.addrs[k]
  }

  /** With a non-empty pool and draws that all lie above the floor, as Beta
      draws in [0, 1] do, the chosen host is one of the pool's addresses; a
      pool of one address always chooses it. */
  lemma SelectHostInPool(hp: Pool, samples: seq<real>)
    requires |samples| == |hp.addrs| > 0
    requires forall j :: 0 <= j < |samples| ==> 0.0 <= samples[j] <= 1.0
    ensures SelectHost(hp, samples) in hp.addrs
    ensures |hp.addrs| == 1 ==> SelectHost(hp, samples) == hp.addrs[0]
  {
    assert samples[0] > Floor;
    if |hp.addrs| == 1 {
      assert IsFirstMax(samples, 0);
    }
  }

  /** Ties go to the earlier address: when the samples at `i < j` are equal
      and greatest, the scan never ends on `j` or anything after `i`. */
  lemma TieGoesToEarlier(samples: seq<real>, i: nat, j: nat)
    requires i < j < |samples|
    requires samples[i] == samples[j] > Floor
    requires forall k :: 0 <= k < |samples| ==> samples[k] <= samples[i]
    ensures SelectIndex(samples) <= i
  {
  }
}
