/** Finding the author's VRF output in the digest of a block. */
module RandomnessVrf {
  import opened Common

  type VrfId = nat

  /** The VRF output and proof, as bytes. */
  datatype PreDigest = PreDigest(output: Hash, proof: Hash)

  /** A digest item.  The payload is none when it does not decode. */
  datatype Item = Vrf(pre: Option<PreDigest>) | Nimbus(id: Option<NimbusId>) | Unrelated

  /** The VRF key of the author an item names. */
  function AuthorKey(lookup: NimbusId -> Option<VrfId>, item: Item): Option<VrfId> {
    if item.Nimbus? && item.id.Some? then lookup(item.id.value) else None
  }

  /** Item `i` is the first VRF item and decodes, item `j` is the last author item before it, and every
      author item before `i` decodes and names an author with a VRF key. */
  ghost predicate Selects(logs: seq<Item>, lookup: NimbusId -> Option<VrfId>, i: nat, j: nat) {
    && j < i < |logs|
    && logs[i].Vrf? && logs[i].pre.Some?
    && (forall k :: 0 <= k < i ==> !logs[k].Vrf?)
    && (forall k :: 0 <= k < i && logs[k].Nimbus? ==> logs[k].id.Some? && lookup(logs[k].id.value).Some?)
    && logs[j].Nimbus?
    && (forall k :: j < k < i ==> !logs[k].Nimbus?)
  }

  /** The scan of the digest.  None stands for a panic.  It succeeds exactly on a digest with a
      selection, and returns that selection: an author item after the VRF item is never looked at. */
  method ScanDigest(logs: seq<Item>, lookup: NimbusId -> Option<VrfId>) returns (r: Option<(VrfId, PreDigest)>)
    ensures r.Some? <==> exists i: nat, j: nat :: Selects(logs, lookup, i, j)
    ensures forall i: nat, j: nat :: Selects(logs, lookup, i, j) ==>
              r == Some((lookup(logs[j].id.value).value, logs[i].pre.value))
  {
    var author: Option<VrfId> := None;
    ghost var last := 0;
    for n := 0 to |logs|
      invariant forall k :: 0 <= k < n ==> !logs[k].Vrf?
      invariant forall k :: 0 <= k < n && logs[k].Nimbus? ==> AuthorKey(lookup, logs[k]).Some?
      invariant author.None? ==> forall k :: 0 <= k < n ==> !logs[k].Nimbus?
      invariant author.Some? ==> last < n && logs[last].Nimbus? && author == AuthorKey(lookup, logs[last])
      invariant author.Some? ==> forall k :: last < k < n ==> !logs[k].Nimbus?
    {
      match logs[n]
      case Vrf(pre) =>
        if pre.None? || author.None? {
          return None;
        }
        assert Selects(logs, lookup, n, last);
        return Some((author.value, pre.value));
      case Nimbus(id) =>
        author := AuthorKey(lookup, logs[n]);
        last := n;
        if author.None? {
          return None;
        }
      case Unrelated =>
    }
    return None;
  }
}
