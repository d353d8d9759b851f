/** Node IDs and the digests taken of them. */
module NodeIds {

  /** The text before the first `::`, or the whole ID when there is none. */
  function NodeFile(id: string): string {
    if id == "" || (|id| >= 2 && id[0] == ':' && id[1] == ':') then "" else [id[0]] + NodeFile(id[1..])
  }

  predicate SeparatorAt(id: string, k: nat) { k + 1 < |id| && id[k] == ':' && id[k + 1] == ':' }

  /** It ends where the first `::` starts, and is the whole ID when there is none. */
  lemma {:induction false} EndsAtSeparator(id: string)
    ensures NodeFile(id) <= id && forall k: nat :: k < |NodeFile(id)| ==> !SeparatorAt(id, k)
    ensures NodeFile(id) == id || SeparatorAt(id, |NodeFile(id)|)
  {
    if id != "" && !SeparatorAt(id, 0) {
      EndsAtSeparator(id[1..]);
      assert id == [id[0]] + id[1..];
      forall k: nat | k < |NodeFile(id)| ensures !SeparatorAt(id, k) {
        if k > 0 { assert !SeparatorAt(id[1..], k - 1); }
      }
      if NodeFile(id[1..]) != id[1..] { assert SeparatorAt(id[1..], |NodeFile(id[1..])|); }
    }
  }

  /** The files that node IDs name. */
  function FilesOf(nodes: seq<string>): set<string> { set i | 0 <= i < |nodes| :: NodeFile(nodes[i]) }

  /** SHA-256 over the canonical encodings, left uninterpreted: of a node list and of
      the sorted (path, shard) pairs. */
  datatype Digests = Digests(nodes: seq<string> -> string, pairs: seq<(string, nat)> -> string)
}
