/** Looking for 64-digit ids in a byte stream, a whole file at a time and chunk by chunk. */
module Scanner {
  newtype byte = x: int | 0 <= x < 256

  type Bytes = seq<byte>

  const ID_BYTES := 64
  const CARRY_BYTES := 65
  const HEAD_BYTES := 16
  const CHUNK_BYTES := 16 * 1024 * 1024

  predicate IsHex(b: byte) { 48 <= b <= 57 || 97 <= b <= 102 }

  predicate HexRun(data: Bytes, i: nat) {
    i + ID_BYTES <= |data| && forall j :: i <= j < i + ID_BYTES ==> IsHex(data[j])
  }

  /** `(?<![0-9a-f])[0-9a-f]{64}(?![0-9a-f])` matches at `i`. */
  predicate MatchAt(data: Bytes, i: nat) {
    HexRun(data, i) && (i == 0 || !IsHex(data[i - 1])) && (i + ID_BYTES == |data| || !IsHex(data[i + ID_BYTES]))
  }

  /** The targets that match somewhere before `end`. */
  ghost function MatchesBefore(data: Bytes, targets: set<Bytes>, end: nat): set<Bytes> {
    set t | t in targets && exists i :: 0 <= i < end && MatchAt(data, i) && data[i..i + ID_BYTES] == t
  }

  ghost function Matches(data: Bytes, targets: set<Bytes>): set<Bytes> { MatchesBefore(data, targets, |data|) }

  /** The ids found so far, shared by every scan of one run. */
  class Found {
    var ids: set<Bytes>

    constructor ()
      ensures ids == {}
    {
      ids := {};
    }
  }

  /** Two matches never overlap, so skipping past one loses nothing. */
  lemma NoOverlap(data: Bytes, i: nat, j: nat)
    requires MatchAt(data, i) && i < j < i + ID_BYTES
    ensures !MatchAt(data, j)
  {
    assert IsHex(data[j - 1]);
  }

  lemma MatchesStep(data: Bytes, targets: set<Bytes>, i: nat, k: nat)
    requires forall j :: i < j < k ==> !MatchAt(data, j)
    requires i < k
    ensures MatchesBefore(data, targets, k) == MatchesBefore(data, targets, i) +
      if MatchAt(data, i) && data[i..i + ID_BYTES] in targets then {data[i..i + ID_BYTES]} else {}
  {
  }

  /** `finditer`: every match from left to right, continuing after the end of each. */
  method Scan(data: Bytes, targets: set<Bytes>, found: Found)
    modifies found
    ensures found.ids == old(found.ids) + Matches(data, targets)
  {
    var pos := 0;
    while pos < |data|
      invariant found.ids == old(found.ids) + MatchesBefore(data, targets, pos)
    {
      if MatchAt(data, pos) {
        var id := data[pos..pos + ID_BYTES];
        forall j | pos < j < pos + ID_BYTES ensures !MatchAt(data, j) { NoOverlap(data, pos, j); }
        MatchesStep(data, targets, pos, pos + ID_BYTES);
        if id in targets { found.ids := found.ids + {id}; }
        pos := pos + ID_BYTES;
      } else {
        MatchesStep(data, targets, pos, pos + 1);
        pos := pos + 1;
      }
    }
    assert pos > |data| ==> MatchesBefore(data, targets, pos) == Matches(data, targets);
  }

  // ---------------------------------------------------------------- chunks

  /** `data[-65:]`. */
  function Carry(data: Bytes): Bytes {
    if |data| <= CARRY_BYTES then data else data[|data| - CARRY_BYTES..]
  }

  /** The first `k` chunks joined. */
  ghost function Prefix(chunks: seq<Bytes>, k: nat): Bytes
    requires k <= |chunks|
  {
    if k == 0 then [] else Prefix(chunks, k - 1) + chunks[k - 1]
  }

  ghost function Whole(chunks: seq<Bytes>): Bytes { Prefix(chunks, |chunks|) }

  ghost function Block(chunks: seq<Bytes>, k: nat): Bytes
    requires k < |chunks|
  {
    Carry(Prefix(chunks, k)) + chunks[k]
  }

  ghost function UnionOf(sets: seq<set<Bytes>>): set<Bytes> {
    if sets == [] then {} else UnionOf(sets[..|sets| - 1]) + sets[|sets| - 1]
  }

  lemma {:induction false} InUnion(sets: seq<set<Bytes>>, t: Bytes)
    ensures t in UnionOf(sets) <==> exists k :: 0 <= k < |sets| && t in sets[k]
  {
    if sets != [] {
      var rest := sets[..|sets| - 1];
      InUnion(rest, t);
      if k :| 0 <= k < |rest| && t in rest[k] { assert t in sets[k]; }
      if k :| 0 <= k < |sets| && t in sets[k] {
        if k < |rest| { assert t in rest[k]; }
      }
    }
  }

  ghost function BlockMatches(chunks: seq<Bytes>, targets: set<Bytes>): (r: seq<set<Bytes>>)
    ensures |r| == |chunks|
  {
    seq(|chunks|, k requires 0 <= k < |chunks| => Matches(Block(chunks, k), targets))
  }

  lemma BlockMatchesAt(chunks: seq<Bytes>, targets: set<Bytes>, k: nat)
    requires k < |chunks|
    ensures BlockMatches(chunks, targets)[k] == Matches(Block(chunks, k), targets)
  {
  }

  /** What scanning the first `k` blocks finds. */
  ghost function FoundIn(chunks: seq<Bytes>, targets: set<Bytes>, k: nat): set<Bytes>
    requires k <= |chunks|
  {
    UnionOf(BlockMatches(chunks, targets)[..k])
  }

  lemma UnionStep(sets: seq<set<Bytes>>, k: nat)
    requires k < |sets|
    ensures UnionOf(sets[..k + 1]) == UnionOf(sets[..k]) + sets[k]
  {
    assert sets[..k + 1][..k] == sets[..k];
  }

  lemma FoundStep(chunks: seq<Bytes>, targets: set<Bytes>, k: nat)
    requires k < |chunks|
    ensures FoundIn(chunks, targets, k + 1) == FoundIn(chunks, targets, k) + Matches(Block(chunks, k), targets)
  {
    BlockMatchesAt(chunks, targets, k);
    UnionStep(BlockMatches(chunks, targets), k);
  }

  /** What repeated reads of `size` bytes answer: full chunks, and a last one that may be shorter. */
  predicate ReadInChunks(chunks: seq<Bytes>, size: nat) {
    && (forall k :: 0 <= k < |chunks| ==> 0 < |chunks[k]| <= size)
    && forall k :: 0 <= k < |chunks| - 1 ==> |chunks[k]| == size
  }

  lemma CarryOfBlock(p: Bytes, c: Bytes)
    ensures Carry(Carry(p) + c) == Carry(p + c)
  {
  }

  lemma Associates<T>(a: set<T>, b: set<T>, c: set<T>)
    ensures a + b + c == a + (b + c)
  {
  }

  function Head(data: Bytes): Bytes { if |data| <= HEAD_BYTES then data else data[..HEAD_BYTES] }

  /** Scans the chunks as they are read; answers the head of the file. */
  method ScanFile(chunks: seq<Bytes>, targets: set<Bytes>, found: Found) returns (head: Bytes)
    requires forall k :: 0 <= k < |chunks| ==> chunks[k] != []
    modifies found
    ensures found.ids == old(found.ids) + FoundIn(chunks, targets, |chunks|)
    ensures head == if chunks == [] then [] else Head(chunks[0])
  {
    head := [];
    var carry := [];
    for k := 0 to |chunks|
      invariant carry == Carry(Prefix(chunks, k))
      invariant found.ids == old(found.ids) + FoundIn(chunks, targets, k)
      invariant head == if k == 0 then [] else Head(chunks[0])
    {
      var chunk := chunks[k];
      if head == [] { head := Head(chunk); }
      var block := carry + chunk;
      ghost var start, before := old(found.ids), FoundIn(chunks, targets, k);
      Scan(block, targets, found);
      Associates(start, before, Matches(block, targets));
      FoundStep(chunks, targets, k);
      CarryOfBlock(Prefix(chunks, k), chunk);
      carry := Carry(block);
    }
  }

  // ---------------------------------------------------------------- chunked against whole

  /** A prefix of the file ends where a later one continues. */
  lemma {:induction false} PrefixOf(chunks: seq<Bytes>, j: nat, k: nat)
    requires j <= k <= |chunks|
    ensures Prefix(chunks, j) <= Prefix(chunks, k)
  {
    if j < k { PrefixOf(chunks, j, k - 1); }
  }

  /** Where block `k` starts in the file, and what it holds. */
  ghost function Start(chunks: seq<Bytes>, k: nat): nat
    requires k < |chunks|
  {
    |Prefix(chunks, k)| - |Carry(Prefix(chunks, k))|
  }

  ghost function End(chunks: seq<Bytes>, k: nat): nat
    requires k < |chunks|
  {
    |Prefix(chunks, k + 1)|
  }

  lemma BlockInFile(chunks: seq<Bytes>, k: nat)
    requires k < |chunks|
    ensures Start(chunks, k) <= |Prefix(chunks, k)| <= End(chunks, k) <= |Whole(chunks)|
    ensures Block(chunks, k) == Whole(chunks)[Start(chunks, k)..End(chunks, k)]
  {
    PrefixOf(chunks, k + 1, |chunks|);
    var p, w := Prefix(chunks, k), Whole(chunks);
    assert Prefix(chunks, k + 1) == p + chunks[k];
    assert Prefix(chunks, k + 1) == w[..|Prefix(chunks, k + 1)|];
    assert Block(chunks, k) == (p + chunks[k])[Start(chunks, k)..];
  }

  /** The chunk during whose block a position past the match is first available. */
  lemma {:induction false} CoveringChunk(chunks: seq<Bytes>, end: nat, n: nat) returns (k: nat)
    requires 1 <= n <= |chunks| && 0 < end <= |Prefix(chunks, n)|
    ensures k < n && |Prefix(chunks, k)| <= end
    ensures end < |Prefix(chunks, k + 1)| || (k + 1 == n && end == |Prefix(chunks, n)|)
  {
    if |Prefix(chunks, n - 1)| <= end {
      k := n - 1;
    } else {
      k := CoveringChunk(chunks, end, n - 1);
    }
  }

  lemma FoundByBlock(chunks: seq<Bytes>, targets: set<Bytes>, k: nat, t: Bytes)
    requires k < |chunks| && t in Matches(Block(chunks, k), targets)
    ensures t in FoundIn(chunks, targets, |chunks|)
  {
    var sets := BlockMatches(chunks, targets);
    BlockMatchesAt(chunks, targets, k);
    assert sets[..|chunks|] == sets;
    InUnion(sets, t);
  }

  /** Whatever was found was found in some block. */
  lemma FoundSource(chunks: seq<Bytes>, targets: set<Bytes>, t: Bytes) returns (k: nat)
    requires t in FoundIn(chunks, targets, |chunks|)
    ensures k < |chunks| && t in Matches(Block(chunks, k), targets)
  {
    var sets := BlockMatches(chunks, targets);
    assert sets[..|chunks|] == sets;
    InUnion(sets, t);
    k :| 0 <= k < |sets| && t in sets[k];
    BlockMatchesAt(chunks, targets, k);
  }

  lemma SliceOfSlice<T>(s: seq<T>, from: nat, to: nat, i: nat, j: nat)
    requires from <= i <= j <= to <= |s|
    ensures s[from..to][i - from..j - from] == s[i..j]
  {
    var a, b := s[from..to][i - from..j - from], s[i..j];
    assert |a| == |b|;
    assert forall k :: 0 <= k < |a| ==> a[k] == s[from..to][i - from + k] == s[i + k] == b[k];
  }

  /** A match stays one in a window that reaches past it on both sides or to the file's ends. */
  lemma MatchInWindow(whole: Bytes, from: nat, to: nat, i: nat)
    requires MatchAt(whole, i) && (from == 0 || from < i) && i + ID_BYTES <= to <= |whole|
    requires to == |whole| || i + ID_BYTES < to
    ensures from <= i && MatchAt(whole[from..to], i - from)
    ensures whole[from..to][i - from..i - from + ID_BYTES] == whole[i..i + ID_BYTES]
  {
    SliceOfSlice(whole, from, to, i, i + ID_BYTES);
    var block, at := whole[from..to], i - from;
    forall j | at <= j < at + ID_BYTES ensures IsHex(block[j]) { assert IsHex(whole[j + from]); }
  }

  /** A match of the whole file is a match of one block. */
  lemma MatchInBlock(chunks: seq<Bytes>, i: nat) returns (k: nat)
    requires chunks != [] && MatchAt(Whole(chunks), i)
    ensures k < |chunks| && Start(chunks, k) <= i
    ensures MatchAt(Block(chunks, k), i - Start(chunks, k))
    ensures Block(chunks, k)[i - Start(chunks, k)..i - Start(chunks, k) + ID_BYTES] == Whole(chunks)[i..i + ID_BYTES]
  {
    k := CoveringChunk(chunks, i + ID_BYTES, |chunks|);
    BlockInFile(chunks, k);
    MatchInWindow(Whole(chunks), Start(chunks, k), End(chunks, k), i);
  }

  lemma MatchCounts(data: Bytes, targets: set<Bytes>, i: nat, t: Bytes)
    requires MatchAt(data, i) && data[i..i + ID_BYTES] == t && t in targets
    ensures t in Matches(data, targets)
  {
  }

  lemma MatchFound(chunks: seq<Bytes>, targets: set<Bytes>, i: nat, t: Bytes)
    requires MatchAt(Whole(chunks), i) && Whole(chunks)[i..i + ID_BYTES] == t && t in targets
    ensures t in FoundIn(chunks, targets, |chunks|)
  {
    var k := MatchInBlock(chunks, i);
    MatchCounts(Block(chunks, k), targets, i - Start(chunks, k), t);
    FoundByBlock(chunks, targets, k, t);
  }

  /** However the file is cut into chunks, the chunked scan finds everything the whole-file scan finds. */
  lemma ChunkedFindsAll(chunks: seq<Bytes>, targets: set<Bytes>)
    ensures Matches(Whole(chunks), targets) <= FoundIn(chunks, targets, |chunks|)
  {
    forall t | t in Matches(Whole(chunks), targets) ensures t in FoundIn(chunks, targets, |chunks|) {
      var i :| 0 <= i < |Whole(chunks)| && MatchAt(Whole(chunks), i) && Whole(chunks)[i..i + ID_BYTES] == t;
      MatchFound(chunks, targets, i, t);
    }
  }

  /** The id at `i` as a scan of bytes `from..to` alone sees it: 64 hex digits whose neighbours are
      not hex digits or lie outside the window. */
  ghost predicate InWindow(whole: Bytes, from: nat, to: nat, i: nat, t: Bytes) {
    && from <= i && i + ID_BYTES <= to <= |whole| && HexRun(whole, i) && whole[i..i + ID_BYTES] == t
    && (i == from || !IsHex(whole[i - 1])) && (i + ID_BYTES == to || !IsHex(whole[i + ID_BYTES]))
  }

  lemma WindowAt(whole: Bytes, from: nat, to: nat, i: nat, t: Bytes)
    requires from <= i && from <= to <= |whole|
    ensures InWindow(whole, from, to, i, t) <==>
      MatchAt(whole[from..to], i - from) && whole[from..to][i - from..i - from + ID_BYTES] == t
  {
    var block, at := whole[from..to], i - from;
    if i + ID_BYTES <= to {
      SliceOfSlice(whole, from, to, i, i + ID_BYTES);
      if HexRun(block, at) {
        forall j | i <= j < i + ID_BYTES ensures IsHex(whole[j]) { assert IsHex(block[j - from]); }
      }
    }
  }

  lemma WindowMatches(whole: Bytes, from: nat, to: nat, targets: set<Bytes>, t: Bytes)
    requires from <= to <= |whole|
    ensures t in Matches(whole[from..to], targets) <==> t in targets && exists i: nat :: InWindow(whole, from, to, i, t)
  {
    var block := whole[from..to];
    if t in Matches(block, targets) {
      var j :| 0 <= j < |block| && MatchAt(block, j) && block[j..j + ID_BYTES] == t;
      WindowAt(whole, from, to, from + j, t);
    }
    if t in targets {
      if i: nat :| InWindow(whole, from, to, i, t) {
        WindowAt(whole, from, to, i, t);
        assert MatchAt(block, i - from);
      }
    }
  }

  /** The target stands somewhere in the file as block `k` sees it. */
  ghost predicate Accepted(chunks: seq<Bytes>, k: nat, t: Bytes)
    requires k < |chunks|
  {
    exists i: nat :: InWindow(Whole(chunks), Start(chunks, k), End(chunks, k), i, t)
  }

  lemma BlockExactly(chunks: seq<Bytes>, targets: set<Bytes>, k: nat, t: Bytes)
    requires k < |chunks|
    ensures t in Matches(Block(chunks, k), targets) <==> t in targets && Accepted(chunks, k, t)
  {
    BlockInFile(chunks, k);
    WindowMatches(Whole(chunks), Start(chunks, k), End(chunks, k), targets, t);
  }

  /** A block edge hides a neighbour, so the scan may accept part of a longer run, but never text
      that is not in the file: it finds exactly the targets some block accepts. */
  lemma ChunkedFindsExactly(chunks: seq<Bytes>, targets: set<Bytes>, t: Bytes)
    ensures t in FoundIn(chunks, targets, |chunks|) <==>
      t in targets && exists k :: 0 <= k < |chunks| && Accepted(chunks, k, t)
  {
    if t in FoundIn(chunks, targets, |chunks|) {
      var k := FoundSource(chunks, targets, t);
      BlockExactly(chunks, targets, k, t);
    }
    if k :| t in targets && 0 <= k < |chunks| && Accepted(chunks, k, t) {
      BlockExactly(chunks, targets, k, t);
      FoundByBlock(chunks, targets, k, t);
    }
  }

  /** The id at `i` is part of a longer run, and only the edge of block `k` hides that. */
  ghost predicate CutAtEdge(chunks: seq<Bytes>, k: nat, i: nat, t: Bytes)
    requires k < |chunks|
  {
    var whole, from, to := Whole(chunks), Start(chunks, k), End(chunks, k);
    && InWindow(whole, from, to, i, t)
    && (|| (i == from && i > 0 && IsHex(whole[i - 1]))
        || (i + ID_BYTES == to && to < |whole| && IsHex(whole[to])))
  }

  lemma IsolatedOrCut(chunks: seq<Bytes>, k: nat, i: nat, t: Bytes)
    requires k < |chunks| && InWindow(Whole(chunks), Start(chunks, k), End(chunks, k), i, t)
    ensures MatchAt(Whole(chunks), i) || CutAtEdge(chunks, k, i, t)
  {
  }

  lemma CutIsFound(chunks: seq<Bytes>, targets: set<Bytes>, k: nat, i: nat, t: Bytes)
    requires k < |chunks| && t in targets && CutAtEdge(chunks, k, i, t)
    ensures t in FoundIn(chunks, targets, |chunks|)
  {
    assert Accepted(chunks, k, t);
    ChunkedFindsExactly(chunks, targets, t);
  }

  /** Where a found target stands: isolated in the file, or cut at the edge of a block. */
  lemma FoundAt(chunks: seq<Bytes>, targets: set<Bytes>, t: Bytes) returns (k: nat, i: nat)
    requires t in FoundIn(chunks, targets, |chunks|)
    ensures k < |chunks| && t in targets
    ensures (MatchAt(Whole(chunks), i) && Whole(chunks)[i..i + ID_BYTES] == t) || CutAtEdge(chunks, k, i, t)
  {
    ChunkedFindsExactly(chunks, targets, t);
    k :| 0 <= k < |chunks| && Accepted(chunks, k, t);
    i :| InWindow(Whole(chunks), Start(chunks, k), End(chunks, k), i, t);
    IsolatedOrCut(chunks, k, i, t);
  }

  /** The chunked scan is the whole-file scan exactly when every target cut off a longer run by a block edge
      also stands isolated somewhere in the file. */
  lemma ChunkedIsWholeIff(chunks: seq<Bytes>, targets: set<Bytes>)
    ensures FoundIn(chunks, targets, |chunks|) == Matches(Whole(chunks), targets) <==>
      forall k, i: nat, t :: 0 <= k < |chunks| && t in targets && CutAtEdge(chunks, k, i, t) ==>
        t in Matches(Whole(chunks), targets)
  {
    var found, matches := FoundIn(chunks, targets, |chunks|), Matches(Whole(chunks), targets);
    if found == matches {
      forall k, i: nat, t | 0 <= k < |chunks| && t in targets && CutAtEdge(chunks, k, i, t) ensures t in matches {
        CutIsFound(chunks, targets, k, i, t);
      }
    }
    if forall k, i: nat, t :: 0 <= k < |chunks| && t in targets && CutAtEdge(chunks, k, i, t) ==> t in matches {
      ChunkedFindsAll(chunks, targets);
      forall t | t in found ensures t in matches {
        var k, i := FoundAt(chunks, targets, t);
        if !CutAtEdge(chunks, k, i, t) { MatchCounts(Whole(chunks), targets, i, t); }
      }
    }
  }

  /** A file that fits in one chunk is scanned exactly. */
  lemma OneChunkIsExact(chunk: Bytes, targets: set<Bytes>)
    ensures FoundIn([chunk], targets, 1) == Matches(chunk, targets)
  {
    assert Prefix([chunk], 0) == [] && Prefix([chunk], 1) == chunk;
    ChunkedIsWholeIff([chunk], targets);
  }

  lemma TwoChunks(first: Bytes, second: Bytes)
    ensures Block([first, second], 0) == first && Whole([first, second]) == first + second
  {
    var chunks := [first, second];
    assert Prefix(chunks, 0) == [] && Prefix(chunks, 1) == first;
  }

  lemma FoundInFirst(first: Bytes, second: Bytes, targets: set<Bytes>, i: nat, t: Bytes)
    requires MatchAt(first, i) && first[i..i + ID_BYTES] == t && t in targets
    ensures t in FoundIn([first, second], targets, 2)
  {
    TwoChunks(first, second);
    MatchCounts(first, targets, i, t);
    FoundByBlock([first, second], targets, 0, t);
  }

  lemma NothingMatches(data: Bytes, targets: set<Bytes>)
    requires forall i :: 0 <= i < |data| ==> !MatchAt(data, i)
    ensures Matches(data, targets) == {}
  {
  }

  lemma PaddedMatch(pad: Bytes, id: Bytes)
    requires (forall j :: 0 <= j < |pad| ==> !IsHex(pad[j]))
    requires |id| == ID_BYTES && forall j :: 0 <= j < |id| ==> IsHex(id[j])
    ensures MatchAt(pad + id, |pad|) && (pad + id)[|pad|..|pad| + ID_BYTES] == id
  {
    forall j | |pad| <= j < |pad| + ID_BYTES ensures IsHex((pad + id)[j]) { assert (pad + id)[j] == id[j - |pad|]; }
  }

  lemma NoIsolatedRun(pad: Bytes, id: Bytes, extra: byte)
    requires (forall j :: 0 <= j < |pad| ==> !IsHex(pad[j])) && IsHex(extra)
    requires |id| == ID_BYTES && forall j :: 0 <= j < |id| ==> IsHex(id[j])
    ensures forall i :: 0 <= i < |pad + id + [extra]| ==> !MatchAt(pad + id + [extra], i)
  {
    var whole := pad + id + [extra];
    forall i | 0 <= i < |whole| ensures !MatchAt(whole, i) {
      if i < |pad| {
        assert whole[i] == pad[i];
      } else if i == |pad| {
        assert whole[i + ID_BYTES] == extra;
      } else if i == |pad| + 1 {
        assert whole[i - 1] == id[0];
      }
    }
  }

  /** Reading in chunks of 64 bytes and more, an id that ends a chunk and goes on in the next one is accepted,
      although the whole-file pattern does not match it: the padding makes the first chunk any size. */
  lemma ChunkingCanFindMore(pad: Bytes, id: Bytes, extra: byte, targets: set<Bytes>)
    requires (forall j :: 0 <= j < |pad| ==> !IsHex(pad[j])) && IsHex(extra) && targets == {id}
    requires |id| == ID_BYTES && forall j :: 0 <= j < |id| ==> IsHex(id[j])
    ensures ReadInChunks([pad + id, [extra]], |pad| + ID_BYTES)
    ensures id in FoundIn([pad + id, [extra]], targets, 2)
    ensures id !in Matches(Whole([pad + id, [extra]]), targets)
  {
    PaddedMatch(pad, id);
    FoundInFirst(pad + id, [extra], targets, |pad|, id);
    NoIsolatedRun(pad, id, extra);
    TwoChunks(pad + id, [extra]);
    NothingMatches(pad + id + [extra], targets);
  }

  /** The first chunk gives the head of the file exactly when it holds 16 bytes or is the whole file. */
  lemma HeadIff(chunks: seq<Bytes>)
    requires chunks != [] && forall k :: 0 <= k < |chunks| ==> chunks[k] != []
    ensures Head(chunks[0]) == Head(Whole(chunks)) <==> |chunks| == 1 || |chunks[0]| >= HEAD_BYTES
  {
    PrefixOf(chunks, 1, |chunks|);
    assert Prefix(chunks, 1) == chunks[0];
    if |chunks| > 1 {
      PrefixOf(chunks, 2, |chunks|);
      assert |Prefix(chunks, 2)| == |chunks[0]| + |chunks[1]|;
    }
  }

  /** With reads of 16 MiB, the answered head is always the file's first 16 bytes. */
  lemma HeadOfFile(chunks: seq<Bytes>)
    requires ReadInChunks(chunks, 16_777_216)
    ensures (if chunks == [] then [] else Head(chunks[0])) ==
      Whole(chunks)[..if |Whole(chunks)| < 16 then |Whole(chunks)| else 16]
  {
    if chunks != [] { HeadIff(chunks); }
  }

  // ---------------------------------------------------------------- what an id is

  const HEX_DIGITS := "0123456789abcdef"

  predicate HexDigit(b: byte) { (b as int) < 128 && b as int as char in HEX_DIGITS }

  lemma HexMeans(b: byte)
    ensures IsHex(b) <==> HexDigit(b)
  {
    if IsHex(b) {
      var k := if b <= 57 then b as int - 48 else b as int - 87;
      assert 0 <= k < 16 && HEX_DIGITS[k] == b as int as char;
    }
  }

  /** `t` stands at `i`, with no digit on either side. */
  ghost predicate StandsAt(data: Bytes, t: Bytes, i: nat) {
    && i + 64 <= |data| && data[i..i + 64] == t
    && (i > 0 ==> !HexDigit(data[i - 1])) && (i + 64 < |data| ==> !HexDigit(data[i + 64]))
  }

  /** A target is found when its 64 lower-case hexadecimal digits stand somewhere with no such digit on either side. */
  lemma MatchesExactly(data: Bytes, targets: set<Bytes>, t: Bytes)
    ensures t in Matches(data, targets) <==>
      t in targets && |t| == 64 && (forall j :: 0 <= j < 64 ==> HexDigit(t[j])) &&
      exists i :: 0 <= i < |data| && StandsAt(data, t, i)
  {
    forall b ensures IsHex(b) <==> HexDigit(b) { HexMeans(b); }
    if t in Matches(data, targets) {
      var i :| 0 <= i < |data| && MatchAt(data, i) && data[i..i + ID_BYTES] == t;
      forall j | 0 <= j < 64 ensures HexDigit(t[j]) { assert t[j] == data[i + j]; }
      assert StandsAt(data, t, i);
    }
    if |t| == 64 && forall j :: 0 <= j < 64 ==> HexDigit(t[j]) {
      if i :| 0 <= i < |data| && StandsAt(data, t, i) {
        forall j | i <= j < i + ID_BYTES ensures IsHex(data[j]) { assert data[j] == t[j - i]; }
        assert MatchAt(data, i);
      }
    }
  }

  lemma CarryLength(data: Bytes)
    ensures |Carry(data)| == if |data| < 65 then |data| else 65
  {
  }

  /** The block scanned with chunk `k` is the chunk and the 65 bytes before it, or all of them when there are fewer. */
  lemma BlockScanned(chunks: seq<Bytes>, k: nat)
    requires k < |chunks|
    ensures |Prefix(chunks, k)| + |chunks[k]| == |Prefix(chunks, k + 1)| <= |Whole(chunks)|
    ensures var before := |Prefix(chunks, k)|;
      Block(chunks, k) == Whole(chunks)[if before < 65 then 0 else before - 65..before + |chunks[k]|]
  {
    BlockInFile(chunks, k);
    CarryLength(Prefix(chunks, k));
    assert |Prefix(chunks, k + 1)| == |Prefix(chunks, k)| + |chunks[k]|;
  }
}
