/**
 * The hash chains of the LZ77 encoder: circular buffers over the last
 * `windowsize` positions, in which old slots are overwritten without being
 * unlinked. What is proved about a match never depends on a chain being up to
 * date, only on every slot having been written for the position it is read as.
 */
module HashChain {
  import opened Powers
  import opened BitStream
  import opened Lz77

  const HASH_NUM_VALUES: nat := 65536
  const MAX_LENGTH: nat := 258

  /** The position last written into slot s of a circular buffer whose newest position is pos; negative if none was. */
  function LastAt(pos: nat, w: nat, s: nat): int
    requires w > 0
  {
    if s <= pos % w then pos - pos % w + s else pos - pos % w + s - w
  }

  lemma LastAtStep(pos: nat, w: nat, s: nat)
    requires s < w
    ensures LastAt(pos + 1, w, s) == if s == (pos + 1) % w then pos + 1 else LastAt(pos, w, s)
  {
    ModStep(pos, w);
  }

  /** n zero bytes at position q, all before `end`. */
  predicate ZeroRun(data: seq<byte>, q: int, n: nat, end: nat) {
    0 <= q && q + n <= end <= |data| && forall k :: q <= k < q + n ==> data[k] == 0
  }

  /** getHash */
  method GetHash(data: seq<byte>, size: nat, pos: nat) returns (h: nat)
    requires size <= |data|
    ensures h < HASH_NUM_VALUES
  {
    var result: bv32 := 0;
    if pos + 2 < size {
      result := (data[pos] as bv32) ^ ((data[pos + 1] as bv32) << 4) ^ ((data[pos + 2] as bv32) << 8);
    } else {
      if pos >= size {
        return 0;
      }
      result := data[pos] as bv32;
      if pos + 1 < size {
        result := result ^ ((data[pos + 1] as bv32) << 8);
      }
    }
    h := ((result & 65535) as bv16) as nat;
  }

  /** countZeros: at most 258 */
  method CountZeros(data: seq<byte>, size: nat, pos: nat) returns (n: nat)
    requires pos <= size <= |data|
    ensures n <= MAX_LENGTH && ZeroRun(data, pos, n, size)
  {
    var end := if pos + MAX_LENGTH > size then size else pos + MAX_LENGTH;
    var p := pos;
    while p != end && data[p] == 0
      invariant pos <= p <= end && forall k :: pos <= k < p ==> data[k] == 0
      decreases end - p
    {
      p := p + 1;
    }
    n := p - pos;
  }

  /** The run count carried from the previous position, or kept when a position is visited again. */
  predicate NearZeros(data: seq<byte>, pos: nat, n: nat, end: nat) {
    n == 0 || ZeroRun(data, pos, n, end) || ZeroRun(data, pos - 1, n, end)
  }

  /** The encoder's update of numzeros keeps it a count of zeros at the current position. */
  method UpdateZeros(data: seq<byte>, size: nat, pos: nat, hashval: nat, numzeros: nat) returns (n: nat)
    requires pos < size <= |data| && numzeros <= MAX_LENGTH && NearZeros(data, pos, numzeros, size)
    ensures n <= MAX_LENGTH && ZeroRun(data, pos, n, size)
  {
    n := numzeros;
    if hashval == 0 {
      if n == 0 {
        n := CountZeros(data, size, pos);
      } else if pos + n > size || data[pos + n - 1] != 0 {
        n := n - 1;
      }
    } else {
      n := 0;
    }
  }

  /** Slot s has been written, when `done` positions have been inserted. */
  predicate Seen(done: nat, w: nat, s: int) {
    done > 0 && 0 <= s < w && LastAt(done - 1, w, s) >= 0
  }

  /** Links lead to written slots, or nowhere. */
  predicate HeadsSeen(heads: seq<int>, done: nat, w: nat) {
    forall h :: 0 <= h < |heads| ==> heads[h] == -1 || Seen(done, w, heads[h])
  }

  predicate ChainSeen(chain: seq<nat>, done: nat, w: nat) {
    |chain| == w && forall s :: 0 <= s < w ==> chain[s] == s || Seen(done, w, chain[s])
  }

  /** A written slot's zero count is one of the position it was written for. */
  predicate ZerosOk(zeros: seq<nat>, data: seq<byte>, done: nat, w: nat) {
    |zeros| == w && forall s :: 0 <= s < w && Seen(done, w, s) ==>
      ZeroRun(data, LastAt(done - 1, w, s), zeros[s], |data|)
  }

  /** Inserting position pos, which is new or the newest one again. */
  predicate Inserting(done: nat, pos: nat) {
    pos == done || pos + 1 == done
  }

  lemma SeenStep(done: nat, pos: nat, w: nat, s: int)
    requires w > 0 && Inserting(done, pos)
    ensures Seen(done, w, s) ==> Seen(pos + 1, w, s)
    ensures Seen(pos + 1, w, pos % w)
    ensures 0 <= s < w && s != pos % w && Seen(pos + 1, w, s) ==>
              Seen(done, w, s) && LastAt(pos, w, s) == LastAt(done - 1, w, s)
  {
    if pos == done && 0 <= s < w && pos > 0 {
      LastAtStep(pos - 1, w, s);
    }
    if pos == 0 {
      ModUnique(0, w, 0, 0);
    }
  }

  lemma HeadsStep(heads: seq<int>, done: nat, pos: nat, w: nat, h: nat)
    requires w > 0 && Inserting(done, pos) && h < |heads| && HeadsSeen(heads, done, w)
    ensures HeadsSeen(heads[h := pos % w], pos + 1, w)
  {
    forall k | 0 <= k < |heads|
      ensures heads[k] == -1 || Seen(pos + 1, w, heads[k])
    {
      SeenStep(done, pos, w, heads[k]);
    }
    SeenStep(done, pos, w, 0);
  }

  lemma ChainStep(chain: seq<nat>, done: nat, pos: nat, w: nat, v: nat)
    requires w > 0 && Inserting(done, pos) && ChainSeen(chain, done, w)
    requires Seen(done, w, v) || v == chain[pos % w]
    ensures ChainSeen(chain[pos % w := v], pos + 1, w)
  {
    forall k | 0 <= k < w
      ensures chain[k] == k || Seen(pos + 1, w, chain[k])
    {
      SeenStep(done, pos, w, chain[k]);
    }
    SeenStep(done, pos, w, v);
  }

  lemma ZerosStep(zeros: seq<nat>, data: seq<byte>, done: nat, pos: nat, w: nat, n: nat)
    requires w > 0 && Inserting(done, pos) && ZerosOk(zeros, data, done, w) && ZeroRun(data, pos, n, |data|)
    ensures ZerosOk(zeros[pos % w := n], data, pos + 1, w)
  {
    var zeros' := zeros[pos % w := n];
    forall s | 0 <= s < w && Seen(pos + 1, w, s)
      ensures ZeroRun(data, LastAt(pos, w, s), zeros'[s], |data|)
    {
      SeenStep(done, pos, w, s);
    }
  }

  /** A slot linked to the head of its list, if there is one. */
  function Linked(chain: seq<nat>, slot: nat, head: int): seq<nat>
    requires slot < |chain|
  {
    if head < 0 then chain else chain[slot := head]
  }

  // ----- Matches -----

  /** The bytes at pos and `offset` before it agree for exactly `length` bytes, or up to the limit. */
  predicate LongestRun(data: seq<byte>, pos: nat, insize: nat, offset: nat, length: nat)
    requires pos < insize <= |data|
  {
    && Repeats(data, pos, length, offset) && length <= 258 && pos + length <= insize
    && (length < 258 && pos + length < insize ==> data[pos + length] != data[pos + length - offset])
  }

  /** The match at `offset`, if there can be one, is no longer than `length`. */
  ghost predicate NoLonger(data: seq<byte>, pos: nat, insize: nat, offset: int, length: nat)
    requires pos < insize <= |data|
  {
    forall l: nat :: offset > 0 && LongestRun(data, pos, insize, offset, l) ==> l <= length
  }

  lemma RunAt(data: seq<byte>, pos: nat, insize: nat, offset: nat, length: nat, i: nat)
    requires pos < insize <= |data| && LongestRun(data, pos, insize, offset, length) && i < length
    ensures i < MAX_LENGTH && pos + i < insize && 0 < offset <= pos && data[pos + i] == data[pos + i - offset]
  {
  }

  lemma OnlyRun(data: seq<byte>, pos: nat, insize: nat, offset: nat, length: nat)
    requires pos < insize <= |data| && LongestRun(data, pos, insize, offset, length)
    ensures NoLonger(data, pos, insize, offset, length)
    ensures forall n: nat :: n < length ==> !NoLonger(data, pos, insize, offset, n)
  {
    forall l: nat | LongestRun(data, pos, insize, offset, l)
      ensures l <= length
    {
      if l > length {
        RunAt(data, pos, insize, offset, l, length);
      }
    }
  }

  /** The offset of the position that slot s was last written for. */
  function SlotOffset(pos: nat, w: nat, s: nat): int
    requires w > 0
  {
    pos - LastAt(pos, w, s)
  }

  /** The slots that were looked at, in order: each is linked to from the one before it. */
  ghost predicate Path(slots: seq<nat>, first: nat, chain: seq<nat>, chainz: seq<nat>) {
    && (slots != [] ==> slots[0] == first)
    && (forall i :: 0 <= i < |slots| ==> slots[i] < |chain| && slots[i] < |chainz|)
    && forall i :: 0 < i < |slots| ==> slots[i] == chain[slots[i - 1]] || slots[i] == chainz[slots[i - 1]]
  }

  lemma PathNext(slots: seq<nat>, s: nat, next: nat, first: nat, chain: seq<nat>, chainz: seq<nat>)
    requires Path(slots + [s], first, chain, chainz) && s < |chain| == |chainz| && next < |chain|
    requires next == chain[s] || next == chainz[s]
    ensures Path(slots + [s] + [next], first, chain, chainz)
  {
    var path, path' := slots + [s], slots + [s] + [next];
    assert path'[|path|] == next && path'[|path| - 1] == s && path'[..|path|] == path;
    assert forall i :: 0 <= i < |path| ==> path'[i] == path[i];
  }

  lemma PathInit(slots: seq<nat>, s: nat, first: nat, chain: seq<nat>, chainz: seq<nat>)
    requires Path(slots + [s], first, chain, chainz)
    ensures Path(slots, first, chain, chainz)
  {
    var path := slots + [s];
    assert forall i :: 0 <= i < |slots| ==> path[i] == slots[i];
  }

  /** The best match of those slots: none is longer, and none before the one it was found at is as long. */
  ghost predicate Best(data: seq<byte>, pos: nat, insize: nat, w: nat, slots: seq<nat>, length: nat, offset: nat)
    requires w > 0 && pos < insize <= |data|
  {
    && (forall i :: 0 <= i < |slots| ==> NoLonger(data, pos, insize, SlotOffset(pos, w, slots[i]), length))
    && (length > 0 ==>
          LongestRun(data, pos, insize, offset, length) && FoundAt(data, pos, insize, w, slots, length, offset))
  }

  ghost predicate FoundAt(data: seq<byte>, pos: nat, insize: nat, w: nat, slots: seq<nat>, length: nat, offset: nat)
    requires w > 0 && pos < insize <= |data| && length > 0
  {
    exists i :: 0 <= i < |slots| && SlotOffset(pos, w, slots[i]) == offset
      && FirstAt(data, pos, insize, w, slots, length, i)
  }

  ghost predicate FirstAt(data: seq<byte>, pos: nat, insize: nat, w: nat, slots: seq<nat>, length: nat, i: nat)
    requires w > 0 && pos < insize <= |data| && length > 0 && i < |slots|
  {
    forall j :: 0 <= j < i ==> NoLonger(data, pos, insize, SlotOffset(pos, w, slots[j]), length - 1)
  }

  lemma BestNone(data: seq<byte>, pos: nat, insize: nat, w: nat)
    requires w > 0 && pos < insize <= |data|
    ensures Best(data, pos, insize, w, [], 0, 0)
  {
  }

  /** One more slot, whose match has length l; 0 if it is the position itself. */
  lemma BestNext(data: seq<byte>, pos: nat, insize: nat, w: nat, slots: seq<nat>, length: nat, offset: nat, s: nat,
                 l: nat)
    requires w > 0 && pos < insize <= |data| && Best(data, pos, insize, w, slots, length, offset)
    requires SlotOffset(pos, w, s) >= 0
    requires if SlotOffset(pos, w, s) > 0 then LongestRun(data, pos, insize, SlotOffset(pos, w, s), l) else l == 0
    ensures var found := l > length;
            Best(data, pos, insize, w, slots + [s], if found then l else length,
                 if found then SlotOffset(pos, w, s) else offset)
  {
    hide LongestRun, SlotOffset;
    var o := SlotOffset(pos, w, s);
    if o > 0 {
      OnlyRun(data, pos, insize, o, l);
    }
    var slots' := slots + [s];
    assert slots'[|slots|] == s && forall i :: 0 <= i < |slots| ==> slots'[i] == slots[i];
    if l > length {
      assert FirstAt(data, pos, insize, w, slots', l, |slots|);
    } else if length > 0 {
      var i :| 0 <= i < |slots| && SlotOffset(pos, w, slots[i]) == offset
               && FirstAt(data, pos, insize, w, slots, length, i);
      assert FirstAt(data, pos, insize, w, slots', length, i);
    }
  }

  class Hash {
    const windowsize: nat
    const head: array<int>
    const chain: array<nat>
    const val: array<int>
    const headz: array<int>
    const chainz: array<nat>
    const zeros: array<nat>

    ghost predicate Sized()
      reads this
    {
      && head.Length == HASH_NUM_VALUES && headz.Length == MAX_LENGTH + 1
      && chain.Length == val.Length == chainz.Length == zeros.Length == windowsize
      && head != headz && head != val && headz != val
      && chain != chainz && chain != zeros && chainz != zeros
    }

    /** `done` positions of `data` have been inserted. */
    ghost predicate Valid(data: seq<byte>, done: nat)
      reads this, head, chain, headz, chainz, zeros
    {
      && Sized()
      && HeadsSeen(head[..], done, windowsize) && HeadsSeen(headz[..], done, windowsize)
      && ChainSeen(chain[..], done, windowsize) && ChainSeen(chainz[..], done, windowsize)
      && ZerosOk(zeros[..], data, done, windowsize)
    }

    /** hash_init; `zeros` stays uninitialised. */
    constructor (windowsize: nat, ghost data: seq<byte>)
      ensures this.windowsize == windowsize && Valid(data, 0)
      ensures fresh(head) && fresh(chain) && fresh(val) && fresh(headz) && fresh(chainz) && fresh(zeros)
    {
      this.windowsize := windowsize;
      head := new int[HASH_NUM_VALUES](_ => -1);
      val := new int[windowsize](_ => -1);
      chain := new nat[windowsize](i => i);
      zeros := new nat[windowsize];
      headz := new int[MAX_LENGTH + 1](_ => -1);
      chainz := new nat[windowsize](i => i);
    }

    /** updateHashChain */
    method Insert(wpos: nat, hashval: nat, numzeros: nat, ghost data: seq<byte>, ghost done: nat, ghost pos: nat)
      requires Valid(data, done) && Inserting(done, pos) && windowsize > 0 && wpos == pos % windowsize
      requires hashval < HASH_NUM_VALUES && numzeros <= MAX_LENGTH && ZeroRun(data, pos, numzeros, |data|)
      modifies head, chain, val, headz, chainz, zeros
      ensures Valid(data, pos + 1)
      ensures val[..] == old(val[..])[wpos := hashval] && head[..] == old(head[..])[hashval := wpos]
      ensures zeros[..] == old(zeros[..])[wpos := numzeros] && headz[..] == old(headz[..])[numzeros := wpos]
      ensures chain[..] == Linked(old(chain[..]), wpos, old(head[hashval]))
      ensures chainz[..] == Linked(old(chainz[..]), wpos, old(headz[numzeros]))
    {
      hide LastAt, HeadsSeen, ChainSeen, ZerosOk, ZeroRun;
      HeadsStep(head[..], done, pos, windowsize, hashval);
      HeadsStep(headz[..], done, pos, windowsize, numzeros);
      ZerosStep(zeros[..], data, done, pos, windowsize, numzeros);
      val[wpos] := hashval;
      LinkOk(head[..], hashval, chain[..], done, pos, windowsize);
      if head[hashval] != -1 {
        chain[wpos] := head[hashval];
      }
      head[hashval] := wpos;
      zeros[wpos] := numzeros;
      LinkOk(headz[..], numzeros, chainz[..], done, pos, windowsize);
      if headz[numzeros] != -1 {
        chainz[wpos] := headz[numzeros];
      }
      headz[numzeros] := wpos;
    }

    /** Cuts the two lists off, so that inserting the same position again does not link it to itself. */
    method Forget(hashval: nat, numzeros: nat, ghost data: seq<byte>, ghost done: nat)
      requires Valid(data, done) && hashval < HASH_NUM_VALUES && numzeros <= MAX_LENGTH
      modifies head, headz
      ensures Valid(data, done)
      ensures head[..] == old(head[..])[hashval := -1] && headz[..] == old(headz[..])[numzeros := -1]
    {
      ghost var heads, headzs := head[..], headz[..];
      head[hashval] := -1;
      headz[numzeros] := -1;
      assert head[..] == heads[hashval := -1] && headz[..] == headzs[numzeros := -1];
    }

    /** The distance back to the position a written slot holds. */
    method OffsetOf(hashpos: nat, wpos: nat, ghost data: seq<byte>, pos: nat) returns (offset: nat)
      requires Valid(data, pos + 1) && windowsize > 0 && wpos == pos % windowsize && Seen(pos + 1, windowsize, hashpos)
      ensures offset <= pos && offset < windowsize && pos - offset == LastAt(pos, windowsize, hashpos)
      ensures offset == SlotOffset(pos, windowsize, hashpos)
      ensures ZeroRun(data, pos - offset, zeros[hashpos], |data|)
    {
      offset := if hashpos <= wpos then wpos - hashpos else wpos - hashpos + windowsize;
      assert zeros[..][hashpos] == zeros[hashpos];
    }

    method Next(hashpos: nat, ghost data: seq<byte>, ghost done: nat) returns (next: nat)
      requires Valid(data, done) && Seen(done, windowsize, hashpos)
      ensures next == chain[hashpos] && Seen(done, windowsize, next)
    {
      next := chain[hashpos];
      assert chain[..][hashpos] == next;
    }

    method NextZ(hashpos: nat, ghost data: seq<byte>, ghost done: nat) returns (next: nat)
      requires Valid(data, done) && Seen(done, windowsize, hashpos)
      ensures next == chainz[hashpos] && Seen(done, windowsize, next)
    {
      next := chainz[hashpos];
      assert chainz[..][hashpos] == next;
    }

    /** The match at one slot, using the zero count stored there as a shortcut. */
    method MatchAt(hashpos: nat, offset: nat, numzeros: nat, data: seq<byte>, pos: nat, insize: nat)
      returns (length: nat)
      requires Sized() && hashpos < windowsize
      requires 0 < offset <= pos < insize <= |data| && ZeroRun(data, pos - offset, zeros[hashpos], |data|)
      requires numzeros <= MAX_LENGTH && ZeroRun(data, pos, numzeros, insize)
      ensures LongestRun(data, pos, insize, offset, length)
    {
      var skip := 0;
      if numzeros >= 3 {
        skip := zeros[hashpos];
        if skip > numzeros {
          skip := numzeros;
        }
      }
      length := MatchLength(data, pos, insize, offset, skip);
    }

    /** The slot after `last`: the zero runs have links of their own, which are followed once a match is longer. */
    function Follow(last: nat, numzeros: nat, length: nat): nat
      requires Sized() && last < windowsize
      reads this, chain, chainz
    {
      if numzeros >= 3 && length > numzeros then chainz[last] else chain[last]
    }

    /** The chain ends with slot `last`: it has no link, or one that is outdated, or went around the buffer. */
    ghost predicate Ended(last: nat, pos: nat, hashval: nat, numzeros: nat, length: nat)
      requires Sized()
      reads this, chain, chainz, val, zeros
    {
      && last < windowsize
      && (chain[last] == last
          || (var next := Follow(last, numzeros, length);
              next < windowsize
              && ((if numzeros >= 3 && length > numzeros then zeros[next] != numzeros else val[next] != hashval)
                  || SlotOffset(pos, windowsize, next) < SlotOffset(pos, windowsize, last))))
    }

    /** The state of the search before it looks at hashpos. */
    ghost predicate Searched(data: seq<byte>, pos: nat, insize: nat, numzeros: nat, slots: seq<nat>, hashpos: nat,
                             prev: nat, length: nat, offset: nat)
      requires pos < insize <= |data| && windowsize > 0
      reads this, chain, chainz
    {
      && Sized()
      && (length > 0 ==> offset < windowsize) && Best(data, pos, insize, windowsize, slots, length, offset)
      && Path(slots + [hashpos], chain[pos % windowsize], chain[..], chainz[..])
      && (slots == [] ==> prev == 0)
      && (slots != [] ==> slots[|slots| - 1] < windowsize && hashpos == Follow(slots[|slots| - 1], numzeros, length)
                          && prev == SlotOffset(pos, windowsize, slots[|slots| - 1]))
    }

    lemma SearchStart(data: seq<byte>, pos: nat, insize: nat, numzeros: nat, hashpos: nat)
      requires Sized() && windowsize > 0 && pos < insize <= |data|
      requires hashpos == chain[pos % windowsize] && hashpos < windowsize
      ensures Searched(data, pos, insize, numzeros, [], hashpos, 0, 0, 0)
    {
      BestNone(data, pos, insize, windowsize);
      assert [] + [hashpos] == [hashpos];
    }

    /** A slot has been looked at; `current` is its offset and l the length of its match. */
    lemma LookedAt(data: seq<byte>, pos: nat, insize: nat, numzeros: nat, slots: seq<nat>, hashpos: nat, prev: nat,
                   length: nat, offset: nat, current: nat, l: nat, length': nat, offset': nat)
      requires pos < insize <= |data| && windowsize > 0 && hashpos < windowsize && current < windowsize
      requires Searched(data, pos, insize, numzeros, slots, hashpos, prev, length, offset)
      requires current == SlotOffset(pos, windowsize, hashpos)
      requires if current > 0 then LongestRun(data, pos, insize, current, l) else l == 0
      requires length' == (if l > length then l else length) && offset' == if l > length then current else offset
      requires Follow(hashpos, numzeros, length') < windowsize
      ensures Searched(data, pos, insize, numzeros, slots + [hashpos], Follow(hashpos, numzeros, length'), current,
                       length', offset')
    {
      hide Best, LongestRun, SlotOffset, Path;
      BestNext(data, pos, insize, windowsize, slots, length, offset, hashpos, l);
      PathNext(slots, hashpos, Follow(hashpos, numzeros, length'), chain[pos % windowsize], chain[..], chainz[..]);
    }

    lemma SearchedMeans(data: seq<byte>, pos: nat, insize: nat, numzeros: nat, slots: seq<nat>, hashpos: nat, prev: nat,
                        length: nat, offset: nat)
      requires pos < insize <= |data| && windowsize > 0
      requires Searched(data, pos, insize, numzeros, slots, hashpos, prev, length, offset)
      ensures Sized() && Best(data, pos, insize, windowsize, slots, length, offset)
      ensures Path(slots, chain[pos % windowsize], chain[..], chainz[..])
      ensures length <= MAX_LENGTH && pos + length <= insize
      ensures length > 0 ==> offset < windowsize && LongestRun(data, pos, insize, offset, length)
      ensures length > 0 ==> Repeats(data, pos, length, offset)
    {
      hide Path;
      PathInit(slots, hashpos, chain[pos % windowsize], chain[..], chainz[..]);
    }

    /** Compares at one slot; `improved` says that its match is the longest so far. */
    method LookAt(data: seq<byte>, pos: nat, insize: nat, numzeros: nat, ghost slots: seq<nat>, hashpos: nat,
                  ghost prev: nat, current: nat, length: nat, offset: nat)
      returns (improved: bool, length': nat, offset': nat)
      requires Sized() && pos < insize <= |data| && windowsize > 0 && hashpos < windowsize
      requires numzeros <= MAX_LENGTH && ZeroRun(data, pos, numzeros, insize)
      requires Searched(data, pos, insize, numzeros, slots, hashpos, prev, length, offset)
      requires current == SlotOffset(pos, windowsize, hashpos) && current < windowsize && current <= pos
      requires ZeroRun(data, pos - current, zeros[hashpos], |data|)
      requires chain[hashpos] < windowsize && chainz[hashpos] < windowsize
      ensures Searched(data, pos, insize, numzeros, slots + [hashpos], Follow(hashpos, numzeros, length'), current,
                       length', offset')
      ensures improved ==> length' > 0
      ensures !improved ==> length' == length && offset' == offset
    {
      hide ZeroRun, LongestRun, Best, Path, Searched, SlotOffset;
      var l := 0;
      if current > 0 {
        l := MatchAt(hashpos, current, numzeros, data, pos, insize);
      }
      improved, length', offset' := l > length, length, offset;
      if l > length {
        length', offset' := l, current;
      }
      LookedAt(data, pos, insize, numzeros, slots, hashpos, prev, length, offset, current, l, length', offset');
    }

    /** Follows the link from a slot, if it leads on. */
    method NextSlot(hashpos: nat, hashval: nat, numzeros: nat, length: nat, ghost data: seq<byte>, ghost pos: nat)
      returns (more: bool, next: nat)
      requires Valid(data, pos + 1) && windowsize > 0 && Seen(pos + 1, windowsize, hashpos)
      ensures Sized() && hashpos < windowsize && next < windowsize
      ensures more ==> Seen(pos + 1, windowsize, next) && next == Follow(hashpos, numzeros, length)
      ensures !more ==> Ended(hashpos, pos, hashval, numzeros, length)
    {
      hide Valid, LastAt;
      SlotLinks(hashpos, data, pos + 1);
      more := true;
      next := Next(hashpos, data, pos + 1);
      if hashpos == next {
        more := false;
      } else if numzeros >= 3 && length > numzeros {
        next := NextZ(hashpos, data, pos + 1);
        more := zeros[next] == numzeros;
      } else {
        more := val[next] == hashval;
      }
    }

    lemma SlotLinks(hashpos: nat, data: seq<byte>, done: nat)
      requires Valid(data, done) && Seen(done, windowsize, hashpos)
      ensures Sized() && hashpos < windowsize && chain[hashpos] < windowsize && chainz[hashpos] < windowsize
    {
      hide LastAt, HeadsSeen, ZerosOk;
      assert chain[..][hashpos] == chain[hashpos] && chainz[..][hashpos] == chainz[hashpos];
    }

    lemma WrappedAround(data: seq<byte>, pos: nat, insize: nat, hashval: nat, numzeros: nat, slots: seq<nat>,
                        hashpos: nat, prev: nat, length: nat, offset: nat)
      requires pos < insize <= |data| && windowsize > 0 && hashpos < windowsize
      requires Searched(data, pos, insize, numzeros, slots, hashpos, prev, length, offset)
      requires 0 <= SlotOffset(pos, windowsize, hashpos) < prev
      ensures Sized() && slots != [] && Ended(slots[|slots| - 1], pos, hashval, numzeros, length)
    {
      hide Best, Path, SlotOffset;
    }

    /**
     * The search for the longest match. Whatever the slots hold, it returns the
     * first of the longest real matches among those it looks at, `slots`; it
     * follows the links up to the limit, to a match that is long enough or to
     * the end of the chain.
     */
    method Search(data: seq<byte>, pos: nat, insize: nat, hashval: nat, numzeros: nat, nicematch: nat,
                  maxchainlength: nat)
      returns (length: nat, offset: nat, ghost slots: seq<nat>)
      requires Valid(data, pos + 1) && windowsize > 0 && pos < insize <= |data|
      requires numzeros <= MAX_LENGTH && ZeroRun(data, pos, numzeros, insize)
      ensures length <= MAX_LENGTH && pos + length <= insize
      ensures length > 0 ==> offset < windowsize && LongestRun(data, pos, insize, offset, length)
      ensures length > 0 ==> Repeats(data, pos, length, offset)
      ensures Sized() && Best(data, pos, insize, windowsize, slots, length, offset)
      ensures Path(slots, chain[pos % windowsize], chain[..], chainz[..]) && |slots| <= maxchainlength
      ensures |slots| == maxchainlength || (length > 0 && length >= nicematch)
              || (slots != [] && Ended(slots[|slots| - 1], pos, hashval, numzeros, length))
    {
      hide *;
      var wpos := pos % windowsize;
      length, offset, slots := 0, 0, [];
      var hashpos := FirstLink(wpos, data, pos);
      var prev := 0;
      var chainlength := 0;
      ghost var h := hashpos;
      SlotLinks(hashpos, data, pos + 1);
      SearchStart(data, pos, insize, numzeros, hashpos);
      while chainlength < maxchainlength
        invariant Seen(pos + 1, windowsize, hashpos) && |slots| == chainlength <= maxchainlength && h == hashpos
        invariant Searched(data, pos, insize, numzeros, slots, h, prev, length, offset)
      {
        chainlength := chainlength + 1;
        SlotLinks(hashpos, data, pos + 1);
        var current := OffsetOf(hashpos, wpos, data, pos);
        if current < prev {
          WrappedAround(data, pos, insize, hashval, numzeros, slots, hashpos, prev, length, offset);
          break;
        }
        var improved;
        improved, length, offset :=
          LookAt(data, pos, insize, numzeros, slots, hashpos, prev, current, length, offset);
        slots, prev, h := slots + [hashpos], current, Follow(hashpos, numzeros, length);
        if improved && length >= nicematch {
          break;
        }
        var more, next := NextSlot(hashpos, hashval, numzeros, length, data, pos);
        if !more {
          break;
        }
        hashpos := next;
      }
      SearchedMeans(data, pos, insize, numzeros, slots, h, prev, length, offset);
    }

    method FirstLink(wpos: nat, ghost data: seq<byte>, ghost pos: nat) returns (hashpos: nat)
      requires Valid(data, pos + 1) && windowsize > 0 && wpos == pos % windowsize
      ensures Sized() && Seen(pos + 1, windowsize, hashpos) && hashpos == chain[wpos]
    {
      SeenStep(pos + 1, pos, windowsize, 0);
      hashpos := Next(wpos, data, pos + 1);
    }
  }

  /** The longest common run of the bytes at pos and `offset` before it; the first `skip` are known to be zeros. */
  method MatchLength(data: seq<byte>, pos: nat, insize: nat, offset: nat, skip: nat) returns (length: nat)
    requires 0 < offset <= pos < insize <= |data|
    requires skip <= MAX_LENGTH && ZeroRun(data, pos, skip, insize) && ZeroRun(data, pos - offset, skip, |data|)
    ensures LongestRun(data, pos, insize, offset, length)
  {
    var lastptr := if insize < pos + MAX_LENGTH then insize else pos + MAX_LENGTH;
    var foreptr, backptr := pos + skip, pos - offset + skip;
    while foreptr != lastptr && data[backptr] == data[foreptr]
      invariant pos <= foreptr <= lastptr && backptr == foreptr - offset
      invariant forall k :: pos <= k < foreptr ==> data[k] == data[k - offset]
      decreases lastptr - foreptr
    {
      backptr, foreptr := backptr + 1, foreptr + 1;
    }
    length := foreptr - pos;
  }

  /** Linking slot pos % w to the previous head of its list. */
  lemma LinkOk(heads: seq<int>, h: nat, chain: seq<nat>, done: nat, pos: nat, w: nat)
    requires w > 0 && h < |heads| && HeadsSeen(heads, done, w) && ChainSeen(chain, done, w) && Inserting(done, pos)
    ensures |chain| == w && pos % w < w
    ensures heads[h] == -1 || 0 <= heads[h] < w
    ensures heads[h] == -1 ==> ChainSeen(chain, pos + 1, w)
    ensures heads[h] != -1 ==> ChainSeen(chain[pos % w := heads[h]], pos + 1, w)
  {
    if heads[h] == -1 {
      ChainStep(chain, done, pos, w, chain[pos % w]);
      assert chain[pos % w := chain[pos % w]] == chain;
    } else {
      ChainStep(chain, done, pos, w, heads[h]);
    }
  }
}
