/** encodeLZ77: greedy matching with one step of lazy evaluation. */
module LzEncoder {
  import opened Powers
  import opened BitStream
  import opened Lz77
  import opened HashChain

  /** The test (windowsize & (windowsize - 1)) == 0 on a positive number. */
  predicate PowerOfTwo(w: nat) {
    w == 1 || (w > 1 && w % 2 == 0 && PowerOfTwo(w / 2))
  }

  /** The tokens so far are stored in `values` and stand for the input up to position e. */
  ghost predicate Covered(data: seq<byte>, inpos: nat, e: nat, values: seq<nat>, tokens: seq<Token>) {
    && inpos <= e <= |data|
    && AllInRange(tokens) && values == StoredTokens(tokens)
    && TokensOk(data[..inpos], tokens)
    && ExpandTokens(data[..inpos], tokens) == data[..e]
  }

  lemma {:induction false} ExpandGrows(out: seq<byte>, ts: seq<Token>)
    requires TokensOk(out, ts)
    ensures |ExpandTokens(out, ts)| >= |out| + |ts|
    decreases |ts|
  {
    if ts != [] {
      ExpandGrows(ApplyToken(out, ts[0]), ts[1..]);
    }
  }

  /** A token stands for at least one byte. */
  lemma FewTokens(data: seq<byte>, inpos: nat, e: nat, values: seq<nat>, tokens: seq<Token>)
    requires Covered(data, inpos, e, values, tokens)
    ensures |tokens| <= e - inpos
  {
    hide TokensOk, ExpandTokens, StoredTokens;
    ExpandGrows(data[..inpos], tokens);
  }

  lemma CoverLiteral(data: seq<byte>, inpos: nat, e: nat, values: seq<nat>, tokens: seq<Token>)
    requires Covered(data, inpos, e, values, tokens) && e < |data|
    ensures Covered(data, inpos, e + 1, values + [data[e]], tokens + [Literal(data[e])])
  {
    hide TokensOk, ExpandTokens, StoredTokens;
    var t := Literal(data[e]);
    StoredTokensAppend(tokens, t);
    ExpandTokensAppend(data[..inpos], tokens, t);
    assert data[..e] + [data[e]] == data[..e + 1];
  }

  lemma CoverMatch(data: seq<byte>, inpos: nat, e: nat, values: seq<nat>, tokens: seq<Token>, length: nat, offset: nat)
    requires Covered(data, inpos, e, values, tokens)
    requires Repeats(data, e, length, offset) && 3 <= length <= 258 && offset <= 32768
    ensures Covered(data, inpos, e + length, values + StoredToken(Match(length, offset)),
                    tokens + [Match(length, offset)])
  {
    hide TokensOk, ExpandTokens, StoredTokens, StoredToken, CopyMatch;
    var t := Match(length, offset);
    StoredTokensAppend(tokens, t);
    ExpandTokensAppend(data[..inpos], tokens, t);
    CopyRestores(data, e, length, offset);
  }

  // ----- Lazy matching -----

  /** What the encoder is told to look for. */
  datatype Search = Search(minmatch: nat, lazymatching: bool, maxlazymatch: nat)

  /** The longest match found at a position; length 0 if there is none. */
  datatype Found = Found(length: nat, offset: nat)

  /** What was found at the positions where a decision starts, and at the ones after those that wait. */
  datatype Finds = Finds(first: map<nat, Found>, next: map<nat, Found>)

  ghost predicate RunOk(data: seq<byte>, p: nat, insize: nat, windowsize: nat, f: Found)
    requires insize <= |data|
  {
    p < insize && (f.length > 0 ==> LongestRun(data, p, insize, f.offset, f.length) && f.offset < windowsize)
  }

  ghost predicate FoundOk(data: seq<byte>, insize: nat, windowsize: nat, found: Finds)
    requires insize <= |data|
  {
    && (forall p: nat :: p in found.first ==> RunOk(data, p, insize, windowsize, found.first[p]))
    && (forall p: nat :: p in found.next ==> RunOk(data, p + 1, insize, windowsize, found.next[p]))
  }

  /** A match that is worth storing is stored, anything else as a literal. */
  function TokenAt(data: seq<byte>, s: Search, p: nat, f: Found): Token
    requires p < |data|
  {
    if f.length < 3 || f.length < s.minmatch || (f.length == 3 && f.offset > 4096) then Literal(data[p])
    else Match(f.length, f.offset)
  }

  function After(p: nat, t: Token): nat { if t.Match? then p + t.length else p + 1 }

  /** The match at p waits for the one at p + 1. */
  predicate Waits(s: Search, f: Found) { s.lazymatching && 3 <= f.length <= s.maxlazymatch && f.length < 258 }

  /**
   * One decision of the encoder: a match that is not very long gives way to the
   * next position's if that is longer by more than one; then a literal is stored
   * for its first byte.
   */
  ghost predicate Decided(data: seq<byte>, s: Search, found: Finds, p: nat, ts: seq<Token>, p': nat) {
    && p < |data| && p in found.first
    && var f := found.first[p];
       if Waits(s, f) then
         && p + 1 < |data| && p in found.next
         && if found.next[p].length > f.length + 1 then
              ts == [Literal(data[p]), TokenAt(data, s, p + 1, found.next[p])] && p' == After(p + 1, ts[1])
            else ts == [TokenAt(data, s, p, f)] && p' == After(p, ts[0])
       else ts == [TokenAt(data, s, p, f)] && p' == After(p, ts[0])
  }

  /** The tokens for the input from inpos to e are those of decisions, one after the other. */
  ghost predicate Chosen(data: seq<byte>, s: Search, found: Finds, inpos: nat, e: nat, ts: seq<Token>)
    decreases e
  {
    if ts == [] then e == inpos
    else
      exists p: nat, k: nat :: p < e && k < |ts| && Decided(data, s, found, p, ts[k..], e)
                               && Chosen(data, s, found, inpos, p, ts[..k])
  }

  lemma ChosenNext(data: seq<byte>, s: Search, found: Finds, inpos: nat, p: nat, ts: seq<Token>, ts': seq<Token>,
                   e: nat)
    requires Chosen(data, s, found, inpos, p, ts) && ts' != [] && p < e && Decided(data, s, found, p, ts', e)
    ensures Chosen(data, s, found, inpos, e, ts + ts')
  {
    hide Decided;
    var all, k := ts + ts', |ts|;
    assert all[k..] == ts' && all[..k] == ts;
  }

  /** More is found at positions from e on. */
  ghost predicate MoreFound(found: Finds, found': Finds, e: nat) {
    && (forall p: nat :: p < e && p in found.first ==> p in found'.first && found'.first[p] == found.first[p])
    && (forall p: nat :: p < e && p in found.next ==> p in found'.next && found'.next[p] == found.next[p])
  }

  /** That does not change what was decided. */
  lemma {:induction false} ChosenKept(data: seq<byte>, s: Search, found: Finds, found': Finds, inpos: nat, e: nat,
                                      ts: seq<Token>)
    requires Chosen(data, s, found, inpos, e, ts) && MoreFound(found, found', e)
    ensures Chosen(data, s, found', inpos, e, ts)
    decreases e
  {
    if ts != [] {
      var p: nat, k: nat :| p < e && k < |ts| && Decided(data, s, found, p, ts[k..], e)
                            && Chosen(data, s, found, inpos, p, ts[..k]);
      ChosenKept(data, s, found, found', inpos, p, ts[..k]);
      assert Decided(data, s, found', p, ts[k..], e);
    }
  }

  /** Hashes position pos and enters it into the chains. */
  method Visit(hash: Hash, data: seq<byte>, pos: nat, insize: nat, numzeros: nat, ghost done: nat)
    returns (hashval: nat, nz: nat)
    requires hash.Valid(data, done) && hash.windowsize > 0 && Inserting(done, pos)
    requires pos < insize <= |data| && numzeros <= MAX_LENGTH && NearZeros(data, pos, numzeros, insize)
    modifies hash.head, hash.chain, hash.val, hash.headz, hash.chainz, hash.zeros
    ensures hash.Valid(data, pos + 1)
    ensures hashval < HASH_NUM_VALUES && nz <= MAX_LENGTH && ZeroRun(data, pos, nz, insize)
  {
    var wpos := pos % hash.windowsize;
    hashval := GetHash(data, insize, pos);
    nz := UpdateZeros(data, insize, pos, hashval, numzeros);
    hash.Insert(wpos, hashval, nz, data, done, pos);
  }

  /** Enters the rest of a match into the chains. */
  method SkipMatch(hash: Hash, data: seq<byte>, pos: nat, insize: nat, length: nat, numzeros: nat, ghost done: nat)
    returns (nz: nat)
    requires hash.Valid(data, done) && hash.windowsize > 0 && Inserting(done, pos + 1)
    requires pos + length <= insize <= |data| && length >= 2
    requires numzeros <= MAX_LENGTH && NearZeros(data, pos + 1, numzeros, insize)
    modifies hash.head, hash.chain, hash.val, hash.headz, hash.chainz, hash.zeros
    ensures hash.Valid(data, pos + length)
    ensures nz <= MAX_LENGTH && ZeroRun(data, pos + length - 1, nz, insize)
  {
    nz := numzeros;
    ghost var d: nat := done;
    for i: nat := 1 to length
      invariant hash.Valid(data, d) && Inserting(d, pos + i)
      invariant nz <= MAX_LENGTH && NearZeros(data, pos + i, nz, insize)
      invariant i > 1 ==> d == pos + i && ZeroRun(data, pos + i - 1, nz, insize)
    {
      var hashval;
      hashval, nz := Visit(hash, data, pos + i, insize, nz, d);
      d := pos + i + 1;
    }
  }

  /** A pending lazy match starts one byte back. */
  ghost predicate Pending(data: seq<byte>, pos: nat, insize: nat, length: nat, offset: nat, windowsize: nat) {
    && pos >= 1 && 3 <= length <= MAX_LENGTH && pos - 1 + length <= insize
    && offset < windowsize && Repeats(data, pos - 1, length, offset)
  }

  /** Emits the literal or the match chosen at pos; returns the number of bytes it stands for, less one. */
  method Emit(hash: Hash, data: seq<byte>, inpos: nat, pos: nat, insize: nat, length: nat, offset: nat, minmatch: nat,
              numzeros: nat, values: seq<nat>, ghost tokens: seq<Token>, ghost done: nat)
    returns (advance: nat, nz: nat, values': seq<nat>, ghost tokens': seq<Token>, ghost done': nat)
    requires hash.Valid(data, done) && 0 < hash.windowsize <= 32768 && Inserting(done, pos + 1) && done <= insize
    requires pos < insize <= |data| && pos + length <= insize && length <= MAX_LENGTH
    requires length >= 3 ==> offset <= hash.windowsize && Repeats(data, pos, length, offset)
    requires numzeros <= MAX_LENGTH && NearZeros(data, pos + 1, numzeros, insize)
    requires Covered(data, inpos, pos, values, tokens)
    modifies hash.head, hash.chain, hash.val, hash.headz, hash.chainz, hash.zeros
    ensures pos + advance < insize
    ensures Covered(data, inpos, pos + advance + 1, values', tokens')
    ensures hash.Valid(data, done') && Inserting(done', pos + advance + 1) && done' <= insize
    ensures nz <= MAX_LENGTH && NearZeros(data, pos + advance + 1, nz, insize)
    ensures tokens' == tokens + [if length < 3 || length < minmatch || (length == 3 && offset > 4096)
                                   then Literal(data[pos]) else Match(length, offset)]
    ensures pos + advance + 1 == After(pos, tokens'[|tokens|])
  {
    hide Covered, Repeats, ZeroRun, Hash.Valid, StoredToken;
    advance, nz, done' := 0, numzeros, done;
    if length < 3 || length < minmatch || (length == 3 && offset > 4096) {
      CoverLiteral(data, inpos, pos, values, tokens);
      values', tokens' := values + [data[pos]], tokens + [Literal(data[pos])];
    } else {
      MatchInRange(data, pos, length, offset);
      CoverMatch(data, inpos, pos, values, tokens, length, offset);
      values' := AddLengthDistance(values, length, offset);
      tokens' := tokens + [Match(length, offset)];
      nz := SkipMatch(hash, data, pos, insize, length, numzeros, done);
      advance, done' := length - 1, pos + length;
    }
  }

  lemma MatchInRange(data: seq<byte>, pos: nat, length: nat, offset: nat)
    requires Repeats(data, pos, length, offset)
    ensures offset >= 1
  {
  }

  /** encodeLZ77: the tokens expand to exactly the input, whatever the hash chains hold. `found` is what was found. */
  method EncodeLZ77(hash: Hash, data: seq<byte>, inpos: nat, insize: nat, windowsize: nat,
                    minmatch: nat, nicematch: nat, lazymatching: bool)
    returns (error: nat, values: seq<nat>, ghost tokens: seq<Token>, ghost found: Finds)
    requires inpos <= insize <= |data|
    requires hash.Valid(data, inpos) && hash.windowsize == windowsize
    modifies hash.head, hash.chain, hash.val, hash.headz, hash.chainz, hash.zeros
    ensures error == if windowsize == 0 || windowsize > 32768 then 60 else if !PowerOfTwo(windowsize) then 90 else 0
    ensures error == 0 ==> Covered(data, inpos, insize, values, tokens) && hash.Valid(data, insize)
    ensures error == 0 ==>
              && FoundOk(data, insize, windowsize, found)
              && Chosen(data, Search(minmatch, lazymatching, if windowsize >= 8192 then 258 else 64), found, inpos,
                        insize, tokens)
  {
    error, values, tokens, found := 0, [], [], Finds(map[], map[]);
    if windowsize == 0 || windowsize > 32768 {
      return 60, values, tokens, found;
    }
    if !PowerOfTwo(windowsize) {
      return 90, values, tokens, found;
    }
    var nice := if nicematch > MAX_LENGTH then MAX_LENGTH else nicematch;
    var maxchainlength := if windowsize >= 8192 then windowsize else windowsize / 8;
    var maxlazymatch := if windowsize >= 8192 then MAX_LENGTH else 64;
    CoverNothing(data, inpos);
    values, tokens, found :=
      EncodeLoop(hash, data, inpos, insize, minmatch, nice, lazymatching, maxchainlength, maxlazymatch);
  }

  lemma CoverNothing(data: seq<byte>, inpos: nat)
    requires inpos <= |data|
    ensures Covered(data, inpos, inpos, [], [])
  {
  }

  /** What the search at pos adds: the match of a decision, or of the position after one that waits. */
  function Noted(found: Finds, start: nat, lazy: bool, f: Found): Finds {
    if lazy then found.(next := found.next[start := f]) else found.(first := found.first[start := f])
  }

  lemma NotedOk(data: seq<byte>, s: Search, found: Finds, inpos: nat, start: nat, ts: seq<Token>, lazy: bool,
                insize: nat, windowsize: nat, f: Found)
    requires insize <= |data| && Chosen(data, s, found, inpos, start, ts) && FoundOk(data, insize, windowsize, found)
    requires RunOk(data, if lazy then start + 1 else start, insize, windowsize, f)
    ensures Chosen(data, s, Noted(found, start, lazy, f), inpos, start, ts)
    ensures FoundOk(data, insize, windowsize, Noted(found, start, lazy, f))
  {
    hide Chosen, RunOk;
    ChosenKept(data, s, found, Noted(found, start, lazy, f), inpos, start, ts);
  }

  lemma NothingFound(data: seq<byte>, s: Search, inpos: nat, insize: nat, windowsize: nat)
    requires insize <= |data|
    ensures Chosen(data, s, Finds(map[], map[]), inpos, inpos, [])
    ensures FoundOk(data, insize, windowsize, Finds(map[], map[]))
  {
  }

  /** A decision has been made: its last token is t, stored for the match f at `at`. */
  lemma OneDecided(data: seq<byte>, s: Search, found: Finds, inpos: nat, start: nat, ts: seq<Token>, f: Found, t: Token,
                   next: nat)
    requires Chosen(data, s, found, inpos, start, ts) && start < |data| && start in found.first
    requires f == found.first[start] && t == TokenAt(data, s, start, f) && next == After(start, t)
    requires Waits(s, f) ==>
               start + 1 < |data| && start in found.next && found.next[start].length <= f.length + 1
    ensures Chosen(data, s, found, inpos, next, ts + [t])
  {
    hide Chosen;
    ChosenNext(data, s, found, inpos, start, ts, [t], next);
  }

  lemma TwoDecided(data: seq<byte>, s: Search, found: Finds, inpos: nat, start: nat, ts: seq<Token>, t: Token,
                   next: nat)
    requires Chosen(data, s, found, inpos, start, ts) && start + 1 < |data| && start in found.first
    requires Waits(s, found.first[start]) && start in found.next
    requires found.next[start].length > found.first[start].length + 1
    requires t == TokenAt(data, s, start + 1, found.next[start]) && next == After(start + 1, t)
    ensures Chosen(data, s, found, inpos, next, (ts + [Literal(data[start])]) + [t])
  {
    hide Chosen;
    var two := [Literal(data[start]), t];
    ChosenNext(data, s, found, inpos, start, ts, two, next);
    assert (ts + [Literal(data[start])]) + [t] == ts + two;
  }

  /** The state of the loop: what is stored covers the input up to the pending match, if there is one, or to pos. */
  ghost predicate Encoding(data: seq<byte>, s: Search, found: Finds, inpos: nat, pos: nat, insize: nat, windowsize: nat,
                           lazy: bool, f: Found, values: seq<nat>, tokens: seq<Token>)
    requires insize <= |data|
  {
    && (lazy ==> Pending(data, pos, insize, f.length, f.offset, windowsize)
                 && pos - 1 in found.first && found.first[pos - 1] == f && Waits(s, f))
    && inpos <= (if lazy then pos - 1 else pos)
    && Covered(data, inpos, if lazy then pos - 1 else pos, values, tokens)
    && Chosen(data, s, found, inpos, if lazy then pos - 1 else pos, tokens)
    && FoundOk(data, insize, windowsize, found)
  }

  /** The match that was found at pos is noted; with a pending one, it is for the position after its start. */
  ghost predicate Ready(data: seq<byte>, s: Search, found: Finds, inpos: nat, pos: nat, insize: nat, windowsize: nat,
                        lazy: bool, f: Found, g: Found, values: seq<nat>, tokens: seq<Token>)
    requires insize <= |data|
  {
    && Encoding(data, s, found, inpos, pos, insize, windowsize, lazy, f, values, tokens)
    && RunOk(data, pos, insize, windowsize, g)
    && (lazy ==> pos - 1 in found.next && found.next[pos - 1] == g)
    && (!lazy ==> pos in found.first && found.first[pos] == g)
  }

  lemma NowReady(data: seq<byte>, s: Search, found: Finds, inpos: nat, pos: nat, insize: nat, windowsize: nat,
                 lazy: bool, f: Found, g: Found, values: seq<nat>, tokens: seq<Token>)
    requires insize <= |data| && RunOk(data, pos, insize, windowsize, g)
    requires Encoding(data, s, found, inpos, pos, insize, windowsize, lazy, f, values, tokens)
    ensures Ready(data, s, Noted(found, if lazy then pos - 1 else pos, lazy, g), inpos, pos, insize, windowsize, lazy,
                  f,
                  g, values, tokens)
  {
    hide Chosen, Covered, FoundOk, RunOk, Repeats, Waits;
    NotedOk(data, s, found, inpos, if lazy then pos - 1 else pos, tokens, lazy, insize, windowsize, g);
  }

  /** The match waits. */
  lemma NowPending(data: seq<byte>, s: Search, found: Finds, inpos: nat, pos: nat, insize: nat, windowsize: nat,
                   f: Found, g: Found, values: seq<nat>, tokens: seq<Token>)
    requires insize <= |data| && Ready(data, s, found, inpos, pos, insize, windowsize, false, f, g, values, tokens)
    requires Waits(s, g)
    ensures Encoding(data, s, found, inpos, pos + 1, insize, windowsize, true, g, values, tokens)
  {
    hide Chosen, Covered, FoundOk;
  }

  /** Settles for a token at pos or at the start of the pending match. */
  method Settle(hash: Hash, data: seq<byte>, inpos: nat, pos: nat, insize: nat, minmatch: nat, lazy: bool,
                lazylength: nat, lazyoffset: nat, length: nat, offset: nat, hashval: nat, numzeros: nat,
                values: seq<nat>, ghost s: Search, ghost found: Finds, ghost tokens: seq<Token>)
    returns (pos': nat, nz: nat, values': seq<nat>, ghost tokens': seq<Token>, ghost done': nat)
    requires hash.Valid(data, pos + 1) && 0 < hash.windowsize <= 32768 && pos < insize <= |data|
    requires s.minmatch == minmatch
    requires hashval < HASH_NUM_VALUES && numzeros <= MAX_LENGTH && ZeroRun(data, pos, numzeros, insize)
    requires Ready(data, s, found, inpos, pos, insize, hash.windowsize, lazy, Found(lazylength, lazyoffset),
                   Found(length, offset), values, tokens)
    requires !lazy ==> !Waits(s, Found(length, offset))
    modifies hash.head, hash.chain, hash.val, hash.headz, hash.chainz, hash.zeros
    ensures inpos <= pos' <= insize && pos' > (if lazy then pos - 1 else pos)
    ensures hash.Valid(data, done') && Inserting(done', pos') && done' <= insize
    ensures nz <= MAX_LENGTH && NearZeros(data, pos', nz, insize)
    ensures Encoding(data, s, found, inpos, pos', insize, hash.windowsize, false, Found(0, 0), values', tokens')
  {
    hide Covered, Repeats, ZeroRun, Hash.Valid, Chosen, FoundOk, TokenAt, After, Waits, LongestRun;
    var advance;
    RunRepeats(data, pos, insize, hash.windowsize, Found(length, offset));
    if lazy && length > lazylength + 1 {
      CoverLiteral(data, inpos, pos - 1, values, tokens);
      advance, nz, values', tokens', done' :=
        Emit(hash, data, inpos, pos, insize, length, offset, minmatch, numzeros, values + [data[pos - 1]],
             tokens + [Literal(data[pos - 1])], pos + 1);
      pos' := pos + advance + 1;
      TokenIs(data, s, pos, Found(length, offset), tokens'[|tokens| + 1]);
      TwoDecided(data, s, found, inpos, pos - 1, tokens, tokens'[|tokens| + 1], pos');
    } else if lazy {
      hash.Forget(hashval, numzeros, data, pos + 1);
      advance, nz, values', tokens', done' :=
        Emit(hash, data, inpos, pos - 1, insize, lazylength, lazyoffset, minmatch, numzeros, values, tokens, pos + 1);
      pos' := pos + advance;
      TokenIs(data, s, pos - 1, Found(lazylength, lazyoffset), tokens'[|tokens|]);
      OneDecided(data, s, found, inpos, pos - 1, tokens, Found(lazylength, lazyoffset), tokens'[|tokens|], pos');
    } else {
      advance, nz, values', tokens', done' :=
        Emit(hash, data, inpos, pos, insize, length, offset, minmatch, numzeros, values, tokens, pos + 1);
      pos' := pos + advance + 1;
      TokenIs(data, s, pos, Found(length, offset), tokens'[|tokens|]);
      OneDecided(data, s, found, inpos, pos, tokens, Found(length, offset), tokens'[|tokens|], pos');
    }
  }

  lemma RunRepeats(data: seq<byte>, p: nat, insize: nat, windowsize: nat, f: Found)
    requires insize <= |data| && RunOk(data, p, insize, windowsize, f)
    ensures f.length > 0 ==> Repeats(data, p, f.length, f.offset) && f.offset < windowsize
    ensures f.length <= MAX_LENGTH && p + f.length <= insize
  {
    hide Repeats;
  }

  method EncodeLoop(hash: Hash, data: seq<byte>, inpos: nat, insize: nat,
                    minmatch: nat, nicematch: nat, lazymatching: bool, maxchainlength: nat, maxlazymatch: nat)
    returns (values: seq<nat>, ghost tokens: seq<Token>, ghost found: Finds)
    requires inpos <= insize <= |data|
    requires hash.Valid(data, inpos) && 0 < hash.windowsize <= 32768
    requires Covered(data, inpos, inpos, [], [])
    modifies hash.head, hash.chain, hash.val, hash.headz, hash.chainz, hash.zeros
    ensures Covered(data, inpos, insize, values, tokens) && hash.Valid(data, insize)
    ensures FoundOk(data, insize, hash.windowsize, found)
    ensures Chosen(data, Search(minmatch, lazymatching, maxlazymatch), found, inpos, insize, tokens)
  {
    hide *;
    ghost var s := Search(minmatch, lazymatching, maxlazymatch);
    values, tokens, found := [], [], Finds(map[], map[]);
    var pos: nat, numzeros: nat := inpos, 0;
    var lazy, lazylength: nat, lazyoffset: nat := false, 0, 0;
    ghost var done: nat := inpos;
    LoopStart(data, s, inpos, insize, hash.windowsize);
    while pos < insize
      invariant inpos <= pos <= insize
      invariant hash.Valid(data, done) && Inserting(done, pos) && done <= insize
      invariant numzeros <= MAX_LENGTH && NearZeros(data, pos, numzeros, insize)
      invariant Encoding(data, s, found, inpos, pos, insize, hash.windowsize, lazy, Found(lazylength, lazyoffset),
                         values,
                         tokens)
      decreases 2 * (insize - pos) + (if lazy then 1 else 0)
    {
      var hashval;
      hashval, numzeros := Visit(hash, data, pos, insize, numzeros, done);
      done := pos + 1;
      var length, offset, _ := hash.Search(data, pos, insize, hashval, numzeros, nicematch, maxchainlength);
      SearchRun(data, pos, insize, hash.windowsize, length, offset);
      NowReady(data, s, found, inpos, pos, insize, hash.windowsize, lazy, Found(lazylength, lazyoffset),
               Found(length, offset), values, tokens);
      found := Noted(found, if lazy then pos - 1 else pos, lazy, Found(length, offset));
      if !lazy && lazymatching && length >= 3 && length <= maxlazymatch && length < MAX_LENGTH {
        WaitsIs(s, Found(length, offset));
        NowPending(data, s, found, inpos, pos, insize, hash.windowsize, Found(lazylength, lazyoffset),
                   Found(length, offset), values, tokens);
        lazy, lazylength, lazyoffset := true, length, offset;
        NextPosition(data, pos, insize, numzeros, done);
        pos := pos + 1;
      } else {
        WaitsIs(s, Found(length, offset));
        pos, numzeros, values, tokens, done :=
          Settle(hash, data, inpos, pos, insize, minmatch, lazy, lazylength, lazyoffset, length, offset, hashval,
                 numzeros,
                 values, s, found, tokens);
        lazy, lazylength, lazyoffset := false, 0, 0;
      }
    }
    LoopEnd(data, s, found, inpos, pos, insize, hash.windowsize, lazy, Found(lazylength, lazyoffset), values, tokens,
            done);
  }

  lemma LoopStart(data: seq<byte>, s: Search, inpos: nat, insize: nat, windowsize: nat)
    requires inpos <= insize <= |data| && Covered(data, inpos, inpos, [], [])
    ensures Encoding(data, s, Finds(map[], map[]), inpos, inpos, insize, windowsize, false, Found(0, 0), [], [])
    ensures Inserting(inpos, inpos) && NearZeros(data, inpos, 0, insize)
  {
    hide Covered;
    NothingFound(data, s, inpos, insize, windowsize);
  }

  lemma LoopEnd(data: seq<byte>, s: Search, found: Finds, inpos: nat, pos: nat, insize: nat, windowsize: nat,
                lazy: bool,
                f: Found, values: seq<nat>, tokens: seq<Token>, done: nat)
    requires insize <= |data| && pos == insize && Inserting(done, pos) && done <= insize
    requires Encoding(data, s, found, inpos, pos, insize, windowsize, lazy, f, values, tokens)
    ensures !lazy && done == insize && Covered(data, inpos, insize, values, tokens)
    ensures FoundOk(data, insize, windowsize, found)
    ensures Chosen(data, s, found, inpos, insize, tokens)
  {
    hide Covered, FoundOk, Chosen;
  }

  lemma SearchRun(data: seq<byte>, pos: nat, insize: nat, windowsize: nat, length: nat, offset: nat)
    requires pos < insize <= |data|
    requires length > 0 ==> LongestRun(data, pos, insize, offset, length) && offset < windowsize
    ensures RunOk(data, pos, insize, windowsize, Found(length, offset))
  {
    hide LongestRun;
  }

  lemma WaitsIs(s: Search, f: Found)
    ensures Waits(s, f) <==> s.lazymatching && 3 <= f.length <= s.maxlazymatch && f.length < MAX_LENGTH
  {
  }

  lemma NextPosition(data: seq<byte>, pos: nat, insize: nat, numzeros: nat, done: nat)
    requires ZeroRun(data, pos, numzeros, insize) && done == pos + 1
    ensures NearZeros(data, pos + 1, numzeros, insize) && Inserting(done, pos + 1)
  {
  }

  lemma TokenIs(data: seq<byte>, s: Search, p: nat, f: Found, t: Token)
    requires p < |data|
    requires t == if f.length < 3 || f.length < s.minmatch || (f.length == 3 && f.offset > 4096)
               then Literal(data[p]) else Match(f.length, f.offset)
    ensures t == TokenAt(data, s, p, f) && After(p, t) > p
  {
  }
}
