/** SHA-256 (FIPS 180-4), HMAC over it (RFC 2104) and one block of PBKDF2 over that (RFC 8018), as streaming
    code against the standards' definitions. */
module Hashing {

  type Byte = bv8
  /** A 32-bit word: a number for its sums, bits for the rest. */
  type Word = w: nat | w < 0x1_0000_0000

  // ---- FIPS 180-4 ----

  function Constants(): (k: seq<bv32>)
    ensures |k| == 64
  {
    [ 0x428a2f98, 0x71374491, 0xb5c0fbcf, 0xe9b5dba5, 0x3956c25b, 0x59f111f1, 0x923f82a4, 0xab1c5ed5,
      0xd807aa98, 0x12835b01, 0x243185be, 0x550c7dc3, 0x72be5d74, 0x80deb1fe, 0x9bdc06a7, 0xc19bf174,
      0xe49b69c1, 0xefbe4786, 0x0fc19dc6, 0x240ca1cc, 0x2de92c6f, 0x4a7484aa, 0x5cb0a9dc, 0x76f988da,
      0x983e5152, 0xa831c66d, 0xb00327c8, 0xbf597fc7, 0xc6e00bf3, 0xd5a79147, 0x06ca6351, 0x14292967,
      0x27b70a85, 0x2e1b2138, 0x4d2c6dfc, 0x53380d13, 0x650a7354, 0x766a0abb, 0x81c2c92e, 0x92722c85,
      0xa2bfe8a1, 0xa81a664b, 0xc24b8b70, 0xc76c51a3, 0xd192e819, 0xd6990624, 0xf40e3585, 0x106aa070,
      0x19a4c116, 0x1e376c08, 0x2748774c, 0x34b0bcb5, 0x391c0cb3, 0x4ed8aa4a, 0x5b9cca4f, 0x682e6ff3,
      0x748f82ee, 0x78a5636f, 0x84c87814, 0x8cc70208, 0x90befffa, 0xa4506ceb, 0xbef9a3f7, 0xc67178f2 ]
  }

  datatype State = State(a: Word, b: Word, c: Word, d: Word, e: Word, f: Word, g: Word, h: Word)

  const INITIAL := State(0x6a09e667, 0xbb67ae85, 0x3c6ef372, 0xa54ff53a, 0x510e527f, 0x9b05688c, 0x1f83d9ab, 0x5be0cd19)

  /** Addition modulo 2^32. */
  function Add(x: Word, y: Word): Word {
    (x + y) % 0x1_0000_0000
  }

  function Ch(x: Word, y: Word, z: Word): Word {
    var u, v, w := x as bv32, y as bv32, z as bv32;
    ((u & v) ^ (!u & w)) as int
  }

  function Maj(x: Word, y: Word, z: Word): Word {
    var u, v, w := x as bv32, y as bv32, z as bv32;
    ((u & v) ^ (u & w) ^ (v & w)) as int
  }

  function BigSigma0(x: Word): Word {
    var u := x as bv32;
    (u.RotateRight(2) ^ u.RotateRight(13) ^ u.RotateRight(22)) as int
  }

  function BigSigma1(x: Word): Word {
    var u := x as bv32;
    (u.RotateRight(6) ^ u.RotateRight(11) ^ u.RotateRight(25)) as int
  }

  function SmallSigma0(x: Word): Word {
    var u := x as bv32;
    (u.RotateRight(7) ^ u.RotateRight(18) ^ (u >> 3)) as int
  }

  function SmallSigma1(x: Word): Word {
    var u := x as bv32;
    (u.RotateRight(17) ^ u.RotateRight(19) ^ (u >> 10)) as int
  }

  function FromBe(b: seq<Byte>): Word
    requires |b| == 4
  {
    (b[0] as int) * 0x100_0000 + (b[1] as int) * 0x1_0000 + (b[2] as int) * 0x100 + b[3] as int
  }

  function ToBe(w: Word): (b: seq<Byte>)
    ensures |b| == 4
  {
    [(w / 0x100_0000) as Byte, (w / 0x1_0000 % 0x100) as Byte, (w / 0x100 % 0x100) as Byte, (w % 0x100) as Byte]
  }

  /** The message schedule: section 6.2.2, step 1. */
  function W(block: seq<Byte>, t: nat): Word
    requires |block| == 64 && t < 64
  {
    if t < 16 then FromBe(block[4 * t..4 * t + 4])
    else Scheduled(W(block, t - 2), W(block, t - 7), W(block, t - 15), W(block, t - 16))
  }

  function Scheduled(w2: Word, w7: Word, w15: Word, w16: Word): Word {
    Add(Add(Add(SmallSigma1(w2), w7), SmallSigma0(w15)), w16)
  }

  /** The working variables after `t` rounds: steps 2 and 3. */
  function Rounds(h: State, block: seq<Byte>, t: nat): State
    requires |block| == 64 && t <= 64
  {
    if t == 0 then h else Round(Rounds(h, block, t - 1), Constants()[t - 1] as int, W(block, t - 1))
  }

  function Round(v: State, k: Word, w: Word): State {
    var t1 := Add(Add(Add(Add(v.h, BigSigma1(v.e)), Ch(v.e, v.f, v.g)), k), w);
    var t2 := Add(BigSigma0(v.a), Maj(v.a, v.b, v.c));
    State(Add(t1, t2), v.a, v.b, v.c, Add(v.d, t1), v.e, v.f, v.g)
  }

  function Plus(x: State, y: State): State {
    State(Add(x.a, y.a), Add(x.b, y.b), Add(x.c, y.c), Add(x.d, y.d),
          Add(x.e, y.e), Add(x.f, y.f), Add(x.g, y.g), Add(x.h, y.h))
  }

  /** One block: step 4. */
  function Compressed(h: State, block: seq<Byte>): State
    requires |block| == 64
  {
    Plus(h, Rounds(h, block, |block|))
  }

  /** The hash value after the whole blocks of some bytes. */
  function Folded(h: State, bytes: seq<Byte>): State
    decreases |bytes|
  {
    if |bytes| < 64 then h else Folded(Compressed(h, bytes[..64]), bytes[64..])
  }

  function Zeros(n: nat): seq<Byte> {
    seq(n, _ => 0)
  }

  function ToBe64(n: nat): (b: seq<Byte>)
    requires n < 0x1_0000_0000_0000_0000
    ensures |b| == 8
  {
    seq(8, i requires 0 <= i < 8 => BeByte(n, i))
  }

  function BeByte(n: nat, i: nat): Byte
    requires n < 0x1_0000_0000_0000_0000 && i < 8
  {
    (n / Power256(7 - i) % 256) as Byte
  }

  function Power256(k: nat): (p: nat)
    ensures p > 0
  {
    if k == 0 then 1 else 256 * Power256(k - 1)
  }

  const LIMIT: nat := 0x2000_0000_0000_0000

  /** How many zero bytes the padding has: the least number that leaves room for the length in a whole block. */
  function ZeroCount(n: nat): nat {
    (119 - n % 64) % 64
  }

  /** Section 5.1.1. */
  function Padded(m: seq<Byte>): (p: seq<Byte>)
    requires |m| < LIMIT
    ensures |p| % 64 == 0
  {
    m + [0x80] + Zeros(ZeroCount(|m|)) + ToBe64(8 * |m|)
  }

  lemma ZeroCountLeast(n: nat, k: nat)
    ensures (n + 1 + ZeroCount(n)) % 64 == 56
    ensures k < ZeroCount(n) ==> (n + 1 + k) % 64 != 56
  {
  }

  function Bytes(h: State): (b: seq<Byte>)
    ensures |b| == 32
  {
    ToBe(h.a) + ToBe(h.b) + ToBe(h.c) + ToBe(h.d) + ToBe(h.e) + ToBe(h.f) + ToBe(h.g) + ToBe(h.h)
  }

  function Sha(m: seq<Byte>): (d: seq<Byte>)
    requires |m| < LIMIT
    ensures |d| == 32
  {
    Bytes(Folded(INITIAL, Padded(m)))
  }

  // ---- the code ----

  lemma {:induction false} FoldedMore(h: State, bytes: seq<Byte>, block: seq<Byte>)
    requires |bytes| % 64 == 0 && |block| == 64
    ensures Folded(h, bytes + block) == Compressed(Folded(h, bytes), block)
    decreases |bytes|
  {
    hide Compressed;
    if bytes == [] {
      assert bytes + block == block && block[..64] == block && block[64..] == [];
    } else {
      assert (bytes + block)[..64] == bytes[..64] && (bytes + block)[64..] == bytes[64..] + block;
      FoldedMore(Compressed(h, bytes[..64]), bytes[64..], block);
    }
  }

  method Schedule(block: seq<Byte>) returns (w: seq<Word>)
    requires |block| == 64
    ensures |w| == 64 && forall j :: 0 <= j < 64 ==> w[j] == W(block, j)
  {
    hide Scheduled, FromBe;
    w := [];
    for i := 0 to 16
      invariant |w| == i && forall j :: 0 <= j < i ==> w[j] == W(block, j)
    {
      w := w + [FromBe(block[4 * i..4 * i + 4])];
    }
    for i := 16 to 64
      invariant |w| == i && forall j :: 0 <= j < i ==> w[j] == W(block, j)
    {
      var next := ScheduleWord(w[i - 2], w[i - 7], w[i - 15], w[i - 16]);
      w := w + [next];
    }
  }

  method ScheduleWord(w2: Word, w7: Word, w15: Word, w16: Word) returns (r: Word)
    ensures r == Scheduled(w2, w7, w15, w16)
  {
    hide SmallSigma0, SmallSigma1, Add;
    var s0, s1 := SmallSigma0(w15), SmallSigma1(w2);
    r := Add(Add(Add(w16, s0), w7), s1);
    Reordered(w16, s0, w7, s1);
  }

  lemma AddAssoc(x: Word, y: Word, z: Word)
    ensures Add(Add(x, y), z) == Add(x, Add(y, z)) == (x + y + z) % 0x1_0000_0000
  {
    assert (x + y) % 0x1_0000_0000 == x + y || (x + y) % 0x1_0000_0000 == x + y - 0x1_0000_0000;
    assert (y + z) % 0x1_0000_0000 == y + z || (y + z) % 0x1_0000_0000 == y + z - 0x1_0000_0000;
  }

  /** The code adds the schedule's four terms in the other order. */
  lemma Reordered(p: Word, q: Word, r: Word, s: Word)
    ensures Add(Add(Add(p, q), r), s) == Add(Add(Add(s, r), q), p)
  {
    AddAssoc(p, q, r);
    AddAssoc(s, r, Add(q, p));
    AddAssoc(Add(s, r), q, p);
    AddAssoc(q, p, r);
    assert forall x: Word, y: Word :: Add(x, y) == Add(y, x);
    hide Add;
  }

  method RunRounds(h: State, block: seq<Byte>, w: seq<Word>, n: nat) returns (v: State)
    requires |block| == 64 && n <= 64 && |w| == 64 && forall j :: 0 <= j < 64 ==> w[j] == W(block, j)
    ensures v == Rounds(h, block, n)
  {
    hide W, Round, Constants;
    v := h;
    for i := 0 to n
      invariant v == Rounds(h, block, i)
    {
      v := OneRound(v, Constants()[i] as int, w[i]);
    }
  }

  method OneRound(v: State, k: Word, w: Word) returns (r: State)
    ensures r == Round(v, k, w)
  {
    hide Add, BigSigma0, BigSigma1, Ch, Maj;
    var State(a, b, c, d, e, f, g, h) := v;
    var t1 := Add(Add(Add(Add(h, BigSigma1(e)), Ch(e, f, g)), k), w);
    var t2 := Add(BigSigma0(a), Maj(a, b, c));
    h := g;
    g := f;
    f := e;
    e := Add(d, t1);
    d := c;
    c := b;
    b := a;
    a := Add(t1, t2);
    r := State(a, b, c, d, e, f, g, h);
  }

  method Compress(h: State, block: seq<Byte>) returns (r: State)
    requires |block| == 64
    ensures r == Compressed(h, block)
  {
    hide W, Rounds;
    var w := Schedule(block);
    var v := RunRounds(h, block, w, |block|);
    r := Plus(h, v);
  }

  /** The state is the hash value over the whole blocks of `fed`, and the block holds the rest. */
  ghost predicate Streamed(state: State, block: seq<Byte>, filled: nat, fed: seq<Byte>) {
    && |block| == 64 && filled < 64 && filled <= |fed| && (|fed| - filled) % 64 == 0
    && state == Folded(INITIAL, fed[..|fed| - filled])
    && block[..filled] == fed[|fed| - filled..]
  }

  lemma StreamedFilled(state: State, block: seq<Byte>, filled: nat, fed: seq<Byte>)
    requires Streamed(state, block, filled, fed)
    ensures filled == |fed| % 64 && (filled == 0 ==> state == Folded(INITIAL, fed))
  {
    hide Folded;
    assert filled == 0 ==> fed[..|fed|] == fed;
  }

  class Sha256 {
    var state: State
    var block: seq<Byte>
    var filled: nat
    var length: nat
    /** Everything given so far. */
    ghost var fed: seq<Byte>

    ghost predicate Valid()
      reads this
    {
      Streamed(state, block, filled, fed) && length == |fed|
    }

    constructor ()
      ensures Valid() && fed == []
    {
      state, block, filled, length, fed := INITIAL, Zeros(64), 0, 0, [];
    }

    constructor Clone(other: Sha256)
      requires other.Valid()
      ensures Valid() && fed == other.fed
    {
      hide Streamed;
      state, block, filled, length, fed := other.state, other.block, other.filled, other.length, other.fed;
    }

    method Update(bytes: seq<Byte>)
      requires Valid()
      modifies this
      ensures Valid() && fed == old(fed) + bytes
    {
      length := length + |bytes|;
      var rest := bytes;
      while rest != []
        invariant Streamed(state, block, filled, fed)
        invariant fed + rest == old(fed) + bytes && length == |fed| + |rest|
        decreases |rest|
      {
        var take := if 64 - filled < |rest| then 64 - filled else |rest|;
        TakeIn(take, rest);
        rest := rest[take..];
      }
    }

    /** One turn of the loop: as much as fits, and the block compressed when it is full. */
    method TakeIn(take: nat, rest: seq<Byte>)
      requires Streamed(state, block, filled, fed)
      requires 0 < take <= |rest| && filled + take <= 64
      modifies this`block, this`filled, this`state, this`fed
      ensures Streamed(state, block, filled, fed)
      ensures fed == old(fed) + rest[..take]
    {
      hide Folded, Compressed;
      var was := |fed| - filled;
      block := block[..filled] + rest[..take] + block[filled + take..];
      filled := filled + take;
      fed := fed + rest[..take];
      assert fed[..was] == old(fed)[..was];
      assert block[..filled] == fed[was..];
      if filled == 64 {
        FoldedMore(INITIAL, fed[..was], block);
        assert block == block[..filled] && fed == fed[..was] + block;
        state := Compress(state, block);
        filled := 0;
        assert fed[..|fed|] == fed;
      }
    }

    method Finish() returns (digest: seq<Byte>)
      requires Valid() && |fed| < LIMIT
      modifies this
      ensures digest == Sha(old(fed))
    {
      hide Streamed, Folded, Zeros, ToBe64, ZeroCount, Padded;
      ghost var m := fed;
      var bits := length * 8;
      Update([0x80]);
      ghost var zeros := 0;
      ZerosMore(0);
      ZeroCountLeast(|m|, 0);
      while filled != 56
        invariant Valid() && zeros <= ZeroCount(|m|) && |Zeros(zeros)| == zeros && fed == m + [0x80] + Zeros(zeros)
        decreases ZeroCount(|m|) - zeros
      {
        StreamedFilled(state, block, filled, fed);
        ZeroCountLeast(|m|, zeros);
        ZerosMore(zeros);
        Update([0]);
        zeros := zeros + 1;
        assert fed == m + [0x80] + Zeros(zeros);
      }
      StreamedFilled(state, block, filled, fed);
      ZeroCountLeast(|m|, zeros);
      Update(ToBe64(bits));
      PaddedIs(m, fed);
      StreamedFilled(state, block, filled, fed);
      digest := Bytes(state);
    }
  }

  lemma PaddedIs(m: seq<Byte>, p: seq<Byte>)
    requires |m| < LIMIT && p == m + [0x80] + Zeros(ZeroCount(|m|)) + ToBe64(8 * |m|)
    ensures p == Padded(m) && |p| % 64 == 0
  {
  }

  lemma ZerosMore(n: nat)
    ensures |Zeros(n)| == n && |Zeros(n + 1)| == n + 1 && Zeros(0) == [] && Zeros(n + 1) == Zeros(n) + [0]
  {
  }

  method Sha256Of(bytes: seq<Byte>) returns (digest: seq<Byte>)
    requires |bytes| < LIMIT
    ensures digest == Sha(bytes)
  {
    hide Sha;
    var hash := new Sha256();
    hash.Update(bytes);
    assert [] + bytes == bytes;
    digest := hash.Finish();
  }

  // ---- RFC 2104 ----

  /** The key, hashed if it is longer than a block, and filled out to one with zeros. */
  function KeyBlock(key: seq<Byte>): (b: seq<Byte>)
    requires |key| < LIMIT
    ensures |b| == 64
  {
    if |key| > 64 then Sha(key) + Zeros(32) else key + Zeros(64 - |key|)
  }

  function Masked(bytes: seq<Byte>, mask: Byte): (b: seq<Byte>)
    ensures |b| == |bytes|
  {
    seq(|bytes|, i requires 0 <= i < |bytes| => bytes[i] ^ mask)
  }

  /** Section 2: H(K XOR opad, H(K XOR ipad, text)). */
  function HmacOf(key: seq<Byte>, text: seq<Byte>): (d: seq<Byte>)
    requires |key| < LIMIT && |text| + 64 < LIMIT
    ensures |d| == 32
  {
    Sha(Masked(KeyBlock(key), 0x5c) + Sha(Masked(KeyBlock(key), 0x36) + text))
  }

  function Flatten(parts: seq<seq<Byte>>): seq<Byte> {
    if parts == [] then [] else Flatten(parts[..|parts| - 1]) + parts[|parts| - 1]
  }

  /** A key already in its inner and outer states. */
  class Hmac {
    const inner: Sha256
    const outer: Sha256
    ghost const key: seq<Byte>

    ghost predicate Valid()
      reads inner, outer
    {
      && |key| < LIMIT && inner != outer && inner.Valid() && outer.Valid()
      && inner.fed == Masked(KeyBlock(key), 0x36) && outer.fed == Masked(KeyBlock(key), 0x5c)
    }

    constructor (key: seq<Byte>)
      requires |key| < LIMIT
      ensures Valid() && this.key == key && fresh(inner) && fresh(outer)
    {
      hide Sha, Zeros, Masked, Streamed;
      var block := Zeros(64);
      ZerosSplit(64, |key|);
      ZerosSplit(64, 32);
      if |key| > 64 {
        var digest := Sha256Of(key);
        block := digest + block[32..];
      } else {
        block := key + block[|key|..];
      }
      var first := new Sha256();
      var second := new Sha256();
      first.Update(Masked(block, 0x36));
      second.Update(Masked(block, 0x5c));
      assert [] + Masked(block, 0x36) == Masked(block, 0x36) && [] + Masked(block, 0x5c) == Masked(block, 0x5c);
      inner, outer, this.key := first, second, key;
    }

    method Mac(message: seq<seq<Byte>>) returns (d: seq<Byte>)
      requires Valid() && |Flatten(message)| + 64 < LIMIT
      ensures d == HmacOf(key, Flatten(message)) && Valid()
    {
      hide Sha, KeyBlock, Masked, Sha256.Valid, Flatten;
      var first := Continue(inner, message);
      FlattenOne(first);
      d := Continue(outer, [first]);
    }
  }

  /** A copy of a stream, fed some more and finished; the original stays as it was. */
  method Continue(stream: Sha256, parts: seq<seq<Byte>>) returns (d: seq<Byte>)
    requires stream.Valid() && |stream.fed| + |Flatten(parts)| < LIMIT
    ensures d == Sha(stream.fed + Flatten(parts))
  {
    hide *;
    var hash := new Sha256.Clone(stream);
    FlattenNone(stream.fed, parts);
    for i := 0 to |parts|
      invariant fresh(hash) && hash.Valid() && hash.fed == stream.fed + Flatten(parts[..i])
    {
      FlattenMore(stream.fed, parts, i);
      hash.Update(parts[i]);
    }
    assert parts[..|parts|] == parts;
    d := hash.Finish();
  }

  lemma FlattenNone(before: seq<Byte>, parts: seq<seq<Byte>>)
    ensures before + Flatten(parts[..0]) == before
  {
  }

  lemma FlattenMore(before: seq<Byte>, parts: seq<seq<Byte>>, i: nat)
    requires i < |parts|
    ensures before + Flatten(parts[..i + 1]) == before + Flatten(parts[..i]) + parts[i]
  {
    assert parts[..i + 1][..i] == parts[..i];
  }

  lemma ZerosSplit(n: nat, k: nat)
    ensures |Zeros(n)| == n && (k <= n ==> Zeros(n)[k..] == Zeros(n - k))
  {
  }

  // ---- RFC 8018, section 5.2 ----

  const FIRST_BLOCK: seq<Byte> := [0, 0, 0, 1]

  function U(password: seq<Byte>, salt: seq<Byte>, j: nat): (u: seq<Byte>)
    requires j >= 1 && |password| < LIMIT && |salt| + 68 < LIMIT
    ensures |u| == 32
  {
    if j == 1 then HmacOf(password, salt + FIRST_BLOCK) else HmacOf(password, U(password, salt, j - 1))
  }

  function Xor(x: seq<Byte>, y: seq<Byte>): (z: seq<Byte>)
    requires |x| == |y|
    ensures |z| == |x|
  {
    seq(|x|, i requires 0 <= i < |x| => x[i] ^ y[i])
  }

  /** T_1 after `c` iterations. */
  function T(password: seq<Byte>, salt: seq<Byte>, c: nat): (t: seq<Byte>)
    requires c >= 1 && |password| < LIMIT && |salt| + 68 < LIMIT
    ensures |t| == 32
  {
    if c == 1 then U(password, salt, 1) else Xor(T(password, salt, c - 1), U(password, salt, c))
  }

  /** No iterations is taken as one. */
  method Pbkdf2(password: seq<Byte>, salt: seq<Byte>, iterations: nat) returns (key: seq<Byte>)
    requires |password| < LIMIT && |salt| + 68 < LIMIT
    ensures key == T(password, salt, if iterations == 0 then 1 else iterations)
  {
    hide HmacOf, Xor, Streamed, U, T, Flatten, Hmac.Valid;
    var hmac := new Hmac(password);
    FlattenOne(salt);
    var i := 1;
    Iterated(password, salt, i);
    var u := hmac.Mac([salt, FIRST_BLOCK]);
    key := u;
    while i < iterations
      invariant i >= 1 && (iterations >= 1 ==> i <= iterations) && (iterations == 0 ==> i == 1)
      invariant hmac.Valid() && u == U(password, salt, i) && key == T(password, salt, i)
    {
      FlattenOne(u);
      Iterated(password, salt, i);
      u := hmac.Mac([u]);
      key := Xor(key, u);
      i := i + 1;
    }
  }

  lemma Iterated(password: seq<Byte>, salt: seq<Byte>, i: nat)
    requires i >= 1 && |password| < LIMIT && |salt| + 68 < LIMIT
    ensures i == 1 ==> T(password, salt, i) == U(password, salt, i) == HmacOf(password, salt + FIRST_BLOCK)
    ensures U(password, salt, i + 1) == HmacOf(password, U(password, salt, i))
    ensures T(password, salt, i + 1) == Xor(T(password, salt, i), U(password, salt, i + 1))
  {
    hide HmacOf, Xor;
  }

  lemma FlattenOne(x: seq<Byte>)
    ensures Flatten([x]) == x && Flatten([x, FIRST_BLOCK]) == x + FIRST_BLOCK
  {
    assert [x][..0] == [] && [] + x == x;
    assert [x, FIRST_BLOCK][..1] == [x];
  }

  /** Every byte is looked at, whatever the earlier ones were. */
  method Same(a: seq<Byte>, b: seq<Byte>) returns (r: bool)
    ensures r <==> a == b
  {
    if |a| != |b| {
      return false;
    }
    var seen: Byte := 0;
    for i := 0 to |a|
      invariant seen == 0 <==> a[..i] == b[..i]
    {
      OrZero(seen, a[i], b[i]);
      assert a[..i + 1] == a[..i] + [a[i]] && b[..i + 1] == b[..i] + [b[i]];
      seen := seen | (a[i] ^ b[i]);
    }
    assert a[..|a|] == a && b[..|b|] == b;
    r := seen == 0;
  }

  lemma OrZero(s: Byte, x: Byte, y: Byte)
    ensures s | (x ^ y) == 0 <==> s == 0 && x == y
  {
  }
}
