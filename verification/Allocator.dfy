/** The buffer allocator: seventeen pools of buffers whose capacities are the powers of two up to 64K. */
module Allocator {
  import opened Bytes
  import opened Numbers

  const MAX_SIZE := 65536
  const BUCKETS := 17 // exponents 0 to 16

  /** `bits.Len32`. */
  function Len32(x: nat): nat {
    if x == 0 then 0 else 1 + Len32(x / 2)
  }

  /** `msb`, with the conversions of the code: to `uint32` on the way in and to `uint16` on the way out. */
  function Msb(size: nat): nat {
    (Len32(size % 0x1_0000_0000) - 1) % 0x1_0000
  }

  lemma {:induction false} Len32Brackets(x: nat)
    requires x > 0
    ensures Len32(x) > 0 && Pow2(Len32(x) - 1) <= x < Pow2(Len32(x))
  {
    if x > 1 {
      Len32Brackets(x / 2);
    }
  }

  lemma {:induction false} Pow2Monotone(j: nat, k: nat)
    requires j < k
    ensures 2 * Pow2(j) <= Pow2(k)
  {
    if j + 1 < k {
      Pow2Monotone(j, k - 1);
    }
  }

  lemma Pow2Injective(j: nat, k: nat)
    requires Pow2(j) == Pow2(k)
    ensures j == k
  {
    if j < k {
      Pow2Monotone(j, k);
    } else if k < j {
      Pow2Monotone(k, j);
    }
  }

  lemma SixtyFourK()
    ensures Pow2(16) == MAX_SIZE
  {
    assert Pow2(4) == 16;
    assert Pow2(8) == 256;
    assert Pow2(12) == 4096;
  }

  lemma ExponentAtMost(e: nat, size: nat)
    requires Pow2(e) <= size < 2 * Pow2(e) && size <= MAX_SIZE
    ensures e < BUCKETS && (size < MAX_SIZE ==> e < BUCKETS - 1) && (size == MAX_SIZE ==> Pow2(e) == size)
  {
    SixtyFourK();
    if e > 16 {
      Pow2Monotone(16, e);
    } else if e < 16 {
      Pow2Monotone(e, 16);
    }
  }

  lemma MsbIs(size: nat, e: nat)
    requires size <= MAX_SIZE && e < BUCKETS && Len32(size) == e + 1
    ensures Msb(size) == e
  {
    assert size % 0x1_0000_0000 == size;
  }

  /** In the range the allocator serves, `msb` is the exponent of the largest power of two not above `size`. */
  lemma MsbBrackets(size: nat)
    requires 1 <= size <= MAX_SIZE
    ensures Msb(size) < BUCKETS && Pow2(Msb(size)) <= size < 2 * Pow2(Msb(size))
  {
    Len32Brackets(size);
    var e := Len32(size) - 1;
    ExponentAtMost(e, size);
    MsbIs(size, e);
  }

  /** The bucket `Get` draws from. */
  function Bucket(size: nat): (k: nat)
    requires 1 <= size <= MAX_SIZE
    ensures k < BUCKETS
  {
    MsbBrackets(size);
    ExponentAtMost(Msb(size), size);
    if size == Pow2(Msb(size)) then Msb(size) else Msb(size) + 1
  }

  lemma LeastAbove(e: nat, size: nat, k: nat)
    requires Pow2(e) <= size < 2 * Pow2(e)
    ensures var b := if size == Pow2(e) then e else e + 1;
            size <= Pow2(b) < 2 * size && (size <= Pow2(k) ==> Pow2(b) <= Pow2(k))
  {
    if k < e {
      Pow2Monotone(k, e);
    } else if e < k {
      Pow2Monotone(e, k);
    }
  }

  /** It holds the least power of two that is large enough, and less than twice the size. */
  lemma BucketIsLeast(size: nat, k: nat)
    requires 1 <= size <= MAX_SIZE
    ensures size <= Pow2(Bucket(size)) < 2 * size
    ensures size <= Pow2(k) ==> Pow2(Bucket(size)) <= Pow2(k)
  {
    MsbBrackets(size);
    LeastAbove(Msb(size), size, k);
  }

  ghost predicate Serves(capacity: nat) {
    exists k :: 0 <= k < BUCKETS && capacity == Pow2(k)
  }

  /** `Put` accepts a capacity exactly when it is a power of two up to 64K, and the one it then looks in is the
      bucket of that power. A capacity of 0 sends `msb` below zero, but is refused. */
  lemma AcceptsExactly(capacity: nat)
    ensures (1 <= capacity <= MAX_SIZE && capacity == Pow2(Msb(capacity)))
            <==> Serves(capacity)
    ensures forall k :: 0 <= k < BUCKETS && capacity == Pow2(k) ==> k == Msb(capacity)
    ensures Msb(0) == 0xFFFF
  {
    SixtyFourK();
    if 1 <= capacity <= MAX_SIZE {
      MsbBrackets(capacity);
    }
    forall k | 0 <= k < BUCKETS && capacity == Pow2(k)
      ensures 1 <= capacity <= MAX_SIZE && k == Msb(capacity)
    {
      if k < 16 {
        Pow2Monotone(k, 16);
      }
      MsbBrackets(capacity);
      if k < Msb(capacity) {
        Pow2Monotone(k, Msb(capacity));
      } else if Msb(capacity) < k {
        Pow2Monotone(Msb(capacity), k);
      }
    }
  }

  /** A slice: `len` bytes of an array, from `off` on. Its capacity reaches to the end of the array. */
  datatype Slice = Slice(data: array<byte>, off: nat, len: nat) {
    function Cap(): nat
      requires off <= data.Length
    {
      data.Length - off
    }

    function Whole(): Slab {
      Slab(data, off)
    }
  }

  /** What a pool keeps of a slice: where it begins. */
  datatype Slab = Slab(data: array<byte>, off: nat)

  type Pools = seq<multiset<Slab>>

  /** Bucket `k` holds only buffers of capacity 2^k. */
  ghost predicate Sound(pools: Pools) {
    |pools| == BUCKETS && forall k :: 0 <= k < BUCKETS ==> Sized(pools[k], k)
  }

  ghost predicate Sized(pool: multiset<Slab>, k: nat) {
    forall s :: s in pool ==> s.off <= s.data.Length && s.data.Length - s.off == Pow2(k)
  }

  /** No array is in two hands, twice in the pools, whole or in part, or both in a hand and in the pools. */
  ghost predicate Unshared(pools: Pools, lent: multiset<array<byte>>) {
    && (forall b :: b in lent ==> lent[b] == 1)
    && (forall k :: 0 <= k < |pools| ==> Single(pools[k], lent))
    && (forall j, k :: 0 <= j < |pools| && 0 <= k < |pools| ==> Apart(pools[j], pools[k]))
  }

  ghost predicate Single(pool: multiset<Slab>, lent: multiset<array<byte>>) {
    forall s :: s in pool ==> pool[s] == 1 && s.data !in lent
  }

  ghost predicate Apart(p: multiset<Slab>, q: multiset<Slab>) {
    forall s, t :: s in p && t in q && s.data == t.data ==> s == t
  }

  /** Some part of the array is in the pools. */
  ghost predicate Pooled(pools: Pools, b: array<byte>) {
    exists k :: 0 <= k < |pools| && PartIn(pools[k], b)
  }

  ghost predicate PartIn(pool: multiset<Slab>, b: array<byte>) {
    exists s :: s in pool && s.data == b
  }

  lemma PartOf(pools: Pools, k: nat, s: Slab)
    requires k < |pools| && s in pools[k]
    ensures Pooled(pools, s.data)
  {
    assert PartIn(pools[k], s.data);
  }

  lemma SameBucket(pools: Pools, j: nat, k: nat, s: Slab)
    requires Sound(pools) && j < BUCKETS && k < BUCKETS && s in pools[j] && s in pools[k]
    ensures j == k
  {
    assert Sized(pools[j], j) && Sized(pools[k], k);
    Pow2Injective(j, k);
  }

  lemma Once(pools: Pools, lent: multiset<array<byte>>, k: nat, s: Slab)
    requires Unshared(pools, lent) && k < |pools| && s in pools[k]
    ensures pools[k][s] == 1 && s.data !in lent
  {
    assert Single(pools[k], lent);
  }

  lemma OnlyOnce(pools: Pools, lent: multiset<array<byte>>, j: nat, k: nat, s: Slab, t: Slab)
    requires Unshared(pools, lent) && j < |pools| && k < |pools| && s in pools[j] && t in pools[k]
    ensures s.data == t.data ==> s == t
  {
    assert Apart(pools[j], pools[k]);
  }

  lemma LentIsNotPooled(pools: Pools, lent: multiset<array<byte>>, b: array<byte>)
    requires Unshared(pools, lent) && b in lent
    ensures !Pooled(pools, b)
  {
    if Pooled(pools, b) {
      var k :| 0 <= k < |pools| && PartIn(pools[k], b);
      var s :| s in pools[k] && s.data == b;
      Once(pools, lent, k, s);
    }
  }

  lemma TakenFrom(pools: Pools, k: nat, s: Slab, j: nat, t: Slab)
    requires k < |pools| && j < |pools| && t in pools[k := pools[k] - multiset{s}][j]
    ensures t in pools[j] && pools[k := pools[k] - multiset{s}][j][t] <= pools[j][t]
    ensures j == k && t == s ==> pools[k][s] >= 2
  {
  }

  /** Lending a pooled buffer takes it out of the pools altogether. */
  lemma LendPooled(pools: Pools, lent: multiset<array<byte>>, k: nat, s: Slab)
    requires Sound(pools) && k < BUCKETS && s in pools[k]
    ensures var now := pools[k := pools[k] - multiset{s}];
            && Sound(now)
            && (Unshared(pools, lent) ==> s.data !in lent && Unshared(now, lent + multiset{s.data}))
  {
    var now, more := pools[k := pools[k] - multiset{s}], lent + multiset{s.data};
    forall j | 0 <= j < BUCKETS
      ensures Sized(now[j], j)
    {
      assert Sized(pools[j], j);
      forall t | t in now[j]
        ensures t in pools[j]
      {
        TakenFrom(pools, k, s, j, t);
      }
    }
    if Unshared(pools, lent) {
      Once(pools, lent, k, s);
      forall j | 0 <= j < |now|
        ensures Single(now[j], more)
      {
        forall t | t in now[j]
          ensures now[j][t] == 1 && t.data !in more
        {
          TakenFrom(pools, k, s, j, t);
          Once(pools, lent, j, t);
          OnlyOnce(pools, lent, j, k, t, s);
          if t == s {
            SameBucket(pools, j, k, s);
          }
        }
      }
      forall i, j | 0 <= i < |now| && 0 <= j < |now|
        ensures Apart(now[i], now[j])
      {
        forall t, u | t in now[i] && u in now[j] && t.data == u.data
          ensures t == u
        {
          TakenFrom(pools, k, s, i, t);
          TakenFrom(pools, k, s, j, u);
          OnlyOnce(pools, lent, i, j, t, u);
        }
      }
    }
  }

  lemma ReturnedTo(pools: Pools, k: nat, s: Slab, j: nat, t: Slab)
    requires k < |pools| && j < |pools| && t in pools[k := pools[k] + multiset{s}][j]
    ensures t in pools[j] || (j == k && t == s)
    ensures t != s ==> t in pools[j] && pools[k := pools[k] + multiset{s}][j][t] == pools[j][t]
    ensures t == s && s !in pools[j] ==> j == k && pools[k := pools[k] + multiset{s}][j][t] == 1
  {
  }

  lemma ReturnIsSound(pools: Pools, k: nat, s: Slab)
    requires Sound(pools) && k < BUCKETS && s.off <= s.data.Length && s.data.Length - s.off == Pow2(k)
    ensures Sound(pools[k := pools[k] + multiset{s}])
  {
    var now := pools[k := pools[k] + multiset{s}];
    forall j | 0 <= j < BUCKETS
      ensures Sized(now[j], j)
    {
      assert Sized(pools[j], j);
      forall t | t in now[j]
        ensures t in pools[j] || (j == k && t == s)
      {
        ReturnedTo(pools, k, s, j, t);
      }
    }
  }

  lemma ReturnUnshared(pools: Pools, lent: multiset<array<byte>>, k: nat, s: Slab)
    requires k < |pools| && Unshared(pools, lent) && !Pooled(pools, s.data)
    ensures Unshared(pools[k := pools[k] + multiset{s}], lent - multiset{s.data})
  {
    var now, left := pools[k := pools[k] + multiset{s}], lent - multiset{s.data};
    assert forall b :: b in left ==> b in lent && left[b] == 1 && b != s.data;
    forall j, t | 0 <= j < |now| && t in pools[j]
      ensures t.data != s.data
    {
      PartOf(pools, j, t);
    }
    forall j | 0 <= j < |now|
      ensures Single(now[j], left)
    {
      forall t | t in now[j]
        ensures now[j][t] == 1 && t.data !in left
      {
        ReturnedTo(pools, k, s, j, t);
        if t != s {
          Once(pools, lent, j, t);
        }
      }
    }
    forall i, j | 0 <= i < |now| && 0 <= j < |now|
      ensures Apart(now[i], now[j])
    {
      forall t, u | t in now[i] && u in now[j] && t.data == u.data
        ensures t == u
      {
        ReturnedTo(pools, k, s, i, t);
        ReturnedTo(pools, k, s, j, u);
        if t in pools[i] && u in pools[j] {
          OnlyOnce(pools, lent, i, j, t, u);
        }
      }
    }
  }

  lemma ReturnShared(pools: Pools, lent: multiset<array<byte>>, k: nat, s: Slab)
    requires Sound(pools) && k < BUCKETS && s.off <= s.data.Length && s.data.Length - s.off == Pow2(k)
    requires Pooled(pools, s.data)
    ensures !Unshared(pools[k := pools[k] + multiset{s}], lent - multiset{s.data})
  {
    var now, left := pools[k := pools[k] + multiset{s}], lent - multiset{s.data};
    var j :| 0 <= j < |pools| && PartIn(pools[j], s.data);
    var t :| t in pools[j] && t.data == s.data;
    assert t in now[j] && s in now[k];
    if Unshared(now, left) {
      OnlyOnce(now, left, j, k, t, s);
      if j == k {
        assert now[k][s] == pools[k][s] + 1;
        Once(now, left, k, s);
      } else {
        assert Sized(pools[j], j);
        Pow2Injective(j, k);
      }
    }
  }

  /** Returning a buffer, or a part of it, keeps every array in one place exactly when no part of it was in the
      pools already. */
  lemma ReturnExactly(pools: Pools, lent: multiset<array<byte>>, k: nat, s: Slab)
    requires Sound(pools) && k < BUCKETS && s.off <= s.data.Length && s.data.Length - s.off == Pow2(k)
    requires Unshared(pools, lent)
    ensures var now := pools[k := pools[k] + multiset{s}];
            Sound(now) && (Unshared(now, lent - multiset{s.data}) <==> !Pooled(pools, s.data))
  {
    ReturnIsSound(pools, k, s);
    if Pooled(pools, s.data) {
      ReturnShared(pools, lent, k, s);
    } else {
      ReturnUnshared(pools, lent, k, s);
    }
  }

  class Allocator {
    var buffers: Pools
    ghost var lent: multiset<array<byte>> // handed out and not returned

    ghost predicate Valid()
      reads this
    {
      Sound(buffers)
    }

    ghost predicate Exclusive()
      reads this
    {
      Unshared(buffers, lent)
    }

    constructor ()
      ensures Valid() && Exclusive() && lent == multiset{} && forall k :: 0 <= k < BUCKETS ==> buffers[k] == multiset{}
    {
      buffers := seq(BUCKETS, _ => multiset{});
      lent := multiset{};
    }

    /** `Get`: nothing for a size out of range; otherwise a pooled or a new buffer of the right bucket, which is
        in nobody else's hands. */
    method Get(size: int) returns (buf: Option<Slice>)
      requires Valid()
      modifies this
      ensures Valid() && (old(Exclusive()) ==> Exclusive())
      ensures buf.None? <==> size <= 0 || size > MAX_SIZE
      ensures buf.None? ==> buffers == old(buffers) && lent == old(lent)
      ensures buf.Some? ==>
                && buf.value.off <= buf.value.data.Length && buf.value.Cap() == Pow2(Bucket(size))
                && buf.value.len == size <= buf.value.Cap() < 2 * size
                && lent == old(lent) + multiset{buf.value.data}
                && (old(Exclusive()) ==> buf.value.data !in old(lent))
                && (if fresh(buf.value.data) then buffers == old(buffers)
                    else var k := Bucket(size);
                         buf.value.Whole() in old(buffers)[k]
                         && buffers == old(buffers)[k := old(buffers)[k] - multiset{buf.value.Whole()}])
    {
      if size <= 0 || size > MAX_SIZE {
        return None;
      }
      var s := Draw(Bucket(size));
      BucketIsLeast(size, 0);
      buf := Some(Slice(s.data, s.off, size));
    }

    /** `Get` of one pool, which may have dropped what it held: a pooled buffer or a new one. */
    method Draw(k: nat) returns (s: Slab)
      requires Valid() && k < BUCKETS
      modifies this
      ensures Valid() && (old(Exclusive()) ==> Exclusive() && s.data !in old(lent))
      ensures s.off <= s.data.Length && s.data.Length - s.off == Pow2(k)
      ensures lent == old(lent) + multiset{s.data}
      ensures if fresh(s.data) then buffers == old(buffers)
              else s in old(buffers)[k] && buffers == old(buffers)[k := old(buffers)[k] - multiset{s}]
    {
      var dropped := *;
      if buffers[k] != multiset{} && !dropped {
        s :| s in buffers[k];
        assert Sized(buffers[k], k);
        LendPooled(buffers, lent, k, s);
        buffers := buffers[k := buffers[k] - multiset{s}];
      } else {
        var b := new byte[Pow2(k)];
        s := Slab(b, 0);
        LendNew(buffers, lent, b);
      }
      lent := lent + multiset{s.data};
    }

    /** `Put`: refuses capacities that are not a power of two up to 64K; otherwise the slice is pooled. Every
        array is then in one place exactly when no part of this one was in the pools already. */
    method Put(buf: Slice) returns (ok: bool)
      requires Valid() && buf.off <= buf.data.Length
      modifies this
      ensures Valid()
      ensures ok <==> Serves(buf.Cap())
      ensures !ok ==> buffers == old(buffers) && lent == old(lent)
      ensures ok ==> var k := Msb(buf.Cap());
                     && k < BUCKETS && buffers == old(buffers)[k := old(buffers)[k] + multiset{buf.Whole()}]
                     && lent == old(lent) - multiset{buf.data}
      ensures old(Exclusive()) && !ok ==> Exclusive()
      ensures old(Exclusive()) && ok ==> (Exclusive() <==> !old(Pooled(buffers, buf.data)))
    {
      hide Pooled, Unshared;
      AcceptsExactly(buf.Cap());
      var b := Msb(buf.Cap());
      if buf.Cap() == 0 || buf.Cap() > MAX_SIZE || buf.Cap() != Pow2(b) {
        return false;
      }
      ReturnIsSound(buffers, b, buf.Whole());
      if Exclusive() {
        ReturnExactly(buffers, lent, b, buf.Whole());
      }
      buffers := buffers[b := buffers[b] + multiset{buf.Whole()}];
      lent := lent - multiset{buf.data};
      return true;
    }
  }

  lemma LendNew(pools: Pools, lent: multiset<array<byte>>, b: array<byte>)
    requires b !in lent && !Pooled(pools, b)
    ensures Unshared(pools, lent) ==> Unshared(pools, lent + multiset{b})
  {
    if Unshared(pools, lent) {
      forall k | 0 <= k < |pools|
        ensures Single(pools[k], lent + multiset{b})
      {
        forall s | s in pools[k]
          ensures pools[k][s] == 1 && s.data !in lent + multiset{b}
        {
          Once(pools, lent, k, s);
          PartOf(pools, k, s);
        }
      }
    }
  }

  /** What the owners of buffers do: take one, or return one they hold, from some offset on. */
  datatype Op = Take(size: int) | Return(index: nat, from: nat)

  /** Slices of different arrays, all of them lent. */
  ghost predicate Held(held: seq<Slice>, lent: multiset<array<byte>>) {
    && (forall i, j :: 0 <= i < j < |held| ==> held[i].data != held[j].data)
    && (forall i :: 0 <= i < |held| ==> held[i].off <= held[i].data.Length && held[i].data in lent)
  }

  /** The arrays of slices. */
  function Arrays(held: seq<Slice>): multiset<array<byte>> {
    if held == [] then multiset{} else Arrays(held[..|held| - 1]) + multiset{held[|held| - 1].data}
  }

  lemma ArraysSnoc(held: seq<Slice>, s: Slice)
    ensures Arrays(held + [s]) == Arrays(held) + multiset{s.data}
  {
    assert (held + [s])[..|held|] == held;
  }

  lemma {:induction false} ArraysWithout(held: seq<Slice>, i: nat)
    requires i < |held|
    ensures Arrays(held) == Arrays(held[..i] + held[i + 1..]) + multiset{held[i].data}
  {
    var last := |held| - 1;
    var init := held[..last];
    if i == last {
      assert held[..i] + held[i + 1..] == init;
    } else {
      hide Arrays;
      var rest, s := init[..i] + init[i + 1..], held[last];
      ArraysWithout(init, i);
      assert held == init + [s];
      SnocWithout(init, s, i);
      ArraysSnoc(init, s);
      ArraysSnoc(rest, s);
      Exchange(Arrays(rest), multiset{held[i].data}, multiset{s.data});
    }
  }

  lemma SnocWithout(init: seq<Slice>, s: Slice, i: nat)
    requires i < |init|
    ensures (init + [s])[..i] + (init + [s])[i + 1..] == (init[..i] + init[i + 1..]) + [s]
  {
    assert (init + [s])[..i] == init[..i];
    assert (init + [s])[i + 1..] == init[i + 1..] + [s];
  }

  lemma Exchange(x: multiset<array<byte>>, y: multiset<array<byte>>, z: multiset<array<byte>>)
    ensures (x + y) + z == (x + z) + y
  {
  }

  lemma Cancel(x: multiset<array<byte>>, y: multiset<array<byte>>, z: multiset<array<byte>>, w: multiset<array<byte>>)
    requires x + y == (z + y) + w
    ensures x == z + w
  {
    forall b: array<byte>
      ensures x[b] == (z + w)[b]
    {
      assert (x + y)[b] == ((z + y) + w)[b];
    }
  }

  /** What an owner of `held` holds after an operation: one more buffer of the size asked for and the least capacity,
      or without the one returned, if its capacity is one that the pools keep. Anything else changes nothing. */
  ghost predicate Stepped(op: Op, held: seq<Slice>, now: seq<Slice>) {
    match op
    case Take(size) =>
      if 1 <= size <= MAX_SIZE then
        && |now| == |held| + 1 && now[..|held|] == held
        && var buf := now[|held|];
           buf.len == size && buf.off <= buf.data.Length && buf.Cap() == Pow2(Bucket(size))
      else now == held
    case Return(i, from) =>
      if i < |held| && held[i].off <= held[i].data.Length && from <= held[i].Cap() && Serves(held[i].Cap() - from)
      then now == held[..i] + held[i + 1..]
      else now == held
  }

  /** As long as every buffer is returned once, whole or in part, the buffers held are all different and no part
      of any is in the pools, in every run; and what is lent is what was lent before and the buffers held. `states`
      says what was held before each operation and at the end. */
  method Run(alloc: Allocator, ops: seq<Op>) returns (held: seq<Slice>, ghost states: seq<seq<Slice>>)
    requires alloc.Valid() && alloc.Exclusive()
    modifies alloc
    ensures alloc.Valid() && alloc.Exclusive() && Held(held, alloc.lent)
    ensures forall i :: 0 <= i < |held| ==> !Pooled(alloc.buffers, held[i].data)
    ensures alloc.lent == old(alloc.lent) + Arrays(held)
    ensures |states| == |ops| + 1 && states[0] == [] && states[|ops|] == held
    ensures forall n :: 0 <= n < |ops| ==> Stepped(ops[n], states[n], states[n + 1])
  {
    hide Pooled, Unshared, Stepped, Held;
    held, states := [], [[]];
    NothingHeld(alloc.lent);
    for n := 0 to |ops|
      invariant alloc.Valid() && alloc.Exclusive() && Held(held, alloc.lent)
      invariant alloc.lent == old(alloc.lent) + Arrays(held)
      invariant |states| == n + 1 && states[0] == [] && states[n] == held
      invariant forall m :: 0 <= m < n ==> Stepped(ops[m], states[m], states[m + 1])
    {
      ghost var before := held;
      held := Step(alloc, held, ops[n]);
      Cancel(alloc.lent, Arrays(before), old(alloc.lent), Arrays(held));
      states := states + [held];
    }
    forall i | 0 <= i < |held|
      ensures !Pooled(alloc.buffers, held[i].data)
    {
      HeldIsLent(held, alloc.lent, i);
      LentIsNotPooled(alloc.buffers, alloc.lent, held[i].data);
    }
  }

  lemma NothingHeld(lent: multiset<array<byte>>)
    ensures Held([], lent) && Arrays([]) == multiset{}
  {
  }

  lemma HeldIsLent(held: seq<Slice>, lent: multiset<array<byte>>, i: nat)
    requires Held(held, lent) && i < |held|
    ensures held[i].data in lent
  {
  }

  method Step(alloc: Allocator, held: seq<Slice>, op: Op) returns (now: seq<Slice>)
    requires alloc.Valid() && alloc.Exclusive() && Held(held, alloc.lent)
    modifies alloc
    ensures alloc.Valid() && alloc.Exclusive() && Held(now, alloc.lent)
    ensures Stepped(op, held, now)
    ensures alloc.lent + Arrays(held) == old(alloc.lent) + Arrays(now)
  {
    hide Pow2, Msb, Bucket, Sound, Single, Apart, Pooled, Serves, Arrays;
    now := held;
    match op
    case Take(size) =>
      var buf := alloc.Get(size);
      if buf.Some? {
        ArraysSnoc(held, buf.value);
        now := held + [buf.value];
      }
    case Return(i, from) =>
      if i < |held| && from <= held[i].Cap() {
        LentIsNotPooled(alloc.buffers, alloc.lent, held[i].data);
        ghost var lent := alloc.lent;
        var ok := alloc.Put(Slice(held[i].data, held[i].off + from, 0));
        if ok {
          ArraysWithout(held, i);
          now := held[..i] + held[i + 1..];
          StillHeld(held, lent, i);
        }
      }
  }

  lemma StillHeld(held: seq<Slice>, lent: multiset<array<byte>>, i: nat)
    requires i < |held| && Held(held, lent)
    ensures Held(held[..i] + held[i + 1..], lent - multiset{held[i].data})
  {
  }
}
