/**
 Subnet enumeration: incrementing an address byte by byte, masking it byte by byte, and
 walking a network from its first address to its broadcast address.  An address is a sequence
 of bytes, most significant first, of any fixed length.
 */
module Subnet {
  import opened Wrappers

  function Pow2(n: nat): (p: nat)
    ensures p > 0
  {
    if n == 0 then 1 else 2 * Pow2(n - 1)
  }

  lemma {:induction false} Pow2Adds(m: nat, n: nat)
    ensures Pow2(m + n) == Pow2(m) * Pow2(n)
  {
    if m > 0 {
      Pow2Adds(m - 1, n);
    }
  }

  /** The number an address stands for. */
  function Val(ip: seq<byte>): nat {
    if ip == [] then 0 else Val(ip[..|ip| - 1]) * 256 + ip[|ip| - 1] as int
  }

  lemma {:induction false} ValBound(ip: seq<byte>)
    ensures Val(ip) < Pow2(8 * |ip|)
  {
    if ip != [] {
      ValBound(ip[..|ip| - 1]);
      Pow2Eight(|ip|);
    }
  }

  lemma {:induction false} ValInjective(a: seq<byte>, b: seq<byte>)
    requires |a| == |b| && Val(a) == Val(b)
    ensures a == b
  {
    if a != [] {
      ValInjective(a[..|a| - 1], b[..|b| - 1]);
      assert a == a[..|a| - 1] + [a[|a| - 1]];
      assert b == b[..|b| - 1] + [b[|b| - 1]];
    }
  }

  // ----------------------------------------------------------------------- incrementing

  /** The address with one added to its last byte, carrying while a byte wraps to zero. */
  function Next(ip: seq<byte>): (r: seq<byte>)
    ensures |r| == |ip|
  {
    if ip == [] then []
    else
      var n := |ip| - 1;
      if ip[n] < 255 then ip[n := ip[n] + 1] else Next(ip[..n]) + [0]
  }

  method Copy(s: seq<byte>) returns (a: array<byte>)
    ensures fresh(a) && a[..] == s
  {
    a := new byte[|s|];
    forall i | 0 <= i < |s| {
      a[i] := s[i];
    }
  }

  method NextIp(ip: array<byte>) returns (next: array<byte>)
    ensures fresh(next) && next[..] == Next(ip[..])
  {
    next := Copy(ip[..]);
    assert ip[..ip.Length] == ip[..] && next[ip.Length..] == [];
    assert Next(ip[..]) + [] == Next(ip[..]);
    var i := ip.Length - 1;
    while i >= 0
      invariant -1 <= i < ip.Length
      invariant next[..i + 1] == ip[..i + 1]
      invariant Next(ip[..]) == Next(ip[..i + 1]) + next[i + 1..]
    {
      ghost var before, tail := ip[..i + 1], next[i + 1..];
      next[i] := (next[i] as int + 1) % 256;
      if next[i] > 0 {
        assert next[..i + 1] == before[i := before[i] + 1];
        assert next[..] == Next(before) + tail;
        return;
      }
      assert before[..i] == ip[..i];
      assert next[i..] == [0] + tail;
      i := i - 1;
    }
    assert Next(ip[..0]) == [];
  }

  lemma Pow2Eight(n: nat)
    requires n > 0
    ensures Pow2(8 * n) == 256 * Pow2(8 * (n - 1))
  {
    Pow2Adds(8, 8 * (n - 1));
    assert Pow2(8) == 256;
  }

  /** Incrementing adds one; the last address of the space is followed by the first. */
  lemma {:induction false} NextAddsOne(ip: seq<byte>)
    ensures Val(Next(ip)) == if Val(ip) + 1 == Pow2(8 * |ip|) then 0 else Val(ip) + 1
    ensures Val(ip) + 1 <= Pow2(8 * |ip|)
  {
    ValBound(ip);
    if ip != [] {
      var n := |ip| - 1;
      var init, last := ip[..n], ip[n];
      assert ip == init + [last];
      Pow2Eight(|ip|);
      if last < 255 {
        assert Next(ip) == init + [last + 1];
        ValBound(init);
      } else {
        NextAddsOne(init);
      }
    }
  }

  // ---------------------------------------------------------------------------- masking

  /** `b & mask` for a mask byte of k leading ones: b with its low 8 - k bits cleared. */
  function MaskByte(b: byte, k: nat): (r: byte)
    requires k <= 8
  {
    EightPowers(k);
    b / Pow2(8 - k) * Pow2(8 - k)
  }

  /** `b | ^mask` for a mask byte of k leading ones: b with its low 8 - k bits set. */
  function FillByte(b: byte, k: nat): (r: byte)
    requires k <= 8
  {
    MaskBounds(b, k);
    MaskByte(b, k) + (Pow2(8 - k) - 1)
  }

  lemma EightPowers(k: nat)
    requires k <= 8
    ensures Pow2(8 - k) == [256, 128, 64, 32, 16, 8, 4, 2, 1][k]
  {
    assert Pow2(0) == 1 && Pow2(1) == 2 && Pow2(2) == 4 && Pow2(3) == 8 && Pow2(4) == 16;
    assert Pow2(5) == 32 && Pow2(6) == 64 && Pow2(7) == 128 && Pow2(8) == 256;
  }

  lemma MaskBounds(b: byte, k: nat)
    requires k <= 8
    ensures MaskByte(b, k) <= b < MaskByte(b, k) + Pow2(8 - k) <= 256
  {
    EightPowers(k);
  }

  lemma MaskByteTwice(b: byte, k: nat)
    requires k <= 8
    ensures MaskByte(MaskByte(b, k), k) == MaskByte(b, k)
  {
    EightPowers(k);
  }

  /** How many of a prefix's bits fall on byte i. */
  function OnesAt(p: nat, i: nat): (k: nat)
    ensures k <= 8
  {
    if p >= 8 * i + 8 then 8 else if p <= 8 * i then 0 else p - 8 * i
  }

  function Mask(ip: seq<byte>, p: nat): (r: seq<byte>)
    ensures |r| == |ip|
  {
    seq(|ip|, i requires 0 <= i < |ip| => MaskByte(ip[i], OnesAt(p, i)))
  }

  function Broadcast(ip: seq<byte>, p: nat): (r: seq<byte>)
    ensures |r| == |ip|
  {
    seq(|ip|, i requires 0 <= i < |ip| => FillByte(ip[i], OnesAt(p, i)))
  }

  predicate Contains(net: seq<byte>, p: nat, ip: seq<byte>) {
    |net| == |ip| && forall i | 0 <= i < |ip| :: MaskByte(net[i], OnesAt(p, i)) == MaskByte(ip[i], OnesAt(p, i))
  }

  /** The number of addresses of a network. */
  function Size(n: nat, p: nat): (s: nat)
    requires p <= 8 * n
    ensures s > 0
  {
    Pow2(8 * n - p)
  }

  /** Masking byte by byte rounds the value down to a multiple of the size, and filling adds
      the size less one. */
  lemma {:induction false} MaskRounds(ip: seq<byte>, p: nat) returns (q: nat)
    requires p <= 8 * |ip|
    ensures
      var m := Size(|ip|, p);
      && Val(Mask(ip, p)) == q * m <= Val(ip) < q * m + m
      && Val(Broadcast(ip, p)) == q * m + m - 1
  {
    if ip == [] {
      q := 0;
    } else {
      var n := |ip| - 1;
      var init, last, k := ip[..n], ip[n], OnesAt(p, n);
      assert Mask(ip, p) == Mask(init, p) + [MaskByte(last, k)];
      assert Broadcast(ip, p) == Broadcast(init, p) + [FillByte(last, k)];
      assert ip == init + [last];
      MaskBounds(last, k);
      if p > 8 * n {
        WholeBytes(init, p);
        q := SplitLastByte(Val(init), last, k);
      } else {
        q := MaskRounds(init, p);
        SizeGrows(n, p, q);
        EightPowers(0);
      }
    }
  }

  lemma SplitLastByte(v: nat, last: byte, k: nat) returns (q: nat)
    requires k <= 8
    ensures v * 256 + MaskByte(last, k) as int == q * Pow2(8 - k)
  {
    EightPowers(k);
    var m := Pow2(8 - k);
    var c := 256 / m;
    assert c * m == 256;
    q := v * c + last / m;
  }

  lemma SizeGrows(n: nat, p: nat, q: nat)
    requires p <= 8 * n
    ensures Size(n + 1, p) == 256 * Size(n, p) && q * Size(n + 1, p) == q * Size(n, p) * 256
  {
    Pow2Adds(8, 8 * n - p);
    assert Pow2(8) == 256;
  }

  lemma WholeBytes(ip: seq<byte>, p: nat)
    requires p >= 8 * |ip|
    ensures Mask(ip, p) == ip && Broadcast(ip, p) == ip
  {
    EightPowers(8);
  }

  lemma MaskTwice(ip: seq<byte>, p: nat)
    ensures Mask(Mask(ip, p), p) == Mask(ip, p) && Broadcast(Mask(ip, p), p) == Broadcast(ip, p)
  {
    forall i | 0 <= i < |ip|
      ensures var k := OnesAt(p, i); MaskByte(MaskByte(ip[i], k), k) == MaskByte(ip[i], k)
    {
      MaskByteTwice(ip[i], OnesAt(p, i));
    }
  }

  /** The bytewise test of a network holds exactly on its block of consecutive values. */
  lemma ContainsIsBlock(net: seq<byte>, p: nat, ip: seq<byte>)
    requires |net| == |ip| && p <= 8 * |ip| && Mask(net, p) == net
    ensures Contains(net, p, ip) <==> Val(net) <= Val(ip) < Val(net) + Size(|ip|, p)
  {
    var a := MaskRounds(net, p);
    var q := MaskRounds(ip, p);
    SameBlock(a, q, Size(|ip|, p), Val(ip));
    if Contains(net, p, ip) {
      assert Mask(net, p) == Mask(ip, p);
    } else {
      var i :| 0 <= i < |ip| && MaskByte(net[i], OnesAt(p, i)) != MaskByte(ip[i], OnesAt(p, i));
      assert Mask(net, p)[i] != Mask(ip, p)[i];
      if Val(Mask(net, p)) == Val(Mask(ip, p)) {
        ValInjective(Mask(net, p), Mask(ip, p));
        assert false;
      }
    }
  }

  lemma SameBlock(a: nat, q: nat, m: nat, v: nat)
    requires m > 0 && q * m <= v < q * m + m
    ensures a * m == q * m <==> a * m <= v < a * m + m
  {
    Ordered(a, q, m);
    Ordered(q, a, m);
  }

  lemma Ordered(a: nat, b: nat, m: nat)
    ensures a < b ==> a * m + m <= b * m
  {
    assert a < b ==> (a + 1) * m <= b * m;
  }

  // ------------------------------------------------------------------------ enumeration

  /** One step from an address of a network with a non-empty prefix: on to the next value, and
      out of the network after the last. */
  lemma StepInNetwork(net: seq<byte>, p: nat, ip: seq<byte>)
    requires |net| == |ip| && 1 <= p <= 8 * |ip| && Mask(net, p) == net && Contains(net, p, ip)
    ensures
      var end := Val(net) + Size(|ip|, p);
      && Val(net) <= Val(ip) < end
      && (Contains(net, p, Next(ip)) <==> Val(ip) + 1 < end)
      && (Val(ip) + 1 < end ==> Val(Next(ip)) == Val(ip) + 1)
  {
    ContainsIsBlock(net, p, ip);
    ContainsIsBlock(net, p, Next(ip));
    NextAddsOne(ip);
    BlockFits(net, p);
  }

  /** A network's block lies within the address space, and is not all of it. */
  lemma BlockFits(net: seq<byte>, p: nat)
    requires 1 <= p <= 8 * |net| && Mask(net, p) == net
    ensures Val(net) + Size(|net|, p) <= Pow2(8 * |net|)
    ensures Val(net) == 0 ==> Size(|net|, p) < Pow2(8 * |net|)
  {
    var a := MaskRounds(net, p);
    ValBound(net);
    TwoBlocks(|net|, p);
    LastBlock(a, Pow2(p), Size(|net|, p));
  }

  lemma TwoBlocks(n: nat, p: nat)
    requires 1 <= p <= 8 * n
    ensures Pow2(8 * n) == Pow2(p) * Size(n, p) && Pow2(p) >= 2
  {
    Pow2Adds(p, 8 * n - p);
    assert Pow2(p) == 2 * Pow2(p - 1);
  }

  lemma LastBlock(a: nat, blocks: nat, m: nat)
    requires m > 0 && blocks >= 2 && a * m < blocks * m
    ensures a * m + m <= blocks * m && m < blocks * m
  {
    Ordered(blocks, a, m);
    Ordered(a, blocks, m);
    Ordered(1, blocks, m);
    assert a == blocks ==> a * m == blocks * m;
  }

  function Hosts(n: nat, p: nat): nat
    requires p <= 8 * n
  {
    if Size(n, p) <= 2 then 0 else Size(n, p) - 2
  }

  /** Enumerate a network of prefix length at least one: exactly the addresses strictly between
      the network and the broadcast address, once each and in ascending order. */
  method GenerateSubnetAddresses(net: array<byte>, p: nat) returns (addresses: seq<seq<byte>>)
    requires 1 <= p <= 8 * net.Length
    ensures |addresses| == Hosts(net.Length, p)
    ensures forall i | 0 <= i < |addresses| ::
              |addresses[i]| == net.Length && Val(addresses[i]) == Val(Mask(net[..], p)) + 1 + i
    ensures forall ip: seq<byte> | |ip| == net.Length ::
              ip in addresses <==> Val(Mask(net[..], p)) < Val(ip) < Val(Broadcast(net[..], p))
  {
    var first := Copy(Mask(net[..], p));
    var broadcast := Broadcast(first[..], p);
    NetworkAndBroadcast(net[..], p);
    addresses := WalkNetwork(first, p, broadcast);
    ListedIffBetween(addresses, net.Length, Val(first[..]), Val(broadcast));
  }

  lemma NetworkAndBroadcast(net: seq<byte>, p: nat)
    requires p <= 8 * |net|
    ensures Mask(Mask(net, p), p) == Mask(net, p) && Broadcast(Mask(net, p), p) == Broadcast(net, p)
    ensures Val(Broadcast(net, p)) == Val(Mask(net, p)) + Size(|net|, p) - 1
  {
    MaskTwice(net, p);
    var q := MaskRounds(net, p);
  }

  /** The enumerating loop, started at the network address. */
  method WalkNetwork(first: array<byte>, p: nat, broadcast: seq<byte>) returns (addresses: seq<seq<byte>>)
    requires 1 <= p <= 8 * first.Length && Mask(first[..], p) == first[..]
    requires |broadcast| == first.Length && Val(broadcast) == Val(first[..]) + Size(first.Length, p) - 1
    ensures Listed(addresses, first.Length, Val(first[..]), Val(broadcast) - 1)
  {
    ghost var network, n := first[..], first.Length;
    var ip := first;
    addresses := [];
    ContainsIsBlock(network, p, network);
    while true
      invariant ip.Length == n && first[..] == network && Contains(network, p, ip[..])
      invariant Val(ip[..]) <= Val(broadcast)
      invariant Listed(addresses, n, Val(network), Least(Val(ip[..]), Val(broadcast) - 1))
      decreases Val(broadcast) - Val(ip[..])
    {
      StepInNetwork(network, p, ip[..]);
      ip := NextIp(ip);
      if !Contains(first[..], p, ip[..]) {
        break;
      }
      BroadcastByValue(ip[..], broadcast);
      if ip[..] == broadcast {
        continue;
      }
      ListedNext(addresses, n, Val(network), ip[..]);
      addresses := addresses + [ip[..]];
    }
  }

  function Least(a: int, b: int): int { if a < b then a else b }

  /** The addresses listed are those above `lo`, up to and including `last`, in order. */
  predicate Listed(addresses: seq<seq<byte>>, n: nat, lo: nat, last: int) {
    && |addresses| == (if last <= lo then 0 else last - lo)
    && forall i | 0 <= i < |addresses| :: |addresses[i]| == n && Val(addresses[i]) == lo + 1 + i
  }

  lemma ListedNext(addresses: seq<seq<byte>>, n: nat, lo: nat, ip: seq<byte>)
    requires Listed(addresses, n, lo, Val(ip) - 1) && |ip| == n && Val(ip) > lo
    ensures Listed(addresses + [ip], n, lo, Val(ip))
  {
  }

  lemma BroadcastByValue(a: seq<byte>, b: seq<byte>)
    requires |a| == |b|
    ensures a == b <==> Val(a) == Val(b)
  {
    if Val(a) == Val(b) {
      ValInjective(a, b);
    }
  }

  lemma ListedIffBetween(addresses: seq<seq<byte>>, n: nat, lo: nat, hi: nat)
    requires Listed(addresses, n, lo, hi - 1)
    ensures forall ip: seq<byte> | |ip| == n :: ip in addresses <==> lo < Val(ip) < hi
  {
    forall ip: seq<byte> | |ip| == n ensures ip in addresses <==> lo < Val(ip) < hi {
      if lo < Val(ip) < hi {
        ValInjective(ip, addresses[Val(ip) - lo - 1]);
      }
    }
  }

  /** The k-th address after the network's first. */
  function Walk(ip: seq<byte>, k: nat): (r: seq<byte>)
    ensures |r| == |ip|
  {
    if k == 0 then ip else Next(Walk(ip, k - 1))
  }

  lemma {:induction false} WalkInside(net: seq<byte>, p: nat, k: nat)
    requires 1 <= p <= 8 * |net| && Mask(net, p) == net && k < Size(|net|, p)
    ensures Contains(net, p, Walk(net, k)) && Val(Walk(net, k)) == Val(net) + k
  {
    if k == 0 {
      ContainsIsBlock(net, p, net);
    } else {
      WalkInside(net, p, k - 1);
      StepInNetwork(net, p, Walk(net, k - 1));
    }
  }

  lemma LeavesAtEnd(net: seq<byte>, p: nat)
    requires 1 <= p <= 8 * |net| && Mask(net, p) == net
    ensures !Contains(net, p, Walk(net, Size(|net|, p)))
  {
    var last := Size(|net|, p) - 1;
    WalkInside(net, p, last);
    StepInNetwork(net, p, Walk(net, last));
    assert Walk(net, last + 1) == Next(Walk(net, last));
  }

  lemma ZeroContainsAll(net: seq<byte>, ip: seq<byte>)
    requires |net| == |ip|
    ensures Contains(net, 0, ip)
  {
    forall i | 0 <= i < |ip| ensures MaskByte(net[i], OnesAt(0, i)) == MaskByte(ip[i], OnesAt(0, i)) {
      MaskBounds(net[i], 0);
      MaskBounds(ip[i], 0);
      EightPowers(0);
    }
  }

  /** The walk ever leaves the network, so that the enumeration ends, if and only if the prefix
      is not empty: a /0 network is walked forever. */
  lemma {:induction false} LeavesIffPrefix(net: seq<byte>, p: nat)
    requires p <= 8 * |net| && Mask(net, p) == net
    ensures (exists k: nat :: !Contains(net, p, Walk(net, k))) <==> p >= 1
  {
    if p >= 1 {
      LeavesAtEnd(net, p);
    } else {
      forall k: nat ensures Contains(net, 0, Walk(net, k)) {
        ZeroContainsAll(net, Walk(net, k));
      }
    }
  }

  /** The most significant byte comes first. */
  lemma ByteOrder()
    ensures Next([192, 168, 1, 255]) == [192, 168, 2, 0]
    ensures Mask([192, 168, 17, 5], 20) == [192, 168, 16, 0]
    ensures Broadcast([192, 168, 17, 5], 20) == [192, 168, 31, 255]
  {
    var ip: seq<byte> := [192, 168, 1, 255];
    assert ip[..3] == [192, 168, 1];
    assert Next([192, 168, 1]) == [192, 168, 2];
    EightPowers(8);
    EightPowers(4);
    EightPowers(0);
  }
}
