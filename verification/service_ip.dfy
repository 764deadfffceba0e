/**
 NthServiceSubnetIP (pkg/apis/kubeone/helpers.go): adding a machine integer to an IP address byte by
 byte, with a running carry.
 */
module ServiceIp {
  import opened MachineInts

  newtype byte = x: int | 0 <= x < 256

  function Pow256(k: nat): (p: int)
    ensures p > 0
  {
    if k == 0 then 1 else 256 * Pow256(k - 1)
  }

  /** The big-endian value of an address. */
  function Value(bytes: seq<byte>): (v: int)
    ensures 0 <= v < Pow256(|bytes|)
  {
    if bytes == [] then 0
    else Value(bytes[..|bytes| - 1]) * 256 + bytes[|bytes| - 1] as int
  }

  lemma ShiftByte(b: int, p: int, v: int)
    ensures (b * p + v) * 256 == b * (256 * p) + v * 256
  {
    assert (b * p) * 256 == b * (256 * p);
  }

  lemma {:induction false} ValueCons(b: byte, rest: seq<byte>)
    ensures Value([b] + rest) == b as int * Pow256(|rest|) + Value(rest)
  {
    var s := [b] + rest;
    if rest == [] {
      assert s[..0] == [];
    } else {
      var n := |rest| - 1;
      ValueCons(b, rest[..n]);
      assert s[..|s| - 1] == [b] + rest[..n];
      ShiftByte(b as int, Pow256(n), Value(rest[..n]));
      assert Pow256(|rest|) == 256 * Pow256(n);
    }
  }

  /** The integer really added: `n`, unless adding the last byte to it already wraps around. */
  function Added(ip: seq<byte>, n: int): int
  {
    if ip == [] then n else Wrap64(ip[|ip| - 1] as int + n) - ip[|ip| - 1] as int
  }

  /** The bytes done so far and the carry make up the same bytes of the address plus what is added. */
  ghost predicate Balanced(low: seq<byte>, rest: seq<byte>, carry: int, total: int)
  {
    |low| == |rest| && Value(low) + carry * Pow256(|rest|) == Value(rest) + total
  }

  /** One byte of the addition: low byte out, the rest carried (the shift rounds down). */
  lemma CarryStep(b: byte, carry: int, out: byte, next: int, low: seq<byte>, rest: seq<byte>, total: int)
    requires b as int + carry == 256 * next + out as int && Balanced(low, rest, carry, total)
    ensures Balanced([out] + low, [b] + rest, next, total)
  {
    ValueCons(out, low);
    ValueCons(b, rest);
    CarryScaled(b as int, carry, out as int, next, Pow256(|rest|));
    assert Pow256(|[b] + rest|) == 256 * Pow256(|rest|);
  }

  lemma CarryScaled(b: int, carry: int, out: int, next: int, p: int)
    requires b + carry == 256 * next + out
    ensures b * p + carry * p == next * (256 * p) + out * p
  {
    assert (b + carry) * p == b * p + carry * p;
    assert (256 * next + out) * p == (256 * next) * p + out * p;
    assert (256 * next) * p == next * (256 * p);
  }

  lemma FirstStep(b: byte, val: int, out: byte, next: int)
    requires val == 256 * next + out as int
    ensures Balanced([out], [b], next, val - b as int)
  {
    ValueCons(out, []);
    ValueCons(b, []);
    assert [out] + [] == [out] && [b] + [] == [b] && Pow256(1) == 256;
  }

  lemma SmallMultiple(d: int, m: int)
    requires m > 0 && -m < d * m < m
    ensures d == 0
  {
  }

  lemma Remainder(x: int, c: int, m: int, y: int)
    requires m > 0 && 0 <= x < m && x + c * m == y
    ensures x == y % m
  {
    var q, r := y / m, y % m;
    assert y == q * m + r;
    assert (q - c) * m == q * m - c * m;
    SmallMultiple(q - c, m);
  }

  lemma NoWrap(x: int)
    requires Int64(x)
    ensures Wrap64(x) == x
  {
    assert (x + TWO63) % TWO64 == x + TWO63;
  }

  /** The low byte of a wrapped sum and what is left of it. */
  method AddByte(b: byte, carry: int) returns (out: byte, next: int)
    ensures Wrap64(b as int + carry) == 256 * next + out as int
    ensures -TWO63 <= 256 * next < TWO63
  {
    var val := Wrap64(b as int + carry);
    out := (val % 256) as byte;
    next := val / 256;
  }

  method NthServiceSubnetIP(ip: seq<byte>, n: int) returns (result: array<byte>)
    requires Int64(n)
    ensures result.Length == |ip|
    ensures Value(result[..]) == (Value(ip) + Added(ip, n)) % Pow256(|ip|)
  {
    result := new byte[|ip|](_ => 0);
    var carry := n;
    var i := |ip|;
    while i > 0
      invariant 0 <= i <= |ip| && result.Length == |ip|
      invariant if i == |ip| then carry == n else -TWO63 <= 256 * carry < TWO63
      invariant i < |ip| ==> Balanced(result[i..], ip[i..], carry, Added(ip, n))
    {
      ghost var low, rest, was := result[i..], ip[i..], carry;
      i := i - 1;
      ghost var val := Wrap64(ip[i] as int + carry);
      var out, next := AddByte(ip[i], carry);
      result[i] := out;
      carry := next;
      assert result[i..] == [result[i]] + low && ip[i..] == [ip[i]] + rest;
      if i == |ip| - 1 {
        assert low == [] && rest == [] && [result[i]] + low == [result[i]] && [ip[i]] + rest == [ip[i]];
        FirstStep(ip[i], val, result[i], carry);
      } else {
        NoWrap(ip[i] as int + was);
        CarryStep(ip[i], was, result[i], carry, low, rest, Added(ip, n));
      }
    }
    assert result[0..] == result[..] && ip[0..] == ip;
    if ip != [] {
      Remainder(Value(result[..]), carry, Pow256(|ip|), Value(ip) + Added(ip, n));
    }
  }

  // ----- when that is the address plus n -----

  /** The address asked for. */
  predicate IsNth(ip: seq<byte>, n: int, v: int)
  {
    v == (Value(ip) + n) % Pow256(|ip|)
  }

  lemma AddedExactly(ip: seq<byte>, n: int)
    requires Int64(n) && ip != []
    ensures ip[|ip| - 1] as int + n < TWO63 ==> Added(ip, n) == n
    ensures ip[|ip| - 1] as int + n >= TWO63 ==> Added(ip, n) == n - TWO64
  {
    var x := ip[|ip| - 1] as int + n;
    if x < TWO63 {
      assert (x + TWO63) % TWO64 == x + TWO63;
    } else {
      assert (x + TWO63) % TWO64 == x + TWO63 - TWO64;
    }
  }

  lemma Pow256Values()
    ensures Pow256(4) == 0x1_0000_0000 && Pow256(8) == TWO64
    ensures Pow256(16) == 0x1_0000_0000_0000_0000_0000_0000_0000_0000
  {
    assert Pow256(2) == 0x1_0000 && Pow256(4) == 0x1_0000_0000;
    assert Pow256(6) == 0x1_0000_0000_0000 && Pow256(8) == TWO64;
    assert Pow256(10) == 0x1_0000_0000_0000_0000_0000 && Pow256(12) == 0x1_0000_0000_0000_0000_0000_0000;
    assert Pow256(14) == 0x1_0000_0000_0000_0000_0000_0000_0000;
    assert Pow256(16) == 0x1_0000_0000_0000_0000_0000_0000_0000_0000;
  }

  /** For an IPv4 address the result is the n-th address for every machine integer, wrapped or not. */
  lemma Ipv4Always(ip: seq<byte>, n: int)
    requires Int64(n) && |ip| == 4
    ensures IsNth(ip, n, (Value(ip) + Added(ip, n)) % Pow256(4))
  {
    AddedExactly(ip, n);
    Pow256Values();
    var y, m := Value(ip) + n, Pow256(4);
    assert TWO64 == 0x1_0000_0000 * m;
    assert (y - TWO64) % m == y % m;
  }

  /** For an IPv6 address it is exactly when adding the last byte does not overflow. */
  lemma Ipv6Exactly(ip: seq<byte>, n: int)
    requires Int64(n) && |ip| == 16
    ensures IsNth(ip, n, (Value(ip) + Added(ip, n)) % Pow256(16)) <==> ip[15] as int + n < TWO63
  {
    AddedExactly(ip, n);
    Pow256Values();
  }
}
