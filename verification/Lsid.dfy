/** The process identifier, packed by writing its fields in binary one after the
    other and reading the result back as one number (obtains_lsid.py). */
module Lsid {
  import opened Wrappers

  type Bits = seq<bool>

  function Pow2(k: nat): (p: nat)
    ensures p > 0
  {
    if k == 0 then 1 else 2 * Pow2(k - 1)
  }

  /** The binary digits of a number, without leading zeros. */
  function Bin(n: nat): Bits {
    if n < 2 then [n == 1] else Bin(n / 2) + [n % 2 == 1]
  }

  function Zeros(k: nat): (z: Bits)
    ensures |z| == k
  {
    if k == 0 then [] else [false] + Zeros(k - 1)
  }

  /** Padded on the left to `width` digits; a longer number keeps all of them. */
  function RJust(s: Bits, width: nat): Bits {
    if |s| < width then Zeros(width - |s|) + s else s
  }

  function Value(s: Bits): nat {
    if s == [] then 0 else 2 * Value(s[..|s| - 1]) + (if s[|s| - 1] then 1 else 0)
  }

  datatype Fields = Fields(kind: int, cluster: int, seed: int, process: int, node: int)

  /** Negative numbers print a sign and a base mark, which the reading back refuses. */
  function GenerateLsid(f: Fields): Option<nat> {
    if f.kind < 0 || f.cluster < 0 || f.seed < 0 || f.process < 0 || f.node < 0 then None
    else Some(Packed(f.kind, f.cluster, f.seed, f.process, f.node))
  }

  function Packed(kind: nat, cluster: nat, seed: nat, process: nat, node: nat): nat {
    Value(HighBits(kind, cluster, seed) + RJust(Bin(process), 4) + [false, false] + RJust(Bin(node), 8))
  }

  function HighBits(kind: nat, cluster: nat, seed: nat): Bits {
    RJust(Bin(kind), 2) + RJust(Bin(cluster), 8) + RJust(Bin(seed), 8)
  }

  lemma {:induction false} ValueConcat(a: Bits, b: Bits)
    ensures Value(a + b) == Value(a) * Pow2(|b|) + Value(b)
  {
    if b == [] {
      assert a + b == a;
    } else {
      var n := |b| - 1;
      ValueConcat(a, b[..n]);
      assert (a + b)[..|a + b| - 1] == a + b[..n];
      assert Value(a) * Pow2(|b|) == 2 * (Value(a) * Pow2(n));
    }
  }

  lemma {:induction false} ValueOfBin(n: nat)
    ensures Value(Bin(n)) == n
  {
    if n >= 2 {
      ValueOfBin(n / 2);
      assert Bin(n)[..|Bin(n)| - 1] == Bin(n / 2);
    } else {
      assert [n == 1][..0] == [];
    }
  }

  lemma {:induction false} LeadingZero(s: Bits)
    ensures Value([false] + s) == Value(s)
  {
    if s != [] {
      LeadingZero(s[..|s| - 1]);
      assert ([false] + s)[..|s|] == [false] + s[..|s| - 1];
    } else {
      assert ([false] + s)[..0] == [];
    }
  }

  lemma {:induction false} ZerosValue(k: nat, s: Bits)
    ensures Value(Zeros(k) + s) == Value(s)
  {
    if k == 0 {
      assert Zeros(k) + s == s;
    } else {
      ZerosValue(k - 1, s);
      assert Zeros(k) + s == [false] + (Zeros(k - 1) + s);
      LeadingZero(Zeros(k - 1) + s);
    }
  }

  lemma {:induction false} BinWidth(n: nat, width: nat)
    requires width > 0 && n < Pow2(width)
    ensures |Bin(n)| <= width
  {
    if n >= 2 {
      assert width > 1;
      BinWidth(n / 2, width - 1);
    }
  }

  /** A field that fits occupies exactly its width and keeps its value. */
  lemma FieldFits(n: nat, width: nat)
    requires width > 0
    ensures Value(RJust(Bin(n), width)) == n
    ensures n < Pow2(width) ==> |RJust(Bin(n), width)| == width
  {
    ValueOfBin(n);
    if |Bin(n)| < width {
      ZerosValue(width - |Bin(n)|, Bin(n));
    }
    if n < Pow2(width) {
      BinWidth(n, width);
    }
  }

  lemma Powers()
    ensures Pow2(2) == 4 && Pow2(4) == 16 && Pow2(8) == 256
  {
    assert Pow2(4) == 4 * Pow2(2);
    assert Pow2(8) == 4 * Pow2(6) == 16 * Pow2(4);
  }

  predicate InRange(f: Fields) {
    0 <= f.kind && 0 <= f.cluster < 256 && 0 <= f.seed < 256 && 0 <= f.process < 16 && 0 <= f.node < 256
  }

  lemma PushField(prefix: Bits, n: nat, width: nat)
    requires width > 0 && n < Pow2(width)
    ensures Value(prefix + RJust(Bin(n), width)) == Value(prefix) * Pow2(width) + n
  {
    FieldFits(n, width);
    ValueConcat(prefix, RJust(Bin(n), width));
  }

  lemma PushByte(prefix: Bits, n: nat)
    requires n < 256
    ensures Value(prefix + RJust(Bin(n), 8)) == Value(prefix) * 256 + n
  {
    Powers();
    PushField(prefix, n, 8);
  }

  lemma PushNibble(prefix: Bits, n: nat)
    requires n < 16
    ensures Value(prefix + RJust(Bin(n), 4)) == Value(prefix) * 16 + n
  {
    Powers();
    PushField(prefix, n, 4);
  }

  lemma PushGap(prefix: Bits)
    ensures Value(prefix + [false, false]) == Value(prefix) * 4
  {
    Powers();
    ValueConcat(prefix, [false, false]);
    assert [false, false] == Zeros(2) + [];
    ZerosValue(2, []);
  }

  lemma HighValue(kind: nat, cluster: nat, seed: nat)
    requires cluster < 256 && seed < 256
    ensures Value(HighBits(kind, cluster, seed)) == kind * 0x1_0000 + cluster * 0x100 + seed
  {
    var t := RJust(Bin(kind), 2);
    FieldFits(kind, 2);
    PushByte(t, cluster);
    PushByte(t + RJust(Bin(cluster), 8), seed);
  }

  lemma LowValue(high: Bits, process: nat, node: nat)
    requires process < 16 && node < 256
    ensures Value(high + RJust(Bin(process), 4) + [false, false] + RJust(Bin(node), 8))
            == Value(high) * 0x4000 + process * 0x400 + node
  {
    var p := high + RJust(Bin(process), 4);
    PushNibble(high, process);
    PushGap(p);
    PushByte(p + [false, false], node);
  }

  /** Fields that fit stand at bits 30, 22, 14, 10 and 0, with two zero bits at 8. */
  function Positional(f: Fields): int {
    f.kind * 0x4000_0000 + f.cluster * 0x40_0000 + f.seed * 0x4000 + f.process * 0x400 + f.node
  }

  lemma LsidIsPositional(f: Fields)
    requires InRange(f)
    ensures Positional(f) >= 0 && GenerateLsid(f) == Some(Positional(f))
  {
    NaturalLsid(f.kind, f.cluster, f.seed, f.process, f.node);
  }

  lemma NaturalLsid(t: nat, c: nat, s: nat, p: nat, n: nat)
    requires c < 256 && s < 256 && p < 16 && n < 256
    ensures Packed(t, c, s, p, n)
            == t * 0x4000_0000 + c * 0x40_0000 + s * 0x4000 + p * 0x400 + n
  {
    HighValue(t, c, s);
    LowValue(HighBits(t, c, s), p, n);
    Positions(t, c, s, p, n);
  }

  lemma Positions(t: nat, c: nat, s: nat, p: nat, n: nat)
    ensures (t * 0x1_0000 + c * 0x100 + s) * 0x4000 + p * 0x400 + n
            == t * 0x4000_0000 + c * 0x40_0000 + s * 0x4000 + p * 0x400 + n
  {
  }

  function Decode(v: nat): Fields {
    Fields(v / 0x4000_0000, v / 0x40_0000 % 256, v / 0x4000 % 256, v / 0x400 % 16, v % 256)
  }

  lemma DecodePositional(f: Fields)
    requires InRange(f)
    ensures Positional(f) >= 0 && Decode(Positional(f)) == f && Positional(f) / 0x100 % 4 == 0
  {
    var t, c, s, p, n := f.kind, f.cluster, f.seed, f.process, f.node;
    var v := t * 0x4000_0000 + c * 0x40_0000 + s * 0x4000 + p * 0x400 + n;
    var process := (t * 256 + c) * 256 + s;
    DivMod(v, process * 64 + p * 4, n, 256);
    DivMod(v, process * 16 + p, n, 1024);
    DivMod(process * 16 + p, process, p, 16);
    DivMod(v, process, p * 1024 + n, 0x4000);
    DivMod(process, t * 256 + c, s, 256);
    DivMod(v, t * 256 + c, s * 0x4000 + p * 1024 + n, 0x40_0000);
    DivMod(t * 256 + c, t, c, 256);
    DivMod(v, t, c * 0x40_0000 + s * 0x4000 + p * 1024 + n, 0x4000_0000);
    DivMod(process * 64 + p * 4, process * 16 + p, 0, 4);
  }

  lemma DivMod(v: nat, quotient: nat, rest: nat, m: nat)
    requires m > 0 && rest < m && v == quotient * m + rest
    ensures v / m == quotient && v % m == rest
  {
    assert (v / m - quotient) * m == rest - v % m;
    SmallMultiple(v / m - quotient, m);
  }

  lemma SmallMultiple(x: int, m: int)
    requires m > 0 && -m < x * m < m
    ensures x == 0
  {
  }

  /** The identifier gives its fields back exactly if they fit, and fits 32 bits exactly
      if the kind has two bits at most. */
  lemma LsidDecodes(f: Fields)
    ensures GenerateLsid(f).Some? && Decode(GenerateLsid(f).value) == f <==> InRange(f)
    ensures InRange(f) ==> (GenerateLsid(f).value < 0x1_0000_0000 <==> f.kind < 4)
  {
    if InRange(f) {
      LsidRoundTrip(f);
      LsidWidth(f);
    } else if GenerateLsid(f).Some? {
      DecodedOnly(GenerateLsid(f).value, f);
    }
  }

  lemma LsidRoundTrip(f: Fields)
    requires InRange(f)
    ensures GenerateLsid(f).Some? && Decode(GenerateLsid(f).value) == f
  {
    assert Positional(f) >= 0 && Decode(Positional(f)) == f by {
      DecodePositional(f);
    }
    assert GenerateLsid(f) == Some(Positional(f)) by {
      LsidIsPositional(f);
    }
  }

  lemma LsidWidth(f: Fields)
    requires InRange(f)
    ensures GenerateLsid(f).Some? && (GenerateLsid(f).value < 0x1_0000_0000 <==> f.kind < 4)
  {
    LsidIsPositional(f);
    Width(f.kind, f.cluster, f.seed, f.process, f.node);
  }

  lemma Width(t: nat, c: nat, s: nat, p: nat, n: nat)
    requires c < 256 && s < 256 && p < 16 && n < 256
    ensures t * 0x4000_0000 + c * 0x40_0000 + s * 0x4000 + p * 0x400 + n < 0x1_0000_0000 <==> t < 4
  {
  }

  lemma DecodedOnly(v: nat, f: Fields)
    requires !InRange(f)
    ensures Decode(v) != f
  {
  }

  /** A cluster number that needs nine bits moves into the field before it. */
  lemma ClusterOverflows()
    ensures GenerateLsid(Fields(0, 256, 0, 0, 0)).Some?
    ensures Decode(GenerateLsid(Fields(0, 256, 0, 0, 0)).value) != Fields(0, 256, 0, 0, 0)
  {
    LsidDecodes(Fields(0, 256, 0, 0, 0));
  }
}
