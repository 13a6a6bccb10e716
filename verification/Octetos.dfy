/** Bytes, and numbers in a fixed count of bytes with the small end first. */
module Octetos {
  type byte = x: int | 0 <= x < 256

  type Bytes = seq<byte>

  function Pot256(k: nat): (p: nat)
    ensures p >= 1
  {
    if k == 0 then 1 else 256 * Pot256(k - 1)
  }

  const DOS_A_LA_32 := 4294967296

  const DOS_A_LA_56 := 72057594037927936

  const DOS_A_LA_64 := 18446744073709551616

  lemma Potencias()
    ensures Pot256(2) == 65536 && Pot256(4) == DOS_A_LA_32
    ensures Pot256(7) == DOS_A_LA_56 && Pot256(8) == DOS_A_LA_64
  {
    assert Pot256(2) == 65536 && Pot256(4) == DOS_A_LA_32 && Pot256(6) == 281474976710656;
  }

  /** `to_le_bytes` of a number that fits `k` bytes. */
  function LE(n: nat, k: nat): (r: Bytes)
    ensures |r| == k
  {
    if k == 0 then [] else [n % 256] + LE(n / 256, k - 1)
  }

  function DeLE(s: Bytes): nat {
    if s == [] then 0 else s[0] + 256 * DeLE(s[1..])
  }

  lemma {:induction false} DeLEAcotado(s: Bytes)
    ensures DeLE(s) < Pot256(|s|)
  {
    if s != [] {
      DeLEAcotado(s[1..]);
    }
  }

  lemma {:induction false} DeLEVuelve(n: nat, k: nat)
    requires n < Pot256(k)
    ensures DeLE(LE(n, k)) == n
  {
    if k > 0 {
      DeLEVuelve(n / 256, k - 1);
      assert LE(n, k)[1..] == LE(n / 256, k - 1);
    }
  }

  lemma {:induction false} LEVuelve(s: Bytes)
    ensures LE(DeLE(s), |s|) == s
  {
    if s != [] {
      LEVuelve(s[1..]);
      var n := DeLE(s);
      assert n % 256 == s[0] && n / 256 == DeLE(s[1..]);
    }
  }

  lemma {:induction false} LEDeCero(k: nat)
    ensures DeLE(Ceros(k)) == 0
  {
    if k > 0 {
      LEDeCero(k - 1);
      assert Ceros(k)[1..] == Ceros(k - 1);
    }
  }

  function Ceros(k: nat): (r: Bytes)
    ensures |r| == k
    ensures forall i | 0 <= i < k :: r[i] == 0
  {
    seq(k, _ => 0)
  }

  predicate SinNul(s: Bytes) { forall i | 0 <= i < |s| :: s[i] != 0 }

  /** Bytes before the first NUL. */
  function HastaNul(s: Bytes): (r: Bytes)
    ensures |r| <= |s| && r == s[..|r|]
    ensures |r| < |s| ==> s[|r|] == 0
    ensures forall i | 0 <= i < |r| :: r[i] != 0
  {
    if s == [] || s[0] == 0 then [] else [s[0]] + HastaNul(s[1..])
  }

  lemma {:induction false} EsHastaNul(s: Bytes, r: Bytes)
    requires r <= s && SinNul(r) && (|r| < |s| ==> s[|r|] == 0)
    ensures HastaNul(s) == r
  {
    if r != [] {
      assert s[..|r|] == r && r[0] == s[0] != 0;
      assert s[1..][..|r| - 1] == r[1..];
      EsHastaNul(s[1..], r[1..]);
    }
  }
}
