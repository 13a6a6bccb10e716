/** Files behind a gate that moves seven bytes a call: the kernel's slot and `archivo.rs` over it. */
module Puerta {
  import opened Octetos

  function Menor(a: nat, b: nat): nat { if a <= b then a else b }

  /** A word of the gate: up to seven bytes from the low end, and how many they are in the top byte. */
  function Palabra(bytes: Bytes): nat
    requires |bytes| <= 7
  {
    DeLE(bytes + Ceros(7 - |bytes|) + [|bytes|])
  }

  /** The count of a word: `v >> 56`. */
  function Cuenta(v: nat): nat { v / DOS_A_LA_56 }

  lemma UnByteMas(a: nat, p: nat, x: nat)
    ensures 256 * (a + p * x) == 256 * a + 256 * p * x
  {
  }

  lemma {:induction false} ByteAlto(s: Bytes)
    requires |s| > 0
    ensures DeLE(s) == DeLE(s[..|s| - 1]) + Pot256(|s| - 1) * s[|s| - 1]
  {
    if |s| > 1 {
      var t := s[1..];
      ByteAlto(t);
      var p, x, y := Pot256(|t| - 1), s[|s| - 1], s[..|s| - 1];
      assert y[1..] == t[..|t| - 1] && y[0] == s[0];
      assert DeLE(s) == s[0] + 256 * DeLE(t) && DeLE(y) == s[0] + 256 * DeLE(y[1..]);
      UnByteMas(DeLE(y[1..]), p, x);
    }
  }

  /** Nothing is lost in a word: the count, the bytes, and it fits 64 bits. */
  lemma PalabraVuelve(bytes: Bytes)
    requires |bytes| <= 7
    ensures var v := Palabra(bytes);
            v < DOS_A_LA_64 && Cuenta(v) == |bytes| && LE(v, 8)[..|bytes|] == bytes && LE(v, 8)[7] == |bytes|
  {
    hide DeLE, LE, Pot256;
    var s := bytes + Ceros(7 - |bytes|) + [|bytes|];
    LEVuelve(s);
    DeLEAcotado(s);
    Potencias();
    ByteAlto(s);
    assert s[7] == |bytes|;
    DeLEAcotado(s[..7]);
    assert s[..|bytes|] == bytes;
  }

  // -- The kernel's side ---------------------------------------------------------------------------------

  class Ranura {
    var imagen: Bytes
    var cursor: nat
    var desborde: bool

    ghost predicate Valid()
      reads this
    {
      cursor <= |imagen|
    }

    constructor (imagen: Bytes)
      ensures Valid() && this.imagen == imagen && cursor == 0 && !desborde
    {
      this.imagen, cursor, desborde := imagen, 0, false;
    }

    /** `read`: the next seven bytes, or those that are left. */
    method OpLeer() returns (v: nat)
      requires Valid()
      modifies this`cursor
      ensures Valid() && cursor == Menor(old(cursor) + 7, |imagen|)
      ensures v == Palabra(imagen[old(cursor)..cursor])
    {
      var w: Bytes := [];
      while |w| < 7 && cursor < |imagen|
        invariant Valid() && |w| <= 7
        invariant cursor == old(cursor) + |w| && w == imagen[old(cursor)..cursor]
        decreases |imagen| - cursor
      {
        w := w + [imagen[cursor]];
        cursor := cursor + 1;
      }
      v := DeLE(w + Ceros(7 - |w|) + [|w|]);
    }

    /** `SALTAR`: to an absolute position, clamped to the size. */
    method OpSaltar(pos: nat) returns (donde: nat)
      modifies this`cursor
      ensures Valid() && cursor == donde == Menor(pos, |imagen|)
    {
      cursor := Menor(pos, |imagen|);
      return cursor;
    }

    /** `write`: the bytes of a word, one by one, until there is no memory left to grow into. */
    method OpEscribir(v: nat) returns (puestos: nat)
      requires v < DOS_A_LA_64
      modifies this`imagen, this`desborde
      ensures puestos <= Menor(Cuenta(v), 7)
      ensures imagen == old(imagen) + LE(v, 8)[..puestos]
      ensures desborde == (old(desborde) || puestos < Menor(Cuenta(v), 7))
    {
      var n := Menor(Cuenta(v), 7);
      var bytes := LE(v, 8);
      puestos := 0;
      while puestos < n
        invariant puestos <= n && imagen == old(imagen) + bytes[..puestos]
        invariant desborde == old(desborde)
      {
        if * {
          desborde := true;
          break;
        }
        assert bytes[..puestos + 1] == bytes[..puestos] + [bytes[puestos]];
        imagen := imagen + [bytes[puestos]];
        puestos := puestos + 1;
      }
    }
  }

  // -- The program's side -----------------------------------------------------------------------------------

  /** Where a read of `n` bytes leaves the cursor: whole steps of seven, whatever was asked. */
  function Avanza(c: nat, n: nat, total: nat): nat { Menor(c + (n + 6) / 7 * 7, total) }

  /** What a read of `n` bytes from `c` gives. */
  function Desde(imagen: Bytes, c: nat, n: nat): Bytes
    requires c <= |imagen|
  {
    imagen[c..Menor(c + n, |imagen|)]
  }

  /** The next read goes on where this one ended exactly when it asked for a multiple of seven or reached
      the end of the file. */
  lemma Contigua(c: nat, n: nat, total: nat)
    requires c <= total
    ensures Avanza(c, n, total) == Menor(c + n, total) <==> n % 7 == 0 || c + n >= total
  {
  }

  lemma SinPasos(c: nat, total: nat)
    requires c <= total
    ensures Avanza(c, 0, total) == c
  {
  }

  lemma UnPasoMas(c: nat, p: nat, largo: nat, total: nat)
    requires c + p <= total && p < largo && c + p == Avanza(c, p, total)
    ensures Menor(c + p + 7, total) == Avanza(c, Menor(largo, p + Menor(7, total - (c + p))), total)
    ensures c + p == total ==> Avanza(c, largo, total) == total
  {
  }

  class Archivo {
    const r: Ranura
    const escribe: bool

    constructor (r: Ranura, escribe: bool)
      ensures this.r == r && this.escribe == escribe
    {
      this.r, this.escribe := r, escribe;
    }

    /** The inner loop of `read`: the bytes of one word, as far as they fit. */
    static method Vuelca(dst: array<byte>, desde: nat, largo: nat, b: Bytes) returns (puestos: nat)
      requires desde <= largo <= dst.Length
      modifies dst
      ensures puestos == Menor(largo, desde + |b|)
      ensures forall i | 0 <= i < dst.Length ::
                dst[i] == if desde <= i < puestos then b[i - desde] else old(dst[i])
    {
      puestos := desde;
      var k := 0;
      while k < |b|
        invariant k <= |b| && puestos == Menor(largo, desde + k)
        invariant forall i | 0 <= i < dst.Length ::
                    dst[i] == if desde <= i < puestos then b[i - desde] else old(dst[i])
      {
        if puestos < largo {
          dst[puestos] := b[k];
          puestos := puestos + 1;
        }
        k := k + 1;
      }
    }

    /** The outer loop of `read`. */
    method Llena(dst: array<byte>, largo: nat) returns (puestos: nat)
      requires r.Valid() && largo <= dst.Length
      modifies dst, r`cursor
      ensures r.Valid() && r.cursor == Avanza(old(r.cursor), largo, |r.imagen|)
      ensures puestos == Menor(largo, |r.imagen| - old(r.cursor))
      ensures forall i | 0 <= i < dst.Length ::
                dst[i] == if i < puestos then r.imagen[old(r.cursor) + i] else old(dst[i])
    {
      hide Palabra, LE, DeLE, Cuenta, Avanza;
      puestos := 0;
      ghost var c := r.cursor;
      SinPasos(c, |r.imagen|);
      while puestos < largo
        invariant puestos <= largo && r.Valid()
        invariant c <= r.cursor && puestos == Menor(largo, r.cursor - c)
        invariant forall i | 0 <= i < dst.Length ::
                    dst[i] == if i < puestos then r.imagen[c + i] else old(dst[i])
        invariant r.cursor == Avanza(c, puestos, |r.imagen|)
        decreases largo - puestos
      {
        ghost var c0 := r.cursor;
        var v := r.OpLeer();
        PalabraVuelve(r.imagen[c0..r.cursor]);
        UnPasoMas(c, puestos, largo, |r.imagen|);
        var n := Cuenta(v);
        if n == 0 {
          break;
        }
        var b := LE(v, 8)[..Menor(n, 7)];
        assert b == r.imagen[c0..r.cursor];
        puestos := Vuelca(dst, puestos, largo, b);
      }
    }

    /** `read` into the first `largo` bytes of `dst`. */
    method Read(dst: array<byte>, largo: nat) returns (puestos: nat)
      requires r.Valid() && largo <= dst.Length
      modifies dst, r`cursor
      ensures r.Valid()
      ensures escribe ==> puestos == 0 && dst[..] == old(dst[..]) && r.cursor == old(r.cursor)
      ensures !escribe ==>
                && puestos <= largo && Desde(r.imagen, old(r.cursor), largo) == dst[..puestos]
                && puestos == |Desde(r.imagen, old(r.cursor), largo)|
                && dst[puestos..] == old(dst[..])[puestos..]
                && r.cursor == Avanza(old(r.cursor), largo, |r.imagen|)
    {
      hide Avanza;
      if escribe {
        return 0;
      }
      puestos := Llena(dst, largo);
    }

    /** `write`: seven bytes a call. What it returns is the length of the prefix that was stored. */
    method Write(datos: Bytes) returns (puestos: nat)
      modifies r`imagen, r`desborde
      ensures escribe ==> puestos <= |datos| && r.imagen == old(r.imagen) + datos[..puestos]
      ensures escribe ==> r.desborde == (old(r.desborde) || puestos < |datos|)
      ensures !escribe ==> puestos == 0 && r.imagen == old(r.imagen) && r.desborde == old(r.desborde)
    {
      if !escribe {
        return 0;
      }
      puestos := 0;
      var i := 0;
      while i < |datos|
        invariant puestos == i <= |datos|
        invariant r.imagen == old(r.imagen) + datos[..i] && r.desborde == old(r.desborde)
      {
        var j := Menor(i + 7, |datos|);
        var trozo := datos[i..j];
        var w := trozo + Ceros(7 - |trozo|) + [|trozo|];
        PalabraVuelve(trozo);
        var n := r.OpEscribir(DeLE(w));
        assert LE(Palabra(trozo), 8)[..n] == trozo[..n];
        assert datos[..i + n] == datos[..i] + trozo[..n];
        puestos := puestos + n;
        if n < |trozo| {
          break;
        }
        i := j;
      }
    }

    /** `saltar`. */
    method Saltar(pos: nat) returns (donde: nat)
      requires r.Valid()
      modifies r`cursor
      ensures r.Valid()
      ensures escribe ==> donde == 0 && r.cursor == old(r.cursor)
      ensures !escribe ==> donde == r.cursor == Menor(pos, |r.imagen|)
    {
      if escribe {
        return 0;
      }
      donde := r.OpSaltar(pos);
    }
  }
}
