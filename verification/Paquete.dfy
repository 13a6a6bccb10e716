/** The resources inside a `.bex`: `paquete.rs`, as a pure lookup on the bytes of the image and as the
    program that moves the file's cursor. */
module Paquete {
  import opened Octetos
  import opened Puerta
  import opened Textos

  const BEF_MAGIC := 0x31464542
  const BEF_CABECERA := 48
  const BEF_ENTRADA := 48
  const SECCION_RECURSOS := 0x0B
  const BRES_MAGIC := 0x53455242
  const BRES_CABECERA := 16
  const BRES_ENTRADA := 64
  const BRES_NOMBRE_MAX := 47

  /** Sums of `u64` in a release build. */
  function Suma(a: nat, b: nat): nat { (a + b) % DOS_A_LA_64 }

  // -- The lookup on the image ---------------------------------------------------------------------------

  /** `n` whole bytes from `pos`; a position past the end is the end. */
  function Tramo(img: Bytes, pos: nat, n: nat): (r: Option<Bytes>)
    ensures r.Some? ==> |r.value| == n
  {
    var p := Menor(pos, |img|);
    if n <= |img| - p then Some(img[p..p + n]) else None
  }

  datatype Seccion = Seccion(off: nat, largo: nat)

  /** The first section of resources from entry `i` on. No entry of that kind reads as an empty one; an
      entry that is not whole is no answer. */
  function BuscaSeccion(img: Bytes, tabla: nat, i: nat, count: nat): Option<Seccion>
    decreases count - i
  {
    if i >= count then Some(Seccion(0, 0))
    else
      match Tramo(img, Suma(tabla, i * BEF_ENTRADA), BEF_ENTRADA)
      case None => None
      case Some(e) =>
        if e[0] == SECCION_RECURSOS then Some(Seccion(DeLE(e[8..16]), DeLE(e[16..24])))
        else BuscaSeccion(img, tabla, i + 1, count)
  }

  /** Where the section of resources begins in the file, and how many there are. */
  datatype Indice = Indice(base: nat, cuantos: nat)

  function IndiceEn(img: Bytes, s: Seccion): Option<Indice> {
    if s.largo == 0 then None
    else
      match Tramo(img, s.off, BRES_CABECERA)
      case None => None
      case Some(idx) => if DeLE(idx[0..4]) == BRES_MAGIC then Some(Indice(s.off, DeLE(idx[4..8]))) else None
  }

  function Montar(img: Bytes): Option<Indice> {
    match Tramo(img, 0, BEF_CABECERA)
    case None => None
    case Some(cab) =>
      if DeLE(cab[0..4]) != BEF_MAGIC then None
      else
        match BuscaSeccion(img, DeLE(cab[32..40]), 0, DeLE(cab[40..44]))
        case None => None
        case Some(s) => IndiceEn(img, s)
  }

  /** Entry `i` of the index. */
  function Entrada(img: Bytes, ix: Indice, i: nat): Option<Bytes> {
    Tramo(img, Suma(ix.base, BRES_CABECERA + i * BRES_ENTRADA), BRES_ENTRADA)
  }

  /** The comparison takes in the NUL, so no name is found by its beginning. */
  predicate Igual(ent: Bytes, nombre: Bytes)
    requires |ent| == BRES_ENTRADA
  {
    |nombre| <= BRES_NOMBRE_MAX && ent[..|nombre|] == nombre && ent[|nombre|] == 0
  }

  datatype Sitio = Sitio(pos: nat, tam: nat)

  function BuscarDesde(img: Bytes, ix: Indice, nombre: Bytes, i: nat): Option<Sitio>
    decreases ix.cuantos - i
  {
    if i >= ix.cuantos then None
    else
      match Entrada(img, ix, i)
      case None => None
      case Some(e) =>
        if Igual(e, nombre) then Some(Sitio(Suma(ix.base, DeLE(e[48..56])), DeLE(e[56..64])))
        else BuscarDesde(img, ix, nombre, i + 1)
  }

  function Buscar(img: Bytes, ix: Indice, nombre: Bytes): Option<Sitio> { BuscarDesde(img, ix, nombre, 0) }

  /** What `leer` brings into a buffer of `n` bytes. */
  function LeerDe(img: Bytes, ix: Indice, nombre: Bytes, n: nat): Bytes {
    match Buscar(img, ix, nombre)
    case None => []
    case Some(s) => Desde(img, Menor(s.pos, |img|), Menor(s.tam, n))
  }

  /** The name of entry `i`: to its first NUL, 47 bytes or the size of the buffer. */
  function NombreDe(img: Bytes, ix: Indice, i: nat, n: nat): Bytes {
    if i >= ix.cuantos || Entrada(img, ix, i).None? then []
    else HastaNul(Entrada(img, ix, i).value[..Menor(BRES_NOMBRE_MAX, n)])
  }

  // -- The program --------------------------------------------------------------------------------------------

  /** `saltar` and then `read` of the whole buffer. */
  method LeeEn(f: Archivo, pos: nat, dst: array<byte>) returns (entero: bool)
    requires f.r.Valid() && !f.escribe
    modifies dst, f.r`cursor
    ensures f.r.Valid()
    ensures entero == Tramo(f.r.imagen, pos, dst.Length).Some?
    ensures entero ==> Tramo(f.r.imagen, pos, dst.Length) == Some(dst[..])
  {
    var donde := f.Saltar(pos);
    var n := f.Read(dst, dst.Length);
    assert dst[..dst.Length] == dst[..];
    return n >= dst.Length;
  }

  class Paquete {
    const f: Archivo
    const base: nat
    const cuantos: nat

    ghost predicate Valid()
      reads f.r
    {
      f.r.Valid() && !f.escribe
    }

    ghost function Ix(): Indice { Indice(base, cuantos) }

    constructor (f: Archivo, base: nat, cuantos: nat)
      ensures this.f == f && this.base == base && this.cuantos == cuantos
    {
      this.f, this.base, this.cuantos := f, base, cuantos;
    }

    /** `nombre`: what it writes in `dst` is the name, and the rest of `dst` stays as it was. */
    method Nombre(i: nat, dst: array<byte>) returns (n: nat)
      requires Valid()
      modifies dst, f.r`cursor
      ensures Valid() && n <= dst.Length
      ensures dst[..n] == NombreDe(f.r.imagen, Ix(), i, dst.Length)
      ensures dst[n..] == old(dst[..])[n..]
    {
      hide Tramo, Suma;
      if i >= cuantos {
        return 0;
      }
      var ent := new byte[BRES_ENTRADA];
      var entero := LeeEn(f, Suma(base, BRES_CABECERA + i * BRES_ENTRADA), ent);
      if !entero {
        return 0;
      }
      n := CopiaNombre(ent[..], dst);
    }

    /** The loop of `nombre`. */
    static method CopiaNombre(e: Bytes, dst: array<byte>) returns (n: nat)
      requires |e| == BRES_ENTRADA
      modifies dst
      ensures n <= dst.Length && dst[..n] == HastaNul(e[..Menor(BRES_NOMBRE_MAX, dst.Length)])
      ensures dst[n..] == old(dst[..])[n..]
    {
      n := 0;
      while n < BRES_NOMBRE_MAX && n < dst.Length && e[n] != 0
        invariant n <= BRES_NOMBRE_MAX && n <= dst.Length && SinNul(e[..n])
        invariant forall j | 0 <= j < dst.Length :: dst[j] == if j < n then e[j] else old(dst[j])
      {
        dst[n] := e[n];
        n := n + 1;
      }
      assert dst[n..] == old(dst[..])[n..] && dst[..n] == e[..n];
      ghost var campo := e[..Menor(BRES_NOMBRE_MAX, dst.Length)];
      assert campo[..n] == e[..n];
      EsHastaNul(campo, e[..n]);
    }

    /** `buscar`. The answer depends on the image alone, not on where earlier calls left the cursor. */
    method Busca(nombre: Bytes) returns (s: Option<Sitio>)
      requires Valid()
      modifies f.r`cursor
      ensures Valid() && s == Buscar(f.r.imagen, Ix(), nombre)
    {
      var ent := new byte[BRES_ENTRADA];
      var i := 0;
      while i < cuantos
        invariant i <= cuantos && Valid()
        invariant Buscar(f.r.imagen, Ix(), nombre) == BuscarDesde(f.r.imagen, Ix(), nombre, i)
      {
        var entero := LeeEn(f, Suma(base, BRES_CABECERA + i * BRES_ENTRADA), ent);
        if !entero {
          return None;
        }
        var e := ent[..];
        if |nombre| <= BRES_NOMBRE_MAX && e[..|nombre|] == nombre && e[|nombre|] == 0 {
          return Some(Sitio(Suma(base, DeLE(e[48..56])), DeLE(e[56..64])));
        }
        i := i + 1;
      }
      return None;
    }

    /** `leer`: what fits of the resource, and the rest of `dst` as it was. */
    method Leer(nombre: Bytes, dst: array<byte>) returns (n: nat)
      requires Valid()
      modifies dst, f.r`cursor
      ensures Valid() && n <= dst.Length
      ensures dst[..n] == LeerDe(f.r.imagen, Ix(), nombre, dst.Length)
      ensures dst[n..] == old(dst[..])[n..]
    {
      var s := Busca(nombre);
      if s.None? {
        return 0;
      }
      var cuanto := if s.value.tam < dst.Length then s.value.tam else dst.Length;
      var donde := f.Saltar(s.value.pos);
      n := f.Read(dst, cuanto);
    }
  }

  /** `montar`. */
  method Abre(f: Archivo) returns (p: Option<Paquete>)
    requires f.r.Valid() && !f.escribe
    modifies f.r`cursor
    ensures f.r.Valid()
    ensures p.Some? == Montar(f.r.imagen).Some?
    ensures p.Some? ==> fresh(p.value) && p.value.f == f && p.value.Valid()
                        && Montar(f.r.imagen) == Some(p.value.Ix())
  {
    hide DeLE, Suma;
    ghost var img := f.r.imagen;
    var cab := new byte[BEF_CABECERA];
    var entero := LeeEn(f, 0, cab);
    if !entero {
      return None;
    }
    if DeLE(cab[0..4]) != BEF_MAGIC {
      assert cab[..][0..4] == cab[0..4];
      return None;
    }
    var tabla, count := DeLE(cab[32..40]), DeLE(cab[40..44]);
    assert cab[..][0..4] == cab[0..4] && cab[..][32..40] == cab[32..40] && cab[..][40..44] == cab[40..44];
    var off, largo := 0, 0;
    var ent := new byte[BEF_ENTRADA];
    var i := 0;
    while i < count
      invariant i <= count && f.r.Valid() && off == largo == 0
      invariant BuscaSeccion(img, tabla, 0, count) == BuscaSeccion(img, tabla, i, count)
    {
      entero := LeeEn(f, Suma(tabla, i * BEF_ENTRADA), ent);
      if !entero {
        return None;
      }
      if ent[0] == SECCION_RECURSOS {
        assert ent[..][8..16] == ent[8..16] && ent[..][16..24] == ent[16..24];
        off := DeLE(ent[8..16]);
        largo := DeLE(ent[16..24]);
        break;
      }
      i := i + 1;
    }
    assert BuscaSeccion(img, tabla, 0, count) == Some(Seccion(off, largo));
    if largo == 0 {
      return None;
    }
    var idx := new byte[BRES_CABECERA];
    entero := LeeEn(f, off, idx);
    assert idx[..][0..4] == idx[0..4] && idx[..][4..8] == idx[4..8];
    if !entero || DeLE(idx[0..4]) != BRES_MAGIC {
      return None;
    }
    var caja := new Paquete(f, off, DeLE(idx[4..8]));
    return Some(caja);
  }
}
