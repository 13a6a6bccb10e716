/** What a reader of packages gets from a section of resources that was really packed: with the entries
    that `paquete.rs` states, and with those that `bmo_abi::bef::recursos::construir` writes. */
module PaqueteFormato {
  import opened Octetos
  import opened Puerta
  import opened Paquete
  import opened Textos

  datatype Recurso = Recurso(nombre: Bytes, datos: Bytes)

  /** Name, offset and size; or offset, size, length of the name and name. */
  datatype Formato = Declarado | Empaquetado

  function EntradaDe(f: Formato, r: Recurso, off: nat): (e: Bytes)
    requires |r.nombre| <= BRES_NOMBRE_MAX
    ensures |e| == BRES_ENTRADA
  {
    match f
    case Declarado => r.nombre + Ceros(48 - |r.nombre|) + LE(off, 8) + LE(|r.datos|, 8)
    case Empaquetado => LE(off, 8) + LE(|r.datos|, 8) + [|r.nombre|] + r.nombre + Ceros(47 - |r.nombre|)
  }

  predicate Caben(rs: seq<Recurso>) { forall k | 0 <= k < |rs| :: |rs[k].nombre| <= BRES_NOMBRE_MAX }

  function Entradas(f: Formato, rs: seq<Recurso>, off: nat): (e: Bytes)
    requires Caben(rs)
    ensures |e| == BRES_ENTRADA * |rs|
  {
    if rs == [] then [] else EntradaDe(f, rs[0], off) + Entradas(f, rs[1..], off + |rs[0].datos|)
  }

  function Datos(rs: seq<Recurso>): Bytes {
    if rs == [] then [] else rs[0].datos + Datos(rs[1..])
  }

  /** Where the data of resource `k` begins, from the beginning of the section. */
  function Off(rs: seq<Recurso>, k: nat): nat
    requires k <= |rs|
  {
    BRES_CABECERA + BRES_ENTRADA * |rs| + |Datos(rs[..k])|
  }

  function Empaqueta(f: Formato, rs: seq<Recurso>): Bytes
    requires Caben(rs)
  {
    LE(BRES_MAGIC, 4) + LE(|rs|, 4) + Ceros(8) + Entradas(f, rs, BRES_CABECERA + BRES_ENTRADA * |rs|) + Datos(rs)
  }

  /** The image holds that section at `base`, whatever comes before and after it. */
  predicate Lleva(f: Formato, img: Bytes, base: nat, rs: seq<Recurso>) {
    && Caben(rs) && |rs| < DOS_A_LA_32 && |img| < DOS_A_LA_64
    && base + |Empaqueta(f, rs)| <= |img|
    && img[base..base + |Empaqueta(f, rs)|] == Empaqueta(f, rs)
  }

  // -- Where things lie -----------------------------------------------------------------------------------

  lemma {:induction false} DatosHasta(rs: seq<Recurso>, k: nat)
    requires k < |rs|
    ensures |Datos(rs[..k])| + |rs[k].datos| <= |Datos(rs)|
    ensures Datos(rs)[|Datos(rs[..k])|..|Datos(rs[..k])| + |rs[k].datos|] == rs[k].datos
  {
    if k == 0 {
      assert rs[..0] == [];
    } else {
      DatosHasta(rs[1..], k - 1);
      assert rs[..k][1..] == rs[1..][..k - 1];
      var a := |Datos(rs[1..][..k - 1])|;
      assert |Datos(rs[..k])| == |rs[0].datos| + a;
      assert Datos(rs)[|rs[0].datos|..] == Datos(rs[1..]);
    }
  }

  lemma Desplaza(a: Bytes, b: Bytes, i: nat, j: nat)
    requires |a| <= i <= j <= |a| + |b|
    ensures (a + b)[i..j] == b[i - |a|..j - |a|]
  {
  }

  lemma {:induction false} EntradasHasta(f: Formato, rs: seq<Recurso>, off: nat, k: nat)
    requires Caben(rs) && k < |rs|
    ensures Entradas(f, rs, off)[BRES_ENTRADA * k..BRES_ENTRADA * (k + 1)]
            == EntradaDe(f, rs[k], off + |Datos(rs[..k])|)
  {
    hide EntradaDe;
    if k == 0 {
      assert rs[..0] == [];
    } else {
      EntradasHasta(f, rs[1..], off + |rs[0].datos|, k - 1);
      assert rs[..k][1..] == rs[1..][..k - 1];
      var una, cola := EntradaDe(f, rs[0], off), Entradas(f, rs[1..], off + |rs[0].datos|);
      Desplaza(una, cola, BRES_ENTRADA * k, BRES_ENTRADA * (k + 1));
    }
  }

  lemma Corta(img: Bytes, base: nat, sec: Bytes, a: nat, b: nat)
    requires base + |sec| <= |img| && img[base..base + |sec|] == sec && a <= b <= |sec|
    ensures img[base + a..base + b] == sec[a..b]
  {
    forall i | a <= i < b
      ensures img[base + i] == sec[i]
    {
      assert sec[i] == img[base..base + |sec|][i];
    }
  }

  /** The index is read entry by entry as it was written. */
  lemma EntradaLeida(f: Formato, img: Bytes, base: nat, rs: seq<Recurso>, k: nat)
    requires Lleva(f, img, base, rs) && k < |rs|
    ensures Entrada(img, Indice(base, |rs|), k) == Some(EntradaDe(f, rs[k], Off(rs, k)))
  {
    hide EntradaDe, LE, DeLE;
    var sec := Empaqueta(f, rs);
    var inicio := BRES_CABECERA + BRES_ENTRADA * |rs|;
    var es := Entradas(f, rs, inicio);
    EntradasHasta(f, rs, inicio, k);
    var a := BRES_CABECERA + BRES_ENTRADA * k;
    assert sec[BRES_CABECERA..inicio] == es;
    assert sec[a..a + BRES_ENTRADA] == es[BRES_ENTRADA * k..BRES_ENTRADA * (k + 1)];
    Corta(img, base, sec, a, a + BRES_ENTRADA);
    assert base + a + BRES_ENTRADA <= |img|;
    assert Suma(base, a) == base + a;
  }

  /** So is the data, at the offset that its entry states. */
  lemma DatosLeidos(f: Formato, img: Bytes, base: nat, rs: seq<Recurso>, k: nat)
    requires Lleva(f, img, base, rs) && k < |rs|
    ensures base + Off(rs, k) + |rs[k].datos| <= |img|
    ensures img[base + Off(rs, k)..base + Off(rs, k) + |rs[k].datos|] == rs[k].datos
  {
    hide EntradaDe, LE, DeLE;
    var sec := Empaqueta(f, rs);
    var inicio := BRES_CABECERA + BRES_ENTRADA * |rs|;
    DatosHasta(rs, k);
    assert sec[inicio..] == Datos(rs);
    var o := Off(rs, k);
    assert sec[o..o + |rs[k].datos|] == Datos(rs)[o - inicio..o - inicio + |rs[k].datos|];
    Corta(img, base, sec, o, o + |rs[k].datos|);
  }

  // -- The stated format ---------------------------------------------------------------------------------------

  predicate Distintos(rs: seq<Recurso>) {
    && (forall k | 0 <= k < |rs| :: SinNul(rs[k].nombre))
    && (forall i, j | 0 <= i < j < |rs| :: rs[i].nombre != rs[j].nombre)
  }

  /** `q` is the name, or the name and NULs. */
  predicate Casa(nombre: Bytes, q: Bytes) {
    |q| <= BRES_NOMBRE_MAX && nombre <= q && forall i | |nombre| <= i < |q| :: q[i] == 0
  }

  lemma Letra(r: Recurso, off: nat, i: nat)
    requires |r.nombre| <= BRES_NOMBRE_MAX && i < 48
    ensures EntradaDe(Declarado, r, off)[i] == if i < |r.nombre| then r.nombre[i] else 0
  {
    hide LE;
  }

  /** A stated entry answers to its name and to nothing else, except for NULs added at the end. */
  lemma IgualExacto(r: Recurso, off: nat, q: Bytes)
    requires |r.nombre| <= BRES_NOMBRE_MAX && SinNul(r.nombre)
    ensures Igual(EntradaDe(Declarado, r, off), q) <==> Casa(r.nombre, q)
  {
    hide EntradaDe;
    var e := EntradaDe(Declarado, r, off);
    if |q| <= BRES_NOMBRE_MAX {
      forall i | 0 <= i < 48
        ensures e[i] == if i < |r.nombre| then r.nombre[i] else 0
      {
        Letra(r, off, i);
      }
      if Igual(e, q) {
        forall i | 0 <= i < |q|
          ensures q[i] == e[i]
        {
          assert e[..|q|][i] == e[i];
        }
        assert |r.nombre| <= |q|;
        assert q[..|r.nombre|] == r.nombre;
      } else if Casa(r.nombre, q) {
        assert q[..|r.nombre|] == r.nombre;
        forall i | 0 <= i < |q|
          ensures q[i] == e[i]
        {
          if i < |r.nombre| {
            assert q[..|r.nombre|][i] == q[i];
          }
        }
      }
    }
  }

  lemma CamposDeclarados(r: Recurso, off: nat)
    requires |r.nombre| <= BRES_NOMBRE_MAX && off < DOS_A_LA_64 && |r.datos| < DOS_A_LA_64
    ensures var e := EntradaDe(Declarado, r, off); DeLE(e[48..56]) == off && DeLE(e[56..64]) == |r.datos|
  {
    hide LE, DeLE;
    var e := EntradaDe(Declarado, r, off);
    assert e[48..56] == LE(off, 8) && e[56..64] == LE(|r.datos|, 8);
    Potencias();
    DeLEVuelve(off, 8);
    DeLEVuelve(|r.datos|, 8);
  }

  /** The place of the first resource that `q` asks for, from the list itself. */
  function PorNombre(base: nat, rs: seq<Recurso>, q: Bytes, i: nat): Option<Sitio>
    decreases |rs| - i
  {
    if i >= |rs| then None
    else if Casa(rs[i].nombre, q) then Some(Sitio(base + Off(rs, i), |rs[i].datos|))
    else PorNombre(base, rs, q, i + 1)
  }

  /** `buscar` on an image packed in the stated format is the lookup by name in the list of resources,
      for any query: no other is found, in particular none whose name begins with `q` or that `q` begins
      with. */
  lemma {:induction false} BuscarEsPorNombre(img: Bytes, base: nat, rs: seq<Recurso>, q: Bytes, i: nat)
    requires Lleva(Declarado, img, base, rs) && Distintos(rs)
    ensures BuscarDesde(img, Indice(base, |rs|), q, i) == PorNombre(base, rs, q, i)
    decreases |rs| - i
  {
    hide EntradaDe, Igual, Entrada, Lleva, LE, DeLE, Off, Casa;
    if i < |rs| {
      CabeSitio(Declarado, img, base, rs, i);
      EntradaLeida(Declarado, img, base, rs, i);
      IgualExacto(rs[i], Off(rs, i), q);
      CamposDeclarados(rs[i], Off(rs, i));
      BuscarEsPorNombre(img, base, rs, q, i + 1);
    }
  }

  lemma SoloElNombre(nombre: Bytes, q: Bytes)
    requires |q| <= BRES_NOMBRE_MAX && SinNul(q)
    ensures Casa(nombre, q) <==> nombre == q
  {
    if nombre <= q && |nombre| < |q| {
      assert q[|nombre|] != 0;
    }
  }

  lemma CabeSitio(f: Formato, img: Bytes, base: nat, rs: seq<Recurso>, k: nat)
    requires Lleva(f, img, base, rs) && k < |rs|
    ensures |rs[k].nombre| <= BRES_NOMBRE_MAX
    ensures base + Off(rs, k) + |rs[k].datos| < DOS_A_LA_64
    ensures Suma(base, Off(rs, k)) == base + Off(rs, k)
  {
    hide Empaqueta, Off;
    DatosLeidos(f, img, base, rs, k);
  }

  lemma {:induction false} PorNombreEs(base: nat, rs: seq<Recurso>, k: nat, i: nat)
    requires Distintos(rs) && i <= k < |rs|
    requires |rs[k].nombre| <= BRES_NOMBRE_MAX
    ensures PorNombre(base, rs, rs[k].nombre, i) == Some(Sitio(base + Off(rs, k), |rs[k].datos|))
    decreases k - i
  {
    if i < k {
      SoloElNombre(rs[i].nombre, rs[k].nombre);
      PorNombreEs(base, rs, k, i + 1);
    }
  }

  /** A query that is no name, or is longer than any name may be, finds nothing. */
  lemma {:induction false} SinNombreNada(base: nat, rs: seq<Recurso>, q: Bytes, i: nat)
    requires SinNul(q) && forall k | 0 <= k < |rs| :: rs[k].nombre != q
    ensures PorNombre(base, rs, q, i) == None
    decreases |rs| - i
  {
    if i < |rs| {
      if |q| <= BRES_NOMBRE_MAX {
        SoloElNombre(rs[i].nombre, q);
      }
      SinNombreNada(base, rs, q, i + 1);
    }
  }

  /** Every packed resource is read back whole, or its first bytes when the buffer is shorter, wherever the
      section lies in the file and whatever was read before. */
  lemma LeerExacto(img: Bytes, base: nat, rs: seq<Recurso>, k: nat, n: nat)
    requires Lleva(Declarado, img, base, rs) && Distintos(rs) && k < |rs|
    ensures LeerDe(img, Indice(base, |rs|), rs[k].nombre, n) == rs[k].datos[..Menor(n, |rs[k].datos|)]
  {
    hide Lleva, Off, BuscarDesde;
    BuscarEsPorNombre(img, base, rs, rs[k].nombre, 0);
    CabeSitio(Declarado, img, base, rs, k);
    PorNombreEs(base, rs, k, 0);
    DatosLeidos(Declarado, img, base, rs, k);
    var p, d := base + Off(rs, k), rs[k].datos;
    var m := Menor(n, |d|);
    assert img[p..p + |d|][..m] == img[p..p + m];
  }

  // -- The whole container ----------------------------------------------------------------------------------------

  /** An entry of the table of sections: the fields that are looked at. */
  datatype Fila = Fila(clase: byte, off: nat, largo: nat)

  /** A container with that table. */
  predicate EsBex(img: Bytes, tabla: nat, filas: seq<Fila>) {
    && BEF_CABECERA <= |img| < DOS_A_LA_64 && |filas| < DOS_A_LA_32
    && img[0..4] == LE(BEF_MAGIC, 4) && img[32..40] == LE(tabla, 8) && img[40..44] == LE(|filas|, 4)
    && tabla + BEF_ENTRADA * |filas| <= |img|
    && (forall i | 0 <= i < |filas| ::
          filas[i].off < DOS_A_LA_64 && filas[i].largo < DOS_A_LA_64
          && var t := tabla + BEF_ENTRADA * i;
             img[t] == filas[i].clase && img[t + 8..t + 16] == LE(filas[i].off, 8)
             && img[t + 16..t + 24] == LE(filas[i].largo, 8))
  }

  /** The first row of resources. */
  function Primera(filas: seq<Fila>, i: nat): Seccion
    decreases |filas| - i
  {
    if i >= |filas| then Seccion(0, 0)
    else if filas[i].clase == SECCION_RECURSOS then Seccion(filas[i].off, filas[i].largo)
    else Primera(filas, i + 1)
  }

  lemma FilaLeida(img: Bytes, tabla: nat, filas: seq<Fila>, i: nat)
    requires EsBex(img, tabla, filas) && i < |filas|
    ensures var e := Tramo(img, Suma(tabla, i * BEF_ENTRADA), BEF_ENTRADA);
            && e.Some? && e.value[0] == filas[i].clase
            && DeLE(e.value[8..16]) == filas[i].off && DeLE(e.value[16..24]) == filas[i].largo
  {
    hide LE, DeLE;
    var t := tabla + BEF_ENTRADA * i;
    assert t + BEF_ENTRADA <= |img|;
    var e := img[t..t + BEF_ENTRADA];
    assert Tramo(img, Suma(tabla, i * BEF_ENTRADA), BEF_ENTRADA) == Some(e);
    Corta(img, t, e, 8, 16);
    Corta(img, t, e, 16, 24);
    assert e[0] == img[t];
    Potencias();
    DeLEVuelve(filas[i].off, 8);
    DeLEVuelve(filas[i].largo, 8);
  }

  lemma {:induction false} SeccionHallada(img: Bytes, tabla: nat, filas: seq<Fila>, i: nat)
    requires EsBex(img, tabla, filas)
    ensures BuscaSeccion(img, tabla, i, |filas|) == Some(Primera(filas, i))
    decreases |filas| - i
  {
    hide EsBex, Tramo, Suma, DeLE;
    if i < |filas| {
      FilaLeida(img, tabla, filas, i);
      SeccionHallada(img, tabla, filas, i + 1);
    }
  }

  /** Opening a container whose first row of resources points at a packed section gives its index; one
      with no such row, or an empty one, has no resources. */
  lemma MontarHalla(f: Formato, img: Bytes, tabla: nat, filas: seq<Fila>, rs: seq<Recurso>)
    requires EsBex(img, tabla, filas)
    ensures Primera(filas, 0).largo == 0 ==> Montar(img) == None
    ensures Primera(filas, 0).largo != 0 && Lleva(f, img, Primera(filas, 0).off, rs) ==>
              Montar(img) == Some(Indice(Primera(filas, 0).off, |rs|))
  {
    hide LE, DeLE, EntradaDe;
    var cab := img[0..BEF_CABECERA];
    assert cab[0..4] == img[0..4] && cab[32..40] == img[32..40] && cab[40..44] == img[40..44];
    Potencias();
    DeLEVuelve(BEF_MAGIC, 4);
    DeLEVuelve(tabla, 8);
    DeLEVuelve(|filas|, 4);
    SeccionHallada(img, tabla, filas, 0);
    var s := Primera(filas, 0);
    if s.largo != 0 && Lleva(f, img, s.off, rs) {
      CabeceraLeida(f, img, s.off, rs);
    }
  }

  lemma CabeceraLeida(f: Formato, img: Bytes, base: nat, rs: seq<Recurso>)
    requires Lleva(f, img, base, rs)
    ensures var idx := Tramo(img, base, BRES_CABECERA);
            idx.Some? && DeLE(idx.value[0..4]) == BRES_MAGIC && DeLE(idx.value[4..8]) == |rs|
  {
    hide LE, DeLE, EntradaDe, Entradas;
    var sec := Empaqueta(f, rs);
    Corta(img, base, sec, 0, BRES_CABECERA);
    var idx := sec[0..BRES_CABECERA];
    var cola := Ceros(8) + Entradas(f, rs, BRES_CABECERA + BRES_ENTRADA * |rs|) + Datos(rs);
    assert sec == LE(BRES_MAGIC, 4) + (LE(|rs|, 4) + cola);
    assert sec[0..4] == LE(BRES_MAGIC, 4) && sec[4..][..4] == LE(|rs|, 4);
    assert idx[0..4] == sec[0..4] && idx[4..8] == sec[4..][..4];
    Potencias();
    DeLEVuelve(BRES_MAGIC, 4);
    DeLEVuelve(|rs|, 4);
  }

  // -- What the packer really writes ----------------------------------------------------------------------------------

  /** Byte 38 of the name, where it has one, is neither a NUL nor 0xFF. No byte of a text in UTF-8 is 0xFF,
      so this holds of every name with no NUL in it. */
  predicate SinHueco(r: Recurso) {
    |r.nombre| <= BRES_NOMBRE_MAX && (|r.nombre| > 39 ==> 0 < r.nombre[38] < 255)
  }

  predicate SinHuecos(rs: seq<Recurso>) { forall k | 0 <= k < |rs| :: SinHueco(rs[k]) }

  lemma NombreDeTexto(r: Recurso)
    requires |r.nombre| <= BRES_NOMBRE_MAX && SinNul(r.nombre) && forall i | 0 <= i < |r.nombre| :: r.nombre[i] != 255
    ensures SinHueco(r)
  {
    assert |r.nombre| > 39 ==> r.nombre[38] != 0;
  }

  /** In an entry of the packer the reader's size field is the end of the name's padding, or, of a long
      name, its offset field holds so much of the name that it lies beyond any file. */
  lemma CamposDeOtro(r: Recurso, off: nat)
    requires SinHueco(r)
    ensures var e := EntradaDe(Empaquetado, r, off);
            if |r.nombre| <= 39 then DeLE(e[56..64]) == 0
            else DOS_A_LA_56 <= DeLE(e[48..56]) < 255 * DOS_A_LA_56
  {
    hide LE, DeLE, Pot256;
    var e := EntradaDe(Empaquetado, r, off);
    if |r.nombre| <= 39 {
      assert e[56..64] == Ceros(8);
      LEDeCero(8);
    } else {
      var s := e[48..56];
      assert s[7] == e[55] == r.nombre[38];
      ByteAlto(s);
      DeLEAcotado(s[..7]);
      Potencias();
    }
  }

  /** What is found has no size or begins past the end of the file. */
  lemma {:induction false} BuscarNada(img: Bytes, base: nat, rs: seq<Recurso>, q: Bytes, i: nat)
    requires Lleva(Empaquetado, img, base, rs) && SinHuecos(rs) && |img| < DOS_A_LA_56
    ensures var s := BuscarDesde(img, Indice(base, |rs|), q, i);
            s.Some? ==> s.value.tam == 0 || s.value.pos >= |img|
    decreases |rs| - i
  {
    hide EntradaDe, Igual, Entrada, LE, DeLE, Off, Empaqueta, SinHueco;
    if i < |rs| {
      EntradaLeida(Empaquetado, img, base, rs, i);
      assert SinHueco(rs[i]);
      CamposDeOtro(rs[i], Off(rs, i));
      BuscarNada(img, base, rs, q, i + 1);
      assert base <= |img| < DOS_A_LA_56;
    }
  }

  /** From a section that the packer built no query reads any byte. So a resource is read right exactly
      when there is nothing to read: it is empty, or the buffer is. */
  lemma EmpaquetadoIlegible(img: Bytes, base: nat, rs: seq<Recurso>, k: nat, n: nat)
    requires Lleva(Empaquetado, img, base, rs) && SinHuecos(rs) && |img| < DOS_A_LA_56
    requires k < |rs|
    ensures forall q: Bytes :: LeerDe(img, Indice(base, |rs|), q, n) == []
    ensures LeerDe(img, Indice(base, |rs|), rs[k].nombre, n) == rs[k].datos[..Menor(n, |rs[k].datos|)]
            <==> n == 0 || rs[k].datos == []
  {
    hide Lleva, BuscarDesde, SinHuecos;
    forall q: Bytes
      ensures LeerDe(img, Indice(base, |rs|), q, n) == []
    {
      BuscarNada(img, base, rs, q, 0);
    }
  }

  /** A name of 40 bytes with NULs inside. */
  function NombreHueco(): (n: Bytes)
    ensures |n| == 40
  {
    seq(40, i => if 31 <= i < 39 then 0 else 1)
  }

  /** Byte 38 matters: with a NUL there the reader takes the very beginning of the section for a
      resource, and a query that nobody packed brings a byte of the index. */
  lemma NulEnElNombre()
    ensures var rs := [Recurso(NombreHueco(), [])];
            && !SinHueco(rs[0]) && Caben(rs)
            && LeerDe(Empaqueta(Empaquetado, rs), Indice(0, 1), [80], 1) == LE(BRES_MAGIC, 4)[..1]
  {
    var r := Recurso(NombreHueco(), []);
    var rs := [r];
    var img := Empaqueta(Empaquetado, rs);
    assert Datos(rs) == [] && |img| == 80;
    assert Lleva(Empaquetado, img, 0, rs) by {
      assert img[0..|img|] == img;
    }
    EntradaLeida(Empaquetado, img, 0, rs, 0);
    assert rs[..0] == [] && Off(rs, 0) == 80;
    var e := EntradaDe(Empaquetado, r, 80);
    HuecoLeido(e, r);
    assert BuscarDesde(img, Indice(0, 1), [80], 0) == Some(Sitio(0, 1));
    assert img[0..1] == LE(BRES_MAGIC, 4)[..1];
  }

  lemma Ochenta()
    ensures LE(80, 8)[0] == 80 && LE(80, 8)[1] == 0
  {
    assert LE(80, 8)[1..] == LE(0, 7) && LE(0, 7)[0] == 0;
  }

  lemma HuecoLeido(e: Bytes, r: Recurso)
    requires r == Recurso(NombreHueco(), []) && e == EntradaDe(Empaquetado, r, 80)
    ensures Igual(e, [80]) && DeLE(e[48..56]) == 0 && DeLE(e[56..64]) == 1
  {
    hide LE, DeLE;
    Ochenta();
    assert e[..1] == [80] && e[1] == 0;
    assert e[48..56] == Ceros(8);
    LEDeCero(8);
    assert e[56..64] == [1] + Ceros(7);
    UnoYCeros();
  }

  lemma UnoYCeros()
    ensures DeLE([1] + Ceros(7)) == 1
  {
    LEDeCero(7);
    assert ([1] + Ceros(7))[1..] == Ceros(7);
  }

  /** Nor is a name of eight bytes or more ever found, however long the names are: where the reader looks
      for it the packer wrote an offset, and the top byte of an offset is zero. */
  lemma {:induction false} NombreLargoNoAparece(img: Bytes, base: nat, rs: seq<Recurso>, q: Bytes, i: nat)
    requires Lleva(Empaquetado, img, base, rs) && |img| < DOS_A_LA_56 && |q| >= 8 && SinNul(q)
    ensures BuscarDesde(img, Indice(base, |rs|), q, i) == None
    decreases |rs| - i
  {
    hide EntradaDe, Igual, Entrada, Lleva, LE, DeLE, Off;
    if i < |rs| {
      EntradaLeida(Empaquetado, img, base, rs, i);
      DatosLeidos(Empaquetado, img, base, rs, i);
      CabeSitio(Empaquetado, img, base, rs, i);
      OctavoCero(rs[i], Off(rs, i), q);
      NombreLargoNoAparece(img, base, rs, q, i + 1);
    }
  }

  lemma OctavoCero(r: Recurso, off: nat, q: Bytes)
    requires |r.nombre| <= BRES_NOMBRE_MAX && off < DOS_A_LA_56 && |q| >= 8 && SinNul(q)
    ensures !Igual(EntradaDe(Empaquetado, r, off), q)
  {
    var e := EntradaDe(Empaquetado, r, off);
    assert e[7] == LE(off, 8)[7] == 0 by { AltoCero(off, 7); }
    if |q| <= BRES_NOMBRE_MAX {
      assert e[..|q|][7] == e[7] && q[7] != 0;
    }
  }

  lemma {:induction false} AltoCero(n: nat, k: nat)
    requires n < Pot256(k) || (k == 7 && n < DOS_A_LA_56)
    ensures LE(n, k + 1)[k] == 0
  {
    Potencias();
    if k > 0 {
      AltoCero(n / 256, k - 1);
    }
  }

  /** One icon of three bytes, packed and asked for by its name: the reader gives none of them. */
  lemma IconoPerdido()
    ensures var rs := [Recurso([105, 99, 111], [7, 8, 9])];
            && Caben(rs) && rs[0].datos != []
            && LeerDe(Empaqueta(Empaquetado, rs), Indice(0, 1), rs[0].nombre, 3) == []
  {
    hide LE, DeLE;
    var rs := [Recurso([105, 99, 111], [7, 8, 9])];
    var img := Empaqueta(Empaquetado, rs);
    assert Datos(rs) == [7, 8, 9] by {
      assert Datos(rs[1..]) == [];
    }
    assert img[0..|img|] == img;
    EmpaquetadoIlegible(img, 0, rs, 0, 3);
  }
}
