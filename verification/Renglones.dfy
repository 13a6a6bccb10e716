/** Texts and contents that travel in words of eight bytes: `estratos.rs` and the kernel's lines. */
module Renglones {
  import opened Octetos
  import opened Puerta
  import opened Textos

  const DATOS_MAX := 96
  const RUTA_MAX := 128

  /** No process: `u32::MAX`. */
  const NADIE := -1

  /** What is in a line, and whose it is. */
  datatype Renglon = Renglon(dueno: int, datos: Bytes)

  /** More bytes, as far as they fit. */
  function Mete(a: Bytes, b: Bytes, tope: nat): Bytes { (a + b)[..Menor(|a + b|, tope)] }

  /** A process that finds the line taken by another one empties it first. */
  function Suyo(r: Renglon, pid: nat): Bytes { if r.dueno == pid then r.datos else [] }

  /** The word that carries up to eight bytes. */
  function Ocho(b: Bytes): (w: Bytes)
    requires |b| <= 8
    ensures |w| == 8
  {
    b + Ceros(8 - |b|)
  }

  lemma OchoVuelve(b: Bytes)
    requires |b| <= 8
    ensures DeLE(Ocho(b)) < DOS_A_LA_64 && LE(DeLE(Ocho(b)), 8) == Ocho(b)
  {
    LEVuelve(Ocho(b));
    DeLEAcotado(Ocho(b));
    Potencias();
  }

  /** What a process may do to a line. */
  datatype Evento = Limpia(pid: nat) | Meten(pid: nat, bytes: Bytes) | Toma(pid: nat)

  function Paso(r: Renglon, e: Evento, tope: nat): Renglon {
    match e
    case Limpia(p) => Renglon(p, [])
    case Meten(p, b) => Renglon(p, Mete(Suyo(r, p), b, tope))
    case Toma(p) => Renglon(r.dueno, if r.dueno == p then [] else r.datos)
  }

  // -- The kernel's lines -------------------------------------------------------------------------------

  class Linea {
    const buf: array<byte>
    var n: nat
    var dueno: int

    ghost predicate Valid()
      reads this, buf
    {
      n <= buf.Length
    }

    ghost function Estado(): Renglon
      reads this, buf
      requires Valid()
    {
      Renglon(dueno, buf[..n])
    }

    constructor (tope: nat)
      ensures Valid() && fresh(buf) && buf.Length == tope && Estado() == Renglon(NADIE, [])
    {
      buf := new byte[tope];
      n, dueno := 0, NADIE;
    }

    /** `datos_limpiar`. */
    method Limpiar(pid: nat)
      requires Valid()
      modifies this`n, this`dueno
      ensures Valid() && Estado() == Paso(old(Estado()), Limpia(pid), buf.Length)
    {
      dueno, n := pid, 0;
    }

    /** The loop of `datos_meter` and of `ruta_push`, one byte at a time. */
    method Anade(pid: nat, bytes: Bytes)
      requires Valid()
      modifies this`n, this`dueno, buf
      ensures Valid() && Estado() == Renglon(pid, Mete(Suyo(old(Estado()), pid), bytes, buf.Length))
    {
      ghost var antes := Suyo(Estado(), pid);
      if dueno != pid {
        dueno, n := pid, 0;
      }
      assert buf[..n] == antes;
      var k := 0;
      while k < |bytes| && n < buf.Length
        invariant k <= |bytes| && n == |antes| + k <= buf.Length && dueno == pid
        invariant buf[..n] == antes + bytes[..k]
      {
        buf[n] := bytes[k];
        assert bytes[..k + 1] == bytes[..k] + [bytes[k]];
        n := n + 1;
        k := k + 1;
      }
      assert antes + bytes[..k] == (antes + bytes)[..n];
    }

    /** `datos_meter`: as many bytes of the word as it says. */
    method DatosMeter(pid: nat, palabra: nat, cuantos: nat)
      requires Valid()
      modifies this`n, this`dueno, buf
      ensures Valid()
      ensures Estado() == Paso(old(Estado()), Meten(pid, LE(palabra, 8)[..Menor(cuantos, 8)]), buf.Length)
    {
      Anade(pid, LE(palabra, 8)[..Menor(cuantos, 8)]);
    }

    /** `ruta_push`: the bytes of the word before its first NUL. */
    method RutaPush(pid: nat, palabra: nat)
      requires Valid()
      modifies this`n, this`dueno, buf
      ensures Valid()
      ensures Estado() == Paso(old(Estado()), Meten(pid, HastaNul(LE(palabra, 8))), buf.Length)
    {
      Anade(pid, HastaNul(LE(palabra, 8)));
    }

    /** `datos_tomar`: what its owner gathered, and the line is left empty. */
    method DatosTomar(pid: nat) returns (s: Bytes)
      requires Valid()
      modifies this`n
      ensures Valid() && s == Suyo(old(Estado()), pid)
      ensures Estado() == Paso(old(Estado()), Toma(pid), buf.Length)
    {
      if dueno != pid {
        return [];
      }
      s := buf[..n];
      n := 0;
    }
  }

  lemma MeteEnDos(a: Bytes, b: Bytes, c: Bytes, tope: nat)
    ensures Mete(Mete(a, b, tope), c, tope) == Mete(a, b + c, tope)
  {
    assert a + (b + c) == (a + b) + c;
    if |a + b| > tope {
      assert Mete(Mete(a, b, tope), c, tope) == Mete(a, b, tope);
      assert ((a + b) + c)[..tope] == (a + b)[..tope];
    }
  }

  lemma MeteTodo(b: Bytes, tope: nat)
    ensures Mete([], b, tope) == b[..Menor(|b|, tope)] && (Mete([], b, tope) == b <==> |b| <= tope)
  {
    assert [] + b == b;
  }

  // -- The program's side -----------------------------------------------------------------------------------

  /** `mandar_datos`: whatever the line held and whoever held it, it ends up with the data, zeros and all,
      as far as its 96 bytes go. */
  method MandarDatos(l: Linea, pid: nat, datos: Bytes)
    requires l.Valid() && l.buf.Length == DATOS_MAX
    modifies l, l.buf
    ensures l.Valid() && l.Estado() == Renglon(pid, datos[..Menor(|datos|, DATOS_MAX)])
    ensures l.Estado().datos == datos <==> |datos| <= DATOS_MAX
  {
    hide LE, DeLE, Mete;
    l.Limpiar(pid);
    var i := 0;
    ghost var hecho: Bytes := [];
    MeteTodo([], DATOS_MAX);
    while i < |datos|
      invariant l.Valid() && hecho == datos[..Menor(i, |datos|)]
      invariant l.Estado() == Renglon(pid, Mete([], hecho, DATOS_MAX))
    {
      var n := Menor(|datos| - i, 8);
      var trozo := datos[i..i + n];
      var w := trozo + Ceros(8 - n);
      OchoVuelve(trozo);
      l.DatosMeter(pid, DeLE(w), n);
      assert Ocho(trozo)[..n] == trozo;
      MeteEnDos([], hecho, trozo, DATOS_MAX);
      assert hecho + trozo == datos[..i + n];
      hecho := hecho + trozo;
      i := i + 8;
    }
    assert hecho == datos;
    MeteTodo(datos, DATOS_MAX);
  }

  /** What a path becomes on its way: of each word of eight bytes, what comes before its first NUL. */
  function PorPalabras(ruta: Bytes): Bytes {
    if ruta == [] then []
    else if |ruta| <= 8 then HastaNul(ruta)
    else HastaNul(ruta[..8]) + PorPalabras(ruta[8..])
  }

  lemma HastaNulOcho(b: Bytes)
    requires |b| <= 8
    ensures HastaNul(Ocho(b)) == HastaNul(b)
  {
    EsHastaNul(Ocho(b), HastaNul(b));
  }

  /** `mandar_ruta`: it does not empty the line, so its own earlier bytes stay in front. */
  method MandarRuta(l: Linea, pid: nat, ruta: Bytes)
    requires l.Valid() && l.buf.Length == RUTA_MAX
    modifies l, l.buf
    ensures l.Valid() && (ruta == [] ==> l.Estado() == old(l.Estado()))
    ensures ruta != [] ==>
              l.Estado() == Renglon(pid, Mete(Suyo(old(l.Estado()), pid), PorPalabras(ruta), RUTA_MAX))
  {
    hide LE, DeLE, HastaNul, PorPalabras, Mete, Ocho;
    ghost var antes := Suyo(l.Estado(), pid);
    var i := 0;
    ghost var hecho: Bytes := [];
    MeteNada(antes, RUTA_MAX);
    assert ruta[0..] == ruta && hecho + PorPalabras(ruta) == PorPalabras(ruta);
    while i < |ruta|
      invariant l.Valid()
      invariant hecho + PorPalabras(ruta[Menor(i, |ruta|)..]) == PorPalabras(ruta)
      invariant ruta == [] ==> i == 0
      invariant i == 0 ==> l.Estado() == old(l.Estado()) && hecho == []
      invariant i > 0 ==> l.Estado() == Renglon(pid, Mete(antes, hecho, RUTA_MAX))
    {
      var n := Menor(|ruta| - i, 8);
      var trozo := ruta[i..i + n];
      var w := trozo + Ceros(8 - n);
      assert w == Ocho(trozo) by { EsOcho(trozo); }
      OchoVuelve(trozo);
      ghost var previo := Suyo(l.Estado(), pid);
      assert previo == Mete(antes, hecho, RUTA_MAX);
      l.RutaPush(pid, DeLE(w));
      HastaNulOcho(trozo);
      MeteEnDos(antes, hecho, HastaNul(trozo), RUTA_MAX);
      PasoDeRuta(hecho, ruta[i..], PorPalabras(ruta));
      assert ruta[i..][..n] == trozo && ruta[i..][n..] == ruta[i + n..];
      hecho := hecho + HastaNul(trozo);
      i := i + 8;
    }
    assert ruta[|ruta|..] == [] && PorPalabras([]) == [] by { PorPalabrasLargo([]); }
    assert hecho + [] == hecho;
  }

  lemma EsOcho(b: Bytes)
    requires |b| <= 8
    ensures Ocho(b) == b + Ceros(8 - |b|)
  {
  }

  lemma MeteNada(a: Bytes, tope: nat)
    ensures |a| <= tope ==> Mete(a, [], tope) == a
  {
    assert a + [] == a;
  }

  lemma PasoDeRuta(hecho: Bytes, resto: Bytes, total: Bytes)
    requires resto != [] && hecho + PorPalabras(resto) == total
    ensures var n := Menor(|resto|, 8); hecho + HastaNul(resto[..n]) + PorPalabras(resto[n..]) == total
  {
    hide PorPalabras, HastaNul;
    var n := Menor(|resto|, 8);
    UnaPalabra(resto);
    Asocia(hecho, HastaNul(resto[..n]), PorPalabras(resto[n..]));
  }

  lemma UnaPalabra(s: Bytes)
    requires s != []
    ensures var n := Menor(|s|, 8); PorPalabras(s) == HastaNul(s[..n]) + PorPalabras(s[n..])
  {
    var n := Menor(|s|, 8);
    if |s| <= 8 {
      assert s[..n] == s && s[n..] == [];
      assert HastaNul(s) + [] == HastaNul(s);
    }
  }

  lemma HastaNulTodo(s: Bytes)
    ensures HastaNul(s) == s <==> SinNul(s)
  {
  }

  lemma {:induction false} PorPalabrasLargo(ruta: Bytes)
    ensures |PorPalabras(ruta)| <= |ruta|
    ensures |PorPalabras(ruta)| == |ruta| ==> SinNul(ruta)
    ensures SinNul(ruta) ==> PorPalabras(ruta) == ruta
  {
    if ruta != [] {
      UnaPalabra(ruta);
      var n := Menor(|ruta|, 8);
      PorPalabrasLargo(ruta[n..]);
      HastaNulTodo(ruta[..n]);
      assert ruta == ruta[..n] + ruta[n..];
      if |PorPalabras(ruta)| == |ruta| {
        forall i | 0 <= i < |ruta|
          ensures ruta[i] != 0
        {
          assert ruta[i] == if i < n then ruta[..n][i] else ruta[n..][i - n];
        }
      }
    }
  }

  /** A path reaches an empty line whole exactly when it has no NUL and fits. */
  lemma RutaEntera(ruta: Bytes)
    ensures Mete([], PorPalabras(ruta), RUTA_MAX) == ruta <==> SinNul(ruta) && |ruta| <= RUTA_MAX
  {
    PorPalabrasLargo(ruta);
    assert [] + PorPalabras(ruta) == PorPalabras(ruta);
  }

  /** `ruta` gives nothing: every word of it begins with a NUL. */
  predicate Callan(ruta: Bytes)
  {
    if ruta == [] then true
    else ruta[0] == 0 && (|ruta| > 8 ==> Callan(ruta[8..]))
  }

  /** The words after the one with the first NUL all begin with a NUL. */
  predicate UnSoloCorte(ruta: Bytes) {
    if |ruta| <= 8 then true
    else if SinNul(ruta[..8]) then UnSoloCorte(ruta[8..])
    else Callan(ruta[8..])
  }

  lemma {:induction false} CallanNada(ruta: Bytes)
    ensures Callan(ruta) <==> PorPalabras(ruta) == []
  {
    if |ruta| > 8 {
      CallanNada(ruta[8..]);
      assert ruta[..8][0] == ruta[0];
    }
  }

  /** A path is cut at its first NUL, as its comment says, exactly when no later word begins with another
      byte: the cut is made in each word anew. */
  lemma {:induction false} CorteEnElPrimerNul(ruta: Bytes)
    ensures HastaNul(ruta) <= PorPalabras(ruta)
    ensures PorPalabras(ruta) == HastaNul(ruta) <==> UnSoloCorte(ruta)
  {
    if |ruta| > 8 {
      var a, b := ruta[..8], ruta[8..];
      assert ruta == a + b;
      HastaNulTodo(a);
      HastaNulSuma(a, b);
      if SinNul(a) {
        CorteEnElPrimerNul(b);
        assert (a + HastaNul(b) == a + PorPalabras(b)) <==> HastaNul(b) == PorPalabras(b) by {
          assert (a + HastaNul(b))[8..] == HastaNul(b) && (a + PorPalabras(b))[8..] == PorPalabras(b);
        }
      } else {
        CallanNada(b);
        assert PorPalabras(ruta) == HastaNul(a) + PorPalabras(b);
        assert |PorPalabras(b)| == 0 ==> PorPalabras(ruta) == HastaNul(a);
      }
    }
  }

  lemma HastaNulSuma(a: Bytes, b: Bytes)
    ensures HastaNul(a + b) == if SinNul(a) then a + HastaNul(b) else HastaNul(a)
  {
    hide HastaNul;
    var t := if SinNul(a) then a + HastaNul(b) else HastaNul(a);
    HastaNulTodo(a);
    assert (a + b)[..|t|] == t;
    EsHastaNul(a + b, t);
  }

  /** A NUL in the first word and a letter in the second: the letter is stuck to what came before. */
  lemma CorteFallido()
    ensures PorPalabras([97, 0, 98, 98, 98, 98, 98, 98, 99]) == [97, 99]
  {
    var r: Bytes := [97, 0, 98, 98, 98, 98, 98, 98, 99];
    assert r[..8] == [97, 0, 98, 98, 98, 98, 98, 98] && r[8..] == [99];
    assert HastaNul(r[..8]) == [97] && HastaNul([99]) == [99];
  }

  // -- A text that comes back -----------------------------------------------------------------------------------

  /** `OP_ES_TEXTO`: eight bytes of the text, with zeros where it ends. */
  function PalabraDe(texto: Bytes, trozo: nat): nat {
    var a := Menor(trozo * 8, |texto|);
    DeLE(Ocho(texto[a..Menor(a + 8, |texto|)]))
  }

  /** The inner loop of `texto_de`; `sigue` unless the text ended or `dst` is full before the word is. */
  method SacaPalabra(dst: array<byte>, desde: nat, b: Bytes) returns (escritos: nat, sigue: bool)
    requires desde < dst.Length && |b| == 8
    modifies dst
    ensures escritos == Menor(desde + |HastaNul(b)|, dst.Length)
    ensures sigue == (SinNul(b) && desde + 8 <= dst.Length)
    ensures forall i | 0 <= i < dst.Length ::
              dst[i] == if desde <= i < escritos then b[i - desde] else old(dst[i])
  {
    hide HastaNul;
    escritos := desde;
    var k := 0;
    while k < 8
      invariant k <= 8 && escritos == desde + k <= dst.Length && SinNul(b[..k])
      invariant forall i | 0 <= i < dst.Length ::
                  dst[i] == if desde <= i < escritos then b[i - desde] else old(dst[i])
    {
      if b[k] == 0 || escritos >= dst.Length {
        HastaAqui(b, k);
        return escritos, false;
      }
      dst[escritos] := b[k];
      escritos := escritos + 1;
      k := k + 1;
    }
    HastaAqui(b, 8);
    assert b[..8] == b;
    return escritos, true;
  }

  /** `texto_de`: the text up to its first NUL, as far as `dst` goes; the rest of `dst` as it was. */
  method TextoDe(texto: Bytes, dst: array<byte>) returns (escritos: nat)
    modifies dst
    ensures escritos == Menor(|HastaNul(texto)|, dst.Length)
    ensures forall i | 0 <= i < dst.Length :: dst[i] == if i < escritos then HastaNul(texto)[i] else old(dst[i])
  {
    hide LE, DeLE, HastaNul;
    escritos := 0;
    var trozo := 0;
    while escritos < dst.Length
      invariant escritos == 8 * trozo <= dst.Length && escritos <= |texto| && SinNul(texto[..escritos])
      invariant forall i | 0 <= i < dst.Length :: dst[i] == if i < escritos then texto[i] else old(dst[i])
      decreases dst.Length - escritos
    {
      var w := PalabraDe(texto, trozo);
      ghost var e0 := escritos;
      ghost var resto := texto[e0..Menor(e0 + 8, |texto|)];
      OchoVuelve(resto);
      if w == 0 {
        PalabraCero(resto);
        HastaAqui(texto, escritos);
        return;
      }
      var sigue;
      escritos, sigue := SacaPalabra(dst, escritos, LE(w, 8));
      OtraPalabra(texto, e0, escritos, dst.Length);
      if !sigue {
        return;
      }
      trozo := trozo + 1;
    }
    HastaAqui(texto, escritos);
  }

  /** One more word of a text of which `e0` bytes are out already. */
  lemma OtraPalabra(texto: Bytes, e0: nat, e1: nat, largo: nat)
    requires e0 < largo && e0 <= |texto| && SinNul(texto[..e0])
    requires var b := Ocho(texto[e0..Menor(e0 + 8, |texto|)]); e1 == Menor(e0 + |HastaNul(b)|, largo)
    ensures var b := Ocho(texto[e0..Menor(e0 + 8, |texto|)]);
            && e1 <= |texto| && SinNul(texto[..e1])
            && (forall i | e0 <= i < e1 :: texto[i] == b[i - e0])
            && (SinNul(b) && e0 + 8 <= largo ==> e1 == e0 + 8)
            && (!(SinNul(b) && e0 + 8 <= largo) ==> e1 == Menor(|HastaNul(texto)|, largo))
            && e1 <= |HastaNul(texto)| && HastaNul(texto)[..e1] == texto[..e1]
  {
    hide HastaNul;
    var r := texto[e0..Menor(e0 + 8, |texto|)];
    var b := Ocho(r);
    HastaNulOcho(r);
    HastaNulTodo(b);
    var h := HastaNul(r);
    assert h == r[..|h|];
    forall i | 0 <= i < e1
      ensures texto[i] != 0
    {
      if i < e0 {
        assert texto[i] == texto[..e0][i];
      } else {
        assert texto[i] == r[i - e0] == h[i - e0];
      }
    }
    HastaAqui(texto, e1);
    if e1 < largo && |h| < 8 {
      assert |h| < |r| ==> texto[e1] == r[|h|];
    }
  }

  lemma PalabraCero(b: Bytes)
    requires |b| <= 8 && DeLE(Ocho(b)) == 0
    ensures b == [] || b[0] == 0
  {
  }

  /** `n` bytes without NUL are a beginning of what comes before the first NUL. */
  lemma {:induction false} HastaAqui(texto: Bytes, n: nat)
    requires n <= |texto| && SinNul(texto[..n])
    ensures n <= |HastaNul(texto)| && HastaNul(texto)[..n] == texto[..n]
    ensures n == |texto| || texto[n] == 0 ==> n == |HastaNul(texto)|
  {
    if n > 0 {
      assert texto[0] == texto[..n][0] && texto[1..][..n - 1] == texto[..n][1..];
      HastaAqui(texto[1..], n - 1);
    }
  }

  // -- Several processes on one line ---------------------------------------------------------------------------

  function Traza(es: seq<Evento>, tope: nat): Renglon {
    if es == [] then Renglon(NADIE, []) else Paso(Traza(es[..|es| - 1], tope), es[|es| - 1], tope)
  }

  /** What `pid` itself put in since it or another one last emptied the line, looking back from the end. */
  function Propios(es: seq<Evento>, pid: nat): Bytes {
    if es == [] then []
    else
      var antes := es[..|es| - 1];
      match es[|es| - 1]
      case Limpia(_) => []
      case Meten(p, b) => if p == pid then Propios(antes, pid) + b else []
      case Toma(p) => if p == pid then [] else Propios(antes, pid)
  }

  /** In any interleaving of any processes, what one takes is only bytes of its own, in their order, with
      none missing in between, as far as the line goes. */
  lemma {:induction false} SinMezcla(es: seq<Evento>, pid: nat, tope: nat)
    ensures Suyo(Traza(es, tope), pid) == Mete([], Propios(es, pid), tope)
  {
    if es != [] {
      var antes, e := es[..|es| - 1], es[|es| - 1];
      SinMezcla(antes, pid, tope);
      if e.Meten? && e.pid == pid {
        MeteEnDos([], Propios(antes, pid), e.bytes, tope);
      }
    }
  }
}
