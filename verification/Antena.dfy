/** The ANTENA/1 conversation of `antena.py`: what is read, what is answered and in which order. */
module Antena {
  import opened Textos
  import LaminaJuez
  import LaminaServir

  const LINEA_MAX := 256
  const LISTA_MAX := 64
  const LINEAS_MAX := 72
  const TEXTO_MAX := 160
  const SALUDO := "HOLA ANTENA/1"

  // -- Titles and the catalogue -----------------------------------------------------------------------

  function Visibles(s: string): (r: string)
    ensures |r| == |s|
    ensures TodoImprimible(r)
  {
    if s == "" then "" else [if EsImprimible(s[0]) then s[0] else '?'] + Visibles(s[1..])
  }

  /** `limpio`: what BMO-X takes as a title. */
  function Limpio(s: string): (r: string)
    ensures 1 <= |r| <= TEXTO_MAX && TodoImprimible(r)
  {
    var t := Visibles(s);
    var u := if |t| <= TEXTO_MAX then t else t[..TEXTO_MAX];
    if u == "" then "?" else u
  }

  /** What `catalogo` finds in the folder, sorted: videos and pages. */
  datatype Carpeta = Carpeta(videos: seq<string>, paginas: seq<string>)

  type Entrada = (string, string)

  function Numera(letra: char, nombres: seq<string>): (r: seq<Entrada>)
    ensures |r| == |nombres|
  {
    seq(|nombres|, i requires 0 <= i < |nombres| => ([letra] + Decimal(i + 1), nombres[i]))
  }

  /** `catalogo`. */
  function Catalogo(c: Carpeta): (r: seq<Entrada>)
    ensures |r| <= LISTA_MAX
  {
    var lista := Numera('v', c.videos) + Numera('p', c.paginas);
    if |lista| <= LISTA_MAX then lista else lista[..LISTA_MAX]
  }

  lemma DecimalUnico(a: nat, b: nat)
    ensures Decimal(a) == Decimal(b) ==> a == b
  {
    ValorDecimal(a);
    ValorDecimal(b);
  }

  lemma CatalogoEntrada(c: Carpeta, i: nat)
    requires i < |Catalogo(c)|
    ensures Catalogo(c)[i]
            == if i < |c.videos| then ("v" + Decimal(i + 1), c.videos[i])
               else ("p" + Decimal(i - |c.videos| + 1), c.paginas[i - |c.videos|])
  {
  }

  /** No two entries share an id. */
  lemma IdsDistintos(c: Carpeta, i: nat, j: nat)
    requires i < j < |Catalogo(c)|
    ensures Catalogo(c)[i].0 != Catalogo(c)[j].0
  {
    hide Catalogo, Decimal;
    CatalogoEntrada(c, i);
    CatalogoEntrada(c, j);
    var n := |c.videos|;
    var a, b := if i < n then i + 1 else i - n + 1, if j < n then j + 1 else j - n + 1;
    DecimalUnico(a, b);
    var x, y := Catalogo(c)[i].0, Catalogo(c)[j].0;
    assert x[1..] == Decimal(a) && y[1..] == Decimal(b);
    assert x[0] == (if i < n then 'v' else 'p') && y[0] == (if j < n then 'v' else 'p');
  }

  /** `dict(catalogo(carpeta)).get(id)`. */
  function Busca(es: seq<Entrada>, id: string): Option<string> {
    if es == [] then None
    else if es[|es| - 1].0 == id then Some(es[|es| - 1].1)
    else Busca(es[..|es| - 1], id)
  }

  lemma {:induction false} BuscaHalla(es: seq<Entrada>, i: nat)
    requires i < |es| && forall a, b | 0 <= a < b < |es| :: es[a].0 != es[b].0
    ensures Busca(es, es[i].0) == Some(es[i].1)
  {
    if i < |es| - 1 {
      BuscaHalla(es[..|es| - 1], i);
    }
  }

  /** Every id of a listing is found again, as the file it was listed with, while the folder is the same. */
  lemma ListadoResuelve(c: Carpeta, i: nat)
    requires i < |Catalogo(c)|
    ensures Busca(Catalogo(c), Catalogo(c)[i].0) == Some(Catalogo(c)[i].1)
    ensures LaminaJuez.IdBueno(Catalogo(c)[i].0)
  {
    hide Catalogo, Decimal, Busca;
    forall a, b | 0 <= a < b < |Catalogo(c)|
      ensures Catalogo(c)[a].0 != Catalogo(c)[b].0
    {
      IdsDistintos(c, a, b);
    }
    BuscaHalla(Catalogo(c), i);
    CatalogoEntrada(c, i);
    IdDeCatalogo(if i < |c.videos| then 'v' else 'p', if i < |c.videos| then i + 1 else i - |c.videos| + 1);
  }

  lemma IdDeCatalogo(letra: char, n: nat)
    requires (letra == 'v' || letra == 'p') && n <= 64
    ensures LaminaJuez.IdBueno([letra] + Decimal(n))
  {
    hide Decimal;
    var d := Decimal(n);
    assert Pot10(2) == 100;
    LargoDecimal(n, 2);
    forall c <- [letra] + d
      ensures LaminaJuez.EsDeId(c)
    {
      if c in d {
        assert EsDigito(c);
      }
    }
  }

  predicate UrlValida(s: string) {
    var r := if "http://" <= s then s[7..] else if "https://" <= s then s[8..] else "";
    1 <= |r| <= 192 && forall c <- r :: '!' <= c <= '~'
  }

  // -- Reading a line ---------------------------------------------------------------------------------------

  datatype Lectura = Texto(linea: string, resto: string) | Cortada | Fuera

  /** The first line of a stream of bytes, with `datos` of it read already. */
  function LeeUna(s: string, datos: string): Lectura
    decreases |s|
  {
    if s == "" then Cortada
    else
      var d := datos + [s[0]];
      if |d| > LINEA_MAX + 2 then Fuera
      else if s[0] == '\n' then
        if TodoImprimible(SinFin(d)) then Texto(SinFin(d), s[1..]) else Fuera
      else LeeUna(s[1..], d)
  }

  /** What is read is short and visible. */
  lemma {:induction false} LineaCorta(s: string, datos: string)
    requires LeeUna(s, datos).Texto?
    ensures |LeeUna(s, datos).linea| <= LINEA_MAX + 2 && TodoImprimible(LeeUna(s, datos).linea)
    decreases |s|
  {
    var d := datos + [s[0]];
    if s[0] != '\n' {
      LineaCorta(s[1..], d);
    }
  }

  /** The first newline of `t` is at `n`, soon enough. */
  predicate AcabaEn(t: string, n: nat) { n < |t| && n < LINEA_MAX + 2 && t[n] == '\n' && '\n' !in t[..n] }

  /** What is read is the stream up to its first newline, without the line end; what is left is what follows
      it. The connection is over when there is no newline, and cut when the line is too long or has a
      character that cannot be seen. */
  lemma LeeUnaExacta(s: string)
    ensures match LeeUna(s, "")
            case Texto(l, resto) =>
              exists n: nat :: AcabaEn(s, n) && l == SinFin(s[..n]) && TodoImprimible(l) && resto == s[n + 1..]
            case Fuera =>
              || (exists n: nat :: AcabaEn(s, n) && !TodoImprimible(SinFin(s[..n])))
              || (|s| > LINEA_MAX + 2 && '\n' !in s[..LINEA_MAX + 2])
            case Cortada => |s| <= LINEA_MAX + 2 && '\n' !in s
  {
    LeeUnaDesde(s, "", s);
  }

  lemma {:induction false} LeeUnaDesde(s: string, datos: string, t: string)
    requires t == datos + s && '\n' !in datos && |datos| <= LINEA_MAX + 2
    ensures match LeeUna(s, datos)
            case Texto(l, resto) =>
              exists n: nat :: AcabaEn(t, n) && l == SinFin(t[..n]) && TodoImprimible(l) && resto == t[n + 1..]
            case Fuera =>
              || (exists n: nat :: AcabaEn(t, n) && !TodoImprimible(SinFin(t[..n])))
              || (|t| > LINEA_MAX + 2 && '\n' !in t[..LINEA_MAX + 2])
            case Cortada => |t| <= LINEA_MAX + 2 && '\n' !in t
    decreases |s|
  {
    hide TodoImprimible;
    if s == "" {
      assert t == datos;
    } else {
      var n := |datos|;
      var d := datos + [s[0]];
      assert t[..n] == datos && t[..n + 1] == d && t == d + s[1..];
      if |d| <= LINEA_MAX + 2 {
        if s[0] == '\n' {
          assert AcabaEn(t, n) && d[..|d| - 1] == datos && t[n + 1..] == s[1..];
        } else {
          LeeUnaDesde(s[1..], d, t);
        }
      }
    }
  }

  /** `ls` are exactly the first lines of the stream. */
  predicate Leidas(flujo: string, ls: seq<string>, resto: string)
    decreases |ls|
  {
    if ls == [] then flujo == resto
    else
      match LeeUna(flujo, "")
      case Texto(l, r) => l == ls[0] && Leidas(r, ls[1..], resto)
      case _ => false
  }

  lemma {:induction false} LeidasUnaMas(flujo: string, ls: seq<string>, resto: string)
    requires Leidas(flujo, ls, resto) && LeeUna(resto, "").Texto?
    ensures var l := LeeUna(resto, ""); Leidas(flujo, ls + [l.linea], l.resto)
    decreases |ls|
  {
    hide LeeUna;
    var l := LeeUna(resto, "");
    if ls == [] {
      assert Leidas(l.resto, [], l.resto);
    } else {
      LeidasUnaMas(LeeUna(flujo, "").resto, ls[1..], resto);
      assert (ls + [l.linea])[1..] == ls[1..] + [l.linea];
    }
  }

  // -- What is answered ------------------------------------------------------------------------------------------

  /** What the antenna sends, piece by piece. A page is sent with all its lines. */
  datatype Sale =
    | Hola(nombre: string)
    | Lista(n: nat)
    | Ficha(id: string, titulo: string)
    | No
    | Pagina(lineas: string)
    | Video(fichero: string)

  /** What the browser does with a page that it is asked for. */
  datatype Navegado = NoHay | NoPudo | Rompe | Da(datos: string)

  /** The world as it is when line `k` is answered. */
  datatype Mundo = Mundo(
    carpetas: nat -> Carpeta, dentro: (nat, string) -> bool, datos: (nat, string) -> string,
    ffmpeg: nat -> bool, navega: (nat, string) -> Navegado)

  /** Whether the conversation goes on: with the next line, no more, or cut with or without its reason. */
  datatype Sigue = Sigue | Acaba | Cuelga | Revienta

  datatype Respuesta = Respuesta(sale: seq<Sale>, sigue: Sigue)

  function Fichas(es: seq<Entrada>): (r: seq<Sale>)
    ensures |r| == |es|
    ensures forall i | 0 <= i < |es| :: r[i] == Ficha(es[i].0, Limpio(es[i].1))
  {
    seq(|es|, i requires 0 <= i < |es| => Ficha(es[i].0, Limpio(es[i].1)))
  }

  function DeLista(c: Carpeta): Respuesta {
    var es := Catalogo(c);
    Respuesta([Lista(|es|)] + Fichas(es), Sigue)
  }

  function DePide(id: string, k: nat, m: Mundo): Respuesta {
    if !LaminaJuez.IdBueno(id) then Respuesta([], Cuelga)
    else
      match Busca(Catalogo(m.carpetas(k)), id)
      case None => Respuesta([No], Sigue)
      case Some(f) =>
        if f == "" || !m.dentro(k, f) then Respuesta([No], Sigue)
        else if id[0] == 'p' then
          Respuesta([if LaminaJuez.Aceptada(m.datos(k, f))
                     then Pagina(LaminaServir.ConSaltos(LaminaServir.LineasServidas(m.datos(k, f))))
                     else No], Sigue)
        else Respuesta([if m.ffmpeg(k) then Video(f) else No], Acaba)
  }

  function DePagina(url: string, k: nat, m: Mundo): Respuesta {
    if !UrlValida(url) then Respuesta([], Cuelga)
    else
      match m.navega(k, url)
      case NoHay => Respuesta([No], Sigue)
      case NoPudo => Respuesta([No], Sigue)
      case Rompe => Respuesta([], Revienta)
      case Da(d) =>
        Respuesta([if LaminaJuez.Aceptada(d)
                   then Pagina(LaminaServir.ConSaltos(LaminaServir.NoVacias(Partir(d, '\n'))))
                   else No], Sigue)
  }

  function Responde(linea: string, k: nat, m: Mundo): Respuesta {
    if linea == "LISTA" then DeLista(m.carpetas(k))
    else if "PIDE " <= linea then DePide(linea[5..], k, m)
    else if "PAGINA " <= linea then DePagina(linea[7..], k, m)
    else Respuesta([], Cuelga)
  }

  /** The answers to the lines after the greeting, the first of them being line `k`. */
  function Charla(ls: seq<string>, k: nat, m: Mundo): (r: seq<Sale>) {
    if ls == [] then []
    else
      var a := Responde(ls[0], k, m);
      a.sale + if a.sigue == Sigue then Charla(ls[1..], k + 1, m) else []
  }

  /** All that is sent in a connection in which those lines were read. */
  function Conversacion(ls: seq<string>, nombre: string, m: Mundo): seq<Sale> {
    if ls == [] || ls[0] != SALUDO then [] else [Hola(Limpio(nombre))] + Charla(ls[1..], 1, m)
  }

  /** Every line but the last one was answered with leave to go on. */
  predicate Abierta(ls: seq<string>, k: nat, m: Mundo) {
    if ls == [] then true else Responde(ls[0], k, m).sigue == Sigue && Abierta(ls[1..], k + 1, m)
  }

  // -- The program --------------------------------------------------------------------------------------------------

  class Conexion {
    var flujo: string
    var enviado: seq<Sale>

    constructor (flujo: string)
      ensures this.flujo == flujo && enviado == []
    {
      this.flujo, enviado := flujo, [];
    }

    method Envia(s: Sale)
      modifies this`enviado
      ensures enviado == old(enviado) + [s]
    {
      enviado := enviado + [s];
    }
  }

  /** How a connection ends. */
  datatype Final = Bien | Colgada | Rota

  datatype Leido = LaLinea(linea: string) | Nada | FueraDeProtocolo

  class Linea {
    const c: Conexion
    var leidas: nat
    ghost var inicio: string
    ghost var lineas: seq<string>

    /** The lines read are the first ones of the stream, and the stream goes on where the last one ended. */
    ghost predicate Valid()
      reads this, c
    {
      && leidas == |lineas| <= LINEAS_MAX
      && Leidas(inicio, lineas, c.flujo)
    }

    constructor (c: Conexion)
      ensures Valid() && this.c == c && lineas == [] && leidas == 0 && inicio == c.flujo
    {
      this.c, leidas := c, 0;
      inicio, lineas := c.flujo, [];
    }

    /** `leer`. Time may run out at any byte. After anything but a line the connection is left. */
    method Leer() returns (r: Leido)
      requires Valid()
      modifies this, c`flujo
      ensures inicio == old(inicio) && leidas == old(leidas) + 1
      ensures r.LaLinea? ==> Valid() && lineas == old(lineas) + [r.linea] && old(leidas) < LINEAS_MAX
      ensures !r.LaLinea? ==> lineas == old(lineas)
      ensures |c.flujo| <= |old(c.flujo)| && (r.LaLinea? ==> |c.flujo| < |old(c.flujo)|)
    {
      hide SinFin, Leidas;
      leidas := leidas + 1;
      if leidas > LINEAS_MAX {
        return FueraDeProtocolo;
      }
      ghost var s := c.flujo;
      var datos := "";
      while datos == "" || datos[|datos| - 1] != '\n'
        invariant inicio == old(inicio) && leidas == old(leidas) + 1 && lineas == old(lineas)
        invariant |datos| <= LINEA_MAX + 2
        invariant |c.flujo| + |datos| == |s|
        invariant if datos != "" && datos[|datos| - 1] == '\n'
                  then LeeUna(s, "")
                       == if TodoImprimible(SinFin(datos)) then Texto(SinFin(datos), c.flujo) else Fuera
                  else LeeUna(s, "") == LeeUna(c.flujo, datos)
        decreases |c.flujo|
      {
        if * {
          return FueraDeProtocolo;
        }
        if c.flujo == "" {
          return Nada;
        }
        datos := datos + [c.flujo[0]];
        c.flujo := c.flujo[1..];
        if |datos| > LINEA_MAX + 2 {
          return FueraDeProtocolo;
        }
      }
      var texto := SinFin(datos);
      if !TodoImprimible(texto) {
        return FueraDeProtocolo;
      }
      LeidasUnaMas(inicio, lineas, s);
      lineas := lineas + [texto];
      return LaLinea(texto);
    }
  }

  /** The answer to one line. */
  method Contesta(c: Conexion, linea: string, k: nat, m: Mundo) returns (sigue: Sigue)
    modifies c`enviado
    ensures c.enviado == old(c.enviado) + Responde(linea, k, m).sale && sigue == Responde(linea, k, m).sigue
  {
    hide Catalogo, LaminaJuez.IdBueno, UrlValida, Busca, Limpio;
    if linea == "LISTA" {
      var lista := Catalogo(m.carpetas(k));
      c.Envia(Lista(|lista|));
      for i := 0 to |lista|
        invariant c.enviado == old(c.enviado) + [Lista(|lista|)] + Fichas(lista)[..i]
      {
        assert Fichas(lista)[..i + 1] == Fichas(lista)[..i] + [Fichas(lista)[i]];
        c.Envia(Ficha(lista[i].0, Limpio(lista[i].1)));
      }
      assert Fichas(lista)[..|lista|] == Fichas(lista);
      assert old(c.enviado) + [Lista(|lista|)] + Fichas(lista) == old(c.enviado) + ([Lista(|lista|)] + Fichas(lista));
      return Sigue;
    } else if "PIDE " <= linea {
      var id := linea[5..];
      if !LaminaJuez.IdBueno(id) {
        assert c.enviado == old(c.enviado) + [];
        return Cuelga;
      }
      var fichero := Busca(Catalogo(m.carpetas(k)), id);
      if fichero.None? || fichero.value == "" || !m.dentro(k, fichero.value) {
        c.Envia(No);
        return Sigue;
      }
      assert id != "" by { IdNoVacio(id); }
      if id[0] == 'p' {
        var enviado, aceptada := LaminaServir.ServirLamina(m.datos(k, fichero.value));
        c.Envia(if aceptada then Pagina(enviado) else No);
        return Sigue;
      }
      c.Envia(if m.ffmpeg(k) then Video(fichero.value) else No);
      return Acaba;
    } else if "PAGINA " <= linea {
      var url := linea[7..];
      if !UrlValida(url) {
        assert c.enviado == old(c.enviado) + [];
        return Cuelga;
      }
      match m.navega(k, url) {
        case NoHay =>
          c.Envia(No);
          return Sigue;
        case NoPudo =>
          c.Envia(No);
          return Sigue;
        case Rompe =>
          assert c.enviado == old(c.enviado) + [];
          return Revienta;
        case Da(d) =>
          var enviado, aceptada := LaminaServir.ServirPagina(d);
          c.Envia(if aceptada then Pagina(enviado) else No);
          return Sigue;
      }
    }
    assert c.enviado == old(c.enviado) + [];
    return Cuelga;
  }

  lemma IdNoVacio(id: string)
    requires LaminaJuez.IdBueno(id)
    ensures id != ""
  {
  }

  /** `atender`. `ls` are the lines that were read: the first ones of the stream, and at most 72. What was
      sent is the conversation that they make. */
  method Atiende(c: Conexion, nombre: string, m: Mundo) returns (fin: Final, ghost ls: seq<string>)
    requires c.enviado == []
    modifies c
    ensures |ls| <= LINEAS_MAX && exists resto :: Leidas(old(c.flujo), ls, resto)
    ensures c.enviado == Conversacion(ls, nombre, m)
  {
    hide Leidas, Limpio, Responde;
    var lineas := new Linea(c);
    var primera := lineas.Leer();
    if !primera.LaLinea? || primera.linea != SALUDO {
      ls := lineas.lineas;
      assert primera.LaLinea? ==> Leidas(old(c.flujo), ls, c.flujo);
      LeidasNada(old(c.flujo));
      return Colgada, ls;
    }
    c.Envia(Hola(Limpio(nombre)));
    ls := lineas.lineas;
    assert ls == [SALUDO] && ls[1..] == [];
    while true
      invariant lineas.Valid() && lineas.c == c && lineas.lineas == ls && lineas.inicio == old(c.flujo)
      invariant fresh(lineas) && |ls| >= 1 && ls[0] == SALUDO
      invariant c.enviado == [Hola(Limpio(nombre))] + Charla(ls[1..], 1, m) && Abierta(ls[1..], 1, m)
      decreases |c.flujo|
    {
      ghost var antes := c.flujo;
      var l := lineas.Leer();
      if !l.LaLinea? {
        assert Leidas(old(c.flujo), ls, antes);
        return if l.Nada? then Bien else Colgada, ls;
      }
      ghost var dichas := ls[1..];
      ls := ls + [l.linea];
      assert ls[1..] == dichas + [l.linea];
      var sigue := Contesta(c, l.linea, lineas.leidas - 1, m);
      CharlaUnaMas(dichas, l.linea, 1, m);
      if sigue != Sigue {
        assert Leidas(old(c.flujo), ls, c.flujo);
        return match sigue case Acaba => Bien case Cuelga => Colgada case _ => Rota, ls;
      }
    }
  }

  lemma LeidasNada(flujo: string)
    ensures Leidas(flujo, [], flujo)
  {
  }

  lemma CharlaUna(l: string, k: nat, m: Mundo)
    ensures Charla([l], k, m) == Responde(l, k, m).sale
    ensures Abierta([l], k, m) <==> Responde(l, k, m).sigue == Sigue
  {
    hide Responde;
    assert [l][1..] == [];
    SinMas(Responde(l, k, m).sale);
  }

  lemma CharlaResto(ls: seq<string>, k: nat, m: Mundo)
    requires ls != [] && Responde(ls[0], k, m).sigue == Sigue
    ensures Charla(ls, k, m) == Responde(ls[0], k, m).sale + Charla(ls[1..], k + 1, m)
    ensures Abierta(ls, k, m) <==> Abierta(ls[1..], k + 1, m)
  {
    hide Responde;
  }

  lemma {:induction false} CharlaUnaMas(ls: seq<string>, l: string, k: nat, m: Mundo)
    requires Abierta(ls, k, m)
    ensures Charla(ls + [l], k, m) == Charla(ls, k, m) + Responde(l, k + |ls|, m).sale
    ensures Abierta(ls + [l], k, m) <==> Responde(l, k + |ls|, m).sigue == Sigue
  {
    hide Responde;
    var r := Responde(l, k + |ls|, m);
    if ls == [] {
      assert [] + [l] == [l] && [] + r.sale == r.sale;
      CharlaUna(l, k, m);
    } else {
      CharlaUnaMas(ls[1..], l, k + 1, m);
      CharlaResto(ls, k, m);
      CharlaResto(ls + [l], k, m);
      assert (ls + [l])[1..] == ls[1..] + [l];
      Asocia(Responde(ls[0], k, m).sale, Charla(ls[1..], k + 1, m), r.sale);
    }
  }

  // -- What holds of every conversation ------------------------------------------------------------------------------

  /** Nothing is sent before the right greeting, and the greeting is answered first and once. */
  lemma SaludoPrimero(ls: seq<string>, nombre: string, m: Mundo)
    ensures var e := Conversacion(ls, nombre, m);
            && (e != [] ==> ls != [] && ls[0] == SALUDO && e[0] == Hola(Limpio(nombre)))
            && forall i | 1 <= i < |e| :: !e[i].Hola?
  {
    hide Limpio;
    if ls != [] && ls[0] == SALUDO {
      SinHola(ls[1..], 1, m);
    }
  }

  lemma {:induction false} SinHola(ls: seq<string>, k: nat, m: Mundo)
    ensures forall s <- Charla(ls, k, m) :: !s.Hola?
  {
    hide Catalogo, LaminaJuez.IdBueno, UrlValida, Busca, Limpio;
    if ls != [] {
      SinHola(ls[1..], k + 1, m);
    }
  }

  predicate VideoUltimo(e: seq<Sale>) { forall i | 0 <= i < |e| :: e[i].Video? ==> i == |e| - 1 }

  /** A video is the last thing that is sent. */
  lemma VideoAlFinal(ls: seq<string>, nombre: string, m: Mundo)
    ensures VideoUltimo(Conversacion(ls, nombre, m))
  {
    hide Limpio, Charla;
    if ls != [] && ls[0] == SALUDO {
      VideoEnCharla(ls[1..], 1, m);
      var e, r := Conversacion(ls, nombre, m), Charla(ls[1..], 1, m);
      assert e == [Hola(Limpio(nombre))] + r;
      forall i | 0 <= i < |e| - 1
        ensures !e[i].Video?
      {
        if i == 0 {
          assert e[i] == Hola(Limpio(nombre));
        } else {
          assert e[i] == r[i - 1] && 0 <= i - 1 < |r| - 1;
        }
      }
    }
  }

  lemma SoloVideoAcaba(linea: string, k: nat, m: Mundo)
    ensures var a := Responde(linea, k, m);
            if a.sigue == Sigue then forall s <- a.sale :: !s.Video? else |a.sale| <= 1
  {
    hide Catalogo, LaminaJuez.IdBueno, UrlValida, Busca, Limpio;
  }

  lemma {:induction false} VideoEnCharla(ls: seq<string>, k: nat, m: Mundo)
    ensures VideoUltimo(Charla(ls, k, m))
  {
    hide Responde;
    if ls != [] {
      SoloVideoAcaba(ls[0], k, m);
      var a := Responde(ls[0], k, m);
      if a.sigue == Sigue {
        VideoEnCharla(ls[1..], k + 1, m);
        var e, r := Charla(ls, k, m), Charla(ls[1..], k + 1, m);
        forall i | 0 <= i < |e| - 1
          ensures !e[i].Video?
        {
          if i < |a.sale| {
            assert e[i] == a.sale[i] && a.sale[i] in a.sale;
          } else {
            assert e[i] == r[i - |a.sale|] && 0 <= i - |a.sale| < |r| - 1;
          }
        }
      } else {
        assert a.sale + [] == a.sale;
      }
    }
  }

  /** What follows the announcement of `n` entries: `n` entries of the folder as it then was, in order. */
  predicate ListaEntera(e: seq<Sale>, i: nat, c: Carpeta)
    requires i < |e| && e[i].Lista?
  {
    && e[i].n == |Catalogo(c)| <= LISTA_MAX
    && i + e[i].n < |e|
    && e[i + 1..i + 1 + e[i].n] == Fichas(Catalogo(c))
    && (i + 1 + e[i].n < |e| ==> !e[i + 1 + e[i].n].Ficha?)
  }

  /** Line `k` asks for a listing, the first line of `ls` being line `k0`. */
  predicate PideLista(ls: seq<string>, k0: nat, k: nat) { k0 <= k < k0 + |ls| && ls[k - k0] == "LISTA" }

  ghost predicate TodasEnteras(e: seq<Sale>, m: Mundo, ls: seq<string>, k0: nat) {
    forall i | 0 <= i < |e| && e[i].Lista? :: exists k | PideLista(ls, k0, k) :: ListaEntera(e, i, m.carpetas(k))
  }

  /** Every announcement is of at most 64 entries and is followed by exactly that many, those of the
      folder when a line that asked for a listing was answered. */
  lemma ListasEnteras(ls: seq<string>, nombre: string, m: Mundo)
    ensures TodasEnteras(Conversacion(ls, nombre, m), m, ls, 0)
  {
    hide Limpio, ListaEntera, Charla;
    if ls != [] && ls[0] == SALUDO {
      ListasEnCharla(ls[1..], 1, m);
      UnaLineaAntes(Charla(ls[1..], 1, m), m, ls, 0);
      TodasMovidas([Hola(Limpio(nombre))], Charla(ls[1..], 1, m), m, ls, 0);
    }
  }

  lemma UnaLineaAntes(e: seq<Sale>, m: Mundo, ls: seq<string>, k0: nat)
    requires ls != [] && TodasEnteras(e, m, ls[1..], k0 + 1)
    ensures TodasEnteras(e, m, ls, k0)
  {
    hide ListaEntera;
    forall i | 0 <= i < |e| && e[i].Lista?
      ensures exists k | PideLista(ls, k0, k) :: ListaEntera(e, i, m.carpetas(k))
    {
      var k :| PideLista(ls[1..], k0 + 1, k) && ListaEntera(e, i, m.carpetas(k));
      assert PideLista(ls, k0, k);
    }
  }

  /** Whole listings stay whole after something that announces none. */
  lemma TodasMovidas(a: seq<Sale>, e: seq<Sale>, m: Mundo, ls: seq<string>, k0: nat)
    requires TodasEnteras(e, m, ls, k0) && forall s <- a :: !s.Lista?
    ensures TodasEnteras(a + e, m, ls, k0)
  {
    hide ListaEntera, PideLista;
    forall j | 0 <= j < |a|
      ensures !(a + e)[j].Lista?
    {
      assert (a + e)[j] == a[j] && a[j] in a;
    }
    forall i | 0 <= i < |a + e| && (a + e)[i].Lista?
      ensures exists k | PideLista(ls, k0, k) :: ListaEntera(a + e, i, m.carpetas(k))
    {
      assert (a + e)[i] == e[i - |a|];
      var k :| PideLista(ls, k0, k) && ListaEntera(e, i - |a|, m.carpetas(k));
      ListaMovida(a, e, i - |a|, m.carpetas(k));
    }
  }

  lemma ListaMovida(a: seq<Sale>, e: seq<Sale>, i: nat, c: Carpeta)
    requires i < |e| && e[i].Lista? && ListaEntera(e, i, c)
    ensures ListaEntera(a + e, |a| + i, c)
  {
    hide Fichas, Catalogo;
    var t, n := a + e, e[i].n;
    assert t[|a| + i] == e[i];
    assert t[|a| + i + 1..|a| + i + 1 + n] == e[i + 1..i + 1 + n];
  }

  lemma {:induction false} ListasEnCharla(ls: seq<string>, k: nat, m: Mundo)
    ensures TodasEnteras(Charla(ls, k, m), m, ls, k)
  {
    hide ListaEntera, Fichas, Catalogo, DePide, DePagina, Responde, TodasEnteras;
    if ls != [] {
      var a := Responde(ls[0], k, m);
      SoloListaLista(ls[0], k, m);
      var r := if a.sigue == Sigue then Charla(ls[1..], k + 1, m) else [];
      if a.sigue == Sigue {
        ListasEnCharla(ls[1..], k + 1, m);
        UnaLineaAntes(r, m, ls, k);
        EmpiezaSinFicha(ls[1..], k + 1, m);
      } else {
        NadaEntero(m, ls, k);
      }
      if ls[0] == "LISTA" {
        ListaYMas(m, k, r, ls);
      } else {
        TodasMovidas(a.sale, r, m, ls, k);
      }
    } else {
      NadaEntero(m, ls, k);
    }
  }

  lemma NadaEntero(m: Mundo, ls: seq<string>, k: nat)
    ensures TodasEnteras([], m, ls, k)
  {
  }

  lemma ListaYMas(m: Mundo, k: nat, r: seq<Sale>, ls: seq<string>)
    requires TodasEnteras(r, m, ls, k) && (r != [] ==> !r[0].Ficha?) && ls != [] && ls[0] == "LISTA"
    ensures TodasEnteras(DeLista(m.carpetas(k)).sale + r, m, ls, k)
  {
    hide ListaEntera, Catalogo;
    var c := m.carpetas(k);
    var lista := [Lista(|Catalogo(c)|)];
    var fichas := Fichas(Catalogo(c));
    var e := lista + fichas + r;
    TodasMovidas(fichas, r, m, ls, k);
    ListaAqui(c, r);
    assert PideLista(ls, k, k);
    forall i | 0 <= i < |e| && e[i].Lista?
      ensures exists j | PideLista(ls, k, j) :: ListaEntera(e, i, m.carpetas(j))
    {
      if i > 0 {
        assert e[i] == (fichas + r)[i - 1];
        var j :| PideLista(ls, k, j) && ListaEntera(fichas + r, i - 1, m.carpetas(j));
        ListaMovida(lista, fichas + r, i - 1, m.carpetas(j));
        assert e == lista + (fichas + r);
      }
    }
  }

  lemma ListaAqui(c: Carpeta, r: seq<Sale>)
    requires r != [] ==> !r[0].Ficha?
    ensures ListaEntera([Lista(|Catalogo(c)|)] + Fichas(Catalogo(c)) + r, 0, c)
  {
    hide Catalogo;
    var n := |Catalogo(c)|;
    var e := [Lista(n)] + Fichas(Catalogo(c)) + r;
    assert e[1..1 + n] == Fichas(Catalogo(c));
    assert 1 + n < |e| ==> e[1 + n] == r[0];
    assert n <= LISTA_MAX by { CatalogoCorto(c); }
  }

  lemma CatalogoCorto(c: Carpeta)
    ensures |Catalogo(c)| <= LISTA_MAX
  {
  }

  /** An announcement is only made first, and only for `LISTA`. */
  lemma SoloListaLista(linea: string, k: nat, m: Mundo)
    ensures var a := Responde(linea, k, m);
            && (linea == "LISTA" ==> a == DeLista(m.carpetas(k)))
            && (linea != "LISTA" ==> forall s <- a.sale :: !s.Lista? && !s.Ficha?)
            && (linea == "LISTA" ==> a.sigue == Sigue)
  {
    hide Catalogo, LaminaJuez.IdBueno, UrlValida, Busca, Limpio;
  }

  lemma {:induction false} EmpiezaSinFicha(ls: seq<string>, k: nat, m: Mundo)
    ensures Charla(ls, k, m) != [] ==> !Charla(ls, k, m)[0].Ficha?
  {
    hide Catalogo, LaminaJuez.IdBueno, UrlValida, Busca, Limpio;
    if ls != [] {
      EmpiezaSinFicha(ls[1..], k + 1, m);
    }
  }

  /** If the folder has not changed since it was listed, asking for a listed id answers with the very file
      that was listed: its video, or its page if it passes the judge. */
  lemma PideLoListado(m: Mundo, k: nat, i: nat)
    requires i < |Catalogo(m.carpetas(k))|
    requires var f := Catalogo(m.carpetas(k))[i].1; f != "" && m.dentro(k, f)
    ensures var (id, f) := Catalogo(m.carpetas(k))[i];
            Responde("PIDE " + id, k, m)
            == if i < |m.carpetas(k).videos| then Respuesta([if m.ffmpeg(k) then Video(f) else No], Acaba)
               else Respuesta([if LaminaJuez.Aceptada(m.datos(k, f))
                               then Pagina(LaminaServir.ConSaltos(LaminaServir.LineasServidas(m.datos(k, f))))
                               else No], Sigue)
  {
    hide Catalogo, Busca, Decimal, LaminaJuez.IdBueno;
    var c := m.carpetas(k);
    var (id, f) := Catalogo(c)[i];
    ListadoResuelve(c, i);
    CatalogoEntrada(c, i);
    var linea := "PIDE " + id;
    assert linea[5..] == id && "PIDE " <= linea && linea != "LISTA";
    assert id[0] == if i < |c.videos| then 'v' else 'p';
  }
}
