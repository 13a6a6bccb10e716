/** The walker of `lamina.js` as the source has it: shared lines, tables and counters that change
    while the DOM is walked, capped at 4096 lines. Proved against `LaminaPinta`. */
module LaminaEmisor {
  import opened Textos
  import opened LaminaJuez
  import opened LaminaJs
  import opened LaminaPinta

  function Tope(els: seq<Elemento>): (r: seq<Elemento>)
    ensures |r| <= ELEMENTOS_MAX
  {
    if |els| <= ELEMENTOS_MAX then els else els[..ELEMENTOS_MAX]
  }

  lemma TopeMas(a: seq<Elemento>, es: seq<Elemento>)
    ensures |a| >= ELEMENTOS_MAX ==> Tope(a + es) == Tope(a)
    ensures |a + es| <= ELEMENTOS_MAX ==> Tope(a + es) == a + es
  {
    if |a| >= ELEMENTOS_MAX {
      assert (a + es)[..ELEMENTOS_MAX] == a[..ELEMENTOS_MAX];
      assert a[..|a|] == a;
    }
  }

  // -- The lines as the source writes them ------------------------------------------------------

  function ZonaLinea(z: Recorte): string { Unir([Decimal(z.x), Decimal(z.y), Decimal(z.w), Decimal(z.h)], ' ') }

  lemma UnirUno(a: string, ps: seq<string>)
    requires |ps| >= 1
    ensures Unir([a] + ps, ' ') == a + " " + Unir(ps, ' ')
  {
    assert ([a] + ps)[1..] == ps;
  }

  lemma LineaDeZona(v: Verbo, z: Recorte, marca: string)
    ensures Imprime(ZonaDeVerbo(v, z, marca)) == Nombre(v) + " " + ZonaLinea(z) + " " + marca
  {
    hide Unir, Decimal, Nombre;
    var medio := [Decimal(z.x), Decimal(z.y), Decimal(z.w), Decimal(z.h)];
    assert Campos(ZonaDeVerbo(v, z, marca)) == [Nombre(v)] + medio + [marca];
    UnirUno(Nombre(v), medio);
    UnirConcat([Nombre(v)] + medio, [marca], ' ');
    UnirSolo(marca);
  }

  lemma UnirSolo(a: string)
    ensures Unir([a], ' ') == a
  {
  }

  /** The strip as the source concatenates it. */
  function LineaTira(x: nat, y: nat, e: nat, color: string, texto: string): string {
    "TEXTO " + (Decimal(x) + " " + (Decimal(y) + " " + (Decimal(e) + " " + (color + " " + texto))))
  }

  lemma LineaDeTira(x: nat, y: nat, e: nat, color: string, texto: string)
    ensures Imprime(Tira(x, y, e, color, texto)) == LineaTira(x, y, e, color, texto)
  {
    hide Unir, Decimal;
    assert Campos(Tira(x, y, e, color, texto)) ==
           ["TEXTO"] + ([Decimal(x)] + ([Decimal(y)] + ([Decimal(e)] + ([color] + [texto]))));
    UnirSolo(texto);
    UnirUno(color, [texto]);
    UnirUno(Decimal(e), [color] + [texto]);
    UnirUno(Decimal(y), [Decimal(e)] + ([color] + [texto]));
    UnirUno(Decimal(x), [Decimal(y)] + ([Decimal(e)] + ([color] + [texto])));
    UnirUno("TEXTO", [Decimal(x)] + ([Decimal(y)] + ([Decimal(e)] + ([color] + [texto]))));
    assert "TEXTO" + " " == "TEXTO ";
  }

  lemma {:induction false} ImprimeMas(a: seq<Elemento>, b: seq<Elemento>)
    ensures ImprimeTodos(a + b) == ImprimeTodos(a) + ImprimeTodos(b)
  {
    if a == [] {
      assert a + b == b;
    } else {
      assert (a + b)[1..] == a[1..] + b;
      ImprimeMas(a[1..], b);
    }
  }

  // -- The tables that answer for the ids --------------------------------------------------------

  /** The ids of IMAGEN, ENLACE and CAMPO that some element used. */
  datatype Tablas = Tablas(imagenes: map<string, string>, enlaces: map<string, string>, campos: map<string, string>)

  predicate EnTabla(el: Elemento, t: Tablas) {
    el.Zona? ==>
      && (el.verbo == IMAGEN ==> el.marca in t.imagenes)
      && (el.verbo == ENLACE ==> el.marca in t.enlaces)
      && (el.verbo == CAMPO ==> el.marca in t.campos)
  }

  /** Every id on the page has its row in the table of its kind. */
  predicate EnTablas(els: seq<Elemento>, t: Tablas) {
    els == [] || (EnTabla(els[|els| - 1], t) && EnTablas(els[..|els| - 1], t))
  }

  predicate Mas(t: Tablas, u: Tablas) {
    t.imagenes.Keys <= u.imagenes.Keys && t.enlaces.Keys <= u.enlaces.Keys && t.campos.Keys <= u.campos.Keys
  }

  lemma {:induction false} TablasCrecen(els: seq<Elemento>, t: Tablas, u: Tablas)
    requires EnTablas(els, t) && Mas(t, u)
    ensures EnTablas(els, u)
  {
    if els != [] {
      TablasCrecen(els[..|els| - 1], t, u);
    }
  }

  lemma {:induction false} EnTablasTodos(els: seq<Elemento>, t: Tablas)
    requires EnTablas(els, t)
    ensures forall el <- els :: EnTabla(el, t)
  {
    if els != [] {
      EnTablasTodos(els[..|els| - 1], t);
      assert els == els[..|els| - 1] + [els[|els| - 1]];
    }
  }

  /** The pieces still to come from position `i` of the text. */
  function TrozosDesde(x: nat, y: nat, e: nat, color: string, texto: string, i: nat, caben: nat): seq<Elemento> {
    Trozos(x, y, e, color, if i < |texto| then texto[i..] else "", caben)
  }

  /** `texto.substr(i, caben)` */
  function Trozo(texto: string, i: nat, caben: nat): string
    requires i < |texto|
  {
    texto[i..if caben < |texto| - i then i + caben else |texto|]
  }

  lemma TrozosPaso(x: nat, y: nat, e: nat, color: string, texto: string, i: nat, caben: nat)
    requires i < |texto| && caben > 0
    ensures var resto := TrozosDesde(x, y, e, color, texto, i + caben, caben);
            TrozosDesde(x, y, e, color, texto, i, caben) ==
            if HayLetra(Trozo(texto, i, caben)) then [Tira(x, y, e, color, Trozo(texto, i, caben))] + resto else resto
  {
    hide HayLetra;
    var n := if caben < |texto| - i then caben else |texto| - i;
    var resto := texto[i..];
    assert resto[..n] == texto[i..i + n];
    assert resto[n..] == if i + caben < |texto| then texto[i + caben..] else "";
  }

  lemma UnoMas(a: seq<Elemento>, el: Elemento, b: seq<Elemento>)
    ensures a + ([el] + b) == (a + [el]) + b
  {
  }

  /** The walk in progress. The ghost fields say what it has asked for so far, cap or no cap, and the
      counters that an uncapped walk would have. */
  class Emisor {
    const p: Pagina
    var lineas: seq<string>
    var tablas: Tablas
    var nImg: nat
    var nEnl: nat
    var nCam: nat
    var truncada: bool
    ghost var pedido: seq<Elemento>
    ghost var c: Contadores

    ghost predicate Valid()
      reads this
    {
      && lineas == ImprimeTodos(Tope(pedido))
      && (truncada ==> |lineas| == ELEMENTOS_MAX)
      && (!truncada ==> |pedido| <= ELEMENTOS_MAX && c == Contadores(nImg, nEnl, nCam))
      && EnTablas(Tope(pedido), tablas)
    }

    constructor (p: Pagina)
      ensures Valid() && this.p == p && pedido == [] && c == Contadores(0, 0, 0) && !truncada
    {
      this.p := p;
      lineas, pedido, truncada := [], [], false;
      tablas := Tablas(map[], map[], map[]);
      nImg, nEnl, nCam, c := 0, 0, 0, Contadores(0, 0, 0);
    }

    /** `poner`: one more line, or the page is marked as cut. */
    method Poner(l: string, ghost el: Elemento) returns (ok: bool)
      requires Valid()
      requires |lineas| < ELEMENTOS_MAX ==> l == Imprime(el) && EnTabla(el, tablas)
      modifies this`lineas, this`truncada, this`pedido
      ensures Valid() && pedido == old(pedido) + [el]
      ensures truncada == (old(truncada) || !ok) && ok == (|old(lineas)| < ELEMENTOS_MAX)
      ensures |old(lineas)| <= |lineas|
    {
      TopeMas(pedido, [el]);
      pedido := pedido + [el];
      if |lineas| >= ELEMENTOS_MAX {
        truncada := true;
        return false;
      }
      ImprimeMas(Tope(old(pedido)), [el]);
      assert Tope(pedido)[..|Tope(pedido)| - 1] == Tope(old(pedido));
      lineas := lineas + [l];
      return true;
    }

    method PonerTira(x: nat, y: nat, e: nat, color: string, texto: string) returns (ok: bool)
      requires Valid()
      modifies this`lineas, this`truncada, this`pedido
      ensures Valid() && pedido == old(pedido) + [Tira(x, y, e, color, texto)]
      ensures truncada == (old(truncada) || !ok)
    {
      LineaDeTira(x, y, e, color, texto);
      ok := Poner(LineaTira(x, y, e, color, texto), Tira(x, y, e, color, texto));
    }

    /** What a full page never gets is still part of what was asked for. */
    ghost method Ignora(es: seq<Elemento>)
      requires Valid() && truncada
      modifies this`pedido
      ensures Valid() && pedido == old(pedido) + es
    {
      TopeMas(pedido, es);
      pedido := pedido + es;
    }

    /** `tira`: a strip cut into the pieces that fit, until the page is full. */
    method EmiteTira(x: nat, y: nat, e: nat, color: string, texto: string)
      requires Valid() && 1 <= e <= ESCALA_MAX
      modifies this`lineas, this`truncada, this`pedido
      ensures Valid() && (old(truncada) ==> truncada)
      ensures pedido == old(pedido) + Tiras(x, y, e, color, texto, p)
    {
      if y + LETRA_ALTO * e > p.H || x >= p.W {
        return;
      }
      EmiteTrozos(x, y, e, color, texto, Caben(x, e, p.W));
    }

    method EmiteTrozos(x: nat, y: nat, e: nat, color: string, texto: string, caben: nat)
      requires Valid()
      modifies this`lineas, this`truncada, this`pedido
      ensures Valid() && (old(truncada) ==> truncada)
      ensures pedido == old(pedido) + Trozos(x, y, e, color, texto, caben)
    {
      hide Trozo, HayLetra, EnTablas, ImprimeTodos;
      var i: nat := 0;
      ghost var faltan := Trozos(x, y, e, color, texto, caben);
      ghost var todo := pedido + faltan;
      while i < |texto| && caben > 0
        invariant Valid() && (old(truncada) ==> truncada)
        invariant faltan == TrozosDesde(x, y, e, color, texto, i, caben)
        invariant pedido + faltan == todo
        decreases |texto| - i
      {
        var trozo := Trozo(texto, i, caben);
        TrozosPaso(x, y, e, color, texto, i, caben);
        ghost var resto := TrozosDesde(x, y, e, color, texto, i + caben, caben);
        if HayLetra(trozo) {
          UnoMas(pedido, Tira(x, y, e, color, trozo), resto);
          var ok := PonerTira(x, y, e, color, trozo);
          if !ok {
            Ignora(resto);
            return;
          }
        }
        faltan := resto;
        i := i + caben;
      }
    }

    method EmiteRenglon(r: Renglon, e: nat, color: string)
      requires Valid() && 1 <= e <= ESCALA_MAX
      modifies this`lineas, this`truncada, this`pedido
      ensures Valid() && (old(truncada) ==> truncada)
      ensures pedido == old(pedido) + TirasDeFilas([r], e, color, p)
    {
      hide Tiras, EnTablas, ImprimeTodos;
      assert [r][..0] == [];
      assert TirasDeFilas([r], e, color, p) == [] + Tiras(r.x, r.y, e, color, r.texto, p);
      EmiteTira(r.x, r.y, e, color, r.texto);
    }

    /** One word of a text node: the row in progress goes out when the browser broke it. */
    method UnaPalabraMas(n: Nodo, w: string, f: Fila, e: nat, color: string) returns (g: Fila)
      requires Valid() && n.Txt? && 1 <= e <= ESCALA_MAX
      modifies this`lineas, this`truncada, this`pedido
      ensures Valid() && (old(truncada) ==> truncada)
      ensures g == UnaPalabra(n, w, f, p).1
      ensures pedido == old(pedido) + TirasDeFilas(UnaPalabra(n, w, f, p).0, e, color, p)
    {
      hide Original, ZonaDe, EnTablas, ImprimeTodos;
      var fin := f.pos + |w|;
      var fin0 := IndiceOriginal(n.valor, fin);
      var ini0 := IndiceOriginal(n.valor, f.ini);
      var rects := n.rects(ini0, fin0);
      var ini, textoFila := f.ini, f.texto;
      if |rects| > 1 {
        if f.sitio.Some? {
          EmiteRenglon(Renglon(f.sitio.value.0, f.sitio.value.1, QuitaBlancosFin(f.texto)), e, color);
        }
        ini, textoFila := f.pos, "";
        ini0 := IndiceOriginal(n.valor, ini);
        rects := n.rects(ini0, fin0);
      }
      var sitio := f.sitio;
      if |rects| > 0 {
        var z := ZonaDe(rects[0], p);
        sitio := if z.Some? then Some((z.value.x, z.value.y)) else sitio;
      }
      assert "" + w == w;
      g := Fila(ini, fin, sitio, textoFila + w);
    }

    /** `textoNodo`: the rows that the browser made, found word by word. */
    method TextoNodo(n: Nodo, estilo: Estilo)
      requires Valid() && n.Txt?
      modifies this`lineas, this`truncada, this`pedido
      ensures Valid() && (old(truncada) ==> truncada)
      ensures pedido == old(pedido) + PintaTexto(n, estilo, p)
    {
      hide TirasDeFilas, UnaPalabra, EnTablas, ImprimeTodos;
      SinFilas(EscalaDeEstilo(estilo), ColorDe(estilo.color), p);
      var s := JuntaBlancos(n.valor);
      if !HayLetra(s) {
        return;
      }
      var color := ColorDe(estilo.color);
      var escala := EscalaDeEstilo(estilo);
      var palabras := Palabras(s);
      var fila := Fila(0, 0, None, "");
      var i := 0;
      while i < |palabras|
        invariant 0 <= i <= |palabras|
        invariant Valid() && (old(truncada) ==> truncada)
        invariant fila == Filas(n, palabras, i, p).1
        invariant pedido == old(pedido) + TirasDeFilas(Filas(n, palabras, i, p).0, escala, color, p)
      {
        ghost var antes := Filas(n, palabras, i, p).0;
        ghost var nuevas := UnaPalabra(n, palabras[i], fila, p).0;
        TirasConcat(antes, nuevas, escala, color, p);
        Asocia(old(pedido), TirasDeFilas(antes, escala, color, p), TirasDeFilas(nuevas, escala, color, p));
        fila := UnaPalabraMas(n, palabras[i], fila, escala, color);
        i := i + 1;
      }
      ghost var todas := Filas(n, palabras, i, p).0;
      TirasConcat(todas, CierraFila(fila), escala, color, p);
      Asocia(old(pedido), TirasDeFilas(todas, escala, color, p), TirasDeFilas(CierraFila(fila), escala, color, p));
      if fila.sitio.Some? && HayLetra(fila.texto) {
        EmiteRenglon(Renglon(fila.sitio.value.0, fila.sitio.value.1, QuitaBlancosFin(fila.texto)), escala, color);
      }
    }

    /** A line for a zone. While the page is not full its id is the one an uncapped walk would give. */
    method PonerZona(v: Verbo, z: Recorte, marca: string, ghost ideal: string)
      requires Valid()
      requires |lineas| < ELEMENTOS_MAX ==> marca == ideal && EnTabla(ZonaDeVerbo(v, z, marca), tablas)
      modifies this`lineas, this`truncada, this`pedido
      ensures Valid() && (old(truncada) ==> truncada)
      ensures pedido == old(pedido) + [ZonaDeVerbo(v, z, ideal)] && |old(lineas)| <= |lineas|
    {
      hide EnTablas, ImprimeTodos;
      LineaDeZona(v, z, marca);
      var _ := Poner(Nombre(v) + " " + ZonaLinea(z) + " " + marca, ZonaDeVerbo(v, z, ideal));
    }

    /** `poner("CAJA ...")` for the background of an element. */
    method Fondo(el: Nodo, esBody: bool)
      requires Valid() && el.Elem?
      modifies this`lineas, this`truncada, this`pedido
      ensures Valid() && (old(truncada) ==> truncada)
      ensures pedido == old(pedido) + PintaFondo(el, esBody, p)
    {
      hide EnTablas, ImprimeTodos;
      var z := ZonaDe(el.rect, p);
      var fondo := Hex(el.estilo.fondo);
      if z.Some? && fondo.Some? && !esBody {
        PonerZona(CAJA, z.value, fondo.value, fondo.value);
      }
    }

    method Imagen(el: Nodo, z: Recorte)
      requires Valid() && el.Elem?
      modifies this
      ensures Valid() && (old(truncada) ==> truncada)
      ensures c == old(c).(img := Sig(old(c).img))
      ensures pedido == old(pedido) + [ZonaDeVerbo(IMAGEN, z, IdDe("img", c.img))]
    {
      hide EnTablas, ImprimeTodos;
      nImg := Sig(nImg);
      c := c.(img := Sig(c.img));
      var id := IdDe("img", nImg);
      TablasCrecen(Tope(pedido), tablas, tablas.(imagenes := tablas.imagenes[id := el.fuente]));
      tablas := tablas.(imagenes := tablas.imagenes[id := el.fuente]);
      PonerZona(IMAGEN, z, id, IdDe("img", c.img));
    }

    method Campo(el: Nodo, z: Recorte)
      requires Valid() && el.Elem?
      modifies this
      ensures Valid() && (old(truncada) ==> truncada)
      ensures c == old(c).(cam := Sig(old(c).cam))
      ensures pedido == old(pedido) + [ZonaDeVerbo(CAMPO, z, IdDe("c", c.cam))] + PintaValor(el, z, p)
    {
      hide EnTablas, ImprimeTodos, Tiras, Tope;
      nCam := Sig(nCam);
      c := c.(cam := Sig(c.cam));
      var id := IdDe("c", nCam);
      var nombre := if el.nombre != "" then el.nombre else id;
      TablasCrecen(Tope(pedido), tablas, tablas.(campos := tablas.campos[id := nombre]));
      tablas := tablas.(campos := tablas.campos[id := nombre]);
      PonerZona(CAMPO, z, id, IdDe("c", c.cam));
      if el.valorCampo != "" {
        var texto := Latin1(el.valorCampo, p.base);
        var sobra: int := (z.h - LETRA_ALTO) / 2;
        EmiteTira(z.x + 4, z.y + if sobra < 0 then 0 else sobra, 1, ColorDe(el.estilo.color), texto);
      }
    }

    /** A link takes one zone for each screen row it falls on. */
    method Enlace(el: Nodo)
      requires Valid() && el.Elem?
      modifies this
      ensures Valid() && (old(truncada) ==> truncada)
      ensures c == old(c).(enl := Sig(old(c).enl))
      ensures pedido == old(pedido) + PintaEnlaces(el.rectsLinea, IdDe("e", c.enl), p)
    {
      hide EnTablas, ImprimeTodos, PintaEnlaces;
      nEnl := Sig(nEnl);
      c := c.(enl := Sig(c.enl));
      var ide := IdDe("e", nEnl);
      TablasCrecen(Tope(pedido), tablas, tablas.(enlaces := tablas.enlaces[ide := el.destino]));
      tablas := tablas.(enlaces := tablas.enlaces[ide := el.destino]);
      ZonasDeEnlace(el.rectsLinea, ide, IdDe("e", c.enl));
    }

    method ZonasDeEnlace(rs: seq<Rect>, ide: string, ghost ideal: string)
      requires Valid() && (|lineas| < ELEMENTOS_MAX ==> ide == ideal && ide in tablas.enlaces)
      modifies this`lineas, this`truncada, this`pedido
      ensures Valid() && (old(truncada) ==> truncada)
      ensures pedido == old(pedido) + PintaEnlaces(rs, ideal, p)
    {
      hide EnTablas, ImprimeTodos, ZonaDe, Tope;
      var k := 0;
      while k < |rs|
        invariant 0 <= k <= |rs| && Valid() && (old(truncada) ==> truncada)
        invariant |lineas| < ELEMENTOS_MAX ==> ide == ideal && ide in tablas.enlaces
        invariant pedido == old(pedido) + PintaEnlaces(rs[..k], ideal, p)
      {
        assert rs[..k + 1][..k] == rs[..k];
        var ze := ZonaDe(rs[k], p);
        if ze.Some? {
          PonerZona(ENLACE, ze.value, ide, ideal);
        }
        k := k + 1;
      }
      assert rs[..k] == rs;
    }

    /** `recorrer`: the node and everything below it, in DOM order. */
    method Recorrer(el: Nodo, esBody: bool)
      requires Valid()
      modifies this
      ensures Valid() && (old(truncada) ==> truncada)
      ensures pedido == old(pedido) + Pinta(el, esBody, old(c), p).0
      ensures c == Pinta(el, esBody, old(c), p).1
      decreases el, 1
    {
      hide EnTablas, ImprimeTodos, PintaHijos, Tope, PintaFondo, PintaEnlaces, PintaValor, PintaTexto, ZonaDe;
      ghost var ideal := Pinta(el, esBody, c, p);
      if |lineas| >= ELEMENTOS_MAX {
        truncada := true;
        Ignora(ideal.0);
        c := ideal.1;
        return;
      }
      if !SeVe(el) {
        return;
      }
      var z := ZonaDe(el.rect, p);
      ghost var fondo := PintaFondo(el, esBody, p);
      Fondo(el, esBody);
      if z.Some? && el.tag == "IMG" {
        Imagen(el, z.value);
        Asocia(old(pedido), fondo, [ZonaDeVerbo(IMAGEN, z.value, IdDe("img", c.img))]);
        return;
      }
      if z.Some? && EsCampo(el) {
        Campo(el, z.value);
        ghost var zona := [ZonaDeVerbo(CAMPO, z.value, IdDe("c", c.cam))];
        Asocia(old(pedido), fondo, zona);
        Asocia(old(pedido), fondo + zona, PintaValor(el, z.value, p));
        return;
      }
      ghost var enlaces := [];
      if EsEnlace(el) {
        Enlace(el);
        enlaces := PintaEnlaces(el.rectsLinea, IdDe("e", c.enl), p);
        Asocia(old(pedido), fondo, enlaces);
      } else {
        SinMas(fondo);
      }
      assert pedido == old(pedido) + (fondo + enlaces);
      ghost var c1 := c;
      Hijos(el);
      Asocia(old(pedido), fondo + enlaces, PintaHijos(el, |el.hijos|, c1, p).0);
    }

    method Hijos(el: Nodo)
      requires Valid() && el.Elem?
      modifies this
      ensures Valid() && (old(truncada) ==> truncada)
      ensures pedido == old(pedido) + PintaHijos(el, |el.hijos|, old(c), p).0
      ensures c == PintaHijos(el, |el.hijos|, old(c), p).1
      decreases el, 0
    {
      hide EnTablas, ImprimeTodos, PintaTexto, Pinta, Tope;
      var h := 0;
      while h < |el.hijos|
        invariant 0 <= h <= |el.hijos| && Valid() && (old(truncada) ==> truncada)
        invariant pedido == old(pedido) + PintaHijos(el, h, old(c), p).0
        invariant c == PintaHijos(el, h, old(c), p).1
      {
        ghost var antes := PintaHijos(el, h, old(c), p).0;
        if el.hijos[h].Txt? {
          Asocia(old(pedido), antes, PintaTexto(el.hijos[h], el.estilo, p));
          TextoNodo(el.hijos[h], el.estilo);
        } else {
          Asocia(old(pedido), antes, Pinta(el.hijos[h], false, c, p).0);
          Recorrer(el.hijos[h], false);
        }
        h := h + 1;
      }
    }

    /** The last pass: every strip goes to Latin-1, split and joined again by its spaces. */
    method PasadaLatina()
      requires Valid() && CasiBuenos(Tope(pedido), p)
      modifies this`lineas
      ensures lineas == ImprimeTodos(Latinas(Tope(pedido), p))
    {
      hide EnTablas, Tope, Imprime, ImprimeTodos, Latinas, Latina, MarcaBuena, Partir, Unir, Dentro;
      ghost var els := Tope(pedido);
      PasadaNada(els, p);
      var i := 0;
      while i < |lineas|
        invariant 0 <= i <= |lineas| == |els|
        invariant lineas == ImprimeTodos(Latinas(els[..i], p)) + ImprimeTodos(els[i..])
      {
        ghost var hechas := ImprimeTodos(Latinas(els[..i], p));
        assert CasiBueno(els[i], p);
        PasadaPaso(els, i, p);
        LineaLatina(els[i], p);
        ghost var resto := ImprimeTodos(els[i + 1..]);
        Cambia(lineas, hechas, Imprime(els[i]), Imprime(Latina(els[i], p)), resto);
        if "TEXTO " <= lineas[i] {
          var q := Partir(lineas[i], ' ');
          var cab := Unir(q[..5], ' ');
          var texto := Latin1(Unir(q[5..], ' '), p.base);
          lineas := lineas[i := cab + " " + texto];
        }
        i := i + 1;
      }
      assert els[..i] == els;
    }
  }

  lemma Cambia(s: seq<string>, a: seq<string>, x: string, y: string, b: seq<string>)
    requires s == a + ([x] + b)
    ensures s[|a|] == x && s[|a| := y] == (a + [y]) + b && (x == y ==> s == (a + [y]) + b)
  {
  }

  lemma PasadaNada(els: seq<Elemento>, p: Pagina)
    ensures ImprimeTodos(els) == ImprimeTodos(Latinas(els[..0], p)) + ImprimeTodos(els[0..])
    ensures ImprimeTodos(els[|els|..]) == []
  {
    assert els[0..] == els;
  }

  lemma PasadaPaso(els: seq<Elemento>, i: nat, p: Pagina)
    requires i < |els|
    ensures ImprimeTodos(els[i..]) == [Imprime(els[i])] + ImprimeTodos(els[i + 1..])
    ensures ImprimeTodos(Latinas(els[..i + 1], p)) == ImprimeTodos(Latinas(els[..i], p)) + [Imprime(Latina(els[i], p))]
  {
    hide Imprime, Latina;
    assert els[i..][1..] == els[i + 1..];
    assert els[..i + 1][..i] == els[..i];
    ImprimeMas(Latinas(els[..i], p), [Latina(els[i], p)]);
    assert ImprimeTodos([Latina(els[i], p)]) == [Imprime(Latina(els[i], p))] + ImprimeTodos([Latina(els[i], p)][1..]);
  }

  function Latinas(els: seq<Elemento>, p: Pagina): (r: seq<Elemento>)
    ensures |r| == |els|
  {
    if els == [] then [] else Latinas(els[..|els| - 1], p) + [Latina(els[|els| - 1], p)]
  }

  lemma {:induction false} LatinasBuenas(els: seq<Elemento>, p: Pagina)
    requires CasiBuenos(els, p)
    ensures Buenos(Latinas(els, p), p.W, p.H)
  {
    if els != [] {
      LatinasBuenas(els[..|els| - 1], p);
      LatinaBuena(els[|els| - 1], p);
    }
  }

  /** Splitting a printed strip by its spaces finds its text again, whatever the text holds; a zone
      never starts like a strip. */
  lemma LineaLatina(el: Elemento, p: Pagina)
    requires MarcaBuena(el)
    ensures el.Tira? ==> "TEXTO " <= Imprime(el)
    ensures el.Tira? ==> var q := Partir(Imprime(el), ' ');
              |q| >= 6 && Unir(q[..5], ' ') + " " + EnLatin(Unir(q[5..], ' '), p.base) == Imprime(Latina(el, p))
    ensures el.Zona? ==> !("TEXTO " <= Imprime(el)) && Latina(el, p) == el
  {
    match el
    case Zona(v, x, y, w, h, m) =>
      var s := Imprime(el);
      assert s[0] == Nombre(v)[0];
    case Tira(x, y, e, c, t) =>
      var cab := ["TEXTO", Decimal(x), Decimal(y), Decimal(e), c];
      assert Campos(el) == cab + [t];
      TiraPartida(cab, t);
      LineaDeTira(x, y, e, c, t);
      var t' := EnLatin(t, p.base);
      assert Campos(Latina(el, p)) == cab + [t'];
      UnirConcat(cab, [t'], ' ');
  }

  /** `lamina()`: the page walked, capped, put in Latin-1 and printed, and its tables. */
  method Lamina(p: Pagina) returns (texto: string, tablas: Tablas, truncada: bool)
    requires PaginaValida(p)
    ensures texto == ImprimeLamina(p.W, p.H, ImprimeTodos(Latinas(Tope(Todo(p)), p)))
    ensures !truncada ==> |Todo(p)| <= ELEMENTOS_MAX
    ensures forall el <- Tope(Todo(p)) :: EnTabla(el, tablas)
  {
    hide EnTablas, ImprimeTodos, Tope, Pinta;
    TodoBueno(p);
    var e := new Emisor(p);
    var fondoDoc := Hex(p.fondoDoc);
    if fondoDoc.Some? {
      e.PonerZona(CAJA, Recorte(0, 0, p.W, p.H), fondoDoc.value, fondoDoc.value);
    }
    if p.body.Some? {
      e.Recorrer(p.body.value, true);
    }
    assert e.pedido == Todo(p);
    EnTablasTodos(Tope(e.pedido), e.tablas);
    assert CasiBuenos(Tope(e.pedido), p) by { TopeBueno(e.pedido, p); }
    e.PasadaLatina();
    texto := ImprimeLamina(p.W, p.H, e.lineas);
    return texto, e.tablas, e.truncada;
  }

  lemma TopeBueno(els: seq<Elemento>, p: Pagina)
    requires CasiBuenos(els, p)
    ensures CasiBuenos(Tope(els), p)
  {
  }

  // -- The walker against the judge --------------------------------------------------------------

  /** The lamina of a page, as text. */
  function TextoDe(p: Pagina): string { ImprimeLamina(p.W, p.H, ImprimeTodos(Latinas(Tope(Todo(p)), p))) }

  predicate TodoOcteto(s: string) { forall c <- s :: c as int < 256 }

  /** Every page that paints something is accepted by the judge, with its own size, its number of
      lines and its count of each verb, and no line passes 256 bytes. A page that paints nothing is
      always refused: the one thing the walker prints and the judge does not take. */
  lemma LaminaSiempreAceptada(p: Pagina)
    requires PaginaValida(p)
    ensures Aceptada(TextoDe(p)) <==> Todo(p) != []
    ensures Todo(p) != [] ==>
              var els := Latinas(Tope(Todo(p)), p);
              && Juzgar(TextoDe(p)) == Ok(Veredicto(p.W, p.H, |els|, |TextoDe(p)|, multiset(VerbosDe(els))))
              && forall l <- Lineas(TextoDe(p)) :: |l| <= LINEA_MAX
  {
    TodoBueno(p);
    TopeBueno(Todo(p), p);
    LatinasBuenas(Tope(Todo(p)), p);
    if Todo(p) == [] {
      LaminaVaciaRechazada(p.W, p.H);
    } else {
      LaminaAceptada(p.W, p.H, Latinas(Tope(Todo(p)), p));
    }
  }

  lemma ElementoEnOctetos(el: Elemento, p: Pagina)
    requires CasiBueno(el, p)
    ensures TodoOcteto(Imprime(Latina(el, p)))
  {
    var l := Latina(el, p);
    forall c <- Campos(l)
      ensures TodoOcteto(c)
    {
      if l.Tira? {
        TextoLatinoEnOctetos(el.texto, p);
      }
    }
    UnirOctetos(Campos(l), ' ');
  }

  lemma TextoLatinoEnOctetos(s: string, p: Pagina)
    ensures TodoOcteto(EnLatin(s, p.base))
  {
    hide LetraLatina;
    var r := EnLatin(s, p.base);
    forall k | 0 <= k < |r|
      ensures r[k] as int < 256
    {
      assert r[k] == LetraLatina(s[k], p.base);
    }
  }

  lemma {:induction false} UnirOctetos(ps: seq<string>, sep: char)
    requires sep as int < 256 && forall p <- ps :: TodoOcteto(p)
    ensures TodoOcteto(Unir(ps, sep))
  {
    if |ps| >= 1 {
      assert ps[0] in ps;
      UnirOctetos(ps[1..], sep);
    }
  }

  lemma {:induction false} LineasEnOctetos(els: seq<Elemento>, p: Pagina)
    requires CasiBuenos(els, p)
    ensures forall l <- ImprimeTodos(Latinas(els, p)) :: TodoOcteto(l)
  {
    hide Imprime, Latina, CasiBueno, TodoOcteto;
    if els != [] {
      var u := Latina(els[|els| - 1], p);
      LineasEnOctetos(els[..|els| - 1], p);
      ElementoEnOctetos(els[|els| - 1], p);
      ImprimeMas(Latinas(els[..|els| - 1], p), [u]);
      assert ImprimeTodos([u]) == [Imprime(u)] + ImprimeTodos([u][1..]);
    }
  }

  /** The lamina fits in bytes as it is: encoding it in Latin-1 replaces nothing. */
  lemma TextoEnOctetos(p: Pagina)
    requires PaginaValida(p)
    ensures TodoOcteto(TextoDe(p))
  {
    hide Todo, Tope, Latinas, ImprimeTodos, CasiBuenos, ImprimeCabecera, Unir, TodoOcteto;
    TodoBueno(p);
    TopeBueno(Todo(p), p);
    var ls := ImprimeTodos(Latinas(Tope(Todo(p)), p));
    LineasEnOctetos(Tope(Todo(p)), p);
    UnirOctetos(ls, '\n');
    CabeceraEnOctetos(p.W, p.H, |ls|);
    TrozosEnOctetos(ImprimeCabecera(p.W, p.H, |ls|), Unir(ls, '\n'));
  }

  lemma TrozosEnOctetos(a: string, b: string)
    requires TodoOcteto(a) && TodoOcteto(b)
    ensures TodoOcteto(a + "\n" + b + "\n")
  {
  }

  lemma CabeceraEnOctetos(W: nat, H: nat, n: nat)
    ensures TodoOcteto(ImprimeCabecera(W, H, n))
  {
    hide Decimal;
    UnirOctetos(["LAMINA", Decimal(W), Decimal(H), Decimal(n)], ' ');
  }
}
