/** What a page paints with no cap on the number of lines: the reference that the walker of
    `lamina.js` is proved against. Strips carry their text as it is before the Latin-1 pass. */
module LaminaPinta {
  import opened Textos
  import opened LaminaJuez
  import opened LaminaJs

  // -- Strips --------------------------------------------------------------------------------

  /** The pieces of `caben` letters of a text, those with no letter left out. */
  function Trozos(x: nat, y: nat, e: nat, color: string, texto: string, caben: nat): seq<Elemento>
    decreases |texto|
  {
    if texto == "" || caben == 0 then []
    else
      var n := if caben < |texto| then caben else |texto|;
      (if HayLetra(texto[..n]) then [Tira(x, y, e, color, texto[..n])] else [])
      + Trozos(x, y, e, color, texto[n..], caben)
  }

  function Caben(x: nat, e: nat, W: nat): nat
    requires e >= 1 && x <= W
  {
    (W - x) / (LETRA_ANCHO * e)
  }

  /** `tira`: nothing when the row leaves the page, else the pieces that fit in its width. */
  function Tiras(x: nat, y: nat, e: nat, color: string, texto: string, p: Pagina): seq<Elemento>
    requires e >= 1
  {
    if y + LETRA_ALTO * e > p.H || x >= p.W then []
    else Trozos(x, y, e, color, texto, Caben(x, e, p.W))
  }

  // -- Text nodes: screen rows -------------------------------------------------------------------

  datatype Renglon = Renglon(x: nat, y: nat, texto: string)

  /** How much of `s` runs up to its first blank, that blank included. */
  function LargoPalabra(s: string): (n: nat)
    requires s != ""
    ensures 1 <= n <= |s|
  {
    if |s| == 1 || BlancoJs(s[0]) then 1 else 1 + LargoPalabra(s[1..])
  }

  /** `s.split(/(?<=\s)/)`: every piece keeps its blank at the end. */
  function Palabras(s: string): (ws: seq<string>)
    ensures s != "" ==> |ws| >= 1
    decreases |s|
  {
    if s == "" then [] else [s[..LargoPalabra(s)]] + Palabras(s[LargoPalabra(s)..])
  }

  function QuitaBlancosFin(s: string): string {
    if s != "" && BlancoJs(s[|s| - 1]) then QuitaBlancosFin(s[..|s| - 1]) else s
  }

  /** Where the walk over the words of a text node stands. */
  datatype Fila = Fila(ini: nat, pos: nat, sitio: Option<(nat, nat)>, texto: string)

  function EmiteFila(f: Fila): seq<Renglon> {
    if f.sitio.Some? then [Renglon(f.sitio.value.0, f.sitio.value.1, QuitaBlancosFin(f.texto))] else []
  }

  function CierraFila(f: Fila): seq<Renglon> {
    if HayLetra(f.texto) then EmiteFila(f) else []
  }

  function RectsEntre(n: Nodo, a: nat, b: nat): seq<Rect>
    requires n.Txt?
  {
    n.rects(Original(n.valor, a), Original(n.valor, b))
  }

  /** What a word does to the row in progress: a broken row goes out and the word starts another. */
  function PasoFila(w: string, f: Fila, parte: bool, sitio: Option<(nat, nat)>): (seq<Renglon>, Fila) {
    (if parte then EmiteFila(f) else [],
     Fila(if parte then f.pos else f.ini, f.pos + |w|, if sitio.Some? then sitio else f.sitio,
          if parte then w else f.texto + w))
  }

  /** The browser broke the row iff the range so far covers more than one rectangle. */
  predicate Parte(n: Nodo, w: string, f: Fila)
    requires n.Txt?
  {
    |RectsEntre(n, f.ini, f.pos + |w|)| > 1
  }

  /** Where the first rectangle of the range in progress starts, clipped to the page. */
  function SitioNuevo(n: Nodo, w: string, f: Fila, p: Pagina): Option<(nat, nat)>
    requires n.Txt?
  {
    var rs := RectsEntre(n, if Parte(n, w, f) then f.pos else f.ini, f.pos + |w|);
    var z := if |rs| > 0 then ZonaDe(rs[0], p) else None;
    if z.Some? then Some((z.value.x, z.value.y)) else None
  }

  function UnaPalabra(n: Nodo, w: string, f: Fila, p: Pagina): (seq<Renglon>, Fila)
    requires n.Txt?
  {
    PasoFila(w, f, Parte(n, w, f), SitioNuevo(n, w, f, p))
  }

  /** The rows after the first `k` words, and the row in progress. */
  function Filas(n: Nodo, ws: seq<string>, k: nat, p: Pagina): (seq<Renglon>, Fila)
    requires n.Txt? && k <= |ws|
  {
    if k == 0 then ([], Fila(0, 0, None, ""))
    else
      var (rs, f) := Filas(n, ws, k - 1, p);
      var (r, g) := UnaPalabra(n, ws[k - 1], f, p);
      (rs + r, g)
  }

  function FilasDe(n: Nodo, p: Pagina): seq<Renglon>
    requires n.Txt?
  {
    var s := JuntaBlancos(n.valor);
    if !HayLetra(s) then []
    else
      var (rs, f) := Filas(n, Palabras(s), |Palabras(s)|, p);
      rs + CierraFila(f)
  }

  function TirasDeFilas(rs: seq<Renglon>, e: nat, color: string, p: Pagina): seq<Elemento>
    requires e >= 1
  {
    if rs == [] then []
    else TirasDeFilas(rs[..|rs| - 1], e, color, p)
         + Tiras(rs[|rs| - 1].x, rs[|rs| - 1].y, e, color, rs[|rs| - 1].texto, p)
  }

  lemma SinFilas(e: nat, color: string, p: Pagina)
    requires e >= 1
    ensures TirasDeFilas([], e, color, p) == []
  {
  }

  lemma {:induction false} TirasConcat(a: seq<Renglon>, b: seq<Renglon>, e: nat, color: string, p: Pagina)
    requires e >= 1
    ensures TirasDeFilas(a + b, e, color, p) == TirasDeFilas(a, e, color, p) + TirasDeFilas(b, e, color, p)
  {
    hide Tiras;
    if b == [] {
      assert a + b == a;
      assert TirasDeFilas(a, e, color, p) + [] == TirasDeFilas(a, e, color, p);
    } else {
      var n := |b| - 1;
      var u := b[n];
      assert (a + b)[..|a| + n] == a + b[..n] && (a + b)[|a| + n] == u;
      TirasConcat(a, b[..n], e, color, p);
      Asocia(TirasDeFilas(a, e, color, p), TirasDeFilas(b[..n], e, color, p), Tiras(u.x, u.y, e, color, u.texto, p));
    }
  }

  function EscalaDeEstilo(st: Estilo): (e: nat)
    ensures 1 <= e <= ESCALA_MAX
  {
    EscalaDe(LetraDe(st.letra))
  }

  function PintaTexto(n: Nodo, st: Estilo, p: Pagina): seq<Elemento>
    requires n.Txt?
  {
    TirasDeFilas(FilasDe(n, p), EscalaDeEstilo(st), ColorDe(st.color), p)
  }

  // -- No letter is lost ------------------------------------------------------------------------------

  /** The letters of a text, blanks left out. */
  function SoloLetras(s: string): string {
    if s == "" then "" else (if BlancoJs(s[0]) then "" else [s[0]]) + SoloLetras(s[1..])
  }

  lemma {:induction false} LetrasConcat(a: string, b: string)
    ensures SoloLetras(a + b) == SoloLetras(a) + SoloLetras(b)
  {
    if a == "" {
      assert a + b == b;
    } else {
      assert (a + b)[1..] == a[1..] + b;
      LetrasConcat(a[1..], b);
    }
  }

  lemma {:induction false} SinLetras(s: string)
    ensures HayLetra(s) <==> SoloLetras(s) != ""
  {
    if s != "" {
      assert s[0] in s && s == [s[0]] + s[1..];
      SinLetras(s[1..]);
    }
  }

  function LetrasDe(els: seq<Elemento>): string {
    if els == [] then ""
    else (if els[0].Tira? then SoloLetras(els[0].texto) else "") + LetrasDe(els[1..])
  }

  lemma {:induction false} LetrasDeConcat(a: seq<Elemento>, b: seq<Elemento>)
    ensures LetrasDe(a + b) == LetrasDe(a) + LetrasDe(b)
  {
    if a == [] {
      assert a + b == b;
    } else {
      assert (a + b)[1..] == a[1..] + b;
      LetrasDeConcat(a[1..], b);
    }
  }

  /** Cutting a strip into pieces keeps every letter, once and in order. */
  lemma {:induction false} TrozosConservan(x: nat, y: nat, e: nat, color: string, texto: string, caben: nat)
    requires caben > 0
    ensures LetrasDe(Trozos(x, y, e, color, texto, caben)) == SoloLetras(texto)
    decreases |texto|
  {
    if texto != "" {
      var n := if caben < |texto| then caben else |texto|;
      TrozosConservan(x, y, e, color, texto[n..], caben);
      assert texto == texto[..n] + texto[n..];
      LetrasConcat(texto[..n], texto[n..]);
      var t := Tira(x, y, e, color, texto[..n]);
      if HayLetra(texto[..n]) {
        LetrasDeConcat([t], Trozos(x, y, e, color, texto[n..], caben));
        assert LetrasDe([t]) == SoloLetras(texto[..n]) + LetrasDe([t][1..]);
      } else {
        SinLetras(texto[..n]);
        assert "" + SoloLetras(texto[n..]) == SoloLetras(texto[n..]);
        var resto := Trozos(x, y, e, color, texto[n..], caben);
        assert Trozos(x, y, e, color, texto, caben) == [] + resto == resto;
      }
    }
  }

  function Pegadas(ws: seq<string>): string {
    if ws == [] then "" else Pegadas(ws[..|ws| - 1]) + ws[|ws| - 1]
  }

  lemma {:induction false} PegadasUno(w: string, ws: seq<string>)
    ensures Pegadas([w] + ws) == w + Pegadas(ws)
  {
    if ws == [] {
      assert ([w] + ws)[..0] == [];
    } else {
      assert ([w] + ws)[..|ws|] == [w] + ws[..|ws| - 1];
      PegadasUno(w, ws[..|ws| - 1]);
    }
  }

  lemma {:induction false} PalabrasPegadas(s: string)
    ensures Pegadas(Palabras(s)) == s
    decreases |s|
  {
    if s != "" {
      var n := LargoPalabra(s);
      PalabrasPegadas(s[n..]);
      PegadasUno(s[..n], Palabras(s[n..]));
      assert s[..n] + s[n..] == s;
    }
  }

  lemma {:induction false} LetrasSinFin(s: string)
    ensures SoloLetras(QuitaBlancosFin(s)) == SoloLetras(s)
  {
    if s != "" && BlancoJs(s[|s| - 1]) {
      LetrasSinFin(s[..|s| - 1]);
      LetrasConcat(s[..|s| - 1], [s[|s| - 1]]);
      assert s[..|s| - 1] + [s[|s| - 1]] == s;
    }
  }

  function LetrasDeFilas(rs: seq<Renglon>): string {
    if rs == [] then "" else LetrasDeFilas(rs[..|rs| - 1]) + SoloLetras(rs[|rs| - 1].texto)
  }

  /** A row with letters is broken before any rectangle of it lay on the page. */
  predicate SeCae(f: Fila, parte: bool) { parte && f.sitio.None? && HayLetra(f.texto) }

  lemma PasoConserva(w: string, f: Fila, parte: bool, sitio: Option<(nat, nat)>)
    ensures var (r, g) := PasoFila(w, f, parte, sitio);
            && (!SeCae(f, parte) ==> LetrasDeFilas(r) + SoloLetras(g.texto) == SoloLetras(f.texto) + SoloLetras(w))
            && (SeCae(f, parte) ==> LetrasDeFilas(r) == "" && SoloLetras(g.texto) == SoloLetras(w)
                                    && SoloLetras(f.texto) != "")
  {
    LetrasConcat(f.texto, w);
    LetrasSinFin(f.texto);
    SinLetras(f.texto);
    if parte && f.sitio.Some? {
      var r := EmiteFila(f);
      assert r[..0] == [];
      assert "" + SoloLetras(r[0].texto) == SoloLetras(r[0].texto);
    } else {
      assert "" + SoloLetras(w) == SoloLetras(w);
      assert "" + SoloLetras(f.texto + w) == SoloLetras(f.texto + w);
    }
  }

  lemma {:induction false} LetrasDeFilasConcat(a: seq<Renglon>, b: seq<Renglon>)
    ensures LetrasDeFilas(a + b) == LetrasDeFilas(a) + LetrasDeFilas(b)
  {
    hide SoloLetras;
    if b == [] {
      assert a + b == a;
      assert LetrasDeFilas(a) + "" == LetrasDeFilas(a);
    } else {
      var n := |b| - 1;
      assert (a + b)[..|a| + n] == a + b[..n] && (a + b)[|a| + n] == b[n];
      LetrasDeFilasConcat(a, b[..n]);
      Asocia(LetrasDeFilas(a), LetrasDeFilas(b[..n]), SoloLetras(b[n].texto));
    }
  }

  lemma Reasocia(a: string, b: string, c: string, d: string, e: string)
    requires d + e == b + c
    ensures (a + d) + e == (a + b) + c
  {
    assert (a + d) + e == a + (d + e);
    assert (a + b) + c == a + (b + c);
  }

  /** None of the first `k` words breaks a row with letters and no place. */
  predicate NadaCaeHasta(n: Nodo, ws: seq<string>, k: nat, p: Pagina)
    requires n.Txt? && k <= |ws|
  {
    if k == 0 then true
    else
      var f := Filas(n, ws, k - 1, p).1;
      NadaCaeHasta(n, ws, k - 1, p) && !SeCae(f, Parte(n, ws[k - 1], f))
  }

  /** No row of the node is broken, or left at the end, with letters and no place. */
  predicate NadaCae(n: Nodo, p: Pagina)
    requires n.Txt?
  {
    var ws := Palabras(JuntaBlancos(n.valor));
    NadaCaeHasta(n, ws, |ws|, p) && !SeCae(Filas(n, ws, |ws|, p).1, true)
  }

  lemma {:induction false} FilasConservanHasta(n: Nodo, ws: seq<string>, k: nat, p: Pagina)
    requires n.Txt? && k <= |ws|
    ensures var (rs, f) := Filas(n, ws, k, p); var todas := SoloLetras(Pegadas(ws[..k]));
            if NadaCaeHasta(n, ws, k, p) then LetrasDeFilas(rs) + SoloLetras(f.texto) == todas
            else |LetrasDeFilas(rs)| + |SoloLetras(f.texto)| < |todas|
  {
    hide PasoFila, Parte, SitioNuevo, LetrasDeFilas, SoloLetras, Pegadas, SeCae;
    if k > 0 {
      FilasConservanHasta(n, ws, k - 1, p);
      var (rs, f) := Filas(n, ws, k - 1, p);
      var (r, g) := UnaPalabra(n, ws[k - 1], f, p);
      PegadasMas(ws, k);
      LetrasConcat(Pegadas(ws[..k - 1]), ws[k - 1]);
      PasoConserva(ws[k - 1], f, Parte(n, ws[k - 1], f), SitioNuevo(n, ws[k - 1], f, p));
      LetrasDeFilasConcat(rs, r);
      if NadaCaeHasta(n, ws, k, p) {
        Reasocia(LetrasDeFilas(rs), SoloLetras(f.texto), SoloLetras(ws[k - 1]), LetrasDeFilas(r),
                 SoloLetras(g.texto));
      } else {
        LargosDePaso(LetrasDeFilas(r), SoloLetras(g.texto), SoloLetras(f.texto), SoloLetras(ws[k - 1]));
      }
    } else {
      NadaConserva(ws);
    }
  }

  lemma LargosDePaso(a: string, b: string, c: string, d: string)
    ensures a + b == c + d ==> |a| + |b| == |c| + |d|
  {
    assert |a + b| == |a| + |b| && |c + d| == |c| + |d|;
  }

  lemma PegadasMas(ws: seq<string>, k: nat)
    requires 1 <= k <= |ws|
    ensures Pegadas(ws[..k]) == Pegadas(ws[..k - 1]) + ws[k - 1]
  {
    assert ws[..k][..k - 1] == ws[..k - 1];
  }

  lemma NadaConserva(ws: seq<string>)
    ensures LetrasDeFilas([]) + SoloLetras("") == SoloLetras(Pegadas(ws[..0]))
  {
    assert ws[..0] == [];
  }

  lemma CierreConserva(rs: seq<Renglon>, f: Fila)
    ensures LetrasDeFilas(rs + CierraFila(f))
            == if SeCae(f, true) then LetrasDeFilas(rs) else LetrasDeFilas(rs) + SoloLetras(f.texto)
    ensures SeCae(f, true) ==> SoloLetras(f.texto) != ""
  {
    LetrasDeFilasConcat(rs, CierraFila(f));
    LetrasSinFin(f.texto);
    SinLetras(f.texto);
    assert LetrasDeFilas(rs) + "" == LetrasDeFilas(rs);
    if HayLetra(f.texto) && f.sitio.Some? {
      assert CierraFila(f)[..0] == [];
    }
  }

  /** The rows of a text node hold every letter of the node, once and in order, exactly when no row is
      broken or left while it has letters and no place on the page yet. */
  lemma FilasConservanSii(n: Nodo, p: Pagina)
    requires n.Txt?
    ensures LetrasDeFilas(FilasDe(n, p)) == SoloLetras(JuntaBlancos(n.valor)) <==> NadaCae(n, p)
  {
    hide Palabras, Parte, LetrasDeFilas, SoloLetras, SeCae, Filas;
    var s := JuntaBlancos(n.valor);
    var ws := Palabras(s);
    var (rs, f) := Filas(n, ws, |ws|, p);
    PalabrasPegadas(s);
    FilasConservanHasta(n, ws, |ws|, p);
    assert ws[..|ws|] == ws;
    CierreConserva(rs, f);
    SinLetras(s);
    if !HayLetra(s) {
      SinRenglones();
      SinLetras(f.texto);
      SinCaida(f);
      LargosDePaso(LetrasDeFilas(rs), SoloLetras(f.texto), "", "");
    }
  }

  lemma SinRenglones()
    ensures LetrasDeFilas([]) == ""
  {
  }

  lemma SinCaida(f: Fila)
    ensures SeCae(f, true) ==> HayLetra(f.texto)
  {
  }

  /** It is so when the first word of the node lies on the page, wherever the browser broke the rows. */
  lemma FilasConservan(n: Nodo, p: Pagina)
    requires n.Txt? && JuntaBlancos(n.valor) != ""
    requires Filas(n, Palabras(JuntaBlancos(n.valor)), 1, p).1.sitio.Some?
    ensures LetrasDeFilas(FilasDe(n, p)) == SoloLetras(JuntaBlancos(n.valor))
  {
    hide Palabras, LetrasDeFilas, SoloLetras, FilasDe;
    var ws := Palabras(JuntaBlancos(n.valor));
    ConSitio(n, ws, |ws|, p);
    FilasConservanSii(n, p);
  }

  lemma {:induction false} ConSitio(n: Nodo, ws: seq<string>, k: nat, p: Pagina)
    requires n.Txt? && 1 <= |ws| && k <= |ws| && Filas(n, ws, 1, p).1.sitio.Some?
    ensures NadaCaeHasta(n, ws, k, p) && (k >= 1 ==> Filas(n, ws, k, p).1.sitio.Some?)
  {
    hide Parte, SitioNuevo;
    if k > 0 {
      ConSitio(n, ws, k - 1, p);
    }
  }

  /** A row that is painted: it does not leave the page below, and a letter fits in its width. */
  predicate CabeRenglon(u: Renglon, e: nat, p: Pagina)
    requires e >= 1
  {
    u.y + LETRA_ALTO * e <= p.H && u.x < p.W && Caben(u.x, e, p.W) > 0
  }

  lemma TirasConservan(u: Renglon, e: nat, color: string, p: Pagina)
    requires e >= 1
    ensures LetrasDe(Tiras(u.x, u.y, e, color, u.texto, p)) == if CabeRenglon(u, e, p) then SoloLetras(u.texto) else ""
  {
    if CabeRenglon(u, e, p) {
      TrozosConservan(u.x, u.y, e, color, u.texto, Caben(u.x, e, p.W));
    }
  }

  /** Every row with a letter is painted. */
  predicate TodosCaben(rs: seq<Renglon>, e: nat, p: Pagina)
    requires e >= 1
  {
    forall u <- rs :: HayLetra(u.texto) ==> CabeRenglon(u, e, p)
  }

  lemma {:induction false} TirasDeFilasConservan(rs: seq<Renglon>, e: nat, color: string, p: Pagina)
    requires e >= 1
    ensures var ls := LetrasDe(TirasDeFilas(rs, e, color, p));
            if TodosCaben(rs, e, p) then ls == LetrasDeFilas(rs) else |ls| < |LetrasDeFilas(rs)|
  {
    hide Tiras, CabeRenglon, HayLetra, SoloLetras;
    if rs != [] {
      var n := |rs| - 1;
      var u := rs[n];
      assert rs == rs[..n] + [u];
      TirasDeFilasConservan(rs[..n], e, color, p);
      TirasConservan(u, e, color, p);
      SinLetras(u.texto);
      LetrasDeConcat(TirasDeFilas(rs[..n], e, color, p), Tiras(u.x, u.y, e, color, u.texto, p));
      assert TodosCaben(rs, e, p) <==> TodosCaben(rs[..n], e, p) && (HayLetra(u.texto) ==> CabeRenglon(u, e, p));
    }
  }

  /** The rows hold every letter of the node, or fewer. */
  lemma FilasNoAumentan(n: Nodo, p: Pagina)
    requires n.Txt?
    ensures var ls, todas := LetrasDeFilas(FilasDe(n, p)), SoloLetras(JuntaBlancos(n.valor));
            ls == todas || |ls| < |todas|
  {
    hide Palabras, Parte, LetrasDeFilas, SoloLetras, SeCae, Filas;
    var s := JuntaBlancos(n.valor);
    var ws := Palabras(s);
    var (rs, f) := Filas(n, ws, |ws|, p);
    PalabrasPegadas(s);
    FilasConservanHasta(n, ws, |ws|, p);
    assert ws[..|ws|] == ws;
    CierreConserva(rs, f);
    SinLetras(s);
    SinRenglones();
  }

  /** The strips of a text node hold every letter of it, once and in order, exactly when its rows do and
      every row with a letter fits the page. */
  lemma TextoConservaSii(n: Nodo, st: Estilo, p: Pagina)
    requires n.Txt?
    ensures LetrasDe(PintaTexto(n, st, p)) == SoloLetras(JuntaBlancos(n.valor))
            <==> NadaCae(n, p) && TodosCaben(FilasDe(n, p), EscalaDeEstilo(st), p)
  {
    hide NadaCae, FilasDe, TodosCaben, LetrasDe, LetrasDeFilas, SoloLetras, TirasDeFilas;
    FilasConservanSii(n, p);
    FilasNoAumentan(n, p);
    TirasDeFilasConservan(FilasDe(n, p), EscalaDeEstilo(st), ColorDe(st.color), p);
  }

  /** A text of two words on two rows, the first one off the page. */
  function DosPalabras(): Nodo {
    Txt("a b", (a: nat, b: nat) => if a >= 2 then [DENTRO] else if b <= 2 then [FUERA] else [FUERA, DENTRO])
  }

  const FUERA := Rect(-20.0, 0.0, -10.0, 16.0)
  const DENTRO := Rect(0.0, 0.0, 8.0, 16.0)

  lemma PalabrasDeDos()
    ensures JuntaBlancos("a b") == "a b" && Palabras("a b") == ["a ", "b"]
  {
    var s := "a b";
    assert s[1..] == " b" && " b"[1..] == "b" && "b"[1..] == "";
    assert JuntaBlancos("b") == "b" && JuntaBlancos(" b") == " b";
    assert LargoPalabra(s) == 2 && s[..2] == "a " && s[2..] == "b";
    assert Palabras("b") == ["b"[..1]] + Palabras("b"[1..]) && "b"[..1] == "b";
  }

  /** Its first letter is lost: what is left is the row of the second word. */
  lemma LetraCaida(p: Pagina)
    requires PaginaValida(p) && p.sx == 0.0 && p.sy == 0.0 && p.W >= 8 && p.H >= 16
    ensures FilasDe(DosPalabras(), p) == [Renglon(0, 0, "b")]
    ensures LetrasDeFilas(FilasDe(DosPalabras(), p)) != SoloLetras(JuntaBlancos(DosPalabras().valor))
  {
    hide Palabras, JuntaBlancos;
    PalabrasDeDos();
    FilasDeDos(p);
    assert [Renglon(0, 0, "b")][..0] == [] && "a b"[1..] == " b" && "b"[1..] == "";
    assert SoloLetras("b") == "b" && SoloLetras("a b")[0] == 'a';
  }

  lemma UnaMas(n: Nodo, ws: seq<string>, k: nat, p: Pagina, f: Fila, g: Fila)
    requires n.Txt? && k < |ws| && Filas(n, ws, k, p) == ([], f) && UnaPalabra(n, ws[k], f, p) == ([], g)
    ensures Filas(n, ws, k + 1, p) == ([], g)
  {
    hide UnaPalabra;
    var nada: seq<Renglon> := [];
    assert nada + nada == nada;
  }

  lemma FilasDeDos(p: Pagina)
    requires PaginaValida(p) && p.sx == 0.0 && p.sy == 0.0 && p.W >= 8 && p.H >= 16
    ensures FilasDe(DosPalabras(), p) == [Renglon(0, 0, "b")]
  {
    hide Palabras, JuntaBlancos;
    var n := DosPalabras();
    var ws := Palabras("a b");
    PalabrasDeDos();
    MismasPosiciones("a b");
    assert ZonaDe(FUERA, p).None? && ZonaDe(DENTRO, p) == Some(Recorte(0, 0, 8, 16));
    assert RectsEntre(n, 0, 2) == [FUERA] && "" + "a " == "a ";
    assert RectsEntre(n, 0, 3) == [FUERA, DENTRO] && RectsEntre(n, 2, 3) == [DENTRO];
    var f0, f1, f2 := Fila(0, 0, None, ""), Fila(0, 2, None, "a "), Fila(2, 3, Some((0, 0)), "b");
    assert UnaPalabra(n, "a ", f0, p) == ([], f1) && UnaPalabra(n, "b", f1, p) == ([], f2);
    UnaMas(n, ws, 0, p, f0, f1);
    UnaMas(n, ws, 1, p, f1, f2);
    assert HayLetra("a b") by { assert 'a' in "a b"; }
    assert HayLetra("b") by { assert 'b' in "b"; }
    assert QuitaBlancosFin("b") == "b";
  }

  /** With no two blanks together the positions stay. */
  lemma MismasPosiciones(s: string)
    requires s == "a b"
    ensures Original(s, 0) == 0 && Original(s, 2) == 2 && Original(s, 3) == 3
  {
    assert Guardadas(s, 3, false) == [];
    assert Guardadas(s, 2, true) == [2] + Guardadas(s, 3, false);
    assert Guardadas(s, 1, false) == [1] + Guardadas(s, 2, true);
    assert Guardadas(s, 0, false) == [0] + Guardadas(s, 1, false);
    assert Guardadas(s, 0, false) == [0, 1, 2];
  }

  // -- Counters ------------------------------------------------------------------------------------

  /** How many ids of each kind were handed out: JavaScript numbers, so adding one to 2^53 leaves 2^53. */
  datatype Contadores = Contadores(img: nat, enl: nat, cam: nat) {
    predicate Valid() { img <= MAX_DOBLE && enl <= MAX_DOBLE && cam <= MAX_DOBLE }
  }

  const MAX_DOBLE := 9007199254740992

  function Sig(n: nat): (r: nat)
    ensures n <= MAX_DOBLE ==> r <= MAX_DOBLE
  {
    if n < MAX_DOBLE then n + 1 else n
  }

  function IdDe(letras: string, n: nat): string { letras + Decimal(n) }

  // -- The walk ---------------------------------------------------------------------------------------

  const SALTAR := {"SCRIPT", "STYLE", "NOSCRIPT", "TEMPLATE", "HEAD", "SVG", "CANVAS", "VIDEO", "AUDIO", "IFRAME"}
  const TIPOS_DE_TEXTO := {"text", "search", "email", "url", "password", "number", "tel", ""}

  function ZonaDeVerbo(v: Verbo, z: Recorte, marca: string): Elemento { Zona(v, z.x, z.y, z.w, z.h, marca) }

  /** The element is walked into at all. */
  predicate SeVe(el: Nodo) {
    && el.Elem? && el.tag !in SALTAR && !el.estilo.oculto
    && !(el.rect.right - el.rect.left < 1.0 || el.rect.bottom - el.rect.top < 1.0)
    && !(el.estilo.recortaDesborde
         && (el.rect.right - el.rect.left < LETRA_ANCHO as real || el.rect.bottom - el.rect.top < LETRA_ALTO as real))
  }

  predicate EsCampo(el: Nodo)
    requires el.Elem?
  {
    (el.tag == "INPUT" && el.tipo in TIPOS_DE_TEXTO) || el.tag == "TEXTAREA"
  }

  predicate EsEnlace(el: Nodo)
    requires el.Elem?
  {
    el.tag == "A" && el.destino != ""
  }

  function PintaFondo(el: Nodo, esBody: bool, p: Pagina): seq<Elemento>
    requires el.Elem?
  {
    var z := ZonaDe(el.rect, p);
    if z.Some? && Hex(el.estilo.fondo).Some? && !esBody
    then [ZonaDeVerbo(CAJA, z.value, Hex(el.estilo.fondo).value)] else []
  }

  function PintaValor(el: Nodo, z: Recorte, p: Pagina): seq<Elemento>
    requires el.Elem?
  {
    if el.valorCampo == "" then []
    else
      var sobra: int := (z.h - LETRA_ALTO) / 2;
      var y := z.y + if sobra < 0 then 0 else sobra;
      Tiras(z.x + 4, y, 1, ColorDe(el.estilo.color), EnLatin(el.valorCampo, p.base), p)
  }

  function PintaEnlaces(rs: seq<Rect>, id: string, p: Pagina): seq<Elemento> {
    if rs == [] then []
    else
      var z := ZonaDe(rs[|rs| - 1], p);
      PintaEnlaces(rs[..|rs| - 1], id, p) + if z.Some? then [ZonaDeVerbo(ENLACE, z.value, id)] else []
  }

  /** `recorrer` with no cap: the elements of the node, in DOM order, and the counters after it. */
  function Pinta(el: Nodo, esBody: bool, c: Contadores, p: Pagina): (seq<Elemento>, Contadores)
    decreases el, 1, 0
  {
    if !SeVe(el) then ([], c)
    else
      var z := ZonaDe(el.rect, p);
      var fondo := PintaFondo(el, esBody, p);
      if z.Some? && el.tag == "IMG" then
        var c := c.(img := Sig(c.img));
        (fondo + [ZonaDeVerbo(IMAGEN, z.value, IdDe("img", c.img))], c)
      else if z.Some? && EsCampo(el) then
        var c := c.(cam := Sig(c.cam));
        (fondo + [ZonaDeVerbo(CAMPO, z.value, IdDe("c", c.cam))] + PintaValor(el, z.value, p), c)
      else
        var c := if EsEnlace(el) then c.(enl := Sig(c.enl)) else c;
        var enlaces := if EsEnlace(el) then PintaEnlaces(el.rectsLinea, IdDe("e", c.enl), p) else [];
        var (hijos, c') := PintaHijos(el, |el.hijos|, c, p);
        (fondo + enlaces + hijos, c')
  }

  /** The first `k` children: text nodes are painted with the style of their parent. */
  function PintaHijos(el: Nodo, k: nat, c: Contadores, p: Pagina): (seq<Elemento>, Contadores)
    requires el.Elem? && k <= |el.hijos|
    decreases el, 0, k
  {
    if k == 0 then ([], c)
    else
      var (es, c1) := PintaHijos(el, k - 1, c, p);
      var h := el.hijos[k - 1];
      if h.Txt? then (es + PintaTexto(h, el.estilo, p), c1)
      else
        var (e, c2) := Pinta(h, false, c1, p);
        (es + e, c2)
  }

  /** The whole page: the background of the document first, then the body. */
  function Todo(p: Pagina): seq<Elemento> {
    (if Hex(p.fondoDoc).Some? then [Zona(CAJA, 0, 0, p.W, p.H, Hex(p.fondoDoc).value)] else [])
    + if p.body.Some? then Pinta(p.body.value, true, Contadores(0, 0, 0), p).0 else []
  }

  // -- Everything painted is inside the page and well marked -----------------------------------------------

  /** Good but for the letters, which the last pass makes Latin-1. */
  predicate CasiBueno(el: Elemento, p: Pagina) { Dentro(el, p.W, p.H) && MarcaBuena(el) }

  predicate CasiBuenos(els: seq<Elemento>, p: Pagina) { forall el <- els :: CasiBueno(el, p) }

  function Latina(el: Elemento, p: Pagina): Elemento {
    if el.Tira? then el.(texto := EnLatin(el.texto, p.base)) else el
  }

  lemma LatinaBuena(el: Elemento, p: Pagina)
    requires CasiBueno(el, p)
    ensures Bueno(Latina(el, p), p.W, p.H)
  {
  }

  lemma CabenDentro(x: nat, e: nat, W: nat, n: nat)
    requires e >= 1 && x <= W && n <= Caben(x, e, W)
    ensures x + AnchoTira(n, e) <= W
  {
    var paso := LETRA_ANCHO * e;
    assert n * paso <= Caben(x, e, W) * paso <= W - x;
    assert AnchoTira(n, e) == n * paso;
  }

  lemma {:induction false} TrozosBuenos(x: nat, y: nat, e: nat, color: string, texto: string, p: Pagina)
    requires 1 <= e <= ESCALA_MAX && ColorBueno(color) && x < p.W && y + LETRA_ALTO * e <= p.H
    ensures CasiBuenos(Trozos(x, y, e, color, texto, Caben(x, e, p.W)), p)
    decreases |texto|
  {
    var caben := Caben(x, e, p.W);
    if texto != "" && caben != 0 {
      var n := if caben < |texto| then caben else |texto|;
      CabenDentro(x, e, p.W, n);
      TrozosBuenos(x, y, e, color, texto[n..], p);
    }
  }

  lemma {:induction false} FilasBuenas(rs: seq<Renglon>, e: nat, color: string, p: Pagina)
    requires 1 <= e <= ESCALA_MAX && ColorBueno(color)
    ensures CasiBuenos(TirasDeFilas(rs, e, color, p), p)
  {
    if rs != [] {
      FilasBuenas(rs[..|rs| - 1], e, color, p);
      TirasBuenas(rs[|rs| - 1].x, rs[|rs| - 1].y, e, color, rs[|rs| - 1].texto, p);
    }
  }

  lemma TirasBuenas(x: nat, y: nat, e: nat, color: string, texto: string, p: Pagina)
    requires 1 <= e <= ESCALA_MAX && ColorBueno(color)
    ensures CasiBuenos(Tiras(x, y, e, color, texto, p), p)
  {
    if y + LETRA_ALTO * e <= p.H && x < p.W {
      TrozosBuenos(x, y, e, color, texto, p);
    }
  }

  lemma IdDeBueno(letras: string, n: nat)
    requires letras in {"img", "c", "e"} && n <= MAX_DOBLE
    ensures IdBueno(IdDe(letras, n))
  {
    assert Pot10(4) == 10000 && Pot10(8) == 100000000 && Pot10(12) == 1000000000000 && Pot10(16) == 10000000000000000;
    LargoDecimal(n, 16);
    forall c | c in IdDe(letras, n) ensures EsDeId(c) {
      if c !in letras {
        assert c in Decimal(n);
      }
    }
  }

  lemma {:induction false} EnlacesBuenos(rs: seq<Rect>, id: string, p: Pagina)
    requires IdBueno(id)
    ensures CasiBuenos(PintaEnlaces(rs, id, p), p)
  {
    if rs != [] {
      EnlacesBuenos(rs[..|rs| - 1], id, p);
      if ZonaDe(rs[|rs| - 1], p).Some? {
        ZonaDeVerboBuena(ENLACE, rs[|rs| - 1], id, p);
      }
    }
  }

  lemma FondoBueno(el: Nodo, esBody: bool, p: Pagina)
    requires el.Elem?
    ensures CasiBuenos(PintaFondo(el, esBody, p), p)
  {
  }

  lemma ZonaDeVerboBuena(v: Verbo, r: Rect, id: string, p: Pagina)
    requires ZonaDe(r, p).Some? && v in {IMAGEN, ENLACE, CAMPO} && IdBueno(id)
    ensures CasiBuenos([ZonaDeVerbo(v, ZonaDe(r, p).value, id)], p)
  {
  }

  lemma BuenosConcat(a: seq<Elemento>, b: seq<Elemento>, p: Pagina)
    requires CasiBuenos(a, p) && CasiBuenos(b, p)
    ensures CasiBuenos(a + b, p)
  {
  }

  /** Nothing that the walk paints leaves the page, is empty or carries a bad colour or id. */
  lemma {:induction false} PintaBuenos(el: Nodo, esBody: bool, c: Contadores, p: Pagina)
    requires c.Valid()
    ensures CasiBuenos(Pinta(el, esBody, c, p).0, p) && Pinta(el, esBody, c, p).1.Valid()
    decreases el, 1, 0
  {
    if SeVe(el) {
      var z := ZonaDe(el.rect, p);
      var fondo := PintaFondo(el, esBody, p);
      FondoBueno(el, esBody, p);
      if z.Some? && el.tag == "IMG" {
        var id := IdDe("img", Sig(c.img));
        IdDeBueno("img", Sig(c.img));
        ZonaDeVerboBuena(IMAGEN, el.rect, id, p);
        BuenosConcat(fondo, [ZonaDeVerbo(IMAGEN, z.value, id)], p);
      } else if z.Some? && EsCampo(el) {
        var id := IdDe("c", Sig(c.cam));
        IdDeBueno("c", Sig(c.cam));
        ZonaDeVerboBuena(CAMPO, el.rect, id, p);
        ValorBueno(el, z.value, p);
        BuenosConcat(fondo, [ZonaDeVerbo(CAMPO, z.value, id)], p);
        BuenosConcat(fondo + [ZonaDeVerbo(CAMPO, z.value, id)], PintaValor(el, z.value, p), p);
      } else {
        var c1 := if EsEnlace(el) then c.(enl := Sig(c.enl)) else c;
        IdDeBueno("e", c1.enl);
        EnlacesBuenos(el.rectsLinea, IdDe("e", c1.enl), p);
        var enlaces := if EsEnlace(el) then PintaEnlaces(el.rectsLinea, IdDe("e", c1.enl), p) else [];
        HijosBuenos(el, |el.hijos|, c1, p);
        BuenosConcat(fondo, enlaces, p);
        BuenosConcat(fondo + enlaces, PintaHijos(el, |el.hijos|, c1, p).0, p);
      }
    }
  }

  lemma ValorBueno(el: Nodo, z: Recorte, p: Pagina)
    requires el.Elem?
    ensures CasiBuenos(PintaValor(el, z, p), p)
  {
    hide CasiBuenos, Tiras, EnLatin, ColorDe, HayLetra;
    var sobra: int := (z.h - LETRA_ALTO) / 2;
    NadaBueno(p);
    TirasBuenas(z.x + 4, z.y + if sobra < 0 then 0 else sobra, 1, ColorDe(el.estilo.color),
                EnLatin(el.valorCampo, p.base), p);
  }

  lemma NadaBueno(p: Pagina)
    ensures CasiBuenos([], p)
  {
  }

  lemma TextoPintadoBueno(h: Nodo, el: Nodo, p: Pagina)
    requires el.Elem? && h.Txt?
    ensures CasiBuenos(PintaTexto(h, el.estilo, p), p)
  {
    FilasBuenas(FilasDe(h, p), EscalaDeEstilo(el.estilo), ColorDe(el.estilo.color), p);
  }

  lemma {:induction false} HijosBuenos(el: Nodo, k: nat, c: Contadores, p: Pagina)
    requires el.Elem? && k <= |el.hijos| && c.Valid()
    ensures CasiBuenos(PintaHijos(el, k, c, p).0, p) && PintaHijos(el, k, c, p).1.Valid()
    decreases el, 0, k
  {
    hide CasiBuenos, Pinta, PintaTexto;
    if k > 0 {
      HijosBuenos(el, k - 1, c, p);
      var (es, c1) := PintaHijos(el, k - 1, c, p);
      var h := el.hijos[k - 1];
      if h.Txt? {
        TextoPintadoBueno(h, el, p);
        BuenosConcat(es, PintaTexto(h, el.estilo, p), p);
      } else {
        PintaBuenos(h, false, c1, p);
        BuenosConcat(es, Pinta(h, false, c1, p).0, p);
      }
    } else {
      NadaBueno(p);
    }
  }

  lemma TodoBueno(p: Pagina)
    requires PaginaValida(p)
    ensures CasiBuenos(Todo(p), p)
  {
    if p.body.Some? {
      PintaBuenos(p.body.value, true, Contadores(0, 0, 0), p);
    }
  }
}
