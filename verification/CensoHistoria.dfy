/** The size ratchet from file to file: every run of `censo_modular.py` reads the baseline again, so what a
    seal does is what the next run reads of the text it wrote. */
module CensoHistoria {
  import opened Textos
  import opened Censo
  import opened CensoTexto

  // -- What is read of a seal -----------------------------------------------------------------------------

  /** The lines that one raise makes in the file: its motive is cut at its own line ends. */
  function LineasRaya(s: Subida, motivo: string): (ls: seq<string>)
    ensures |ls| >= 1
  {
    var qs := Partir(Traduce(motivo), '\n');
    [LineaDe(s, qs[0])] + qs[1..]
  }

  /** Those of a seal, which writes one raise at most. */
  function LineasRayas(ss: seq<Subida>, motivo: string): seq<string> {
    if ss == [] then [] else LineasRaya(ss[0], motivo)
  }

  lemma {:induction false} TraduceFin(m: string)
    requires m == "" || m[|m| - 1] != '\r'
    ensures Traduce(m + "\n") == Traduce(m) + "\n"
    decreases |m|
  {
    if m == "" {
      assert m + "\n" == "\n" && Traduce("\n") == "\n" + Traduce("\n"[1..]);
    } else {
      assert (m + "\n")[1..] == m[1..] + "\n";
      if m[0] == '\r' && m[1] == '\n' {
        assert (m + "\n")[2..] == m[2..] + "\n";
        TraduceFin(m[2..]);
      } else {
        TraduceFin(m[1..]);
      }
    }
  }

  lemma {:induction false} PartirTras(a: string, x: string, c: char)
    requires c !in a
    ensures var qs := Partir(x, c); Partir(a + x, c) == [a + qs[0]] + qs[1..]
  {
    var qs := Partir(x, c);
    if a == "" {
      assert a + x == x && a + qs[0] == qs[0];
    } else {
      assert a[0] in a && (a + x)[1..] == a[1..] + x;
      PartirTras(a[1..], x, c);
      assert [a[0]] + (a[1..] + qs[0]) == a + qs[0];
    }
  }

  /** The line of a raise is its start and its motive. */
  lemma PartesDeLinea(s: Subida, motivo: string)
    ensures LineaDe(s, motivo) == LineaDe(s, "") + motivo
    ensures UnaLinea(s.ruta) ==> '\n' !in LineaDe(s, "") && '\r' !in LineaDe(s, "")
  {
    hide Decimal, Pad;
    LineaDePartes(s, "");
    assert LineaDe(s, "") + motivo == LineaDe(s, motivo);
  }

  lemma RayaPartida(s: Subida, motivo: string)
    requires UnaLinea(s.ruta) && (motivo == "" || motivo[|motivo| - 1] != '\r')
    ensures Partir(Traduce(Unir([LineaDe(s, motivo), ""], '\n')), '\n') == LineasRaya(s, motivo) + [""]
  {
    hide LineaDe, Traduce, Partir, UnaLinea;
    var a, x := LineaDe(s, ""), Traduce(motivo);
    var qs := Partir(x, '\n');
    PartesDeLinea(s, motivo);
    PartesDeLinea(s, qs[0]);
    assert Unir([LineaDe(s, motivo), ""], '\n') == LineaDe(s, motivo) + "\n" == a + (motivo + "\n");
    TraduceTras(a, motivo + "\n");
    TraduceFin(motivo);
    PartirTras(a, x + "\n", '\n');
    PartirConcat(x, '\n', "");
    PartirEntero("", '\n');
    assert x + ['\n'] + "" == x + "\n";
    assert (qs + [""])[0] == qs[0] && (qs + [""])[1..] == qs[1..] + [""];
  }

  function SoloBase(r: Result<Lectura, string>): Result<Base, string> {
    match r
    case Err(x) => Err(x)
    case Ok(e) => Ok(e.base)
  }

  /** The path of every file that gets a ceiling fits its line. */
  predicate RutasLimpias(fs: seq<Ficha>, b: Base) { forall f <- fs :: Pasa(f, b.exentos) ==> Limpia(f.ruta) }

  /** The reading of a seal when it comes to the lines of the raise. */
  function AnteRaya(fs: seq<Ficha>, b: Base): Lectura {
    Lectura(Some("SUBIDAS"), Base(MapaDe(Techos(fs, b)), b.exentos, b.subidas))
  }

  lemma SellosCortos(fs: seq<Ficha>, b: Base, motivo: string, anillo: string -> Anillo)
    requires Sellada(fs, b, motivo, anillo).Ok?
    ensures var ss := Suben(fs, b); |ss| <= 1 && (ss != [] ==> motivo != "")
    ensures var ss := Suben(fs, b); LineasDe(ss, motivo) == if ss == [] then [] else [LineaDe(ss[0], motivo)]
    ensures Sellada(fs, b, motivo, anillo).value
            == Base(MapaDe(Techos(fs, b)), b.exentos, b.subidas + LineasDe(Suben(fs, b), motivo))
  {
    hide Suben, LineaDe, MapaDe, Techos, NuevosR0, LineasDe;
    LineasPocas(Suben(fs, b), motivo);
  }

  lemma RaizLimpia(fs: seq<Ficha>, b: Base)
    requires RutasLimpias(fs, b)
    ensures forall s <- Suben(fs, b) :: Limpia(s.ruta)
  {
    forall s <- Suben(fs, b)
      ensures Limpia(s.ruta)
    {
      SubenTienen(fs, b, s);
    }
  }

  lemma AnteRayaBuena(fs: seq<Ficha>, b: Base)
    requires Buena(b) && RutasLimpias(fs, b)
    ensures Buena(AnteRaya(fs, b).base)
  {
    hide MapaDe, Techos, Limpia, BuenExento, BuenaSubida;
    TechosLimpiosSii(fs, b);
  }

  /** What the run after a seal reads: the ceilings of the tree, the exemptions and the raises there were,
      and then whatever the lines of the new raise say. */
  lemma LoQueSeLee(t: string, arbol: seq<Ficha>, motivo: string, anillo: string -> Anillo, pl: Plantilla)
    requires pl.Valid() && Lee(t).Ok? && RutasLimpias(Censar(arbol), Lee(t).value)
    requires Sellada(Censar(arbol), Lee(t).value, Pelar(motivo), anillo).Ok?
    ensures var fs, b := Censar(arbol), Lee(t).value;
            Lee(SellaTexto(t, arbol, motivo, anillo, pl))
            == SoloBase(LeeLineas(LineasRayas(Suben(fs, b), Pelar(motivo)), AnteRaya(fs, b)))
  {
    hide LeeLineas, LineasRaya, LineaDe, LineasDe, MapaDe, Techos, Suben, Sellada, RutasLimpias, Buena, Ordena, Traduce,
         Partir, BuenasNotas, Censar;
    var fs, b, m := Censar(arbol), Lee(t).value, Pelar(motivo);
    var ss, e, ts := Suben(fs, b), AnteRaya(fs, b), Techos(fs, b);
    LeeBuena(t);
    SellosCortos(fs, b, m, anillo);
    AnteRayaBuena(fs, b);
    var c := Sellada(fs, b, m, anillo).value;
    var orden := pl.ordena(b.exentos);
    var rayas := LineasDe(ss, m);
    TextoConRayas(ts, orden, e.base, pl.notas, rayas);
    BaseYCola(ts, orden, e.base, pl.notas, rayas + [""]);
    LeeVacia(e);
    if ss == [] {
      PartirEntero("", '\n');
      TraduceNada();
      LeeNada(e);
      assert rayas + [""] == [""] && Unir([""], '\n') == "";
    } else {
      RaizLimpia(fs, b);
      assert ss[0] in ss;
      NoAcabaEnVuelta(motivo);
      RayaPartida(ss[0], m);
      assert rayas + [""] == [LineaDe(ss[0], m), ""];
      LeeJuntas(LineasRaya(ss[0], m), [""], e);
      if LeeLineas(LineasRaya(ss[0], m), e).Ok? {
        LeeVacia(LeeLineas(LineasRaya(ss[0], m), e).value);
      }
    }
  }

  lemma TextoConRayas(ts: seq<(string, nat)>, orden: seq<string>, b: Base, n: Notas, rayas: seq<string>)
    requires Ordena(orden, b.exentos)
    ensures Escribe(ts, orden, b.(subidas := b.subidas + rayas), n)
            == Unir(LineasDeBase(ts, orden, b, n) + (rayas + [""]), '\n')
  {
    hide Unir, LineasTecho, LineasExento, Ordena;
    var c := b.(subidas := b.subidas + rayas);
    assert LineasDeBase(ts, orden, c, n) + [""] == LineasDeBase(ts, orden, b, n) + (rayas + [""]);
  }

  lemma TraduceNada()
    ensures Traduce("") == ""
  {
  }

  lemma LeeNada(e: Lectura)
    ensures LeeLineas([], e) == Ok(e)
  {
  }

  lemma NoAcabaEnVuelta(s: string)
    ensures var m := Pelar(s); m == "" || m[|m| - 1] != '\r'
  {
    assert Blanco('\r');
  }

  /** A motive of several lines: the first one is read as the raise, the others as lines of their own. */
  lemma MotivoPartido(t: string, arbol: seq<Ficha>, motivo: string, anillo: string -> Anillo, pl: Plantilla, s: Subida)
    requires pl.Valid() && Lee(t).Ok? && RutasLimpias(Censar(arbol), Lee(t).value)
    requires Sellada(Censar(arbol), Lee(t).value, Pelar(motivo), anillo).Ok?
    requires Suben(Censar(arbol), Lee(t).value) == [s] && !("#" <= s.ruta) && !("[" <= s.ruta)
    ensures var e := AnteRaya(Censar(arbol), Lee(t).value);
            var qs := Partir(Traduce(Pelar(motivo)), '\n');
            Lee(SellaTexto(t, arbol, motivo, anillo, pl))
            == SoloBase(LeeLineas(qs[1..], e.(base := e.base.(subidas := e.base.subidas + [Pelar(LineaDe(s, qs[0]))]))))
  {
    hide LineaDe, Suben, Sellada, SellaTexto, Lee, Traduce, Partir, Censar, MapaDe, Techos, RutasLimpias;
    var e := AnteRaya(Censar(arbol), Lee(t).value);
    var qs := Partir(Traduce(Pelar(motivo)), '\n');
    LoQueSeLee(t, arbol, motivo, anillo, pl);
    RaizLimpia(Censar(arbol), Lee(t).value);
    RayaLeida(s, qs[0], e);
    LeeUna(LineaDe(s, qs[0]), e);
    LeeJuntas([LineaDe(s, qs[0])], qs[1..], e);
  }

  lemma LeeUna(l: string, e: Lectura)
    ensures LeeLineas([l], e) == Paso(e, l)
  {
    hide Paso;
    assert [l][..0] == [];
  }

  lemma RayaLeida(s: Subida, q: string, e: Lectura)
    requires Limpia(s.ruta) && e.seccion == Some("SUBIDAS") && s.ruta[0] != '#' && s.ruta[0] != '['
    ensures Paso(e, LineaDe(s, q)) == Ok(e.(base := e.base.(subidas := e.base.subidas + [Pelar(LineaDe(s, q))])))
  {
    hide LineaDe, PelarDer;
    LineaDePartes(s, q);
    PelarDerEmpieza(LineaDe(s, q));
  }

  /** Of a path that begins like a note it is read as a note, and the raise is lost. */
  lemma RayaPerdida(v: nat, n: nat, motivo: string, e: Lectura)
    ensures var l := LineaDe(Subida("#a.rs", v, n), motivo); !BuenaSubida(l) && Paso(e, l) == Ok(e)
  {
    hide LineaDe;
    LineaDePartes(Subida("#a.rs", v, n), motivo);
    LineaDeBuenaSii(Subida("#a.rs", v, n), motivo);
    NotaNada(LineaDe(Subida("#a.rs", v, n), motivo), e);
  }

  // -- Exactly when a seal brings something in ----------------------------------------------------------------

  /** The name of the section that a line opens. */
  function Titulo(l: string): Option<string> {
    var linea := Pelar(l);
    if "[" <= linea && |linea| >= 2 && linea[|linea| - 1] == ']' then Some(Mayusculas(linea[1..|linea| - 1])) else None
  }

  /** The section that a reading is in after those lines. */
  function SeccionTras(ls: seq<string>, seccion: Option<string>): Option<string> {
    if ls == [] then seccion
    else if Titulo(ls[|ls| - 1]).Some? then Titulo(ls[|ls| - 1])
    else SeccionTras(ls[..|ls| - 1], seccion)
  }

  /** A line of two parts: no note and no name of a section. */
  predicate TieneDos(l: string) {
    var linea := Pelar(l);
    linea != "" && linea[0] != '#' && Titulo(l).None? && TrasPalabra(linea) != ""
  }

  /** One of the lines, among the ceilings, is of path `r`. */
  predicate MeteTecho(ls: seq<string>, seccion: Option<string>, r: string) {
    ls != []
    && (|| MeteTecho(ls[..|ls| - 1], seccion, r)
        || (&& SeccionTras(ls[..|ls| - 1], seccion) == Some("TECHOS") && TieneDos(ls[|ls| - 1])
            && r == Pelar(TrasPalabra(Pelar(ls[|ls| - 1])))))
  }

  /** One of the lines, among the exemptions, is of path `r`. */
  predicate MeteExento(ls: seq<string>, seccion: Option<string>, r: string) {
    ls != []
    && (|| MeteExento(ls[..|ls| - 1], seccion, r)
        || (&& SeccionTras(ls[..|ls| - 1], seccion) == Some("EXENTOS") && TieneDos(ls[|ls| - 1])
            && r == Palabra(Pelar(ls[|ls| - 1]))))
  }

  /** Every line among the ceilings begins with a number. */
  predicate Legibles(ls: seq<string>, seccion: Option<string>) {
    ls == []
    || (&& Legibles(ls[..|ls| - 1], seccion)
        && (SeccionTras(ls[..|ls| - 1], seccion) == Some("TECHOS") && TieneDos(ls[|ls| - 1])
            ==> SonDigitos(Palabra(Pelar(ls[|ls| - 1])))))
  }

  lemma UnPasoDice(e: Lectura, l: string)
    ensures Paso(e, l).Ok? <==> e.seccion == Some("TECHOS") && TieneDos(l) ==> SonDigitos(Palabra(Pelar(l)))
    ensures Paso(e, l).Ok? ==> var f := Paso(e, l).value;
              && f.seccion == (if Titulo(l).Some? then Titulo(l) else e.seccion)
              && f.base.techos.Keys == e.base.techos.Keys
                 + (if e.seccion == Some("TECHOS") && TieneDos(l) then {Pelar(TrasPalabra(Pelar(l)))} else {})
              && f.base.exentos.Keys == e.base.exentos.Keys
                 + (if e.seccion == Some("EXENTOS") && TieneDos(l) then {Palabra(Pelar(l))} else {})
  {
    hide Pelar, Palabra, TrasPalabra, Valor, Mayusculas;
  }

  /** What any lines put into a reading. */
  lemma {:induction false} LasLineasDicen(ls: seq<string>, e: Lectura)
    ensures LeeLineas(ls, e).Ok? <==> Legibles(ls, e.seccion)
    ensures LeeLineas(ls, e).Ok? ==> var f := LeeLineas(ls, e).value;
              && f.seccion == SeccionTras(ls, e.seccion)
              && (forall r :: r in f.base.techos <==> r in e.base.techos || MeteTecho(ls, e.seccion, r))
              && (forall r :: r in f.base.exentos <==> r in e.base.exentos || MeteExento(ls, e.seccion, r))
  {
    hide Paso, Titulo, TieneDos, Pelar, Palabra, TrasPalabra;
    if ls != [] {
      var n := |ls| - 1;
      LasLineasDicen(ls[..n], e);
      if LeeLineas(ls[..n], e).Ok? {
        UnPasoDice(LeeLineas(ls[..n], e).value, ls[n]);
      }
    }
  }

  /** No Ring 0 path enters the baseline that the next run reads exactly when no line of the motive puts
      one among the ceilings; and no exemption is added exactly when none puts one among the exemptions. */
  lemma Ring0EntraSii(t: string, arbol: seq<Ficha>, motivo: string, anillo: string -> Anillo, pl: Plantilla)
    requires pl.Valid() && Lee(t).Ok? && RutasLimpias(Censar(arbol), Lee(t).value)
    requires Sellada(Censar(arbol), Lee(t).value, Pelar(motivo), anillo).Ok?
    ensures var b, u := Lee(t).value, Lee(SellaTexto(t, arbol, motivo, anillo, pl));
            var ls := LineasRayas(Suben(Censar(arbol), b), Pelar(motivo));
            && (u.Ok? <==> Legibles(ls, Some("SUBIDAS")))
            && (u.Ok? ==>
                  ((forall r | r in u.value.techos && anillo(r) == Ring0 :: r in b.techos)
                   <==> forall r | MeteTecho(ls, Some("SUBIDAS"), r) && anillo(r) == Ring0 :: r in b.techos))
            && (u.Ok? ==>
                  (u.value.exentos.Keys == b.exentos.Keys
                   <==> forall r | MeteExento(ls, Some("SUBIDAS"), r) :: r in b.exentos))
  {
    hide Sellada, Censar, Suben, LineasRayas, Legibles, MeteTecho, MeteExento, LeeLineas, Lee, SellaTexto, RutasLimpias,
         Pelar, MapaDe, Techos;
    var fs, b := Censar(arbol), Lee(t).value;
    var ls := LineasRayas(Suben(fs, b), Pelar(motivo));
    LoQueSeLee(t, arbol, motivo, anillo, pl);
    LasLineasDicen(ls, AnteRaya(fs, b));
    SellosCortos(fs, b, Pelar(motivo), anillo);
    forall r | r in MapaDe(Techos(fs, b)) && anillo(r) == Ring0
      ensures r in b.techos
    {
      Ring0NoEntra(fs, b, Pelar(motivo), anillo, r);
    }
  }

  // -- The guard of a caller -----------------------------------------------------------------------------------

  /** What a caller can look at before a seal: the paths that get a ceiling fit their line, and a motive
      that is written has one line. */
  predicate Guardado(fs: seq<Ficha>, b: Base, motivo: string) {
    RutasLimpias(fs, b) && (Suben(fs, b) != [] ==> UnaLinea(motivo))
  }

  lemma UnaSolaLinea(motivo: string, s: Subida)
    requires UnaLinea(motivo)
    ensures LineasRaya(s, motivo) == [LineaDe(s, motivo)]
  {
    hide LineaDe;
    TraduceIgual(motivo);
    PartirEntero(motivo, '\n');
  }

  /** With it the run after a seal reads the ceilings and the exemptions that were sealed. */
  lemma SelloGuardado(t: string, arbol: seq<Ficha>, motivo: string, anillo: string -> Anillo, pl: Plantilla)
    requires pl.Valid() && Lee(t).Ok? && Guardado(Censar(arbol), Lee(t).value, Pelar(motivo))
    requires Sellada(Censar(arbol), Lee(t).value, Pelar(motivo), anillo).Ok?
    ensures var c, u := Sellada(Censar(arbol), Lee(t).value, Pelar(motivo), anillo).value,
                        Lee(SellaTexto(t, arbol, motivo, anillo, pl));
            u.Ok? && u.value.techos == c.techos && u.value.exentos == c.exentos
  {
    hide Sellada, Censar, Suben, LineaDe, LineasRaya, LeeLineas, Lee, SellaTexto, Pelar, MapaDe, Techos, RutasLimpias;
    var fs, b, m := Censar(arbol), Lee(t).value, Pelar(motivo);
    var e := AnteRaya(fs, b);
    LoQueSeLee(t, arbol, motivo, anillo, pl);
    SellosCortos(fs, b, m, anillo);
    LeeNada(e);
    if Suben(fs, b) != [] {
      var s := Suben(fs, b)[0];
      UnaSolaLinea(m, s);
      LeeUna(LineaDe(s, m), e);
      EntreRayas(e, LineaDe(s, m));
    }
  }

  /** A line among the raises changes neither ceilings nor exemptions. */
  lemma EntreRayas(e: Lectura, l: string)
    requires e.seccion == Some("SUBIDAS")
    ensures Paso(e, l).Ok? && Paso(e, l).value.base.techos == e.base.techos
            && Paso(e, l).value.base.exentos == e.base.exentos
  {
    hide Pelar, Palabra, TrasPalabra, Valor, Mayusculas;
  }

  /** And everything that was sealed, the raise included, exactly when the raise fits its line too. */
  lemma SelloFiel(t: string, arbol: seq<Ficha>, motivo: string, anillo: string -> Anillo, pl: Plantilla)
    requires pl.Valid() && Lee(t).Ok?
    requires Sellada(Censar(arbol), Lee(t).value, Pelar(motivo), anillo).Ok?
    ensures Lee(SellaTexto(t, arbol, motivo, anillo, pl))
            == Ok(Sellada(Censar(arbol), Lee(t).value, Pelar(motivo), anillo).value)
            <==> SeLee(Censar(arbol), Lee(t).value, Pelar(motivo))
  {
    hide Sellada, Censar, Lee, Pelar, MapaDe, Techos, SeLee, Buena, Escribe, Ordena;
    var fs, b, m := Censar(arbol), Lee(t).value, Pelar(motivo);
    var c := Sellada(fs, b, m, anillo).value;
    LeeBuena(t);
    SellosCortos(fs, b, m, anillo);
    SelladaBuenaSii(fs, b, m, anillo);
    LeeEscribeSii(Techos(fs, b), pl.ordena(c.exentos), c, pl.notas);
  }

  // -- Histories -------------------------------------------------------------------------------------------------

  /** The file after a history: every seal reads it and writes it anew. */
  function TextoTras(t: string, es: seq<Evento>, anillo: string -> Anillo, pl: Plantilla): string
    requires pl.Valid()
  {
    if es == [] then t
    else
      var u := TextoTras(t, es[..|es| - 1], anillo, pl);
      match es[|es| - 1]
      case Cambia(_) => u
      case Sella(arbol, motivo) => SellaTexto(u, arbol, motivo, anillo, pl)
  }

  /** After every event the file says what the baseline would be in memory. */
  predicate Fiel(t: string, es: seq<Evento>, anillo: string -> Anillo, pl: Plantilla)
    requires pl.Valid() && Lee(t).Ok?
  {
    && (es != [] ==> Fiel(t, es[..|es| - 1], anillo, pl))
    && Lee(TextoTras(t, es, anillo, pl)) == Ok(Tras(Lee(t).value, es, anillo))
  }

  /** A seal that is done and not refused. */
  predicate Sello(b: Base, e: Evento, anillo: string -> Anillo) {
    e.Sella? && Sellada(Censar(e.arbol), b, Pelar(e.motivo), anillo).Ok?
  }

  /** Every seal that is done can be read back. */
  predicate SeLeen(b: Base, es: seq<Evento>, anillo: string -> Anillo) {
    es == []
    || (var c, e := Tras(b, es[..|es| - 1], anillo), es[|es| - 1];
        SeLeen(b, es[..|es| - 1], anillo) && (Sello(c, e, anillo) ==> SeLee(Censar(e.arbol), c, Pelar(e.motivo))))
  }

  /** Over any history the file goes with the baseline in memory exactly when every seal that is done can be
      read back. */
  lemma {:induction false} HistoriaFielSii(t: string, es: seq<Evento>, anillo: string -> Anillo, pl: Plantilla)
    requires pl.Valid() && Lee(t).Ok?
    ensures Fiel(t, es, anillo, pl) <==> SeLeen(Lee(t).value, es, anillo)
  {
    hide Lee, Sellada, SeLee, Censar, Pelar, SellaTexto;
    if es != [] {
      var n := |es| - 1;
      HistoriaFielSii(t, es[..n], anillo, pl);
      var c, e, u := Tras(Lee(t).value, es[..n], anillo), es[n], TextoTras(t, es[..n], anillo, pl);
      if Fiel(t, es[..n], anillo, pl) && e.Sella? {
        NoSella(u, e.arbol, e.motivo, anillo, pl);
        if Sello(c, e, anillo) {
          SelloFiel(u, e.arbol, e.motivo, anillo, pl);
        }
      }
    }
  }

  lemma NoSella(t: string, arbol: seq<Ficha>, motivo: string, anillo: string -> Anillo, pl: Plantilla)
    requires pl.Valid() && Lee(t).Ok?
    ensures Sellada(Censar(arbol), Lee(t).value, Pelar(motivo), anillo).Err? ==>
              SellaTexto(t, arbol, motivo, anillo, pl) == t
  {
    hide Lee, Sellada, Censar, Pelar, Escribe;
  }

  /** Every seal that is done is one that its caller guarded. */
  predicate Guardada(b: Base, es: seq<Evento>, anillo: string -> Anillo) {
    es == []
    || (var c, e := Tras(b, es[..|es| - 1], anillo), es[|es| - 1];
        Guardada(b, es[..|es| - 1], anillo) && (Sello(c, e, anillo) ==> Guardado(Censar(e.arbol), c, Pelar(e.motivo))))
  }

  predicate MismosTechos(b: Base, c: Base) { b.techos == c.techos && b.exentos == c.exentos }

  /** The raises written so far decide nothing. */
  lemma {:induction false} MismaDecision(fs: seq<Ficha>, b: Base, c: Base, anillo: string -> Anillo)
    requires MismosTechos(b, c)
    ensures NuevosR0(fs, b, anillo) == NuevosR0(fs, c, anillo)
    ensures Suben(fs, b) == Suben(fs, c) && Techos(fs, b) == Techos(fs, c)
  {
    if fs != [] {
      MismaDecision(fs[..|fs| - 1], b, c, anillo);
    }
  }

  lemma MismoSello(fs: seq<Ficha>, b: Base, c: Base, m: string, anillo: string -> Anillo)
    requires MismosTechos(b, c)
    ensures Sellada(fs, b, m, anillo).Ok? <==> Sellada(fs, c, m, anillo).Ok?
    ensures Sellada(fs, b, m, anillo).Ok? ==>
              MismosTechos(Sellada(fs, b, m, anillo).value, Sellada(fs, c, m, anillo).value)
    ensures Guardado(fs, b, m) <==> Guardado(fs, c, m)
  {
    hide NuevosR0, Suben, Techos, MapaDe, LineasDe, Limpia;
    MismaDecision(fs, b, c, anillo);
  }

  /** Over any guarded history the ceilings and the exemptions of the file are those in memory. */
  lemma {:induction false} HistoriaGuardada(t: string, es: seq<Evento>, anillo: string -> Anillo, pl: Plantilla)
    requires pl.Valid() && Lee(t).Ok? && Guardada(Lee(t).value, es, anillo)
    ensures var u := Lee(TextoTras(t, es, anillo, pl)); u.Ok? && MismosTechos(u.value, Tras(Lee(t).value, es, anillo))
  {
    hide Lee, Sellada, Guardado, Censar, Pelar, SellaTexto;
    if es != [] {
      var n := |es| - 1;
      HistoriaGuardada(t, es[..n], anillo, pl);
      var c, e, u := Tras(Lee(t).value, es[..n], anillo), es[n], TextoTras(t, es[..n], anillo, pl);
      if e.Sella? {
        MismoSello(Censar(e.arbol), c, Lee(u).value, Pelar(e.motivo), anillo);
        NoSella(u, e.arbol, e.motivo, anillo, pl);
        if Sello(c, e, anillo) {
          SelloGuardado(u, e.arbol, e.motivo, anillo, pl);
        }
      }
    }
  }

  // -- What the file keeps -----------------------------------------------------------------------------------------

  /** Over any guarded history the Ring 0 paths of the file only shrink, and its exemptions stay. */
  lemma Ring0EncogeEnTexto(t: string, es: seq<Evento>, anillo: string -> Anillo, pl: Plantilla, r: string)
    requires pl.Valid() && Lee(t).Ok? && Guardada(Lee(t).value, es, anillo) && anillo(r) == Ring0
    ensures var u := Lee(TextoTras(t, es, anillo, pl));
            u.Ok? && u.value.exentos == Lee(t).value.exentos && (r in u.value.techos ==> r in Lee(t).value.techos)
  {
    hide Lee, TextoTras, Tras, Guardada;
    HistoriaGuardada(t, es, anillo, pl);
    Ring0SoloEncoge(Lee(t).value, es, anillo, r);
  }

  lemma MismoJuicio(j: Juicio, fs: seq<Ficha>, b: Base, c: Base)
    requires MismosTechos(b, c)
    ensures Acierta(j, fs, b) <==> Acierta(j, fs, c)
  {
    assert forall f :: EsNuevo(f, b) == EsNuevo(f, c) && EsCrecido(f, b) == EsCrecido(f, c)
                       && EsEncogido(f, b) == EsEncogido(f, c);
    assert forall r :: Salio(r, fs, b) == Salio(r, fs, c);
  }

  /** So a Ring 0 file that was not in the first file, not exempt there and that no generator wrote has at most
      1000 lines of code in every tree that passes the check, as long as the file holds any ceiling at all. */
  lemma Ring0AcotadoEnTexto(t: string, es: seq<Evento>, anillo: string -> Anillo, pl: Plantilla, arbol: seq<Ficha>,
                            j: Juicio, f: Ficha)
    requires pl.Valid() && Lee(t).Ok? && Guardada(Lee(t).value, es, anillo)
    requires var u := Lee(TextoTras(t, es, anillo, pl));
             u.Ok? ==> Acierta(j, Censar(arbol), u.value) && Aprueba(j, u.value) && u.value.techos != map[]
    requires f in arbol && anillo(f.ruta) == Ring0 && !f.generado
    requires f.ruta !in Lee(t).value.techos && f.ruta !in Lee(t).value.exentos
    ensures f.codigo <= LIMITE
  {
    hide Lee, TextoTras, Tras, Guardada, Acierta, Censar;
    HistoriaGuardada(t, es, anillo, pl);
    MismoJuicio(j, Censar(arbol), Lee(TextoTras(t, es, anillo, pl)).value, Tras(Lee(t).value, es, anillo));
    Ring0Acotado(Lee(t).value, es, anillo, arbol, j, f);
  }

  /** Right after a guarded seal the run that reads the file again finds the tree at rest. */
  lemma EnReposo(t: string, arbol: seq<Ficha>, motivo: string, anillo: string -> Anillo, pl: Plantilla, j: Juicio)
    requires pl.Valid() && Lee(t).Ok? && Guardado(Censar(arbol), Lee(t).value, Pelar(motivo))
    requires Sellada(Censar(arbol), Lee(t).value, Pelar(motivo), anillo).Ok? && Distintas(Censar(arbol))
    requires var u := Lee(SellaTexto(t, arbol, motivo, anillo, pl)); u.Ok? ==> Acierta(j, Censar(arbol), u.value)
    ensures Lee(SellaTexto(t, arbol, motivo, anillo, pl)).Ok? && j == Juicio([], [], [], {})
  {
    hide Lee, SellaTexto, Sellada, Guardado, Acierta, Censar, Pelar, Distintas;
    var c := Sellada(Censar(arbol), Lee(t).value, Pelar(motivo), anillo).value;
    SelloGuardado(t, arbol, motivo, anillo, pl);
    MismoJuicio(j, Censar(arbol), Lee(SellaTexto(t, arbol, motivo, anillo, pl)).value, c);
    TrasSellar(Censar(arbol), Lee(t).value, Pelar(motivo), anillo, j);
  }

  /** A guarded seal raises at most one ceiling of the file, and only with a motive; when it can be read back,
      the file holds one more line, with that path, both numbers and that motive, and otherwise none. */
  lemma AlMasUnaEnTexto(t: string, arbol: seq<Ficha>, motivo: string, anillo: string -> Anillo, pl: Plantilla)
    requires pl.Valid() && Lee(t).Ok? && Guardado(Censar(arbol), Lee(t).value, Pelar(motivo))
    requires Sellada(Censar(arbol), Lee(t).value, Pelar(motivo), anillo).Ok? && Distintas(Censar(arbol))
    ensures var b, u := Lee(t).value, Lee(SellaTexto(t, arbol, motivo, anillo, pl));
            && u.Ok?
            && (|| Levantados(b, u.value) == {}
                || (Pelar(motivo) != "" && exists r :: Levantados(b, u.value) == {r}))
            && (SeLee(Censar(arbol), b, Pelar(motivo)) ==>
                  || (Levantados(b, u.value) == {} && u.value.subidas == b.subidas)
                  || (exists r ::
                        && Levantados(b, u.value) == {r} && r in b.techos && r in u.value.techos
                        && u.value.subidas
                           == b.subidas + [LineaDe(Subida(r, b.techos[r], u.value.techos[r]), Pelar(motivo))]))
  {
    hide Lee, SellaTexto, Sellada, Guardado, Censar, Pelar, Distintas, SeLee, LineaDe;
    var fs, b, m := Censar(arbol), Lee(t).value, Pelar(motivo);
    SelloGuardado(t, arbol, motivo, anillo, pl);
    SelloFiel(t, arbol, motivo, anillo, pl);
    AlMasUna(fs, b, m, anillo);
    var c, u := Sellada(fs, b, m, anillo).value, Lee(SellaTexto(t, arbol, motivo, anillo, pl)).value;
    assert Levantados(b, c) == Levantados(b, u);
  }

  /** Sealing a tree with no long file leaves a file without ceilings, whatever the motive. */
  lemma ArbolLimpioEnTexto(t: string, arbol: seq<Ficha>, motivo: string, anillo: string -> Anillo, pl: Plantilla)
    requires pl.Valid() && Lee(t).Ok? && forall f <- Censar(arbol) :: !Pasa(f, Lee(t).value.exentos)
    ensures Lee(SellaTexto(t, arbol, motivo, anillo, pl)) == Ok(Lee(t).value.(techos := map[]))
  {
    hide Lee, SellaTexto, Sellada, Censar, Pelar;
    var fs, b, m := Censar(arbol), Lee(t).value, Pelar(motivo);
    SelloDeArbolLimpio(fs, b, m, anillo);
    NadaQueSellar(fs, b, anillo);
    SelloFiel(t, arbol, motivo, anillo, pl);
  }

  // -- Motives of several lines ----------------------------------------------------------------------------------

  /** A tree with one long file. */
  function UnArbol(): seq<Ficha> { [Ficha("a.rs", 1100, 1100, false)] }

  /** A baseline in which that file grew. */
  predicate Crecido(b: Base) { "a.rs" in b.techos && b.techos["a.rs"] < 1100 && "a.rs" !in b.exentos }

  function SuRaya(b: Base): Subida
    requires Crecido(b)
  {
    Subida("a.rs", b.techos["a.rs"], 1100)
  }

  lemma SubeUna(b: Base, anillo: string -> Anillo)
    requires Crecido(b)
    ensures Censar(UnArbol()) == UnArbol() && RutasLimpias(UnArbol(), b) && NuevosR0(UnArbol(), b, anillo) == []
    ensures Suben(UnArbol(), b) == [SuRaya(b)] && MapaDe(Techos(UnArbol(), b)) == map["a.rs" := 1100]
  {
    var fs := UnArbol();
    assert fs[..0] == [];
    assert Limpia("a.rs");
    assert Techos(fs, b) == [("a.rs", 1100)] && [("a.rs", 1100 as nat)][..0] == [];
  }

  /** A reason, the name of a section and a line of it. */
  function Motivo(nombre: string, l: string): string { "x\n" + ("[" + nombre + "]\n" + l) }

  lemma TresLineas(nombre: string, l: string)
    requires EsTitulo(nombre) && UnaLinea(l) && l != "" && !Blanco(l[|l| - 1])
    ensures Pelar(Motivo(nombre, l)) == Motivo(nombre, l)
    ensures Partir(Traduce(Motivo(nombre, l)), '\n') == ["x", "[" + nombre + "]", l]
  {
    hide Pelar, Partir;
    var m, titulo := Motivo(nombre, l), "[" + nombre + "]";
    assert m[0] == 'x' && m[|m| - 1] == l[|l| - 1];
    PelarNucleo("", m, "");
    assert "" + m + "" == m;
    var ps := ["x", titulo, l];
    assert Unir(ps, '\n') == m by {
      assert ps[1..] == [titulo, l] && [titulo, l][1..] == [l];
      assert Unir([titulo, l], '\n') == titulo + ['\n'] + Unir([l], '\n');
      assert Unir(ps, '\n') == "x" + ['\n'] + (titulo + ['\n'] + l);
    }
    assert UnaLinea(titulo);
    UnirSin(ps, '\n', '\r');
    TraduceIgual(m);
    PartirUnir(ps, '\n');
  }

  /** What is read after a seal with such a motive: the raise, and then the line where it says it belongs. */
  lemma MotivoDeTres(t: string, anillo: string -> Anillo, pl: Plantilla, nombre: string, l: string)
    requires pl.Valid() && Lee(t).Ok? && Crecido(Lee(t).value)
    requires EsTitulo(nombre) && UnaLinea(l) && l != "" && !Blanco(l[|l| - 1])
    ensures var b := Lee(t).value;
            Lee(SellaTexto(t, UnArbol(), Motivo(nombre, l), anillo, pl))
            == SoloBase(Paso(Lectura(Some(nombre), Base(map["a.rs" := 1100], b.exentos,
                                                        b.subidas + [Pelar(LineaDe(SuRaya(b), "x"))])), l))
  {
    hide Lee, SellaTexto, Pelar, Paso, LineaDe, Motivo, UnArbol, Crecido, UnaLinea, EsTitulo, Censar, Suben, Techos,
         MapaDe, NuevosR0, RutasLimpias, Partir, Traduce;
    var b, m := Lee(t).value, Motivo(nombre, l);
    SubeUna(b, anillo);
    TresLineas(nombre, l);
    assert m != "" by { NoVacio(nombre, l); }
    assert SuRaya(b).ruta[0] == 'a';
    MotivoPartido(t, UnArbol(), m, anillo, pl, SuRaya(b));
    var e := AnteRaya(UnArbol(), b);
    var f := e.(base := e.base.(subidas := e.base.subidas + [Pelar(LineaDe(SuRaya(b), "x"))]));
    var titulo := "[" + nombre + "]";
    assert ["x", titulo, l][1..] == [titulo] + [l];
    LeeUna(titulo, f);
    TituloLeido(nombre, f);
    LeeJuntas([titulo], [l], f);
    LeeUna(l, f.(seccion := Some(nombre)));
  }

  lemma NoVacio(nombre: string, l: string)
    ensures Motivo(nombre, l) != ""
  {
  }

  /** A motive of three lines puts any path into the baseline with any ceiling, one of Ring 0 too: the very
      tree that was sealed is not at rest, and that file passes the check at that size. */
  lemma MotivoMete(t: string, anillo: string -> Anillo, pl: Plantilla, r: string, n: nat)
    requires pl.Valid() && Lee(t).Ok? && Crecido(Lee(t).value) && Limpia(r)
    ensures var b, u := Lee(t).value, Lee(SellaTexto(t, UnArbol(), Motivo("TECHOS", LineaTecho((r, n))), anillo, pl));
            && u.Ok? && u.value.techos == map["a.rs" := 1100][r := n] && u.value.exentos == b.exentos
            && (r != "a.rs" ==> Salio(r, UnArbol(), u.value))
            && (r != "a.rs" ==>
                  forall j :: Acierta(j, UnArbol() + [Ficha(r, n, n, false)], u.value) ==> Aprueba(j, u.value))
  {
    hide Lee, SellaTexto, Pelar, Paso, LineaDe, LineaTecho, Crecido, Motivo, PadIzq;
    var b, l := Lee(t).value, LineaTecho((r, n));
    TechoAcaba(r, n);
    TresTitulos();
    MotivoDeTres(t, anillo, pl, "TECHOS", l);
    TechoLeido((r, n), Lectura(Some("TECHOS"), Base(map["a.rs" := 1100], b.exentos,
                                                    b.subidas + [Pelar(LineaDe(SuRaya(b), "x"))])));
    var u := Lee(SellaTexto(t, UnArbol(), Motivo("TECHOS", l), anillo, pl)).value;
    if r != "a.rs" {
      forall j | Acierta(j, UnArbol() + [Ficha(r, n, n, false)], u)
        ensures Aprueba(j, u)
      {
        AlgunaHay(j.nuevos);
        AlgunaHay(j.crecidos);
      }
    }
  }

  lemma TechoAcaba(r: string, n: nat)
    requires Limpia(r)
    ensures var l := LineaTecho((r, n)); UnaLinea(l) && l != "" && !Blanco(l[|l| - 1])
  {
    hide Decimal;
    var d := Decimal(n);
    DigitosUnaLinea(d);
    var l := LineaTecho((r, n));
    assert l[|l| - 1] == r[|r| - 1];
  }

  /** Another one exempts any path. */
  lemma MotivoExime(t: string, anillo: string -> Anillo, pl: Plantilla, r: string, porque: string)
    requires pl.Valid() && Lee(t).Ok? && Crecido(Lee(t).value) && BuenExento(r, porque)
    ensures var b := Lee(t).value;
            var u := Lee(SellaTexto(t, UnArbol(), Motivo("EXENTOS", LineaExento(r, porque)), anillo, pl));
            u.Ok? && u.value.exentos == b.exentos[r := porque]
  {
    hide Lee, SellaTexto, Pelar, Paso, LineaDe, Crecido, Motivo, Limpia;
    var b, l := Lee(t).value, LineaExento(r, porque);
    ExentoAcaba(r, porque);
    TresTitulos();
    MotivoDeTres(t, anillo, pl, "EXENTOS", l);
    ExentoLeido(r, porque, Lectura(Some("EXENTOS"), Base(map["a.rs" := 1100], b.exentos,
                                                         b.subidas + [Pelar(LineaDe(SuRaya(b), "x"))])));
  }

  lemma ExentoAcaba(r: string, porque: string)
    requires BuenExento(r, porque)
    ensures var l := LineaExento(r, porque); UnaLinea(l) && l != "" && !Blanco(l[|l| - 1])
  {
    var l := LineaExento(r, porque);
    assert l[|l| - 1] == porque[|porque| - 1];
    assert Blanco('\n') && Blanco('\r');
  }

  /** And one leaves a baseline that no later run can read. */
  lemma MotivoRompe(t: string, anillo: string -> Anillo, pl: Plantilla)
    requires pl.Valid() && Lee(t).Ok? && Crecido(Lee(t).value)
    ensures Lee(SellaTexto(t, UnArbol(), Motivo("TECHOS", "mil  k.rs"), anillo, pl)) == Err("mil")
  {
    hide Lee, SellaTexto, LineaDe, Crecido, Motivo, Paso, Pelar;
    var b := Lee(t).value;
    TresTitulos();
    MotivoDeTres(t, anillo, pl, "TECHOS", "mil  k.rs");
    LineaRota(Lectura(Some("TECHOS"), Base(map["a.rs" := 1100], b.exentos,
                                           b.subidas + [Pelar(LineaDe(SuRaya(b), "x"))])));
  }

  lemma LineaRota(e: Lectura)
    requires e.seccion == Some("TECHOS")
    ensures Paso(e, "mil  k.rs") == Err("mil")
  {
    hide Pelar, Palabra, TrasPalabra, Valor, Mayusculas;
    var l := "mil  k.rs";
    PelarNucleo("", l, "");
    assert "" + l + "" == l && "mil" + "  " + "k.rs" == l;
    DosPartes("mil", "k.rs");
    assert 'm' in "mil" && l[0] == 'm';
  }
}
