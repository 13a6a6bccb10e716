/** How the antenna sends a judged lamina: `servir_lamina` (a file of its folder) and
    `servir_pagina` (what the browser just gave). Either every line goes out or none does. */
module LaminaServir {
  import opened Textos
  import opened LaminaJuez

  /** Every line followed by its newline. */
  function ConSaltos(ls: seq<string>): string {
    if ls == [] then "" else ConSaltos(ls[..|ls| - 1]) + ls[|ls| - 1] + "\n"
  }

  function SinCR(ls: seq<string>): (r: seq<string>)
    ensures |r| == |ls| && forall k | 0 <= k < |ls| :: r[k] == QuitaCR(ls[k])
  {
    if ls == [] then [] else [QuitaCR(ls[0])] + SinCR(ls[1..])
  }

  function NoVacias(ls: seq<string>): seq<string> {
    if ls == [] then []
    else NoVacias(ls[..|ls| - 1]) + if ls[|ls| - 1] == "" then [] else [ls[|ls| - 1]]
  }

  lemma ConSaltosNada()
    ensures ConSaltos([]) == ""
  {
  }

  lemma {:induction false} ConSaltosMas(ls: seq<string>, l: string)
    ensures ConSaltos(ls + [l]) == ConSaltos(ls) + l + "\n"
  {
    assert (ls + [l])[..|ls|] == ls;
  }

  lemma {:induction false} ConSaltosUnir(ls: seq<string>)
    requires |ls| >= 1
    ensures ConSaltos(ls) == Unir(ls, '\n') + "\n"
  {
    var u := ls[|ls| - 1];
    if |ls| == 1 {
      assert ls[..0] == [] && ls == [u];
      assert "" + u + "\n" == u + "\n";
    } else {
      ConSaltosUnir(ls[..|ls| - 1]);
      UnirConcat(ls[..|ls| - 1], [u], '\n');
      assert ls[..|ls| - 1] + [u] == ls;
    }
  }

  // -- Accepted lines are never empty ---------------------------------------------------------------

  lemma LineaNoVacia(datos: string, k: nat)
    requires Aceptada(datos) && k < |Lineas(datos)|
    ensures QuitaCR(Lineas(datos)[k]) != "" && Lineas(datos)[k] != ""
  {
    var ls := Lineas(datos);
    assert Partir("", ' ') == [""];
    if k > 0 {
      AceptadaDentro(datos);
    }
  }

  // -- servir_lamina ------------------------------------------------------------------------------------

  /** The lines that `servir_lamina` sends: carriage returns off, then the empty last piece off. */
  function LineasServidas(datos: string): seq<string> {
    var ls := SinCR(Partir(datos, '\n'));
    if ls[|ls| - 1] == "" then ls[..|ls| - 1] else ls
  }

  method ServirLamina(datos: string) returns (enviado: string, aceptada: bool)
    ensures aceptada == Aceptada(datos)
    ensures enviado == if aceptada then ConSaltos(LineasServidas(datos)) else ""
  {
    hide Juzgar, Partir, SinCR, ConSaltos;
    ConSaltosNada();
    var v := JuzgarBytes(datos);
    if v.Err? {
      return "", false;
    }
    var lineas := SinCR(Partir(datos, '\n'));
    if lineas[|lineas| - 1] == "" {
      lineas := lineas[..|lineas| - 1];
    }
    enviado := "";
    for k := 0 to |lineas|
      invariant enviado == ConSaltos(lineas[..k])
    {
      ConSaltosMas(lineas[..k], lineas[k]);
      assert lineas[..k + 1] == lineas[..k] + [lineas[k]];
      enviado := enviado + lineas[k] + "\n";
    }
    assert lineas[..|lineas|] == lineas;
    return enviado, true;
  }

  lemma ServidasSonLineas(datos: string)
    requires Aceptada(datos)
    ensures LineasServidas(datos) == SinCR(Lineas(datos))
  {
    var ps := Partir(datos, '\n');
    var u := |ps| - 1;
    if ps[u] == "" {
      assert SinCR(ps)[..u] == SinCR(ps[..u]);
    } else {
      LineaNoVacia(datos, u);
    }
  }

  lemma {:induction false} MismoJuicio(juez: JuezDeLinea, a: seq<string>, b: seq<string>, k: nat)
    requires |a| == |b| && k <= |a|
    requires forall i | 1 <= i < |a| :: juez(a[i]) == juez(b[i])
    ensures JuzgarHasta(juez, a, k) == JuzgarHasta(juez, b, k)
  {
    if k > 1 {
      MismoJuicio(juez, a, b, k - 1);
    }
  }

  lemma AceptadaPorPartes(datos: string)
    requires Aceptada(datos)
    ensures var ls := Lineas(datos); var v := Juzgar(datos).value;
            && ls != [] && v.n == |ls| - 1 && v.bytes == |datos|
            && LeeCabecera(ls[0]) == Ok((v.ancho, v.alto, v.n))
            && JuzgarHasta(Juez(v.ancho, v.alto), ls, |ls|) == Ok(v.cuenta)
  {
    hide LeeCabecera, JuzgarHasta, Lineas, JuzgarLinea;
    var (W, H, n) := LeeCabecera(Lineas(datos)[0]).value;
    assert LeeCabecera(Lineas(datos)[0]).value == (W, H, n);
  }

  lemma JuzgarDePartes(datos: string, ls: seq<string>, v: Veredicto)
    requires Lineas(datos) == ls && ls != [] && v.n == |ls| - 1 && v.bytes == |datos|
    requires LeeCabecera(ls[0]) == Ok((v.ancho, v.alto, v.n))
    requires JuzgarHasta(Juez(v.ancho, v.alto), ls, |ls|) == Ok(v.cuenta)
    ensures Juzgar(datos) == Ok(v)
  {
    hide LeeCabecera, JuzgarHasta, Lineas, JuzgarLinea;
  }

  lemma SinCRSinSalto(ls: seq<string>)
    requires forall l <- ls :: '\n' !in l
    ensures forall q <- SinCR(ls) :: '\n' !in q
  {
    forall q | q in SinCR(ls) ensures '\n' !in q {
      var k :| 0 <= k < |ls| && SinCR(ls)[k] == q;
      assert ls[k] in ls;
    }
  }

  lemma JuicioSinCR(ls: seq<string>, W: nat, H: nat)
    ensures JuzgarHasta(Juez(W, H), SinCR(ls), |ls|) == JuzgarHasta(Juez(W, H), ls, |ls|)
  {
    hide JuzgarHasta, JuzgarLinea, QuitaCR, SinCR;
    forall i | 1 <= i < |ls| ensures Juez(W, H)(ls[i]) == Juez(W, H)(SinCR(ls)[i]) {
      QuitaCRJuzga(ls[i], W, H);
    }
    MismoJuicio(Juez(W, H), ls, SinCR(ls), |ls|);
  }

  /** What `servir_lamina` sends of an accepted file is accepted again by the same judge, with the
      same size and the same counts, and has exactly n + 1 lines. */
  lemma ServidaVuelveAPasar(datos: string)
    requires Aceptada(datos)
    ensures var v := Juzgar(datos).value; var flujo := ConSaltos(LineasServidas(datos));
            && Juzgar(flujo) == Ok(v.(bytes := |flujo|))
            && |Lineas(flujo)| == v.n + 1
  {
    hide Juzgar, JuzgarLinea, LeeCabecera, Partir, ConSaltos, Unir, SinCR, JuzgarHasta, QuitaCR, Lineas, Juez;
    var ls := Lineas(datos);
    var qs := SinCR(ls);
    var v := Juzgar(datos).value;
    AceptadaPorPartes(datos);
    ServidasSonLineas(datos);
    SinCRSinSalto(ls);
    ConSaltosUnir(qs);
    LineasDeUnidas(qs);
    JuicioSinCR(ls, v.ancho, v.alto);
    QuitaCRCabecera(ls[0]);
    JuzgarDePartes(ConSaltos(qs), qs, v.(bytes := |ConSaltos(qs)|));
  }

  lemma QuitaCRJuzga(l: string, W: nat, H: nat)
    ensures JuzgarLinea(QuitaCR(l), W, H) == JuzgarLinea(l, W, H)
  {
  }

  lemma QuitaCRCabecera(l: string)
    ensures LeeCabecera(QuitaCR(l)) == LeeCabecera(l)
  {
  }

  // -- servir_pagina ----------------------------------------------------------------------------------------

  method ServirPagina(datos: string) returns (enviado: string, aceptada: bool)
    ensures aceptada == Aceptada(datos)
    ensures enviado == if aceptada then ConSaltos(NoVacias(Partir(datos, '\n'))) else ""
  {
    hide Juzgar, Partir, ConSaltos;
    ConSaltosNada();
    var v := JuzgarBytes(datos);
    if v.Err? {
      return "", false;
    }
    var partes := Partir(datos, '\n');
    enviado := "";
    for k := 0 to |partes|
      invariant enviado == ConSaltos(NoVacias(partes[..k]))
    {
      assert partes[..k + 1][..k] == partes[..k];
      assert NoVacias(partes[..k]) + [] == NoVacias(partes[..k]);
      if partes[k] != "" {
        ConSaltosMas(NoVacias(partes[..k]), partes[k]);
        enviado := enviado + partes[k] + "\n";
      }
    }
    assert partes[..|partes|] == partes;
    return enviado, true;
  }

  lemma {:induction false} NoVaciasIgual(ls: seq<string>)
    requires "" !in ls
    ensures NoVacias(ls) == ls
  {
    if ls != [] {
      NoVaciasIgual(ls[..|ls| - 1]);
      assert ls[|ls| - 1] in ls;
      assert ls[..|ls| - 1] + [ls[|ls| - 1]] == ls;
    }
  }

  lemma LineasNoVacias(datos: string)
    requires Aceptada(datos)
    ensures Lineas(datos) != [] && NoVacias(Partir(datos, '\n')) == Lineas(datos)
  {
    hide Partir, Juzgar;
    var ls := Lineas(datos);
    var ps := Partir(datos, '\n');
    assert ls != [] by { AceptadaConLineas(datos); }
    if "" in ls {
      var k :| 0 <= k < |ls| && ls[k] == "";
      LineaNoVacia(datos, k);
    }
    NoVaciasIgual(ls);
    assert NoVacias(ls) + [] == NoVacias(ls);
  }

  lemma AceptadaConLineas(datos: string)
    requires Aceptada(datos)
    ensures Lineas(datos) != []
  {
  }

  lemma FinConSalto(datos: string)
    requires Partir(datos, '\n') != Lineas(datos) && Lineas(datos) != []
    ensures datos == Unir(Lineas(datos), '\n') + "\n"
  {
    hide Partir;
    var ls := Lineas(datos);
    UnirPartir(datos, '\n');
    assert Partir(datos, '\n') == ls + [""];
    UnirConcat(ls, [""], '\n');
  }

  lemma FinSinSalto(datos: string)
    requires Partir(datos, '\n') == Lineas(datos) && Lineas(datos) != [] && "" !in Lineas(datos)
    ensures datos == Unir(Lineas(datos), '\n') && datos != "" && datos[|datos| - 1] != '\n'
  {
    hide Partir, Unir;
    var ls := Lineas(datos);
    UnirPartir(datos, '\n');
    assert ls[|ls| - 1] in ls;
    UltimoDeUnir(ls, '\n');
  }

  /** Of accepted bytes `servir_pagina` sends the lines, each with its newline: exactly the same bytes
      if and only if they ended in a newline. */
  lemma PaginaSaleIgual(datos: string)
    requires Aceptada(datos)
    ensures var flujo := ConSaltos(NoVacias(Partir(datos, '\n')));
            && flujo == ConSaltos(Lineas(datos))
            && (flujo == datos <==> datos != "" && datos[|datos| - 1] == '\n')
  {
    hide Partir, Juzgar, NoVacias, Lineas, ConSaltos, Unir;
    var ls := Lineas(datos);
    LineasNoVacias(datos);
    if "" in ls {
      var k :| 0 <= k < |ls| && ls[k] == "";
      LineaNoVacia(datos, k);
    }
    ConSaltosUnir(ls);
    if Partir(datos, '\n') == ls {
      FinSinSalto(datos);
      assert |datos| + 1 == |ConSaltos(ls)|;
    } else {
      FinConSalto(datos);
    }
  }
}
