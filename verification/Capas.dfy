/** The judge of layers and of families of `capas.py`: what its checks of single edges say of whole paths
    and cycles. */
module Capas {
  import opened Textos

  // -- Layers ----------------------------------------------------------------------------------------------

  datatype Capa = Nucleo | Arranque | Driver | Contrato | Puro | Ring3 | Herramienta

  /** `PERMITIDO`. */
  function Permitido(c: Capa): set<Capa> {
    match c
    case Nucleo => {Nucleo, Arranque, Driver, Contrato, Puro}
    case Arranque => {Arranque}
    case Driver => {Driver, Contrato, Puro}
    case Contrato => {Contrato, Puro}
    case Puro => {Puro}
    case Ring3 => {Ring3, Contrato, Puro}
    case Herramienta => {Herramienta, Contrato, Puro, Driver}
  }

  datatype Crate = Crate(
    nombre: string, capa: Option<Capa>, declarada: Option<string>, motivo: string,
    unsafes: nat, prohibe: bool, deps: seq<string>)

  /** `capa_efectiva`: `puro` is the only layer that can be declared. */
  function Efectiva(c: Crate): Option<Capa> { if c.declarada == Some("puro") then Some(Puro) else c.capa }

  datatype Queja =
    | SinCapa(crate: string)
    | NoDeclarable(crate: string)
    | SinMotivo(crate: string)
    | PuroConUnsafe(crate: string)
    | Dependencia(de: string, a: string)

  /** A declaration that holds: of `puro`, with a reason, and without `unsafe` or forbidding it. */
  predicate Declara(c: Crate) {
    c.declarada.Some? ==> c.declarada.value == "puro" && c.motivo != "" && (c.unsafes == 0 || c.prohibe)
  }

  predicate Permite(o: Crate, d: Crate) {
    Efectiva(o).Some? && Efectiva(d).Some? ==> Efectiva(d).value in Permitido(Efectiva(o).value)
  }

  /** What each complaint means. */
  predicate Procede(q: Queja, crates: map<string, Crate>) {
    match q
    case SinCapa(n) => exists k <- crates :: crates[k].nombre == n && crates[k].capa.None?
    case NoDeclarable(n) =>
      exists k <- crates :: var c := crates[k]; c.nombre == n && c.declarada.Some? && c.declarada.value != "puro"
    case SinMotivo(n) =>
      exists k <- crates :: var c := crates[k]; c.nombre == n && c.declarada == Some("puro") && c.motivo == ""
    case PuroConUnsafe(n) =>
      exists k <- crates ::
        var c := crates[k];
        c.nombre == n && c.declarada == Some("puro") && c.motivo != "" && c.unsafes > 0 && !c.prohibe
    case Dependencia(a, b) =>
      exists k <- crates, d <- crates ::
        crates[k].nombre == a && crates[d].nombre == b && d in crates[k].deps && !Permite(crates[k], crates[d])
  }

  /** Nothing to complain about. */
  predicate Limpio(crates: map<string, Crate>) {
    && (forall k <- crates :: crates[k].capa.Some? && Declara(crates[k]))
    && (forall k <- crates :: forall d <- crates[k].deps :: d in crates ==> Permite(crates[k], crates[d]))
  }

  /** The complaint about one crate, if any, besides that of its folder. */
  method QuejaDe(c: Crate) returns (q: Option<Queja>)
    ensures q.None? <==> Declara(c)
    ensures q.Some? ==>
              match q.value
              case NoDeclarable(n) => n == c.nombre && c.declarada.Some? && c.declarada.value != "puro"
              case SinMotivo(n) => n == c.nombre && c.declarada == Some("puro") && c.motivo == ""
              case PuroConUnsafe(n) =>
                n == c.nombre && c.declarada == Some("puro") && c.motivo != "" && c.unsafes > 0 && !c.prohibe
              case _ => false
  {
    if c.declarada.None? {
      return None;
    }
    if c.declarada.value != "puro" {
      return Some(NoDeclarable(c.nombre));
    } else if c.motivo == "" {
      return Some(SinMotivo(c.nombre));
    } else if c.unsafes > 0 && !c.prohibe {
      return Some(PuroConUnsafe(c.nombre));
    }
    return None;
  }

  predicate Proceden(qs: seq<Queja>, crates: map<string, Crate>) { forall q <- qs :: Procede(q, crates) }

  /** `juzgar_crates`, over the keys in any order that has them all. Every complaint is due, and there is
      none exactly when there is nothing to complain about. */
  method JuzgarCrates(crates: map<string, Crate>, orden: seq<string>) returns (malas: seq<Queja>)
    requires forall k :: k in orden <==> k in crates
    ensures Proceden(malas, crates)
    ensures malas == [] <==> Limpio(crates)
  {
    malas := [];
    for i := 0 to |orden|
      invariant Proceden(malas, crates)
      invariant malas == [] <==> forall k <- orden[..i] :: crates[k].capa.Some? && Declara(crates[k])
    {
      var k := orden[i];
      assert k in crates;
      var c := crates[k];
      if c.capa.None? {
        malas := malas + [SinCapa(c.nombre)];
      }
      var q := QuejaDe(c);
      if q.Some? {
        malas := malas + [q.value];
      }
      assert orden[..i + 1] == orden[..i] + [k];
    }
    assert orden[..|orden|] == orden;
    ghost var propias := malas;
    for i := 0 to |orden|
      invariant Proceden(malas, crates)
      invariant malas == [] <==>
                propias == []
                && forall k <- orden[..i] :: forall d <- crates[k].deps :: d in crates ==> Permite(crates[k], crates[d])
    {
      var k := orden[i];
      assert k in crates;
      var mas := JuzgarAristas(crates, k);
      malas := malas + mas;
      assert orden[..i + 1] == orden[..i] + [k];
    }
  }

  /** The edges that go out of one crate to crates that are known. */
  method JuzgarAristas(crates: map<string, Crate>, k: string) returns (malas: seq<Queja>)
    requires k in crates
    ensures Proceden(malas, crates)
    ensures malas == [] <==> forall d <- crates[k].deps :: d in crates ==> Permite(crates[k], crates[d])
  {
    malas := [];
    var o := crates[k];
    for j := 0 to |o.deps|
      invariant Proceden(malas, crates)
      invariant malas == [] <==> forall d <- o.deps[..j] :: d in crates ==> Permite(o, crates[d])
    {
      var d := o.deps[j];
      assert o.deps[..j + 1] == o.deps[..j] + [d];
      assert d in o.deps;
      if d in crates {
        var co, cd := Efectiva(o), Efectiva(crates[d]);
        if co.Some? && cd.Some? && cd.value !in Permitido(co.value) {
          assert Procede(Dependencia(o.nombre, crates[d].nombre), crates);
          malas := malas + [Dependencia(o.nombre, crates[d].nombre)];
        }
      }
    }
    assert o.deps[..|o.deps|] == o.deps;
  }

  /** A chain of dependencies of any length. */
  predicate Camino(crates: map<string, Crate>, p: seq<string>) {
    && p != []
    && (forall i | 0 <= i < |p| :: p[i] in crates)
    && (forall i | 0 <= i < |p| - 1 :: p[i + 1] in crates[p[i]].deps)
  }

  function CapaDe(crates: map<string, Crate>, k: string): Capa
    requires k in crates && Efectiva(crates[k]).Some?
  {
    Efectiva(crates[k]).value
  }

  /** The table is closed: what a layer may use, and what that may use in turn, it may use. */
  lemma PermitidoCerrado(a: Capa, b: Capa, c: Capa)
    ensures a in Permitido(a)
    ensures b in Permitido(a) && c in Permitido(b) ==> c in Permitido(a)
  {
  }

  /** With no complaint, what a crate reaches by a chain of any length is of a layer it may use. */
  lemma {:induction false} AlcanzaPermitido(crates: map<string, Crate>, p: seq<string>)
    requires Limpio(crates) && Camino(crates, p)
    ensures Efectiva(crates[p[0]]).Some? && Efectiva(crates[p[|p| - 1]]).Some?
    ensures CapaDe(crates, p[|p| - 1]) in Permitido(CapaDe(crates, p[0]))
    decreases |p|
  {
    assert p[0] in crates && crates[p[0]].capa.Some?;
    if |p| == 1 {
      PermitidoCerrado(CapaDe(crates, p[0]), Puro, Puro);
    } else {
      assert p[0 + 1] in crates[p[0]].deps;
      assert Permite(crates[p[0]], crates[p[1]]);
      forall i | 0 <= i < |p[1..]| - 1
        ensures p[1..][i + 1] in crates[p[1..][i]].deps
      {
        assert p[i + 1 + 1] in crates[p[i + 1]].deps;
      }
      AlcanzaPermitido(crates, p[1..]);
      PermitidoCerrado(CapaDe(crates, p[0]), CapaDe(crates, p[1]), CapaDe(crates, p[|p| - 1]));
    }
  }

  /** What that says of the two rings: Ring 3 reaches only Ring 3, contracts and pure code; pure code only
      pure code; and only the kernel reaches the kernel. */
  lemma Anillos(crates: map<string, Crate>, p: seq<string>)
    requires Limpio(crates) && Camino(crates, p)
    requires Efectiva(crates[p[0]]).Some? && Efectiva(crates[p[|p| - 1]]).Some?
    ensures var a, z := CapaDe(crates, p[0]), CapaDe(crates, p[|p| - 1]);
            && (a == Ring3 ==> z in {Ring3, Contrato, Puro})
            && (a == Puro ==> z == Puro)
            && (z == Nucleo ==> a == Nucleo)
  {
    AlcanzaPermitido(crates, p);
  }

  /** Nor does the judge complain of more than that: when every crate has its layer and holds its
      declaration, it is silent exactly when all that is reached by any chain is permitted. */
  lemma LimpioSii(crates: map<string, Crate>)
    requires forall k <- crates :: crates[k].capa.Some? && Declara(crates[k])
    ensures Limpio(crates) <==>
            forall p | Camino(crates, p) :: CapaDe(crates, p[|p| - 1]) in Permitido(CapaDe(crates, p[0]))
  {
    forall p | Limpio(crates) && Camino(crates, p)
      ensures CapaDe(crates, p[|p| - 1]) in Permitido(CapaDe(crates, p[0]))
    {
      AlcanzaPermitido(crates, p);
    }
    if forall p | Camino(crates, p) :: CapaDe(crates, p[|p| - 1]) in Permitido(CapaDe(crates, p[0])) {
      forall k, d | k in crates && d in crates[k].deps && d in crates
        ensures Permite(crates[k], crates[d])
      {
        var p := [k, d];
        assert Camino(crates, p);
        assert p[|p| - 1] == d && p[0] == k;
      }
    }
  }

  // -- Families --------------------------------------------------------------------------------------------------

  /** `corto`: the last part of a path. */
  function Corto(sub: string): string {
    var ps := Partir(sub, '/');
    ps[|ps| - 1]
  }

  type Arista = (string, string)

  datatype Familia = Familia(nombre: string, nivel: nat, conecta: set<string>, tieneConecta: bool)

  datatype Fallo =
    | Falta(n: string)
    | OtroNombre(n: string)
    | SinConecta(n: string)
    | UsoCallado(a: string, b: string)
    | ConectaFalso(n: string, s: string)

  datatype Mapa = Mapa(aristas: seq<Arista>, familias: map<string, Familia>, raices: set<string>)

  /** An edge between two families, none of them a root. */
  predicate Juzgada(m: Mapa, e: Arista) {
    e in m.aristas && e.0 !in m.raices && e.1 !in m.raices && e.0 in m.familias && e.1 in m.familias
  }

  /** The families that `n` really uses, by their short names. */
  function Usadas(m: Mapa, n: string): set<string> {
    set e | e in m.aristas && Juzgada(m, e) && e.0 == n :: Corto(e.1)
  }

  predicate Sube(m: Mapa, e: Arista)
    requires Juzgada(m, e)
  {
    m.familias[e.1].nivel >= m.familias[e.0].nivel
  }

  function Subidas(m: Mapa): set<Arista> {
    set e | e in m.aristas && Juzgada(m, e) && Sube(m, e) :: (Corto(e.0), Corto(e.1))
  }

  /** What each error means. */
  predicate Falla(f: Fallo, m: Mapa) {
    match f
    case Falta(n) => false
    case OtroNombre(n) => n in m.familias && m.familias[n].nombre != Corto(n)
    case SinConecta(n) => n in m.familias && !m.familias[n].tieneConecta
    case UsoCallado(a, b) =>
      && a in m.familias && b !in m.familias[a].conecta
      && exists e <- m.aristas :: Juzgada(m, e) && e.0 == a && Corto(e.1) == b
    case ConectaFalso(n, s) => n in m.familias && s in m.familias[n].conecta && s !in Usadas(m, n)
  }

  /** The errors are those and no others. */
  ghost predicate Exactos(fs: seq<Fallo>, m: Mapa) { forall f :: f in fs <==> Falla(f, m) }

  function UsadasHasta(m: Mapa, i: nat, n: string): set<string>
    requires i <= |m.aristas|
  {
    set e | e in m.aristas[..i] && Juzgada(m, e) && e.0 == n :: Corto(e.1)
  }

  function SubidasHasta(m: Mapa, i: nat): set<Arista>
    requires i <= |m.aristas|
  {
    set e | e in m.aristas[..i] && Juzgada(m, e) && Sube(m, e) :: (Corto(e.0), Corto(e.1))
  }

  ghost predicate SonDeDeclaracion(fs: seq<Fallo>, m: Mapa, orden: seq<string>) {
    forall f :: f in fs <==> (f.OtroNombre? || f.SinConecta?) && f.n in orden && Falla(f, m)
  }

  method FallosDeDeclaracion(m: Mapa, orden: seq<string>) returns (fs: seq<Fallo>)
    requires forall n <- orden :: n in m.familias
    ensures SonDeDeclaracion(fs, m, orden)
  {
    fs := [];
    for i := 0 to |orden|
      invariant SonDeDeclaracion(fs, m, orden[..i])
    {
      var n := orden[i];
      assert orden[..i + 1] == orden[..i] + [n];
      var f := m.familias[n];
      if f.nombre != Corto(n) {
        fs := fs + [OtroNombre(n)];
      }
      if !f.tieneConecta {
        fs := fs + [SinConecta(n)];
      }
    }
    assert orden[..|orden|] == orden;
  }

  ghost predicate SonDeUso(fs: seq<Fallo>, m: Mapa, i: nat)
    requires i <= |m.aristas|
  {
    forall f :: f in fs <==> f.UsoCallado? && f.a in m.familias && f.b !in m.familias[f.a].conecta
                             && f.b in UsadasHasta(m, i, f.a)
  }

  /** The loop over the edges: silent uses, rising edges, and who uses whom. */
  method Recorre(m: Mapa) returns (fs: seq<Fallo>, subidas: set<Arista>, usados: map<string, set<string>>)
    ensures SonDeUso(fs, m, |m.aristas|)
    ensures subidas == Subidas(m)
    ensures forall n :: (if n in usados then usados[n] else {}) == Usadas(m, n)
  {
    hide Corto, UsadasHasta, SubidasHasta;
    fs, subidas, usados := [], {}, map[];
    NingunaArista(m);
    for i := 0 to |m.aristas|
      invariant SonDeUso(fs, m, i)
      invariant subidas == SubidasHasta(m, i)
      invariant forall n :: (if n in usados then usados[n] else {}) == UsadasHasta(m, i, n)
    {
      var e := m.aristas[i];
      UnaAristaMas(m, i);
      if e.0 in m.raices || e.1 in m.raices || e.0 !in m.familias || e.1 !in m.familias {
        continue;
      }
      var c := Corto(e.1);
      usados := usados[e.0 := (if e.0 in usados then usados[e.0] else {}) + {c}];
      if c !in m.familias[e.0].conecta {
        fs := fs + [UsoCallado(e.0, c)];
      }
      if m.familias[e.1].nivel >= m.familias[e.0].nivel {
        subidas := subidas + {(Corto(e.0), c)};
      }
    }
    TodasLasAristas(m);
  }

  lemma NingunaArista(m: Mapa)
    ensures SubidasHasta(m, 0) == {} && forall n :: UsadasHasta(m, 0, n) == {}
  {
  }

  lemma TodasLasAristas(m: Mapa)
    ensures SubidasHasta(m, |m.aristas|) == Subidas(m)
    ensures forall n :: UsadasHasta(m, |m.aristas|, n) == Usadas(m, n)
  {
    assert m.aristas[..|m.aristas|] == m.aristas;
  }

  lemma UnaAristaMas(m: Mapa, i: nat)
    requires i < |m.aristas|
    ensures var e := m.aristas[i];
            && (forall n :: UsadasHasta(m, i + 1, n)
                            == UsadasHasta(m, i, n) + if Juzgada(m, e) && e.0 == n then {Corto(e.1)} else {})
            && SubidasHasta(m, i + 1)
               == SubidasHasta(m, i) + if Juzgada(m, e) && Sube(m, e) then {(Corto(e.0), Corto(e.1))} else {}
  {
    hide Corto;
    var e := m.aristas[i];
    assert m.aristas[..i + 1] == m.aristas[..i] + [e];
  }

  ghost predicate SonFalsos(fs: seq<Fallo>, m: Mapa, orden: seq<string>) {
    forall f :: f in fs <==> f.ConectaFalso? && f.n in orden && Falla(f, m)
  }

  /** The last loop: what `[conecta]` says and is not so. */
  method FallosDeConecta(m: Mapa, orden: seq<string>, usados: map<string, set<string>>) returns (fs: seq<Fallo>)
    requires forall n <- orden :: n in m.familias
    requires forall n :: (if n in usados then usados[n] else {}) == Usadas(m, n)
    ensures SonFalsos(fs, m, orden)
  {
    hide Usadas;
    fs := [];
    for i := 0 to |orden|
      invariant SonFalsos(fs, m, orden[..i])
    {
      var n := orden[i];
      assert orden[..i + 1] == orden[..i] + [n];
      var sobran := m.familias[n].conecta - (if n in usados then usados[n] else {});
      assert forall s :: s in sobran <==> Falla(ConectaFalso(n, s), m);
      var mas := Falsos(n, sobran);
      fs := fs + mas;
    }
    assert orden[..|orden|] == orden;
  }

  method Falsos(n: string, sobran: set<string>) returns (fs: seq<Fallo>)
    ensures forall f :: f in fs <==> f.ConectaFalso? && f.n == n && f.s in sobran
  {
    fs := [];
    var quedan := sobran;
    while quedan != {}
      invariant quedan <= sobran
      invariant forall f :: f in fs <==> f.ConectaFalso? && f.n == n && f.s in sobran - quedan
      decreases |quedan|
    {
      var s :| s in quedan;
      quedan := quedan - {s};
      fs := fs + [ConectaFalso(n, s)];
    }
  }

  /** `juzgar_familias`. A missing declaration stops everything else. If none is missing, the errors are
      exactly those of the map, and so are the rising edges. */
  method JuzgarFamilias(m: Mapa, faltan: seq<string>, orden: seq<string>)
    returns (errores: seq<Fallo>, subidas: set<Arista>)
    requires forall n :: n in orden <==> n in m.familias
    ensures faltan != [] ==> |errores| == |faltan| && subidas == {}
                             && forall i | 0 <= i < |faltan| :: errores[i] == Falta(faltan[i])
    ensures faltan == [] ==> Exactos(errores, m) && subidas == Subidas(m)
  {
    hide Subidas, Usadas;
    if faltan != [] {
      errores := seq(|faltan|, i requires 0 <= i < |faltan| => Falta(faltan[i]));
      return errores, {};
    }
    var declaran := FallosDeDeclaracion(m, orden);
    var usan, usados;
    usan, subidas, usados := Recorre(m);
    var mienten := FallosDeConecta(m, orden, usados);
    errores := declaran + usan + mienten;
    UsosExactos(usan, m);
  }

  lemma UsosExactos(fs: seq<Fallo>, m: Mapa)
    requires SonDeUso(fs, m, |m.aristas|)
    ensures forall f :: f in fs <==> f.UsoCallado? && Falla(f, m)
  {
    assert m.aristas[..|m.aristas|] == m.aristas;
  }

  /** With no error, every header tells the truth: its name is its folder's and what it connects to is
      what it uses, no more and no less. */
  lemma CabecerasCiertas(m: Mapa, errores: seq<Fallo>, n: string)
    requires Exactos(errores, m) && errores == [] && n in m.familias
    ensures m.familias[n].nombre == Corto(n) && m.familias[n].tieneConecta
    ensures m.familias[n].conecta == Usadas(m, n)
  {
    assert OtroNombre(n) !in errores && SinConecta(n) !in errores;
    forall s
      ensures s in m.familias[n].conecta <==> s in Usadas(m, n)
    {
      assert ConectaFalso(n, s) !in errores && UsoCallado(n, s) !in errores;
    }
  }

  /** Step `i` of a round: from each family to the next one, and from the last one to the first. */
  function Paso(p: seq<string>, i: nat): Arista
    requires i < |p|
  {
    (p[i], if i + 1 < |p| then p[i + 1] else p[0])
  }

  /** A round of families, each using the next one and the last one the first. */
  predicate Ciclo(m: Mapa, p: seq<string>) {
    p != [] && forall i | 0 <= i < |p| :: Juzgada(m, Paso(p, i))
  }

  predicate SubeEn(m: Mapa, p: seq<string>, i: nat)
    requires i < |p|
  {
    Juzgada(m, Paso(p, i)) && Sube(m, Paso(p, i))
  }

  lemma {:induction false} BajaOSube(m: Mapa, p: seq<string>, k: nat)
    requires Ciclo(m, p) && k < |p|
    ensures Juzgada(m, Paso(p, k)) && Juzgada(m, Paso(p, 0))
    ensures (exists i | 0 <= i < k :: SubeEn(m, p, i)) || m.familias[p[k]].nivel + k <= m.familias[p[0]].nivel
  {
    if k > 0 {
      BajaOSube(m, p, k - 1);
      assert Juzgada(m, Paso(p, k)) && Juzgada(m, Paso(p, k - 1)) && Paso(p, k - 1) == (p[k - 1], p[k]);
      if SubeEn(m, p, k - 1) {
      } else {
        assert m.familias[p[k]].nivel < m.familias[p[k - 1]].nivel;
      }
    }
  }

  /** Step `i` is among the edges that `s` holds, by their short names. */
  predicate PasoEn(p: seq<string>, i: nat, s: set<Arista>)
    requires i < |p|
  {
    (Corto(Paso(p, i).0), Corto(Paso(p, i).1)) in s
  }

  /** Every round holds an edge that rises, and it is one of those reported. */
  lemma CicloSube(m: Mapa, p: seq<string>)
    requires Ciclo(m, p)
    ensures exists i | 0 <= i < |p| :: PasoEn(p, i, Subidas(m))
  {
    hide Corto, Subidas;
    var k := |p| - 1;
    BajaOSube(m, p, k);
    assert Paso(p, k) == (p[k], p[0]);
    assert (exists i | 0 <= i < k :: SubeEn(m, p, i)) || SubeEn(m, p, k);
    var i :| 0 <= i < |p| && SubeEn(m, p, i);
    EsSubida(m, p, i);
    assert PasoEn(p, i, Subidas(m));
  }

  lemma EsSubida(m: Mapa, p: seq<string>, i: nat)
    requires i < |p| && SubeEn(m, p, i)
    ensures PasoEn(p, i, Subidas(m))
  {
    hide Corto;
    var e := Paso(p, i);
    assert e in m.aristas && Juzgada(m, e) && Sube(m, e);
    assert (Corto(e.0), Corto(e.1)) in Subidas(m);
  }

  /** `comparar`, for one binary: what is new and what is gone. */
  function Comparar(hoy: set<Arista>, base: set<Arista>): (r: (set<Arista>, set<Arista>))
    ensures hoy == base - r.1 + r.0 && r.0 !! base && r.1 <= base
  {
    (hoy - base, base - hoy)
  }

  /** So if the comparison finds nothing new, every round goes through an edge that was already in the
      base; with an empty base there is no round. */
  lemma SinCiclosNuevos(m: Mapa, base: set<Arista>, p: seq<string>)
    requires Ciclo(m, p) && Comparar(Subidas(m), base).0 == {}
    ensures exists i | 0 <= i < |p| :: PasoEn(p, i, base)
  {
    hide Subidas, Corto;
    CicloSube(m, p);
    var i :| 0 <= i < |p| && PasoEn(p, i, Subidas(m));
    assert PasoEn(p, i, base);
  }
}
