/** The size ratchet of `censo_modular.py`: what a seal may do to the baseline and what a check that passes
    says of the tree. */
module Censo {
  import opened Textos

  const LIMITE := 1000
  const AVISO := 900

  datatype Anillo = Ring0 | Ring3 | Util

  datatype Ficha = Ficha(ruta: string, lineas: nat, codigo: nat, generado: bool)

  datatype Base = Base(techos: map<string, nat>, exentos: map<string, string>, subidas: seq<string>)

  /** A file that the limit is for, and that is over it. */
  predicate Pasa(f: Ficha, exentos: map<string, string>) {
    f.codigo > LIMITE && f.ruta !in exentos && !f.generado
  }

  /** One file, one path. */
  predicate Distintas(fs: seq<Ficha>) { forall i, j | 0 <= i < j < |fs| :: fs[i].ruta != fs[j].ruta }

  // -- The verdict ---------------------------------------------------------------------------------------

  datatype Juicio = Juicio(nuevos: seq<Ficha>, crecidos: seq<Ficha>, encogidos: seq<Ficha>, salidos: set<string>)

  predicate EsNuevo(f: Ficha, b: Base) { Pasa(f, b.exentos) && f.ruta !in b.techos }

  predicate EsCrecido(f: Ficha, b: Base) {
    f.ruta !in b.exentos && !f.generado && f.ruta in b.techos && f.codigo > b.techos[f.ruta]
  }

  predicate EsEncogido(f: Ficha, b: Base) {
    f.ruta !in b.exentos && !f.generado && f.ruta in b.techos && f.codigo < b.techos[f.ruta]
  }

  predicate Salio(ruta: string, fs: seq<Ficha>, b: Base) {
    ruta in b.techos && forall f <- fs :: f.ruta == ruta ==> f.ruta in b.exentos || f.generado
  }

  /** The four lists hold what their names say and nothing else. */
  ghost predicate Acierta(j: Juicio, fs: seq<Ficha>, b: Base) {
    && (forall f :: f in j.nuevos <==> f in fs && EsNuevo(f, b))
    && (forall f :: f in j.crecidos <==> f in fs && EsCrecido(f, b))
    && (forall f :: f in j.encogidos <==> f in fs && EsEncogido(f, b))
    && (forall r :: r in j.salidos <==> Salio(r, fs, b))
  }

  /** `juicio`. */
  method Juzga(fs: seq<Ficha>, b: Base) returns (j: Juicio)
    ensures Acierta(j, fs, b)
  {
    var nuevos, crecidos, encogidos := [], [], [];
    var vistos := {};
    for i := 0 to |fs|
      invariant forall f :: f in nuevos <==> f in fs[..i] && EsNuevo(f, b)
      invariant forall f :: f in crecidos <==> f in fs[..i] && EsCrecido(f, b)
      invariant forall f :: f in encogidos <==> f in fs[..i] && EsEncogido(f, b)
      invariant forall r :: r in vistos <==> exists f <- fs[..i] :: f.ruta == r && r !in b.exentos && !f.generado
    {
      var f := fs[i];
      assert fs[..i + 1] == fs[..i] + [f];
      if f.ruta in b.exentos || f.generado {
        continue;
      }
      vistos := vistos + {f.ruta};
      if f.ruta !in b.techos {
        if f.codigo > LIMITE {
          nuevos := nuevos + [f];
        }
      } else if f.codigo > b.techos[f.ruta] {
        crecidos := crecidos + [f];
      } else if f.codigo < b.techos[f.ruta] {
        encogidos := encogidos + [f];
      }
    }
    assert fs[..|fs|] == fs;
    j := Juicio(nuevos, crecidos, encogidos, set r | r in b.techos && r !in vistos);
    assert forall r :: r in j.salidos <==> Salio(r, fs, b);
  }

  /** The exit code of `--check` for the size: with no ceilings at all there is nothing to compare with. */
  predicate Aprueba(j: Juicio, b: Base) {
    b.techos == map[] || (j.nuevos == [] && j.crecidos == [])
  }

  // -- The seal --------------------------------------------------------------------------------------------

  /** Why a seal is refused; `BaseIlegible` is the error of a baseline that cannot be read. */
  datatype Negativa = NuevoEnRing0 | SubidaMuda | VariasSubidas | BaseIlegible

  datatype Subida = Subida(ruta: string, viejo: nat, nuevo: nat)

  function NuevosR0(fs: seq<Ficha>, b: Base, anillo: string -> Anillo): seq<Ficha> {
    if fs == [] then []
    else
      var f := fs[|fs| - 1];
      NuevosR0(fs[..|fs| - 1], b, anillo)
      + if anillo(f.ruta) == Ring0 && Pasa(f, b.exentos) && f.ruta !in b.techos then [f] else []
  }

  function Suben(fs: seq<Ficha>, b: Base): seq<Subida> {
    if fs == [] then []
    else
      var f := fs[|fs| - 1];
      Suben(fs[..|fs| - 1], b)
      + if Pasa(f, b.exentos) && f.ruta in b.techos && f.codigo > b.techos[f.ruta]
        then [Subida(f.ruta, b.techos[f.ruta], f.codigo)] else []
  }

  /** The ceilings that a seal writes, in the order of the census. */
  function Techos(fs: seq<Ficha>, b: Base): seq<(string, nat)> {
    if fs == [] then []
    else
      var f := fs[|fs| - 1];
      Techos(fs[..|fs| - 1], b) + if Pasa(f, b.exentos) then [(f.ruta, f.codigo)] else []
  }

  function MapaDe<V>(ps: seq<(string, V)>): map<string, V> {
    if ps == [] then map[] else MapaDe(ps[..|ps| - 1])[ps[|ps| - 1].0 := ps[|ps| - 1].1]
  }

  function Pad(s: string, n: nat): string {
    if n <= |s| then s else s + seq(n - |s|, _ => ' ')
  }

  function PadIzq(s: string, n: nat): string {
    if n <= |s| then s else seq(n - |s|, _ => ' ') + s
  }

  /** The reasoned line of a raised ceiling. */
  function LineaDe(s: Subida, motivo: string): string {
    Pad(s.ruta, 58) + " " + Decimal(s.viejo) + " -> " + Decimal(s.nuevo) + "  " + motivo
  }

  function LineasDe(ss: seq<Subida>, motivo: string): seq<string> {
    if ss == [] then [] else LineasDe(ss[..|ss| - 1], motivo) + [LineaDe(ss[|ss| - 1], motivo)]
  }

  /** What a seal makes of the baseline, or why it will not. */
  function Sellada(fs: seq<Ficha>, b: Base, motivo: string, anillo: string -> Anillo): Result<Base, Negativa> {
    if NuevosR0(fs, b, anillo) != [] then Err(NuevoEnRing0)
    else if Suben(fs, b) != [] && motivo == "" then Err(SubidaMuda)
    else if |Suben(fs, b)| > 1 && motivo != "" then Err(VariasSubidas)
    else Ok(Base(MapaDe(Techos(fs, b)), b.exentos, b.subidas + LineasDe(Suben(fs, b), motivo)))
  }

  // -- What every seal keeps ---------------------------------------------------------------------------------

  lemma {:induction false} TechosTienen(fs: seq<Ficha>, b: Base, r: string)
    ensures r in MapaDe(Techos(fs, b)) ==>
              exists f <- fs :: f.ruta == r && Pasa(f, b.exentos) && MapaDe(Techos(fs, b))[r] == f.codigo
    ensures (exists f <- fs :: f.ruta == r && Pasa(f, b.exentos)) ==> r in MapaDe(Techos(fs, b))
  {
    if fs != [] {
      var g, n := fs[|fs| - 1], |fs| - 1;
      assert fs == fs[..n] + [g];
      TechosTienen(fs[..n], b, r);
      var ts := Techos(fs, b);
      if Pasa(g, b.exentos) {
        assert ts[..|ts| - 1] == Techos(fs[..n], b);
        assert g in fs;
      } else {
        assert ts == Techos(fs[..n], b);
      }
    }
  }

  lemma {:induction false} NuevosR0Tienen(fs: seq<Ficha>, b: Base, anillo: string -> Anillo, f: Ficha)
    ensures f in NuevosR0(fs, b, anillo) <==>
            f in fs && anillo(f.ruta) == Ring0 && Pasa(f, b.exentos) && f.ruta !in b.techos
  {
    if fs != [] {
      NuevosR0Tienen(fs[..|fs| - 1], b, anillo, f);
      assert fs == fs[..|fs| - 1] + [fs[|fs| - 1]];
    }
  }

  lemma {:induction false} SubenTienen(fs: seq<Ficha>, b: Base, s: Subida)
    ensures s in Suben(fs, b) <==>
            exists f <- fs :: Pasa(f, b.exentos) && f.ruta in b.techos && f.codigo > b.techos[f.ruta]
                              && s == Subida(f.ruta, b.techos[f.ruta], f.codigo)
  {
    if fs != [] {
      SubenTienen(fs[..|fs| - 1], b, s);
      assert fs == fs[..|fs| - 1] + [fs[|fs| - 1]];
    }
  }

  /** Of two fichas with one path there is only one. */
  lemma UnaFicha(fs: seq<Ficha>, f: Ficha, g: Ficha)
    requires Distintas(fs) && f in fs && g in fs && f.ruta == g.ruta
    ensures f == g
  {
    var i, j :| 0 <= i < |fs| && 0 <= j < |fs| && fs[i] == f && fs[j] == g;
  }

  /** Right after a seal the tree that was sealed is at rest: nothing new, nothing grown, nothing shrunk
      and nothing gone. */
  lemma TrasSellar(fs: seq<Ficha>, b: Base, motivo: string, anillo: string -> Anillo, j: Juicio)
    requires Distintas(fs) && Sellada(fs, b, motivo, anillo).Ok?
    requires Acierta(j, fs, Sellada(fs, b, motivo, anillo).value)
    ensures j == Juicio([], [], [], {})
  {
    hide Distintas;
    AlgunaHay(j.nuevos);
    AlgunaHay(j.crecidos);
    AlgunaHay(j.encogidos);
    var c := Sellada(fs, b, motivo, anillo).value;
    forall f | f in fs
      ensures !EsNuevo(f, c) && !EsCrecido(f, c) && !EsEncogido(f, c)
    {
      TechosTienen(fs, b, f.ruta);
      if f.ruta in c.techos {
        var g :| g in fs && g.ruta == f.ruta && c.techos[f.ruta] == g.codigo;
        UnaFicha(fs, f, g);
      }
    }
    forall r
      ensures !Salio(r, fs, c)
    {
      TechosTienen(fs, b, r);
    }
    assert forall f :: f !in j.nuevos && f !in j.crecidos && f !in j.encogidos;
  }

  lemma AlgunaHay(fs: seq<Ficha>)
    ensures fs == [] || exists f :: f in fs
  {
    if fs != [] {
      assert fs[0] in fs;
    }
  }

  /** The ceilings that a seal raised. */
  function Levantados(b: Base, c: Base): set<string> {
    set r | r in b.techos && r in c.techos && c.techos[r] > b.techos[r]
  }

  /** A seal raises at most one of the ceilings there were, and then it has a reason and writes it down in
      one new line; otherwise the list of raised ceilings stays as it was. */
  lemma AlMasUna(fs: seq<Ficha>, b: Base, motivo: string, anillo: string -> Anillo)
    requires Distintas(fs) && Sellada(fs, b, motivo, anillo).Ok?
    ensures var c := Sellada(fs, b, motivo, anillo).value;
            || (Levantados(b, c) == {} && c.subidas == b.subidas)
            || (motivo != "" && exists r ::
                  && Levantados(b, c) == {r} && r in b.techos && r in c.techos
                  && c.subidas == b.subidas + [LineaDe(Subida(r, b.techos[r], c.techos[r]), motivo)])
  {
    hide Distintas, LineaDe, Techos, MapaDe, Levantados, Suben, LineasDe;
    var c := Sellada(fs, b, motivo, anillo).value;
    var ss := Suben(fs, b);
    forall r
      ensures r in Levantados(b, c) <==> r in b.techos && r in c.techos && Subida(r, b.techos[r], c.techos[r]) in ss
    {
      LevantadoSube(fs, b, c, r);
    }
    LineasPocas(ss, motivo);
    if ss == [] {
      assert b.subidas + [] == b.subidas;
      assert Levantados(b, c) == {};
    } else {
      assert |ss| == 1 && ss == [ss[0]];
      assert ss[0] in ss;
      SubeLevantado(fs, b, c, ss[0]);
      assert forall r :: r in Levantados(b, c) <==> r == ss[0].ruta;
      assert Levantados(b, c) == {ss[0].ruta};
    }
  }

  lemma LineasPocas(ss: seq<Subida>, motivo: string)
    ensures ss == [] ==> LineasDe(ss, motivo) == []
    ensures |ss| == 1 ==> LineasDe(ss, motivo) == [LineaDe(ss[0], motivo)]
  {
    hide LineaDe;
    if |ss| == 1 {
      assert ss[..0] == [];
    }
  }

  lemma LevantadoSube(fs: seq<Ficha>, b: Base, c: Base, r: string)
    requires Distintas(fs) && c.techos == MapaDe(Techos(fs, b))
    ensures r in Levantados(b, c) <==>
            r in b.techos && r in c.techos && Subida(r, b.techos[r], c.techos[r]) in Suben(fs, b)
  {
    hide Distintas, Techos, Suben;
    TechosTienen(fs, b, r);
    if r in b.techos && r in c.techos {
      SubenTienen(fs, b, Subida(r, b.techos[r], c.techos[r]));
      var g :| g in fs && g.ruta == r && Pasa(g, b.exentos) && c.techos[r] == g.codigo;
    }
  }

  lemma SubeLevantado(fs: seq<Ficha>, b: Base, c: Base, s: Subida)
    requires Distintas(fs) && c.techos == MapaDe(Techos(fs, b)) && s in Suben(fs, b)
    ensures s.ruta in b.techos && s.ruta in c.techos && s == Subida(s.ruta, b.techos[s.ruta], c.techos[s.ruta])
  {
    hide Distintas, Techos, Suben;
    SubenTienen(fs, b, s);
    TechosTienen(fs, b, s.ruta);
    var f :| f in fs && Pasa(f, b.exentos) && f.ruta == s.ruta && f.ruta in b.techos && s.nuevo == f.codigo
             && s.viejo == b.techos[f.ruta];
    var g :| g in fs && g.ruta == s.ruta && c.techos[s.ruta] == g.codigo;
    UnaFicha(fs, f, g);
  }

  /** No seal brings a new Ring 0 path into the baseline, whatever the motive. */
  lemma Ring0NoEntra(fs: seq<Ficha>, b: Base, motivo: string, anillo: string -> Anillo, r: string)
    requires Sellada(fs, b, motivo, anillo).Ok? && anillo(r) == Ring0
    ensures var c := Sellada(fs, b, motivo, anillo).value;
            c.exentos == b.exentos && (r in c.techos ==> r in b.techos)
  {
    var c := Sellada(fs, b, motivo, anillo).value;
    TechosTienen(fs, b, r);
    if r in c.techos {
      var f :| f in fs && f.ruta == r && Pasa(f, b.exentos);
      NuevosR0Tienen(fs, b, anillo, f);
    }
  }

  // -- Histories -------------------------------------------------------------------------------------------------

  /** A tree that came to be, and whether it was sealed and with what `--motivo`. */
  datatype Evento = Cambia(arbol: seq<Ficha>) | Sella(arbol: seq<Ficha>, motivo: string)

  /** `censar`: the files that are long enough to be looked at. */
  function Censar(arbol: seq<Ficha>): seq<Ficha> {
    if arbol == [] then []
    else Censar(arbol[..|arbol| - 1]) + if arbol[|arbol| - 1].codigo < AVISO then [] else [arbol[|arbol| - 1]]
  }

  lemma {:induction false} CensarTiene(arbol: seq<Ficha>, f: Ficha)
    ensures f in Censar(arbol) <==> f in arbol && f.codigo >= AVISO
  {
    if arbol != [] {
      CensarTiene(arbol[..|arbol| - 1], f);
      assert arbol == arbol[..|arbol| - 1] + [arbol[|arbol| - 1]];
    }
  }

  /** The baseline after a history, were it kept in memory; a refused seal leaves it as it was. */
  function Tras(b: Base, es: seq<Evento>, anillo: string -> Anillo): Base {
    if es == [] then b
    else
      var c := Tras(b, es[..|es| - 1], anillo);
      match es[|es| - 1]
      case Cambia(_) => c
      case Sella(arbol, motivo) =>
        match Sellada(Censar(arbol), c, Pelar(motivo), anillo)
        case Ok(d) => d
        case Err(_) => c
  }

  /** Over any history the Ring 0 paths of the baseline only shrink. */
  lemma {:induction false} Ring0SoloEncoge(b: Base, es: seq<Evento>, anillo: string -> Anillo, r: string)
    requires anillo(r) == Ring0
    ensures Tras(b, es, anillo).exentos == b.exentos
    ensures r in Tras(b, es, anillo).techos ==> r in b.techos
  {
    hide Sellada, Pelar;
    if es != [] {
      Ring0SoloEncoge(b, es[..|es| - 1], anillo, r);
      var c, e := Tras(b, es[..|es| - 1], anillo), es[|es| - 1];
      if e.Sella? && Sellada(Censar(e.arbol), c, Pelar(e.motivo), anillo).Ok? {
        Ring0NoEntra(Censar(e.arbol), c, Pelar(e.motivo), anillo, r);
      }
    }
  }

  /** A Ring 0 file that was not in the first baseline, that is not exempt and that no generator wrote has
      at most 1000 lines of code in every tree that passes the check, as long as the baseline holds any
      ceiling at all. */
  lemma Ring0Acotado(b: Base, es: seq<Evento>, anillo: string -> Anillo, arbol: seq<Ficha>, j: Juicio, f: Ficha)
    requires Acierta(j, Censar(arbol), Tras(b, es, anillo)) && Aprueba(j, Tras(b, es, anillo))
    requires Tras(b, es, anillo).techos != map[]
    requires f in arbol && anillo(f.ruta) == Ring0 && f.ruta !in b.techos && f.ruta !in b.exentos && !f.generado
    ensures f.codigo <= LIMITE
  {
    Ring0SoloEncoge(b, es, anillo, f.ruta);
    CensarTiene(arbol, f);
    var c := Tras(b, es, anillo);
    assert EsNuevo(f, c) && f in Censar(arbol) ==> f in j.nuevos;
  }

  /** The condition is not idle: without ceilings every tree passes. So the check bounds the Ring 0 files
      of all trees that pass exactly when the baseline has some ceiling. */
  lemma AcotaSii(b: Base, anillo: string -> Anillo, r: string)
    requires anillo(r) == Ring0 && r !in b.techos && r !in b.exentos
    ensures b.techos != map[] <==>
            forall arbol: seq<Ficha>, j: Juicio, f: Ficha ::
              Acierta(j, Censar(arbol), b) && Aprueba(j, b) && f in arbol && f.ruta == r && !f.generado
              ==> f.codigo <= LIMITE
  {
    if b.techos != map[] {
      forall arbol: seq<Ficha>, j: Juicio, f: Ficha |
        Acierta(j, Censar(arbol), b) && Aprueba(j, b) && f in arbol && f.ruta == r && !f.generado
        ensures f.codigo <= LIMITE
      {
        assert Tras(b, [], anillo) == b;
        Ring0Acotado(b, [], anillo, arbol, j, f);
      }
    } else {
      var f := Ficha(r, 5000, 5000, false);
      var arbol := [f];
      var j := Juicio([f], [], [], {});
      assert arbol[..0] == [] && Censar(arbol) == [f];
      assert EsNuevo(f, b);
      assert Acierta(j, Censar(arbol), b) && Aprueba(j, b) && f in arbol;
    }
  }

  /** And that is where a tree arrives when its last long file is split and the seal says so. */
  lemma SelloDeArbolLimpio(fs: seq<Ficha>, b: Base, motivo: string, anillo: string -> Anillo)
    requires forall f <- fs :: !Pasa(f, b.exentos)
    ensures Sellada(fs, b, motivo, anillo) == Ok(Base(map[], b.exentos, b.subidas))
  {
    NadaQueSellar(fs, b, anillo);
    assert b.subidas + [] == b.subidas;
  }

  lemma {:induction false} NadaQueSellar(fs: seq<Ficha>, b: Base, anillo: string -> Anillo)
    requires forall f <- fs :: !Pasa(f, b.exentos)
    ensures NuevosR0(fs, b, anillo) == [] && Suben(fs, b) == [] && Techos(fs, b) == []
  {
    if fs != [] {
      assert fs[|fs| - 1] in fs;
      NadaQueSellar(fs[..|fs| - 1], b, anillo);
    }
  }
}
