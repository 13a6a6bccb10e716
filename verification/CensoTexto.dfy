/** The baseline as a text: how `censo_modular.py` writes it, how it reads it back, and the seal that goes
    from one to the other. */
module CensoTexto {
  import opened Textos
  import opened Censo

  // -- Reading -----------------------------------------------------------------------------------------------

  function Mayuscula(c: char): char { if 'a' <= c <= 'z' then (c as int - 32) as char else c }

  function Mayusculas(s: string): (r: string)
    ensures |r| == |s|
  {
    if s == "" then "" else [Mayuscula(s[0])] + Mayusculas(s[1..])
  }

  /** The first word of a line. */
  function Palabra(s: string): (r: string)
    ensures |r| <= |s|
  {
    if s == "" || Blanco(s[0]) then "" else [s[0]] + Palabra(s[1..])
  }

  /** What comes after it: the second part of `split(None, 1)`, empty when there is none. */
  function TrasPalabra(s: string): string { PelarIzq(s[|Palabra(s)|..]) }

  /** A note, or the name of a section. */
  predicate EsAparte(s: string) { s != "" && (s[0] == '#' || (s[0] == '[' && s[|s| - 1] == ']')) }

  datatype Lectura = Lectura(seccion: Option<string>, base: Base)

  /** One line of the file. A ceiling that is no number stops the reading. */
  function Paso(e: Lectura, cruda: string): Result<Lectura, string> {
    var linea := Pelar(cruda);
    if linea == "" || linea[0] == '#' then Ok(e)
    else if EsAparte(linea) && |linea| >= 2 then Ok(e.(seccion := Some(Mayusculas(linea[1..|linea| - 1]))))
    else
      var uno, dos := Palabra(linea), TrasPalabra(linea);
      var b := e.base;
      if e.seccion == Some("TECHOS") && dos != "" then
        if SonDigitos(uno) then Ok(e.(base := b.(techos := b.techos[Pelar(dos) := Valor(uno)]))) else Err(uno)
      else if e.seccion == Some("EXENTOS") && dos != "" then
        Ok(e.(base := b.(exentos := b.exentos[uno := Pelar(dos)])))
      else if e.seccion == Some("SUBIDAS") then Ok(e.(base := b.(subidas := b.subidas + [linea])))
      else Ok(e)
  }

  function LeeLineas(ls: seq<string>, e: Lectura): Result<Lectura, string> {
    if ls == [] then Ok(e)
    else
      match LeeLineas(ls[..|ls| - 1], e)
      case Err(x) => Err(x)
      case Ok(f) => Paso(f, ls[|ls| - 1])
  }

  /** Python's text mode: every kind of line end is read as one newline. */
  function Traduce(s: string): string {
    if s == "" then ""
    else if s[0] != '\r' then [s[0]] + Traduce(s[1..])
    else if |s| > 1 && s[1] == '\n' then "\n" + Traduce(s[2..])
    else "\n" + Traduce(s[1..])
  }

  lemma {:induction false} TraduceSinCR(s: string)
    ensures '\r' !in Traduce(s)
    decreases |s|
  {
    if s != "" {
      if s[0] == '\r' && |s| > 1 && s[1] == '\n' {
        TraduceSinCR(s[2..]);
      } else {
        TraduceSinCR(s[1..]);
      }
    }
  }

  lemma {:induction false} TraduceIgual(s: string)
    requires '\r' !in s
    ensures Traduce(s) == s
  {
    if s != "" {
      assert s[0] in s;
      TraduceIgual(s[1..]);
    }
  }

  const EN_BLANCO := Lectura(None, Base(map[], map[], []))

  function Lee(texto: string): Result<Base, string> {
    match LeeLineas(Partir(Traduce(texto), '\n'), EN_BLANCO)
    case Err(x) => Err(x)
    case Ok(e) => Ok(e.base)
  }

  /** `leer_linea_base`. */
  method LeerLineaBase(texto: string) returns (r: Result<Base, string>)
    ensures r == Lee(texto)
  {
    hide Paso;
    var lineas := Partir(Traduce(texto), '\n');
    var e := EN_BLANCO;
    assert lineas[..0] == [];
    for i := 0 to |lineas|
      invariant LeeLineas(lineas[..i], EN_BLANCO) == Ok(e)
      invariant forall k | i <= k <= |lineas| :: lineas[..k] <= lineas
    {
      assert lineas[..i + 1][..i] == lineas[..i] && lineas[..i + 1][i] == lineas[i];
      var p := Paso(e, lineas[i]);
      if p.Err? {
        ErrorQueda(lineas, i + 1, EN_BLANCO);
        return Err(p.error);
      }
      e := p.value;
    }
    assert lineas[..|lineas|] == lineas;
    return Ok(e.base);
  }

  lemma {:induction false} ErrorQueda(ls: seq<string>, k: nat, e: Lectura)
    requires k <= |ls| && LeeLineas(ls[..k], e).Err?
    ensures LeeLineas(ls, e) == LeeLineas(ls[..k], e)
    decreases |ls|
  {
    if k == |ls| {
      assert ls[..k] == ls;
    } else {
      assert ls[..|ls| - 1][..k] == ls[..k];
      ErrorQueda(ls[..|ls| - 1], k, e);
    }
  }

  // -- Writing -------------------------------------------------------------------------------------------------

  /** The comment lines of the file. */
  datatype Notas = Notas(cabeza: seq<string>, deExentos: seq<string>, deSubidas: seq<string>)

  predicate EsNota(l: string) { l != "" && l[0] == '#' && UnaLinea(l) }

  predicate SonNotas(ls: seq<string>) { forall i | 0 <= i < |ls| :: EsNota(ls[i]) }

  predicate BuenasNotas(n: Notas) { SonNotas(n.cabeza) && SonNotas(n.deExentos) && SonNotas(n.deSubidas) }

  function LineaTecho(t: (string, nat)): string { PadIzq(Decimal(t.1), 6) + "  " + t.0 }

  function LineasTecho(ts: seq<(string, nat)>): seq<string> {
    if ts == [] then [] else LineasTecho(ts[..|ts| - 1]) + [LineaTecho(ts[|ts| - 1])]
  }

  function LineaExento(ruta: string, motivo: string): string { ruta + "  " + motivo }

  function LineasExento(orden: seq<string>, ex: map<string, string>): seq<string>
    requires forall r <- orden :: r in ex
  {
    if orden == [] then []
    else
      assert orden[|orden| - 1] in orden;
      LineasExento(orden[..|orden| - 1], ex) + [LineaExento(orden[|orden| - 1], ex[orden[|orden| - 1]])]
  }

  predicate Ordena(orden: seq<string>, ex: map<string, string>) {
    (forall r <- orden :: r in ex) && (forall r <- ex :: r in orden)
  }

  /** The lines of the file, but for the empty one at its end. */
  function LineasDeBase(ts: seq<(string, nat)>, orden: seq<string>, b: Base, n: Notas): seq<string>
    requires Ordena(orden, b.exentos)
  {
    n.cabeza + ["", "[TECHOS]"] + LineasTecho(ts)
    + ([""] + n.deExentos + ["", "[EXENTOS]"] + LineasExento(orden, b.exentos))
    + ([""] + n.deSubidas + ["", "[SUBIDAS]"] + b.subidas)
  }

  function Escribe(ts: seq<(string, nat)>, orden: seq<string>, b: Base, n: Notas): string
    requires Ordena(orden, b.exentos)
  {
    Unir(LineasDeBase(ts, orden, b, n) + [""], '\n')
  }

  // -- Baselines that a text can hold --------------------------------------------------------------------------

  predicate UnaLinea(s: string) { '\n' !in s && '\r' !in s }

  /** One line with no blanks around it. */
  predicate Limpia(s: string) { s != "" && !Blanco(s[0]) && !Blanco(s[|s| - 1]) && UnaLinea(s) }

  predicate SinBlancos(s: string) { forall c <- s :: !Blanco(c) }

  predicate BuenExento(r: string, m: string) {
    r != "" && SinBlancos(r) && Limpia(m) && !EsAparte(LineaExento(r, m))
  }

  predicate BuenaSubida(s: string) { Limpia(s) && !EsAparte(s) }

  predicate Buena(b: Base) {
    && (forall r <- b.techos :: Limpia(r))
    && (forall r <- b.exentos :: BuenExento(r, b.exentos[r]))
    && (forall s <- b.subidas :: BuenaSubida(s))
  }

  // -- Reading what was written ----------------------------------------------------------------------------------

  lemma {:induction false} LeeJuntas(a: seq<string>, b: seq<string>, e: Lectura)
    ensures LeeLineas(a + b, e)
            == match LeeLineas(a, e) case Err(x) => Err(x) case Ok(f) => LeeLineas(b, f)
    decreases |b|
  {
    hide Paso;
    if b == [] {
      assert a + b == a;
    } else {
      assert (a + b)[..|a + b| - 1] == a + b[..|b| - 1];
      LeeJuntas(a, b[..|b| - 1], e);
    }
  }

  lemma LimpiaSePela(s: string)
    requires Limpia(s)
    ensures Pelar(s) == s
  {
    PelarNucleo("", s, "");
    assert "" + s + "" == s;
  }

  lemma NotasMenos(ls: seq<string>)
    requires SonNotas(ls) && ls != []
    ensures SonNotas(ls[..|ls| - 1]) && ls[|ls| - 1] != "" && ls[|ls| - 1][0] == '#'
  {
    hide UnaLinea;
    var n := |ls| - 1;
    assert EsNota(ls[n]) && forall i | 0 <= i < n :: ls[..n][i] == ls[i];
  }

  lemma {:induction false} NotasNada(ls: seq<string>, e: Lectura)
    requires SonNotas(ls)
    ensures LeeLineas(ls, e) == Ok(e)
  {
    if ls != [] {
      var n := |ls| - 1;
      NotasMenos(ls);
      NotasNada(ls[..n], e);
      NotaNada(ls[n], e);
    }
  }

  lemma NotaNada(l: string, e: Lectura)
    requires l != "" && l[0] == '#'
    ensures Paso(e, l) == Ok(e)
  {
    assert PelarIzq(l) == l;
    PelarDerEmpieza(l);
  }

  lemma {:induction false} PelarDerEmpieza(s: string)
    requires s != "" && !Blanco(s[0])
    ensures PelarDer(s) != "" && PelarDer(s)[0] == s[0]
  {
    if Blanco(s[|s| - 1]) {
      PelarDerEmpieza(s[..|s| - 1]);
    }
  }

  predicate EsTitulo(nombre: string) { nombre != "" && forall c <- nombre :: 'A' <= c <= 'Z' }

  lemma TituloLeido(nombre: string, e: Lectura)
    requires EsTitulo(nombre)
    ensures Paso(e, "[" + nombre + "]") == Ok(e.(seccion := Some(nombre)))
  {
    hide Palabra, TrasPalabra, Pelar, Valor;
    var l := "[" + nombre + "]";
    PelarNucleo("", l, "");
    assert "" + l + "" == l;
    assert l[1..|l| - 1] == nombre;
    NombreMayusculas(nombre);
  }

  /** An empty line and the name of a section. */
  lemma AbreSeccion(nombre: string, e: Lectura)
    requires EsTitulo(nombre)
    ensures LeeLineas(["", "[" + nombre + "]"], e) == Ok(e.(seccion := Some(nombre)))
  {
    hide Paso;
    var ls := ["", "[" + nombre + "]"];
    assert ls[..1] == [""];
    LeeVacia(e);
    TituloLeido(nombre, e);
  }

  lemma NombreMayusculas(s: string)
    requires forall c <- s :: 'A' <= c <= 'Z'
    ensures Mayusculas(s) == s
  {
    if s != "" {
      assert s[0] in s;
      assert forall c <- s[1..] :: c in s;
      NombreMayusculas(s[1..]);
    }
  }

  lemma TresTitulos()
    ensures EsTitulo("TECHOS") && EsTitulo("EXENTOS") && EsTitulo("SUBIDAS")
  {
  }

  /** A first word, blanks and the rest. */
  lemma {:induction false} DosPartes(uno: string, dos: string)
    requires uno != "" && SinBlancos(uno) && dos != "" && !Blanco(dos[0])
    ensures Palabra(uno + "  " + dos) == uno && TrasPalabra(uno + "  " + dos) == dos
  {
    var s := uno + "  " + dos;
    PalabraEntera(uno, "  " + dos);
    assert s == uno + ("  " + dos);
    assert s[|uno|..] == "  " + dos;
    PelarIzqBlancos("  ", dos);
  }

  lemma {:induction false} PalabraEntera(uno: string, resto: string)
    requires SinBlancos(uno) && resto != "" && Blanco(resto[0])
    ensures Palabra(uno + resto) == uno
  {
    if uno == "" {
      assert uno + resto == resto;
    } else {
      assert uno[0] in uno;
      assert (uno + resto)[1..] == uno[1..] + resto;
      PalabraEntera(uno[1..], resto);
    }
  }

  lemma DigitosSinBlancos(s: string)
    requires SonDigitos(s)
    ensures SinBlancos(s)
  {
  }

  lemma TechoLeido(t: (string, nat), e: Lectura)
    requires Limpia(t.0) && e.seccion == Some("TECHOS")
    ensures Paso(e, LineaTecho(t)) == Ok(e.(base := e.base.(techos := e.base.techos[t.0 := t.1])))
  {
    hide Valor, Decimal, Palabra, TrasPalabra, Pelar;
    var d := Decimal(t.1);
    var nucleo := d + "  " + t.0;
    DigitosSinBlancos(d);
    assert nucleo[0] == d[0] && d[0] in d && EsDigito(d[0]);
    assert nucleo[|nucleo| - 1] == t.0[|t.0| - 1];
    TechoPelado(t);
    DosPartes(d, t.0);
    LimpiaSePela(t.0);
    ValorDecimal(t.1);
  }

  lemma TechoPelado(t: (string, nat))
    requires Limpia(t.0)
    ensures Pelar(LineaTecho(t)) == Decimal(t.1) + "  " + t.0
  {
    hide Decimal, Pelar;
    var d := Decimal(t.1);
    var nucleo := d + "  " + t.0;
    DigitosSinBlancos(d);
    assert nucleo[0] == d[0] && d[0] in d;
    assert nucleo[|nucleo| - 1] == t.0[|t.0| - 1];
    var hueco := if |d| >= 6 then "" else seq(6 - |d|, _ => ' ');
    assert PadIzq(d, 6) == hueco + d;
    assert LineaTecho(t) == hueco + nucleo + "";
    PelarNucleo(hueco, nucleo, "");
  }

  lemma {:induction false} TechosLeidos(ts: seq<(string, nat)>, e: Lectura)
    requires (forall t <- ts :: Limpia(t.0)) && e.seccion == Some("TECHOS") && e.base.techos == map[]
    ensures LeeLineas(LineasTecho(ts), e) == Ok(e.(base := e.base.(techos := MapaDe(ts))))
  {
    hide Paso, LineaTecho, Limpia;
    if ts != [] {
      var n := |ts| - 1;
      assert ts[n] in ts;
      TechosLeidos(ts[..n], e);
      var ls := LineasTecho(ts);
      assert ls[..|ls| - 1] == LineasTecho(ts[..n]);
      TechoLeido(ts[n], e.(base := e.base.(techos := MapaDe(ts[..n]))));
    }
  }

  lemma ExentoLeido(r: string, m: string, e: Lectura)
    requires BuenExento(r, m) && e.seccion == Some("EXENTOS")
    ensures Paso(e, LineaExento(r, m)) == Ok(e.(base := e.base.(exentos := e.base.exentos[r := m])))
  {
    var l := LineaExento(r, m);
    assert l[0] == r[0] && r[0] in r;
    assert l[|l| - 1] == m[|m| - 1];
    PelarNucleo("", l, "");
    assert "" + l + "" == l;
    DosPartes(r, m);
    LimpiaSePela(m);
  }

  /** The exemptions in that order. */
  function Puestos(orden: seq<string>, ex: map<string, string>): (m: map<string, string>)
    requires forall r <- orden :: r in ex
    ensures forall r <- m :: r in orden && m[r] == ex[r]
    ensures forall r <- orden :: r in m
  {
    if orden == [] then map[]
    else
      var r := orden[|orden| - 1];
      assert r in orden && orden == orden[..|orden| - 1] + [r];
      Puestos(orden[..|orden| - 1], ex)[r := ex[r]]
  }

  lemma {:induction false} ExentosLeidos(orden: seq<string>, ex: map<string, string>, e: Lectura)
    requires forall r <- orden :: r in ex && BuenExento(r, ex[r])
    requires e.seccion == Some("EXENTOS") && e.base.exentos == map[]
    ensures LeeLineas(LineasExento(orden, ex), e) == Ok(e.(base := e.base.(exentos := Puestos(orden, ex))))
  {
    hide Paso, LineaExento, BuenExento;
    if orden != [] {
      var n := |orden| - 1;
      var r := orden[n];
      assert r in orden;
      assert forall x <- orden[..n] :: x in orden;
      ExentosLeidos(orden[..n], ex, e);
      var ls := LineasExento(orden, ex);
      assert ls[..|ls| - 1] == LineasExento(orden[..n], ex);
      ExentoLeido(r, ex[r], e.(base := e.base.(exentos := Puestos(orden[..n], ex))));
    }
  }

  lemma {:induction false} SubidasLeidas(ss: seq<string>, e: Lectura)
    requires (forall s <- ss :: BuenaSubida(s)) && e.seccion == Some("SUBIDAS")
    ensures LeeLineas(ss, e) == Ok(e.(base := e.base.(subidas := e.base.subidas + ss)))
  {
    if ss != [] {
      var n := |ss| - 1;
      assert ss[n] in ss;
      SubidasLeidas(ss[..n], e);
      LimpiaSePela(ss[n]);
      assert e.base.subidas + ss == e.base.subidas + ss[..n] + [ss[n]];
    } else {
      assert e.base.subidas + ss == e.base.subidas;
    }
  }

  lemma LeeVacia(e: Lectura)
    ensures LeeLineas([""], e) == Ok(e)
  {
    assert [""][..0] == [];
    assert Pelar("") == "";
  }

  /** One part of the file: its notes, the name of its section and its lines. */
  lemma ParteLeida(notas: seq<string>, nombre: string, lineas: seq<string>, e: Lectura)
    requires SonNotas(notas) && EsTitulo(nombre)
    ensures LeeLineas(notas + ["", "[" + nombre + "]"] + lineas, e)
            == LeeLineas(lineas, e.(seccion := Some(nombre)))
    ensures LeeLineas([""] + notas + ["", "[" + nombre + "]"] + lineas, e)
            == LeeLineas(lineas, e.(seccion := Some(nombre)))
  {
    hide LeeLineas, SonNotas, EsTitulo;
    var titulo := ["", "[" + nombre + "]"];
    NotasNada(notas, e);
    AbreSeccion(nombre, e);
    LeeJuntas(notas, titulo, e);
    LeeJuntas(notas + titulo, lineas, e);
    LeeVacia(e);
    LeeJuntas([""], notas + titulo + lineas, e);
    assert [""] + notas + titulo + lineas == [""] + (notas + titulo + lineas);
  }

  /** The lines of a baseline give that baseline and leave the reading among the raises. */
  lemma BaseLeida(ts: seq<(string, nat)>, orden: seq<string>, b: Base, n: Notas)
    requires Buena(b) && b.techos == MapaDe(ts) && Ordena(orden, b.exentos) && BuenasNotas(n)
    ensures LeeLineas(LineasDeBase(ts, orden, b, n), EN_BLANCO) == Ok(Lectura(Some("SUBIDAS"), b))
  {
    hide LeeLineas, Paso, Limpia, BuenExento, BuenaSubida, MapaDe, LineasExento, LineasTecho, SonNotas, EN_BLANCO;
    var p1 := n.cabeza + ["", "[TECHOS]"] + LineasTecho(ts);
    var p2 := [""] + n.deExentos + ["", "[EXENTOS]"] + LineasExento(orden, b.exentos);
    var p3 := [""] + n.deSubidas + ["", "[SUBIDAS]"] + b.subidas;
    var e0 := EN_BLANCO;
    EnBlanco();
    TresTitulos();
    assert "[" + "TECHOS" + "]" == "[TECHOS]" && "[" + "EXENTOS" + "]" == "[EXENTOS]";
    assert "[" + "SUBIDAS" + "]" == "[SUBIDAS]";
    var e1 := Lectura(Some("TECHOS"), e0.base);
    LimpiasDe(ts);
    TechosLeidos(ts, e1);
    ParteLeida(n.cabeza, "TECHOS", LineasTecho(ts), e0);
    var e2 := Lectura(Some("TECHOS"), Base(b.techos, map[], []));
    assert LeeLineas(p1, e0) == Ok(e2);
    var e3 := Lectura(Some("EXENTOS"), e2.base);
    ExentosLeidos(orden, b.exentos, e3);
    ParteLeida(n.deExentos, "EXENTOS", LineasExento(orden, b.exentos), e2);
    assert Puestos(orden, b.exentos) == b.exentos;
    var e4 := Lectura(Some("EXENTOS"), Base(b.techos, b.exentos, []));
    assert LeeLineas(p2, e2) == Ok(e4);
    var e5 := Lectura(Some("SUBIDAS"), e4.base);
    SubidasLeidas(b.subidas, e5);
    ParteLeida(n.deSubidas, "SUBIDAS", b.subidas, e4);
    assert [] + b.subidas == b.subidas;
    LeeJuntas(p1, p2, e0);
    LeeJuntas(p1 + p2, p3, e0);
  }

  lemma {:induction false} TraduceTras(a: string, x: string)
    requires '\r' !in a
    ensures Traduce(a + x) == a + Traduce(x)
  {
    if a == "" {
      assert a + x == x;
    } else {
      assert a[0] in a && (a + x)[1..] == a[1..] + x;
      TraduceTras(a[1..], x);
    }
  }

  /** The lines of a baseline and then any others, line ends inside them included: of those what is read is
      what they give once they are cut at their own line ends. */
  lemma BaseYCola(ts: seq<(string, nat)>, orden: seq<string>, b: Base, n: Notas, cola: seq<string>)
    requires Buena(b) && b.techos == MapaDe(ts) && Ordena(orden, b.exentos) && BuenasNotas(n) && |cola| >= 1
    ensures LeeLineas(Partir(Traduce(Unir(LineasDeBase(ts, orden, b, n) + cola, '\n')), '\n'), EN_BLANCO)
            == LeeLineas(Partir(Traduce(Unir(cola, '\n')), '\n'), Lectura(Some("SUBIDAS"), b))
  {
    hide LeeLineas, Buena, MapaDe, Ordena, BuenasNotas, LineasDeBase, Traduce;
    var ls := LineasDeBase(ts, orden, b, n);
    LineasSinSalto(ts, orden, b, n);
    BaseLeida(ts, orden, b, n);
    UnirConcat(ls, cola, '\n');
    UnirSin(ls, '\n', '\r');
    TraduceTras(Unir(ls, '\n') + ['\n'], Unir(cola, '\n'));
    PartirConcat(Unir(ls, '\n'), '\n', Traduce(Unir(cola, '\n')));
    PartirUnir(ls, '\n');
    LeeJuntas(ls, Partir(Traduce(Unir(cola, '\n')), '\n'), EN_BLANCO);
  }

  /** Reading back what a seal writes gives the same ceilings, the same exemptions and the same raises,
      whatever the notes in between say, when every one of them can be told in its line. */
  lemma LeeEscribe(ts: seq<(string, nat)>, orden: seq<string>, b: Base, n: Notas)
    requires Buena(b) && b.techos == MapaDe(ts) && Ordena(orden, b.exentos) && BuenasNotas(n)
    ensures Lee(Escribe(ts, orden, b, n)) == Ok(b)
  {
    hide Buena, MapaDe, Ordena, BuenasNotas, LineasDeBase, LeeLineas;
    BaseYCola(ts, orden, b, n, [""]);
    assert Traduce(Unir([""], '\n')) == "";
    LeeVacia(Lectura(Some("SUBIDAS"), b));
  }

  lemma EnBlanco()
    ensures EN_BLANCO == Lectura(None, Base(map[], map[], []))
  {
  }

  lemma {:induction false} MapaTiene<V>(ts: seq<(string, V)>, t: (string, V))
    requires t in ts
    ensures t.0 in MapaDe(ts)
  {
    if ts[|ts| - 1] != t {
      MapaTiene(ts[..|ts| - 1], t);
    }
  }

  lemma LimpiasDe(ts: seq<(string, nat)>)
    requires forall r <- MapaDe(ts) :: Limpia(r)
    ensures forall t <- ts :: Limpia(t.0)
  {
    forall t <- ts
      ensures Limpia(t.0)
    {
      MapaTiene(ts, t);
    }
  }

  predicate SinSalto(ls: seq<string>) { forall l <- ls :: UnaLinea(l) }

  lemma {:induction false} TechosSinSalto(ts: seq<(string, nat)>)
    requires forall t <- ts :: Limpia(t.0)
    ensures SinSalto(LineasTecho(ts))
  {
    if ts != [] {
      var n := |ts| - 1;
      assert ts[n] in ts;
      TechosSinSalto(ts[..n]);
      var d := Decimal(ts[n].1);
      DigitosUnaLinea(d);
      assert UnaLinea(LineaTecho(ts[n]));
    }
  }

  lemma {:induction false} ExentosSinSalto(orden: seq<string>, ex: map<string, string>)
    requires forall r <- orden :: r in ex && BuenExento(r, ex[r])
    ensures SinSalto(LineasExento(orden, ex))
  {
    if orden != [] {
      var n := |orden| - 1;
      var r := orden[n];
      assert r in orden;
      assert forall x <- orden[..n] :: x in orden;
      ExentosSinSalto(orden[..n], ex);
      assert Blanco('\n') && Blanco('\r') && UnaLinea(r);
      assert UnaLinea(LineaExento(r, ex[r]));
    }
  }

  lemma LineasSinSalto(ts: seq<(string, nat)>, orden: seq<string>, b: Base, n: Notas)
    requires Buena(b) && b.techos == MapaDe(ts) && Ordena(orden, b.exentos) && BuenasNotas(n)
    ensures SinSalto(LineasDeBase(ts, orden, b, n)) && |LineasDeBase(ts, orden, b, n)| >= 1
  {
    hide Limpia, BuenExento, LineasExento, LineasTecho, MapaDe;
    LimpiasDe(ts);
    TechosSinSalto(ts);
    ExentosSinSalto(orden, b.exentos);
    assert SinSalto(b.subidas) by {
      forall s <- b.subidas
        ensures UnaLinea(s)
      {
        SubidaSinSalto(s);
      }
    }
  }

  lemma SubidaSinSalto(s: string)
    requires BuenaSubida(s)
    ensures UnaLinea(s)
  {
  }

  // -- What is read can be written again --------------------------------------------------------------------------

  lemma {:induction false} PelarDentro(s: string, c: char)
    requires c !in s
    ensures c !in Pelar(s)
  {
    PelarIzqDentro(s, c);
  }

  lemma {:induction false} PelarIzqDentro(s: string, c: char)
    ensures exists k | 0 <= k <= |s| :: PelarIzq(s) == s[k..]
  {
    if s != "" && Blanco(s[0]) {
      PelarIzqDentro(s[1..], c);
      var k :| 0 <= k <= |s[1..]| && PelarIzq(s[1..]) == s[1..][k..];
      assert s[1..][k..] == s[k + 1..];
    } else {
      assert s[0..] == s;
    }
  }

  lemma PelarLimpia(s: string)
    requires UnaLinea(s) && Pelar(s) != ""
    ensures Limpia(Pelar(s))
  {
    PelarDentro(s, '\n');
    PelarDentro(s, '\r');
    var t := PelarIzq(s);
    assert t != "" && !Blanco(t[0]);
    assert Pelar(s) == t[..|Pelar(s)|];
  }

  lemma {:induction false} PalabraSinBlancos(s: string)
    ensures SinBlancos(Palabra(s)) && Palabra(s) == s[..|Palabra(s)|]
    ensures |Palabra(s)| < |s| ==> Blanco(s[|Palabra(s)|])
  {
    if s != "" && !Blanco(s[0]) {
      PalabraSinBlancos(s[1..]);
    }
  }

  /** A step of the reading keeps the baseline one that a text can hold. */
  lemma PasoBueno(e: Lectura, cruda: string)
    requires Buena(e.base) && UnaLinea(cruda)
    ensures Paso(e, cruda).Ok? ==> Buena(Paso(e, cruda).value.base)
  {
    hide Valor, Pelar, Palabra, TrasPalabra;
    var linea := Pelar(cruda);
    if linea != "" && linea[0] != '#' && !EsAparte(linea) {
      PelarLimpia(cruda);
      if TrasPalabra(linea) != "" {
        PartesBuenas(linea);
      }
    }
    assert EsAparte(linea) && linea[0] != '#' ==> |linea| >= 2;
  }

  lemma PartesBuenas(linea: string)
    requires Limpia(linea) && !EsAparte(linea) && TrasPalabra(linea) != ""
    ensures var uno, dos := Palabra(linea), TrasPalabra(linea); Limpia(dos) && Pelar(dos) == dos && BuenExento(uno, dos)
  {
    hide Palabra, PelarIzq, Pelar;
    var uno, dos := Palabra(linea), TrasPalabra(linea);
    PalabraSinBlancos(linea);
    assert uno != "" && uno[0] == linea[0];
    var r := linea[|uno|..];
    PelarIzqDentro(r, '\n');
    var k :| 0 <= k <= |r| && dos == r[k..];
    assert dos[|dos| - 1] == linea[|linea| - 1];
    assert Limpia(dos);
    LimpiaSePela(dos);
    var l := LineaExento(uno, dos);
    assert l[0] == linea[0] && l[|l| - 1] == linea[|linea| - 1];
  }

  lemma {:induction false} LeeLineasBuena(ls: seq<string>, e: Lectura)
    requires Buena(e.base) && forall l <- ls :: UnaLinea(l)
    ensures LeeLineas(ls, e).Ok? ==> Buena(LeeLineas(ls, e).value.base)
  {
    hide Paso, Buena;
    if ls != [] {
      var n := |ls| - 1;
      assert ls[n] in ls;
      LeeLineasBuena(ls[..n], e);
      if LeeLineas(ls[..n], e).Ok? {
        PasoBueno(LeeLineas(ls[..n], e).value, ls[n]);
      }
    }
  }

  lemma {:induction false} PiezasSinLetra(s: string, c: char, d: char)
    requires d !in s
    ensures forall p <- Partir(s, c) :: d !in p
  {
    if s != "" {
      PiezasSinLetra(s[1..], c, d);
      var r := Partir(s[1..], c);
      assert s[0] != d && r[0] in r;
      assert forall p <- r[1..] :: p in r;
    }
  }

  /** Whatever the file says, what is read from it can be written and read back. */
  lemma LeeBuena(texto: string)
    ensures Lee(texto).Ok? ==> Buena(Lee(texto).value)
  {
    hide LeeLineas, Traduce;
    TraduceSinCR(texto);
    PiezasSinLetra(Traduce(texto), '\n', '\r');
    EnBlanco();
    LeeLineasBuena(Partir(Traduce(texto), '\n'), EN_BLANCO);
  }

  /** A written baseline is read back as it was exactly when a text can hold it. */
  lemma LeeEscribeSii(ts: seq<(string, nat)>, orden: seq<string>, b: Base, n: Notas)
    requires b.techos == MapaDe(ts) && Ordena(orden, b.exentos) && BuenasNotas(n)
    ensures Lee(Escribe(ts, orden, b, n)) == Ok(b) <==> Buena(b)
  {
    hide Lee, Escribe, Buena, Ordena, BuenasNotas, MapaDe;
    LeeBuena(Escribe(ts, orden, b, n));
    if Buena(b) {
      LeeEscribe(ts, orden, b, n);
    }
  }

  // -- The seal -------------------------------------------------------------------------------------------------------

  /** A path and a motive whose line is read back: one line, no blank at either end, and neither a note nor
      the name of a section. */
  predicate RayaBuena(ruta: string, motivo: string) {
    && ruta != "" && motivo != "" && UnaLinea(ruta) && UnaLinea(motivo)
    && !Blanco(ruta[0]) && !Blanco(motivo[|motivo| - 1])
    && ruta[0] != '#' && !(ruta[0] == '[' && motivo[|motivo| - 1] == ']')
  }

  lemma DigitosUnaLinea(s: string)
    requires SonDigitos(s)
    ensures UnaLinea(s)
  {
    assert !EsDigito('\n') && !EsDigito('\r');
  }

  /** What is between the path and the motive adds no line end. */
  lemma LineaDePartes(s: Subida, motivo: string)
    ensures UnaLinea(LineaDe(s, motivo)) <==> UnaLinea(s.ruta) && UnaLinea(motivo)
    ensures var l := LineaDe(s, motivo);
            l != "" && l[0] == (if s.ruta == "" then ' ' else s.ruta[0])
            && l[|l| - 1] == if motivo == "" then ' ' else motivo[|motivo| - 1]
  {
    hide Decimal, UnaLinea;
    var p, v, n := Pad(s.ruta, 58), Decimal(s.viejo), Decimal(s.nuevo);
    DigitosUnaLinea(v);
    DigitosUnaLinea(n);
    var medio := " " + v + " -> " + n + "  ";
    MedioUnaLinea(v, n);
    PadUnaLinea(s.ruta);
    assert LineaDe(s, motivo) == p + medio + motivo;
    JuntaUnaLinea(p, medio, motivo);
    assert p != "" && p[0] == if s.ruta == "" then ' ' else s.ruta[0];
  }

  lemma MedioUnaLinea(v: string, n: string)
    requires UnaLinea(v) && UnaLinea(n)
    ensures UnaLinea(" " + v + " -> " + n + "  ")
  {
  }

  lemma PadUnaLinea(s: string)
    ensures UnaLinea(Pad(s, 58)) <==> UnaLinea(s)
  {
    if |s| < 58 {
      var hueco: string := seq(58 - |s|, _ => ' ');
      assert Pad(s, 58) == s + hueco;
      assert '\n' !in hueco && '\r' !in hueco;
    }
  }

  lemma JuntaUnaLinea(a: string, b: string, c: string)
    requires UnaLinea(b)
    ensures UnaLinea(a + b + c) <==> UnaLinea(a) && UnaLinea(c)
  {
    assert forall x: char :: x in a + b + c <==> x in a || x in b || x in c;
  }

  lemma LineaDeBuenaSii(s: Subida, motivo: string)
    ensures BuenaSubida(LineaDe(s, motivo)) <==> RayaBuena(s.ruta, motivo)
  {
    hide LineaDe, UnaLinea;
    LineaDePartes(s, motivo);
  }

  lemma {:induction false} LineasDeBuenasSii(ss: seq<Subida>, motivo: string)
    ensures (forall l <- LineasDe(ss, motivo) :: BuenaSubida(l)) <==> (forall s <- ss :: RayaBuena(s.ruta, motivo))
  {
    hide LineaDe, BuenaSubida, RayaBuena;
    if ss != [] {
      var n := |ss| - 1;
      LineaDeBuenaSii(ss[n], motivo);
      LineasDeBuenasSii(ss[..n], motivo);
      assert ss == ss[..n] + [ss[n]];
      assert LineasDe(ss, motivo) == LineasDe(ss[..n], motivo) + [LineaDe(ss[n], motivo)];
    }
  }

  /** A seal that can be read back: the path of every file that gets a ceiling fits its line, and so does
      the raised one with its motive. Of any other file nothing is asked. */
  predicate SeLee(fs: seq<Ficha>, b: Base, motivo: string) {
    && (forall f <- fs :: Pasa(f, b.exentos) ==> Limpia(f.ruta))
    && (forall s <- Suben(fs, b) :: RayaBuena(s.ruta, motivo))
  }

  lemma SelladaBuenaSii(fs: seq<Ficha>, b: Base, motivo: string, anillo: string -> Anillo)
    requires Buena(b) && Sellada(fs, b, motivo, anillo).Ok?
    ensures Buena(Sellada(fs, b, motivo, anillo).value) <==> SeLee(fs, b, motivo)
  {
    hide BuenaSubida, BuenExento, LineasDe, Suben, MapaDe, Techos, Limpia, RayaBuena, NuevosR0;
    var c := Sellada(fs, b, motivo, anillo).value;
    var ls := LineasDe(Suben(fs, b), motivo);
    LineasDeBuenasSii(Suben(fs, b), motivo);
    TechosLimpiosSii(fs, b);
    assert forall s :: s in c.subidas <==> s in b.subidas || s in ls;
  }

  lemma TechosLimpiosSii(fs: seq<Ficha>, b: Base)
    ensures (forall r <- MapaDe(Techos(fs, b)) :: Limpia(r))
            <==> (forall f <- fs :: Pasa(f, b.exentos) ==> Limpia(f.ruta))
  {
    hide MapaDe, Techos, Limpia;
    var m := MapaDe(Techos(fs, b));
    forall f <- fs | Pasa(f, b.exentos)
      ensures f.ruta in m
    {
      TechosTienen(fs, b, f.ruta);
    }
    forall r <- m
      ensures exists f <- fs :: f.ruta == r && Pasa(f, b.exentos)
    {
      TechosTienen(fs, b, r);
    }
  }

  /** The baseline on disk. */
  class Fichero {
    var texto: string

    constructor (texto: string)
      ensures this.texto == texto
    {
      this.texto := texto;
    }
  }

  method BuscaNuevosR0(fs: seq<Ficha>, b: Base, anillo: string -> Anillo) returns (r: seq<Ficha>)
    ensures r == NuevosR0(fs, b, anillo)
  {
    r := [];
    for i := 0 to |fs|
      invariant r == NuevosR0(fs[..i], b, anillo)
    {
      assert fs[..i + 1][..i] == fs[..i];
      var f := fs[i];
      if anillo(f.ruta) == Ring0 && f.codigo > LIMITE && f.ruta !in b.exentos && !f.generado && f.ruta !in b.techos {
        r := r + [f];
      }
    }
    assert fs[..|fs|] == fs;
  }

  method BuscaSuben(fs: seq<Ficha>, b: Base) returns (r: seq<Subida>)
    ensures r == Suben(fs, b)
  {
    r := [];
    for i := 0 to |fs|
      invariant r == Suben(fs[..i], b)
    {
      assert fs[..i + 1][..i] == fs[..i];
      var f := fs[i];
      if f.codigo > LIMITE && f.ruta !in b.exentos && !f.generado {
        if f.ruta in b.techos && f.codigo > b.techos[f.ruta] {
          r := r + [Subida(f.ruta, b.techos[f.ruta], f.codigo)];
        }
      }
    }
    assert fs[..|fs|] == fs;
  }

  /** The lines of the ceilings, in the order of the census. */
  method EscribeTechos(fs: seq<Ficha>, b: Base) returns (ls: seq<string>)
    ensures ls == LineasTecho(Techos(fs, b))
  {
    hide LineaTecho;
    ls := [];
    for i := 0 to |fs|
      invariant ls == LineasTecho(Techos(fs[..i], b))
    {
      assert fs[..i + 1][..i] == fs[..i];
      var f := fs[i];
      ghost var antes := Techos(fs[..i], b);
      assert antes + [] == antes;
      if f.codigo > LIMITE && f.ruta !in b.exentos && !f.generado {
        assert (antes + [(f.ruta, f.codigo)])[..|antes|] == antes;
        ls := ls + [LineaTecho((f.ruta, f.codigo))];
      }
    }
    assert fs[..|fs|] == fs;
  }

  method EscribeExentos(orden: seq<string>, ex: map<string, string>) returns (ls: seq<string>)
    requires forall r <- orden :: r in ex
    ensures ls == LineasExento(orden, ex)
  {
    ls := [];
    for i := 0 to |orden|
      invariant forall r <- orden[..i] :: r in ex
      invariant ls == LineasExento(orden[..i], ex)
    {
      assert orden[i] in orden;
      assert orden[..i + 1][..i] == orden[..i];
      ls := ls + [orden[i] + "  " + ex[orden[i]]];
    }
    assert orden[..|orden|] == orden;
  }

  method EscribeSubidas(ss: seq<Subida>, motivo: string) returns (ls: seq<string>)
    ensures ls == LineasDe(ss, motivo)
  {
    hide LineaDe;
    ls := [];
    for i := 0 to |ss|
      invariant ls == LineasDe(ss[..i], motivo)
    {
      assert ss[..i + 1][..i] == ss[..i];
      ls := ls + [LineaDe(ss[i], motivo)];
    }
    assert ss[..|ss|] == ss;
  }

  /** `sellar`: a refusal leaves the file as it was; a seal writes the whole baseline anew. */
  method Sellar(fichero: Fichero, fs: seq<Ficha>, b: Base, motivo: string, anillo: string -> Anillo,
                orden: seq<string>, n: Notas)
    returns (r: Result<(), Negativa>)
    requires Ordena(orden, b.exentos)
    modifies fichero
    ensures match Sellada(fs, b, motivo, anillo)
            case Err(e) => r == Err(e) && fichero.texto == old(fichero.texto)
            case Ok(c) => r == Ok(()) && c.techos == MapaDe(Techos(fs, b)) && c.exentos == b.exentos
                          && fichero.texto == Escribe(Techos(fs, b), orden, c, n)
  {
    hide NuevosR0, Suben, Techos, LineasDe, LineasExento, LineasTecho, MapaDe, Unir;
    var nuevosR0 := BuscaNuevosR0(fs, b, anillo);
    if nuevosR0 != [] {
      return Err(NuevoEnRing0);
    }
    var suben := BuscaSuben(fs, b);
    if suben != [] && motivo == "" {
      return Err(SubidaMuda);
    }
    if |suben| > 1 && motivo != "" {
      return Err(VariasSubidas);
    }
    var mas := EscribeSubidas(suben, motivo);
    var subidas := b.subidas + mas;
    var techos := EscribeTechos(fs, b);
    var exentos := EscribeExentos(orden, b.exentos);
    var hoy := n.cabeza;
    hoy := hoy + ["", "[TECHOS]"] + techos;
    var deExentos := [""] + n.deExentos + ["", "[EXENTOS]"] + exentos;
    hoy := hoy + deExentos;
    var deSubidas := [""] + n.deSubidas + ["", "[SUBIDAS]"] + subidas;
    hoy := hoy + deSubidas;
    hoy := hoy + [""];
    fichero.texto := Unir(hoy, '\n');
    return Ok(());
  }

  /** The notes of the file and the order in which it lists the exemptions. */
  datatype Plantilla = Plantilla(notas: Notas, ordena: map<string, string> -> seq<string>) {
    ghost predicate Valid() {
      && BuenasNotas(notas)
      && (forall ex: map<string, string> :: Ordena(ordena(ex), ex))
    }
  }

  /** The file after `--sellar`: as it was when it cannot be read or the seal is refused. */
  function SellaTexto(t: string, arbol: seq<Ficha>, motivo: string, anillo: string -> Anillo, pl: Plantilla): string
    requires pl.Valid()
  {
    match Lee(t)
    case Err(_) => t
    case Ok(b) =>
      match Sellada(Censar(arbol), b, Pelar(motivo), anillo)
      case Err(_) => t
      case Ok(c) => Escribe(Techos(Censar(arbol), b), pl.ordena(c.exentos), c, pl.notas)
  }

  /** The `--sellar` of `main`, from file to file. */
  method Resella(fichero: Fichero, arbol: seq<Ficha>, motivo: string, anillo: string -> Anillo, pl: Plantilla)
    returns (r: Result<(), Negativa>)
    requires pl.Valid()
    modifies fichero
    ensures fichero.texto == SellaTexto(old(fichero.texto), arbol, motivo, anillo, pl)
    ensures r == match Lee(old(fichero.texto))
                 case Err(_) => Err(BaseIlegible)
                 case Ok(b) =>
                   match Sellada(Censar(arbol), b, Pelar(motivo), anillo)
                   case Ok(_) => Ok(())
                   case Err(e) => Err(e)
  {
    hide Lee, Escribe, Pelar, Ordena, Techos, Censar, NuevosR0, Suben, LineasDe, MapaDe;
    var leida := LeerLineaBase(fichero.texto);
    if leida.Err? {
      return Err(BaseIlegible);
    }
    var b := leida.value;
    var fs := Censa(arbol);
    r := Sellar(fichero, fs, b, Pelar(motivo), anillo, pl.ordena(b.exentos), pl.notas);
  }

  /** `censar`. */
  method Censa(arbol: seq<Ficha>) returns (fs: seq<Ficha>)
    ensures fs == Censar(arbol)
  {
    fs := [];
    for i := 0 to |arbol|
      invariant fs == Censar(arbol[..i])
    {
      assert arbol[..i + 1][..i] == arbol[..i];
      if arbol[i].codigo < AVISO {
        continue;
      }
      fs := fs + [arbol[i]];
    }
    assert arbol[..|arbol|] == arbol;
  }
}
