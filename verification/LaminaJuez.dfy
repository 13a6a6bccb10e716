/** The LAMINA format and its judge (`lamina_juez.py`). Bytes are characters below 256. */
module LaminaJuez {
  import opened Textos

  const ANCHO_MAX := 1280
  const ALTO_MAX := 32768
  const ELEMENTOS_MAX := 4096
  const ESCALA_MAX := 4
  const LETRA_ANCHO := 8
  const LETRA_ALTO := 16
  const LINEA_MAX := 256

  datatype Verbo = CAJA | TEXTO | IMAGEN | ENLACE | CAMPO

  /** What one line of a lamina says. `marca` is a colour for CAJA and an id otherwise. */
  datatype Elemento =
    | Zona(verbo: Verbo, x: nat, y: nat, w: nat, h: nat, marca: string)
    | Tira(x: nat, y: nat, escala: nat, color: string, texto: string)
  {
    function VerboDe(): Verbo { if Tira? then TEXTO else verbo }
  }

  function Nombre(v: Verbo): (s: string)
    ensures ' ' !in s && '\n' !in s && '\r' !in s
  {
    match v
    case CAJA => "CAJA"
    case TEXTO => "TEXTO"
    case IMAGEN => "IMAGEN"
    case ENLACE => "ENLACE"
    case CAMPO => "CAMPO"
  }

  /** The verb with that name, TEXTO left to its own branch. */
  function VerboDeZona(s: string): (r: Option<Verbo>)
    ensures r.Some? ==> r.value != TEXTO && Nombre(r.value) == s
    ensures forall v :: v != TEXTO && s == Nombre(v) ==> r == Some(v)
  {
    if s == "CAJA" then Some(CAJA)
    else if s == "IMAGEN" then Some(IMAGEN)
    else if s == "ENLACE" then Some(ENLACE)
    else if s == "CAMPO" then Some(CAMPO)
    else None
  }

  /** The pixels that a strip of `n` letters takes. */
  function AnchoTira(n: nat, escala: nat): nat { n * LETRA_ANCHO * escala }

  // -- Printing ---------------------------------------------------------------------------

  function Campos(el: Elemento): (ps: seq<string>)
    ensures |ps| == 6
  {
    match el
    case Zona(v, x, y, w, h, m) => [Nombre(v), Decimal(x), Decimal(y), Decimal(w), Decimal(h), m]
    case Tira(x, y, e, c, t) => ["TEXTO", Decimal(x), Decimal(y), Decimal(e), c, t]
  }

  function Imprime(el: Elemento): string { Unir(Campos(el), ' ') }

  // -- The fields the judge takes ---------------------------------------------------------

  predicate EsLatin(c: char) { EsImprimible(c) || 0xA0 <= c as int }

  predicate TodoLatin(s: string) { forall c <- s :: EsLatin(c) }

  predicate EsHex(c: char) { EsDigito(c) || 'a' <= c <= 'f' || 'A' <= c <= 'F' }

  predicate EsDeId(c: char) { EsDigito(c) || 'a' <= c <= 'z' || c == '_' || c == '-' }

  predicate ColorBueno(s: string) { |s| == 6 && forall c <- s :: EsHex(c) }

  predicate IdBueno(s: string) { 1 <= |s| <= 32 && forall c <- s :: EsDeId(c) }

  predicate NumeroBueno(s: string) { s != "" && SonDigitos(s) }

  datatype Rechazo =
    | Vacia | Cabecera | Orden | Numero | Id | Color | Largo | Campos_ | NoAscii | Verbo_ | Tamano | Fuera

  /** `_numero`: decimal digits with a cap. */
  function LeeNumero(s: string, tope: nat): (r: Result<nat, Rechazo>)
    ensures r.Ok? <==> NumeroBueno(s) && Valor(s) <= tope
    ensures r.Ok? ==> r.value == Valor(s)
  {
    if !NumeroBueno(s) || Valor(s) > tope then Err(Numero) else Ok(Valor(s))
  }

  function QuitaCR(s: string): (r: string)
    ensures |r| <= |s| && r == s[..|r|]
    ensures r == "" || r[|r| - 1] != '\r'
    ensures s == "" || s[|s| - 1] != '\r' ==> r == s
    ensures forall c :: c !in s ==> c !in r
  {
    if s != "" && s[|s| - 1] == '\r' then QuitaCR(s[..|s| - 1]) else s
  }

  /** The judgement of one line (already without its `\n`), in the order of the checks. */
  function JuzgarLinea(linea: string, W: nat, H: nat): Result<Verbo, Rechazo> {
    var cruda := QuitaCR(linea);
    if |cruda| > LINEA_MAX then Err(Largo)
    else
      var p := Partir(cruda, ' ');
      if p[0] == "TEXTO" then JuzgarTira(p, W, H) else JuzgarZona(cruda, p, W, H)
  }

  function JuzgarTira(p: seq<string>, W: nat, H: nat): Result<Verbo, Rechazo> {
    if |p| < 6 then Err(Campos_)
    else
      var texto := Unir(p[5..], ' ');
      if texto == "" || !TodoLatin(texto) then Err(NoAscii)
      else if !TodoImprimible(Unir(p[..5], ' ')) then Err(NoAscii)
      else
        var x := LeeNumero(p[1], ANCHO_MAX);
        var y := LeeNumero(p[2], ALTO_MAX);
        var e := LeeNumero(p[3], ESCALA_MAX);
        if x.Err? || y.Err? || e.Err? then Err(Numero)
        else if e.value == 0 then Err(Tamano)
        else if !ColorBueno(p[4]) then Err(Color)
        else if x.value + AnchoTira(|texto|, e.value) > W || y.value + LETRA_ALTO * e.value > H then Err(Fuera)
        else Ok(TEXTO)
  }

  function JuzgarZona(cruda: string, p: seq<string>, W: nat, H: nat): Result<Verbo, Rechazo>
    requires |p| >= 1
  {
    if !TodoImprimible(cruda) then Err(NoAscii)
    else if VerboDeZona(p[0]).None? then Err(Verbo_)
    else if |p| != 6 then Err(Campos_)
    else
      var x := LeeNumero(p[1], ANCHO_MAX);
      var y := LeeNumero(p[2], ALTO_MAX);
      var w := LeeNumero(p[3], ANCHO_MAX);
      var h := LeeNumero(p[4], ALTO_MAX);
      var v := VerboDeZona(p[0]).value;
      if x.Err? || y.Err? || w.Err? || h.Err? then Err(Numero)
      else if w.value == 0 || h.value == 0 then Err(Tamano)
      else if v == CAJA && !ColorBueno(p[5]) then Err(Color)
      else if v != CAJA && !IdBueno(p[5]) then Err(Id)
      else if x.value + w.value > W || y.value + h.value > H then Err(Fuera)
      else Ok(v)
  }

  // -- What an accepted line means -----------------------------------------------------------

  /** The fields of a line read as an element, with no judgement. */
  function LeeCampos(p: seq<string>): Option<Elemento> {
    if |p| < 6 || !NumeroBueno(p[1]) || !NumeroBueno(p[2]) || !NumeroBueno(p[3]) then None
    else if p[0] == "TEXTO" then
      Some(Tira(Valor(p[1]), Valor(p[2]), Valor(p[3]), p[4], Unir(p[5..], ' ')))
    else if VerboDeZona(p[0]).Some? && |p| == 6 && NumeroBueno(p[4]) then
      Some(Zona(VerboDeZona(p[0]).value, Valor(p[1]), Valor(p[2]), Valor(p[3]), Valor(p[4]), p[5]))
    else None
  }

  function Lee(cruda: string): Option<Elemento> { LeeCampos(Partir(cruda, ' ')) }

  /** The element lies inside a W x H page: nothing leaves it, nothing is empty. */
  predicate Dentro(el: Elemento, W: nat, H: nat) {
    match el
    case Zona(v, x, y, w, h, m) => w > 0 && h > 0 && x + w <= W && y + h <= H
    case Tira(x, y, e, c, t) => e > 0 && |t| > 0 && x + AnchoTira(|t|, e) <= W && y + LETRA_ALTO * e <= H
  }

  predicate MarcaBuena(el: Elemento) {
    match el
    case Zona(v, x, y, w, h, m) => v != TEXTO && if v == CAJA then ColorBueno(m) else IdBueno(m)
    case Tira(x, y, e, c, t) => ColorBueno(c) && e <= ESCALA_MAX
  }

  predicate TextoBueno(el: Elemento) { el.Tira? ==> TodoLatin(el.texto) }

  predicate Bueno(el: Elemento, W: nat, H: nat) {
    Dentro(el, W, H) && MarcaBuena(el) && TextoBueno(el)
  }

  lemma {:induction false} UnirChars(ps: seq<string>, sep: char, c: char)
    requires c in Unir(ps, sep)
    ensures c == sep || exists p <- ps :: c in p
  {
    if |ps| >= 2 {
      if c in ps[0] {
        assert ps[0] in ps;
      } else if c in Unir(ps[1..], sep) {
        UnirChars(ps[1..], sep, c);
        if c != sep {
          var p :| p in ps[1..] && c in p;
          assert p in ps;
        }
      }
    } else if |ps| == 1 {
      assert ps[0] in ps;
    }
  }

  lemma CamposImprimibles(ps: seq<string>)
    requires forall p <- ps :: TodoImprimible(p)
    ensures TodoImprimible(Unir(ps, ' '))
  {
    forall c | c in Unir(ps, ' ') ensures EsImprimible(c) {
      UnirChars(ps, ' ', c);
    }
  }

  lemma JuezTiraExacto(p: seq<string>, W: nat, H: nat)
    requires W <= ANCHO_MAX && H <= ALTO_MAX && |p| >= 1 && p[0] == "TEXTO"
    ensures JuzgarTira(p, W, H).Ok? <==> LeeCampos(p).Some? && Bueno(LeeCampos(p).value, W, H)
    ensures JuzgarTira(p, W, H).Ok? ==> JuzgarTira(p, W, H).value == LeeCampos(p).value.VerboDe()
  {
    if LeeCampos(p).Some? && Bueno(LeeCampos(p).value, W, H) {
      var cab := p[..5];
      assert cab == [p[0], p[1], p[2], p[3], p[4]];
      forall q | q in cab ensures TodoImprimible(q) {}
      CamposImprimibles(cab);
    }
  }

  lemma JuezZonaExacto(cruda: string, p: seq<string>, W: nat, H: nat)
    requires W <= ANCHO_MAX && H <= ALTO_MAX && p == Partir(cruda, ' ') && p[0] != "TEXTO"
    ensures JuzgarZona(cruda, p, W, H).Ok? <==> LeeCampos(p).Some? && Bueno(LeeCampos(p).value, W, H)
    ensures JuzgarZona(cruda, p, W, H).Ok? ==> JuzgarZona(cruda, p, W, H).value == LeeCampos(p).value.VerboDe()
  {
    if LeeCampos(p).Some? && Bueno(LeeCampos(p).value, W, H) {
      assert p == [p[0], p[1], p[2], p[3], p[4], p[5]];
      forall q | q in p ensures TodoImprimible(q) {}
      CamposImprimibles(p);
      UnirPartir(cruda, ' ');
    }
  }

  /** The judge is exactly "the line reads as an element that is good for this page". */
  lemma JuezExacto(linea: string, W: nat, H: nat)
    requires W <= ANCHO_MAX && H <= ALTO_MAX
    ensures var cruda := QuitaCR(linea);
            JuzgarLinea(linea, W, H).Ok? <==>
            |cruda| <= LINEA_MAX && Lee(cruda).Some? && Bueno(Lee(cruda).value, W, H)
    ensures JuzgarLinea(linea, W, H).Ok? ==> JuzgarLinea(linea, W, H).value == Lee(QuitaCR(linea)).value.VerboDe()
  {
    var cruda := QuitaCR(linea);
    var p := Partir(cruda, ' ');
    if p[0] == "TEXTO" {
      JuezTiraExacto(p, W, H);
    } else {
      JuezZonaExacto(cruda, p, W, H);
    }
  }

  // -- A printed element reads back as itself ----------------------------------------------------

  lemma TiraPartida(cab: seq<string>, t: string)
    requires |cab| == 5 && forall p <- cab :: ' ' !in p
    ensures Unir(cab + [t], ' ') == Unir(cab, ' ') + [' '] + t
    ensures var p := Partir(Unir(cab + [t], ' '), ' ');
            |p| >= 6 && p[..5] == cab && Unir(p[5..], ' ') == t
  {
    UnirConcat(cab, [t], ' ');
    PartirConcat(Unir(cab, ' '), ' ', t);
    PartirUnir(cab, ' ');
    UnirPartir(t, ' ');
    var p := Partir(Unir(cab + [t], ' '), ' ');
    assert p == cab + Partir(t, ' ');
    assert p[5..] == Partir(t, ' ');
  }

  lemma LeeImprime(el: Elemento)
    requires MarcaBuena(el)
    ensures Lee(Imprime(el)) == Some(el)
  {
    hide Decimal, Valor, Unir, Partir;
    match el
    case Zona(v, x, y, w, h, m) =>
      ValorDecimal(x); ValorDecimal(y); ValorDecimal(w); ValorDecimal(h);
      PartirUnir(Campos(el), ' ');
    case Tira(x, y, e, c, t) =>
      ValorDecimal(x); ValorDecimal(y); ValorDecimal(e);
      var cab := ["TEXTO", Decimal(x), Decimal(y), Decimal(e), c];
      assert Campos(el) == cab + [t];
      TiraPartida(cab, t);
      var p := Partir(Imprime(el), ' ');
      assert p[..5][1] == p[1] && p[..5][2] == p[2] && p[..5][3] == p[3] && p[..5][4] == p[4] && p[..5][0] == p[0];
  }

  lemma LargoUnir(ps: seq<string>, c: char)
    requires |ps| >= 2
    ensures |Unir(ps, c)| == |ps[0]| + 1 + |Unir(ps[1..], c)|
  {
  }

  lemma LargoSeis(p: seq<string>)
    requires |p| == 6
    ensures |Unir(p, ' ')| == |p[0]| + |p[1]| + |p[2]| + |p[3]| + |p[4]| + |p[5]| + 5
  {
    assert p[1..][1..] == p[2..] && p[2..][1..] == p[3..] && p[3..][1..] == p[4..] && p[4..][1..] == p[5..];
    LargoUnir(p, ' ');
    LargoUnir(p[1..], ' ');
    LargoUnir(p[2..], ' ');
    LargoUnir(p[3..], ' ');
    LargoUnir(p[4..], ' ');
  }

  lemma LargoImprime(el: Elemento, W: nat, H: nat)
    requires W <= ANCHO_MAX && H <= ALTO_MAX && Bueno(el, W, H)
    ensures |Imprime(el)| <= LINEA_MAX
  {
    LargoSeis(Campos(el));
    assert Pot10(4) == 10000 && Pot10(5) == 100000;
    match el
    case Zona(v, x, y, w, h, m) =>
      LargoDecimal(x, 4); LargoDecimal(y, 5); LargoDecimal(w, 4); LargoDecimal(h, 5);
    case Tira(x, y, e, c, t) =>
      LetrasQueCaben(|t|, e);
      LargoDecimal(x, 4); LargoDecimal(y, 5); LargoDecimal(e, 4);
  }

  lemma LetrasQueCaben(n: nat, e: nat)
    requires e >= 1
    ensures 8 * n <= AnchoTira(n, e)
  {
    assert n * 8 * e == 8 * n * e;
    assert 8 * n * (e - 1) >= 0;
  }

  lemma UltimoDeUnir(ps: seq<string>, c: char)
    requires |ps| >= 1 && ps[|ps| - 1] != ""
    ensures var s := Unir(ps, c); var u := ps[|ps| - 1]; s != "" && s[|s| - 1] == u[|u| - 1]
  {
    if |ps| > 1 {
      UltimoDeUnir(ps[1..], c);
    }
  }

  /** Everything printed from a good element is accepted, with its own verb. */
  lemma ImpresoAceptado(el: Elemento, W: nat, H: nat)
    requires W <= ANCHO_MAX && H <= ALTO_MAX && Bueno(el, W, H)
    ensures JuzgarLinea(Imprime(el), W, H) == Ok(el.VerboDe())
  {
    hide Imprime, Lee, JuzgarLinea, QuitaCR;
    ImpresoSinCR(el, W, H);
    LeeImprime(el);
    LargoImprime(el, W, H);
    JuezExacto(Imprime(el), W, H);
  }

  lemma ImpresoSinCR(el: Elemento, W: nat, H: nat)
    requires Bueno(el, W, H)
    ensures QuitaCR(Imprime(el)) == Imprime(el)
  {
    hide Decimal, Unir;
    var u := Campos(el)[5];
    assert u != "" ==> u[|u| - 1] in u;
    if u != "" {
      UltimoDeUnir(Campos(el), ' ');
    } else {
      UltimoVacio(Campos(el), ' ');
    }
  }

  lemma {:induction false} UltimoVacio(ps: seq<string>, c: char)
    requires |ps| >= 2 && ps[|ps| - 1] == ""
    ensures var s := Unir(ps, c); s != "" && s[|s| - 1] == c
  {
    if |ps| > 2 {
      UltimoVacio(ps[1..], c);
    }
  }

  lemma ImpresoSinSalto(el: Elemento, W: nat, H: nat)
    requires Bueno(el, W, H)
    ensures '\n' !in Imprime(el)
  {
    assert !EsDigito('\n') && !EsHex('\n') && !EsDeId('\n') && !EsLatin('\n');
    forall p <- Campos(el)
      ensures '\n' !in p
    {
    }
    UnirSin(Campos(el), ' ', '\n');
  }

  // -- The whole lamina ----------------------------------------------------------------------------

  datatype Veredicto = Veredicto(ancho: nat, alto: nat, n: nat, bytes: nat, cuenta: multiset<Verbo>)

  datatype Error = Error(linea: nat, motivo: Rechazo)

  /** `datos.split(b"\n")` without the empty piece after a final newline. */
  function Lineas(datos: string): (ls: seq<string>)
    ensures forall l <- ls :: '\n' !in l
  {
    var ps := Partir(datos, '\n');
    if ps[|ps| - 1] == "" then ps[..|ps| - 1] else ps
  }

  function LeeCabecera(linea: string): Result<(nat, nat, nat), Rechazo> {
    var cab := Partir(QuitaCR(linea), ' ');
    if cab[0] != "LAMINA" || |cab| != 4 then Err(Cabecera)
    else
      var W := LeeNumero(cab[1], ANCHO_MAX);
      var H := LeeNumero(cab[2], ALTO_MAX);
      var n := LeeNumero(cab[3], ELEMENTOS_MAX);
      if W.Err? || H.Err? || n.Err? then Err(Numero) else Ok((W.value, H.value, n.value))
  }

  type JuezDeLinea = string -> Result<Verbo, Rechazo>

  /** The count after judging the lines 1 .. k-1, or the first line that fails. */
  function JuzgarHasta(juez: JuezDeLinea, ls: seq<string>, k: nat): Result<multiset<Verbo>, Error>
    requires k <= |ls|
  {
    if k <= 1 then Ok(multiset{})
    else
      var r := JuzgarHasta(juez, ls, k - 1);
      if r.Err? then r
      else
        var v := juez(ls[k - 1]);
        if v.Err? then Err(Error(k, v.error)) else Ok(r.value + multiset{v.value})
  }

  /** The judge of the lines of a W x H page. */
  function Juez(W: nat, H: nat): (juez: JuezDeLinea) { l => JuzgarLinea(l, W, H) }

  /** The judgement of a whole lamina. */
  function Juzgar(datos: string): Result<Veredicto, Error> {
    var ls := Lineas(datos);
    if |ls| == 0 then Err(Error(0, Vacia))
    else
      var cab := LeeCabecera(ls[0]);
      if cab.Err? then Err(Error(1, cab.error))
      else
        var (W, H, n) := cab.value;
        if |ls| - 1 != n then Err(Error(1, Orden))
        else
          var c := JuzgarHasta(Juez(W, H), ls, |ls|);
          if c.Err? then Err(c.error) else Ok(Veredicto(W, H, n, |datos|, c.value))
  }

  predicate Aceptada(datos: string) { Juzgar(datos).Ok? }

  lemma {:induction false} ErrorPersiste(juez: JuezDeLinea, ls: seq<string>, k: nat, m: nat)
    requires k <= m <= |ls| && JuzgarHasta(juez, ls, k).Err?
    ensures JuzgarHasta(juez, ls, m) == JuzgarHasta(juez, ls, k)
  {
    if k < m {
      ErrorPersiste(juez, ls, k, m - 1);
    }
  }

  method JuzgarLineas(juez: JuezDeLinea, lineas: seq<string>) returns (r: Result<multiset<Verbo>, Error>)
    requires |lineas| >= 1
    ensures r == JuzgarHasta(juez, lineas, |lineas|)
  {
    var cuenta: multiset<Verbo> := multiset{};
    var k := 1;
    while k < |lineas|
      invariant 1 <= k <= |lineas|
      invariant JuzgarHasta(juez, lineas, k) == Ok(cuenta)
    {
      var v := juez(lineas[k]);
      if v.Err? {
        ErrorPersiste(juez, lineas, k + 1, |lineas|);
        return Err(Error(k + 1, v.error));
      }
      cuenta := cuenta + multiset{v.value};
      k := k + 1;
    }
    return Ok(cuenta);
  }

  /** `juzgar_bytes`: one pass that stops at the first bad line and says which. */
  method JuzgarBytes(datos: string) returns (r: Result<Veredicto, Error>)
    ensures r == Juzgar(datos)
  {
    var lineas := Lineas(datos);
    if |lineas| == 0 {
      return Err(Error(0, Vacia));
    }
    var cab := LeeCabecera(lineas[0]);
    if cab.Err? {
      return Err(Error(1, cab.error));
    }
    var (W, H, n) := cab.value;
    if |lineas| - 1 != n {
      return Err(Error(1, Orden));
    }
    var c := JuzgarLineas(Juez(W, H), lineas);
    return if c.Err? then Err(c.error) else Ok(Veredicto(W, H, n, |datos|, c.value));
  }

  /** A judged prefix: every line passed, and the count is the count of their verbs. */
  lemma {:induction false} HastaOk(juez: JuezDeLinea, ls: seq<string>, k: nat, vs: seq<Verbo>)
    requires 1 <= k <= |ls| && |vs| == k - 1
    requires forall i | 1 <= i < k :: juez(ls[i]) == Ok(vs[i - 1])
    ensures JuzgarHasta(juez, ls, k) == Ok(multiset(vs))
  {
    if k > 1 {
      HastaOk(juez, ls, k - 1, vs[..k - 2]);
      assert vs == vs[..k - 2] + [vs[k - 2]];
    }
  }

  lemma {:induction false} HastaTodasOk(juez: JuezDeLinea, ls: seq<string>, k: nat, i: nat)
    requires 1 <= i < k <= |ls| && JuzgarHasta(juez, ls, k).Ok?
    ensures juez(ls[i]).Ok? && |JuzgarHasta(juez, ls, k).value| == k - 1
  {
    if i < k - 1 {
      HastaTodasOk(juez, ls, k - 1, i);
    } else if k > 2 {
      HastaTodasOk(juez, ls, k - 1, k - 2);
    }
  }

  /** What acceptance promises to whoever paints the page: as many lines as announced, one verb
      counted for each, and every line is one element inside the page. */
  lemma AceptadaDentro(datos: string)
    requires Aceptada(datos)
    ensures var ls := Lineas(datos); var v := Juzgar(datos).value;
            && v.n == |ls| - 1 == |v.cuenta| && v.ancho <= ANCHO_MAX && v.alto <= ALTO_MAX
            && forall k | 1 <= k < |ls| ::
                 Lee(QuitaCR(ls[k])).Some? && Bueno(Lee(QuitaCR(ls[k])).value, v.ancho, v.alto)
  {
    var ls := Lineas(datos);
    var v := Juzgar(datos).value;
    forall k | 1 <= k < |ls|
      ensures Lee(QuitaCR(ls[k])).Some? && Bueno(Lee(QuitaCR(ls[k])).value, v.ancho, v.alto)
    {
      HastaTodasOk(Juez(v.ancho, v.alto), ls, |ls|, k);
      JuezExacto(ls[k], v.ancho, v.alto);
    }
    if |ls| > 1 {
      HastaTodasOk(Juez(v.ancho, v.alto), ls, |ls|, 1);
    }
  }

  // -- Printing a whole lamina --------------------------------------------------------------------------

  function ImprimeTodos(els: seq<Elemento>): (ls: seq<string>)
    ensures |ls| == |els|
  {
    if els == [] then [] else [Imprime(els[0])] + ImprimeTodos(els[1..])
  }

  lemma {:induction false} ImprimeTodosEn(els: seq<Elemento>, k: nat)
    requires k < |els|
    ensures ImprimeTodos(els)[k] == Imprime(els[k])
  {
    if k > 0 {
      ImprimeTodosEn(els[1..], k - 1);
    }
  }

  function ImprimeCabecera(W: nat, H: nat, n: nat): string {
    Unir(["LAMINA", Decimal(W), Decimal(H), Decimal(n)], ' ')
  }

  /** The text that `lamina.js` returns: header, lines joined by newlines, final newline. */
  function ImprimeLamina(W: nat, H: nat, ls: seq<string>): string {
    ImprimeCabecera(W, H, |ls|) + "\n" + Unir(ls, '\n') + "\n"
  }

  lemma CabeceraVuelve(W: nat, H: nat, n: nat)
    requires W <= ANCHO_MAX && H <= ALTO_MAX && n <= ELEMENTOS_MAX
    ensures LeeCabecera(ImprimeCabecera(W, H, n)) == Ok((W, H, n))
    ensures '\n' !in ImprimeCabecera(W, H, n)
  {
    var ps := ["LAMINA", Decimal(W), Decimal(H), Decimal(n)];
    ValorDecimal(W); ValorDecimal(H); ValorDecimal(n);
    assert Decimal(n)[|Decimal(n)| - 1] in Decimal(n);
    UltimoDeUnir(ps, ' ');
    PartirUnir(ps, ' ');
    if '\n' in ImprimeCabecera(W, H, n) {
      UnirChars(ps, ' ', '\n');
    }
  }

  /** Lines joined with a newline after each of them split back into the same lines. */
  lemma LineasDeUnidas(ls: seq<string>)
    requires |ls| >= 1 && forall l <- ls :: '\n' !in l
    ensures Lineas(Unir(ls, '\n') + "\n") == ls
  {
    PartirConcat(Unir(ls, '\n'), '\n', "");
    PartirUnir(ls, '\n');
    assert Unir(ls, '\n') + "\n" == Unir(ls, '\n') + ['\n'] + "";
  }

  lemma LineasDeLamina(W: nat, H: nat, ls: seq<string>)
    requires W <= ANCHO_MAX && H <= ALTO_MAX && 1 <= |ls| <= ELEMENTOS_MAX
    requires forall l <- ls :: '\n' !in l
    ensures Lineas(ImprimeLamina(W, H, ls)) == [ImprimeCabecera(W, H, |ls|)] + ls
  {
    CabeceraVuelve(W, H, |ls|);
    var cab := ImprimeCabecera(W, H, |ls|);
    UnirConcat([cab], ls, '\n');
    assert ImprimeLamina(W, H, ls) == Unir([cab] + ls, '\n') + "\n";
    LineasDeUnidas([cab] + ls);
  }

  function VerbosDe(els: seq<Elemento>): (vs: seq<Verbo>)
    ensures |vs| == |els|
    ensures forall k | 0 <= k < |els| :: vs[k] == els[k].VerboDe()
  {
    if els == [] then [] else [els[0].VerboDe()] + VerbosDe(els[1..])
  }

  lemma ImpresosSinSalto(els: seq<Elemento>, W: nat, H: nat)
    requires Buenos(els, W, H)
    ensures forall l <- ImprimeTodos(els) :: '\n' !in l
  {
    forall l | l in ImprimeTodos(els) ensures '\n' !in l {
      var k :| 0 <= k < |els| && ImprimeTodos(els)[k] == l;
      ImprimeTodosEn(els, k);
      ImpresoSinSalto(els[k], W, H);
    }
  }

  predicate Buenos(els: seq<Elemento>, W: nat, H: nat) { forall el <- els :: Bueno(el, W, H) }

  lemma ImpresoAceptadoEn(els: seq<Elemento>, cab: string, i: nat, W: nat, H: nat)
    requires W <= ANCHO_MAX && H <= ALTO_MAX && Buenos(els, W, H) && 1 <= i <= |els|
    ensures Juez(W, H)(([cab] + ImprimeTodos(els))[i]) == Ok(VerbosDe(els)[i - 1])
    ensures |ImprimeTodos(els)[i - 1]| <= LINEA_MAX
  {
    hide JuzgarLinea, Imprime, ImprimeTodos, VerbosDe, Bueno;
    var el := els[i - 1];
    assert el in els;
    ImprimeTodosEn(els, i - 1);
    assert ([cab] + ImprimeTodos(els))[i] == Imprime(el);
    ImpresoAceptado(el, W, H);
    LargoImprime(el, W, H);
  }

  lemma ImpresosAceptados(juez: JuezDeLinea, els: seq<Elemento>, cab: string, W: nat, H: nat)
    requires W <= ANCHO_MAX && H <= ALTO_MAX && Buenos(els, W, H) && juez == Juez(W, H)
    ensures JuzgarHasta(juez, [cab] + ImprimeTodos(els), 1 + |els|) == Ok(multiset(VerbosDe(els)))
    ensures forall i | 0 <= i < |els| :: |ImprimeTodos(els)[i]| <= LINEA_MAX
  {
    var todas := [cab] + ImprimeTodos(els);
    var vs := VerbosDe(els);
    forall i | 1 <= i < |todas| ensures juez(todas[i]) == Ok(vs[i - 1]) {
      ImpresoAceptadoEn(els, cab, i, W, H);
    }
    forall i | 0 <= i < |els| ensures |ImprimeTodos(els)[i]| <= LINEA_MAX {
      ImpresoAceptadoEn(els, cab, i + 1, W, H);
    }
    HastaOk(juez, todas, |todas|, vs);
  }

  /** Printer against judge: a page of good elements is accepted with its own size, its own
      number of lines and one count per element. */
  lemma LaminaAceptada(W: nat, H: nat, els: seq<Elemento>)
    requires W <= ANCHO_MAX && H <= ALTO_MAX && 1 <= |els| <= ELEMENTOS_MAX
    requires Buenos(els, W, H)
    ensures var datos := ImprimeLamina(W, H, ImprimeTodos(els));
            && Juzgar(datos) == Ok(Veredicto(W, H, |els|, |datos|, multiset(VerbosDe(els))))
            && forall l <- Lineas(datos) :: |l| <= LINEA_MAX
  {
    hide ImprimeTodos, VerbosDe, Buenos, JuzgarLinea, ImprimeCabecera, ImprimeLamina, Lineas;
    var ls := ImprimeTodos(els);
    ImpresosSinSalto(els, W, H);
    LineasDeLamina(W, H, ls);
    CabeceraVuelve(W, H, |ls|);
    LargoCabecera(W, H, |ls|);
    ImpresosAceptados(Juez(W, H), els, ImprimeCabecera(W, H, |ls|), W, H);
  }

  lemma LargoCabecera(W: nat, H: nat, n: nat)
    requires W <= ANCHO_MAX && H <= ALTO_MAX && n <= ELEMENTOS_MAX
    ensures |ImprimeCabecera(W, H, n)| <= LINEA_MAX
  {
    hide Decimal, Unir;
    assert Pot10(2) == 100 && Pot10(5) == 100000;
    LargoDecimal(W, 5);
    LargoDecimal(H, 5);
    LargoDecimal(n, 5);
    LargoCuatro(["LAMINA", Decimal(W), Decimal(H), Decimal(n)]);
  }

  lemma LargoCuatro(p: seq<string>)
    requires |p| == 4
    ensures |Unir(p, ' ')| == |p[0]| + |p[1]| + |p[2]| + |p[3]| + 3
  {
    assert p[1..][1..] == p[2..] && p[2..][1..] == p[3..];
    LargoUnir(p, ' ');
    LargoUnir(p[1..], ' ');
    LargoUnir(p[2..], ' ');
  }

  /** A page with no line at all is printed with one blank line, which the header does not
      announce: the judge always refuses it. */
  lemma LaminaVaciaRechazada(W: nat, H: nat)
    requires W <= ANCHO_MAX && H <= ALTO_MAX
    ensures !Aceptada(ImprimeLamina(W, H, []))
  {
    hide ImprimeCabecera, LeeCabecera, Lineas, Unir;
    CabeceraVuelve(W, H, 0);
    var cab := ImprimeCabecera(W, H, 0);
    DosLineas(cab);
    LineasDeUnidas([cab, ""]);
    assert |Lineas(ImprimeLamina(W, H, []))| == 2;
  }

  lemma DosLineas(cab: string)
    ensures Unir([cab, ""], '\n') + "\n" == cab + "\n" + Unir([], '\n') + "\n"
  {
    assert [cab, ""][1..] == [""];
  }
}
