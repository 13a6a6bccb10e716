/** The tokenizers of `ascii_sweep.py` as they run: positions that move over one text, and the sweep
    that rewrites the spans they give. Each is proved against the step functions of `Escaner`. */
module EscanerEnTexto {
  import opened Escaner
  import opened Barrido
  import opened Textos

  // -- Python's find --------------------------------------------------------------------------------

  /** `text.find(q, i)` */
  function Busca(t: string, q: string, i: nat): (r: int)
    requires q != "" && i <= |t|
    ensures r == -1 || i <= r <= |t| - |q|
    decreases |t| - i
  {
    if i + |q| > |t| then -1 else if q <= t[i..] then i else Busca(t, q, i + 1)
  }

  lemma {:induction false} CortoNoTermina(s: string, q: string)
    requires q != "" && |s| < |q|
    ensures LargoHasta(s, q) == |s|
  {
    if s != "" {
      CortoNoTermina(s[1..], q);
    }
  }

  lemma {:induction false} BuscaEsLargo(t: string, q: string, i: nat)
    requires q != "" && i <= |t|
    ensures var r := Busca(t, q, i); i + LargoHasta(t[i..], q) == if r < 0 then |t| else r + |q|
    decreases |t| - i
  {
    if i + |q| > |t| {
      CortoNoTermina(t[i..], q);
    } else if !(q <= t[i..]) {
      assert t[i..][1..] == t[i + 1..];
      BuscaEsLargo(t, q, i + 1);
    }
  }

  lemma {:induction false} BuscaEsSalto(t: string, i: nat)
    requires i <= |t|
    ensures var r := Busca(t, "\n", i); i + HastaSalto(t[i..]) == if r < 0 then |t| else r
    decreases |t| - i
  {
    if i < |t| {
      assert t[i..][1..] == t[i + 1..];
      if t[i] != '\n' {
        BuscaEsSalto(t, i + 1);
      }
    }
  }

  /** `j = text.find(q, i); j = n if j < 0 else j + len(q)` */
  method FinDe(t: string, q: string, i: nat) returns (j: nat)
    requires q != "" && i <= |t|
    ensures j == i + LargoHasta(t[i..], q)
  {
    BuscaEsLargo(t, q, i);
    var r := Busca(t, q, i);
    j := if r < 0 then |t| else r + |q|;
  }

  /** `j = text.find("\n", i); j = n if j < 0 else j` */
  method FinDeLinea(t: string, i: nat) returns (j: nat)
    requires i <= |t|
    ensures j == i + HastaSalto(t[i..])
  {
    BuscaEsSalto(t, i);
    var r := Busca(t, "\n", i);
    j := if r < 0 then |t| else r;
  }

  // -- Rust and C -------------------------------------------------------------------------------------

  lemma NidoPaso(t: string, j: nat, d: nat)
    requires j < |t| && d > 0
    ensures LargoNido(t[j..], d) ==
            if "/*" <= t[j..] then 2 + LargoNido(t[j + 2..], d + 1)
            else if "*/" <= t[j..] then 2 + LargoNido(t[j + 2..], d - 1)
            else 1 + LargoNido(t[j + 1..], d)
  {
    assert t[j..][1..] == t[j + 1..];
    if |t| >= j + 2 {
      assert t[j..][2..] == t[j + 2..];
    }
  }

  lemma NidoFin(s: string, d: nat)
    requires s == "" || d == 0
    ensures LargoNido(s, d) == 0
  {
  }

  method FinDeNido(t: string, i: nat) returns (j: nat)
    requires i <= |t|
    ensures j == i + LargoNido(t[i..], 1)
  {
    hide LargoNido;
    var n := |t|;
    var depth: nat := 1;
    j := i;
    while j < n && depth > 0
      invariant i <= j <= n
      invariant i + LargoNido(t[i..], 1) == j + LargoNido(t[j..], depth)
    {
      NidoPaso(t, j, depth);
      if "/*" <= t[j..] {
        depth := depth + 1;
        j := j + 2;
      } else if "*/" <= t[j..] {
        depth := depth - 1;
        j := j + 2;
      } else {
        j := j + 1;
      }
    }
    NidoFin(t[j..], depth);
  }

  lemma CrudaEn(t: string, i: nat, j: nat, k: nat)
    requires i < |t| && EsRB(t[i]) && j == i + LargoRB(t[i..]) && k == j + LargoAlmohadillas(t[j..])
    ensures EsCruda(t[i..]) <==> k < |t| && t[k] == '"'
    ensures EsCruda(t[i..]) ==> LargoCruda(t[i..]) == k - i + 1 + LargoHasta(t[k + 1..], "\"" + Almohadillas(k - j))
  {
    hide LargoHasta, Almohadillas, LargoRB, LargoAlmohadillas;
    var s := t[i..];
    assert s[j - i..] == t[j..];
    if k < |t| {
      assert s[k - i + 1..] == t[k + 1..] && s[k - i] == t[k];
    }
  }

  /** The end of a raw string that starts at `i`, or nothing. */
  method FinDeCruda(t: string, i: nat) returns (esCruda: bool, fin: nat)
    requires i < |t| && EsRB(t[i])
    ensures esCruda == EsCruda(t[i..]) && (esCruda ==> fin == i + LargoCruda(t[i..]))
  {
    hide LargoHasta, Almohadillas, EsCruda, LargoCruda;
    var n := |t|;
    var j := i;
    while j < n && EsRB(t[j])
      invariant i <= j <= n
      invariant i + LargoRB(t[i..]) == j + LargoRB(t[j..])
    {
      assert t[j..][1..] == t[j + 1..];
      j := j + 1;
    }
    var hashes, k := 0, j;
    while k < n && t[k] == '#'
      invariant j <= k <= n && hashes == k - j
      invariant j + LargoAlmohadillas(t[j..]) == k + LargoAlmohadillas(t[k..])
    {
      assert t[k..][1..] == t[k + 1..];
      hashes := hashes + 1;
      k := k + 1;
    }
    CrudaEn(t, i, j, k);
    if k < n && t[k] == '"' && j > i {
      fin := FinDe(t, "\"" + Almohadillas(hashes), k + 1);
      return true, fin;
    }
    return false, i;
  }

  /** A string literal: the position may pass the end of the text by one. */
  method FinDeCadena(t: string, i: nat) returns (j: nat)
    requires i <= |t|
    ensures i <= j <= |t| + 1 && (if j > |t| then |t| else j) == i + LargoCadena(t[i..])
  {
    var n := |t|;
    j := i;
    while j < n
      invariant i <= j <= n + 1
      invariant i + LargoCadena(t[i..]) == if j > n then n else j + LargoCadena(t[j..])
    {
      assert t[j..][1..] == t[j + 1..];
      if t[j] == '\\' {
        if j + 2 <= n {
          assert t[j..][2..] == t[j + 2..];
        }
        j := j + 2;
        continue;
      }
      if t[j] == '"' {
        j := j + 1;
        return;
      }
      j := j + 1;
    }
  }

  /** What a single quote opens: an escaped literal, a character, or a lifetime. */
  method FinDeTick(t: string, i: nat, letra: char -> bool) returns (j: nat)
    requires i < |t|
    ensures j == i + LargoTick(t[i..], letra)
  {
    var n, s := |t|, t[i..];
    if i + 1 < n && t[i + 1] == '\\' {
      assert s[2..] == t[i + 2..];
      j := FinDe(t, "'", i + 2);
      return;
    }
    if i + 2 < n && t[i + 2] == '\'' {
      return i + 3;
    }
    assert s[1..] == t[i + 1..];
    var k := i + 1;
    while k < n && EsIdent(t[k], letra)
      invariant i + 1 <= k <= n
      invariant i + 1 + LargoIdent(t[i + 1..], letra) == k + LargoIdent(t[k..], letra)
    {
      assert t[k..][1..] == t[k + 1..];
      k := k + 1;
    }
    return k;
  }

  /** One turn of the loop of `scan` for Rust and C. */
  method TramoRustC(t: string, i: nat, rust: bool, letra: char -> bool) returns (clase: Clase, j: nat)
    requires i < |t|
    ensures i < j <= |t| + 1
    ensures Token(clase, (if j > |t| then |t| else j) - i) == PasoRustC(t[i..], rust, letra)
  {
    hide LargoNido, LargoHasta, LargoCadena, LargoTick, HastaSalto, LargoCruda;
    var n, s := |t|, t[i..];
    var c := t[i];
    if c == '/' && i + 1 < n && t[i + 1] == '/' {
      j := FinDeLinea(t, i);
      assert t[i + 1] != '\n' && "//" <= s;
      LineaAlMenosUno(s);
      return Comentario, j;
    }
    assert !("//" <= s);
    if c == '/' && i + 1 < n && t[i + 1] == '*' {
      assert s[2..] == t[i + 2..] && "/*" <= s;
      if rust {
        j := FinDeNido(t, i + 2);
      } else {
        j := FinDe(t, "*/", i + 2);
      }
      return Comentario, j;
    }
    assert !("/*" <= s);
    if rust && EsRB(c) {
      var esCruda, fin := FinDeCruda(t, i);
      if esCruda {
        return Otro, fin;
      }
    }
    assert s[1..] == t[i + 1..];
    if c == '"' {
      j := FinDeCadena(t, i + 1);
      return Otro, j;
    }
    if c == '\'' {
      j := FinDeTick(t, i, letra);
      return Otro, j;
    }
    j := i;
    while j < n && !EsEspecial(t[j])
      invariant i <= j <= n
      invariant i + LargoLlano(s) == j + LargoLlano(t[j..])
    {
      assert t[j..][1..] == t[j + 1..];
      j := j + 1;
    }
    if j == i {
      j := i + 1;
    }
    return Otro, j;
  }

  lemma LineaAlMenosUno(s: string)
    requires s != "" && s[0] != '\n'
    ensures HastaSalto(s) >= 1
  {
  }

  // -- TOML, Ada, PowerShell --------------------------------------------------------------------------------

  /** The quotes of TOML, longest first. */
  const COMILLAS := ["\"\"\"", "'''", "\"", "'"]

  /** One turn of `scan_line_comment` with the marks of TOML. */
  method TramoToml(t: string, i: nat) returns (clase: Clase, j: nat)
    requires i < |t|
    ensures i < j <= |t| && Token(clase, j - i) == PasoToml(t[i..])
  {
    hide LargoHasta, HastaSalto;
    var s := t[i..];
    var k := 0;
    while k < |COMILLAS|
      invariant 0 <= k <= |COMILLAS|
      invariant forall m | 0 <= m < k :: !(COMILLAS[m] <= s)
    {
      var q := COMILLAS[k];
      if q <= s {
        assert s[|q|..] == t[i + |q|..];
        j := FinDe(t, q, i + |q|);
        if |q| == 1 {
          var nl := Busca(t, "\n", i);
          BuscaEsSalto(t, i);
          LineaAlMenosUno(s);
          if 0 <= nl < j {
            j := nl;
          }
        }
        assert !(COMILLAS[0] <= s) || k == 0;
        assert !(COMILLAS[1] <= s) || k <= 1;
        assert !(COMILLAS[2] <= s) || k <= 2;
        return Otro, j;
      }
      k := k + 1;
    }
    assert !(COMILLAS[0] <= s) && !(COMILLAS[1] <= s) && !(COMILLAS[2] <= s) && !(COMILLAS[3] <= s);
    if "#" <= s {
      LineaAlMenosUno(s);
      j := FinDeLinea(t, i);
      return Comentario, j;
    }
    return Otro, i + 1;
  }

  /** One turn of `scan_ada`. */
  method TramoAda(t: string, i: nat) returns (clase: Clase, j: nat)
    requires i < |t|
    ensures i < j <= |t| && Token(clase, j - i) == PasoAda(t[i..])
  {
    hide LargoHasta, HastaSalto;
    var n, s := |t|, t[i..];
    if "--" <= s {
      LineaAlMenosUno(s);
      j := FinDeLinea(t, i);
      return Comentario, j;
    }
    if t[i] == '"' {
      assert s[1..] == t[i + 1..] && "\"" <= s;
      j := FinDe(t, "\"", i + 1);
      var nl := Busca(t, "\n", i);
      BuscaEsSalto(t, i);
      LineaAlMenosUno(s);
      if 0 <= nl < j {
        j := nl;
      }
      return Otro, j;
    }
    if t[i] == '\'' && i + 2 < n && t[i + 2] == '\'' {
      return Otro, i + 3;
    }
    return Otro, i + 1;
  }

  /** A PowerShell string: a backtick takes the next character between double quotes. */
  method FinDePs(t: string, i: nat, q: char) returns (r: nat)
    requires i <= |t|
    ensures r == i + LargoPs(t[i..], q)
  {
    var n := |t|;
    var j := i;
    while j < n && t[j] != q && t[j] != '\n'
      invariant i <= j <= n + 1
      invariant i + LargoPs(t[i..], q) == if j > n then n else j + LargoPs(t[j..], q)
    {
      assert t[j..][1..] == t[j + 1..];
      if q == '"' && t[j] == '`' {
        if j + 2 <= n {
          assert t[j..][2..] == t[j + 2..];
        }
        j := j + 1;
      }
      j := j + 1;
    }
    r := if j + 1 < n then j + 1 else n;
  }

  /** One turn of `scan_powershell`. */
  method TramoPowershell(t: string, i: nat) returns (clase: Clase, j: nat)
    requires i < |t|
    ensures i < j <= |t| && Token(clase, j - i) == PasoPowershell(t[i..])
  {
    hide LargoHasta, HastaSalto, LargoPs;
    var s := t[i..];
    if "<#" <= s {
      assert s[2..] == t[i + 2..];
      j := FinDe(t, "#>", i + 2);
      return Comentario, j;
    }
    if "@\"" <= s || "@'" <= s {
      assert s[2..] == t[i + 2..];
      var close := if t[i + 1] == '"' then "\"@" else "'@";
      j := FinDe(t, close, i + 2);
      return Otro, j;
    }
    if t[i] == '"' || t[i] == '\'' {
      assert s[1..] == t[i + 1..];
      j := FinDePs(t, i + 1, t[i]);
      return Otro, j;
    }
    if t[i] == '#' {
      LineaAlMenosUno(s);
      j := FinDeLinea(t, i);
      return Comentario, j;
    }
    return Otro, i + 1;
  }

  // -- The spans of a whole text ------------------------------------------------------------------------------

  /** `(kind, start, end)` as `scan` yields it; the end may be one past the text. */
  datatype Tramo = Tramo(clase: Clase, ini: nat, fin: nat)

  /** Python's `text[a:b]`, which clips. */
  function Corta(t: string, a: nat, b: nat): string
    requires a <= b
  {
    var hi := if b > |t| then |t| else b;
    if a >= hi then "" else t[a..hi]
  }

  /** The spans start at `desde`, each one where the one before ended, end at `hasta`, and hold `ts`. */
  predicate Cubren(t: string, spans: seq<Tramo>, ts: seq<Trozo>, desde: nat, hasta: nat) {
    |spans| == |ts| &&
    if spans == [] then desde == hasta
    else
      var u, x := spans[|spans| - 1], ts[|ts| - 1];
      && u.ini <= u.fin == hasta && u.clase == x.clase && Corta(t, u.ini, u.fin) == x.texto
      && Cubren(t, spans[..|spans| - 1], ts[..|ts| - 1], desde, u.ini)
  }

  lemma CubrenMas(t: string, spans: seq<Tramo>, ts: seq<Trozo>, desde: nat, hasta: nat, u: Tramo)
    requires Cubren(t, spans, ts, desde, hasta) && u.ini == hasta <= u.fin
    ensures Cubren(t, spans + [u], ts + [Trozo(u.clase, Corta(t, u.ini, u.fin))], desde, u.fin)
  {
    var x := Trozo(u.clase, Corta(t, u.ini, u.fin));
    assert (spans + [u])[..|spans|] == spans && (ts + [x])[..|ts|] == ts;
  }

  lemma CubrenNada(t: string)
    ensures Cubren(t, [], [], 0, 0)
  {
  }

  /** The text from `i` on; a position past the end leaves nothing. */
  function Resto(t: string, i: nat): string { if i > |t| then "" else t[i..] }

  lemma TrozosPaso(l: Lengua, t: string, i: nat, clase: Clase, j: nat)
    requires !l.Cobol? && i < |t| && i < j
    requires Token(clase, (if j > |t| then |t| else j) - i) == Paso(l, t[i..])
    ensures Trozos(l, Resto(t, i)) == [Trozo(clase, Corta(t, i, j))] + Trozos(l, Resto(t, j))
  {
    hide Paso;
    var tope := if j > |t| then |t| else j;
    assert t[i..][..tope - i] == Corta(t, i, j) && t[i..][tope - i..] == t[tope..] == Resto(t, j);
  }

  /** One turn of the loop of every tokenizer. */
  method UnTramo(t: string, i: nat, l: Lengua) returns (clase: Clase, j: nat)
    requires i < |t| && !l.Cobol?
    ensures i < j <= |t| + 1 && Token(clase, (if j > |t| then |t| else j) - i) == Paso(l, t[i..])
  {
    hide PasoRustC, PasoToml, PasoAda, PasoPowershell;
    match l {
      case Rust(f) => clase, j := TramoRustC(t, i, true, f);
      case C(f) => clase, j := TramoRustC(t, i, false, f);
      case Toml => clase, j := TramoToml(t, i);
      case Ada => clase, j := TramoAda(t, i);
      case Powershell => clase, j := TramoPowershell(t, i);
    }
  }

  /** Every span holds something. */
  predicate Avanzan(spans: seq<Tramo>) { forall u <- spans :: u.ini < u.fin }

  lemma AvanzaUno(spans: seq<Tramo>, u: Tramo)
    ensures Avanzan([])
    ensures Avanzan(spans) && u.ini < u.fin ==> Avanzan(spans + [u])
  {
  }

  /** `scan` for the languages that are not COBOL: every span advances, each starts where the one
      before ended, and together they are the spans of `Trozos`. */
  method Escanea(t: string, l: Lengua) returns (spans: seq<Tramo>, fin: nat)
    requires !l.Cobol?
    ensures Avanzan(spans)
    ensures |t| <= fin <= |t| + 1 && Cubren(t, spans, Trozos(l, t), 0, fin)
  {
    hide Paso, Cubren, Corta, Trozos, Avanzan;
    AvanzaUno([], Tramo(Otro, 0, 1));
    TrozosNada(l);
    spans := [];
    var i := 0;
    ghost var hechos: seq<Trozo> := [];
    CubrenNada(t);
    assert Resto(t, 0) == t;
    while i < |t|
      invariant 0 <= i <= |t| + 1
      invariant Cubren(t, spans, hechos, 0, i)
      invariant Trozos(l, t) == hechos + Trozos(l, Resto(t, i))
      invariant Avanzan(spans)
      decreases |t| + 1 - i
    {
      var clase, j := UnTramo(t, i, l);
      AvanzaUno(spans, Tramo(clase, i, j));
      CubrenMas(t, spans, hechos, 0, i, Tramo(clase, i, j));
      TrozosPaso(l, t, i, clase, j);
      hechos := hechos + [Trozo(clase, Corta(t, i, j))];
      spans := spans + [Tramo(clase, i, j)];
      i := j;
    }
    assert Resto(t, i) == "" && hechos + [] == hechos;
    fin := i;
  }

  // -- COBOL ------------------------------------------------------------------------------------------------------

  /** `text.splitlines(keepends=True)` */
  function LineasDe(s: string): seq<string>
    decreases |s|
  {
    if s == "" then [] else [s[..LargoLinea(s)]] + LineasDe(s[LargoLinea(s)..])
  }

  /** The spans of one line of `scan_cobol`, which starts at `i`. */
  function TramosLinea(linea: string, i: nat): seq<Tramo> {
    var eol := |SinFin(linea)|;
    var stripped := linea[..eol];
    (if |stripped| > 6 && (stripped[6] == '*' || stripped[6] == '/') then [Tramo(Comentario, i, i + eol)]
     else if Contiene(stripped, "*>") then
       var k := Indice(stripped, "*>");
       [Tramo(Otro, i, i + k), Tramo(Comentario, i + k, i + eol)]
     else [Tramo(Otro, i, i + eol)])
    + if eol < |linea| then [Tramo(Otro, i + eol, i + |linea|)] else []
  }

  lemma CortaEn(t: string, i: nat, linea: string, a: nat, b: nat)
    requires i + |linea| <= |t| && t[i..i + |linea|] == linea && a <= b <= |linea|
    ensures Corta(t, i + a, i + b) == linea[a..b]
  {
    assert forall k | 0 <= k < |linea| :: linea[k] == t[i..i + |linea|][k] == t[i + k];
    assert linea[a..b] == t[i + a..i + b];
  }

  lemma CubrenLinea(t: string, spans: seq<Tramo>, ts: seq<Trozo>, linea: string, i: nat)
    requires Cubren(t, spans, ts, 0, i) && i + |linea| <= |t| && t[i..i + |linea|] == linea
    ensures Cubren(t, spans + TramosLinea(linea, i), ts + TrozosLinea(linea), 0, i + |linea|)
  {
    hide Cubren, Corta, Contiene, Indice, SinFin;
    var eol, n := |SinFin(linea)|, |linea|;
    var cuerpo := linea[..eol];
    var medio, mts;
    if |cuerpo| > 6 && (cuerpo[6] == '*' || cuerpo[6] == '/') {
      CubrenTrozo(t, spans, ts, linea, i, 0, eol, Comentario);
      medio, mts := spans + [Tramo(Comentario, i, i + eol)], ts + [Trozo(Comentario, linea[0..eol])];
    } else if Contiene(cuerpo, "*>") {
      var k := Indice(cuerpo, "*>");
      CubrenTrozo(t, spans, ts, linea, i, 0, k, Otro);
      var s1, t1 := spans + [Tramo(Otro, i, i + k)], ts + [Trozo(Otro, linea[0..k])];
      CubrenTrozo(t, s1, t1, linea, i, k, eol, Comentario);
      medio, mts := s1 + [Tramo(Comentario, i + k, i + eol)], t1 + [Trozo(Comentario, linea[k..eol])];
      assert cuerpo[..k] == linea[0..k] && cuerpo[k..] == linea[k..eol];
      assert medio == spans + [Tramo(Otro, i, i + k), Tramo(Comentario, i + k, i + eol)];
      assert mts == ts + [Trozo(Otro, cuerpo[..k]), Trozo(Comentario, cuerpo[k..])];
    } else {
      CubrenTrozo(t, spans, ts, linea, i, 0, eol, Otro);
      medio, mts := spans + [Tramo(Otro, i, i + eol)], ts + [Trozo(Otro, linea[0..eol])];
    }
    assert linea[0..eol] == cuerpo;
    if eol < n {
      CubrenTrozo(t, medio, mts, linea, i, eol, n, Otro);
      assert linea[eol..n] == linea[eol..];
      assert medio + [Tramo(Otro, i + eol, i + n)] == spans + TramosLinea(linea, i);
      assert mts + [Trozo(Otro, linea[eol..])] == ts + TrozosLinea(linea);
    } else {
      assert medio == spans + TramosLinea(linea, i) && mts == ts + TrozosLinea(linea);
    }
  }

  lemma CubrenTrozo(t: string, spans: seq<Tramo>, ts: seq<Trozo>, linea: string, i: nat, a: nat, b: nat, clase: Clase)
    requires i + |linea| <= |t| && t[i..i + |linea|] == linea && a <= b <= |linea|
    requires Cubren(t, spans, ts, 0, i + a)
    ensures Cubren(t, spans + [Tramo(clase, i + a, i + b)], ts + [Trozo(clase, linea[a..b])], 0, i + b)
  {
    hide Cubren;
    CortaEn(t, i, linea, a, b);
    CubrenMas(t, spans, ts, 0, i + a, Tramo(clase, i + a, i + b));
  }

  lemma TrozosCobol(t: string)
    requires t != ""
    ensures Trozos(Cobol, t) == TrozosLinea(t[..LargoLinea(t)]) + Trozos(Cobol, t[LargoLinea(t)..])
  {
  }

  /** `scan_cobol`. */
  method EscaneaCobol(t: string) returns (spans: seq<Tramo>)
    ensures Cubren(t, spans, Trozos(Cobol, t), 0, |t|)
  {
    hide Cubren, Trozos, TrozosLinea, TramosLinea, LargoLinea;
    spans := [];
    var i := 0;
    ghost var hechos: seq<Trozo> := [];
    CubrenNada(t);
    TrozosNada(Cobol);
    assert t[0..] == t;
    var lineas := LineasDe(t);
    var m := 0;
    while m < |lineas|
      invariant 0 <= m <= |lineas| && 0 <= i <= |t|
      invariant lineas[m..] == LineasDe(t[i..])
      invariant Cubren(t, spans, hechos, 0, i)
      invariant Trozos(Cobol, t) == hechos + Trozos(Cobol, t[i..])
    {
      var linea := lineas[m];
      ghost var n := LargoLinea(t[i..]);
      assert lineas[m..][0] == linea && lineas[m..][1..] == lineas[m + 1..];
      assert linea == t[i..][..n] == t[i..i + n] && t[i..][n..] == t[i + n..];
      TrozosCobol(t[i..]);
      CubrenLinea(t, spans, hechos, linea, i);
      hechos := hechos + TrozosLinea(linea);
      spans := spans + TramosLinea(linea, i);
      i := i + |linea|;
      m := m + 1;
    }
    assert LineasDe(t[i..]) == [];
    assert i == |t| && t[i..] == "" && hechos + [] == hechos;
  }

  lemma TrozosNada(l: Lengua)
    ensures Trozos(l, "") == []
  {
  }

  // -- The sweep over the spans --------------------------------------------------------------------------------------

  /** The characters with no rule, as `unknown` counts them. */
  function Cuenta(r: Reglas, s: string): multiset<char> {
    if s == "" then multiset{}
    else (if Desconocida(r, s[0]) then multiset{s[0]} else multiset{}) + Cuenta(r, s[1..])
  }

  function CuentaDe(r: Reglas, ts: seq<Trozo>): multiset<char> {
    if ts == [] then multiset{}
    else
      var u := ts[|ts| - 1];
      CuentaDe(r, ts[..|ts| - 1]) + if u.clase == Comentario then Cuenta(r, Repara(r, u.texto)) else multiset{}
  }

  /** `transliterate`, which also counts what it had to leave. */
  method Transliterar(r: Reglas, s: string, unknown: multiset<char>) returns (out: string, unknown': multiset<char>)
    ensures out == Translitera(r, s) && unknown' == unknown + Cuenta(r, s)
  {
    hide Translitera, Cuenta;
    out, unknown' := "", unknown;
    var i := 0;
    assert s[0..] == s;
    while i < |s|
      invariant 0 <= i <= |s|
      invariant out + Translitera(r, s[i..]) == Translitera(r, s)
      invariant unknown' + Cuenta(r, s[i..]) == unknown + Cuenta(r, s)
    {
      var ch := s[i];
      UnaLetra(r, s, i, out);
      if EsAscii(ch) {
        out := out + [ch];
      } else if ch in r.tabla {
        out := out + r.tabla[ch];
      } else {
        unknown' := unknown' + multiset{ch};
        out := out + [ch];
      }
      i := i + 1;
    }
    assert s[i..] == "";
    NingunaLetra(r, out);
  }

  lemma UnaLetra(r: Reglas, s: string, i: nat, out: string)
    requires i < |s|
    ensures out + Translitera(r, s[i..]) == (out + Cambia(r, s[i])) + Translitera(r, s[i + 1..])
    ensures Cuenta(r, s[i..]) == (if Desconocida(r, s[i]) then multiset{s[i]} else multiset{}) + Cuenta(r, s[i + 1..])
  {
    hide Cambia;
    assert s[i..][0] == s[i] && s[i..][1..] == s[i + 1..];
    assert out + (Cambia(r, s[i]) + Translitera(r, s[i + 1..])) == (out + Cambia(r, s[i])) + Translitera(r, s[i + 1..]);
  }

  lemma NingunaLetra(r: Reglas, out: string)
    ensures out + Translitera(r, "") == out && Cuenta(r, "") == multiset{}
  {
  }

  lemma PegaMas(ts: seq<Trozo>, u: Trozo)
    ensures Pega(ts + [u]) == Pega(ts) + u.texto
  {
    PegaConcat(ts, [u]);
    assert Pega([u]) == u.texto + Pega([u][1..]) == u.texto;
  }

  lemma {:induction false} BarridosMas(r: Reglas, ts: seq<Trozo>, u: Trozo)
    ensures Barridos(r, ts + [u]) == Barridos(r, ts) + [BarreTrozo(r, u)]
  {
    if ts == [] {
      assert ts + [u] == [u] && [u][1..] == [];
    } else {
      assert (ts + [u])[1..] == ts[1..] + [u];
      BarridosMas(r, ts[1..], u);
    }
  }

  lemma {:induction false} CubrenEn(t: string, spans: seq<Tramo>, ts: seq<Trozo>, desde: nat, hasta: nat, k: nat)
    requires Cubren(t, spans, ts, desde, hasta) && k < |spans|
    ensures spans[k].ini <= spans[k].fin && spans[k].clase == ts[k].clase
    ensures Corta(t, spans[k].ini, spans[k].fin) == ts[k].texto
  {
    if k < |spans| - 1 {
      CubrenEn(t, spans[..|spans| - 1], ts[..|ts| - 1], desde, spans[|spans| - 1].ini, k);
    }
  }

  /** `sweep_text` without string rewriting, for any spans that cover the text. */
  method BarreTexto(l: Lengua, r: Reglas, t: string, unknown: multiset<char>)
    returns (out: string, unknown': multiset<char>)
    ensures out == Barre(l, r, t) && unknown' == unknown + CuentaDe(r, Trozos(l, t))
  {
    hide Cubren, Corta, Trozos, Pega, Barridos, Cuenta, Translitera, Repara;
    var spans;
    var fin := |t|;
    if l.Cobol? {
      spans := EscaneaCobol(t);
    } else {
      spans, fin := Escanea(t, l);
    }
    ghost var ts := Trozos(l, t);
    assert |spans| == |ts| by { MismoNumero(t, spans, ts, fin); }
    out, unknown' := "", unknown;
    NadaBarrido(r);
    var k := 0;
    while k < |spans|
      invariant 0 <= k <= |spans| == |ts|
      invariant out == Pega(Barridos(r, ts[..k]))
      invariant unknown' == unknown + CuentaDe(r, ts[..k])
    {
      CubrenEn(t, spans, ts, 0, fin, k);
      assert ts[..k + 1] == ts[..k] + [ts[k]] && ts[..k + 1][..k] == ts[..k];
      BarridosMas(r, ts[..k], ts[k]);
      PegaMas(Barridos(r, ts[..k]), BarreTrozo(r, ts[k]));
      var chunk := Corta(t, spans[k].ini, spans[k].fin);
      if spans[k].clase == Comentario {
        chunk, unknown' := Transliterar(r, Repara(r, chunk), unknown');
      }
      out := out + chunk;
      k := k + 1;
    }
    assert ts[..k] == ts;
  }

  lemma MismoNumero(t: string, spans: seq<Tramo>, ts: seq<Trozo>, fin: nat)
    requires Cubren(t, spans, ts, 0, fin)
    ensures |spans| == |ts|
  {
  }

  lemma NadaBarrido(r: Reglas)
    ensures Pega(Barridos(r, [])) == "" && CuentaDe(r, []) == multiset{}
  {
  }

  lemma {:induction false} CuentaCero(r: Reglas, s: string)
    ensures Cuenta(r, s) == multiset{} <==> forall c <- s :: !Desconocida(r, c)
  {
    if s != "" {
      CuentaCero(r, s[1..]);
      assert s == [s[0]] + s[1..];
      if Desconocida(r, s[0]) {
        assert Cuenta(r, s)[s[0]] >= 1;
      }
    }
  }

  /** Nothing was counted exactly when every comment had a rule for each of its characters. */
  lemma {:induction false} NadaDesconocido(r: Reglas, ts: seq<Trozo>)
    ensures CuentaDe(r, ts) == multiset{} <==> TodasConocidas(r, ts)
  {
    hide Cuenta, Repara;
    if ts != [] {
      var u := ts[|ts| - 1];
      NadaDesconocido(r, ts[..|ts| - 1]);
      CuentaCero(r, Repara(r, u.texto));
      assert ts == ts[..|ts| - 1] + [u];
    }
  }
}
