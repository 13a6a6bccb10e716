/** The tokenizers of `ascii_sweep.py`. They answer one question per character: is this a comment?
    Every tokenizer reads forward only, so each step is a function of the text that is left. */
module Escaner {
  import opened Textos

  datatype Clase = Comentario | Otro

  /** `letra` says which characters outside ASCII Python's `isalnum` takes. */
  datatype Lengua = Rust(letra: char -> bool) | C(letra: char -> bool) | Toml | Ada | Powershell | Cobol

  /** One span: its kind and how much of the remaining text it takes. */
  datatype Token = Token(clase: Clase, largo: nat)

  datatype Trozo = Trozo(clase: Clase, texto: string)

  // -- Measures on the text that is left -------------------------------------------------------

  /** What is left of the line. */
  function HastaSalto(s: string): (n: nat)
    ensures n <= |s| && '\n' !in s[..n] && (n < |s| ==> s[n] == '\n')
  {
    if s == "" || s[0] == '\n' then 0 else 1 + HastaSalto(s[1..])
  }

  /** Up to and including the first `q`, or everything. */
  function LargoHasta(s: string, q: string): (n: nat)
    requires q != ""
    ensures n <= |s|
  {
    if s == "" then 0 else if q <= s then |q| else 1 + LargoHasta(s[1..], q)
  }

  /** A Rust block comment nests: what is left of it at depth `d`. */
  function LargoNido(s: string, d: nat): (n: nat)
    ensures n <= |s|
  {
    if s == "" || d == 0 then 0
    else if "/*" <= s then 2 + LargoNido(s[2..], d + 1)
    else if "*/" <= s then 2 + LargoNido(s[2..], d - 1)
    else 1 + LargoNido(s[1..], d)
  }

  /** What is left of a string literal after its opening quote; a backslash takes the next character. */
  function LargoCadena(s: string): (n: nat)
    ensures n <= |s|
  {
    if s == "" then 0
    else if s[0] == '\\' then (if |s| == 1 then 1 else 2 + LargoCadena(s[2..]))
    else if s[0] == '"' then 1
    else 1 + LargoCadena(s[1..])
  }

  predicate EsRB(c: char) { c == 'r' || c == 'b' }

  function LargoRB(s: string): (n: nat)
    ensures n <= |s|
  {
    if s != "" && EsRB(s[0]) then 1 + LargoRB(s[1..]) else 0
  }

  function LargoAlmohadillas(s: string): (n: nat)
    ensures n <= |s|
  {
    if s != "" && s[0] == '#' then 1 + LargoAlmohadillas(s[1..]) else 0
  }

  function Almohadillas(n: nat): (h: string)
    ensures |h| == n
  {
    if n == 0 then "" else "#" + Almohadillas(n - 1)
  }

  predicate EsIdent(c: char, letra: char -> bool) {
    'a' <= c <= 'z' || 'A' <= c <= 'Z' || '0' <= c <= '9' || c == '_' || (c as int >= 128 && letra(c))
  }

  function LargoIdent(s: string, letra: char -> bool): (n: nat)
    ensures n <= |s|
  {
    if s != "" && EsIdent(s[0], letra) then 1 + LargoIdent(s[1..], letra) else 0
  }

  /** A character that may start something other than plain code. */
  predicate EsEspecial(c: char) { c == '/' || c == '"' || c == '\'' || EsRB(c) }

  function LargoLlano(s: string): (n: nat)
    ensures n <= |s|
  {
    if s != "" && !EsEspecial(s[0]) then 1 + LargoLlano(s[1..]) else 0
  }

  /** What is left of a PowerShell string: it stops at its quote or at the end of the line. */
  function LargoPs(s: string, q: char): (n: nat)
    ensures n <= |s|
  {
    if s == "" then 0
    else if s[0] == q || s[0] == '\n' then 1
    else if q == '"' && s[0] == '`' then (if |s| == 1 then 1 else 2 + LargoPs(s[2..], q))
    else 1 + LargoPs(s[1..], q)
  }

  // -- One step of each tokenizer ---------------------------------------------------------------

  /** Where the quote of a raw string would be. */
  function SitioComilla(s: string): (k: nat)
    ensures k <= |s|
  {
    LargoRB(s) + LargoAlmohadillas(s[LargoRB(s)..])
  }

  predicate EsCruda(s: string) {
    s != "" && EsRB(s[0]) && SitioComilla(s) < |s| && s[SitioComilla(s)] == '"'
  }

  function LargoCruda(s: string): (n: nat)
    requires EsCruda(s)
    ensures 1 <= n <= |s|
  {
    var k := SitioComilla(s);
    k + 1 + LargoHasta(s[k + 1..], "\"" + Almohadillas(LargoAlmohadillas(s[LargoRB(s)..])))
  }

  function LargoTick(s: string, letra: char -> bool): (n: nat)
    requires s != ""
    ensures 1 <= n <= |s|
  {
    if |s| >= 2 && s[1] == '\\' then 2 + LargoHasta(s[2..], "'")
    else if |s| >= 3 && s[2] == '\'' then 3
    else 1 + LargoIdent(s[1..], letra)
  }

  function PasoRustC(s: string, rust: bool, letra: char -> bool): (t: Token)
    requires s != ""
    ensures 1 <= t.largo <= |s|
  {
    if "//" <= s then Token(Comentario, HastaSalto(s))
    else if "/*" <= s then
      Token(Comentario, 2 + if rust then LargoNido(s[2..], 1) else LargoHasta(s[2..], "*/"))
    else if rust && EsCruda(s) then Token(Otro, LargoCruda(s))
    else if s[0] == '"' then Token(Otro, 1 + LargoCadena(s[1..]))
    else if s[0] == '\'' then Token(Otro, LargoTick(s, letra))
    else Token(Otro, if LargoLlano(s) == 0 then 1 else LargoLlano(s))
  }

  /** A quoted string that never passes the end of its line. */
  function LargoEnLinea(s: string, q: string): (n: nat)
    requires s != "" && |q| == 1 && q <= s && q != "\n"
    ensures 1 <= n <= |s|
  {
    var fin := 1 + LargoHasta(s[1..], q);
    if HastaSalto(s) < fin then HastaSalto(s) else fin
  }

  function PasoToml(s: string): (t: Token)
    requires s != ""
    ensures 1 <= t.largo <= |s|
  {
    if "\"\"\"" <= s then Token(Otro, 3 + LargoHasta(s[3..], "\"\"\""))
    else if "'''" <= s then Token(Otro, 3 + LargoHasta(s[3..], "'''"))
    else if "\"" <= s then Token(Otro, LargoEnLinea(s, "\""))
    else if "'" <= s then Token(Otro, LargoEnLinea(s, "'"))
    else if "#" <= s then Token(Comentario, HastaSalto(s))
    else Token(Otro, 1)
  }

  function PasoAda(s: string): (t: Token)
    requires s != ""
    ensures 1 <= t.largo <= |s|
  {
    if "--" <= s then Token(Comentario, HastaSalto(s))
    else if "\"" <= s then Token(Otro, LargoEnLinea(s, "\""))
    else if s[0] == '\'' && |s| >= 3 && s[2] == '\'' then Token(Otro, 3)
    else Token(Otro, 1)
  }

  function PasoPowershell(s: string): (t: Token)
    requires s != ""
    ensures 1 <= t.largo <= |s|
  {
    if "<#" <= s then Token(Comentario, 2 + LargoHasta(s[2..], "#>"))
    else if "@\"" <= s then Token(Otro, 2 + LargoHasta(s[2..], "\"@"))
    else if "@'" <= s then Token(Otro, 2 + LargoHasta(s[2..], "'@"))
    else if s[0] == '"' || s[0] == '\'' then Token(Otro, 1 + LargoPs(s[1..], s[0]))
    else if s[0] == '#' then Token(Comentario, HastaSalto(s))
    else Token(Otro, 1)
  }

  function Paso(l: Lengua, s: string): (t: Token)
    requires s != "" && !l.Cobol?
    ensures 1 <= t.largo <= |s|
  {
    match l
    case Rust(f) => PasoRustC(s, true, f)
    case C(f) => PasoRustC(s, false, f)
    case Toml => PasoToml(s)
    case Ada => PasoAda(s)
    case Powershell => PasoPowershell(s)
  }

  // -- COBOL: column 7 decides -------------------------------------------------------------------

  /** The line boundaries of Python's `splitlines`. */
  predicate EsFinDeLinea(c: char) {
    var n := c as int;
    0x0A <= n <= 0x0D || 0x1C <= n <= 0x1E || n == 0x85 || n == 0x2028 || n == 0x2029
  }

  function LargoLinea(s: string): (n: nat)
    requires s != ""
    ensures 1 <= n <= |s|
  {
    if "\r\n" <= s then 2
    else if EsFinDeLinea(s[0]) || |s| == 1 then 1
    else 1 + LargoLinea(s[1..])
  }

  predicate Contiene(s: string, q: string)
    requires q != ""
  {
    s != "" && (q <= s || Contiene(s[1..], q))
  }

  function Indice(s: string, q: string): (k: nat)
    requires q != "" && Contiene(s, q)
    ensures k + |q| <= |s|
  {
    if q <= s then 0 else 1 + Indice(s[1..], q)
  }

  /** The spans of a line without its end. */
  function TrozosCuerpo(cuerpo: string): (ts: seq<Trozo>)
    ensures |ts| >= 1
  {
    if |cuerpo| > 6 && (cuerpo[6] == '*' || cuerpo[6] == '/') then [Trozo(Comentario, cuerpo)]
    else if Contiene(cuerpo, "*>") then
      [Trozo(Otro, cuerpo[..Indice(cuerpo, "*>")]), Trozo(Comentario, cuerpo[Indice(cuerpo, "*>")..])]
    else [Trozo(Otro, cuerpo)]
  }

  function TrozosFin(fin: string): seq<Trozo> { if fin == "" then [] else [Trozo(Otro, fin)] }

  function TrozosLinea(linea: string): seq<Trozo> {
    TrozosCuerpo(SinFin(linea)) + TrozosFin(linea[|SinFin(linea)|..])
  }

  // -- The whole text ------------------------------------------------------------------------------

  /** `scan`: the spans of a text with what they hold. */
  function Trozos(l: Lengua, s: string): seq<Trozo>
    decreases |s|
  {
    if s == "" then []
    else if l.Cobol? then TrozosLinea(s[..LargoLinea(s)]) + Trozos(l, s[LargoLinea(s)..])
    else
      var t := Paso(l, s);
      [Trozo(t.clase, s[..t.largo])] + Trozos(l, s[t.largo..])
  }

  function Pega(ts: seq<Trozo>): string {
    if ts == [] then "" else ts[0].texto + Pega(ts[1..])
  }

  lemma {:induction false} PegaConcat(a: seq<Trozo>, b: seq<Trozo>)
    ensures Pega(a + b) == Pega(a) + Pega(b)
  {
    if a == [] {
      assert a + b == b;
    } else {
      assert (a + b)[1..] == a[1..] + b;
      PegaConcat(a[1..], b);
    }
  }

  lemma PegaCuerpo(cuerpo: string)
    ensures Pega(TrozosCuerpo(cuerpo)) == cuerpo
  {
    hide Contiene, Indice;
    var ts := TrozosCuerpo(cuerpo);
    if |ts| == 2 {
      assert ts[1..] == [ts[1]] && ts[1..][1..] == [];
      assert Pega([ts[1]]) == ts[1].texto + Pega([]) == ts[1].texto;
      assert ts[0].texto + ts[1].texto == cuerpo;
    } else {
      assert ts[1..] == [];
    }
  }

  lemma PegaFin(fin: string)
    ensures Pega(TrozosFin(fin)) == fin
  {
    assert fin != "" ==> TrozosFin(fin)[1..] == [];
  }

  lemma PegaLinea(linea: string)
    ensures Pega(TrozosLinea(linea)) == linea
  {
    hide SinFin, TrozosCuerpo, TrozosFin;
    var cuerpo := SinFin(linea);
    PegaCuerpo(cuerpo);
    PegaFin(linea[|cuerpo|..]);
    PegaConcat(TrozosCuerpo(cuerpo), TrozosFin(linea[|cuerpo|..]));
  }

  /** The first step, or the first line, and what the rest gives. */
  lemma UnaParte(l: Lengua, s: string)
    requires s != ""
    ensures var n := if l.Cobol? then LargoLinea(s) else Paso(l, s).largo;
            Pega(Trozos(l, s)) == s[..n] + Pega(Trozos(l, s[n..]))
  {
    hide Paso, LargoLinea, TrozosLinea;
    if l.Cobol? {
      hide Pega;
      var n := LargoLinea(s);
      PegaLinea(s[..n]);
      PegaConcat(TrozosLinea(s[..n]), Trozos(l, s[n..]));
    } else {
      var n := Paso(l, s).largo;
      assert Trozos(l, s)[1..] == Trozos(l, s[n..]);
    }
  }

  lemma SinPartes(l: Lengua)
    ensures Pega(Trozos(l, "")) == ""
  {
  }

  /** The spans cover the text exactly once, in order: nothing is lost and nothing is repeated. */
  lemma {:induction false} Cobertura(l: Lengua, s: string)
    ensures Pega(Trozos(l, s)) == s
    decreases |s|
  {
    hide Trozos, Pega, Paso, LargoLinea;
    if s == "" {
      SinPartes(l);
    } else {
      var n := if l.Cobol? then LargoLinea(s) else Paso(l, s).largo;
      UnaParte(l, s);
      Cobertura(l, s[n..]);
      assert s == s[..n] + s[n..];
    }
  }
}
