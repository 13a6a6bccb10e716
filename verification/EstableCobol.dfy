/** COBOL is scanned by lines and columns, so a rewritten comment may move its mark off column 7, or lose
    or gain the character that ends its line. Exactly when the spans survive, and a line that does not. */
module EstableCobol {
  import opened Escaner
  import opened Barrido
  import opened Estable
  import opened Textos

  // -- Lines --------------------------------------------------------------------------------------------

  /** Inside a line there is no line end, except a return right before its final newline. */
  lemma {:induction false} DentroDeLinea(s: string, j: nat)
    requires s != "" && j + 1 < LargoLinea(s)
    ensures EsFinDeLinea(s[j]) ==> LargoLinea(s) == j + 2 && s[j] == '\r' && s[j + 1] == '\n'
  {
    if "\r\n" <= s {
      assert s[0] == '\r' && s[1] == '\n';
    } else if j > 0 {
      DentroDeLinea(s[1..], j - 1);
    }
  }

  /** A line that is not the last one ends in a line end. */
  lemma {:induction false} AcabaEnFin(s: string)
    requires s != "" && LargoLinea(s) < |s|
    ensures EsFinDeLinea(s[LargoLinea(s) - 1])
  {
    if "\r\n" <= s {
      assert s[1] == '\n';
    } else if !EsFinDeLinea(s[0]) {
      AcabaEnFin(s[1..]);
    }
  }

  /** What follows a line that is over does not lengthen it, but for a newline after a return. */
  lemma {:induction false} LineaYMas(s: string, z: string)
    requires s != ""
    ensures var L := s[..LargoLinea(s)];
            (z == "" || LargoLinea(s) < |s| || EsFinDeLinea(L[|L| - 1])) && L + z != "" ==>
              || LargoLinea(L + z) == |L|
              || (LargoLinea(L + z) == |L| + 1 && L[|L| - 1] == '\r' && z != "" && z[0] == '\n')
  {
    var L := s[..LargoLinea(s)];
    if LargoLinea(s) < |s| {
      AcabaEnFin(s);
    }
    if "\r\n" <= s {
      assert L == "\r\n" && "\r\n" <= L + z;
    } else if EsFinDeLinea(s[0]) || |s| == 1 {
      assert L == [s[0]] && (L + z)[1..] == z;
      if "\r\n" <= L + z {
        assert (L + z)[1] == z[0];
      }
    } else {
      LineaYMas(s[1..], z);
      assert L == [s[0]] + s[1..][..LargoLinea(s[1..])];
      assert (L + z)[1..] == s[1..][..LargoLinea(s[1..])] + z;
      assert !("\r\n" <= L + z);
    }
  }

  predicate SinVuelta(s: string) { '\n' !in s && '\r' !in s }

  lemma {:induction false} FinTodoVuelta(s: string, k: nat)
    requires |SinFin(s)| <= k < |s|
    ensures s[k] == '\n' || s[k] == '\r'
  {
    if k < |s| - 1 {
      FinTodoVuelta(s[..|s| - 1], k);
    }
  }

  lemma {:induction false} SinFinAcaba(s: string)
    ensures var c := SinFin(s); c != "" ==> c[|c| - 1] != '\n' && c[|c| - 1] != '\r'
  {
    if s != "" && (s[|s| - 1] == '\r' || s[|s| - 1] == '\n') {
      SinFinAcaba(s[..|s| - 1]);
    }
  }

  /** A line without its end holds neither returns nor newlines. */
  lemma CuerpoSinVuelta(s: string)
    requires s != ""
    ensures SinVuelta(SinFin(s[..LargoLinea(s)]))
  {
    var L := s[..LargoLinea(s)];
    var c := SinFin(L);
    SinFinAcaba(L);
    forall j | 0 <= j < |c|
      ensures c[j] != '\n' && c[j] != '\r'
    {
      assert c[j] == s[j] && c[|c| - 1] == s[|c| - 1];
      if j + 1 < |L| {
        DentroDeLinea(s, j);
      }
    }
  }

  // -- The sweep by lines ------------------------------------------------------------------------------------

  /** A line after the rewriting. */
  function BarreLinea(r: Reglas, linea: string): string { Pega(Barridos(r, TrozosLinea(linea))) }

  function BarreCuerpo(r: Reglas, cuerpo: string): string { Pega(Barridos(r, TrozosCuerpo(cuerpo))) }

  lemma {:induction false} BarridosConcat(r: Reglas, a: seq<Trozo>, b: seq<Trozo>)
    ensures Barridos(r, a + b) == Barridos(r, a) + Barridos(r, b)
  {
    if a == [] {
      assert a + b == b;
    } else {
      assert (a + b)[1..] == a[1..] + b;
      BarridosConcat(r, a[1..], b);
    }
  }

  /** The text is swept line by line. */
  lemma BarrePorLineas(r: Reglas, s: string)
    requires s != ""
    ensures var n := LargoLinea(s);
            && Trozos(Cobol, s) == TrozosLinea(s[..n]) + Trozos(Cobol, s[n..])
            && Barridos(r, Trozos(Cobol, s)) == Barridos(r, TrozosLinea(s[..n])) + Barridos(r, Trozos(Cobol, s[n..]))
            && Barre(Cobol, r, s) == BarreLinea(r, s[..n]) + Barre(Cobol, r, s[n..])
  {
    hide TrozosLinea, LargoLinea;
    var n := LargoLinea(s);
    BarridosConcat(r, TrozosLinea(s[..n]), Trozos(Cobol, s[n..]));
    PegaConcat(Barridos(r, TrozosLinea(s[..n])), Barridos(r, Trozos(Cobol, s[n..])));
  }

  lemma BarridosFin(r: Reglas, fin: string)
    ensures Barridos(r, TrozosFin(fin)) == TrozosFin(fin)
  {
    assert fin != "" ==> TrozosFin(fin)[1..] == [];
  }

  /** Of a line only what comes before its end is rewritten. */
  lemma LineaPorPartes(r: Reglas, linea: string)
    ensures var c := SinFin(linea);
            && Barridos(r, TrozosLinea(linea)) == Barridos(r, TrozosCuerpo(c)) + TrozosFin(linea[|c|..])
            && BarreLinea(r, linea) == BarreCuerpo(r, c) + linea[|c|..]
  {
    hide TrozosCuerpo, TrozosFin;
    var c := SinFin(linea);
    var f := linea[|c|..];
    BarridosConcat(r, TrozosCuerpo(c), TrozosFin(f));
    BarridosFin(r, f);
    PegaConcat(Barridos(r, TrozosCuerpo(c)), TrozosFin(f));
    PegaFin(f);
  }

  /** Every rewritten line is still one line, with the spans of the original one. */
  predicate LineasIntactas(r: Reglas, s: string)
    decreases |s|
  {
    if s == "" then true
    else
      var L, y := s[..LargoLinea(s)], s[LargoLinea(s)..];
      var x, z := BarreLinea(r, L), Barre(Cobol, r, y);
      && x + z != "" && LargoLinea(x + z) == |x| && TrozosLinea(x) == Barridos(r, TrozosLinea(L))
      && LineasIntactas(r, y)
  }

  // -- From the same spans back to the same lines --------------------------------------------------------------

  /** The spans of a text begin with those of its first line without its end, none of which holds a
      return or a newline when it is code. */
  lemma PrimerTrozo(s: string)
    requires s != ""
    ensures var ts := Trozos(Cobol, s); ts != [] && SinVuelta(ts[0].texto)
    ensures var c := SinFin(s[..LargoLinea(s)]); Trozos(Cobol, s)[0] == TrozosCuerpo(c)[0]
  {
    hide Contiene, Indice, SinFin;
    var L := s[..LargoLinea(s)];
    var c := SinFin(L);
    CuerpoSinVuelta(s);
    assert Trozos(Cobol, s) == TrozosLinea(L) + Trozos(Cobol, s[LargoLinea(s)..]);
    assert TrozosCuerpo(c)[0].texto <= c;
  }

  /** After equal beginnings, the end of the line and what follows it are told apart: a line end cannot
      be taken for the first span of the next line. */
  lemma FinIgual(r: Reglas, e: string, f: string, y: string, m: string)
    requires forall i | 0 <= i < |e| :: e[i] == '\n' || e[i] == '\r'
    requires forall i | 0 <= i < |f| :: f[i] == '\n' || f[i] == '\r'
    requires TrozosFin(f) + Trozos(Cobol, m) == TrozosFin(e) + Barridos(r, Trozos(Cobol, y))
    ensures f == e && Trozos(Cobol, m) == Barridos(r, Trozos(Cobol, y))
  {
    hide SinFin, TrozosCuerpo;
    var todo := TrozosFin(f) + Trozos(Cobol, m);
    if m != "" {
      PrimerTrozo(m);
    }
    if y != "" {
      PrimerTrozo(y);
    }
    if f != "" {
      assert todo[0] == Trozo(Otro, f) && (f[0] == '\n' || f[0] == '\r') && f[0] in f;
    }
    if e != "" {
      assert todo[0] == Trozo(Otro, e) && (e[0] == '\n' || e[0] == '\r') && e[0] in e;
    }
    assert (f == "") == (e == "");
    if f != "" {
      assert todo[1..] == Trozos(Cobol, m) && todo[1..] == Barridos(r, Trozos(Cobol, y));
    } else {
      assert todo == Trozos(Cobol, m) && todo == Barridos(r, Trozos(Cobol, y));
    }
  }

  predicate ConComentario(c: string) { TrozosCuerpo(c)[|TrozosCuerpo(c)| - 1].clase == Comentario }

  /** A line of plain code stays as it is. */
  lemma SoloCodigo(r: Reglas, c: string)
    requires !ConComentario(c)
    ensures TrozosCuerpo(c) == [Trozo(Otro, c)] && Barridos(r, TrozosCuerpo(c)) == TrozosCuerpo(c)
    ensures BarreCuerpo(r, c) == c
  {
    hide Contiene, Indice;
    assert TrozosCuerpo(c)[1..] == [];
    assert Pega([Trozo(Otro, c)]) == c + Pega([]) == c;
  }

  /** If the spans of a text begin with those that a rewritten comment line has, they are those of its
      first line. */
  lemma MismoCuerpo(r: Reglas, L: string, s: string, T: string, resto: seq<Trozo>)
    requires s != "" && L == s[..LargoLinea(s)] && T != "" && ConComentario(SinFin(L))
    requires BarreCuerpo(r, SinFin(L)) <= T
    requires Trozos(Cobol, T) == Barridos(r, TrozosCuerpo(SinFin(L))) + resto
    ensures var M := T[..LargoLinea(T)]; TrozosCuerpo(SinFin(M)) == Barridos(r, TrozosCuerpo(SinFin(L)))
  {
    hide SinFin, TrozosCuerpo, TrozosFin, Limpia, LargoLinea;
    var c := SinFin(L);
    var M := T[..LargoLinea(T)];
    var d := SinFin(M);
    var P, A, ts := Barridos(r, TrozosCuerpo(c)), TrozosCuerpo(d), Trozos(Cobol, T);
    BarridosClases(r, TrozosCuerpo(c));
    FormaCuerpo(c);
    FormaCuerpo(d);
    SegundoTrozo(T);
    assert ts[0] == P[0];
    if |P| == 2 {
      CodigoYComentario(r, c);
      assert ts[1] == P[1];
      MarcaDentro(L, s, T, |P[0].texto|);
    }
  }

  lemma FormaCuerpo(c: string)
    ensures var ts := TrozosCuerpo(c);
            && 1 <= |ts| <= 2
            && (|ts| == 1 ==> ts[0].texto == c) && (|ts| == 2 ==> ts[0].clase == Otro && ts[1].clase == Comentario)
  {
    hide Contiene, Indice;
  }

  lemma {:induction false} BarridosClases(r: Reglas, ts: seq<Trozo>)
    ensures |Barridos(r, ts)| == |ts|
    ensures forall k | 0 <= k < |ts| :: Barridos(r, ts)[k]
              == Trozo(ts[k].clase, if ts[k].clase == Comentario then Limpia(r, ts[k].texto) else ts[k].texto)
  {
    hide Limpia;
    if ts != [] {
      BarridosClases(r, ts[1..]);
    }
  }

  /** Code and then `*>`: the code stays and the mark goes on following it. */
  lemma CodigoYComentario(r: Reglas, c: string)
    requires |TrozosCuerpo(c)| == 2
    ensures var k := |TrozosCuerpo(c)[0].texto|;
            && k + 2 <= |c| && c[k..k + 2] == "*>"
            && Barridos(r, TrozosCuerpo(c)) == [Trozo(Otro, c[..k]), Trozo(Comentario, Limpia(r, c[k..]))]
            && "*>" <= Limpia(r, c[k..]) && c[..k] + "*>" <= BarreCuerpo(r, c)
  {
    hide Limpia;
    var ts := TrozosCuerpo(c);
    var k := |ts[0].texto|;
    IndiceEsta(c, "*>");
    BarridosClases(r, ts);
    assert c[k..] == "*>" + c[k + 2..];
    LimpiaMarca(r, "*>", c[k + 2..]);
    var P := Barridos(r, ts);
    assert P[1..] == [P[1]] && P[1..][1..] == [];
    assert Pega([P[1]]) == P[1].texto + Pega([]) == P[1].texto;
    assert Pega(P) == c[..k] + P[1].texto;
    assert (c[..k] + P[1].texto)[..k + 2] == c[..k] + "*>";
  }

  lemma {:induction false} IndiceEsta(s: string, q: string)
    requires q != "" && Contiene(s, q)
    ensures var k := Indice(s, q); s[k..k + |q|] == q
  {
    if !(q <= s) {
      IndiceEsta(s[1..], q);
      var k := Indice(s[1..], q);
      assert s[1..][k..k + |q|] == s[k + 1..k + 1 + |q|];
    }
  }

  /** The first line of the rewritten text does not end before the mark. */
  lemma MarcaDentro(L: string, s: string, T: string, k: nat)
    requires s != "" && L == s[..LargoLinea(s)] && T != ""
    requires var c := SinFin(L); k + 2 <= |c| && c[k..k + 2] == "*>" && c[..k] + "*>" <= T
    ensures LargoLinea(T) != k
  {
    hide SinFin;
    var c := SinFin(L);
    if LargoLinea(T) == k {
      AcabaEnFin(T);
      assert T[k - 1] == (c[..k] + "*>")[k - 1] == c[k - 1] == s[k - 1];
      assert s[k] == c[k] == c[k..k + 2][0] == '*';
      DentroDeLinea(s, k - 1);
    }
  }

  /** The second span of a text whose first line gives one span is the end of that line, when it has one. */
  lemma SegundoTrozo(T: string)
    requires T != ""
    ensures var M := T[..LargoLinea(T)]; var d := SinFin(M); var ts := Trozos(Cobol, T);
            && |ts| >= 1 && ts[0] == TrozosCuerpo(d)[0]
            && (|TrozosCuerpo(d)| == 2 ==> |ts| >= 2 && ts[1] == TrozosCuerpo(d)[1])
            && (|TrozosCuerpo(d)| == 1 && M != d ==> |ts| >= 2 && ts[1].clase == Otro)
  {
    hide SinFin, Contiene, LargoLinea;
    var M := T[..LargoLinea(T)];
    var d := SinFin(M);
    assert Trozos(Cobol, T) == TrozosCuerpo(d) + (TrozosFin(M[|d|..]) + Trozos(Cobol, T[|M|..]));
    assert M != d ==> M[|d|..] != "" && TrozosFin(M[|d|..]) == [Trozo(Otro, M[|d|..])];
  }

  /** The first line of the rewritten text has the length of the rewritten first line. */
  lemma MismaLinea(r: Reglas, s: string)
    requires s != ""
    requires var L := s[..LargoLinea(s)];
             Trozos(Cobol, Barre(Cobol, r, s)) == Barridos(r, Trozos(Cobol, s)) && Barre(Cobol, r, s) != ""
    ensures var L, y := s[..LargoLinea(s)], s[LargoLinea(s)..];
            var x, z := BarreLinea(r, L), Barre(Cobol, r, y);
            && x + z != "" && LargoLinea(x + z) == |x| && TrozosLinea(x) == Barridos(r, TrozosLinea(L))
            && Trozos(Cobol, z) == Barridos(r, Trozos(Cobol, y))
  {
    hide SinFin, TrozosCuerpo, TrozosFin, LargoLinea, Barre, Limpia;
    var L, y := s[..LargoLinea(s)], s[LargoLinea(s)..];
    var c, e := SinFin(L), L[|SinFin(L)|..];
    var x, z := BarreLinea(r, L), Barre(Cobol, r, y);
    var T := Barre(Cobol, r, s);
    BarrePorLineas(r, s);
    LineaPorPartes(r, L);
    var P, Q := Barridos(r, TrozosCuerpo(c)), Barridos(r, Trozos(Cobol, y));
    assert T == x + z && x == BarreCuerpo(r, c) + e;
    assert BarreCuerpo(r, c) <= T by { assert T == BarreCuerpo(r, c) + (e + z); }
    assert Trozos(Cobol, T) == P + (TrozosFin(e) + Q);
    if ConComentario(c) {
      MismoCuerpo(r, L, s, T, TrozosFin(e) + Q);
    } else {
      SoloCodigo(r, c);
      assert c + e == L;
      CodigoMismaLinea(r, s, T, z);
    }
    MismoFin(r, s);
  }

  /** With the same beginning, the two first lines have the same end. */
  lemma MismoFin(r: Reglas, s: string)
    requires s != "" && Barre(Cobol, r, s) != ""
    requires Trozos(Cobol, Barre(Cobol, r, s)) == Barridos(r, Trozos(Cobol, s))
    requires var T := Barre(Cobol, r, s);
             TrozosCuerpo(SinFin(T[..LargoLinea(T)])) == Barridos(r, TrozosCuerpo(SinFin(s[..LargoLinea(s)])))
    ensures var L, y := s[..LargoLinea(s)], s[LargoLinea(s)..];
            var x, z := BarreLinea(r, L), Barre(Cobol, r, y);
            && x + z != "" && LargoLinea(x + z) == |x| && TrozosLinea(x) == Barridos(r, TrozosLinea(L))
            && Trozos(Cobol, z) == Barridos(r, Trozos(Cobol, y))
  {
    hide SinFin, TrozosCuerpo, TrozosFin, LargoLinea, Barre, Limpia;
    var T := Barre(Cobol, r, s);
    var L, y := s[..LargoLinea(s)], s[LargoLinea(s)..];
    var M, m := T[..LargoLinea(T)], T[LargoLinea(T)..];
    var c, d := SinFin(L), SinFin(M);
    var e, f := L[|c|..], M[|d|..];
    var P, Q := TrozosCuerpo(d), Barridos(r, Trozos(Cobol, y));
    BarrePorLineas(r, s);
    LineaPorPartes(r, L);
    PegaCuerpo(d);
    assert Trozos(Cobol, T) == P + (TrozosFin(e) + Q);
    assert Trozos(Cobol, T) == P + (TrozosFin(f) + Trozos(Cobol, m));
    assert TrozosFin(f) + Trozos(Cobol, m) == Trozos(Cobol, T)[|P|..] == TrozosFin(e) + Q;
    FinesDeVuelta(L);
    FinesDeVuelta(M);
    FinIgual(r, e, f, y, m);
    assert M == d + f == BarreLinea(r, L);
  }

  lemma FinesDeVuelta(s: string)
    ensures var f := s[|SinFin(s)|..]; forall i | 0 <= i < |f| :: f[i] == '\n' || f[i] == '\r'
  {
    var n := |SinFin(s)|;
    forall i | 0 <= i < |s| - n
      ensures s[n..][i] == '\n' || s[n..][i] == '\r'
    {
      FinTodoVuelta(s, n + i);
    }
  }

  /** A line of code is found again without its end. */
  lemma CodigoMismaLinea(r: Reglas, s: string, T: string, z: string)
    requires s != "" && T != "" && T == s[..LargoLinea(s)] + z && !ConComentario(SinFin(s[..LargoLinea(s)]))
    requires z == Barre(Cobol, r, s[LargoLinea(s)..])
    ensures SinFin(T[..LargoLinea(T)]) == SinFin(s[..LargoLinea(s)])
    ensures Barridos(r, TrozosCuerpo(SinFin(s[..LargoLinea(s)]))) == TrozosCuerpo(SinFin(s[..LargoLinea(s)]))
    ensures BarreLinea(r, s[..LargoLinea(s)]) == s[..LargoLinea(s)]
  {
    hide TrozosCuerpo, LargoLinea, Limpia, Barre;
    var L := s[..LargoLinea(s)];
    SoloCodigo(r, SinFin(L));
    LineaPorPartes(r, L);
    if LargoLinea(s) == |s| {
      assert s[|s|..] == "";
      BarreNada(Cobol, r);
    }
    LineaYMas(s, z);
    var M := T[..LargoLinea(T)];
    assert |M| == |L| || (|M| == |L| + 1 && z != "" && z[0] == '\n');
    if |M| == |L| {
      assert M == L;
    } else {
      assert T[|L|] == z[0] && T[..|L|] == L;
      assert M == L + "\n" && M[..|M| - 1] == L;
    }
  }

  /** In COBOL the rewritten text has the spans of the original, each comment in its rewritten form, if
      and only if every rewritten line is still one line with the spans it had. */
  lemma {:induction false} CobolAlineadoSii(r: Reglas, s: string)
    ensures Trozos(Cobol, Barre(Cobol, r, s)) == Barridos(r, Trozos(Cobol, s)) <==> LineasIntactas(r, s)
    decreases |s|
  {
    hide TrozosLinea, LargoLinea, Barre, BarreLinea;
    if s == "" {
      BarreNada(Cobol, r);
    } else {
      var n := LargoLinea(s);
      var L, y := s[..n], s[n..];
      var x, z := BarreLinea(r, L), Barre(Cobol, r, y);
      BarrePorLineas(r, s);
      CobolAlineadoSii(r, y);
      TrozosHay(s);
      if Trozos(Cobol, x + z) == Barridos(r, Trozos(Cobol, s)) {
        BarridosClases(r, Trozos(Cobol, s));
        MismaLinea(r, s);
      }
      if LineasIntactas(r, s) {
        assert (x + z)[..|x|] == x && (x + z)[|x|..] == z;
      }
    }
  }

  lemma TrozosHay(s: string)
    ensures s != "" ==> Trozos(Cobol, s) != []
    ensures Trozos(Cobol, "") == []
  {
    if s != "" {
      PrimerTrozo(s);
    }
  }

  /** So a COBOL file whose lines survive is never refused. */
  lemma IntactasNoRechaza(r: Reglas, s: string)
    ensures LineasIntactas(r, s) ==> Verifica(Cobol, s, Barre(Cobol, r, s))
  {
    hide Barre, LineasIntactas;
    CobolAlineadoSii(r, s);
    BarridosMismoCodigo(r, Trozos(Cobol, s));
  }

  // -- A condition on each comment that is enough ------------------------------------------------------------------

  predicate SinFines(t: string) { forall c <- t :: !EsFinDeLinea(c) }

  /** No line end outside ASCII stands in the comment or comes from one of its characters. */
  predicate Suave(r: Reglas, k: string) {
    && (forall c <- k :: EsFinDeLinea(c) ==> EsAscii(c))
    && (forall c <- Repara(r, k) :: !EsAscii(c) ==> SinFines(Cambia(r, c)))
  }

  /** What is asked of a line with a comment, before anything is rewritten: its comment is soft, what comes
      before the mark of column 7 is rewritten into six characters, and a comment that starts earlier puts
      no such mark there. */
  predicate CuerpoSuave(r: Reglas, c: string) {
    var ts := TrozosCuerpo(c);
    !ConComentario(c)
    || (|ts| == 1 && Suave(r, c) && |Limpia(r, c[..6])| == 6)
    || (&& |ts| == 2 && Suave(r, ts[1].texto)
        && (var n, k := |ts[0].texto|, Limpia(r, ts[1].texto);
            n < 5 && n + |k| > 6 ==> k[6 - n] != '*' && k[6 - n] != '/'))
  }

  predicate LineasSuaves(r: Reglas, s: string)
    decreases |s|
  {
    s == "" || (CuerpoSuave(r, SinFin(s[..LargoLinea(s)])) && LineasSuaves(r, s[LargoLinea(s)..]))
  }

  lemma {:induction false} RachaTras(a: string, b: string)
    requires b != "" && EsAscii(b[0])
    ensures LargoRacha(a + b) == LargoRacha(a)
  {
    if a != "" {
      assert (a + b)[1..] == a[1..] + b;
      RachaTras(a[1..], b);
    } else {
      assert a + b == b;
    }
  }

  lemma {:induction false} ReparaJunta(r: Reglas, a: string, b: string)
    requires b != "" && EsAscii(b[0])
    ensures Repara(r, a + b) == Repara(r, a) + Repara(r, b)
    decreases |a|
  {
    if a == "" {
      assert a + b == b;
    } else if EsAscii(a[0]) {
      assert (a + b)[1..] == a[1..] + b;
      ReparaJunta(r, a[1..], b);
    } else {
      var n := LargoRacha(a);
      RachaTras(a, b);
      assert (a + b)[..n] == a[..n] && (a + b)[n..] == a[n..] + b;
      ReparaJunta(r, a[n..], b);
      Asocia(r.uno(a[..n]), Repara(r, a[n..]), Repara(r, b));
    }
  }

  lemma LimpiaJunta(r: Reglas, a: string, b: string)
    requires b != "" && EsAscii(b[0])
    ensures Limpia(r, a + b) == Limpia(r, a) + Limpia(r, b)
  {
    ReparaJunta(r, a, b);
    TransliteraConcat(r, Repara(r, a), Repara(r, b));
  }

  /** The repair makes no ASCII character. */
  lemma {:induction false} ReparaAscii(r: Reglas, t: string)
    requires r.Valid()
    ensures forall c <- Repara(r, t) :: EsAscii(c) ==> c in t
    decreases |t|
  {
    if t != "" {
      var n := if EsAscii(t[0]) then 1 else LargoRacha(t);
      if !EsAscii(t[0]) {
        assert EsRacha(t[..n]) && EsRacha(r.uno(t[..n]));
      }
      ReparaAscii(r, t[n..]);
      assert forall c <- t[n..] :: c in t;
    }
  }

  lemma {:induction false} TransliteraSinFines(r: Reglas, x: string)
    requires forall c <- x :: SinFines(Cambia(r, c))
    ensures SinFines(Translitera(r, x))
  {
    if x != "" {
      assert x[0] in x;
      assert forall c <- x[1..] :: c in x;
      TransliteraSinFines(r, x[1..]);
    }
  }

  lemma LimpiaSinFines(r: Reglas, t: string)
    requires r.Valid() && SinFines(t) && Suave(r, t)
    ensures SinFines(Limpia(r, t))
  {
    hide EsFinDeLinea;
    ReparaAscii(r, t);
    forall c <- Repara(r, t)
      ensures SinFines(Cambia(r, c))
    {
      if EsAscii(c) {
        assert c in t && Cambia(r, c) == [c];
      }
    }
    TransliteraSinFines(r, Repara(r, t));
  }

  /** A soft comment that ends in a line end goes on ending in it, with no other line end. */
  lemma SuaveConFin(r: Reglas, k: string)
    requires r.Valid() && Suave(r, k) && k != "" && EsFinDeLinea(k[|k| - 1]) && SinFines(k[..|k| - 1])
    ensures var k0 := k[..|k| - 1]; Limpia(r, k) == Limpia(r, k0) + [k[|k| - 1]] && SinFines(Limpia(r, k0))
  {
    hide EsFinDeLinea, Limpia;
    var k0, f := k[..|k| - 1], [k[|k| - 1]];
    assert k == k0 + f && k[|k| - 1] in k;
    LimpiaJunta(r, k0, f);
    ReparaJunta(r, k0, f);
    LimpiaIdentidad(r, f);
    LimpiaSinFines(r, k0);
  }

  /** A line is measured by its end, whatever follows it. */
  lemma {:induction false} LargoJusto(w: string, fin: string, z: string)
    requires SinFines(w) && w + fin != ""
    requires fin == "" || fin == "\r\n" || (|fin| == 1 && EsFinDeLinea(fin[0]))
    requires (fin == "" ==> z == "") && (fin == "\r" ==> z == "" || z[0] != '\n')
    ensures LargoLinea(w + fin + z) == |w + fin|
  {
    var s := w + fin + z;
    if w == "" {
      assert s == fin + z;
      assert "\r\n" <= s ==> s[0] == '\r' && s[1] == '\n';
      if |fin| == 1 {
        assert z != "" ==> s[1] == z[0];
        assert fin[0] == '\r' ==> fin == "\r";
      } else {
        assert "\r\n" <= s;
      }
    } else {
      assert w[0] in w && s[0] == w[0] && EsFinDeLinea('\r');
      assert s[1..] == w[1..] + fin + z;
      if |w + fin| == 1 {
        assert fin == "" && s == w;
      } else {
        assert w[1..] + fin != "";
        LargoJusto(w[1..], fin, z);
      }
    }
  }

  /** The body of a line holds no line end but perhaps its last character, and then the line ends with it. */
  lemma FormaLinea(s: string)
    requires s != ""
    ensures var L := s[..LargoLinea(s)]; var c := SinFin(L); var e := L[|c|..];
            && (forall j | 0 <= j < |c| :: EsFinDeLinea(c[j]) ==> j == |c| - 1 && e == "")
            && e in {"", "\n", "\r", "\r\n"}
            && (LargoLinea(s) < |s| && e == "" ==> c != "" && EsFinDeLinea(c[|c| - 1]))
  {
    hide EsFinDeLinea;
    var L := s[..LargoLinea(s)];
    var c := SinFin(L);
    var e := L[|c|..];
    CuerpoSinVuelta(s);
    VueltasSonFines();
    forall j | 0 <= j < |c| && EsFinDeLinea(c[j])
      ensures j == |c| - 1 && e == ""
    {
      assert c[j] == s[j] && c[j] in c;
      if j + 1 < |L| {
        DentroDeLinea(s, j);
      }
    }
    if LargoLinea(s) < |s| {
      AcabaEnFin(s);
    }
    if |e| >= 2 {
      FinTodoVuelta(L, |c|);
      assert e[0] == s[|c|] && e[1] == s[|c| + 1];
      DentroDeLinea(s, |c|);
      assert |e| == 2 && e == [e[0], e[1]] == "\r\n";
    } else if |e| == 1 {
      FinTodoVuelta(L, |c|);
      assert e == [e[0]];
    }
  }

  lemma VueltasSonFines()
    ensures EsFinDeLinea('\n') && EsFinDeLinea('\r')
  {
  }

  /** A return at the end of a line is not followed by a newline. */
  lemma {:induction false} NoSeParte(s: string)
    requires s != ""
    ensures LargoLinea(s) < |s| && s[LargoLinea(s) - 1] == '\r' ==> s[LargoLinea(s)] != '\n'
  {
    if "\r\n" <= s {
      assert s[1] == '\n';
    } else if EsFinDeLinea(s[0]) || |s| == 1 {
      assert |s| > 1 && s[0] == '\r' && s[1] == '\n' ==> "\r\n" <= s;
    } else {
      NoSeParte(s[1..]);
    }
  }

  /** A body that is not empty stays so, and no newline comes at its start. */
  lemma CuerpoEmpieza(r: Reglas, c: string)
    requires r.Valid() && c != "" && SinVuelta(c)
    ensures var x := BarreCuerpo(r, c); x != "" && x[0] != '\n'
  {
    hide Limpia, Contiene, Indice;
    var ts := TrozosCuerpo(c);
    FormaCuerpo(c);
    if !ConComentario(c) {
      SoloCodigo(r, c);
    } else if |ts| == 1 {
      UnTrozoBarrido(r, c);
      assert c == c[..6] + c[6..] && EsAscii(c[6]);
      LimpiaJunta(r, c[..6], c[6..]);
      LimpiaAscii(r, c[6..]);
      LimpiaSinSalto(r, c);
      assert Limpia(r, c)[0] in Limpia(r, c);
    } else {
      CodigoYComentario(r, c);
      var k := |ts[0].texto|;
      var x := BarreCuerpo(r, c);
      assert x[..k + 2] == c[..k] + "*>";
      assert x[0] == (c[..k] + "*>")[0];
      assert k > 0 ==> x[0] == c[0] && c[0] in c;
    }
  }

  lemma UnTrozoBarrido(r: Reglas, c: string)
    requires TrozosCuerpo(c) == [Trozo(Comentario, c)]
    ensures Barridos(r, TrozosCuerpo(c)) == [Trozo(Comentario, Limpia(r, c))] && BarreCuerpo(r, c) == Limpia(r, c)
  {
    hide Limpia, TrozosCuerpo;
    var ts := TrozosCuerpo(c);
    BarridosClases(r, ts);
    assert Barridos(r, ts) == [Trozo(Comentario, Limpia(r, c))];
    UnTrozoSolo(Trozo(Comentario, Limpia(r, c)));
  }

  /** What follows a rewritten line does not lengthen it. */
  lemma ColaDeLinea(r: Reglas, s: string)
    requires r.Valid() && s != ""
    ensures var y := s[LargoLinea(s)..]; var z := Barre(Cobol, r, y);
            && (y == "" ==> z == "") && (s[LargoLinea(s) - 1] == '\r' ==> z == "" || z[0] != '\n')
  {
    hide LargoLinea, Barre, SinFin, TrozosCuerpo, TrozosFin;
    var y := s[LargoLinea(s)..];
    NoSeParte(s);
    BarreNada(Cobol, r);
    if y != "" {
      var L := y[..LargoLinea(y)];
      var c := SinFin(L);
      BarrePorLineas(r, y);
      LineaPorPartes(r, L);
      CuerpoSinVuelta(y);
      var x := BarreCuerpo(r, c);
      if c != "" {
        CuerpoEmpieza(r, c);
      } else {
        assert BarreLinea(r, L)[0] == L[0] == y[0] by { NadaDeCuerpo(r); }
      }
    }
  }

  lemma NadaDeCuerpo(r: Reglas)
    ensures BarreCuerpo(r, "") == ""
  {
    assert TrozosCuerpo("") == [Trozo(Otro, "")];
    UnTrozoSolo(Trozo(Otro, ""));
  }

  /** A soft comment is cut from its line end, when it holds it, and has no other one after the rewriting. */
  lemma ComentarioSinFines(r: Reglas, k: string)
    requires r.Valid() && Suave(r, k) && forall j | 0 <= j < |k| :: EsFinDeLinea(k[j]) ==> j == |k| - 1
    ensures var n := if k != "" && EsFinDeLinea(k[|k| - 1]) then |k| - 1 else |k|;
            && Limpia(r, k) == Limpia(r, k[..n]) + k[n..] && SinFines(Limpia(r, k[..n]))
  {
    hide EsFinDeLinea, Limpia;
    if k != "" && EsFinDeLinea(k[|k| - 1]) {
      SuaveConFin(r, k);
      assert k[|k| - 1..] == [k[|k| - 1]];
    } else {
      LimpiaSinFines(r, k);
      assert k[..|k|] == k && k[|k|..] == "" && Limpia(r, k) + "" == Limpia(r, k);
    }
  }

  lemma {:induction false} IndiceIgual(c: string, w: string, m: nat)
    requires Contiene(c, "*>") && Indice(c, "*>") == m && m + 2 <= |w| && w[..m + 2] == c[..m + 2]
    ensures Contiene(w, "*>") && Indice(w, "*>") == m
  {
    assert w[..2] == w[..m + 2][..2] == c[..2];
    if m > 0 {
      assert w[1..][..m + 1] == w[..m + 2][1..] == c[1..][..m + 1];
      IndiceIgual(c[1..], w[1..], m - 1);
    }
  }

  /** The last line end of a body, when it has one. */
  function SuFin(c: string): string { if c != "" && EsFinDeLinea(c[|c| - 1]) then [c[|c| - 1]] else "" }

  /** The body of a soft line with a comment keeps its spans and its line end. */
  lemma CuerpoIntacto(r: Reglas, c: string)
    requires r.Valid() && ConComentario(c) && CuerpoSuave(r, c)
    requires forall j | 0 <= j < |c| :: EsFinDeLinea(c[j]) ==> j == |c| - 1
    ensures TrozosCuerpo(BarreCuerpo(r, c)) == Barridos(r, TrozosCuerpo(c))
    ensures exists w :: SinFines(w) && BarreCuerpo(r, c) == w + SuFin(c)
  {
    if |TrozosCuerpo(c)| == 1 {
      LineaDeComentario(r, c);
    } else {
      LineaConComentario(r, c);
    }
  }

  lemma LineaDeComentario(r: Reglas, c: string)
    requires r.Valid() && ConComentario(c) && CuerpoSuave(r, c) && |TrozosCuerpo(c)| == 1
    requires forall j | 0 <= j < |c| :: EsFinDeLinea(c[j]) ==> j == |c| - 1
    ensures TrozosCuerpo(BarreCuerpo(r, c)) == Barridos(r, TrozosCuerpo(c))
    ensures exists w :: SinFines(w) && BarreCuerpo(r, c) == w + SuFin(c)
  {
    hide Limpia, Contiene, Indice, EsFinDeLinea, Suave;
    var x := Limpia(r, c);
    UnTrozoBarrido(r, c);
    assert c == c[..6] + c[6..] && EsAscii(c[6]);
    LimpiaJunta(r, c[..6], c[6..]);
    LimpiaAscii(r, c[6..]);
    assert x[6] == c[6];
    ComentarioSinFines(r, c);
  }

  lemma LineaConComentario(r: Reglas, c: string)
    requires r.Valid() && ConComentario(c) && CuerpoSuave(r, c) && |TrozosCuerpo(c)| == 2
    requires forall j | 0 <= j < |c| :: EsFinDeLinea(c[j]) ==> j == |c| - 1
    ensures TrozosCuerpo(BarreCuerpo(r, c)) == Barridos(r, TrozosCuerpo(c))
    ensures exists w :: SinFines(w) && BarreCuerpo(r, c) == w + SuFin(c)
  {
    hide Limpia, EsFinDeLinea, Suave, Contiene, Indice, CuerpoSuave, ConComentario;
    var m := |TrozosCuerpo(c)[0].texto|;
    var k := c[m..];
    var x := c[..m] + Limpia(r, k);
    CodigoYComentario(r, c);
    DosTrozos(Trozo(Otro, c[..m]), Trozo(Comentario, Limpia(r, k)));
    SigueEnDos(r, c, m);
    SuaveEnDos(r, c);
    FinTrasMarca(r, c, m);
  }

  /** The rewritten comment is found again behind the same code. */
  lemma SigueEnDos(r: Reglas, c: string, m: nat)
    requires CuerpoSuave(r, c) && |TrozosCuerpo(c)| == 2 && m == |TrozosCuerpo(c)[0].texto|
    ensures m <= |c|
    ensures var y := Limpia(r, c[m..]); TrozosCuerpo(c[..m] + y) == [Trozo(Otro, c[..m]), Trozo(Comentario, y)]
  {
    hide Limpia, Suave, Contiene, Indice;
    var y := Limpia(r, c[m..]);
    CodigoYComentario(r, c);
    var x := c[..m] + y;
    assert x[..m + 2] == c[..m] + "*>" == c[..m + 2];
    DondeEsta(c);
    IndiceIgual(c, x, m);
    assert |x| > 6 && m < 5 ==> x[6] == y[6 - m];
    assert |x| > 6 && m == 5 ==> x[6] == y[1] == '>';
    assert c[m] == c[m..m + 2][0] == '*';
    assert |x| > 6 && m > 6 ==> x[6] == c[6];
    assert x[..m] == c[..m] && x[m..] == y;
  }

  lemma SuaveEnDos(r: Reglas, c: string)
    requires CuerpoSuave(r, c) && |TrozosCuerpo(c)| == 2
    ensures var m := |TrozosCuerpo(c)[0].texto|; m < |c| && Suave(r, c[m..])
  {
    hide Contiene, Indice, Suave, Limpia;
  }

  lemma DondeEsta(c: string)
    requires |TrozosCuerpo(c)| == 2
    ensures Contiene(c, "*>") && Indice(c, "*>") == |TrozosCuerpo(c)[0].texto|
  {
    hide Contiene, Indice;
  }

  /** Code and a soft comment end as they did, with no other line end. */
  lemma FinTrasMarca(r: Reglas, c: string, m: nat)
    requires r.Valid() && m < |c| && Suave(r, c[m..])
    requires forall j | 0 <= j < |c| :: EsFinDeLinea(c[j]) ==> j == |c| - 1
    ensures exists w :: SinFines(w) && c[..m] + Limpia(r, c[m..]) == w + SuFin(c)
  {
    hide Limpia, EsFinDeLinea, Suave;
    var a, k := c[..m], c[m..];
    var n := |k| - |SuFin(c)|;
    assert forall j | 0 <= j < |k| :: k[j] == c[m + j];
    ComentarioSinFines(r, k);
    assert k[n..] == SuFin(c);
    var b := Limpia(r, k[..n]);
    assert a + Limpia(r, k) == (a + b) + SuFin(c);
    forall j | 0 <= j < m
      ensures !EsFinDeLinea(a[j])
    {
      assert a[j] == c[j];
    }
    assert SinFines(a + b);
  }

  lemma DosTrozos(t: Trozo, u: Trozo)
    ensures Pega([t, u]) == t.texto + u.texto
  {
    assert [t, u][1..] == [u];
    UnTrozoSolo(u);
  }

  lemma CuerpoBien(r: Reglas, c: string)
    requires r.Valid() && CuerpoSuave(r, c) && forall j | 0 <= j < |c| :: EsFinDeLinea(c[j]) ==> j == |c| - 1
    ensures TrozosCuerpo(BarreCuerpo(r, c)) == Barridos(r, TrozosCuerpo(c))
    ensures exists w :: SinFines(w) && BarreCuerpo(r, c) == w + SuFin(c)
  {
    hide TrozosCuerpo, Barridos, EsFinDeLinea, Limpia, BarreCuerpo;
    if ConComentario(c) {
      CuerpoIntacto(r, c);
    } else {
      SoloCodigo(r, c);
      var w := c[..|c| - |SuFin(c)|];
      assert c == w + SuFin(c);
      assert SinFines(w);
    }
  }

  lemma {:induction false} SinFinDe(d: string, e: string)
    requires d != "" ==> d[|d| - 1] != '\r' && d[|d| - 1] != '\n'
    requires forall i | 0 <= i < |e| :: e[i] == '\r' || e[i] == '\n'
    ensures SinFin(d + e) == d
  {
    if e == "" {
      assert d + e == d;
    } else {
      assert (d + e)[|d + e| - 1] == e[|e| - 1];
      assert (d + e)[..|d + e| - 1] == d + e[..|e| - 1];
      SinFinDe(d, e[..|e| - 1]);
    }
  }

  /** The end of a line. */
  lemma FinDeLinea(s: string)
    requires s != ""
    ensures var L := s[..LargoLinea(s)]; var c := SinFin(L); var fin := SuFin(c) + L[|c|..];
            && (fin == "" || fin == "\r\n" || (|fin| == 1 && EsFinDeLinea(fin[0])))
            && (fin == "" ==> LargoLinea(s) == |s|)
            && (fin == "\r" ==> s[LargoLinea(s) - 1] == '\r')
  {
    hide EsFinDeLinea, LargoLinea, SinFin;
    var L := s[..LargoLinea(s)];
    var c := SinFin(L);
    var e := L[|c|..];
    FormaLinea(s);
    VueltasSonFines();
    if SuFin(c) != "" {
      assert e == "" && SuFin(c) + e == [c[|c| - 1]];
      assert L == c + e == c;
    } else {
      assert SuFin(c) + e == e;
      assert e != "" ==> e[|e| - 1] == L[|L| - 1];
    }
  }

  /** The body of a soft line after the rewriting. */
  lemma CuerpoDeLinea(r: Reglas, s: string)
    requires r.Valid() && s != "" && CuerpoSuave(r, SinFin(s[..LargoLinea(s)]))
    ensures var L := s[..LargoLinea(s)]; var c := SinFin(L); var d := BarreCuerpo(r, c);
            && TrozosCuerpo(d) == Barridos(r, TrozosCuerpo(c)) && SinFin(d + L[|c|..]) == d
            && (exists w :: SinFines(w) && d == w + SuFin(c)) && (c != "" ==> d != "")
  {
    hide TrozosCuerpo, LargoLinea, Limpia, CuerpoSuave, EsFinDeLinea, SinFin, Barridos, BarreCuerpo;
    var L := s[..LargoLinea(s)];
    var c := SinFin(L);
    FormaLinea(s);
    CuerpoSinVuelta(s);
    CuerpoBien(r, c);
    if c != "" {
      CuerpoEmpieza(r, c);
    }
    var d := BarreCuerpo(r, c);
    var w :| SinFines(w) && d == w + SuFin(c);
    AcabaSinVuelta(w, c);
    SinFinDe(d, L[|c|..]);
  }

  /** A soft line is still one line, with the spans it had. */
  lemma LineaSuave(r: Reglas, s: string)
    requires r.Valid() && s != "" && CuerpoSuave(r, SinFin(s[..LargoLinea(s)]))
    ensures var L, y := s[..LargoLinea(s)], s[LargoLinea(s)..];
            var x, z := BarreLinea(r, L), Barre(Cobol, r, y);
            && x + z != "" && LargoLinea(x + z) == |x| && TrozosLinea(x) == Barridos(r, TrozosLinea(L))
  {
    hide TrozosCuerpo, TrozosFin, LargoLinea, Barre, CuerpoSuave, SinFin, Barridos, BarreCuerpo, BarreLinea, TrozosLinea;
    var L := s[..LargoLinea(s)];
    var c := SinFin(L);
    LineaPorPartes(r, L);
    CuerpoDeLinea(r, s);
    TrozosJuntos(BarreCuerpo(r, c), L[|c|..]);
    LargoDeSuave(r, s, BarreCuerpo(r, c), Barre(Cobol, r, s[LargoLinea(s)..]));
  }

  /** And the end of the line is where it was. */
  lemma LargoDeSuave(r: Reglas, s: string, d: string, z: string)
    requires s != "" && r.Valid() && z == Barre(Cobol, r, s[LargoLinea(s)..])
    requires var c := SinFin(s[..LargoLinea(s)]); (c != "" ==> d != "") && exists w :: SinFines(w) && d == w + SuFin(c)
    ensures var L := s[..LargoLinea(s)]; var x := d + L[|SinFin(L)|..]; x + z != "" && LargoLinea(x + z) == |x|
  {
    hide LargoLinea, Barre, SinFin, SinFines, SuFin, EsFinDeLinea;
    var L := s[..LargoLinea(s)];
    var c := SinFin(L);
    var e := L[|c|..];
    ColaDeLinea(r, s);
    FinDeLinea(s);
    var w :| SinFines(w) && d == w + SuFin(c);
    assert w + (SuFin(c) + e) == d + e;
    assert L == c + e;
    LargoJusto(w, SuFin(c) + e, z);
  }

  lemma TrozosJuntos(d: string, e: string)
    requires SinFin(d + e) == d
    ensures TrozosLinea(d + e) == TrozosCuerpo(d) + TrozosFin(e)
  {
    hide SinFin, TrozosCuerpo, TrozosFin;
    assert (d + e)[|d|..] == e;
  }

  lemma AcabaSinVuelta(w: string, c: string)
    requires SinFines(w) && SinVuelta(c)
    ensures var d := w + SuFin(c); d != "" ==> d[|d| - 1] != '\r' && d[|d| - 1] != '\n'
  {
    hide EsFinDeLinea;
    VueltasSonFines();
    var d := w + SuFin(c);
    if SuFin(c) != "" {
      assert d[|d| - 1] == c[|c| - 1] && c[|c| - 1] in c;
    } else if w != "" {
      assert d[|d| - 1] == w[|w| - 1] && w[|w| - 1] in w;
    }
  }

  /** A COBOL file whose comments are soft keeps its lines, so it keeps its spans and is never refused. */
  lemma {:induction false} SuavesIntactas(r: Reglas, s: string)
    requires r.Valid() && LineasSuaves(r, s)
    ensures LineasIntactas(r, s)
    decreases |s|
  {
    hide Barre, BarreLinea, TrozosLinea, LargoLinea, CuerpoSuave, SinFin, Barridos;
    if s != "" {
      LineaSuave(r, s);
      SuavesIntactas(r, s[LargoLinea(s)..]);
    }
  }

  lemma SuaveNuncaRechazado(r: Reglas, s: string)
    requires r.Valid() && LineasSuaves(r, s)
    ensures Trozos(Cobol, Barre(Cobol, r, s)) == Barridos(r, Trozos(Cobol, s))
    ensures Verifica(Cobol, s, Barre(Cobol, r, s))
  {
    hide Barre, LineasIntactas, LineasSuaves;
    SuavesIntactas(r, s);
    CobolAlineadoSii(r, s);
    IntactasNoRechaza(r, s);
  }

  // -- A line that does not survive ------------------------------------------------------------------------------

  /** An ellipsis in the numbering area of a comment line. */
  const CORRIDA := "\U{2026}     *"

  lemma {:induction false} LineaLarga(s: string)
    requires s != "" && forall c <- s :: !EsFinDeLinea(c)
    ensures LargoLinea(s) == |s|
  {
    assert s[0] in s && EsFinDeLinea('\r');
    if |s| > 1 {
      assert forall c <- s[1..] :: c in s;
      LineaLarga(s[1..]);
    }
  }

  /** A text without line ends is one line. */
  lemma UnaSolaLinea(s: string)
    requires s != "" && forall c <- s :: !EsFinDeLinea(c)
    ensures Trozos(Cobol, s) == TrozosCuerpo(s)
  {
    hide TrozosCuerpo, LargoLinea;
    LineaLarga(s);
    assert s[|s| - 1] in s && EsFinDeLinea('\r') && EsFinDeLinea('\n');
    assert s[..|s|] == s && s[|s|..] == "";
    assert TrozosLinea(s) == TrozosCuerpo(s) + [];
    assert Trozos(Cobol, s) == TrozosLinea(s) + [];
  }

  lemma UnTrozoSolo(t: Trozo)
    ensures Pega([t]) == t.texto && Solo([t], Otro) == if t.clase == Otro then t.texto else ""
  {
    assert [t][1..] == [];
  }

  lemma CorridaComentario(r: Reglas)
    ensures Trozos(Cobol, CORRIDA) == [Trozo(Comentario, CORRIDA)]
    ensures Barre(Cobol, r, CORRIDA) == Limpia(r, CORRIDA)
  {
    hide Limpia, Trozos;
    UnaSolaLinea(CORRIDA);
    var t := Trozo(Comentario, CORRIDA);
    assert Trozos(Cobol, CORRIDA)[1..] == [];
    UnTrozoSolo(t.(texto := Limpia(r, CORRIDA)));
  }

  lemma PuntosCodigo()
    ensures Trozos(Cobol, "...     *") == [Trozo(Otro, "...     *")]
  {
    hide Trozos, Contiene;
    UnaSolaLinea("...     *");
    SinMarcaDeLinea("...     *");
  }

  /** Written as three dots it pushes the mark off column 7: the comment is then read as code, and the
      file is refused. */
  lemma CorridaRechaza(r: Reglas)
    requires Pone(r, '\U{2026}', "...")
    ensures Barre(Cobol, r, CORRIDA) == "...     *" && !Verifica(Cobol, CORRIDA, Barre(Cobol, r, CORRIDA))
  {
    hide Limpia, Trozos, Barre;
    CorridaComentario(r);
    LimpiaUna(r, "", '\U{2026}', "...", "     *");
    assert "" + "\U{2026}" + "     *" == CORRIDA && "" + "..." + "     *" == "...     *";
    PuntosCodigo();
    UnTrozoSolo(Trozo(Comentario, CORRIDA));
    UnTrozoSolo(Trozo(Otro, "...     *"));
  }

  lemma {:induction false} SinMarcaDeLinea(t: string)
    requires '>' !in t
    ensures !Contiene(t, "*>")
  {
    if t != "" {
      assert |t| > 1 ==> t[1] in t;
      SinMarcaDeLinea(t[1..]);
    }
  }
}
