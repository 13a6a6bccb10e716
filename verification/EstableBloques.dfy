/** Rust, C and PowerShell: a rewritten block comment may close early (a star before a slash) or never
    close, so here the sweep keeps the spans exactly when every rewritten block comment is one comment. */
module EstableBloques {
  import opened Escaner
  import opened Barrido
  import opened Estable

  /** One character ends a nested comment only at the end of the text. */
  lemma NidoUno(a: string, y: string, d: nat)
    ensures |a| == 1 && y != "" ==> LargoNido(a + y, d) != 1
  {
    if |a| == 1 {
      assert (a + y)[1..] == y;
    }
  }

  lemma {:induction false} NidoEstable(a: string, y: string, z: string, d: nat)
    requires LargoNido(a + y, d) == |a| && (y == "" ==> z == "")
    ensures LargoNido(a + z, d) == |a|
  {
    NidoUno(a, y, d);
    if a == "" {
      assert a + y == y && a + z == z;
    } else if |a| == 1 {
      assert a + z == a + y;
    } else {
      assert (a + y)[1..] == a[1..] + y && (a + z)[1..] == a[1..] + z;
      assert (a + y)[..2] == a[..2] == (a + z)[..2];
      assert (a + y)[2..] == a[2..] + y && (a + z)[2..] == a[2..] + z;
      if "/*" <= a + y {
        NidoEstable(a[2..], y, z, d + 1);
      } else if "*/" <= a + y {
        NidoEstable(a[2..], y, z, d - 1);
      } else {
        NidoEstable(a[1..], y, z, d);
      }
    }
  }

  lemma CrudaEstable(a: string, y: string, z: string)
    requires EsCruda(a + y) && LargoCruda(a + y) == |a| && (y == "" ==> z == "")
    ensures EsCruda(a + z) && LargoCruda(a + z) == |a|
  {
    hide LargoRB, LargoAlmohadillas, LargoHasta, Almohadillas;
    var s := a + y;
    var k, i := SitioComilla(s), LargoRB(s);
    var b := a[k + 1..];
    assert s[k..] == a[k..] + y && a[k..] + z == [a[k]] + (b + z);
    assert Acuerdo(s[k..], a[k..] + z, 1);
    SitioEstable(s, a[k..] + z);
    assert s[..k] + (a[k..] + z) == a + z;
    assert s[k + 1..] == b + y && (a + z)[k + 1..] == b + z;
    HastaEstable(b, y, z, "\"" + Almohadillas(k - i));
  }

  lemma CodigoSinBarra(l: Lengua, s: string)
    requires (l.Rust? || l.C?) && s != "" && s[0] != '/'
    ensures Paso(l, s).clase == Otro
  {
  }

  lemma AcuerdoLargo(a: string, y: string, z: string, n: nat)
    requires n <= |a| && Acuerdo(y, z, 1)
    ensures (a + z)[..n] == (a + y)[..n] && Acuerdo((a + y)[n..], (a + z)[n..], 1)
  {
    AcuerdoTras(a[n..], y, z, 1);
    AcuerdoMenos(a[n..] + y, a[n..] + z, |a| - n + 1, 1);
    assert (a + y)[n..] == a[n..] + y && (a + z)[n..] == a[n..] + z;
  }

  lemma AcuerdoCorto(a: string, y: string, z: string, n: nat)
    requires |a| <= n && n - |a| <= |y| && n - |a| <= |z|
    requires var m := n - |a|; y[..m] == z[..m] && Acuerdo(y[m..], z[m..], 1)
    ensures (a + z)[..n] == (a + y)[..n] && Acuerdo((a + y)[n..], (a + z)[n..], 1)
  {
    var m := n - |a|;
    assert (a + y)[n..] == y[m..] && (a + z)[n..] == z[m..];
    assert (a + z)[..n] == a + z[..m] && (a + y)[..n] == a + y[..m];
  }

  /** Up to the first slash nothing can be a comment, so nothing was rewritten. */
  lemma {:induction false} AcuerdoSinBarra(l: Lengua, r: Reglas, s: string, n: nat)
    requires (l.Rust? || l.C?) && n <= |s| && '/' !in s[..n]
    ensures var q := Barre(l, r, s); n <= |q| && q[..n] == s[..n] && Acuerdo(s[n..], q[n..], 1)
    decreases |s|
  {
    hide Barre, Limpia, Paso;
    CabezaIgual(l, r, s, 1);
    if s != "" && n > 0 {
      var t := Paso(l, s);
      var a, y := s[..t.largo], s[t.largo..];
      var z := Barre(l, r, y);
      assert s[0] in s[..n];
      CodigoSinBarra(l, s);
      assert s == a + y;
      BarrePaso(l, r, s);
      if t.largo >= n {
        CabezaIgual(l, r, y, 1);
        AcuerdoLargo(a, y, z, n);
      } else {
        assert forall c :: c in y[..n - t.largo] ==> c in s[..n];
        AcuerdoSinBarra(l, r, y, n - t.largo);
        AcuerdoCorto(a, y, z, n);
      }
    }
  }

  lemma {:induction false} SinBarraRB(s: string)
    ensures '/' !in s[..LargoRB(s)]
  {
    if s != "" && EsRB(s[0]) {
      SinBarraRB(s[1..]);
      assert s[..LargoRB(s)] == [s[0]] + s[1..][..LargoRB(s[1..])];
    }
  }

  lemma {:induction false} SinBarraAlmohadillas(s: string)
    ensures '/' !in s[..LargoAlmohadillas(s)]
  {
    if s != "" && s[0] == '#' {
      SinBarraAlmohadillas(s[1..]);
      assert s[..LargoAlmohadillas(s)] == [s[0]] + s[1..][..LargoAlmohadillas(s[1..])];
    }
  }

  /** The look-ahead for a raw string gives the same answer before and after the rewriting. */
  lemma MismaCruda(l: Lengua, r: Reglas, s: string)
    requires l.Rust? && s != ""
    ensures EsCruda(Barre(l, r, s)) <==> EsCruda(s)
  {
    hide Barre;
    var q := Barre(l, r, s);
    var i, k := LargoRB(s), SitioComilla(s);
    SinBarraRB(s);
    SinBarraAlmohadillas(s[i..]);
    assert s[..k] == s[..i] + s[i..][..k - i];
    AcuerdoSinBarra(l, r, s, k);
    SitioEstable(s, q[k..]);
    assert s[..k] + q[k..] == q;
    CabezaIgual(l, r, s, 1);
  }

  lemma TickEstable(a: string, y: string, z: string, letra: char -> bool)
    requires a != "" && a[0] == '\'' && LargoTick(a + y, letra) == |a| && Acuerdo(y, z, 2)
    ensures LargoTick(a + z, letra) == |a|
  {
    hide LargoIdent, LargoHasta;
    AcuerdoMenos(y, z, 2, 1);
    var b := a[1..];
    assert (a + y)[1..] == b + y && (a + z)[1..] == b + z;
    if |a + y| >= 2 && (a + y)[1] == '\\' {
      assert (a + y)[2..] == a[2..] + y && (a + z)[2..] == a[2..] + z;
      HastaEstable(a[2..], y, z, "'");
    } else if |a| < 3 {
      IdentEstable(b, y, z, letra);
      TickMirada(a, y, z);
    } else if (a + y)[2] != '\'' {
      IdentEstable(b, y, z, letra);
    }
  }

  /** The second and third characters after a short tick are the same ones. */
  lemma TickMirada(a: string, y: string, z: string)
    requires 1 <= |a| <= 2 && Acuerdo(y, z, 2)
    ensures |a + y| >= 2 <==> |a + z| >= 2
    ensures |a + y| >= 2 ==> (a + y)[1] == (a + z)[1]
    ensures |a + y| >= 3 <==> |a + z| >= 3
    ensures |a + y| >= 3 ==> (a + y)[2] == (a + z)[2]
  {
    if y != "" && z != "" {
      assert Acuerdo(y[1..], z[1..], 1);
      if |y| >= 2 {
        assert y[1..][0] == y[1] && z[1..][0] == z[1];
      }
    }
  }

  /** A span of code is found again in the rewritten text. */
  lemma CodigoEstable(l: Lengua, a: string, y: string, z: string)
    requires (l.Rust? || l.C?) && a != "" && Paso(l, a + y) == Token(Otro, |a|) && Acuerdo(y, z, 2)
    requires l.Rust? ==> (EsCruda(a + y) <==> EsCruda(a + z))
    ensures Paso(l, a + z) == Token(Otro, |a|)
  {
    hide LargoTick, LargoCruda, EsCruda;
    AcuerdoMenos(y, z, 2, 1);
    assert (a + y)[1..] == a[1..] + y && (a + z)[1..] == a[1..] + z;
    if |a| == 1 && y != "" {
      assert (a + y)[1] == y[0] == z[0] == (a + z)[1];
    }
    if l.Rust? && EsCruda(a + y) {
      CrudaEstable(a, y, z);
    } else if a[0] == '"' {
      CadenaEstable(a[1..], y, z);
    } else if a[0] == '\'' {
      TickEstable(a, y, z, l.letra);
    } else if LargoLlano(a + y) != 0 {
      LlanoEstable(a, y, z);
    }
  }

  // -- PowerShell ---------------------------------------------------------------------------------------------

  lemma {:induction false} PsEstable(a: string, y: string, z: string, q: char)
    requires LargoPs(a + y, q) == |a| && (y == "" ==> z == "")
    ensures LargoPs(a + z, q) == |a|
  {
    if a == "" {
      assert a + y == y && a + z == z;
    } else {
      assert (a + y)[1..] == a[1..] + y && (a + z)[1..] == a[1..] + z;
      assert (a + y)[0] == a[0] == (a + z)[0];
      if a[0] != q && a[0] != '\n' {
        if q == '"' && a[0] == '`' {
          if |a| >= 2 {
            assert (a + y)[2..] == a[2..] + y && (a + z)[2..] == a[2..] + z;
            PsEstable(a[2..], y, z, q);
          } else {
            assert y == "";
          }
        } else {
          PsEstable(a[1..], y, z, q);
        }
      }
    }
  }

  /** The steps of the tokenizer that are not comments. */
  lemma PasosPs(s: string)
    requires s != ""
    ensures "@\"" <= s ==> PasoPowershell(s) == Token(Otro, 2 + LargoHasta(s[2..], "\"@"))
    ensures "@'" <= s ==> PasoPowershell(s) == Token(Otro, 2 + LargoHasta(s[2..], "'@"))
    ensures s[0] == '"' || s[0] == '\'' ==> PasoPowershell(s) == Token(Otro, 1 + LargoPs(s[1..], s[0]))
    ensures s[0] !in "<@\"'#" ==> PasoPowershell(s) == Token(Otro, 1)
    ensures s[0] == '<' && (|s| == 1 || s[1] != '#') ==> PasoPowershell(s) == Token(Otro, 1)
    ensures s[0] == '@' && (|s| == 1 || s[1] !in "\"'") ==> PasoPowershell(s) == Token(Otro, 1)
    ensures PasoPowershell(s).clase == Otro ==> s[0] != '#' && !("<#" <= s)
  {
    hide LargoHasta, LargoPs, HastaSalto;
    assert "<#" <= s <==> s[0] == '<' && |s| > 1 && s[1] == '#';
    assert "@\"" <= s <==> s[0] == '@' && |s| > 1 && s[1] == '"';
    assert "@'" <= s <==> s[0] == '@' && |s| > 1 && s[1] == '\'';
  }

  lemma PsOtroEstable(a: string, y: string, z: string)
    requires a != "" && PasoPowershell(a + y) == Token(Otro, |a|) && Acuerdo(y, z, 1)
    ensures PasoPowershell(a + z) == Token(Otro, |a|)
  {
    hide LargoHasta, LargoPs, PasoPowershell;
    var s, s' := a + y, a + z;
    PasosPs(s);
    PasosPs(s');
    if "@\"" <= s || "@'" <= s {
      assert s[2..] == a[2..] + y && s'[2..] == a[2..] + z && s[..2] == a[..2] == s'[..2];
      HastaEstable(a[2..], y, z, if "@\"" <= s then "\"@" else "'@");
    } else if a[0] == '"' || a[0] == '\'' {
      assert s[1..] == a[1..] + y && s'[1..] == a[1..] + z;
      PsEstable(a[1..], y, z, a[0]);
    } else {
      assert |a| == 1 && s'[0] == s[0];
      assert |s'| > 1 ==> s'[1] == z[0] == y[0] == s[1];
    }
  }

  /** A span of code is found again in the rewritten text, in the three languages. */
  lemma OtroEstable(l: Lengua, r: Reglas, s: string, z: string)
    requires ConBloques(l) && s != "" && Paso(l, s).clase == Otro
    requires var y := s[Paso(l, s).largo..]; z == Barre(l, r, y) && Acuerdo(y, z, Marca(l))
    ensures Paso(l, s[..Paso(l, s).largo] + z) == Paso(l, s)
  {
    hide Barre, Limpia, Paso;
    var a, y := s[..Paso(l, s).largo], s[Paso(l, s).largo..];
    assert s == a + y;
    if l.Powershell? {
      AlPaso(a + y);
      AlPaso(a + z);
      PsOtroEstable(a, y, z);
    } else {
      if l.Rust? {
        BarrePaso(l, r, s);
        MismaCruda(l, r, s);
      }
      CodigoEstable(l, a, y, z);
    }
  }

  lemma AlPaso(s: string)
    ensures s != "" ==> Paso(Powershell, s) == PasoPowershell(s)
  {
  }

  // -- Exactly when the spans survive -------------------------------------------------------------------------

  /** The languages with block comments. */
  predicate ConBloques(l: Lengua) { l.Rust? || l.C? || l.Powershell? }

  /** The mark that opens a block comment. */
  function Abre(l: Lengua): string { if l.Powershell? then "<#" else "/*" }

  /** The mark that closes it. */
  function Cierra(l: Lengua): string { if l.Powershell? then "#>" else "*/" }

  /** The mark of a line comment. */
  function DeLinea(l: Lengua): string { if l.Powershell? then "#" else "//" }

  lemma PasoDeBloque(l: Lengua, s: string)
    requires ConBloques(l) && Abre(l) <= s
    ensures Paso(l, s) == Token(Comentario, 2 + if l.Rust? then LargoNido(s[2..], 1) else LargoHasta(s[2..], Cierra(l)))
  {
    hide LargoNido, LargoHasta;
    assert s[0] == Abre(l)[0] && s[1] == Abre(l)[1];
    assert "//"[1] == '/' && "/*"[1] == '*' && !("//" <= s);
  }

  lemma PasoDeLinea(l: Lengua, s: string)
    requires ConBloques(l) && s != "" && !(Abre(l) <= s)
    ensures DeLinea(l) <= s ==> Paso(l, s) == Token(Comentario, HastaSalto(s))
    ensures Paso(l, s).clase == Comentario ==> DeLinea(l) <= s
  {
    hide HastaSalto, LargoPs, LargoHasta, LargoCruda, LargoTick, LargoCadena, EsCruda, LargoLlano;
    assert DeLinea(l) <= s ==> s[0] == DeLinea(l)[0];
    assert "@\"" <= s || "@'" <= s ==> s[0] == '@';
    assert l.Powershell? && s[0] == '#' ==> DeLinea(l) <= s;
  }

  /** The rewritten block comment, read on its own, is one comment (and closed, when it was). */
  predicate CierraSolo(l: Lengua, r: Reglas, a: string, y: string)
    requires ConBloques(l)
  {
    var x := Limpia(r, a) + if y == "" then "" else " ";
    x != "" && Paso(l, x) == Token(Comentario, |Limpia(r, a)|)
  }

  predicate BloquesCierran(l: Lengua, r: Reglas, s: string)
    requires ConBloques(l)
    decreases |s|
  {
    if s == "" then true
    else
      var t := Paso(l, s);
      && (Abre(l) <= s ==> CierraSolo(l, r, s[..t.largo], s[t.largo..]))
      && BloquesCierran(l, r, s[t.largo..])
  }

  /** A block comment that ends at |x| ends there whatever follows it. */
  lemma BloqueEstable(l: Lengua, x: string, y: string, z: string)
    requires ConBloques(l) && Abre(l) <= x && Paso(l, x + y) == Token(Comentario, |x|) && (y == "" ==> z == "")
    ensures Paso(l, x + z) == Token(Comentario, |x|)
  {
    hide Paso, LargoNido, LargoHasta;
    assert (x + y)[2..] == x[2..] + y && (x + z)[2..] == x[2..] + z;
    assert Abre(l) <= x + y && Abre(l) <= x + z;
    PasoDeBloque(l, x + y);
    PasoDeBloque(l, x + z);
    if l.Rust? {
      NidoEstable(x[2..], y, z, 1);
    } else {
      HastaEstable(x[2..], y, z, Cierra(l));
    }
  }

  lemma MarcaBloque(r: Reglas, a: string, m: string)
    requires m <= a && TodoAscii(m)
    ensures m <= Limpia(r, a)
  {
    hide Limpia;
    LimpiaMarca(r, m, a[|m|..]);
    assert m + a[|m|..] == a;
  }

  /** One step: the span is found again unless it is a block comment that does not close by itself. */
  lemma UnPaso(l: Lengua, r: Reglas, s: string)
    requires r.Valid() && ConBloques(l) && s != ""
    ensures var t := Paso(l, s); var x := Primero(l, r, s); var z := Barre(l, r, s[t.largo..]);
            && x + z != ""
            && (Paso(l, x + z) == Token(t.clase, |x|) <==>
                (Abre(l) <= s ==> CierraSolo(l, r, s[..t.largo], s[t.largo..])))
  {
    hide Barre, Limpia, Paso;
    var t := Paso(l, s);
    var a, y := s[..t.largo], s[t.largo..];
    var x, z := Primero(l, r, s), Barre(l, r, y);
    assert s == a + y;
    BarrePaso(l, r, s);
    CabezaIgual(l, r, y, Marca(l));
    AcuerdoMenos(y, z, Marca(l), 1);
    if Abre(l) <= s {
      ClaseDeBloque(l, s);
      MarcaBloque(r, a, Abre(l));
      if Paso(l, x + z) == Token(Comentario, |x|) {
        BloqueEstable(l, x, z, if y == "" then "" else " ");
      }
      if CierraSolo(l, r, a, y) {
        BloqueEstable(l, x, if y == "" then "" else " ", z);
      }
    } else if t.clase == Comentario {
      LineaVuelve(l, r, a, y, z);
    } else {
      OtroEstable(l, r, s, z);
    }
  }

  lemma ClaseDeBloque(l: Lengua, s: string)
    requires ConBloques(l) && Abre(l) <= s
    ensures Paso(l, s).clase == Comentario && Paso(l, s).largo >= 2
  {
  }

  lemma LineaVuelve(l: Lengua, r: Reglas, a: string, y: string, z: string)
    requires r.Valid() && ConBloques(l) && a != "" && !(Abre(l) <= a + y)
    requires Paso(l, a + y) == Token(Comentario, |a|) && Acuerdo(y, z, 1)
    ensures Limpia(r, a) != "" && Paso(l, Limpia(r, a) + z) == Token(Comentario, |Limpia(r, a)|)
  {
    hide Limpia, Paso, HastaSalto;
    var m := DeLinea(l);
    PasoDeLinea(l, a + y);
    MarcaAscii(l, a + y);
    assert m == (a + y)[..|m|] == a[..|m|];
    assert TodoAscii(m);
    LineaEstable(r, a, y, z, m);
    var x := Limpia(r, a) + z;
    assert x[0] == m[0] && (|m| == 2 ==> x[1] == m[1]) && "/*"[1] == '*' && "<#"[0] == '<';
    PasoDeLinea(l, x);
  }

  /** The rewritten text has the spans of the original, each comment in its rewritten form, if and only
      if every rewritten block comment is one comment by itself. */
  lemma {:induction false} AlineadoSii(l: Lengua, r: Reglas, s: string)
    requires r.Valid() && ConBloques(l)
    ensures Trozos(l, Barre(l, r, s)) == Barridos(r, Trozos(l, s)) <==> BloquesCierran(l, r, s)
    decreases |s|
  {
    hide Paso, Limpia, Primero, Barre, CierraSolo;
    if s == "" {
      BarreNada(l, r);
    } else {
      var t := Paso(l, s);
      var y := s[t.largo..];
      var x, z := Primero(l, r, s), Barre(l, r, y);
      BarrePaso(l, r, s);
      UnPaso(l, r, s);
      AlineadoSii(l, r, y);
      if BloquesCierran(l, r, s) {
        UneTrozos(l, r, s, z);
      }
      if Trozos(l, x + z) == Barridos(r, Trozos(l, s)) {
        SeparaTrozos(l, r, s, z);
      }
    }
  }

  /** From the aligned text back to its first step. */
  lemma SeparaTrozos(l: Lengua, r: Reglas, s: string, z: string)
    requires s != "" && !l.Cobol? && Primero(l, r, s) + z != ""
    requires Trozos(l, Primero(l, r, s) + z) == Barridos(r, Trozos(l, s))
    ensures Paso(l, Primero(l, r, s) + z) == Token(Paso(l, s).clase, |Primero(l, r, s)|)
    ensures Trozos(l, z) == Barridos(r, Trozos(l, s[Paso(l, s).largo..]))
  {
    hide Paso, Limpia;
    var x := Primero(l, r, s);
    var u := Paso(l, x + z);
    var us := Trozos(l, x + z);
    assert us == [Trozo(u.clase, (x + z)[..u.largo])] + Trozos(l, (x + z)[u.largo..]);
    assert Trozos(l, s)[1..] == Trozos(l, s[Paso(l, s).largo..]);
    assert us[0] == Trozo(Paso(l, s).clase, x);
    assert us[1..] == Barridos(r, Trozos(l, s[Paso(l, s).largo..]));
    assert (x + z)[|x|..] == z;
  }

  /** So a file whose rewritten block comments close by themselves is never refused. The converse fails:
      see `DosPorUno`. */
  lemma CierranNoRechaza(l: Lengua, r: Reglas, s: string)
    requires r.Valid() && ConBloques(l)
    ensures BloquesCierran(l, r, s) ==> Verifica(l, s, Barre(l, r, s))
  {
    hide Barre, BloquesCierran;
    AlineadoSii(l, r, s);
    BarridosMismoCodigo(r, Trozos(l, s));
  }

  // -- A condition on the replacements that is enough -------------------------------------------------------------

  /** Every replacement used in the comment is non-empty and free of the characters that close one. */
  predicate CambioSuave(l: Lengua, r: Reglas, c: char) {
    !EsAscii(c) && c in r.tabla ==> r.tabla[c] != "" && SinMarcas(l, r.tabla[c])
  }

  predicate Suave(l: Lengua, r: Reglas, s: string) { forall c <- Repara(r, s) :: CambioSuave(l, r, c) }

  predicate BloquesSuaves(l: Lengua, r: Reglas, s: string)
    requires ConBloques(l)
    decreases |s|
  {
    if s == "" then true
    else
      var t := Paso(l, s);
      (Abre(l) <= s ==> Suave(l, r, s[..t.largo])) && BloquesSuaves(l, r, s[t.largo..])
  }

  predicate SinMarcas(l: Lengua, s: string) { Cierra(l)[0] !in s && Cierra(l)[1] !in s }

  lemma {:induction false} TransliteraSuave(l: Lengua, r: Reglas, x: string)
    requires r.Valid() && SinAscii(x) && forall c <- x :: CambioSuave(l, r, c)
    ensures SinMarcas(l, Translitera(r, x)) && (x != "" ==> Translitera(r, x) != "")
  {
    if x != "" {
      assert x[0] in x;
      TransliteraSuave(l, r, x[1..]);
    }
  }

  lemma RachaSuave(l: Lengua, r: Reglas, s: string)
    requires r.Valid() && s != "" && !EsAscii(s[0]) && Suave(l, r, s)
    ensures Racha(r, s) != "" && SinMarcas(l, Racha(r, s)) && Suave(l, r, s[LargoRacha(s)..])
  {
    var n := LargoRacha(s);
    var x := r.uno(s[..n]);
    assert EsRacha(s[..n]);
    assert Repara(r, s) == x + Repara(r, s[n..]);
    TransliteraSuave(l, r, x);
  }

  lemma ColaSuave(l: Lengua, r: Reglas, s: string)
    requires s != "" && EsAscii(s[0]) && Suave(l, r, s)
    ensures Suave(l, r, s[1..])
  {
    assert Repara(r, s) == [s[0]] + Repara(r, s[1..]);
  }

  /** A rewritten text starts with the same ASCII character, or with something that is no mark. */
  lemma PrimeraLetra(l: Lengua, r: Reglas, s: string)
    requires r.Valid() && s != "" && Suave(l, r, s)
    ensures var x := Limpia(r, s);
            x != "" && (if EsAscii(s[0]) then x[0] == s[0] else x[0] !in Cierra(l))
  {
    hide Limpia, Racha;
    if EsAscii(s[0]) {
      LimpiaAscii(r, s);
    } else {
      LimpiaRacha(r, s);
      RachaSuave(l, r, s);
      assert Racha(r, s)[0] in Racha(r, s);
    }
  }

  lemma {:induction false} HastaSinMarcas(l: Lengua, a: string, z: string)
    requires SinMarcas(l, a)
    ensures LargoHasta(a + z, Cierra(l)) == |a| + LargoHasta(z, Cierra(l))
  {
    if a == "" {
      assert a + z == z;
    } else {
      assert a[0] in a && (a + z)[0] == a[0] && (a + z)[1..] == a[1..] + z;
      HastaSinMarcas(l, a[1..], z);
    }
  }

  lemma {:induction false} NidoSinMarcas(l: Lengua, a: string, z: string, d: nat)
    requires l.Rust? && SinMarcas(l, a) && d >= 1
    ensures LargoNido(a + z, d) == |a| + LargoNido(z, d)
  {
    if a == "" {
      assert a + z == z;
    } else {
      assert a[0] in a && (a + z)[0] == a[0] && (a + z)[1..] == a[1..] + z;
      NidoSinMarcas(l, a[1..], z, d);
    }
  }

  lemma RachaSinMarcas(l: Lengua, s: string)
    ensures SinMarcas(l, s[..LargoRacha(s)]) && s == s[..LargoRacha(s)] + s[LargoRacha(s)..]
  {
    hide LargoRacha;
    var a := s[..LargoRacha(s)];
    forall c <- a
      ensures c !in Cierra(l)
    {
      assert !EsAscii(c);
    }
  }

  /** No pair of marks arises or is lost at the start of a rewritten body. */
  lemma ParIgual(l: Lengua, r: Reglas, b: string, y: string, w: string, par: string)
    requires r.Valid() && |b| >= 2 && EsAscii(b[0]) && Suave(l, r, b)
    requires |par| == 2 && par[0] in Cierra(l) && par[1] in Cierra(l)
    ensures par <= Limpia(r, b) + w <==> par <= b + y
  {
    hide Limpia;
    LimpiaAscii(r, b);
    ColaSuave(l, r, b);
    PrimeraLetra(l, r, b[1..]);
    var x := Limpia(r, b) + w;
    assert x[0] == b[0] && x[1] == Limpia(r, b[1..])[0] && b[1..][0] == b[1];
    assert (b + y)[0] == b[0] && (b + y)[1] == b[1];
  }

  predicate Centinela(y: string, w: string) { w == if y == "" then "" else " " }

  lemma {:induction false} HastaSuave(l: Lengua, r: Reglas, b: string, y: string, w: string)
    requires r.Valid() && Suave(l, r, b) && Centinela(y, w) && LargoHasta(b + y, Cierra(l)) == |b|
    ensures LargoHasta(Limpia(r, b) + w, Cierra(l)) == |Limpia(r, b)|
    decreases |b|
  {
    hide Limpia, Suave, Racha;
    if b == "" {
      LimpiaIdentidad(r, b);
      assert b + y == y;
    } else if !EsAscii(b[0]) {
      var n := LargoRacha(b);
      RachaSinMarcas(l, b);
      RachaSuave(l, r, b);
      LimpiaRacha(r, b);
      assert b + y == b[..n] + (b[n..] + y);
      HastaSinMarcas(l, b[..n], b[n..] + y);
      HastaSuave(l, r, b[n..], y, w);
      assert Limpia(r, b) + w == Racha(r, b) + (Limpia(r, b[n..]) + w);
      HastaSinMarcas(l, Racha(r, b), Limpia(r, b[n..]) + w);
    } else if |b| == 1 {
      LimpiaIdentidad(r, b);
      HastaUno(l, b, y);
      assert b + w == b + y;
    } else {
      HastaSuavePar(l, r, b, y, w);
    }
  }

  lemma HastaUno(l: Lengua, b: string, y: string)
    requires |b| == 1 && LargoHasta(b + y, Cierra(l)) == 1
    ensures y == ""
  {
    assert (b + y)[1..] == y;
  }

  lemma HastaSuavePar(l: Lengua, r: Reglas, b: string, y: string, w: string)
    requires r.Valid() && Suave(l, r, b) && Centinela(y, w) && LargoHasta(b + y, Cierra(l)) == |b| >= 2
    requires EsAscii(b[0])
    ensures LargoHasta(Limpia(r, b) + w, Cierra(l)) == |Limpia(r, b)|
    decreases |b|, 0
  {
    hide Limpia, Suave, Racha;
    ParIgual(l, r, b, y, w, Cierra(l));
    LimpiaAscii(r, b);
    ColaSuave(l, r, b);
    if Cierra(l) <= b + y {
      assert b == (b + y)[..2] == Cierra(l);
      LimpiaIdentidad(r, b);
    } else {
      assert (b + y)[1..] == b[1..] + y;
      assert (Limpia(r, b) + w)[1..] == Limpia(r, b[1..]) + w;
      HastaSuave(l, r, b[1..], y, w);
    }
  }

  lemma {:induction false} NidoSuave(l: Lengua, r: Reglas, b: string, y: string, w: string, d: nat)
    requires l.Rust? && r.Valid() && Suave(l, r, b) && Centinela(y, w) && LargoNido(b + y, d) == |b|
    ensures LargoNido(Limpia(r, b) + w, d) == |Limpia(r, b)|
    decreases |b|
  {
    hide Limpia, Suave, Racha;
    NidoUno(b, y, d);
    if b == "" {
      LimpiaIdentidad(r, b);
      assert b + y == y;
    } else if !EsAscii(b[0]) {
      var n := LargoRacha(b);
      RachaSinMarcas(l, b);
      RachaSuave(l, r, b);
      LimpiaRacha(r, b);
      assert b + y == b[..n] + (b[n..] + y);
      NidoSinMarcas(l, b[..n], b[n..] + y, d);
      NidoSuave(l, r, b[n..], y, w, d);
      assert Limpia(r, b) + w == Racha(r, b) + (Limpia(r, b[n..]) + w);
      NidoSinMarcas(l, Racha(r, b), Limpia(r, b[n..]) + w, d);
    } else if |b| == 1 {
      LimpiaIdentidad(r, b);
      assert b + w == b + y;
    } else {
      NidoSuavePar(l, r, b, y, w, d);
    }
  }

  lemma NidoSuavePar(l: Lengua, r: Reglas, b: string, y: string, w: string, d: nat)
    requires l.Rust? && r.Valid() && Suave(l, r, b) && Centinela(y, w) && LargoNido(b + y, d) == |b| >= 2
    requires EsAscii(b[0])
    ensures LargoNido(Limpia(r, b) + w, d) == |Limpia(r, b)|
    decreases |b|, 0
  {
    hide Limpia, Suave, Racha;
    ParIgual(l, r, b, y, w, "/*");
    ParIgual(l, r, b, y, w, Cierra(l));
    LimpiaAscii(r, b);
    ColaSuave(l, r, b);
    var x := Limpia(r, b) + w;
    assert x[1..] == Limpia(r, b[1..]) + w && (b + y)[1..] == b[1..] + y;
    if "/*" <= b + y || Cierra(l) <= b + y {
      assert (b + y)[..2] == b[..2] && (b + y)[2..] == b[2..] + y;
      assert EsAscii(b[1..][0]) && b[1..][1..] == b[2..];
      LimpiaAscii(r, b[1..]);
      ColaSuave(l, r, b[1..]);
      assert x[2..] == Limpia(r, b[2..]) + w;
      NidoSuave(l, r, b[2..], y, w, if "/*" <= b + y then d + 1 else d - 1);
    } else {
      NidoSuave(l, r, b[1..], y, w, d);
    }
  }

  lemma BloqueSuave(l: Lengua, r: Reglas, a: string, y: string)
    requires r.Valid() && ConBloques(l) && Abre(l) <= a && Suave(l, r, a)
    requires Paso(l, a + y) == Token(Comentario, |a|)
    ensures CierraSolo(l, r, a, y)
  {
    hide Limpia, Suave, LargoNido, LargoHasta, Paso;
    var b := a[2..];
    var w := if y == "" then "" else " ";
    assert a[0] == Abre(l)[0] && a[1..][0] == Abre(l)[1] && a[1..][1..] == b;
    ColaSuave(l, r, a);
    ColaSuave(l, r, a[1..]);
    LimpiaAscii(r, a);
    LimpiaAscii(r, a[1..]);
    var x := Limpia(r, a) + w;
    assert (a + y)[2..] == b + y && x[2..] == Limpia(r, b) + w;
    assert x[0] == a[0] && x[1] == a[1..][0] && |Abre(l)| == 2;
    assert Abre(l) <= a + y && Abre(l) <= x;
    PasoDeBloque(l, a + y);
    PasoDeBloque(l, x);
    if l.Rust? {
      NidoSuave(l, r, b, y, w, 1);
    } else {
      HastaSuave(l, r, b, y, w);
    }
  }

  lemma {:induction false} SuavesCierran(l: Lengua, r: Reglas, s: string)
    requires r.Valid() && ConBloques(l) && BloquesSuaves(l, r, s)
    ensures BloquesCierran(l, r, s)
    decreases |s|
  {
    hide Paso, CierraSolo, Suave;
    if s != "" {
      var t := Paso(l, s);
      if Abre(l) <= s {
        ClaseDeBloque(l, s);
        assert s == s[..t.largo] + s[t.largo..];
        BloqueSuave(l, r, s[..t.largo], s[t.largo..]);
      }
      SuavesCierran(l, r, s[t.largo..]);
    }
  }

  /** When every replacement used in a block comment is non-empty and free of the two characters that close
      it (`*` and `/`, or in PowerShell `#` and `>`), the file is never refused, and every span is where it
      was. */
  lemma SuaveNuncaRechazado(l: Lengua, r: Reglas, s: string)
    requires r.Valid() && ConBloques(l) && BloquesSuaves(l, r, s)
    ensures Trozos(l, Barre(l, r, s)) == Barridos(r, Trozos(l, s)) && Verifica(l, s, Barre(l, r, s))
  {
    hide Barre, BloquesSuaves, BloquesCierran;
    SuavesCierran(l, r, s);
    AlineadoSii(l, r, s);
    CierranNoRechaza(l, r, s);
  }

  // -- Without it, the sweep can be refused -----------------------------------------------------------------------

  const CON_ESTRELLA := "/*\U{2605}/a*/"
  const DOS_POR_UNO := "/*\U{2605}//* b */"

  lemma UnoMas(c: char, z: string, d: nat)
    requires d >= 1 && !(c == '*' && z != "" && z[0] == '/')
    ensures LargoHasta([c] + z, "*/") == 1 + LargoHasta(z, "*/")
    ensures !(c == '/' && z != "" && z[0] == '*') ==> LargoNido([c] + z, d) == 1 + LargoNido(z, d)
  {
    var s := [c] + z;
    assert s[0] == c && s[1..] == z && (z != "" ==> s[1] == z[0]);
    assert "/*"[0] == '/' && "/*"[1] == '*';
    assert !("*/" <= s);
  }

  lemma CierraAqui(z: string, d: nat)
    requires d >= 1
    ensures LargoNido("*/" + z, d) == 2 + LargoNido(z, d - 1) && LargoHasta("*/" + z, "*/") == 2
  {
    var s := "*/" + z;
    assert s[0] == '*' && s[1] == '/' && s[2..] == z && "*/" <= s && !("/*" <= s);
  }

  /** A comment that is the whole text. */
  lemma TodoComentario(l: Lengua, s: string)
    requires s != "" && !l.Cobol? && Paso(l, s) == Token(Comentario, |s|)
    ensures Trozos(l, s) == [Trozo(Comentario, s)] && SinComentarios(l, s) == ""
  {
    hide Paso;
    assert s[..|s|] == s && s[|s|..] == "";
    UnTrozo(l, s);
  }

  /** The code of a text that starts with a comment is the code of the rest. */
  lemma UnTrozo(l: Lengua, s: string)
    requires s != "" && !l.Cobol? && Paso(l, s).clase == Comentario
    ensures SinComentarios(l, s) == SinComentarios(l, s[Paso(l, s).largo..])
  {
    hide Paso;
    var resto := Trozos(l, s[Paso(l, s).largo..]);
    assert Trozos(l, s)[1..] == resto;
    assert "" + Solo(resto, Otro) == Solo(resto, Otro);
  }

  /** A text that is one comment with one character to rewrite, after the sweep. */
  lemma BarreUna(l: Lengua, r: Reglas, s: string, m: string, c: char, x: string, z: string)
    requires !l.Cobol? && Pone(r, c, x) && TodoAscii(m) && TodoAscii(z)
    requires s == m + [c] + z && Paso(l, s) == Token(Comentario, |s|)
    ensures Barre(l, r, s) == m + x + z
  {
    hide Paso, Limpia;
    BarrePaso(l, r, s);
    BarreNada(l, r);
    assert s[..|s|] == s && s[|s|..] == "";
    LimpiaUna(r, m, c, x, z);
  }

  lemma EstrellaUnComentario(l: Lengua)
    requires l.Rust? || l.C?
    ensures CON_ESTRELLA == "/*" + "\U{2605}" + "/a*/" && Paso(l, CON_ESTRELLA) == Token(Comentario, 7)
  {
    hide LargoNido, LargoHasta;
    CuerpoEntero();
    assert CON_ESTRELLA[2..] == "\U{2605}/a*/";
  }

  lemma NadaQueda()
    ensures forall d :: LargoNido("", d) == 0
  {
  }

  lemma CuerpoEntero()
    ensures LargoNido("\U{2605}/a*/", 1) == 5 && LargoHasta("\U{2605}/a*/", "*/") == 5
  {
    hide LargoNido, LargoHasta;
    CierraAqui("", 1);
    NadaQueda();
    assert "*/" + "" == "*/" && ['a'] + "*/" == "a*/" && ['/'] + "a*/" == "/a*/";
    assert ['\U{2605}'] + "/a*/" == "\U{2605}/a*/";
    UnoMas('a', "*/", 1);
    UnoMas('/', "a*/", 1);
    UnoMas('\U{2605}', "/a*/", 1);
  }

  /** What the sweep leaves begins with an empty comment. */
  lemma ComentarioVacio(l: Lengua, z: string)
    requires l.Rust? || l.C?
    ensures Paso(l, "/**/" + z) == Token(Comentario, 4) && ("/**/" + z)[4..] == z
    ensures SinComentarios(l, "/**/" + z) == SinComentarios(l, z)
  {
    hide SinComentarios;
    var s := "/**/" + z;
    CierraAqui(z, 1);
    assert s[2..] == "*/" + z && s[4..] == z && "/*" <= s && s[1] == '*';
    assert LargoNido(z, 0) == 0;
    UnTrozo(l, s);
  }

  /** A star drawn right before a slash becomes `*` and closes the comment: what was a comment is then
      read as code, the verification notices, and the file is refused. */
  lemma EstrellaRechaza(l: Lengua, r: Reglas)
    requires r.Valid() && (l.Rust? || l.C?) && Pone(r, '\U{2605}', "*")
    ensures Barre(l, r, CON_ESTRELLA) == "/**/a*/" && !Verifica(l, CON_ESTRELLA, Barre(l, r, CON_ESTRELLA))
  {
    hide Barre, SinComentarios, Paso;
    EstrellaUnComentario(l);
    TodoComentario(l, CON_ESTRELLA);
    BarreUna(l, r, CON_ESTRELLA, "/*", '\U{2605}', "*", "/a*/");
    assert "/*" + "*" + "/a*/" == "/**/a*/" == "/**/" + "a*/";
    ComentarioVacio(l, "a*/");
    PrimeroDeCodigo(l);
  }

  lemma PrimeroDeCodigo(l: Lengua)
    requires l.Rust? || l.C?
    ensures SinComentarios(l, "a*/") != ""
  {
    hide SinComentarios;
    var s := "a*/";
    assert s[0] == 'a' && !("//" <= s) && !("/*" <= s);
    assert Paso(l, s).clase == Otro;
    CodigoDelante(l, s);
  }

  const CON_BARRA := "<#\U{2588}>a#>"

  lemma CierraPs(s: string)
    requires "#>" <= s
    ensures LargoHasta(s, "#>") == 2
  {
  }

  lemma UnoMasPs(c: char, z: string)
    requires c != '#'
    ensures LargoHasta([c] + z, "#>") == 1 + LargoHasta(z, "#>")
  {
    assert ([c] + z)[1..] == z && ([c] + z)[0] == c && "#>"[0] == '#';
  }

  lemma BarraUnComentario()
    ensures CON_BARRA == "<#" + "\U{2588}" + ">a#>" && Paso(Powershell, CON_BARRA) == Token(Comentario, 7)
  {
    hide LargoHasta;
    CierraPs("#>");
    UnoMasPs('a', "#>");
    UnoMasPs('>', "a#>");
    UnoMasPs('\U{2588}', ">a#>");
    assert ['a'] + "#>" == "a#>" && ['>'] + "a#>" == ">a#>" && ['\U{2588}'] + ">a#>" == CON_BARRA[2..];
  }

  lemma VacioPs(z: string)
    requires "#>" <= z
    ensures PasoPowershell("<#" + z) == Token(Comentario, 4) && ("<#" + z)[4..] == z[2..]
  {
    hide LargoHasta;
    CierraPs(z);
    assert ("<#" + z)[2..] == z && "<#" <= "<#" + z;
  }

  lemma LetraPs(s: string)
    requires s != "" && s[0] == 'a'
    ensures PasoPowershell(s) == Token(Otro, 1)
  {
  }

  lemma CodigoTrasBarra()
    ensures SinComentarios(Powershell, "<##>a#>") != ""
  {
    hide PasoPowershell, SinComentarios;
    VacioPs("#>a#>");
    assert "<#" + "#>a#>" == "<##>a#>" && "#>a#>"[2..] == "a#>";
    UnTrozo(Powershell, "<##>a#>");
    LetraPs("a#>");
    CodigoDelante(Powershell, "a#>");
  }

  lemma CodigoDelante(l: Lengua, s: string)
    requires s != "" && !l.Cobol? && Paso(l, s).clase == Otro
    ensures SinComentarios(l, s) != ""
  {
    hide Paso;
    var t := Paso(l, s);
    assert Trozos(l, s)[0] == Trozo(Otro, s[..t.largo]);
  }

  /** The same in PowerShell: a solid block drawn right before `>` becomes `#` and closes the comment. */
  lemma BarraRechaza(r: Reglas)
    requires r.Valid() && Pone(r, '\U{2588}', "#")
    ensures Barre(Powershell, r, CON_BARRA) == "<##>a#>"
    ensures !Verifica(Powershell, CON_BARRA, Barre(Powershell, r, CON_BARRA))
  {
    hide Barre, SinComentarios, Paso;
    BarraUnComentario();
    TodoComentario(Powershell, CON_BARRA);
    BarreUna(Powershell, r, CON_BARRA, "<#", '\U{2588}', "#", ">a#>");
    assert "<#" + "#" + ">a#>" == "<##>a#>";
    CodigoTrasBarra();
  }

  // -- The spans may be lost and the file accepted all the same -----------------------------------------------

  lemma ColaSola()
    ensures forall d :: 1 <= d <= 2 ==> LargoNido(" b */", d) == 5
    ensures LargoHasta(" b */", "*/") == 5
  {
    assert "*/" + "" == "*/" && [' '] + "*/" == " */" && ['b'] + " */" == "b */" && [' '] + "b */" == " b */";
    forall d: nat | 1 <= d <= 2
      ensures LargoNido(" b */", d) == 5 && LargoHasta(" b */", "*/") == 5
    {
      CierraAqui("", d);
      UnoMas(' ', "*/", d);
      UnoMas('b', " */", d);
      UnoMas(' ', "b */", d);
    }
    assert LargoNido(" b */", 1) == 5;
  }

  lemma AbreOtro(z: string, d: nat)
    requires d >= 1
    ensures LargoNido("/*" + z, d) == 2 + LargoNido(z, d + 1)
  {
    assert ("/*" + z)[2..] == z && "/*" <= "/*" + z;
  }

  lemma CuerpoDoble()
    ensures LargoNido("\U{2605}//* b */", 1) == 9 && LargoHasta("\U{2605}//* b */", "*/") == 9
  {
    hide LargoNido, LargoHasta;
    var c := "/* b */";
    ColaSola();
    AbreOtro(" b */", 1);
    assert "/*" + " b */" == c && ['*'] + " b */" == "* b */" && ['/'] + "* b */" == c;
    assert ['/'] + c == "//* b */" && ['\U{2605}'] + "//* b */" == "\U{2605}//* b */";
    UnoMas('*', " b */", 1);
    UnoMas('/', "* b */", 1);
    UnoMas('/', c, 1);
    UnoMas('\U{2605}', "//* b */", 1);
  }

  /** The original is one comment: in Rust it is never closed. */
  lemma DosUnComentario(l: Lengua)
    requires l.Rust? || l.C?
    ensures DOS_POR_UNO == "/*" + "\U{2605}" + "//* b */" && Paso(l, DOS_POR_UNO) == Token(Comentario, 11)
  {
    hide LargoNido, LargoHasta;
    CuerpoDoble();
    assert DOS_POR_UNO[2..] == "\U{2605}//* b */";
  }

  lemma ColaComentario(l: Lengua)
    requires l.Rust? || l.C?
    ensures Paso(l, "/* b */") == Token(Comentario, 7)
  {
    ColaSola();
    assert "/* b */"[2..] == " b */";
  }

  /** One comment becomes two, so the spans are lost, and since both texts hold no code the file is
      accepted: that the blocks close by themselves is exact for the spans, not for the verdict. */
  lemma DosPorUno(l: Lengua, r: Reglas)
    requires r.Valid() && (l.Rust? || l.C?) && Pone(r, '\U{2605}', "*")
    ensures Barre(l, r, DOS_POR_UNO) == "/**//* b */"
    ensures !BloquesCierran(l, r, DOS_POR_UNO) && Verifica(l, DOS_POR_UNO, Barre(l, r, DOS_POR_UNO))
  {
    hide Barre, SinComentarios, Paso, BloquesCierran, Trozos, Barridos;
    var s := DOS_POR_UNO;
    DosUnComentario(l);
    TodoComentario(l, s);
    BarreUna(l, r, s, "/*", '\U{2605}', "*", "//* b */");
    DosComentarios(l);
    AlineadoSii(l, r, s);
    assert "/*" + "*" + "//* b */" == "/**//* b */";
    assert |Barridos(r, Trozos(l, s))| == 1;
  }

  lemma DosComentarios(l: Lengua)
    requires l.Rust? || l.C?
    ensures |Trozos(l, "/**//* b */")| == 2 && SinComentarios(l, "/**//* b */") == ""
  {
    hide SinComentarios, Paso;
    var q, cola := "/**//* b */", "/* b */";
    assert q == "/**/" + cola;
    ComentarioVacio(l, cola);
    ColaComentario(l);
    TodoComentario(l, cola);
    assert Trozos(l, q) == [Trozo(Comentario, q[..4])] + Trozos(l, cola);
  }
}
