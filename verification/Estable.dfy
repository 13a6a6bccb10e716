/** Scanning the rewritten text again finds the same spans. In TOML and Ada always, whatever the table
    of `ascii_sweep.py` says, so there the sweep is never refused. */
module Estable {
  import opened Escaner
  import opened Barrido

  /** The first `n` characters agree, the end of the text included. */
  predicate Acuerdo(a: string, b: string, n: nat) {
    if n == 0 then true
    else if a == "" || b == "" then a == b
    else a[0] == b[0] && Acuerdo(a[1..], b[1..], n - 1)
  }

  lemma {:induction false} AcuerdoIgual(a: string, n: nat)
    ensures Acuerdo(a, a, n)
  {
    if n > 0 && a != "" {
      AcuerdoIgual(a[1..], n - 1);
    }
  }

  lemma {:induction false} AcuerdoMenos(a: string, b: string, n: nat, m: nat)
    requires m <= n && Acuerdo(a, b, n)
    ensures Acuerdo(a, b, m)
  {
    if m > 0 && a != "" && b != "" {
      AcuerdoMenos(a[1..], b[1..], n - 1, m - 1);
    }
  }

  /** A common start lengthens the agreement. */
  lemma {:induction false} AcuerdoTras(a: string, y: string, z: string, n: nat)
    requires Acuerdo(y, z, n)
    ensures Acuerdo(a + y, a + z, |a| + n)
  {
    if a == "" {
      assert a + y == y && a + z == z;
    } else {
      AcuerdoTras(a[1..], y, z, n);
      assert (a + y)[1..] == a[1..] + y && (a + z)[1..] == a[1..] + z;
    }
  }

  // -- A span is determined by what it holds and by a short look ahead --------------------------------

  lemma {:induction false} SaltoEstable(a: string, y: string, z: string)
    requires HastaSalto(a + y) == |a| && Acuerdo(y, z, 1)
    ensures HastaSalto(a + z) == |a|
  {
    if a == "" {
      assert a + y == y && a + z == z;
    } else {
      assert (a + y)[1..] == a[1..] + y && (a + z)[1..] == a[1..] + z;
      SaltoEstable(a[1..], y, z);
    }
  }

  lemma {:induction false} HastaMinimo(s: string, q: string)
    requires q != "" && LargoHasta(s, q) < |s|
    ensures LargoHasta(s, q) >= |q|
  {
    if s != "" && !(q <= s) {
      HastaMinimo(s[1..], q);
    }
  }

  /** A terminator that ends the span is found again, whatever follows. */
  lemma {:induction false} HastaEstable(a: string, y: string, z: string, q: string)
    requires q != "" && LargoHasta(a + y, q) == |a| && (y == "" ==> z == "")
    ensures LargoHasta(a + z, q) == |a|
  {
    if a == "" {
      assert a + y == y && a + z == z;
    } else {
      assert (a + y)[1..] == a[1..] + y && (a + z)[1..] == a[1..] + z;
      if q <= a + y {
        assert q == (a + y)[..|a|] == a;
        assert q <= a + z;
      } else {
        HastaEstable(a[1..], y, z, q);
        if q <= a + z && |q| > |a| && y != "" {
          HastaMinimo(a[1..] + y, q);
        }
      }
    }
  }

  lemma {:induction false} CadenaEstable(a: string, y: string, z: string)
    requires LargoCadena(a + y) == |a| && (y == "" ==> z == "")
    ensures LargoCadena(a + z) == |a|
  {
    if a == "" {
      assert a + y == y && a + z == z;
    } else {
      assert (a + y)[1..] == a[1..] + y && (a + z)[1..] == a[1..] + z;
      if a[0] == '\\' {
        if |a| >= 2 {
          assert (a + y)[2..] == a[2..] + y && (a + z)[2..] == a[2..] + z;
          CadenaEstable(a[2..], y, z);
        } else {
          assert y == "";
        }
      } else if a[0] != '"' {
        CadenaEstable(a[1..], y, z);
      }
    }
  }

  lemma {:induction false} IdentEstable(a: string, y: string, z: string, letra: char -> bool)
    requires LargoIdent(a + y, letra) == |a| && Acuerdo(y, z, 1)
    ensures LargoIdent(a + z, letra) == |a|
  {
    if a == "" {
      assert a + y == y && a + z == z;
    } else {
      assert (a + y)[1..] == a[1..] + y && (a + z)[1..] == a[1..] + z;
      IdentEstable(a[1..], y, z, letra);
    }
  }

  lemma {:induction false} LlanoEstable(a: string, y: string, z: string)
    requires LargoLlano(a + y) == |a| && Acuerdo(y, z, 1)
    ensures LargoLlano(a + z) == |a|
  {
    if a == "" {
      assert a + y == y && a + z == z;
    } else {
      assert (a + y)[1..] == a[1..] + y && (a + z)[1..] == a[1..] + z;
      LlanoEstable(a[1..], y, z);
    }
  }

  lemma {:induction false} RBEstable(a: string, y: string, z: string)
    requires LargoRB(a + y) == |a| && Acuerdo(y, z, 1)
    ensures LargoRB(a + z) == |a|
  {
    if a == "" {
      assert a + y == y && a + z == z;
    } else {
      assert (a + y)[1..] == a[1..] + y && (a + z)[1..] == a[1..] + z;
      RBEstable(a[1..], y, z);
    }
  }

  lemma {:induction false} AlmohadillasEstable(a: string, y: string, z: string)
    requires LargoAlmohadillas(a + y) == |a| && Acuerdo(y, z, 1)
    ensures LargoAlmohadillas(a + z) == |a|
  {
    if a == "" {
      assert a + y == y && a + z == z;
    } else {
      assert (a + y)[1..] == a[1..] + y && (a + z)[1..] == a[1..] + z;
      AlmohadillasEstable(a[1..], y, z);
    }
  }

  /** The look-ahead of a raw string stops at the same place when the texts agree up to there. */
  lemma SitioEstable(s: string, z: string)
    requires Acuerdo(s[SitioComilla(s)..], z, 1)
    ensures var k := SitioComilla(s); SitioComilla(s[..k] + z) == k && LargoRB(s[..k] + z) == LargoRB(s)
  {
    var i := LargoRB(s);
    var k := SitioComilla(s);
    var a, b, y := s[..i], s[i..k], s[k..];
    assert s == a + (b + y) && s[i..] == b + y && s[..k] + z == a + (b + z);
    AlmohadillasEstable(b, y, z);
    AcuerdoTras(b, y, z, 1);
    AcuerdoMenos(b + y, b + z, |b| + 1, 1);
    RBEstable(a, b + y, b + z);
    assert (a + (b + z))[i..] == b + z;
  }

  lemma {:induction false} SinComillaHasta(a: string, y: string, q: char)
    requires LargoHasta(a + y, [q]) > |a|
    ensures q !in a
  {
    if a != "" {
      assert (a + y)[1..] == a[1..] + y;
      if a[0] != q {
        SinComillaHasta(a[1..], y, q);
      }
    }
  }

  lemma {:induction false} HastaTrasSinComilla(a: string, z: string, q: char)
    requires q !in a
    ensures LargoHasta(a + z, [q]) >= |a|
  {
    if a != "" {
      assert (a + z)[1..] == a[1..] + z;
      assert a[0] in a && (a + z)[0] == a[0] && [q][0] == q;
      assert !([q] <= a + z);
      HastaTrasSinComilla(a[1..], z, q);
    }
  }

  lemma {:induction false} SaltoTras(a: string, z: string)
    requires '\n' !in a
    ensures HastaSalto(a + z) >= |a|
  {
    if a != "" {
      assert (a + z)[1..] == a[1..] + z;
      SaltoTras(a[1..], z);
    }
  }

  lemma EnLineaEstable(a: string, y: string, z: string, c: char)
    requires a != "" && a[0] == c != '\n' && LargoEnLinea(a + y, [c]) == |a| && Acuerdo(y, z, 1)
    ensures LargoEnLinea(a + z, [c]) == |a|
  {
    var b := a[1..];
    assert (a + y)[1..] == b + y && (a + z)[1..] == b + z;
    if LargoHasta(b + y, [c]) > |b| {
      SaltoEstable(a, y, z);
      SinComillaHasta(b, y, c);
      HastaTrasSinComilla(b, z, c);
    } else {
      HastaEstable(b, y, z, [c]);
      assert (a + y)[..HastaSalto(a + y)][..|a|] == a;
      SaltoTras(a, z);
    }
  }

  // -- The rewritten text, token by token ---------------------------------------------------------------

  /** The first span of `s` after the rewriting. */
  function Primero(l: Lengua, r: Reglas, s: string): string
    requires s != "" && !l.Cobol?
  {
    var t := Paso(l, s);
    if t.clase == Comentario then Limpia(r, s[..t.largo]) else s[..t.largo]
  }

  lemma BarrePaso(l: Lengua, r: Reglas, s: string)
    requires s != "" && !l.Cobol?
    ensures Barre(l, r, s) == Primero(l, r, s) + Barre(l, r, s[Paso(l, s).largo..])
  {
    hide Paso, Limpia;
    var t := Paso(l, s);
    var ts := Trozos(l, s);
    assert ts == [Trozo(t.clase, s[..t.largo])] + Trozos(l, s[t.largo..]);
    assert ts[1..] == Trozos(l, s[t.largo..]);
    assert Barridos(r, ts)[1..] == Barridos(r, ts[1..]);
  }

  /** The first `n` characters of every comment are its mark, which is ASCII. */
  function Marca(l: Lengua): nat { if l.Toml? || l.Powershell? then 1 else 2 }

  lemma MarcaAscii(l: Lengua, s: string)
    requires s != "" && !l.Cobol? && Paso(l, s).clase == Comentario
    ensures Paso(l, s).largo >= Marca(l) && TodoAscii(s[..Marca(l)])
  {
    if '\n' !in s[..Marca(l)] {
      SaltoTras(s[..Marca(l)], s[Marca(l)..]);
      assert s == s[..Marca(l)] + s[Marca(l)..];
    }
  }

  lemma {:induction false} LimpiaMarca(r: Reglas, m: string, b: string)
    requires TodoAscii(m)
    ensures Limpia(r, m + b) == m + Limpia(r, b)
  {
    hide Limpia;
    if m == "" {
      assert m + b == b && "" + Limpia(r, b) == Limpia(r, b);
    } else {
      assert m[0] in m;
      assert (m + b)[1..] == m[1..] + b;
      LimpiaAscii(r, m + b);
      LimpiaMarca(r, m[1..], b);
      assert [m[0]] + (m[1..] + Limpia(r, b)) == m + Limpia(r, b);
    }
  }

  /** The table writes `c` as `x`, and `c` on its own is no mojibake. */
  ghost predicate Pone(r: Reglas, c: char, x: string) {
    !EsAscii(c) && c in r.tabla && r.tabla[c] == x && r.uno([c]) == [c]
  }

  /** A comment with one character to rewrite. */
  lemma LimpiaUna(r: Reglas, m: string, c: char, x: string, z: string)
    requires Pone(r, c, x) && TodoAscii(m) && TodoAscii(z)
    ensures Limpia(r, m + [c] + z) == m + x + z
  {
    hide Limpia;
    var b := [c] + z;
    assert m + [c] + z == m + b && b[1..] == z && (z != "" ==> z[0] in z);
    LimpiaMarca(r, m, b);
    assert LargoRacha(z) == 0 && b[..1] == [c];
    LimpiaRacha(r, b);
    assert Translitera(r, [c]) == x + Translitera(r, [c][1..]) == x;
    LimpiaIdentidad(r, z);
    assert m + (x + z) == m + x + z;
  }

  /** The rewritten text starts like the original. */
  lemma {:induction false} CabezaIgual(l: Lengua, r: Reglas, s: string, n: nat)
    requires !l.Cobol? && n <= Marca(l)
    ensures Acuerdo(s, Barre(l, r, s), n)
    decreases |s|
  {
    hide Paso, Limpia, Barre;
    BarreNada(l, r);
    if s != "" && n > 0 {
      var t := Paso(l, s);
      var a, y := s[..t.largo], s[t.largo..];
      var z := Barre(l, r, y);
      assert s == a + y;
      BarrePaso(l, r, s);
      if t.clase == Comentario {
        MarcaAscii(l, s);
        CabezaComentario(r, s[..Marca(l)], a[Marca(l)..], y, z);
        assert s[..Marca(l)] + a[Marca(l)..] == a;
        AcuerdoMenos(s, Barre(l, r, s), Marca(l), n);
      } else if t.largo >= n {
        AcuerdoTras(a, y, z, 0);
        AcuerdoMenos(s, a + z, t.largo, n);
      } else {
        CabezaIgual(l, r, y, n - t.largo);
        AcuerdoTras(a, y, z, n - t.largo);
      }
    }
  }

  lemma CabezaComentario(r: Reglas, m: string, b: string, y: string, z: string)
    requires TodoAscii(m)
    ensures Acuerdo((m + b) + y, Limpia(r, m + b) + z, |m|)
  {
    hide Limpia;
    LimpiaMarca(r, m, b);
    AcuerdoTras(m, b + y, Limpia(r, b) + z, 0);
    assert m + (b + y) == (m + b) + y;
    assert m + (Limpia(r, b) + z) == Limpia(r, m + b) + z;
  }

  lemma {:induction false} SaltoDe(x: string, z: string)
    requires '\n' !in x && (z == "" || z[0] == '\n')
    ensures HastaSalto(x + z) == |x|
  {
    if x == "" {
      assert x + z == z;
    } else {
      assert x[0] in x && (x + z)[1..] == x[1..] + z;
      SaltoDe(x[1..], z);
    }
  }

  /** A line comment is rewritten into a line comment. */
  lemma LineaEstable(r: Reglas, a: string, y: string, z: string, marca: string)
    requires r.Valid() && TodoAscii(marca) && marca <= a && HastaSalto(a + y) == |a| && Acuerdo(y, z, 1)
    ensures var x := Limpia(r, a); marca <= x && HastaSalto(x + z) == |x|
  {
    LimpiaMarca(r, marca, a[|marca|..]);
    assert marca + a[|marca|..] == a;
    assert (a + y)[..|a|] == a;
    LimpiaSinSalto(r, a);
    if y != "" {
      assert (a + y)[|a|] == y[0];
    }
    SaltoDe(Limpia(r, a), z);
  }

  // -- TOML and Ada: never refused ------------------------------------------------------------------------

  lemma TomlOtroEstable(a: string, y: string, z: string)
    requires a != "" && PasoToml(a + y) == Token(Otro, |a|) && Acuerdo(y, z, 1)
    ensures PasoToml(a + z) == Token(Otro, |a|)
  {
    var s, s' := a + y, a + z;
    if "\"\"\"" <= s {
      assert s[3..] == a[3..] + y && s'[3..] == a[3..] + z;
      HastaEstable(a[3..], y, z, "\"\"\"");
    } else if "'''" <= s {
      assert s[3..] == a[3..] + y && s'[3..] == a[3..] + z;
      HastaEstable(a[3..], y, z, "'''");
    } else if a[0] == '"' {
      EnLineaEstable(a, y, z, '"');
      CortaEstable(a, y, z, '"');
    } else if a[0] == '\'' {
      EnLineaEstable(a, y, z, '\'');
      CortaEstable(a, y, z, '\'');
    }
  }

  /** A short quoted string is not read as the start of a triple quote. */
  lemma CortaEstable(a: string, y: string, z: string, c: char)
    requires a != "" && a[0] == c != '\n' && !([c, c, c] <= a + y)
    requires LargoEnLinea(a + y, [c]) == |a| && Acuerdo(y, z, 1)
    ensures !([c, c, c] <= a + z)
  {
    if |a| == 1 {
      assert (a + y)[1..] == y;
      assert y == "" || y[0] == '\n';
      assert z != "" ==> (a + z)[1] == z[0] == y[0];
    } else if |a| == 2 && z != "" {
      assert (a + z)[2] == z[0] == y[0] == (a + y)[2];
    }
  }

  lemma AdaOtroEstable(a: string, y: string, z: string)
    requires a != "" && PasoAda(a + y) == Token(Otro, |a|) && Acuerdo(y, z, 2)
    ensures PasoAda(a + z) == Token(Otro, |a|)
  {
    AcuerdoMenos(y, z, 2, 1);
    if a[0] == '"' {
      EnLineaEstable(a, y, z, '"');
    }
  }

  lemma UnPasoAlineado(l: Lengua, r: Reglas, s: string, z: string)
    requires r.Valid() && (l.Toml? || l.Ada?) && s != ""
    requires Acuerdo(s[Paso(l, s).largo..], z, Marca(l))
    ensures var x := Primero(l, r, s); x != "" && Paso(l, x + z) == Token(Paso(l, s).clase, |x|)
  {
    hide Limpia;
    var t := Paso(l, s);
    var a, y := s[..t.largo], s[t.largo..];
    assert s == a + y;
    AcuerdoMenos(y, z, Marca(l), 1);
    if t.clase == Comentario {
      LineaEstable(r, a, y, z, if l.Toml? then "#" else "--");
    } else if l.Toml? {
      TomlOtroEstable(a, y, z);
    } else {
      AdaOtroEstable(a, y, z);
    }
  }

  /** TOML and Ada, with any table: the rewritten text has the spans of the original, each comment in
      its rewritten form. */
  lemma {:induction false} SiempreAlineado(l: Lengua, r: Reglas, s: string)
    requires r.Valid() && (l.Toml? || l.Ada?)
    ensures Trozos(l, Barre(l, r, s)) == Barridos(r, Trozos(l, s))
    decreases |s|
  {
    hide Paso, Limpia, Primero, Barre, Marca;
    if s == "" {
      BarreNada(l, r);
    } else {
      var y := s[Paso(l, s).largo..];
      BarrePaso(l, r, s);
      CabezaIgual(l, r, y, Marca(l));
      UnPasoAlineado(l, r, s, Barre(l, r, y));
      SiempreAlineado(l, r, y);
      UneTrozos(l, r, s, Barre(l, r, y));
    }
  }

  lemma BarreNada(l: Lengua, r: Reglas)
    ensures Barre(l, r, "") == ""
  {
  }

  /** From one aligned step to the aligned text. */
  lemma UneTrozos(l: Lengua, r: Reglas, s: string, z: string)
    requires s != "" && !l.Cobol?
    requires var t := Paso(l, s); var x := Primero(l, r, s);
             && x + z != "" && Paso(l, x + z) == Token(t.clase, |x|)
             && Trozos(l, z) == Barridos(r, Trozos(l, s[t.largo..]))
    ensures Trozos(l, Primero(l, r, s) + z) == Barridos(r, Trozos(l, s))
  {
    hide Paso, Limpia;
    var t := Paso(l, s);
    var x := Primero(l, r, s);
    assert (x + z)[..|x|] == x && (x + z)[|x|..] == z;
    assert Trozos(l, s)[1..] == Trozos(l, s[t.largo..]);
  }

  lemma {:induction false} BarridosMismoCodigo(r: Reglas, ts: seq<Trozo>)
    ensures Solo(Barridos(r, ts), Otro) == Solo(ts, Otro)
  {
    if ts != [] {
      BarridosMismoCodigo(r, ts[1..]);
      assert Barridos(r, ts)[1..] == Barridos(r, ts[1..]);
    }
  }

  /** The sweep of a TOML or Ada file is never refused, whatever the table says. */
  lemma NuncaRechazado(l: Lengua, r: Reglas, s: string)
    requires r.Valid() && (l.Toml? || l.Ada?)
    ensures Verifica(l, s, Barre(l, r, s))
  {
    SiempreAlineado(l, r, s);
    BarridosMismoCodigo(r, Trozos(l, s));
  }
}
