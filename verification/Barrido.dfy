/** The rewriting of `ascii_sweep.py`: comments are put in ASCII and everything else is left alone.
    The replacement table and the mojibake repair of one run are parameters. */
module Barrido {
  import opened Escaner

  predicate EsAscii(c: char) { c as int < 128 }

  predicate SinAscii(s: string) { forall c <- s :: !EsAscii(c) }

  predicate TodoAscii(s: string) { forall c <- s :: EsAscii(c) }

  predicate EsRacha(s: string) { s != "" && SinAscii(s) }

  /** `tabla` is REPLACEMENTS and `uno` what `repair_mojibake` gives for one run. */
  datatype Reglas = Reglas(tabla: map<char, string>, uno: string -> string) {
    /** The table rewrites only characters outside ASCII, into ASCII with no newline; a run that
        decodes as UTF-8 has only bytes above 127, so it stays a run. */
    ghost predicate Valid() {
      && (forall c <- tabla :: !EsAscii(c) && TodoAscii(tabla[c]) && '\n' !in tabla[c])
      && (forall r: string :: EsRacha(r) ==> EsRacha(uno(r)))
    }
  }

  // -- One comment --------------------------------------------------------------------------------

  function LargoRacha(s: string): (n: nat)
    ensures n <= |s| && SinAscii(s[..n]) && (n < |s| ==> EsAscii(s[n]))
    ensures s != "" && !EsAscii(s[0]) ==> n >= 1
  {
    if s == "" || EsAscii(s[0]) then 0 else 1 + LargoRacha(s[1..])
  }

  /** `repair_mojibake`: every longest run outside ASCII is repaired on its own. */
  function Repara(r: Reglas, s: string): string
    decreases |s|
  {
    if s == "" then ""
    else if EsAscii(s[0]) then [s[0]] + Repara(r, s[1..])
    else r.uno(s[..LargoRacha(s)]) + Repara(r, s[LargoRacha(s)..])
  }

  function Cambia(r: Reglas, c: char): string {
    if EsAscii(c) || c !in r.tabla then [c] else r.tabla[c]
  }

  /** `transliterate`. */
  function Translitera(r: Reglas, s: string): string {
    if s == "" then "" else Cambia(r, s[0]) + Translitera(r, s[1..])
  }

  /** A comment rewritten: repaired first, transliterated second. */
  function Limpia(r: Reglas, s: string): string { Translitera(r, Repara(r, s)) }

  /** Characters with no rule, left in place and counted in `unknown`. */
  predicate Desconocida(r: Reglas, c: char) { !EsAscii(c) && c !in r.tabla }

  predicate SinDesconocidas(r: Reglas, s: string) { forall c <- Repara(r, s) :: !Desconocida(r, c) }

  lemma {:induction false} TransliteraConcat(r: Reglas, a: string, b: string)
    ensures Translitera(r, a + b) == Translitera(r, a) + Translitera(r, b)
  {
    if a == "" {
      assert a + b == b;
    } else {
      assert (a + b)[1..] == a[1..] + b;
      TransliteraConcat(r, a[1..], b);
    }
  }

  lemma LimpiaAscii(r: Reglas, s: string)
    requires s != "" && EsAscii(s[0])
    ensures Limpia(r, s) == [s[0]] + Limpia(r, s[1..])
  {
    TransliteraConcat(r, [s[0]], Repara(r, s[1..]));
    assert Translitera(r, [s[0]]) == [s[0]] + Translitera(r, [s[0]][1..]);
  }

  /** What a run becomes. */
  function Racha(r: Reglas, s: string): string
    requires s != "" && !EsAscii(s[0])
  {
    Translitera(r, r.uno(s[..LargoRacha(s)]))
  }

  lemma LimpiaRacha(r: Reglas, s: string)
    requires s != "" && !EsAscii(s[0])
    ensures Limpia(r, s) == Racha(r, s) + Limpia(r, s[LargoRacha(s)..])
  {
    TransliteraConcat(r, r.uno(s[..LargoRacha(s)]), Repara(r, s[LargoRacha(s)..]));
  }

  lemma {:induction false} TransliteraSinSalto(r: Reglas, s: string)
    requires r.Valid() && '\n' !in s
    ensures '\n' !in Translitera(r, s)
  {
    if s != "" {
      TransliteraSinSalto(r, s[1..]);
      assert s[0] in s;
    }
  }

  lemma {:induction false} LimpiaSinSalto(r: Reglas, s: string)
    requires r.Valid() && '\n' !in s
    ensures '\n' !in Limpia(r, s)
    decreases |s|
  {
    if s != "" {
      if EsAscii(s[0]) {
        LimpiaAscii(r, s);
        LimpiaSinSalto(r, s[1..]);
      } else {
        var n := LargoRacha(s);
        LimpiaRacha(r, s);
        assert EsRacha(s[..n]);
        TransliteraSinSalto(r, r.uno(s[..n]));
        LimpiaSinSalto(r, s[n..]);
      }
    }
  }

  lemma {:induction false} LimpiaIdentidad(r: Reglas, s: string)
    requires TodoAscii(s)
    ensures Limpia(r, s) == s
  {
    if s != "" {
      assert s[0] in s;
      LimpiaAscii(r, s);
      LimpiaIdentidad(r, s[1..]);
    }
  }

  lemma {:induction false} TransliteraEnAscii(r: Reglas, s: string)
    requires r.Valid() && forall c <- s :: !Desconocida(r, c)
    ensures TodoAscii(Translitera(r, s))
  {
    if s != "" {
      assert s[0] in s;
      TransliteraEnAscii(r, s[1..]);
    }
  }

  // -- The whole text --------------------------------------------------------------------------------

  function BarreTrozo(r: Reglas, t: Trozo): Trozo {
    if t.clase == Comentario then t.(texto := Limpia(r, t.texto)) else t
  }

  function Barridos(r: Reglas, ts: seq<Trozo>): (q: seq<Trozo>)
    ensures |q| == |ts|
  {
    if ts == [] then [] else [BarreTrozo(r, ts[0])] + Barridos(r, ts[1..])
  }

  /** `sweep_text` without string rewriting. */
  function Barre(l: Lengua, r: Reglas, s: string): string { Pega(Barridos(r, Trozos(l, s))) }

  function Solo(ts: seq<Trozo>, clase: Clase): string {
    if ts == [] then "" else (if ts[0].clase == clase then ts[0].texto else "") + Solo(ts[1..], clase)
  }

  /** `strip_comments`: the code, which the sweep has to leave as it was. */
  function SinComentarios(l: Lengua, s: string): string { Solo(Trozos(l, s), Otro) }

  /** `verify_only_comments_changed`. */
  predicate Verifica(l: Lengua, antes: string, despues: string) {
    SinComentarios(l, antes) == SinComentarios(l, despues)
  }

  predicate TodasConocidas(r: Reglas, ts: seq<Trozo>) {
    forall t <- ts :: t.clase == Comentario ==> SinDesconocidas(r, t.texto)
  }

  // -- After a sweep that passes there is nothing left to sweep -------------------------------------------

  function NoAscii(s: string): nat {
    if s == "" then 0 else (if EsAscii(s[0]) then 0 else 1) + NoAscii(s[1..])
  }

  lemma {:induction false} NoAsciiConcat(a: string, b: string)
    ensures NoAscii(a + b) == NoAscii(a) + NoAscii(b)
  {
    if a == "" {
      assert a + b == b;
    } else {
      assert (a + b)[1..] == a[1..] + b;
      NoAsciiConcat(a[1..], b);
    }
  }

  lemma {:induction false} NoAsciiCero(s: string)
    ensures NoAscii(s) == 0 <==> TodoAscii(s)
  {
    if s != "" {
      NoAsciiCero(s[1..]);
      assert s == [s[0]] + s[1..];
    }
  }

  /** The characters outside ASCII are those of the code and those of the comments. */
  lemma {:induction false} NoAsciiPorClase(ts: seq<Trozo>)
    ensures NoAscii(Pega(ts)) == NoAscii(Solo(ts, Otro)) + NoAscii(Solo(ts, Comentario))
  {
    if ts != [] {
      NoAsciiPorClase(ts[1..]);
      NoAsciiConcat(ts[0].texto, Pega(ts[1..]));
      NoAsciiConcat(ts[0].texto, Solo(ts[1..], Otro));
      NoAsciiConcat(ts[0].texto, Solo(ts[1..], Comentario));
      assert "" + Solo(ts[1..], Otro) == Solo(ts[1..], Otro);
      assert "" + Solo(ts[1..], Comentario) == Solo(ts[1..], Comentario);
    }
  }

  lemma {:induction false} BarridosPorClase(r: Reglas, ts: seq<Trozo>)
    requires r.Valid() && TodasConocidas(r, ts)
    ensures Solo(Barridos(r, ts), Otro) == Solo(ts, Otro)
    ensures NoAscii(Solo(Barridos(r, ts), Comentario)) == 0
  {
    if ts != [] {
      var t := BarreTrozo(r, ts[0]);
      BarridosPorClase(r, ts[1..]);
      assert Barridos(r, ts)[1..] == Barridos(r, ts[1..]);
      if t.clase == Comentario {
        assert SinDesconocidas(r, ts[0].texto);
        TransliteraEnAscii(r, Repara(r, ts[0].texto));
        NoAsciiCero(t.texto);
        NoAsciiConcat(t.texto, Solo(Barridos(r, ts[1..]), Comentario));
      } else {
        assert "" + Solo(Barridos(r, ts[1..]), Comentario) == Solo(Barridos(r, ts[1..]), Comentario);
      }
    }
  }

  lemma {:induction false} ComentariosAscii(r: Reglas, ts: seq<Trozo>)
    requires NoAscii(Solo(ts, Comentario)) == 0
    ensures forall t <- ts :: t.clase == Comentario ==> TodoAscii(t.texto)
    ensures Barridos(r, ts) == ts
  {
    if ts != [] {
      if ts[0].clase == Comentario {
        NoAsciiConcat(ts[0].texto, Solo(ts[1..], Comentario));
        NoAsciiCero(ts[0].texto);
        LimpiaIdentidad(r, ts[0].texto);
      } else {
        assert "" + Solo(ts[1..], Comentario) == Solo(ts[1..], Comentario);
      }
      ComentariosAscii(r, ts[1..]);
    }
  }

  /** In every language, by counting across two scans that need not agree: if no character lacked a
      rule and the verification passed, every comment that a new scan finds is pure ASCII, and a
      second sweep changes nothing. */
  lemma SegundaVueltaNada(l: Lengua, r: Reglas, antes: string)
    requires r.Valid() && TodasConocidas(r, Trozos(l, antes))
    requires Verifica(l, antes, Barre(l, r, antes))
    ensures var despues := Barre(l, r, antes);
            && (forall t <- Trozos(l, despues) :: t.clase == Comentario ==> TodoAscii(t.texto))
            && Barre(l, r, despues) == despues
  {
    var despues := Barre(l, r, antes);
    var ts := Trozos(l, antes);
    var us := Trozos(l, despues);
    BarridosPorClase(r, ts);
    NoAsciiPorClase(Barridos(r, ts));
    Cobertura(l, despues);
    NoAsciiPorClase(us);
    ComentariosAscii(r, us);
  }
}
