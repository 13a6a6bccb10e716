/** The paths that the `use` trees of a Rust text name: `_ruta`, `_grupo` and `usos` of `capas.py`. */
module Usos {
  import opened Textos

  type Ruta = seq<string>

  // -- Identifiers and pieces -------------------------------------------------------------------------

  predicate EsLetra(c: char) { 'A' <= c <= 'Z' || 'a' <= c <= 'z' || c == '_' }

  predicate EsLetraODigito(c: char) { EsLetra(c) || EsDigito(c) }

  function LargoCola(s: string): (n: nat)
    ensures n <= |s|
  {
    if s != "" && EsLetraODigito(s[0]) then 1 + LargoCola(s[1..]) else 0
  }

  /** How many characters `IDENT` takes from the beginning of `s`; none when it does not match. */
  function LargoIdent(s: string): (n: nat)
    ensures n <= |s|
  {
    if s != "" && EsLetra(s[0]) then 1 + LargoCola(s[1..]) else 0
  }

  /** The pieces of a group, cut at the commas of its own level, up to the brace that closes it. What is
      left when that brace is missing is no piece. */
  function Piezas(s: string, prof: nat, acum: string): seq<string>
    decreases |s|
  {
    if s == "" then []
    else
      var c := s[0];
      if c == '{' then Piezas(s[1..], prof + 1, acum + [c])
      else if c == '}' then if prof == 0 then [acum] else Piezas(s[1..], prof - 1, acum + [c])
      else if c == ',' && prof == 0 then [acum] + Piezas(s[1..], 0, "")
      else Piezas(s[1..], prof, acum + [c])
  }

  lemma {:induction false} PiezasCortas(s: string, prof: nat, acum: string)
    ensures forall p <- Piezas(s, prof, acum) :: |p| <= |acum| + |s|
    decreases |s|
  {
    if s != "" {
      var c := s[0];
      if c == '}' && prof == 0 {
      } else if c == ',' && prof == 0 {
        PiezasCortas(s[1..], 0, "");
      } else {
        PiezasCortas(s[1..], if c == '{' then prof + 1 else if c == '}' then prof - 1 else prof, acum + [c]);
      }
    }
  }

  // -- What the two functions compute --------------------------------------------------------------------

  /** `_ruta` on the text from `i` on. */
  function DeRuta(s: string, prefijo: Ruta): seq<Ruta>
    decreases |s|, 0, 0
  {
    var n := LargoIdent(s);
    if n > 0 then
      var ruta := prefijo + [s[..n]];
      var r := s[n..];
      if "::" <= r then
        if "{" <= r[2..] then DeGrupo(r[3..], ruta) else DeRuta(r[2..], ruta)
      else [ruta]
    else if "{" <= s then DeGrupo(s[1..], prefijo)
    else if prefijo != [] then [prefijo]
    else []
  }

  /** `_grupo` on the text after the brace. */
  function DeGrupo(s: string, prefijo: Ruta): seq<Ruta>
    decreases |s|, 2, 0
  {
    PiezasCortas(s, 0, "");
    DePiezas(Piezas(s, 0, ""), prefijo, |s|)
  }

  function DePieza(p: string, prefijo: Ruta): seq<Ruta>
    decreases |p|, 0, 1
  {
    var tr := Pelar(p);
    if tr == "self" then [prefijo]
    else if tr != "" then DeRuta(tr, prefijo)
    else []
  }

  function DePiezas(ps: seq<string>, prefijo: Ruta, tope: nat): seq<Ruta>
    requires forall p <- ps :: |p| <= tope
    decreases tope, 1, |ps|
  {
    if ps == [] then [] else DePieza(ps[0], prefijo) + DePiezas(ps[1..], prefijo, tope)
  }

  // -- The program ------------------------------------------------------------------------------------------

  method Ident(t: string, i: nat) returns (fin: nat)
    requires i <= |t|
    ensures fin == i + LargoIdent(t[i..])
  {
    fin := i;
    if i < |t| && EsLetra(t[i]) {
      fin := i + 1;
      while fin < |t| && EsLetraODigito(t[fin])
        invariant i < fin <= |t|
        invariant i + LargoIdent(t[i..]) == fin + LargoCola(t[fin..])
      {
        assert t[fin..][1..] == t[fin + 1..];
        fin := fin + 1;
      }
    }
  }

  /** `t.startswith(p, i)`. */
  predicate Empieza(t: string, p: string, i: nat): (r: bool)
    requires i <= |t|
    ensures r <==> p <= t[i..]
  {
    i + |p| <= |t| && t[i..i + |p|] == p
  }

  /** `_ruta`. */
  method RutaDe(t: string, i0: nat, prefijo: Ruta) returns (salida: seq<Ruta>)
    requires i0 <= |t|
    ensures salida == DeRuta(t[i0..], prefijo)
    decreases |t| - i0, 0
  {
    hide LargoIdent, DeGrupo, Empieza;
    var ruta := prefijo;
    var i := i0;
    while true
      invariant i0 <= i <= |t|
      invariant DeRuta(t[i0..], prefijo) == DeRuta(t[i..], ruta)
      decreases |t| - i
    {
      ghost var s := t[i..];
      var m := Ident(t, i);
      if m > i {
        assert s[..m - i] == t[i..m] && s[m - i..] == t[m..];
        ruta := ruta + [t[i..m]];
        i := m;
        if Empieza(t, "::", i) {
          assert "::" <= t[i..] && t[i..][2..] == t[i + 2..];
          i := i + 2;
          if Empieza(t, "{", i) {
            assert t[i - 2..][3..] == t[i + 1..];
            salida := GrupoDe(t, i + 1, ruta);
            return;
          }
          assert !("{" <= t[i..]);
          continue;
        }
        assert !("::" <= t[i..]);
        return [ruta];
      }
      if Empieza(t, "{", i) {
        assert s[1..] == t[i + 1..];
        salida := GrupoDe(t, i + 1, ruta);
        return;
      }
      assert !("{" <= s);
      return if ruta != [] then [ruta] else [];
    }
  }

  /** `_grupo`. */
  method GrupoDe(t: string, i: nat, prefijo: Ruta) returns (salida: seq<Ruta>)
    requires i <= |t|
    ensures salida == DeGrupo(t[i..], prefijo)
    decreases |t| - i, 2
  {
    hide DeRuta, Pelar, Piezas, DePieza, DePiezas;
    var trozos := Trozos(t, i);
    PiezasCortas(t[i..], 0, "");
    salida := [];
    var k := 0;
    ghost var tope := |t| - i;
    assert trozos[0..] == trozos;
    while k < |trozos|
      invariant k <= |trozos|
      invariant salida + DePiezas(trozos[k..], prefijo, tope) == DePiezas(trozos, prefijo, tope)
    {
      assert trozos[k] in trozos;
      var tr := Pelar(trozos[k]);
      UnaPieza(trozos[k], prefijo);
      PiezaAPieza(trozos, k, prefijo, tope);
      ghost var resto := DePiezas(trozos[k + 1..], prefijo, tope);
      Asocia(salida, DePieza(trozos[k], prefijo), resto);
      if tr == "self" {
        salida := salida + [prefijo];
      } else if tr != "" {
        var mas := RutaDe(tr, 0, prefijo);
        assert tr[0..] == tr;
        salida := salida + mas;
      }
      SinMas(salida);
      k := k + 1;
    }
    assert trozos[|trozos|..] == [] && DePiezas([], prefijo, tope) == [] by { SinPiezas(prefijo, tope); }
    SinMas(salida);
  }

  lemma SinPiezas(prefijo: Ruta, tope: nat)
    ensures DePiezas([], prefijo, tope) == []
  {
  }

  lemma PiezaAPieza(ps: seq<string>, k: nat, prefijo: Ruta, tope: nat)
    requires k < |ps| && forall p <- ps :: |p| <= tope
    ensures DePiezas(ps[k..], prefijo, tope) == DePieza(ps[k], prefijo) + DePiezas(ps[k + 1..], prefijo, tope)
  {
    hide DePieza;
    assert ps[k..][1..] == ps[k + 1..];
  }

  lemma UnaPieza(p: string, prefijo: Ruta)
    ensures DePieza(p, prefijo)
            == var tr := Pelar(p);
               if tr == "self" then [prefijo] else if tr != "" then DeRuta(tr, prefijo) else []
  {
  }

  lemma UnCaracter(c: char, resto: string, prof: nat, acum: string)
    ensures Piezas([c] + resto, prof, acum)
            == if c == '{' then Piezas(resto, prof + 1, acum + [c])
               else if c == '}' && prof == 0 then [acum]
               else if c == '}' then Piezas(resto, prof - 1, acum + [c])
               else if c == ',' && prof == 0 then [acum] + Piezas(resto, 0, "")
               else Piezas(resto, prof, acum + [c])
  {
    assert ([c] + resto)[1..] == resto;
  }

  lemma SinCaracteres(prof: nat, acum: string)
    ensures Piezas("", prof, acum) == []
  {
  }

  /** The first loop of `_grupo`. */
  method Trozos(t: string, i: nat) returns (trozos: seq<string>)
    requires i <= |t|
    ensures trozos == Piezas(t[i..], 0, "")
  {
    hide Piezas;
    trozos := [];
    var prof, inicio, j := 0, i, i;
    ghost var todas := Piezas(t[i..], 0, "");
    assert t[i..i] == "" && [] + todas == todas;
    while j < |t|
      invariant i <= inicio <= j <= |t| && prof >= 0
      invariant todas == trozos + Piezas(t[j..], prof, t[inicio..j])
    {
      var c := t[j];
      ghost var resto, acum := t[j + 1..], t[inicio..j];
      assert t[j..] == [c] + resto && acum + [c] == t[inicio..j + 1];
      UnCaracter(c, resto, prof, acum);
      if c == '{' {
        prof := prof + 1;
      } else if c == '}' {
        if prof == 0 {
          trozos := trozos + [t[inicio..j]];
          return;
        }
        prof := prof - 1;
      } else if c == ',' && prof == 0 {
        assert trozos + ([acum] + Piezas(resto, 0, "")) == (trozos + [acum]) + Piezas(resto, 0, "");
        assert t[j + 1..j + 1] == "";
        trozos := trozos + [t[inicio..j]];
        inicio := j + 1;
      }
      j := j + 1;
    }
    assert t[|t|..] == "" && Piezas("", prof, t[inicio..j]) == [] by { SinCaracteres(prof, t[inicio..j]); }
    assert trozos + [] == trozos;
  }

  // -- Printed trees ---------------------------------------------------------------------------------------------

  /** How a path ends: in its last name and perhaps an `as`, in a star, or in a group. */
  datatype Fin = Nombre(alias: string) | Estrella | Grupo(items: seq<Item>)

  /** A piece of a group with the blanks around it; a piece may be empty, as after a last comma. */
  datatype Item = Item(antes: string, que: Que, despues: string)

  datatype Que = Vacio | Self | Sub(uso: Uso)

  datatype Uso = Uso(segs: seq<string>, fin: Fin)

  function ImprimeSegs(segs: seq<string>): string {
    if segs == [] then "" else if |segs| == 1 then segs[0] else segs[0] + "::" + ImprimeSegs(segs[1..])
  }

  function Imprime(u: Uso): string
    decreases u
  {
    match u.fin
    case Nombre(alias) => ImprimeSegs(u.segs) + alias
    case Estrella => ImprimeSegs(u.segs) + Doble(u.segs) + "*"
    case Grupo(items) => ImprimeSegs(u.segs) + Doble(u.segs) + "{" + ImprimeItems(items) + "}"
  }

  function Doble(segs: seq<string>): string { if segs == [] then "" else "::" }

  function ImprimeQue(q: Que): string
    decreases q
  {
    match q
    case Vacio => ""
    case Self => "self"
    case Sub(u) => Imprime(u)
  }

  function ImprimeItems(items: seq<Item>): string
    decreases items
  {
    if items == [] then ""
    else if |items| == 1 then ImprimeItem(items[0])
    else ImprimeItem(items[0]) + "," + ImprimeItems(items[1..])
  }

  function ImprimeItem(it: Item): string
    decreases it
  {
    it.antes + ImprimeQue(it.que) + it.despues
  }

  /** The root-to-leaf paths of a tree, in order. */
  function Caminos(u: Uso, prefijo: Ruta): seq<Ruta>
    decreases u
  {
    var ruta := prefijo + u.segs;
    match u.fin
    case Nombre(_) => [ruta]
    case Estrella => if ruta == [] then [] else [ruta]
    case Grupo(items) => CaminosItems(items, ruta)
  }

  function CaminosItem(it: Item, prefijo: Ruta): seq<Ruta>
    decreases it
  {
    match it.que
    case Vacio => []
    case Self => [prefijo]
    case Sub(u) => Caminos(u, prefijo)
  }

  function CaminosItems(items: seq<Item>, prefijo: Ruta): seq<Ruta>
    decreases items
  {
    if items == [] then [] else CaminosItem(items[0], prefijo) + CaminosItems(items[1..], prefijo)
  }

  predicate EsIdent(s: string) {
    s != "" && EsLetra(s[0]) && forall c <- s :: EsLetraODigito(c)
  }

  /** What may follow a last name without being read as more of the path. */
  predicate NoSigue(s: string) { s != "" ==> !EsLetraODigito(s[0]) && !("::" <= s) }

  predicate SinLlaves(s: string) { forall c <- s :: c != '{' && c != '}' && c != ',' }

  predicate BuenAlias(s: string) {
    SinLlaves(s) && NoSigue(s) && (s != "" ==> !Blanco(s[|s| - 1]))
  }

  predicate Bueno(u: Uso)
    decreases u
  {
    && (forall s <- u.segs :: EsIdent(s))
    && match u.fin
       case Nombre(alias) => u.segs != [] && BuenAlias(alias)
       case Estrella => true
       case Grupo(items) => items != [] && forall it <- items :: BuenItem(it)
  }

  predicate BuenItem(it: Item)
    decreases it
  {
    && TodoBlanco(it.antes) && TodoBlanco(it.despues)
    && match it.que
       case Vacio => true
       case Self => true
       case Sub(u) => Bueno(u) && !(u.segs == ["self"] && u.fin == Nombre(""))
  }

  // -- Cutting a printed group ----------------------------------------------------------------------------------------

  lemma {:induction false} PasaLlano(x: string, resto: string, prof: nat, acum: string)
    requires SinLlaves(x)
    ensures Piezas(x + resto, prof, acum) == Piezas(resto, prof, acum + x)
  {
    if x == "" {
      assert x + resto == resto && acum + x == acum;
    } else {
      assert x[0] in x;
      assert (x + resto)[1..] == x[1..] + resto;
      assert forall c <- x[1..] :: c in x;
      PasaLlano(x[1..], resto, prof, acum + [x[0]]);
      assert acum + [x[0]] + x[1..] == acum + x;
    }
  }

  lemma PasaLlave(resto: string, prof: nat, acum: string)
    ensures Piezas("{" + resto, prof, acum) == Piezas(resto, prof + 1, acum + "{")
    ensures Piezas("}" + resto, prof + 1, acum) == Piezas(resto, prof, acum + "}")
    ensures Piezas("," + resto, prof + 1, acum) == Piezas(resto, prof + 1, acum + ",")
    ensures Piezas("," + resto, 0, acum) == [acum] + Piezas(resto, 0, "")
    ensures Piezas("}" + resto, 0, acum) == [acum]
  {
    assert ("{" + resto)[1..] == resto && ("}" + resto)[1..] == resto && ("," + resto)[1..] == resto;
  }

  lemma {:induction false} SegsLlanos(segs: seq<string>)
    requires forall s <- segs :: EsIdent(s)
    ensures SinLlaves(ImprimeSegs(segs) + Doble(segs)) && SinLlaves(ImprimeSegs(segs))
  {
    if |segs| > 0 {
      assert segs[0] in segs;
      SegsLlanos(segs[1..]);
    }
  }

  lemma BlancosLlanos(s: string)
    requires TodoBlanco(s)
    ensures SinLlaves(s)
  {
    forall c <- s
      ensures c != '{' && c != '}' && c != ','
    {
      assert Blanco(c);
    }
  }

  /** A whole printed tree is passed over at any depth. */
  lemma {:induction false} PasaUso(u: Uso, resto: string, prof: nat, acum: string)
    requires Bueno(u)
    ensures Piezas(Imprime(u) + resto, prof, acum) == Piezas(resto, prof, acum + Imprime(u))
    decreases u, 0
  {
    hide Piezas, SinLlaves, ImprimeSegs, Doble;
    SegsLlanos(u.segs);
    match u.fin {
      case Nombre(alias) =>
        AliasLlano(ImprimeSegs(u.segs), alias);
        PasaLlano(ImprimeSegs(u.segs) + alias, resto, prof, acum);
      case Estrella =>
        AliasLlano(ImprimeSegs(u.segs) + Doble(u.segs), ImprimeSegs(u.segs));
        PasaLlano(ImprimeSegs(u.segs) + Doble(u.segs) + "*", resto, prof, acum);
      case Grupo(items) =>
        var a := ImprimeSegs(u.segs) + Doble(u.segs);
        var b := ImprimeItems(items);
        var r1 := b + ("}" + resto);
        assert Imprime(u) + resto == a + ("{" + r1);
        PasaLlano(a, "{" + r1, prof, acum);
        PasaLlave(r1, prof, acum + a);
        PasaItems(items, "}" + resto, prof + 1, acum + a + "{");
        PasaLlave(resto, prof, acum + a + "{" + b);
        assert acum + a + "{" + b + "}" == acum + Imprime(u);
    }
  }

  lemma AliasLlano(a: string, b: string)
    requires SinLlaves(a) && SinLlaves(b)
    ensures SinLlaves(a + b) && SinLlaves(a + "*")
  {
  }

  lemma {:induction false} PasaItem(it: Item, resto: string, prof: nat, acum: string)
    requires BuenItem(it)
    ensures Piezas(ImprimeItem(it) + resto, prof, acum) == Piezas(resto, prof, acum + ImprimeItem(it))
    decreases it, 0
  {
    hide Piezas, SinLlaves, TodoBlanco, Imprime;
    BlancosLlanos(it.antes);
    BlancosLlanos(it.despues);
    var q := ImprimeQue(it.que);
    var r := it.despues + resto;
    assert ImprimeItem(it) + resto == it.antes + (q + r);
    PasaLlano(it.antes, q + r, prof, acum);
    match it.que {
      case Vacio =>
        assert q + r == r && acum + it.antes + q == acum + it.antes;
      case Self =>
        assert SinLlaves("self") by { SelfLlano(); }
        PasaLlano(q, r, prof, acum + it.antes);
      case Sub(u) =>
        PasaUso(u, r, prof, acum + it.antes);
    }
    PasaLlano(it.despues, resto, prof, acum + it.antes + q);
    assert acum + it.antes + q + it.despues == acum + ImprimeItem(it);
  }

  lemma SelfLlano()
    ensures SinLlaves("self")
  {
  }

  lemma {:induction false} PasaItems(items: seq<Item>, resto: string, prof: nat, acum: string)
    requires prof > 0 && forall it <- items :: BuenItem(it)
    ensures Piezas(ImprimeItems(items) + resto, prof, acum) == Piezas(resto, prof, acum + ImprimeItems(items))
    decreases items, 0
  {
    hide Piezas, ImprimeItem, BuenItem;
    if items == [] {
      assert "" + resto == resto && acum + "" == acum;
    } else if |items| == 1 {
      PasaItem(items[0], resto, prof, acum);
    } else {
      var a, b := ImprimeItem(items[0]), ImprimeItems(items[1..]);
      var r := b + resto;
      assert ImprimeItems(items) + resto == a + ("," + r);
      PasaItem(items[0], "," + r, prof, acum);
      PasaLlave(r, prof - 1, acum + a);
      PasaItems(items[1..], resto, prof, acum + a + ",");
      assert acum + a + "," + b == acum + ImprimeItems(items);
    }
  }

  function TextosDe(items: seq<Item>): (r: seq<string>)
    ensures |r| == |items|
  {
    if items == [] then [] else [ImprimeItem(items[0])] + TextosDe(items[1..])
  }

  /** A printed group is cut into its pieces, and what follows its closing brace does not matter. */
  lemma {:induction false} PiezasDeItems(items: seq<Item>, cola: string)
    requires items != [] && forall it <- items :: BuenItem(it)
    ensures Piezas(ImprimeItems(items) + ("}" + cola), 0, "") == TextosDe(items)
  {
    hide Piezas, ImprimeItem, BuenItem;
    var a := ImprimeItem(items[0]);
    assert "" + a == a;
    if |items| == 1 {
      PasaItem(items[0], "}" + cola, 0, "");
      PasaLlave(cola, 0, a);
    } else {
      var r := ImprimeItems(items[1..]) + ("}" + cola);
      assert ImprimeItems(items) + ("}" + cola) == a + ("," + r);
      PasaItem(items[0], "," + r, 0, "");
      PasaLlave(r, 0, a);
      PiezasDeItems(items[1..], cola);
    }
  }

  // -- Reading what was printed ---------------------------------------------------------------------------------

  lemma {:induction false} ColaEntera(s: string, resto: string)
    requires (forall c <- s :: EsLetraODigito(c)) && (resto != "" ==> !EsLetraODigito(resto[0]))
    ensures LargoCola(s + resto) == |s|
  {
    if s == "" {
      assert s + resto == resto;
    } else {
      assert s[0] in s;
      assert (s + resto)[1..] == s[1..] + resto;
      ColaEntera(s[1..], resto);
    }
  }

  lemma IdentEntero(s: string, resto: string)
    requires EsIdent(s) && (resto != "" ==> !EsLetraODigito(resto[0]))
    ensures LargoIdent(s + resto) == |s| && (s + resto)[..|s|] == s && (s + resto)[|s|..] == resto
  {
    assert (s + resto)[1..] == s[1..] + resto;
    ColaEntera(s[1..], resto);
  }

  /** One name and what its `::` leads to. */
  lemma UnSegmento(s: string, r: string, prefijo: Ruta)
    requires EsIdent(s)
    ensures DeRuta(s + ("::" + r), prefijo)
            == if "{" <= r then DeGrupo(r[1..], prefijo + [s]) else DeRuta(r, prefijo + [s])
  {
    hide LargoIdent, DeGrupo;
    IdentEntero(s, "::" + r);
    assert ("::" + r)[2..] == r;
    if "{" <= r {
      assert ("::" + r)[3..] == r[1..];
    }
  }

  lemma UltimoSegmento(s: string, r: string, prefijo: Ruta)
    requires EsIdent(s) && NoSigue(r)
    ensures DeRuta(s + r, prefijo) == [prefijo + [s]]
  {
    hide LargoIdent, DeGrupo;
    IdentEntero(s, r);
  }

  lemma UnSolo(segs: seq<string>)
    requires |segs| == 1
    ensures ImprimeSegs(segs) == segs[0]
  {
  }

  lemma AsociaCuatro(a: string, b: string, c: string, d: string)
    ensures a + b + c + d == a + (b + (c + d))
  {
  }

  lemma SegsParte(segs: seq<string>, resto: string)
    requires |segs| > 1
    ensures ImprimeSegs(segs) + resto == segs[0] + ("::" + (ImprimeSegs(segs[1..]) + resto))
  {
    AsociaCuatro(segs[0], "::", ImprimeSegs(segs[1..]), resto);
  }

  lemma SegsSinLlave(segs: seq<string>, r: string)
    requires segs != [] && forall s <- segs :: EsIdent(s)
    ensures !("{" <= ImprimeSegs(segs) + r)
  {
    SegsEmpiezan(segs);
    assert (ImprimeSegs(segs) + r)[0] == ImprimeSegs(segs)[0];
  }

  /** Names followed by `::` are put on the path one by one, and then a group or the rest is read. */
  lemma {:induction false} SegsLeidos(segs: seq<string>, resto: string, prefijo: Ruta)
    requires segs != [] && forall s <- segs :: EsIdent(s)
    ensures DeRuta(ImprimeSegs(segs) + "::" + resto, prefijo)
            == if "{" <= resto then DeGrupo(resto[1..], prefijo + segs) else DeRuta(resto, prefijo + segs)
  {
    hide DeGrupo, DeRuta, EsIdent, ImprimeSegs;
    var s := segs[0];
    assert s in segs;
    assert ImprimeSegs(segs) + "::" + resto == ImprimeSegs(segs) + ("::" + resto);
    if |segs| == 1 {
      UnSolo(segs);
      UnSegmento(s, resto, prefijo);
      assert prefijo + [s] == prefijo + segs;
    } else {
      var r := ImprimeSegs(segs[1..]) + ("::" + resto);
      assert r == ImprimeSegs(segs[1..]) + "::" + resto;
      SegsParte(segs, "::" + resto);
      UnSegmento(s, r, prefijo);
      SegsSinLlave(segs[1..], "::" + resto);
      SegsLeidos(segs[1..], resto, prefijo + [s]);
      assert prefijo + [s] + segs[1..] == prefijo + segs;
    }
  }

  lemma SegsEmpiezan(segs: seq<string>)
    requires segs != [] && forall s <- segs :: EsIdent(s)
    ensures ImprimeSegs(segs) != "" && EsLetra(ImprimeSegs(segs)[0])
    ensures ImprimeSegs(segs)[0] == segs[0][0]
  {
    assert segs[0] in segs;
  }

  lemma SegsYGrupo(segs: seq<string>, resto: string, prefijo: Ruta)
    requires forall s <- segs :: EsIdent(s)
    ensures DeRuta(ImprimeSegs(segs) + Doble(segs) + ("{" + resto), prefijo) == DeGrupo(resto, prefijo + segs)
  {
    hide DeGrupo, LargoIdent, EsIdent;
    var r := "{" + resto;
    assert r[1..] == resto;
    if segs == [] {
      assert ImprimeSegs(segs) + Doble(segs) + r == r && prefijo + segs == prefijo;
      NoEsIdent(r);
    } else {
      SegsLeidos(segs, r, prefijo);
    }
  }

  lemma NoEsIdent(s: string)
    requires s != "" && !EsLetra(s[0])
    ensures LargoIdent(s) == 0
  {
  }

  /** The last name of a path. */
  lemma {:induction false} SegsYFin(segs: seq<string>, resto: string, prefijo: Ruta)
    requires segs != [] && (forall s <- segs :: EsIdent(s)) && NoSigue(resto)
    ensures DeRuta(ImprimeSegs(segs) + resto, prefijo) == [prefijo + segs]
  {
    hide DeGrupo, DeRuta, EsIdent, NoSigue, ImprimeSegs;
    var s := segs[0];
    assert s in segs;
    if |segs| == 1 {
      UnSolo(segs);
      UltimoSegmento(s, resto, prefijo);
      assert prefijo + [s] == prefijo + segs;
    } else {
      var r := ImprimeSegs(segs[1..]) + resto;
      SegsParte(segs, resto);
      UnSegmento(s, r, prefijo);
      SegsSinLlave(segs[1..], resto);
      SegsYFin(segs[1..], resto, prefijo + [s]);
      assert prefijo + [s] + segs[1..] == prefijo + segs;
    }
  }

  /** A printed tree begins and ends with something that is not blank, so the blanks around it are the
      only ones that go. */
  lemma ImprimeNucleo(u: Uso)
    requires Bueno(u)
    ensures var p := Imprime(u); p != "" && !Blanco(p[0]) && !Blanco(p[|p| - 1])
  {
    var p := Imprime(u);
    if u.segs != [] {
      SegsEmpiezan(u.segs);
      SegsAcaban(u.segs);
      assert p[0] == ImprimeSegs(u.segs)[0];
    }
    match u.fin {
      case Nombre(alias) =>
        assert p[|p| - 1] == if alias == "" then ImprimeSegs(u.segs)[|p| - 1] else alias[|alias| - 1];
      case Estrella =>
        assert p[|p| - 1] == '*';
        assert u.segs == [] ==> p[0] == '*';
      case Grupo(items) =>
        assert p[|p| - 1] == '}';
        assert u.segs == [] ==> p[0] == '{';
    }
  }

  lemma {:induction false} SegsAcaban(segs: seq<string>)
    requires segs != [] && forall s <- segs :: EsIdent(s)
    ensures ImprimeSegs(segs) != "" && EsLetraODigito(ImprimeSegs(segs)[|ImprimeSegs(segs)| - 1])
  {
    assert segs[0] in segs;
    if |segs| == 1 {
      assert segs[0][|segs[0]| - 1] in segs[0];
    } else {
      SegsAcaban(segs[1..]);
    }
  }

  lemma DistintoDeSelf(p: string, k: nat)
    requires k < |p| && !EsLetra(p[k])
    ensures p != "self"
  {
  }

  /** Only the path `self` prints as `self`. */
  lemma ImprimeSelf(u: Uso)
    requires Bueno(u)
    ensures Imprime(u) == "self" ==> u.segs == ["self"] && u.fin == Nombre("")
  {
    var p := Imprime(u);
    match u.fin {
      case Estrella =>
        DistintoDeSelf(p, |p| - 1);
      case Grupo(items) =>
        DistintoDeSelf(p, |p| - 1);
      case Nombre(alias) =>
        var s := u.segs[0];
        assert s in u.segs;
        if |u.segs| > 1 {
          SegsParte(u.segs, alias);
          assert p[|s|] == ':';
          DistintoDeSelf(p, |s|);
        } else if alias != "" {
          assert p == s + alias && p[|s|] == alias[0];
          DistintoDeSelf(p, |s|);
        } else {
          assert p == s && u.segs == [s];
        }
    }
  }

  /** Reading the print of any tree, with any prefix before it and anything harmless after it, gives its
      root-to-leaf paths in their order. */
  lemma {:induction false} LeeImprime(u: Uso, prefijo: Ruta, cola: string)
    requires Bueno(u) && (u.fin.Nombre? ==> NoSigue(u.fin.alias + cola))
    ensures DeRuta(Imprime(u) + cola, prefijo) == Caminos(u, prefijo)
    decreases u, 1
  {
    hide Piezas, LargoIdent;
    match u.fin {
      case Nombre(alias) =>
        assert Imprime(u) + cola == ImprimeSegs(u.segs) + (alias + cola);
        SegsYFin(u.segs, alias + cola, prefijo);
      case Estrella =>
        var r := "*" + cola;
        NoEsIdent(r);
        if u.segs == [] {
          assert Imprime(u) + cola == r && prefijo + u.segs == prefijo;
        } else {
          assert Imprime(u) + cola == ImprimeSegs(u.segs) + "::" + r;
          SegsLeidos(u.segs, r, prefijo);
        }
      case Grupo(items) =>
        var r := ImprimeItems(items) + ("}" + cola);
        assert Imprime(u) + cola == ImprimeSegs(u.segs) + Doble(u.segs) + ("{" + r);
        SegsYGrupo(u.segs, r, prefijo);
        PiezasDeItems(items, cola);
        PiezasCortas(r, 0, "");
        LeeItems(items, prefijo + u.segs, |r|);
    }
  }

  lemma {:induction false} LeeItem(it: Item, prefijo: Ruta)
    requires BuenItem(it)
    ensures DePieza(ImprimeItem(it), prefijo) == CaminosItem(it, prefijo)
    decreases it, 0
  {
    hide Pelar, DeRuta;
    var q := ImprimeQue(it.que);
    match it.que {
      case Vacio =>
        PelarNucleo(it.antes, q, it.despues);
      case Self =>
        PelarNucleo(it.antes, q, it.despues);
      case Sub(u) =>
        ImprimeNucleo(u);
        PelarNucleo(it.antes, q, it.despues);
        ImprimeSelf(u);
        if u.fin.Nombre? {
          assert u.fin.alias + "" == u.fin.alias;
        }
        LeeImprime(u, prefijo, "");
        assert q + "" == q;
    }
  }

  lemma {:induction false} LeeItems(items: seq<Item>, prefijo: Ruta, tope: nat)
    requires (forall it <- items :: BuenItem(it)) && forall p <- TextosDe(items) :: |p| <= tope
    ensures DePiezas(TextosDe(items), prefijo, tope) == CaminosItems(items, prefijo)
    decreases items, 0
  {
    hide DePieza, ImprimeItem, CaminosItem;
    if items != [] {
      var ps := TextosDe(items);
      assert ps[0] == ImprimeItem(items[0]) && ps[1..] == TextosDe(items[1..]);
      LeeItem(items[0], prefijo);
      LeeItems(items[1..], prefijo, tope);
    }
  }

  // -- A whole file ---------------------------------------------------------------------------------------------------

  const CRATE := "crate::"

  /** `usos` of a text without comments: a path after each `crate::` that no letter comes before. */
  function UsosDe(s: string, previo: Option<char>): seq<Ruta>
    decreases |s|
  {
    if s == "" then []
    else if CRATE <= s && !(previo.Some? && EsLetraODigito(previo.value)) then
      DeRuta(s[7..], []) + UsosDe(s[7..], Some(':'))
    else UsosDe(s[1..], Some(s[0]))
  }

  /** The loop of `usos`. Letters beyond ASCII do not come right before `crate::` here. */
  method UsosEn(t: string) returns (salida: seq<Ruta>)
    ensures salida == UsosDe(t, None)
  {
    hide DeRuta;
    salida := [];
    var i := 0;
    ghost var previo: Option<char> := None;
    assert t[0..] == t;
    while i < |t|
      invariant i <= |t| && previo == (if i == 0 then None else Some(t[i - 1]))
      invariant salida + UsosDe(t[i..], previo) == UsosDe(t, None)
    {
      ghost var s := t[i..];
      if Empieza(t, CRATE, i) && (i == 0 || !EsLetraODigito(t[i - 1])) {
        assert CRATE <= s && s[7..] == t[i + 7..];
        var mas := RutaDe(t, i + 7, []);
        assert salida + (mas + UsosDe(t[i + 7..], Some(':'))) == (salida + mas) + UsosDe(t[i + 7..], Some(':'));
        salida := salida + mas;
        assert t[i + 6] == t[i..i + 7][6] == ':';
        i := i + 7;
        previo := Some(':');
      } else {
        assert s[1..] == t[i + 1..];
        assert CRATE <= s <==> Empieza(t, CRATE, i);
        previo := Some(t[i]);
        i := i + 1;
      }
    }
  }

  /** No `crate::` begins inside `x`. */
  predicate NoDiceCrate(x: string) { forall k | 0 <= k < |x| :: !(CRATE <= x[k..]) }

  function Lineas(us: seq<Uso>): string {
    if us == [] then "" else "use crate::" + Imprime(us[0]) + ";\n" + Lineas(us[1..])
  }

  function CaminosTodos(us: seq<Uso>): seq<Ruta> {
    if us == [] then [] else Caminos(us[0], []) + CaminosTodos(us[1..])
  }

  lemma NoEmpieza(p: string, t: string, k: nat)
    requires k < |p| && k < |t| && p[k] != t[k]
    ensures !(p <= t)
  {
    if |p| <= |t| {
      assert t[..|p|][k] == t[k];
    }
  }

  lemma MismoPrincipio(p: string, x: string, cola: string)
    requires |p| <= |x|
    ensures p <= x + cola <==> p <= x
  {
    assert (x + cola)[..|p|] == x[..|p|];
  }

  lemma {:induction false} SaltaTexto(x: string, cola: string, previo: Option<char>)
    requires x != "" && x[|x| - 1] == '\n' && NoDiceCrate(x)
    ensures UsosDe(x + cola, previo) == UsosDe(cola, Some('\n'))
  {
    hide DeRuta;
    var t := x + cola;
    assert t[1..] == x[1..] + cola;
    assert x[0..] == x && !(CRATE <= x[0..]);
    if |x| < 7 {
      NoEmpieza(CRATE, t, |x| - 1);
    } else {
      MismoPrincipio(CRATE, x, cola);
    }
    if |x| == 1 {
      assert x[1..] + cola == cola;
    } else {
      forall k | 0 <= k < |x[1..]|
        ensures !(CRATE <= x[1..][k..])
      {
        assert x[1..][k..] == x[k + 1..];
        assert !(CRATE <= x[k + 1..]);
      }
      SaltaTexto(x[1..], cola, Some(x[0]));
    }
  }

  /** A file of `use` lines gives the paths of all its trees, in order. */
  lemma {:induction false} UsosDeLineas(us: seq<Uso>, previo: Option<char>)
    requires forall u <- us :: Bueno(u) && NoDiceCrate(Imprime(u) + ";\n")
    ensures UsosDe(Lineas(us), previo) == CaminosTodos(us)
  {
    hide DeRuta, Caminos, Imprime, UsosDe, NoDiceCrate, Bueno;
    if us != [] {
      var u := us[0];
      assert u in us;
      var x := Imprime(u) + ";\n";
      var resto := Lineas(us[1..]);
      var s := x + resto;
      var t := Lineas(us);
      assert t == "use " + (CRATE + s);
      CuatroLetras(CRATE + s, previo);
      UnCrate(s);
      SaltaTexto(x, resto, Some(':'));
      UsosDeLineas(us[1..], Some('\n'));
      var cola := ";\n" + resto;
      assert s == Imprime(u) + cola;
      ColaInocua(u, cola);
      LeeImprime(u, [], cola);
    } else {
      UsosVacio(previo);
    }
  }

  lemma UsosVacio(previo: Option<char>)
    ensures UsosDe("", previo) == []
  {
  }

  lemma UnaLetra(c: char, s: string, previo: Option<char>)
    requires c != 'c'
    ensures UsosDe([c] + s, previo) == UsosDe(s, Some(c))
  {
    hide DeRuta;
    NoEmpieza(CRATE, [c] + s, 0);
    assert ([c] + s)[1..] == s;
  }

  lemma UnCrate(s: string)
    ensures UsosDe(CRATE + s, Some(' ')) == DeRuta(s, []) + UsosDe(s, Some(':'))
  {
    hide DeRuta;
    assert (CRATE + s)[..7] == CRATE && (CRATE + s)[7..] == s;
  }

  lemma ColaInocua(u: Uso, cola: string)
    requires Bueno(u) && cola != "" && cola[0] == ';'
    ensures u.fin.Nombre? ==> NoSigue(u.fin.alias + cola)
  {
    if u.fin.Nombre? {
      PuntoYComa(u.fin.alias, cola);
    }
  }

  lemma PuntoYComa(alias: string, cola: string)
    requires BuenAlias(alias) && cola != "" && cola[0] == ';'
    ensures NoSigue(alias + cola)
  {
    if |alias| >= 2 {
      MismoPrincipio("::", alias, cola);
    } else {
      assert (alias + cola)[|alias|] == ';';
      NoEmpieza("::", alias + cola, |alias|);
    }
  }

  lemma CuatroLetras(s: string, previo: Option<char>)
    ensures UsosDe("use " + s, previo) == UsosDe(s, Some(' '))
  {
    hide UsosDe;
    var t3, t2, t1 := " " + s, "e " + s, "se " + s;
    assert "use " + s == "u" + t1 && t1 == "s" + t2 && t2 == "e" + t3;
    UnaLetra('u', t1, previo);
    UnaLetra('s', t2, Some('u'));
    UnaLetra('e', t3, Some('s'));
    UnaLetra(' ', s, Some('e'));
  }
}
