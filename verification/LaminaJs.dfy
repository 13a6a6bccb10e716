/** The DOM walk of `lamina.js`: from a laid-out page to the lines of a LAMINA.
    The browser's answers (rectangles, styles, the base letter of an accented one) are
    arbitrary inputs; a JavaScript character is a `char`. */
module LaminaJs {
  import opened Textos
  import opened LaminaJuez

  // -- What the browser hands over ------------------------------------------------------------

  datatype Rect = Rect(left: real, top: real, right: real, bottom: real)

  type Canal = n: nat | n < 256

  datatype Rgba = Rgba(r: Canal, g: Canal, b: Canal, alfa: Option<real>)

  datatype Estilo = Estilo(color: Option<Rgba>, fondo: Option<Rgba>, letra: Option<real>,
                           oculto: bool, recortaDesborde: bool)

  datatype Nodo =
    | Txt(valor: string, rects: (nat, nat) -> seq<Rect>)
    | Elem(tag: string, estilo: Estilo, rect: Rect, rectsLinea: seq<Rect>, fuente: string, destino: string,
           tipo: string, nombre: string, valorCampo: string, hijos: seq<Nodo>)
    | Otro

  /** The page: size, scroll, base letters, background of the document and body. */
  datatype Pagina = Pagina(W: nat, H: nat, sx: real, sy: real, base: char -> char,
                           fondoDoc: Option<Rgba>, body: Option<Nodo>)

  ghost predicate PaginaValida(p: Pagina) { 1 <= p.W <= ANCHO_MAX && 1 <= p.H <= ALTO_MAX }

  // -- Colours ----------------------------------------------------------------------------------

  function Hex2(n: Canal): (s: string)
    ensures |s| == 2 && EsHex(s[0]) && EsHex(s[1])
  {
    ["0123456789abcdef"[n / 16], "0123456789abcdef"[n % 16]]
  }

  /** `hex`: no colour at all when the alpha is zero. */
  function Hex(c: Option<Rgba>): (r: Option<string>)
    ensures r.Some? ==> ColorBueno(r.value)
    ensures r.None? <==> c.None? || c.value.alfa == Some(0.0)
  {
    if c.None? || c.value.alfa == Some(0.0) then None
    else Some(Hex2(c.value.r) + Hex2(c.value.g) + Hex2(c.value.b))
  }

  function ColorDe(c: Option<Rgba>): (s: string)
    ensures ColorBueno(s)
  {
    if Hex(c).Some? then Hex(c).value else "000000"
  }

  // -- Zones: inside the page or clipped ------------------------------------------------------------

  datatype Recorte = Recorte(x: nat, y: nat, w: nat, h: nat)

  function Techo(x: real): int { -((-x).Floor) }

  /** Pixel `i` touches the real interval [a, b). */
  predicate Toca(a: real, b: real, i: int) { a.Floor <= i < Techo(b) }

  /** Column `i` of the page is touched by the rectangle, and row `j`. */
  predicate ColumnaPix(r: Rect, p: Pagina, i: int) { Toca(r.left + p.sx, r.right + p.sx, i) && 0 <= i < p.W }

  predicate FilaPix(r: Rect, p: Pagina, j: int) { Toca(r.top + p.sy, r.bottom + p.sy, j) && 0 <= j < p.H }

  /** `zona`: the pixels that the rectangle touches and the page has, or nothing. */
  function ZonaDe(r: Rect, p: Pagina): (z: Option<Recorte>)
    ensures z.Some? ==> z.value.w > 0 && z.value.h > 0 && z.value.x + z.value.w <= p.W && z.value.y + z.value.h <= p.H
  {
    var x := (r.left + p.sx).Floor;
    var y := (r.top + p.sy).Floor;
    var x2 := Techo(r.right + p.sx);
    var y2 := Techo(r.bottom + p.sy);
    var x := if x < 0 then 0 else x;
    var y := if y < 0 then 0 else y;
    var x2 := if x2 > p.W then p.W else x2;
    var y2 := if y2 > p.H then p.H else y2;
    if x2 - x <= 0 || y2 - y <= 0 then None else Some(Recorte(x, y, x2 - x, y2 - y))
  }

  /** The clipped zone is exactly the touched pixels of the page, and there is none only when the
      rectangle and the page share no pixel. */
  lemma ZonaExacta(r: Rect, p: Pagina)
    ensures var z := ZonaDe(r, p);
            if z.Some? then
              && (forall i: int :: ColumnaPix(r, p, i) <==> z.value.x <= i < z.value.x + z.value.w)
              && (forall j: int :: FilaPix(r, p, j) <==> z.value.y <= j < z.value.y + z.value.h)
            else forall i: int, j: int :: !(ColumnaPix(r, p, i) && FilaPix(r, p, j))
  {
  }

  // -- Text -------------------------------------------------------------------------------------------

  /** JavaScript's `\s`. */
  predicate BlancoJs(c: char) {
    var n := c as int;
    || 0x09 <= n <= 0x0D || n == 0x20 || n == 0xA0 || n == 0x1680 || 0x2000 <= n <= 0x200A
    || n == 0x2028 || n == 0x2029 || n == 0x202F || n == 0x205F || n == 0x3000 || n == 0xFEFF
  }

  predicate HayLetra(s: string) { exists c <- s :: !BlancoJs(c) }

  function LetraLatina(c: char, base: char -> char): (r: char)
    ensures EsLatin(r) && r as int < 256
  {
    if EsImprimible(c) || 0xA0 <= c as int <= 0xFF then c
    else if EsImprimible(base(c)) then base(c)
    else '?'
  }

  function EnLatin(s: string, base: char -> char): (r: string)
    ensures |r| == |s| && TodoLatin(r)
    ensures forall k | 0 <= k < |s| :: r[k] == LetraLatina(s[k], base)
  {
    if s == "" then "" else [LetraLatina(s[0], base)] + EnLatin(s[1..], base)
  }

  /** `latin1`. */
  method Latin1(s: string, base: char -> char) returns (out: string)
    ensures out == EnLatin(s, base)
  {
    out := "";
    var i := 0;
    while i < |s|
      invariant 0 <= i <= |s| && |out| == i
      invariant forall k | 0 <= k < i :: out[k] == LetraLatina(s[k], base)
    {
      var c := s[i];
      if 0x20 <= c as int <= 0x7E || 0xA0 <= c as int <= 0xFF {
        out := out + [c];
      } else {
        var b := base(c);
        out := out + [if 0x20 <= b as int <= 0x7E then b else '?'];
      }
      i := i + 1;
    }
  }

  /** `escalaDe`: the font size as a whole number of 16-pixel letters, 1 to 4. */
  function EscalaDe(px: real): (e: nat)
    ensures 1 <= e <= ESCALA_MAX
  {
    var e := (px / (LETRA_ALTO as real) + 0.5).Floor;
    if e < 1 then 1 else if e > ESCALA_MAX then ESCALA_MAX else e
  }

  function LetraDe(px: Option<real>): real {
    if px.None? || px.value == 0.0 then 16.0 else px.value
  }

  // -- Whitespace collapsing and its inverse ------------------------------------------------------------

  function SaltaBlancos(s: string): (r: string)
    ensures |r| <= |s| && (r == "" || !BlancoJs(r[0]))
  {
    if s != "" && BlancoJs(s[0]) then SaltaBlancos(s[1..]) else s
  }

  /** `s.replace(/\s+/g, " ")`: every run of blanks becomes one space. */
  function JuntaBlancos(s: string): string
    decreases |s|
  {
    if s == "" then ""
    else if BlancoJs(s[0]) then " " + JuntaBlancos(SaltaBlancos(s[1..]))
    else [s[0]] + JuntaBlancos(s[1..])
  }

  /** The positions of `orig` from `i` on that collapsing keeps: all but a blank after a blank. */
  function Guardadas(orig: string, i: nat, enBlanco: bool): seq<nat>
    requires i <= |orig|
    decreases |orig| - i
  {
    if i == |orig| then []
    else if BlancoJs(orig[i]) && enBlanco then Guardadas(orig, i + 1, true)
    else [i] + Guardadas(orig, i + 1, BlancoJs(orig[i]))
  }

  function Original(orig: string, iJunto: nat): nat {
    var ks := Guardadas(orig, 0, false);
    if iJunto < |ks| then ks[iJunto] else |orig|
  }

  lemma UnaGuardada(orig: string, i: nat, enBlanco: bool, antes: seq<nat>)
    requires i < |orig|
    ensures var b := BlancoJs(orig[i]);
            if b && enBlanco then Guardadas(orig, i, enBlanco) == Guardadas(orig, i + 1, true)
            else && (antes + Guardadas(orig, i, enBlanco))[|antes|] == i
                 && |antes + Guardadas(orig, i, enBlanco)| > |antes|
                 && antes + Guardadas(orig, i, enBlanco) == (antes + [i]) + Guardadas(orig, i + 1, b)
  {
    hide BlancoJs;
  }

  lemma GuardadasFin(orig: string, enBlanco: bool)
    ensures Guardadas(orig, |orig|, enBlanco) == []
  {
  }

  /** `indiceOriginal`. */
  method IndiceOriginal(orig: string, iJunto: nat) returns (r: nat)
    ensures r == Original(orig, iJunto)
  {
    hide BlancoJs, Guardadas;
    var j, enBlanco := 0, false;
    var i := 0;
    ghost var antes: seq<nat> := [];
    while i < |orig|
      invariant 0 <= i <= |orig| && j == |antes| <= iJunto
      invariant Guardadas(orig, 0, false) == antes + Guardadas(orig, i, enBlanco)
    {
      var b := BlancoJs(orig[i]);
      UnaGuardada(orig, i, enBlanco, antes);
      if b && enBlanco {
        i := i + 1;
        continue;
      }
      if j == iJunto {
        return i;
      }
      j := j + 1;
      antes := antes + [i];
      enBlanco := b;
      i := i + 1;
    }
    GuardadasFin(orig, enBlanco);
    return |orig|;
  }

  /** Strictly increasing positions in lo .. hi. */
  predicate Crece(ks: seq<nat>, lo: nat, hi: nat) {
    && (forall a | 0 <= a < |ks| :: lo <= ks[a] < hi)
    && forall a, b | 0 <= a < b < |ks| :: ks[a] < ks[b]
  }

  lemma {:induction false} GuardadasCrecen(orig: string, i: nat, enBlanco: bool)
    requires i <= |orig|
    ensures Crece(Guardadas(orig, i, enBlanco), i, |orig|)
    decreases |orig| - i
  {
    if i < |orig| {
      var b := BlancoJs(orig[i]);
      GuardadasCrecen(orig, i + 1, b);
      if !(b && enBlanco) {
        assert Guardadas(orig, i, enBlanco) == [i] + Guardadas(orig, i + 1, b);
      }
    }
  }

  function Letra(c: char): char { if BlancoJs(c) then ' ' else c }

  lemma {:induction false} GuardadasSonJuntas(orig: string, i: nat, enBlanco: bool)
    requires i <= |orig|
    ensures var ks := Guardadas(orig, i, enBlanco);
            var s := JuntaBlancos(if enBlanco then SaltaBlancos(orig[i..]) else orig[i..]);
            |ks| == |s| && forall a | 0 <= a < |ks| :: ks[a] < |orig| && s[a] == Letra(orig[ks[a]])
    decreases |orig| - i
  {
    GuardadasCrecen(orig, i, enBlanco);
    if i < |orig| {
      assert orig[i..][1..] == orig[i + 1..];
      if BlancoJs(orig[i]) && enBlanco {
        GuardadasSonJuntas(orig, i + 1, true);
      } else {
        GuardadasSonJuntas(orig, i + 1, BlancoJs(orig[i]));
      }
    }
  }

  /** `indiceOriginal` undoes the collapsing: collapsed position j goes to the character it stands
      for (the first blank of a run), order is kept strictly, and the end goes to the end. */
  lemma OriginalDeshaceJunta(orig: string)
    ensures var s := JuntaBlancos(orig);
            && (forall j | 0 <= j < |s| :: Original(orig, j) < |orig| && s[j] == Letra(orig[Original(orig, j)]))
            && (forall j, k | 0 <= j < k <= |s| :: Original(orig, j) < Original(orig, k))
            && Original(orig, |s|) == |orig|
            && forall j | 0 <= j < |s| && BlancoJs(orig[Original(orig, j)]) ::
                 Original(orig, j) == 0 || !BlancoJs(orig[Original(orig, j) - 1])
  {
    GuardadasCrecen(orig, 0, false);
    GuardadasSonJuntas(orig, 0, false);
    assert orig[0..] == orig;
    var ks := Guardadas(orig, 0, false);
    forall j | 0 <= j < |ks| && BlancoJs(orig[ks[j]])
      ensures ks[j] == 0 || !BlancoJs(orig[ks[j] - 1])
    {
      PrimerBlanco(orig, 0, false, j);
    }
  }

  /** A kept blank is the first of its run. */
  lemma {:induction false} PrimerBlanco(orig: string, i: nat, enBlanco: bool, a: nat)
    requires i <= |orig| && (i > 0 ==> enBlanco == BlancoJs(orig[i - 1])) && (i == 0 ==> !enBlanco)
    ensures a < |Guardadas(orig, i, enBlanco)| ==>
              var k := Guardadas(orig, i, enBlanco)[a];
              k < |orig| && (BlancoJs(orig[k]) ==> k == 0 || !BlancoJs(orig[k - 1]))
    decreases |orig| - i
  {
    if i < |orig| {
      if BlancoJs(orig[i]) && enBlanco {
        PrimerBlanco(orig, i + 1, true, a);
      } else if a > 0 {
        PrimerBlanco(orig, i + 1, BlancoJs(orig[i]), a - 1);
      }
    }
  }
}
